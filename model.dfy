/**
 * The datastore of model.js: three SQLite tables, treated as keyed maps.
 *
 * - `giveaways`, keyed by the giveaway id; `entered` defaults to 0 and the
 *   only update the module issues sets it to 1.
 * - `games`, keyed by the Steam id, holding the metadata scraped from Steam.
 * - `games_owned`, a set of Steam ids.
 *
 * Every insert is a plain INSERT whose UNIQUE-constraint failure is swallowed,
 * so inserting a key that is already present changes nothing and reports
 * nothing to the caller. The pure functions below give each statement's
 * effect on the tables; the `Store` class holds the tables and its methods
 * apply those functions in place.
 */
module Model {
  import opened Text

  /**
   * A giveaway as the scraper builds it from its detail page, before it is
   * stored: the price and the Steam id are still the text taken from the page.
   */
  datatype Scraped = Scraped(
    id: int, name: string, price: string, endDate: int, level: string, steamUrl: string, steamId: string)

  /** A row of the `giveaways` table. */
  datatype Giveaway = Giveaway(
    id: int, name: string, steamUrl: string, price: Cell, endDate: int, steamId: Cell, entered: bool)

  /** A row of the `games` table. */
  datatype Game = Game(
    steamId: int, reviewText: string, reviewStats: string, genre: string, metascore: Cell,
    tag1: string, tag2: string, tag3: string, shortDesc: string)

  type Giveaways = map<int, Giveaway>
  type Games = map<int, Game>

  /** Every row is stored under its own primary key. */
  ghost predicate KeyedById(t: Giveaways) {
    forall k :: k in t ==> t[k].id == k
  }

  ghost predicate KeyedBySteamId(t: Games) {
    forall k :: k in t ==> t[k].steamId == k
  }

  /**
   * The row `insertGiveaway` writes from the six columns it names: the
   * NUMERIC price and INTEGER steamId columns convert integer text,
   * and `entered` takes its default 0.
   */
  function NewRow(g: Scraped): Giveaway {
    Giveaway(g.id, g.name, g.steamUrl, IntegerAffinity(g.price), g.endDate, IntegerAffinity(g.steamId), false)
  }

  /** The giveaways table after `insertGiveaway(g)`. */
  function WithGiveaway(t: Giveaways, g: Scraped): Giveaways {
    if g.id in t then t else t[g.id := NewRow(g)]
  }

  /** The giveaways table after `markAsEntered(id)` sets that row's `entered` to 1. */
  function WithEntered(t: Giveaways, id: int): Giveaways {
    if id in t then t[id := t[id].(entered := true)] else t
  }

  /** The games table after `insertGame(game)`. */
  function WithGame(t: Games, game: Game): Games {
    if game.steamId in t then t else t[game.steamId := game]
  }

  /** The games_owned table after `insertOwnedGame(steamId)`. */
  function WithOwned(t: set<int>, steamId: int): set<int> {
    t + {steamId}
  }

  /**
   * The result of `getNewGamesToDetail`: each distinct (steamUrl, steamId)
   * pair of a giveaway whose Steam id is set and has no row in `games`.
   */
  function NewGamesToDetail(giveaways: Giveaways, games: Games): set<(string, Cell)> {
    set k | k in giveaways && Undetailed(giveaways[k].steamId, games) :: (giveaways[k].steamUrl, giveaways[k].steamId)
  }

  /** The Steam id is set, and no game row carries it. */
  predicate Undetailed(steamId: Cell, games: Games) {
    !steamId.Null? && !(steamId.Int? && steamId.n in games)
  }

  /** The three tables together. */
  datatype Tables = Tables(giveaways: Giveaways, games: Games, owned: set<int>)

  ghost predicate Keyed(t: Tables) {
    KeyedById(t.giveaways) && KeyedBySteamId(t.games)
  }

  /** The statements model.js exposes. */
  datatype Op = InsertGiveaway(g: Scraped) | MarkAsEntered(id: int) | InsertGame(game: Game) | InsertOwnedGame(steamId: int)

  function Apply(t: Tables, op: Op): Tables {
    match op
    case InsertGiveaway(g) => t.(giveaways := WithGiveaway(t.giveaways, g))
    case MarkAsEntered(id) => t.(giveaways := WithEntered(t.giveaways, id))
    case InsertGame(game) => t.(games := WithGame(t.games, game))
    case InsertOwnedGame(s) => t.(owned := WithOwned(t.owned, s))
  }

  function ApplyAll(t: Tables, ops: seq<Op>): Tables
    decreases |ops|
  {
    if ops == [] then t else ApplyAll(Apply(t, ops[0]), ops[1..])
  }

  /**
   * `t'` can follow `t`: no row disappears, a stored game never changes, and a
   * stored giveaway changes at most by its `entered` flag going from 0 to 1.
   */
  ghost predicate Grows(t: Tables, t': Tables) {
    && t.owned <= t'.owned
    && (forall k :: k in t.games ==> k in t'.games && t'.games[k] == t.games[k])
    && (forall k :: k in t.giveaways ==>
          && k in t'.giveaways
          && t'.giveaways[k] == t.giveaways[k].(entered := t'.giveaways[k].entered)
          && (t.giveaways[k].entered ==> t'.giveaways[k].entered))
  }

  /** Inserting a giveaway whose id is already stored leaves the table as it was. */
  lemma DuplicateGiveawayIgnored(t: Giveaways, g: Scraped)
    requires g.id in t
    ensures WithGiveaway(t, g) == t
  {
  }

  /** A new giveaway is stored with `entered = 0` and only the six inserted columns. */
  lemma NewGiveawayStored(t: Giveaways, g: Scraped)
    requires g.id !in t
    ensures var t' := WithGiveaway(t, g);
      && t'.Keys == t.Keys + {g.id}
      && t'[g.id] == Giveaway(g.id, g.name, g.steamUrl, IntegerAffinity(g.price), g.endDate, IntegerAffinity(g.steamId), false)
      && forall k :: k in t ==> t'[k] == t[k]
  {
  }

  /** `markAsEntered(id)` sets the flag of that row only; an absent id changes nothing. */
  lemma MarkAsEnteredEffect(t: Giveaways, id: int)
    ensures var t' := WithEntered(t, id);
      && t'.Keys == t.Keys
      && (id in t ==> t'[id] == t[id].(entered := true))
      && (forall k :: k in t && k != id ==> t'[k] == t[k])
      && (id !in t ==> t' == t)
  {
  }

  /** Marking twice is marking once. */
  lemma MarkAsEnteredIdempotent(t: Giveaways, id: int)
    ensures WithEntered(WithEntered(t, id), id) == WithEntered(t, id)
  {
  }

  /** Inserting a game or an owned game whose Steam id is already stored changes nothing. */
  lemma DuplicateGameIgnored(t: Games, game: Game, owned: set<int>, steamId: int)
    ensures game.steamId in t ==> WithGame(t, game) == t
    ensures steamId in owned ==> WithOwned(owned, steamId) == owned
    ensures WithGame(WithGame(t, game), game) == WithGame(t, game)
  {
  }

  /** A pair is to be detailed exactly when some giveaway names a non-null Steam id that no game row has. */
  lemma NewGamesToDetailMembers(giveaways: Giveaways, games: Games, url: string, steamId: Cell)
    ensures (url, steamId) in NewGamesToDetail(giveaways, games) <==>
      && (exists k :: k in giveaways && giveaways[k].steamUrl == url && giveaways[k].steamId == steamId)
      && !steamId.Null? && !(steamId.Int? && steamId.n in games)
  {
    if (url, steamId) in NewGamesToDetail(giveaways, games) {
      var k :| k in giveaways && Undetailed(giveaways[k].steamId, games)
        && (giveaways[k].steamUrl, giveaways[k].steamId) == (url, steamId);
    }
  }

  /** Storing a game removes exactly the pairs with its Steam id from the games still to detail. */
  lemma InsertGameDetailsIt(giveaways: Giveaways, games: Games, game: Game)
    ensures NewGamesToDetail(giveaways, WithGame(games, game)) ==
      set p | p in NewGamesToDetail(giveaways, games) && p.1 != Int(game.steamId)
  {
    var before := NewGamesToDetail(giveaways, games);
    var after := NewGamesToDetail(giveaways, WithGame(games, game));
    forall p | p in after ensures p in before && p.1 != Int(game.steamId) {
      NewGamesToDetailMembers(giveaways, WithGame(games, game), p.0, p.1);
      NewGamesToDetailMembers(giveaways, games, p.0, p.1);
    }
    forall p | p in before && p.1 != Int(game.steamId) ensures p in after {
      NewGamesToDetailMembers(giveaways, WithGame(games, game), p.0, p.1);
      NewGamesToDetailMembers(giveaways, games, p.0, p.1);
    }
  }

  /** Every statement keeps each table keyed by its primary key and only lets the tables grow. */
  lemma ApplyGrows(t: Tables, op: Op)
    requires Keyed(t)
    ensures Keyed(Apply(t, op)) && Grows(t, Apply(t, op))
  {
  }

  lemma GrowsTransitive(t: Tables, t': Tables, t'': Tables)
    requires Grows(t, t') && Grows(t', t'')
    ensures Grows(t, t'')
  {
  }

  /**
   * Whatever statements run, no row is ever removed, no stored game or
   * giveaway field changes except `entered`, and no `entered` flag goes back to 0.
   */
  lemma {:induction false} EnteredNeverReset(t: Tables, ops: seq<Op>)
    requires Keyed(t)
    ensures Keyed(ApplyAll(t, ops)) && Grows(t, ApplyAll(t, ops))
    decreases |ops|
  {
    if ops != [] {
      ApplyGrows(t, ops[0]);
      EnteredNeverReset(Apply(t, ops[0]), ops[1..]);
      GrowsTransitive(t, Apply(t, ops[0]), ApplyAll(t, ops));
    }
  }

  /** The database handle of model.js: the three tables, updated in place. */
  class Store {
    var giveaways: Giveaways
    var games: Games
    var owned: set<int>

    ghost predicate Valid()
      reads this
    {
      KeyedById(giveaways) && KeyedBySteamId(games)
    }

    function State(): Tables
      reads this
    {
      Tables(giveaways, games, owned)
    }

    /** Opening a fresh database file: `CREATE TABLE IF NOT EXISTS` on an empty file. */
    constructor ()
      ensures Valid()
      ensures giveaways == map[] && games == map[] && owned == {}
    {
      giveaways := map[];
      games := map[];
      owned := {};
    }

    method InsertGiveaway(g: Scraped)
      requires Valid()
      modifies this
      ensures Valid()
      ensures State() == Apply(old(State()), Op.InsertGiveaway(g))
    {
      if g.id !in giveaways {
        giveaways := giveaways[g.id := NewRow(g)];
      }
    }

    method MarkAsEntered(id: int)
      requires Valid()
      modifies this
      ensures Valid()
      ensures State() == Apply(old(State()), Op.MarkAsEntered(id))
    {
      if id in giveaways {
        giveaways := giveaways[id := giveaways[id].(entered := true)];
      }
    }

    method InsertGame(game: Game)
      requires Valid()
      modifies this
      ensures Valid()
      ensures State() == Apply(old(State()), Op.InsertGame(game))
    {
      if game.steamId !in games {
        games := games[game.steamId := game];
      }
    }

    method InsertOwnedGame(steamId: int)
      requires Valid()
      modifies this
      ensures Valid()
      ensures State() == Apply(old(State()), Op.InsertOwnedGame(steamId))
    {
      owned := owned + {steamId};
    }

    /** `getNewGamesToDetail()`: a read-only query. */
    method GetNewGamesToDetail() returns (rows: set<(string, Cell)>)
      ensures forall p :: p in rows ==> !p.1.Null? && !(p.1.Int? && p.1.n in games)
      ensures forall k :: k in giveaways && Undetailed(giveaways[k].steamId, games) ==>
        (giveaways[k].steamUrl, giveaways[k].steamId) in rows
      ensures forall p :: p in rows ==> exists k :: k in giveaways && (giveaways[k].steamUrl, giveaways[k].steamId) == p
    {
      rows := NewGamesToDetail(giveaways, games);
    }
  }
}
