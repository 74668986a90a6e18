/**
 * The WHERE clauses of the two `prioritizeGiveaways` queries. Both join each
 * giveaway to the game with the same Steam id and keep open giveaways only;
 * lib/enter-giveaways.js adds a metascore alternative, a price ceiling and an
 * excluded title, and limits the result to thirty rows.
 *
 * `metascore` is an INTEGER column, but a game whose Steam page shows no
 * score is stored with the empty text, which SQLite keeps as TEXT; and in
 * SQLite every TEXT value is greater than every number, so `metascore >= 70`
 * holds for it. `EligibleAsWritten` keeps that behaviour; `Eligible` counts a
 * metascore only when it is a number.
 */
module Clauses {
  import opened Text
  import opened Model

  /** `price <= 20`. */
  const PriceCeiling := 20
  /** `metascore >= 70`. */
  const ScoreFloor := 70
  /** `name != "Particula"`. */
  const ExcludedName := "Particula"
  /** `reviewText like "%Positive"`. */
  const ReviewSuffix := "Positive"

  /** `INNER JOIN games g on ga.steamId = g.steamId`: the giveaway names a stored game. */
  predicate Joined(g: Giveaway, games: Games) {
    g.steamId.Int? && g.steamId.n in games
  }

  /** `entered = 0 AND endDate > now`. */
  predicate Open(g: Giveaway, now: int) {
    !g.entered && g.endDate > now
  }

  /** The clause of lib/enter-giveaways.js as SQLite evaluates it, empty-text metascores included. */
  predicate EligibleAsWritten(g: Giveaway, games: Games, now: int) {
    && Joined(g, games)
    && Open(g, now)
    && (LikeSuffix(games[g.steamId.n].reviewText, ReviewSuffix) || SqlAtLeast(games[g.steamId.n].metascore, ScoreFloor))
    && SqlAtMost(g.price, PriceCeiling)
    && g.name != ExcludedName
  }

  /** Recommended by its review summary, or by a metascore that is a number of at least 70. */
  predicate WellReviewed(game: Game) {
    LikeSuffix(game.reviewText, ReviewSuffix) || (game.metascore.Int? && game.metascore.n >= ScoreFloor)
  }

  /** The clause of lib/enter-giveaways.js with the metascore test applied to numeric scores only. */
  predicate Eligible(g: Giveaway, games: Games, now: int) {
    && Joined(g, games)
    && Open(g, now)
    && WellReviewed(games[g.steamId.n])
    && SqlAtMost(g.price, PriceCeiling)
    && g.name != ExcludedName
  }

  /** The clause of enter-giveaways.js: joined, open, and a review summary ending in "Positive". */
  predicate EligibleLegacy(g: Giveaway, games: Games, now: int) {
    && Joined(g, games)
    && Open(g, now)
    && LikeSuffix(games[g.steamId.n].reviewText, ReviewSuffix)
  }

  /** Which WHERE clause a query uses, with the games table it joins and the clock it reads. */
  datatype Where =
    | Current(games: Games, now: int)
    | CurrentAsWritten(games: Games, now: int)
    | Legacy(games: Games, now: int)

  predicate Admits(w: Where, g: Giveaway) {
    match w
    case Current(games, now) => Eligible(g, games, now)
    case CurrentAsWritten(games, now) => EligibleAsWritten(g, games, now)
    case Legacy(games, now) => EligibleLegacy(g, games, now)
  }

  /** Reading only numeric metascores never admits a giveaway the clause as written rejects. */
  lemma EligibleNarrowsAsWritten(g: Giveaway, games: Games, now: int)
    ensures Eligible(g, games, now) ==> EligibleAsWritten(g, games, now)
    ensures EligibleAsWritten(g, games, now) && !Eligible(g, games, now) ==>
      && games[g.steamId.n].metascore.Txt?
      && !LikeSuffix(games[g.steamId.n].reviewText, ReviewSuffix)
  {
  }
}
