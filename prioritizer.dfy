/**
 * `prioritizeGiveaways` of lib/enter-giveaways.js: the giveaways worth a
 * coin, soonest-ending first, at most thirty of them. The WHERE clause is
 * `Clauses.Eligible`, which reads the metascore as a number only;
 * `PrioritizeGiveawaysAsWritten` is the query with the clause as SQLite
 * evaluates it.
 */
module Prioritizer {
  import opened Options
  import opened Text
  import opened Model
  import opened Clauses
  import opened Query

  /** `LIMIT 30`. */
  const Limit: nat := 30

  /** The list `prioritizeGiveaways` resolves with, as written. */
  ghost function PrioritizeGiveawaysAsWritten(t: Giveaways, games: Games, now: int): seq<Candidate>
    requires KeyedById(t)
  {
    Select(t, CurrentAsWritten(games, now), Some(Limit))
  }

  /** The list `prioritizeGiveaways` resolves with, `now` being the clock's seconds. */
  ghost function PrioritizeGiveaways(t: Giveaways, games: Games, now: int): seq<Candidate>
    requires KeyedById(t)
  {
    Select(t, Current(games, now), Some(Limit))
  }

  /** At most thirty candidates, each an eligible stored giveaway named by its detail URL. */
  lemma PrioritizeGiveawaysSound(t: Giveaways, games: Games, now: int)
    requires KeyedById(t)
    ensures var c := PrioritizeGiveaways(t, games, now);
      && |c| <= Limit
      && (forall i :: 0 <= i < |c| ==> c[i].id in t && Eligible(t[c[i].id], games, now))
      && (forall i :: 0 <= i < |c| ==> c[i].url == DetailUrl(c[i].id) && IdOfDetailUrl(c[i].url) == Some(c[i].id))
  {
    var w := Current(games, now);
    var c := PrioritizeGiveaways(t, games, now);
    SelectSound(t, w, Some(Limit));
  }

  /** No giveaway is offered twice, and the soonest-ending come first. */
  lemma PrioritizeGiveawaysOrdered(t: Giveaways, games: Games, now: int)
    requires KeyedById(t)
    ensures OrderedCandidates(t, PrioritizeGiveaways(t, games, now))
  {
    var w := Current(games, now);
    SelectOrdered(t, w, Some(Limit));
  }

  /**
   * No eligible giveaway is passed over for one that ends later: each is a
   * candidate, or thirty candidates were found that all end no later.
   */
  lemma PrioritizeGiveawaysComplete(t: Giveaways, games: Games, now: int, k: int)
    requires KeyedById(t) && k in t && Eligible(t[k], games, now)
    ensures var c := PrioritizeGiveaways(t, games, now);
      || Names(c, k)
      || (|c| == Limit && forall i :: 0 <= i < |c| ==> c[i].id in t && t[c[i].id].endDate <= t[k].endDate)
  {
    var w := Current(games, now);
    SelectComplete(t, w, Some(Limit), k);
  }

  /** A giveaway marked as entered is never offered again. */
  lemma EnteredNotPrioritized(t: Giveaways, games: Games, now: int, id: int)
    requires KeyedById(t)
    ensures KeyedById(WithEntered(t, id))
    ensures forall c :: c in PrioritizeGiveaways(WithEntered(t, id), games, now) ==> c.id != id
  {
    var t' := WithEntered(t, id);
    PrioritizeGiveawaysSound(t', games, now);
  }

  /**
   * The query as written: at most thirty candidates, each a stored giveaway
   * its WHERE clause admits as SQLite evaluates it, named by its detail URL.
   */
  lemma PrioritizeGiveawaysAsWrittenSound(t: Giveaways, games: Games, now: int)
    requires KeyedById(t)
    ensures var c := PrioritizeGiveawaysAsWritten(t, games, now);
      && |c| <= Limit
      && (forall i :: 0 <= i < |c| ==> c[i].id in t && EligibleAsWritten(t[c[i].id], games, now))
      && (forall i :: 0 <= i < |c| ==> c[i].url == DetailUrl(c[i].id) && IdOfDetailUrl(c[i].url) == Some(c[i].id))
  {
    var w := CurrentAsWritten(games, now);
    SelectSound(t, w, Some(Limit));
  }

  /** The query as written offers no giveaway twice, soonest-ending first. */
  lemma PrioritizeGiveawaysAsWrittenOrdered(t: Giveaways, games: Games, now: int)
    requires KeyedById(t)
    ensures OrderedCandidates(t, PrioritizeGiveawaysAsWritten(t, games, now))
  {
    var w := CurrentAsWritten(games, now);
    SelectOrdered(t, w, Some(Limit));
  }

  /** The query as written passes over no giveaway it admits for one that ends later. */
  lemma PrioritizeGiveawaysAsWrittenComplete(t: Giveaways, games: Games, now: int, k: int)
    requires KeyedById(t) && k in t && EligibleAsWritten(t[k], games, now)
    ensures var c := PrioritizeGiveawaysAsWritten(t, games, now);
      || Names(c, k)
      || (|c| == Limit && forall i :: 0 <= i < |c| ==> c[i].id in t && t[c[i].id].endDate <= t[k].endDate)
  {
    var w := CurrentAsWritten(games, now);
    SelectComplete(t, w, Some(Limit), k);
  }

  /** The query as written never offers a giveaway marked as entered either. */
  lemma EnteredNotPrioritizedAsWritten(t: Giveaways, games: Games, now: int, id: int)
    requires KeyedById(t)
    ensures KeyedById(WithEntered(t, id))
    ensures forall c :: c in PrioritizeGiveawaysAsWritten(WithEntered(t, id), games, now) ==> c.id != id
  {
    var t' := WithEntered(t, id);
    PrioritizeGiveawaysAsWrittenSound(t', games, now);
  }

  /**
   * A game whose page shows no metascore is stored with the empty text; the
   * query as written then offers its giveaway although nothing recommends it,
   * and the corrected query does not.
   */
  lemma UnscoredGameAdmittedAsWritten()
    ensures var game := Game(1, "Mixed", "", "", IntegerAffinity(""), "", "", "", "");
      var g := Giveaway(7, "Game", "", Int(5), 100, Int(1), false);
      var games := map[1 := game];
      && EligibleAsWritten(g, games, 0)
      && !Eligible(g, games, 0)
      && PrioritizeGiveawaysAsWritten(map[7 := g], games, 0) == [Candidate(DetailUrl(7), 7)]
      && PrioritizeGiveaways(map[7 := g], games, 0) == []
  {
    var game := Game(1, "Mixed", "", "", IntegerAffinity(""), "", "", "", "");
    var g := Giveaway(7, "Game", "", Int(5), 100, Int(1), false);
    var games := map[1 := game];
    var t := map[7 := g];
    assert IntegerAffinity("") == Txt("");
    assert 7 in t;
    var k := ScanStep(t);
    assert t - {k} == map[];
    assert TableRows(t) == [g];
    assert Filter([g], CurrentAsWritten(games, 0)) == [g];
    assert Filter([g], Current(games, 0)) == [];
    assert SortByEndDate([g]) == [g];
  }
}
