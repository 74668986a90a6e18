/**
 * The earlier entry script, enter-giveaways.js: its `prioritizeGiveaways`
 * selects open giveaways whose game has a review summary ending in
 * "Positive", soonest-ending first and without a limit; its
 * `enterGiveaways` visits them one after the other, clicks the entry button
 * and stops at the first failure. It never writes to the datastore.
 */
module Legacy {
  import opened Options
  import opened Model
  import opened Clauses
  import opened Query
  import opened Browser

  /** The text the final callback logs when a visit fails. */
  const AbortPrefix := "Nightmare Error entering giveaway: "

  /** The list the older `prioritizeGiveaways` fulfils its promise with. */
  ghost function PrioritizeGiveawaysLegacy(t: Giveaways, games: Games, now: int): seq<Candidate>
    requires KeyedById(t)
  {
    Select(t, Legacy(games, now), None)
  }

  /**
   * Each candidate is an open stored giveaway whose game's review summary ends
   * in "Positive", named by its detail URL; none twice, soonest-ending first.
   */
  lemma PrioritizeGiveawaysLegacySound(t: Giveaways, games: Games, now: int)
    requires KeyedById(t)
    ensures var c := PrioritizeGiveawaysLegacy(t, games, now);
      && (forall i :: 0 <= i < |c| ==> c[i].id in t && EligibleLegacy(t[c[i].id], games, now))
      && (forall i :: 0 <= i < |c| ==> c[i].url == DetailUrl(c[i].id) && IdOfDetailUrl(c[i].url) == Some(c[i].id))
      && OrderedCandidates(t, c)
  {
    SelectSound(t, Legacy(games, now), None);
    SelectOrdered(t, Legacy(games, now), None);
  }

  /** With no LIMIT, every eligible giveaway is among the candidates. */
  lemma PrioritizeGiveawaysLegacyComplete(t: Giveaways, games: Games, now: int, k: int)
    requires KeyedById(t) && k in t && EligibleLegacy(t[k], games, now)
    ensures Names(PrioritizeGiveawaysLegacy(t, games, now), k)
  {
    SelectComplete(t, Legacy(games, now), None, k);
  }

  /** The result of `goto(url).wait().click('.giv-coupon').wait()`. */
  datatype Click = Clicked | ClickFailed(failure: Failure)

  /** The index of the first failed click, or `|clicks|` when none failed. */
  function FirstFailure(clicks: seq<Click>): (n: nat)
    ensures n <= |clicks|
    ensures forall j :: 0 <= j < n ==> clicks[j].Clicked?
    ensures n < |clicks| ==> clicks[n].ClickFailed?
  {
    if clicks == [] || clicks[0].ClickFailed? then 0 else 1 + FirstFailure(clicks[1..])
  }

  /**
   * The older `enterGiveaways(giveaways)`: `clicks[i]` is how the visit of
   * `giveaways[i]` ends. The visits run in list order, and the first failure
   * ends the series with `AbortPrefix + err`, which the final callback logs.
   */
  method EnterGiveawaysLegacy(giveaways: seq<Candidate>, clicks: seq<Click>)
    returns (visited: seq<string>, logged: Option<string>)
    requires |clicks| == |giveaways|
    ensures var n := FirstFailure(clicks);
      && |visited| == (if n < |giveaways| then n + 1 else n)
      && (forall j :: 0 <= j < |visited| ==> visited[j] == giveaways[j].url)
      && (logged.Some? <==> n < |giveaways|)
      && (n < |giveaways| ==> logged == Some(AbortPrefix + FailureText(clicks[n].failure)))
  {
    visited := [];
    logged := None;
    var i := 0;
    while i < |giveaways|
      invariant 0 <= i <= |giveaways|
      invariant |visited| == i
      invariant forall j :: 0 <= j < i ==> visited[j] == giveaways[j].url && clicks[j].Clicked?
    {
      visited := visited + [giveaways[i].url];
      if clicks[i].ClickFailed? {
        logged := Some(AbortPrefix + FailureText(clicks[i].failure));
        FirstFailureAt(clicks, i);
        return;
      }
      i := i + 1;
    }
    FirstFailureAt(clicks, |clicks|);
  }

  /** The first failure is at `i` when every earlier click succeeded and the one at `i` failed (or there is none). */
  lemma {:induction false} FirstFailureAt(clicks: seq<Click>, i: nat)
    requires i <= |clicks|
    requires forall j :: 0 <= j < i ==> clicks[j].Clicked?
    requires i < |clicks| ==> clicks[i].ClickFailed?
    ensures FirstFailure(clicks) == i
  {
    if i > 0 {
      FirstFailureAt(clicks[1..], i - 1);
    }
  }
}
