/**
 * Entering giveaways, as `shouldRetryGiveaway` and `enterGiveaways` of
 * indiegala.js do it.
 *
 * The candidates are visited strictly one after the other. Each visit opens
 * the giveaway page, clicks the entry button and reads back the page record.
 * A record that shows the giveaway entered marks it in the datastore; one
 * that shows no coins left ends the whole batch; one that shows either known
 * refusal skips the giveaway; anything else earns exactly one more visit. A
 * visit that rejects because the entry button is missing also counts as
 * entered; any other rejection ends the batch. The batch's promise resolves
 * in every case: the reason it ended early is only logged.
 */
module Entry {
  import opened Options
  import opened Model
  import opened Query
  import opened Browser

  /** `IG_NOT_AUTHORIZED`. */
  const NotAuthorized := "You are not authorized access for this giveaway."
  /** `IG_NOT_ENOUGH_COINS`. */
  const NotEnoughCoins := "Insufficient Indiegala Coins. Please choose a cheaper giveaway."
  /** The coin balance text that means no coins are left. */
  const NoCoins := "0 Indiegala Coins"
  /** What the browser driver rejects with when the entry button is missing. */
  const ControlMissing := "Unable to find element by selector: .giv-coupon"
  /** The reason passed on when the coins ran out. */
  const NoMoreCoins := "No More Coins"
  /** The start of the reason passed on when a visit rejects. */
  const AbortPrefix := "Nightmare Error entering giveaway: "

  /** What `shouldRetryGiveaway` makes of a page record. */
  datatype Decision =
    | Entered     // marked as entered, on to the next giveaway
    | OutOfCoins  // `next('No More Coins')`
    | Ineligible  // one of the two known refusals, on to the next giveaway
    | Ambiguous   // nothing recognised: `shouldRetryGiveaway` returns true

  /** `shouldRetryGiveaway`'s tests, in the order it makes them. */
  function Classify(d: PageData): (r: Decision)
    ensures r == Entered <==> d.entered
    ensures r == OutOfCoins <==> !d.entered && d.coins == NoCoins
    ensures r == Ineligible <==> !d.entered && d.coins != NoCoins && (d.error == NotAuthorized || d.error == NotEnoughCoins)
    ensures r == Ambiguous <==> !d.entered && d.coins != NoCoins && d.error != NotAuthorized && d.error != NotEnoughCoins
  {
    if d.entered then Entered
    else if d.coins == NoCoins then OutOfCoins
    else if d.error == NotAuthorized || d.error == NotEnoughCoins then Ineligible
    else Ambiguous
  }

  /** How the visits of one giveaway end. */
  datatype Verdict =
    | Marked             // recorded as entered in the datastore
    | Skipped            // refused by the site; the batch goes on
    | Unconfirmed        // still ambiguous after the retry; the batch goes on
    | Stopped(reason: string)  // the batch ends with `next(reason)`

  datatype Reaction = Done(verdict: Verdict) | Retry

  /**
   * The reaction to one visit; `retried` says whether it was the second.
   * The rejection handler is shared by both visits, since the retry's promise
   * is returned into the first one's chain.
   */
  function Handle(o: Outcome, retried: bool): (r: Reaction)
    ensures r.Retry? <==> !retried && o.Data? && Classify(o.page) == Ambiguous
    ensures r == Done(Marked) <==> (o.Data? && o.page.entered) || o == Thrown(Plain(ControlMissing))
    ensures r.Done? && r.verdict.Stopped? <==> (o.Data? && Classify(o.page) == OutOfCoins) || (o.Thrown? && o != Thrown(Plain(ControlMissing)))
    ensures r == Done(Stopped(NoMoreCoins)) <==> o.Data? && Classify(o.page) == OutOfCoins
    ensures o.Thrown? && o != Thrown(Plain(ControlMissing)) ==> r == Done(Stopped(AbortPrefix + FailureMessage(o.failure)))
  {
    match o
    case Data(d) =>
      (match Classify(d)
       case Entered => Done(Marked)
       case OutOfCoins => Done(Stopped(NoMoreCoins))
       case Ineligible => Done(Skipped)
       case Ambiguous => if retried then Done(Unconfirmed) else Retry)
    case Thrown(f) =>
      if f == Plain(ControlMissing) then Done(Marked)
      else Done(Stopped(AbortPrefix + FailureMessage(f)))
  }

  /** What the browser returns on the first visit of a giveaway and, if there is one, on the second. */
  datatype Responses = Responses(first: Outcome, second: Outcome)

  /** The visits of one giveaway: how many there were and how they ended. */
  datatype Visit = Visit(id: int, attempts: nat, verdict: Verdict)

  function VisitOf(g: Candidate, r: Responses): (v: Visit)
    ensures v.id == g.id
    ensures 1 <= v.attempts <= 2
    ensures v.attempts == 2 <==> r.first.Data? && Classify(r.first.page) == Ambiguous
  {
    match Handle(r.first, false)
    case Done(verdict) => Visit(g.id, 1, verdict)
    case Retry => Visit(g.id, 2, Handle(r.second, true).verdict)
  }

  /**
   * The outcomes that get a giveaway marked, stated on their own: the page
   * shows it entered, or the entry button is missing, on the first visit or,
   * after an unrecognised first record, on the second.
   */
  predicate ConfirmsEntry(o: Outcome) {
    (o.Data? && o.page.entered) || o == Thrown(Plain(ControlMissing))
  }

  predicate MarksEntered(r: Responses) {
    || ConfirmsEntry(r.first)
    || (r.first.Data? && Classify(r.first.page) == Ambiguous && ConfirmsEntry(r.second))
  }

  /** The outcomes that end the batch: no coins left, or a rejection other than the missing button. */
  predicate EndsBatch(o: Outcome) {
    (o.Data? && !o.page.entered && o.page.coins == NoCoins) || (o.Thrown? && o != Thrown(Plain(ControlMissing)))
  }

  predicate StopsBatch(r: Responses) {
    || EndsBatch(r.first)
    || (r.first.Data? && Classify(r.first.page) == Ambiguous && EndsBatch(r.second))
  }

  /** A giveaway is marked exactly when its responses confirm the entry, and the batch stops exactly on exhaustion or a rejection. */
  lemma VisitVerdicts(g: Candidate, r: Responses)
    ensures VisitOf(g, r).verdict == Marked <==> MarksEntered(r)
    ensures VisitOf(g, r).verdict.Stopped? <==> StopsBatch(r)
    ensures MarksEntered(r) ==> !StopsBatch(r)
  {
  }

  /** The visits of a batch, in list order, up to and including the one that ends it. */
  function Batch(gs: seq<Candidate>, rs: seq<Responses>): seq<Visit>
    requires |rs| == |gs|
  {
    if gs == [] then []
    else
      var v := VisitOf(gs[0], rs[0]);
      if v.verdict.Stopped? then [v] else [v] + Batch(gs[1..], rs[1..])
  }

  /**
   * The batch visits the giveaways in list order, each as `VisitOf` says; it
   * ends early only with a visit that stops it, and no visit before the last
   * one stops it.
   */
  lemma {:induction false} BatchShape(gs: seq<Candidate>, rs: seq<Responses>)
    requires |rs| == |gs|
    ensures var vs := Batch(gs, rs);
      && |vs| <= |gs|
      && (forall j :: 0 <= j < |vs| ==> vs[j] == VisitOf(gs[j], rs[j]))
      && (forall j :: 0 <= j < |vs| - 1 ==> !vs[j].verdict.Stopped?)
      && (|vs| < |gs| ==> |vs| > 0 && vs[|vs| - 1].verdict.Stopped?)
  {
    if gs != [] {
      BatchShape(gs[1..], rs[1..]);
    }
  }

  /** The ids a sequence of visits marks, in order. */
  function MarkedIds(vs: seq<Visit>): seq<int> {
    if vs == [] then []
    else
      var last := vs[|vs| - 1];
      MarkedIds(vs[..|vs| - 1]) + (if last.verdict == Marked then [last.id] else [])
  }

  /** The marked ids are those of the visits with verdict Marked. */
  lemma {:induction false} MarkedIdsMembers(vs: seq<Visit>)
    ensures forall x :: x in MarkedIds(vs) <==> exists j :: 0 <= j < |vs| && vs[j].verdict == Marked && vs[j].id == x
  {
    if vs != [] {
      var init := vs[..|vs| - 1];
      MarkedIdsMembers(init);
      assert forall j :: 0 <= j < |init| ==> init[j] == vs[j];
    }
  }

  /** The giveaways table after `markAsEntered` of each id in turn. */
  function MarkAll(t: Giveaways, ids: seq<int>): Giveaways {
    if ids == [] then t
    else WithEntered(MarkAll(t, ids[..|ids| - 1]), ids[|ids| - 1])
  }

  /** Marking a list of ids sets the flag of exactly the stored rows it names, and changes nothing else. */
  lemma {:induction false} MarkAllEffect(t: Giveaways, ids: seq<int>)
    ensures MarkAll(t, ids).Keys == t.Keys
    ensures forall k :: k in t ==> MarkAll(t, ids)[k] == t[k].(entered := t[k].entered || k in ids)
  {
    if ids != [] {
      var init := ids[..|ids| - 1];
      MarkAllEffect(t, init);
      assert ids == init + [ids[|ids| - 1]];
    }
  }

  /**
   * The batch runs up to the first giveaway whose responses stop it (no
   * coins left, or a rejection other than the missing button), and through
   * the whole list when there is none.
   */
  lemma BatchEndsAtFirstStop(gs: seq<Candidate>, rs: seq<Responses>, i: nat)
    requires |rs| == |gs| && i <= |gs|
    requires forall j :: 0 <= j < i ==> !StopsBatch(rs[j])
    requires i < |gs| ==> StopsBatch(rs[i])
    ensures |Batch(gs, rs)| == if i < |gs| then i + 1 else |gs|
  {
    BatchShape(gs, rs);
    forall j | 0 <= j < |gs| ensures VisitOf(gs[j], rs[j]).verdict.Stopped? <==> StopsBatch(rs[j]) {
      VisitVerdicts(gs[j], rs[j]);
    }
  }

  /**
   * After a batch, a stored giveaway is marked entered exactly when it was
   * already, or it was visited and its responses confirmed the entry.
   */
  lemma BatchMarksEntered(t: Giveaways, gs: seq<Candidate>, rs: seq<Responses>, k: int)
    requires |rs| == |gs| && k in t
    ensures var vs := Batch(gs, rs); var t' := MarkAll(t, MarkedIds(vs));
      && t'.Keys == t.Keys
      && (t'[k].entered <==> t[k].entered || exists j :: 0 <= j < |gs| && j < |vs| && gs[j].id == k && MarksEntered(rs[j]))
  {
    var vs := Batch(gs, rs);
    BatchShape(gs, rs);
    MarkedIdsMembers(vs);
    MarkAllEffect(t, MarkedIds(vs));
    forall j | 0 <= j < |vs| ensures vs[j].id == gs[j].id && (vs[j].verdict == Marked <==> MarksEntered(rs[j])) {
      VisitVerdicts(gs[j], rs[j]);
    }
  }

  /** The batch so far grows by one visit, and it is complete when that visit stops it. */
  lemma BatchSoFar(gs: seq<Candidate>, rs: seq<Responses>, i: nat, visits: seq<Visit>)
    requires |rs| == |gs| && i < |gs|
    requires Batch(gs, rs) == visits + Batch(gs[i..], rs[i..])
    ensures var v := VisitOf(gs[i], rs[i]);
      Batch(gs, rs) == (visits + [v]) + (if v.verdict.Stopped? then [] else Batch(gs[i + 1..], rs[i + 1..]))
  {
    assert gs[i..][1..] == gs[i + 1..];
    assert rs[i..][1..] == rs[i + 1..];
  }

  /** A visit with verdict Marked marks its giveaway after all earlier ones; any other marks nothing. */
  lemma MarkStep(t: Giveaways, visits: seq<Visit>, v: Visit)
    ensures MarkAll(t, MarkedIds(visits + [v])) ==
      if v.verdict == Marked then WithEntered(MarkAll(t, MarkedIds(visits)), v.id) else MarkAll(t, MarkedIds(visits))
  {
    assert (visits + [v])[..|visits|] == visits;
    var ids := MarkedIds(visits);
    assert (ids + [v.id])[..|ids|] == ids;
    assert ids + [] == ids;
  }

  /**
   * One giveaway: the first visit and, when its record is not recognised, a
   * second; a giveaway found entered is marked in the datastore.
   */
  method EnterOne(store: Store, g: Candidate, r: Responses) returns (v: Visit)
    requires store.Valid()
    modifies store
    ensures store.Valid()
    ensures v == VisitOf(g, r)
    ensures store.giveaways == if v.verdict == Marked then WithEntered(old(store.giveaways), g.id) else old(store.giveaways)
    ensures store.games == old(store.games) && store.owned == old(store.owned)
  {
    var attempts := 1;
    var reaction := Handle(r.first, false);
    if reaction.Retry? {
      attempts := 2;
      reaction := Handle(r.second, true);
    }
    v := Visit(g.id, attempts, reaction.verdict);
    if v.verdict == Marked {
      store.MarkAsEntered(g.id);
    }
  }

  /**
   * `enterGiveaways(giveaways)`: `responses[i]` is what the browser returns
   * when `giveaways[i]` is visited. It returns the visits made and the reason
   * logged when the batch ended early; the datastore records every marked
   * giveaway and nothing else.
   */
  method EnterGiveaways(store: Store, giveaways: seq<Candidate>, responses: seq<Responses>)
    returns (visits: seq<Visit>, logged: Option<string>)
    requires store.Valid() && |responses| == |giveaways|
    modifies store
    ensures store.Valid()
    ensures visits == Batch(giveaways, responses)
    ensures logged.Some? <==> |visits| > 0 && visits[|visits| - 1].verdict.Stopped?
    ensures logged.Some? ==> logged.value == visits[|visits| - 1].verdict.reason
    ensures store.giveaways == MarkAll(old(store.giveaways), MarkedIds(visits))
    ensures store.games == old(store.games) && store.owned == old(store.owned)
  {
    visits := [];
    logged := None;
    var i := 0;
    while i < |giveaways|
      invariant 0 <= i <= |giveaways|
      invariant store.Valid()
      invariant Batch(giveaways, responses) == visits + Batch(giveaways[i..], responses[i..])
      invariant |visits| == i && (i > 0 ==> !visits[i - 1].verdict.Stopped?)
      invariant store.giveaways == MarkAll(old(store.giveaways), MarkedIds(visits))
      invariant store.games == old(store.games) && store.owned == old(store.owned)
    {
      var v := EnterOne(store, giveaways[i], responses[i]);
      BatchSoFar(giveaways, responses, i, visits);
      MarkStep(old(store.giveaways), visits, v);
      visits := visits + [v];
      if v.verdict.Stopped? {
        logged := Some(v.verdict.reason);
        return;
      }
      i := i + 1;
    }
  }
}
