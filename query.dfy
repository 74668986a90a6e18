/**
 * The parts of a `SELECT id FROM giveaways ... ORDER BY endDate ASC` query
 * and of the `rows.map` that follows it, shared by the two versions of
 * `prioritizeGiveaways` (lib/enter-giveaways.js and enter-giveaways.js).
 */
module Query {
  import opened Options
  import opened Text
  import opened Model
  import opened Clauses

  /** Each output element: `{url: DetailPrefix + id, id}`. */
  datatype Candidate = Candidate(url: string, id: int)

  const DetailPrefix := "https://www.indiegala.com/giveaways/detail/"

  function DetailUrl(id: int): string {
    DetailPrefix + IntToString(id)
  }

  /** The giveaway id a detail URL names, if it is one. */
  function IdOfDetailUrl(url: string): Option<int> {
    if StartsWith(url, DetailPrefix) then ParseInt(url[|DetailPrefix|..]) else None
  }

  /** The id can be read back from the URL built for it, so different ids get different URLs. */
  lemma DetailUrlRoundTrip(id: int)
    ensures IdOfDetailUrl(DetailUrl(id)) == Some(id)
  {
    var url := DetailUrl(id);
    assert url[..|DetailPrefix|] == DetailPrefix;
    assert url[|DetailPrefix|..] == IntToString(id);
    IntToStringStoresInt(id);
  }

  /** A table that is not empty has a key. */
  lemma HasKey(t: Giveaways)
    requires t != map[]
    ensures exists k :: k in t
  {
    if forall k :: k !in t {
      assert false;
    }
  }

  /**
   * The rows of a table in the order a scan returns them. SQLite promises no
   * order, and neither does this function: it lists the rows in some order.
   */
  ghost function TableRows(t: Giveaways): seq<Giveaway>
    decreases |t.Keys|
  {
    if t == map[] then []
    else
      HasKey(t);
      var k :| k in t;
      var rest := t - {k};
      assert rest.Keys == t.Keys - {k};
      [t[k]] + TableRows(rest)
  }

  /** One step of a scan: some row first, then a scan of the others. */
  lemma ScanStep(t: Giveaways) returns (k: int)
    requires t != map[]
    ensures k in t && TableRows(t) == [t[k]] + TableRows(t - {k})
    ensures |(t - {k}).Keys| < |t.Keys|
  {
    HasKey(t);
    k :| k in t && TableRows(t) == [t[k]] + TableRows(t - {k});
    assert (t - {k}).Keys == t.Keys - {k};
  }

  /** A scan returns only rows of the table. */
  lemma {:induction false} TableRowsSound(t: Giveaways)
    requires KeyedById(t)
    ensures forall x :: x in TableRows(t) ==> x.id in t && t[x.id] == x
    decreases |t.Keys|
  {
    if t != map[] {
      var k := ScanStep(t);
      TableRowsSound(t - {k});
    }
  }

  /** A scan returns every row of the table. */
  lemma {:induction false} TableRowsCover(t: Giveaways)
    ensures forall k :: k in t ==> t[k] in TableRows(t)
    decreases |t.Keys|
  {
    if t != map[] {
      var k := ScanStep(t);
      TableRowsCover(t - {k});
      forall j | j in t ensures t[j] in TableRows(t) {
        if j != k {
          assert j in t - {k};
        }
      }
    }
  }

  predicate DistinctIds(s: seq<Giveaway>) {
    forall i, j :: 0 <= i < j < |s| ==> s[i].id != s[j].id
  }

  /** A scan returns each row once. */
  lemma {:induction false} TableRowsDistinct(t: Giveaways)
    requires KeyedById(t)
    ensures DistinctIds(TableRows(t))
    decreases |t.Keys|
  {
    if t != map[] {
      var k := ScanStep(t);
      var rows := TableRows(t);
      var tail := TableRows(t - {k});
      TableRowsSound(t - {k});
      TableRowsDistinct(t - {k});
      forall i, j | 0 <= i < j < |rows| ensures rows[i].id != rows[j].id {
        if i == 0 {
          assert rows[j] == tail[j - 1];
          assert rows[j] in tail;
        } else {
          assert rows[i] == tail[i - 1] && rows[j] == tail[j - 1];
        }
      }
    }
  }

  /** Rows with distinct ids occur once each. */
  lemma {:induction false} DistinctOnce(s: seq<Giveaway>, x: Giveaway)
    requires DistinctIds(s)
    ensures multiset(s)[x] <= 1
  {
    if s != [] {
      assert s == [s[0]] + s[1..];
      DistinctOnce(s[1..], x);
      if x == s[0] {
        forall j | 0 <= j < |s| - 1 ensures s[1..][j] != x {
          assert s[1..][j] == s[j + 1];
        }
      }
    }
  }

  /** The rows the WHERE clause `w` admits, in their scan order. */
  function Filter(rows: seq<Giveaway>, w: Where): (r: seq<Giveaway>)
    ensures forall i :: 0 <= i < |r| ==> Admits(w, r[i])
    ensures multiset(r) <= multiset(rows)
    ensures forall x :: x in rows && Admits(w, x) ==> x in r
  {
    if rows == [] then []
    else
      assert rows == [rows[0]] + rows[1..];
      (if Admits(w, rows[0]) then [rows[0]] else []) + Filter(rows[1..], w)
  }

  predicate SortedByEndDate(s: seq<Giveaway>) {
    forall i, j :: 0 <= i < j < |s| ==> s[i].endDate <= s[j].endDate
  }

  /** A row that ends no later than the head of a sorted sequence can go in front of it. */
  lemma SortedCons(g: Giveaway, s: seq<Giveaway>)
    requires SortedByEndDate(s) && (s == [] || g.endDate <= s[0].endDate)
    ensures SortedByEndDate([g] + s)
  {
    var r := [g] + s;
    forall i, j | 0 <= i < j < |r| ensures r[i].endDate <= r[j].endDate {
      if i == 0 && j > 1 {
        assert r[j] == s[j - 1] && s[0].endDate <= s[j - 1].endDate;
      }
    }
  }

  function InsertByEndDate(g: Giveaway, s: seq<Giveaway>): (r: seq<Giveaway>)
    requires SortedByEndDate(s)
    ensures SortedByEndDate(r)
    ensures multiset(r) == multiset(s) + multiset{g}
    ensures |r| == |s| + 1 && (r[0] == g || (s != [] && r[0] == s[0]))
  {
    if s == [] || g.endDate <= s[0].endDate then
      SortedCons(g, s);
      [g] + s
    else
      var rest := InsertByEndDate(g, s[1..]);
      assert s == [s[0]] + s[1..];
      SortedCons(s[0], rest);
      [s[0]] + rest
  }

  /** `ORDER BY endDate ASC`: the same rows, soonest-ending first. */
  function SortByEndDate(s: seq<Giveaway>): (r: seq<Giveaway>)
    ensures SortedByEndDate(r)
    ensures multiset(r) == multiset(s)
  {
    if s == [] then []
    else
      assert s == [s[0]] + s[1..];
      InsertByEndDate(s[0], SortByEndDate(s[1..]))
  }

  /** `rows.map(obj => ({url: DetailPrefix + obj.id, id: obj.id}))`. */
  function ToCandidates(rows: seq<Giveaway>): (c: seq<Candidate>)
    ensures |c| == |rows|
    ensures forall i :: 0 <= i < |rows| ==> c[i] == Candidate(DetailUrl(rows[i].id), rows[i].id)
  {
    if rows == [] then [] else [Candidate(DetailUrl(rows[0].id), rows[0].id)] + ToCandidates(rows[1..])
  }

  /** The filtered rows of a table, ordered by end date (no LIMIT). */
  ghost function Ranked(t: Giveaways, w: Where): seq<Giveaway>
    requires KeyedById(t)
  {
    SortByEndDate(Filter(TableRows(t), w))
  }

  lemma TwoPositions(s: seq<Giveaway>, i: int, j: int)
    requires 0 <= i < j < |s| && s[i] == s[j]
    ensures multiset(s)[s[i]] >= 2
  {
    assert s == s[..j] + s[j..];
    assert s[i] in s[..j];
    assert s[j] in s[j..];
    assert multiset(s) == multiset(s[..j]) + multiset(s[j..]);
  }

  /** Every ranked row is a row of the table that `w` admits. */
  lemma RankedSound(t: Giveaways, w: Where)
    requires KeyedById(t)
    ensures var r := Ranked(t, w);
      forall i :: 0 <= i < |r| ==> r[i].id in t && t[r[i].id] == r[i] && Admits(w, r[i])
  {
    var rows := TableRows(t);
    TableRowsSound(t);
    var f := Filter(rows, w);
    var r := Ranked(t, w);
    forall i | 0 <= i < |r| ensures r[i].id in t && t[r[i].id] == r[i] && Admits(w, r[i]) {
      assert r[i] in multiset(f);
      assert r[i] in multiset(rows);
      var q :| 0 <= q < |f| && f[q] == r[i];
    }
  }

  /** No row is ranked twice. */
  lemma RankedDistinct(t: Giveaways, w: Where)
    requires KeyedById(t)
    ensures DistinctIds(Ranked(t, w))
  {
    var rows := TableRows(t);
    TableRowsDistinct(t);
    RankedSound(t, w);
    var r := Ranked(t, w);
    forall i, j | 0 <= i < j < |r| ensures r[i].id != r[j].id {
      if r[i].id == r[j].id {
        TwoPositions(r, i, j);
        DistinctOnce(rows, r[i]);
        assert false;
      }
    }
  }

  /** Every row `w` admits is ranked. */
  lemma RankedComplete(t: Giveaways, w: Where)
    requires KeyedById(t)
    ensures forall k :: k in t && Admits(w, t[k]) ==> t[k] in Ranked(t, w)
  {
    var rows := TableRows(t);
    TableRowsCover(t);
    var f := Filter(rows, w);
    var r := Ranked(t, w);
    forall k | k in t && Admits(w, t[k]) ensures t[k] in r {
      assert t[k] in f;
      assert t[k] in multiset(r);
    }
  }

  /** `LIMIT n` when `limit` is `Some(n)`, no LIMIT clause when it is `None`. */
  function Limited(r: seq<Giveaway>, limit: Option<nat>): (l: seq<Giveaway>)
    ensures l <= r
    ensures limit.None? ==> l == r
    ensures limit.Some? ==> |l| == if |r| < limit.value then |r| else limit.value
  {
    if limit.Some? && limit.value < |r| then r[..limit.value] else r
  }

  /**
   * The result of a prioritizing query: the table's rows that `w` admits,
   * soonest-ending first, cut to `limit`, each turned into its detail URL and id.
   */
  ghost function Select(t: Giveaways, w: Where, limit: Option<nat>): seq<Candidate>
    requires KeyedById(t)
  {
    ToCandidates(Limited(Ranked(t, w), limit))
  }

  /** Each candidate is an admitted row of the table, named by a URL its id reads back from. */
  lemma SelectSound(t: Giveaways, w: Where, limit: Option<nat>)
    requires KeyedById(t)
    ensures var c := Select(t, w, limit);
      && (limit.Some? ==> |c| <= limit.value)
      && (forall i :: 0 <= i < |c| ==> c[i].id in t && Admits(w, t[c[i].id]))
      && (forall i :: 0 <= i < |c| ==> c[i].url == DetailUrl(c[i].id) && IdOfDetailUrl(c[i].url) == Some(c[i].id))
  {
    var r := Ranked(t, w);
    var l := Limited(r, limit);
    var c := Select(t, w, limit);
    RankedSound(t, w);
    forall i | 0 <= i < |c| ensures c[i].id in t && Admits(w, t[c[i].id]) {
      assert c[i].id == l[i].id && l[i] == r[i];
    }
    forall i | 0 <= i < |c| ensures IdOfDetailUrl(c[i].url) == Some(c[i].id) {
      DetailUrlRoundTrip(c[i].id);
    }
  }

  /** No row is a candidate twice, and candidates come soonest-ending first. */
  ghost predicate OrderedCandidates(t: Giveaways, c: seq<Candidate>) {
    forall i, j :: 0 <= i < j < |c| ==> c[i].id in t && c[j].id in t && c[i].id != c[j].id && t[c[i].id].endDate <= t[c[j].id].endDate
  }

  lemma SelectOrdered(t: Giveaways, w: Where, limit: Option<nat>)
    requires KeyedById(t)
    ensures OrderedCandidates(t, Select(t, w, limit))
  {
    var r := Ranked(t, w);
    var l := Limited(r, limit);
    var c := Select(t, w, limit);
    RankedSound(t, w);
    RankedDistinct(t, w);
    forall i, j | 0 <= i < j < |c|
      ensures c[i].id in t && c[j].id in t && c[i].id != c[j].id && t[c[i].id].endDate <= t[c[j].id].endDate
    {
      assert c[i].id == r[i].id && c[j].id == r[j].id;
    }
  }

  /** Some candidate names giveaway `k`. */
  predicate Names(c: seq<Candidate>, k: int) {
    exists i :: 0 <= i < |c| && c[i].id == k
  }

  /**
   * Every admitted row is a candidate, unless `limit` candidates were
   * returned and they all end no later than it.
   */
  lemma SelectComplete(t: Giveaways, w: Where, limit: Option<nat>, k: int)
    requires KeyedById(t) && k in t && Admits(w, t[k])
    ensures var c := Select(t, w, limit);
      || Names(c, k)
      || (limit.Some? && |c| == limit.value && forall i :: 0 <= i < |c| ==> c[i].id in t && t[c[i].id].endDate <= t[k].endDate)
  {
    var r := Ranked(t, w);
    var l := Limited(r, limit);
    var c := Select(t, w, limit);
    RankedComplete(t, w);
    var p :| 0 <= p < |r| && r[p] == t[k];
    if p < |l| {
      assert c[p].id == r[p].id;
    } else {
      RankedSound(t, w);
      CutAfter(t, r, limit, p);
    }
  }

  /** A sorted row list cut by `limit` before position `p` keeps `limit` rows that all end no later than row `p`. */
  lemma CutAfter(t: Giveaways, r: seq<Giveaway>, limit: Option<nat>, p: int)
    requires SortedByEndDate(r) && 0 <= p < |r| && p >= |Limited(r, limit)|
    requires forall i :: 0 <= i < |r| ==> r[i].id in t && t[r[i].id] == r[i]
    ensures var c := ToCandidates(Limited(r, limit));
      && limit.Some? && |c| == limit.value
      && forall i :: 0 <= i < |c| ==> c[i].id in t && t[c[i].id].endDate <= r[p].endDate
  {
    var c := ToCandidates(Limited(r, limit));
    forall i | 0 <= i < |c| ensures c[i].id in t && t[c[i].id].endDate <= r[p].endDate {
      assert c[i].id == r[i].id;
    }
  }
}
