/**
 The staging clean-up: three set-at-a-time deletions over the staging table. SQL equality is never true of NULL,
 so a missing URL, title or company never makes two rows duplicates.
 */
module Deduplicate {
  import opened Common

  /** A staging row with the time it was created, which no statement of the clean-up looks at. */
  datatype Row = Row(url: Option<string>, title: Option<string>, company: Option<string>, created: int)

  type Table = map<int, Row>

  predicate Equal(a: Option<string>, b: Option<string>) { a.Some? && a == b }

  predicate SameUrl(a: Row, b: Row) { Equal(a.url, b.url) }

  predicate SamePosting(a: Row, b: Row) { Equal(a.title, b.title) && Equal(a.company, b.company) }

  /** One reason two rows count as duplicates. */
  datatype Reason = ByUrl | ByPosting {
    predicate Links(a: Row, b: Row) { if ByUrl? then SameUrl(a, b) else SamePosting(a, b) }
  }

  predicate HasSmaller(t: Table, reason: Reason, id: int)
    requires id in t
  {
    exists k :: k in t && k < id && reason.Links(t[id], t[k])
  }

  /** Deletes every row that had a duplicate of smaller id when the statement began. */
  function KeepSmallest(t: Table, reason: Reason): Table {
    map id | id in t && !HasSmaller(t, reason, id) :: t[id]
  }

  predicate Evaluated(row: Row, jobs: seq<Row>) {
    exists i :: 0 <= i < |jobs| && (SameUrl(jobs[i], row) || SamePosting(jobs[i], row))
  }

  function DropEvaluated(t: Table, jobs: seq<Row>): Table {
    map id | id in t && !Evaluated(t[id], jobs) :: t[id]
  }

  function Deduplicated(t: Table): Table { KeepSmallest(KeepSmallest(t, ByUrl), ByPosting) }

  function Cleaned(t: Table, jobs: seq<Row>): Table { DropEvaluated(Deduplicated(t), jobs) }

  /** No two rows of the table are duplicates for the reason. */
  ghost predicate Unique(t: Table, reason: Reason) {
    forall i, j :: i in t && j in t && i != j ==> !reason.Links(t[i], t[j])
  }

  ghost predicate Within(t: Table, u: Table) { forall id :: id in t ==> id in u && t[id] == u[id] }

  lemma KeepSmallestIsUnique(t: Table, reason: Reason)
    ensures Unique(KeepSmallest(t, reason), reason) && Within(KeepSmallest(t, reason), t)
  {
    var kept := KeepSmallest(t, reason);
    forall i, j | i in kept && j in kept && i != j ensures !reason.Links(kept[i], kept[j]) {
      var younger, older := if i < j then j else i, if i < j then i else j;
      assert !HasSmaller(t, reason, younger);
    }
  }

  /** Which rows the passes delete, column by column: the URL pass those that share a given URL with a row of smaller
      id, the second pass those that share a given title and a given company with one, the last pass those of which
      some job has the URL, or the title and the company. */
  lemma DeletedExactly(t: Table, jobs: seq<Row>, id: int)
    requires id in t
    ensures id in KeepSmallest(t, ByUrl) <==>
      t[id].url == None || forall k :: k in t && k < id ==> t[k].url != t[id].url
    ensures id in KeepSmallest(t, ByPosting) <==>
      || t[id].title == None || t[id].company == None
      || forall k :: k in t && k < id ==> t[k].title != t[id].title || t[k].company != t[id].company
    ensures id in DropEvaluated(t, jobs) <==>
      forall i :: 0 <= i < |jobs| ==>
        && (t[id].url == None || jobs[i].url != t[id].url)
        && (t[id].title == None || t[id].company == None ||
            jobs[i].title != t[id].title || jobs[i].company != t[id].company)
  {
  }

  /** So a row that lacks a URL, and a title or a company, is never deleted and deletes nothing. */
  lemma UnidentifiedRowsStay(t: Table, jobs: seq<Row>, id: int)
    requires id in t && t[id].url == None && (t[id].title == None || t[id].company == None)
    ensures id in Cleaned(t, jobs) && Cleaned(t - {id}, jobs) == Cleaned(t, jobs) - {id}
  {
    DeletedExactly(t, jobs, id);
    DropsApart(t, ByUrl, id);
    DropsApart(KeepSmallest(t, ByUrl), ByPosting, id);
    assert id in DropEvaluated(Deduplicated(t), jobs);
    hide HasSmaller;
    assert DropEvaluated(Deduplicated(t) - {id}, jobs) == DropEvaluated(Deduplicated(t), jobs) - {id};
  }

  lemma DropsApart(t: Table, reason: Reason, id: int)
    requires id in t && forall row :: !reason.Links(t[id], row) && !reason.Links(row, t[id])
    ensures id in KeepSmallest(t, reason) && KeepSmallest(t - {id}, reason) == KeepSmallest(t, reason) - {id}
  {
    var less := t - {id};
    forall k | k in less ensures HasSmaller(less, reason, k) <==> HasSmaller(t, reason, k) {
      if j :| j in t && j < k && reason.Links(t[k], t[j]) { assert j in less && less[j] == t[j]; }
    }
  }

  lemma UniqueWithin(t: Table, u: Table, reason: Reason)
    requires Within(t, u) && Unique(u, reason)
    ensures Unique(t, reason)
  {
  }

  /** Afterwards no two staging rows share a URL or a title and company, and none is already evaluated. */
  lemma CleanedIsClean(t: Table, jobs: seq<Row>)
    ensures var c := Cleaned(t, jobs);
      && Within(c, t) && Unique(c, ByUrl) && Unique(c, ByPosting)
      && forall id :: id in c ==> !Evaluated(c[id], jobs)
  {
    var first := KeepSmallest(t, ByUrl);
    KeepSmallestIsUnique(t, ByUrl);
    KeepSmallestIsUnique(first, ByPosting);
    UniqueWithin(Deduplicated(t), first, ByUrl);
    UniqueWithin(Cleaned(t, jobs), Deduplicated(t), ByUrl);
    UniqueWithin(Cleaned(t, jobs), Deduplicated(t), ByPosting);
  }

  /** A second run finds nothing to delete; a clean table is exactly one the run leaves as it is. */
  lemma CleanIsStable(t: Table, jobs: seq<Row>)
    ensures Cleaned(t, jobs) == t <==>
      Unique(t, ByUrl) && Unique(t, ByPosting) && forall id :: id in t ==> !Evaluated(t[id], jobs)
    ensures Cleaned(Cleaned(t, jobs), jobs) == Cleaned(t, jobs)
  {
    CleanedIsClean(t, jobs);
    Stable(Cleaned(t, jobs), jobs);
    if Unique(t, ByUrl) && Unique(t, ByPosting) && forall id :: id in t ==> !Evaluated(t[id], jobs) {
      Stable(t, jobs);
    }
  }

  lemma Stable(t: Table, jobs: seq<Row>)
    requires Unique(t, ByUrl) && Unique(t, ByPosting) && forall id :: id in t ==> !Evaluated(t[id], jobs)
    ensures KeepSmallest(t, ByUrl) == t && KeepSmallest(t, ByPosting) == t && DropEvaluated(t, jobs) == t
  {
  }

  // ------------------------------------------------------------------ what became of a deleted row

  function Below(t: Table, id: int): set<int> { set k | k in t && k < id }

  /** A row that lost to one of smaller id lost to one that stays: the smallest of its group. */
  lemma {:induction false} SmallestStays(t: Table, reason: Reason, id: int) returns (keeper: int)
    requires id in t && HasSmaller(t, reason, id)
    ensures keeper in KeepSmallest(t, reason) && keeper < id && reason.Links(t[id], t[keeper])
    decreases Below(t, id)
  {
    var k :| k in t && k < id && reason.Links(t[id], t[k]);
    if HasSmaller(t, reason, k) {
      assert k in Below(t, id) && k !in Below(t, k) && Below(t, k) <= Below(t, id);
      keeper := SmallestStays(t, reason, k);
    } else {
      keeper := k;
    }
  }

  /** The row stands for itself or has the URL of `u`, which the first pass keeps, and `u` stands for itself or has the
      title and company of `k`, which both passes keep; ids fall along the way. */
  predicate Chain(t: Table, id: int, u: int, k: int)
    requires id in t
  {
    && u in KeepSmallest(t, ByUrl) && k in Deduplicated(t)
    && (u == id || (u < id && SameUrl(t[id], t[u])))
    && (k == u || (k < u && SamePosting(t[u], t[k])))
  }

  /** Every row, deleted or not, reaches a row that survives both passes by at most two duplicate links. */
  lemma EveryRowIsRepresented(t: Table, id: int) returns (u: int, k: int)
    requires id in t
    ensures Chain(t, id, u, k)
  {
    var first := KeepSmallest(t, ByUrl);
    u := id;
    if HasSmaller(t, ByUrl, id) { u := SmallestStays(t, ByUrl, id); }
    k := u;
    if HasSmaller(first, ByPosting, u) { k := SmallestStays(first, ByPosting, u); }
  }

  /** There is only one such way. */
  lemma ChainIsUnique(t: Table, id: int, u: int, k: int, v: int, m: int)
    requires id in t && Chain(t, id, u, k) && Chain(t, id, v, m)
    ensures u == v && k == m
  {
    KeepSmallestIsUnique(t, ByUrl);
    KeepSmallestIsUnique(KeepSmallest(t, ByUrl), ByPosting);
    SameKeeper(t, ByUrl, id, u, v);
    SameKeeper(KeepSmallest(t, ByUrl), ByPosting, u, k, m);
  }

  lemma SameKeeper(t: Table, reason: Reason, id: int, u: int, v: int)
    requires id in t && u in KeepSmallest(t, reason) && v in KeepSmallest(t, reason)
    requires u == id || (u < id && reason.Links(t[id], t[u]))
    requires v == id || (v < id && reason.Links(t[id], t[v]))
    ensures u == v
  {
    var kept := KeepSmallest(t, reason);
    KeepSmallestIsUnique(t, reason);
    assert u != v ==> !reason.Links(kept[u], kept[v]) && !reason.Links(kept[v], kept[u]);
  }

  // ------------------------------------------------------------------ age

  /** Every row is kept, or a duplicate at least as old as it is. */
  ghost predicate OldestStays(t: Table, reason: Reason) {
    forall id :: id in t ==> KeptAsOld(t, reason, id)
  }

  ghost predicate KeptAsOld(t: Table, reason: Reason, id: int)
    requires id in t
  {
    exists k :: k in KeepSmallest(t, reason) && (k == id || reason.Links(t[id], t[k])) && t[k].created <= t[id].created
  }

  /** The smallest id of each group of duplicates belongs to its oldest row. */
  ghost predicate IdsFollowAge(t: Table, reason: Reason) {
    forall i, j :: i in t && j in t && i < j && reason.Links(t[i], t[j]) && !HasSmaller(t, reason, i)
      ==> t[i].created <= t[j].created
  }

  lemma LinksAreShared(reason: Reason, a: Row, b: Row, c: Row)
    ensures reason.Links(a, b) ==> reason.Links(b, a)
    ensures reason.Links(a, b) && reason.Links(b, c) ==> reason.Links(a, c)
  {
  }

  lemma FollowingKeepsOldest(t: Table, reason: Reason, id: int)
    requires IdsFollowAge(t, reason) && id in t
    ensures KeptAsOld(t, reason, id)
  {
    if HasSmaller(t, reason, id) {
      var k := SmallestStays(t, reason, id);
      LinksAreShared(reason, t[id], t[k], t[k]);
      hide SameUrl, SamePosting, HasSmaller;
      assert k in KeepSmallest(t, reason) && t[k].created <= t[id].created;
    } else {
      assert id in KeepSmallest(t, reason);
    }
  }

  lemma OneKeeper(t: Table, reason: Reason, i: int, j: int, k: int)
    requires i in t && j in t && i < j && reason.Links(t[i], t[j]) && !HasSmaller(t, reason, i)
    requires k in KeepSmallest(t, reason) && (k == j || reason.Links(t[j], t[k]))
    ensures k == i
  {
    LinksAreShared(reason, t[i], t[j], t[k]);
    assert k != j;
    KeepSmallestIsUnique(t, reason);
    hide SameUrl, SamePosting, HasSmaller;
    assert i in KeepSmallest(t, reason) && KeepSmallest(t, reason)[k] == t[k];
  }

  lemma KeepingOldestFollows(t: Table, reason: Reason, i: int, j: int)
    requires j in t && KeptAsOld(t, reason, j)
    requires i in t && i < j && reason.Links(t[i], t[j]) && !HasSmaller(t, reason, i)
    ensures t[i].created <= t[j].created
  {
    hide HasSmaller, SameUrl, SamePosting;
    var k :| k in KeepSmallest(t, reason) && (k == j || reason.Links(t[j], t[k])) && t[k].created <= t[j].created;
    OneKeeper(t, reason, i, j, k);
  }

  /** A pass keeps the oldest row of every group, as its comment says, if and only if the ids happen to say so. */
  lemma OldestStaysExactly(t: Table, reason: Reason)
    ensures OldestStays(t, reason) <==> IdsFollowAge(t, reason)
  {
    hide KeptAsOld, HasSmaller, SameUrl, SamePosting;
    if IdsFollowAge(t, reason) {
      forall id | id in t ensures KeptAsOld(t, reason, id) { FollowingKeepsOldest(t, reason, id); }
    }
    if OldestStays(t, reason) {
      forall i, j | i in t && j in t && i < j && reason.Links(t[i], t[j]) && !HasSmaller(t, reason, i)
        ensures t[i].created <= t[j].created
      {
        KeepingOldestFollows(t, reason, i, j);
      }
    }
  }

  /** Ids are random, so it need not be: of these two rows with one URL, the older one goes. */
  lemma OlderRowCanGo(i: int, j: int, a: Row, b: Row)
    requires i < j && SameUrl(a, b) && b.created < a.created
    ensures var t: Table := map[i := a, j := b];
      KeepSmallest(t, ByUrl) == map[i := a] && !OldestStays(t, ByUrl)
  {
    var t: Table := map[i := a, j := b];
    assert i in t && HasSmaller(t, ByUrl, j) && !HasSmaller(t, ByUrl, i);
    OldestStaysExactly(t, ByUrl);
    assert t[i] == a && t[j] == b && ByUrl.Links(t[i], t[j]);
  }

  lemma OlderRowGoes()
    ensures var a, b := Row(Some("u"), Some("a"), Some("x"), 5), Row(Some("u"), Some("b"), Some("x"), 3);
      var t: Table := map[1 := a, 2 := b];
      2 !in Deduplicated(t) && 1 in Deduplicated(t) && t[2].created < t[1].created
  {
    var a, b := Row(Some("u"), Some("a"), Some("x"), 5), Row(Some("u"), Some("b"), Some("x"), 3);
    OlderRowCanGo(1, 2, a, b);
  }

  /** When both passes keep the oldest of each group, every row is represented by one at least as old. */
  lemma OldestRepresents(t: Table, id: int, u: int, k: int)
    requires IdsFollowAge(t, ByUrl) && IdsFollowAge(KeepSmallest(t, ByUrl), ByPosting)
    requires id in t && Chain(t, id, u, k)
    ensures t[k].created <= t[id].created
  {
    var first := KeepSmallest(t, ByUrl);
    if u != id { assert ByUrl.Links(t[u], t[id]) && !HasSmaller(t, ByUrl, u); }
    if k != u { assert ByPosting.Links(first[k], first[u]) && !HasSmaller(first, ByPosting, k); }
  }

  /** Ids given out in order of creation, at least among duplicates, are enough for that. */
  lemma OrderedIdsFollowAge(t: Table)
    requires forall i, j, reason: Reason :: i in t && j in t && i < j && reason.Links(t[i], t[j]) ==>
      t[i].created <= t[j].created
    ensures IdsFollowAge(t, ByUrl) && IdsFollowAge(KeepSmallest(t, ByUrl), ByPosting)
  {
  }

  /** The row of smallest id is deleted only for being evaluated already. */
  lemma SmallestRowStays(t: Table, id: int)
    requires id in t && forall k :: k in t ==> id <= k
    ensures id in Deduplicated(t)
  {
    assert id in KeepSmallest(t, ByUrl);
  }

  /** The passes do not commute, and they do not merge chains: a row deleted by URL no longer counts as a
      duplicate of a third one, which therefore stays, though the other order would have deleted it. */
  lemma PassOrderMatters(a: Row, b: Row, c: Row)
    requires SameUrl(b, a) && !SameUrl(c, a) && !SameUrl(c, b)
    requires SamePosting(c, b) && !SamePosting(b, a) && !SamePosting(c, a)
    ensures var t: Table := map[1 := a, 2 := b, 3 := c];
      |Deduplicated(t)| == 2 && |KeepSmallest(KeepSmallest(t, ByPosting), ByUrl)| == 1
  {
    hide SameUrl, SamePosting;
    var t: Table := map[1 := a, 2 := b, 3 := c];
    assert HasSmaller(t, ByUrl, 2) by { assert 1 in t; }
    assert HasSmaller(t, ByPosting, 3) by { assert 2 in t; }
    var first: Table := map[1 := a, 3 := c];
    assert KeepSmallest(t, ByUrl) == first;
    assert KeepSmallest(first, ByPosting) == first;
    var other: Table := map[1 := a, 2 := b];
    assert KeepSmallest(t, ByPosting) == other;
    assert HasSmaller(other, ByUrl, 2) by { assert 1 in other; }
    assert KeepSmallest(other, ByUrl) == map[1 := a];
  }

  // ------------------------------------------------------------------ the script

  class StagingTable {
    var rows: Table

    constructor (initial: Table)
      ensures rows == initial
    {
      rows := initial;
    }

    method Delete(gone: set<int>) returns (count: nat)
      requires gone <= rows.Keys
      modifies this
      ensures rows == old(rows) - gone
      ensures count == |gone| && |rows| + count == |old(rows)|
    {
      count := |gone|;
      rows := rows - gone;
      assert rows.Keys == old(rows).Keys - gone;
      assert |old(rows)| == |old(rows).Keys| && |rows| == |rows.Keys|;
    }

    method DeleteDuplicates(reason: Reason) returns (count: nat)
      modifies this
      ensures rows == KeepSmallest(old(rows), reason)
      ensures |rows| + count == |old(rows)|
    {
      var gone := set id | id in rows && HasSmaller(rows, reason, id);
      count := Delete(gone);
    }

    method DeleteEvaluated(jobs: seq<Row>) returns (count: nat)
      modifies this
      ensures rows == DropEvaluated(old(rows), jobs)
      ensures |rows| + count == |old(rows)|
    {
      var gone := set id | id in rows && Evaluated(rows[id], jobs);
      count := Delete(gone);
    }

    /** The three reported counts account for every row that disappeared; all are 0 exactly on a clean table. */
    method RunDeduplication(jobs: seq<Row>) returns (byUrl: nat, byPosting: nat, evaluated: nat)
      modifies this
      ensures rows == Cleaned(old(rows), jobs)
      ensures |old(rows)| == |rows| + byUrl + byPosting + evaluated
      ensures byUrl == byPosting == evaluated == 0 <==> rows == old(rows)
    {
      byUrl := DeleteDuplicates(ByUrl);
      byPosting := DeleteDuplicates(ByPosting);
      evaluated := DeleteEvaluated(jobs);
      assert Within(rows, old(rows)) by { CleanedIsClean(old(rows), jobs); }
      if |rows| == |old(rows)| { SameSizeWithin(rows, old(rows)); }
    }
  }

  lemma SameSizeWithin(t: Table, u: Table)
    requires Within(t, u) && |t| == |u|
    ensures t == u
  {
    assert forall id :: id in t.Keys ==> id in u.Keys;
    assert |t.Keys| == |t| && |u.Keys| == |u|;
    SubsetOfSameSize(t.Keys, u.Keys);
    assert t.Keys == u.Keys;
    assert forall id :: id in t.Keys ==> t[id] == u[id];
  }

  lemma SubsetOfSameSize(a: set<int>, b: set<int>)
    requires a <= b && |a| == |b|
    ensures a == b
  {
    assert b * a == a && |b - a| == |b| - |b * a|;
    assert b == a + (b - a);
  }
}
