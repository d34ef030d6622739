/** A stable sort by a comparison, as the sort calls of the lane cap and the artifact list promise it. */
module Sorting {

  /** Total and transitive; different elements may tie. */
  ghost predicate Order<T(!new)>(before: (T, T) -> bool) {
    && (forall x, y :: before(x, y) || before(y, x))
    && (forall x, y, z :: before(x, y) && before(y, z) ==> before(x, z))
  }

  ghost predicate Sorted<T>(s: seq<T>, before: (T, T) -> bool) {
    forall i, j :: 0 <= i < j < |s| ==> before(s[i], s[j])
  }

  /** `x` after every element that does not come after it: what a stable sort does with a last element. */
  function Insert<T>(s: seq<T>, x: T, before: (T, T) -> bool): seq<T> {
    if |s| == 0 || before(s[|s| - 1], x) then s + [x] else Insert(s[..|s| - 1], x, before) + [s[|s| - 1]]
  }

  function SortBy<T>(s: seq<T>, before: (T, T) -> bool): seq<T> {
    if |s| == 0 then [] else Insert(SortBy(s[..|s| - 1], before), s[|s| - 1], before)
  }

  lemma {:induction false} InsertAdds<T>(s: seq<T>, x: T, before: (T, T) -> bool)
    ensures multiset(Insert(s, x, before)) == multiset(s) + multiset{x}
    ensures forall y :: y in Insert(s, x, before) <==> y in s || y == x
  {
    if |s| != 0 && !before(s[|s| - 1], x) {
      InsertAdds(s[..|s| - 1], x, before);
      assert s == s[..|s| - 1] + [s[|s| - 1]];
    }
  }

  lemma {:induction false} InsertSorts<T(!new)>(s: seq<T>, x: T, before: (T, T) -> bool)
    requires Order(before) && Sorted(s, before)
    ensures Sorted(Insert(s, x, before), before)
  {
    if |s| == 0 || before(s[|s| - 1], x) {
      forall i | 0 <= i < |s| ensures before(s[i], x) {
        if i < |s| - 1 { assert before(s[i], s[|s| - 1]); }
      }
    } else {
      var n := |s| - 1;
      assert before(x, s[n]);
      hide Order;
      InsertSorts(s[..n], x, before);
      InsertAdds(s[..n], x, before);
      var t := Insert(s[..n], x, before);
      forall i | 0 <= i < |t| ensures before(t[i], s[n]) { assert t[i] in t; }
    }
  }

  /** The result is a sorted permutation. */
  lemma {:induction false} SortBySorts<T(!new)>(s: seq<T>, before: (T, T) -> bool)
    requires Order(before)
    ensures Sorted(SortBy(s, before), before) && multiset(SortBy(s, before)) == multiset(s)
    ensures |SortBy(s, before)| == |s| && forall y :: y in SortBy(s, before) <==> y in s
  {
    if |s| != 0 {
      hide Order, Sorted;
      var n := |s| - 1;
      SortBySorts(s[..n], before);
      InsertSorts(SortBy(s[..n], before), s[n], before);
      InsertAdds(SortBy(s[..n], before), s[n], before);
      assert s == s[..n] + [s[n]];
      assert |SortBy(s, before)| == |multiset(SortBy(s, before))|;
    } else {
      assert Sorted<T>([], before);
    }
  }

  /** The elements of `s` that satisfy `p`, in order. */
  function Filter<T>(s: seq<T>, p: T -> bool): seq<T> {
    if |s| == 0 then [] else Filter(s[..|s| - 1], p) + (if p(s[|s| - 1]) then [s[|s| - 1]] else [])
  }

  ghost predicate Tied<T(!new)>(p: T -> bool, before: (T, T) -> bool) {
    forall x, y :: p(x) && p(y) ==> before(x, y)
  }

  lemma {:induction false} InsertIsStable<T(!new)>(s: seq<T>, x: T, before: (T, T) -> bool, p: T -> bool)
    requires Tied(p, before)
    ensures Filter(Insert(s, x, before), p) == Filter(s, p) + (if p(x) then [x] else [])
  {
    if |s| == 0 || before(s[|s| - 1], x) {
      assert (s + [x])[..|s|] == s;
    } else {
      var n := |s| - 1;
      InsertIsStable(s[..n], x, before, p);
      var t := Insert(s[..n], x, before);
      assert (t + [s[n]])[..|t|] == t;
    }
  }

  /** Elements that tie keep the order they had. */
  lemma {:induction false} SortByIsStable<T(!new)>(s: seq<T>, before: (T, T) -> bool, p: T -> bool)
    requires Tied(p, before)
    ensures Filter(SortBy(s, before), p) == Filter(s, p)
  {
    if |s| != 0 {
      SortByIsStable(s[..|s| - 1], before, p);
      InsertIsStable(SortBy(s[..|s| - 1], before), s[|s| - 1], before, p);
    }
  }
}
