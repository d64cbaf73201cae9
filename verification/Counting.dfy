/**
 Counting how often the elements of one list occur in another.
 */
module Counting {
  predicate Distinct(s: seq<int>) {
    forall i, j :: 0 <= i < j < |s| ==> s[i] != s[j]
  }

  /** How often x occurs in s. */
  function Times(s: seq<int>, x: int): nat { multiset(s)[x] }

  /** The occurrences in group of all elements of ids, repeated ids counted again. */
  function Hits(group: seq<int>, ids: seq<int>): nat {
    if ids == [] then 0 else Hits(group, ids[..|ids| - 1]) + Times(group, ids[|ids| - 1])
  }

  lemma TimesPush(s: seq<int>, x: int, y: int)
    ensures Times(s + [x], y) == Times(s, y) + if x == y then 1 else 0
  {
  }

  lemma {:induction false} DistinctTimes(s: seq<int>, x: int)
    requires Distinct(s)
    ensures Times(s, x) == if x in s then 1 else 0
  {
    if s == [] {
    } else {
      var t, y := s[..|s| - 1], s[|s| - 1];
      assert s == t + [y];
      DistinctTimes(t, x);
      TimesPush(t, y, x);
    }
  }

  lemma {:induction false} HitsPush(group: seq<int>, x: int, ids: seq<int>)
    ensures Hits(group + [x], ids) == Hits(group, ids) + Times(ids, x)
  {
    if ids == [] {
    } else {
      var t, y := ids[..|ids| - 1], ids[|ids| - 1];
      assert ids == t + [y];
      HitsPush(group, x, t);
      TimesPush(group, x, y);
      TimesPush(t, y, x);
    }
  }

  /** Counting pairs of equal elements from either side gives the same number. */
  lemma {:induction false} HitsSymmetric(group: seq<int>, ids: seq<int>)
    ensures Hits(group, ids) == Hits(ids, group)
  {
    if group == [] {
      HitsNone(ids);
    } else {
      var t, y := group[..|group| - 1], group[|group| - 1];
      assert group == t + [y];
      HitsSymmetric(t, ids);
      HitsPush(t, y, ids);
    }
  }

  lemma {:induction false} HitsNone(ids: seq<int>)
    ensures Hits([], ids) == 0
  {
    if ids == [] {
    } else {
      HitsNone(ids[..|ids| - 1]);
    }
  }

  lemma {:induction false} HitsBound(ids: seq<int>, group: seq<int>)
    requires Distinct(ids)
    ensures Hits(ids, group) <= |group|
    ensures Hits(ids, group) == |group| <==> forall x :: x in group ==> x in ids
  {
    if group == [] {
    } else {
      var t, y := group[..|group| - 1], group[|group| - 1];
      assert group == t + [y];
      HitsBound(ids, t);
      DistinctTimes(ids, y);
    }
  }

  /** Different ids hit a group as often as it has elements exactly when they include all of them. */
  lemma Pigeonhole(group: seq<int>, ids: seq<int>)
    requires Distinct(ids)
    ensures Hits(group, ids) == |group| <==> forall x :: x in group ==> x in ids
  {
    HitsSymmetric(group, ids);
    HitsBound(ids, group);
  }

  lemma {:induction false} HitsSome(group: seq<int>, ids: seq<int>)
    ensures Hits(group, ids) > 0 <==> exists x :: x in ids && x in group
  {
    if ids == [] {
    } else {
      var t, y := ids[..|ids| - 1], ids[|ids| - 1];
      assert ids == t + [y];
      HitsSome(group, t);
      assert y in ids && (Times(group, y) > 0 <==> y in group);
      assert forall x :: x in t ==> x in ids;
      if x :| x in ids && x in group {
        assert x in t || x == y;
      }
    }
  }
}
