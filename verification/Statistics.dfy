/**
 Sorting, mean and median of samples, and what a position in the sorted list says about them.
 */
module Statistics {
  import opened Floats

  /** The order in which samples are sorted: NaN comes first. */
  predicate Leq(a: Float, b: Float) {
    a.NaN? || (b.Num? && a.value <= b.value)
  }

  predicate Sorted(l: seq<Float>) {
    forall i, j :: 0 <= i < j < |l| ==> Leq(l[i], l[j])
  }

  function Insert(x: Float, l: seq<Float>): seq<Float> {
    if l == [] || Leq(l[|l| - 1], x) then l + [x] else Insert(x, l[..|l| - 1]) + [l[|l| - 1]]
  }

  function SortedCopy(l: seq<Float>): (r: seq<Float>)
    ensures |r| == |l|
  {
    if l == [] then [] else
      InsertLength(l[|l| - 1], SortedCopy(l[..|l| - 1]));
      Insert(l[|l| - 1], SortedCopy(l[..|l| - 1]))
  }

  lemma {:induction false} InsertLength(x: Float, l: seq<Float>)
    ensures |Insert(x, l)| == |l| + 1
  {
    if l == [] || Leq(l[|l| - 1], x) {
    } else {
      InsertLength(x, l[..|l| - 1]);
    }
  }

  /** How many samples come no later than x, and no earlier than x. */
  function AtMost(l: seq<Float>, x: Float): nat {
    if l == [] then 0 else AtMost(l[..|l| - 1], x) + if Leq(l[|l| - 1], x) then 1 else 0
  }

  function AtLeast(l: seq<Float>, x: Float): nat {
    if l == [] then 0 else AtLeast(l[..|l| - 1], x) + if Leq(x, l[|l| - 1]) then 1 else 0
  }

  lemma {:induction false} InsertKeeps(y: Float, l: seq<Float>, x: Float)
    ensures AtMost(Insert(y, l), x) == AtMost(l, x) + if Leq(y, x) then 1 else 0
    ensures AtLeast(Insert(y, l), x) == AtLeast(l, x) + if Leq(x, y) then 1 else 0
  {
    var r := Insert(y, l);
    if l == [] || Leq(l[|l| - 1], y) {
      assert r[..|l|] == l;
    } else {
      InsertKeeps(y, l[..|l| - 1], x);
      assert r[..|r| - 1] == Insert(y, l[..|l| - 1]);
    }
  }

  lemma {:induction false} InsertSame(y: Float, l: seq<Float>)
    ensures multiset(Insert(y, l)) == multiset(l) + multiset{y}
  {
    hide Leq;
    if l == [] || Leq(l[|l| - 1], y) {
    } else {
      InsertSame(y, l[..|l| - 1]);
      assert l == l[..|l| - 1] + [l[|l| - 1]];
    }
  }

  lemma {:induction false} InsertSorted(y: Float, l: seq<Float>)
    requires Sorted(l)
    ensures Sorted(Insert(y, l))
  {
    if l == [] {
    } else if Leq(l[|l| - 1], y) {
      forall i | 0 <= i < |l| ensures Leq(l[i], y) {
        assert i == |l| - 1 || Leq(l[i], l[|l| - 1]);
      }
    } else {
      var t, z := l[..|l| - 1], l[|l| - 1];
      InsertSorted(y, t);
      InsertSame(y, t);
      var s := Insert(y, t);
      forall i | 0 <= i < |s| ensures Leq(s[i], z) {
        assert s[i] in multiset(s);
        assert s[i] == y || s[i] in t;
      }
      assert Insert(y, l) == s + [z];
    }
  }

  lemma {:induction false} SortedCopySorted(l: seq<Float>)
    ensures Sorted(SortedCopy(l)) && multiset(SortedCopy(l)) == multiset(l)
  {
    hide Leq;
    if l == [] {
    } else {
      var t, y := l[..|l| - 1], l[|l| - 1];
      SortedCopySorted(t);
      InsertSame(y, SortedCopy(t));
      InsertSorted(y, SortedCopy(t));
      assert l == t + [y];
    }
  }

  lemma {:induction false} SortedCopyCounts(l: seq<Float>, x: Float)
    ensures AtMost(SortedCopy(l), x) == AtMost(l, x) && AtLeast(SortedCopy(l), x) == AtLeast(l, x)
  {
    hide Leq;
    if l == [] {
    } else {
      SortedCopyCounts(l[..|l| - 1], x);
      InsertKeeps(l[|l| - 1], SortedCopy(l[..|l| - 1]), x);
    }
  }

  /** A sorted copy is sorted, has the same samples, and so counts the same. */
  lemma SortedCopyIs(l: seq<Float>, x: Float)
    ensures Sorted(SortedCopy(l)) && multiset(SortedCopy(l)) == multiset(l)
    ensures AtMost(SortedCopy(l), x) == AtMost(l, x) && AtLeast(SortedCopy(l), x) == AtLeast(l, x)
  {
    hide Sorted, SortedCopy, AtMost, AtLeast;
    SortedCopySorted(l);
    SortedCopyCounts(l, x);
  }

  // ----- positions -----

  /** In a sorted list the sample at position k has k + 1 samples up to it and the rest from it on. */
  lemma {:induction false} Rank(s: seq<Float>, k: nat)
    requires Sorted(s) && k < |s|
    ensures AtMost(s, s[k]) >= k + 1 && AtLeast(s, s[k]) >= |s| - k
  {
    var t := s[..|s| - 1];
    if k == |s| - 1 {
      forall i | 0 <= i < |s| ensures Leq(s[i], s[k]) {
      }
      AllAtMost(s, s[k]);
    } else {
      Rank(t, k);
      assert t[k] == s[k];
    }
  }

  lemma {:induction false} AllAtMost(l: seq<Float>, x: Float)
    requires forall i :: 0 <= i < |l| ==> Leq(l[i], x)
    ensures AtMost(l, x) == |l|
  {
    if l == [] {
    } else {
      AllAtMost(l[..|l| - 1], x);
    }
  }

  /** And a sample that more than k samples do not exceed is not below position k. */
  lemma {:induction false} RankBounds(s: seq<Float>, k: nat, x: Float)
    requires Sorted(s) && k < |s|
    ensures AtMost(s, x) > k ==> Leq(s[k], x)
    ensures AtLeast(s, x) > |s| - 1 - k ==> Leq(x, s[k])
  {
    if !Leq(s[k], x) {
      FewAtMost(s, k, x);
    }
    if !Leq(x, s[k]) {
      FewAtLeast(s, k, x);
    }
  }

  lemma {:induction false} FewAtMost(s: seq<Float>, k: nat, x: Float)
    requires Sorted(s) && k < |s| && !Leq(s[k], x)
    ensures AtMost(s, x) <= k
  {
    var t := s[..|s| - 1];
    if k < |s| - 1 {
      FewAtMost(t, k, x);
      assert Leq(s[k], s[|s| - 1]);
    } else {
      CountsBounded(t, x);
    }
  }

  lemma {:induction false} FewAtLeast(s: seq<Float>, k: nat, x: Float)
    requires Sorted(s) && k < |s| && !Leq(x, s[k])
    ensures AtLeast(s, x) <= |s| - 1 - k
  {
    var t := s[..|s| - 1];
    if k < |s| - 1 {
      FewAtLeast(t, k, x);
    } else {
      forall i | 0 <= i < |s| ensures !Leq(x, s[i]) {
        assert i == k || Leq(s[i], s[k]);
      }
      NoneAtLeast(s, x);
    }
  }

  lemma {:induction false} NoneAtLeast(l: seq<Float>, x: Float)
    requires forall i :: 0 <= i < |l| ==> !Leq(x, l[i])
    ensures AtLeast(l, x) == 0
  {
    if l == [] {
    } else {
      NoneAtLeast(l[..|l| - 1], x);
    }
  }

  lemma {:induction false} CountsBounded(l: seq<Float>, x: Float)
    ensures AtMost(l, x) <= |l| && AtLeast(l, x) <= |l|
  {
    if l == [] {
    } else {
      CountsBounded(l[..|l| - 1], x);
    }
  }

  lemma {:induction false} CountsMonotone(l: seq<Float>, x: Float, y: Float)
    requires Leq(x, y)
    ensures AtMost(l, x) <= AtMost(l, y) && AtLeast(l, y) <= AtLeast(l, x)
  {
    if l == [] {
    } else {
      CountsMonotone(l[..|l| - 1], x, y);
    }
  }

  // ----- mean and median -----

  /** The sum of samples in their order; NaN spreads. */
  function Sum(l: seq<Float>): Float {
    if l == [] then Num(0.0) else Add(Sum(l[..|l| - 1]), l[|l| - 1])
  }

  function Divide(a: Float, n: nat): Float
    requires n > 0
  {
    if a.Num? then Num(a.value / n as real) else NaN
  }

  method Mean(input: seq<Float>) returns (mean: Float, err: bool)
    ensures err <==> input == []
    ensures mean == if input == [] then NaN else Divide(Sum(input), |input|)
  {
    if |input| == 0 {
      return NaN, true;
    }
    var sum := Num(0.0);
    for i := 0 to |input|
      invariant sum == Sum(input[..i])
    {
      assert input[..i + 1][..i] == input[..i];
      sum := Add(sum, input[i]);
    }
    assert input[..|input|] == input;
    return Divide(sum, |input|), false;
  }

  /** The sum in order is the total of the samples, or NaN if one of them is. */
  lemma {:induction false} SumIsTotal(l: seq<Float>)
    ensures Sum(l) == if Count(l) == |l| then Num(Total(l)) else NaN
  {
    CountExtremes(l);
    if l == [] {
    } else {
      SumIsTotal(l[..|l| - 1]);
      CountExtremes(l[..|l| - 1]);
    }
  }

  /** The mean of samples that are not NaN, in terms of their total, lies between any bounds they all meet. */
  lemma MeanBounds(l: seq<Float>, lo: real, hi: real)
    requires l != [] && forall x :: x in l ==> x.Num? && lo <= x.value <= hi
    ensures var m := Divide(Sum(l), |l|); m.Num? && m.value * |l| as real == Total(l) && lo <= m.value <= hi
  {
    hide Sum, Total, Count;
    SumIsTotal(l);
    CountExtremes(l);
    TotalBounds(l, lo, hi);
    var m := Divide(Sum(l), |l|).value;
    assert m * |l| as real == Total(l);
    Cancel(lo, m, |l| as real);
    Cancel(m, hi, |l| as real);
  }

  /** The middle sample, or the mean of the two middle ones. */
  function Middle(c: seq<Float>): Float
    requires c != []
  {
    var h := |c| / 2;
    if |c| % 2 == 0 then Divide(Add(c[h - 1], c[h]), 2) else c[h]
  }

  method Median(input: seq<Float>) returns (median: Float, err: bool)
    ensures err <==> input == []
    ensures median == if input == [] then NaN else Middle(SortedCopy(input))
  {
    var c := SortedCopy(input);
    var l := |c|;
    if l == 0 {
      return NaN, true;
    } else if l % 2 == 0 {
      var two := c[l / 2 - 1..l / 2 + 1];
      var err': bool;
      median, err' := Mean(two);
      assert two[..1] == [c[l / 2 - 1]] && two[..1][..0] == [];
      assert Sum(two[..1]) == Add(Num(0.0), c[l / 2 - 1]);
    } else {
      median := c[l / 2];
    }
    return median, false;
  }

  /** The median is between two neighbours of the sorted list, in the middle, and NaN if the lower one is. */
  lemma MiddleBetween(c: seq<Float>)
    requires Sorted(c) && c != []
    ensures Leq(c[(|c| - 1) / 2], Middle(c)) && Leq(Middle(c), c[|c| / 2])
    ensures Middle(c).NaN? <==> c[(|c| - 1) / 2].NaN?
    ensures Middle(c).Num? ==> c[|c| / 2].Num? && Middle(c).value * 2.0 == c[(|c| - 1) / 2].value + c[|c| / 2].value
  {
    var h := |c| / 2;
    if |c| % 2 == 0 {
      assert (|c| - 1) / 2 == h - 1;
      assert Leq(c[h - 1], c[h]);
    } else {
      assert (|c| - 1) / 2 == h;
    }
  }

  lemma SortedNums(l: seq<Float>)
    requires forall i :: 0 <= i < |l| ==> l[i].Num?
    ensures forall i :: 0 <= i < |l| ==> SortedCopy(l)[i].Num?
  {
    hide Sorted, SortedCopy;
    SortedCopyIs(l, NaN);
    var c := SortedCopy(l);
    forall i | 0 <= i < |l| ensures c[i].Num? {
      assert c[i] in multiset(c);
      assert c[i] in l;
    }
  }

  /** The samples that come no later than NaN are those that are NaN. */
  lemma {:induction false} CountNaN(l: seq<Float>)
    ensures AtMost(l, NaN) == |l| - Count(l)
  {
    if l == [] {
    } else {
      CountNaN(l[..|l| - 1]);
    }
  }

  /**
   At least half of the samples come no later than the median and at least half no earlier;
   the median is NaN exactly when at least half of the samples are.
   */
  lemma MedianHalves(l: seq<Float>)
    requires l != []
    ensures var m := Middle(SortedCopy(l));
            && 2 * AtMost(l, m) >= |l| && 2 * AtLeast(l, m) >= |l|
            && (m.NaN? <==> 2 * (|l| - Count(l)) >= |l|)
  {
    hide Sorted, SortedCopy, AtMost, AtLeast, Middle, Count;
    var c := SortedCopy(l);
    var m := Middle(c);
    SortedCopyIs(l, m);
    SortedCopyIs(l, NaN);
    MiddleBetween(c);
    var lo, hi := (|c| - 1) / 2, |c| / 2;
    Rank(c, lo);
    Rank(c, hi);
    RankBounds(c, lo, NaN);
    CountNaN(l);
    hide Leq;
    CountsMonotone(c, c[lo], m);
    CountsMonotone(c, m, c[hi]);
  }
}
