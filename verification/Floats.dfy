/**
 Floating-point samples: exact real numbers and one NaN, which every operation passes on.
 */
module Floats {
  datatype Float = NaN | Num(value: real)

  function Add(a: Float, b: Float): Float {
    if a.Num? && b.Num? then Num(a.value + b.value) else NaN
  }

  /** The sum of the samples that are not NaN. */
  function Total(s: seq<Float>): real {
    if s == [] then 0.0
    else Total(s[..|s| - 1]) + (if s[|s| - 1].Num? then s[|s| - 1].value else 0.0)
  }

  /** How many samples are not NaN. */
  function Count(s: seq<Float>): nat {
    if s == [] then 0
    else Count(s[..|s| - 1]) + (if s[|s| - 1].Num? then 1 else 0)
  }

  lemma Push(s: seq<Float>, k: nat)
    requires k < |s|
    ensures Total(s[..k + 1]) == Total(s[..k]) + (if s[k].Num? then s[k].value else 0.0)
    ensures Count(s[..k + 1]) == Count(s[..k]) + (if s[k].Num? then 1 else 0)
  {
    assert s[..k + 1][..k] == s[..k];
  }

  lemma {:induction false} TotalConcat(s: seq<Float>, t: seq<Float>)
    ensures Total(s + t) == Total(s) + Total(t)
    ensures Count(s + t) == Count(s) + Count(t)
  {
    if t == [] {
      assert s + t == s;
    } else {
      var u := t[..|t| - 1];
      TotalConcat(s, u);
      assert (s + t)[..|s + t| - 1] == s + u;
    }
  }

  /** Count is zero only for samples that are all NaN, and full only when none is. */
  lemma {:induction false} CountExtremes(s: seq<Float>)
    ensures Count(s) <= |s|
    ensures Count(s) == 0 <==> forall x :: x in s ==> x.NaN?
    ensures Count(s) == |s| <==> forall x :: x in s ==> x.Num?
  {
    if s == [] {
    } else {
      var u := s[..|s| - 1];
      CountExtremes(u);
      var last := s[|s| - 1];
      assert s == u + [last] && last in s;
      assert forall x :: x in u ==> x in s;
      assert forall x :: x in s ==> x in u || x == last;
    }
  }

  /** A positive factor can be cancelled. */
  lemma Cancel(x: real, y: real, c: real)
    requires c > 0.0 && x * c <= y * c
    ensures x <= y
  {
    assert x > y ==> (x - y) * c > 0.0;
  }

  /** The mean of the samples that are not NaN lies between any bounds they all meet. */
  lemma {:induction false} TotalBounds(s: seq<Float>, lo: real, hi: real)
    requires forall x :: x in s && x.Num? ==> lo <= x.value <= hi
    ensures lo * Count(s) as real <= Total(s) <= hi * Count(s) as real
  {
    if s == [] {
    } else {
      var u := s[..|s| - 1];
      TotalBounds(u, lo, hi);
      assert s == u + [s[|s| - 1]];
      var c := Count(u) as real;
      assert lo * (c + 1.0) == lo * c + lo && hi * (c + 1.0) == hi * c + hi;
    }
  }

  lemma EmptyTotal(b: seq<Float>)
    ensures Count(b) == 0 ==> Total(b) == 0.0
    ensures b == [] ==> Count(b) == 0
  {
    if Count(b) == 0 {
      CountExtremes(b);
      TotalBounds(b, 0.0, 0.0);
    }
  }
}
