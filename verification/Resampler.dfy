/**
 The three downsampling algorithms of the resampler package.

 Samples are exact reals or NaN. The one place where rounding could matter is the
 bucket boundary of the largest-triangle algorithm, the floor of a multiple of a
 rational step: there the multiples may be off by less than one half.
 */
module Resampler {
  import opened Floats

  datatype Length = Length(newLength: int, step: int, error: bool)

  /** A resampler's answer: the series with its frequency, an error, or the panic of make with a negative length. */
  datatype Resampled = Series(data: seq<Float>, frequency: int) | Failed | Panicked

  /** A length of -1 says that the data is to be returned as it is. */
  function ValidateFrequency(lenData: nat, oldFrequency: int, newFrequency: int, minimum: int): Length {
    if oldFrequency == 0 || newFrequency == 0 || newFrequency <= oldFrequency then
      Length(-1, 0, false)
    else if newFrequency % oldFrequency != 0 then
      Length(-1, 0, true)
    else
      var step := newFrequency / oldFrequency;
      StepNotZero(oldFrequency, newFrequency);
      // Truncating and Euclidean division agree on a dividend that is not negative.
      var newLength := lenData / step;
      if newLength == 0 || lenData < minimum || newLength >= lenData then Length(-1, 0, false)
      else Length(newLength, step, false)
  }

  lemma StepNotZero(oldFrequency: int, newFrequency: int)
    requires oldFrequency != 0 && newFrequency != 0 && newFrequency > oldFrequency && newFrequency % oldFrequency == 0
    ensures newFrequency / oldFrequency * oldFrequency == newFrequency
    ensures oldFrequency > 0 ==> newFrequency / oldFrequency >= 2
    ensures oldFrequency < 0 ==> newFrequency > 0 && newFrequency / oldFrequency <= -1
  {
    var q := newFrequency / oldFrequency;
    assert newFrequency == q * oldFrequency;
    if oldFrequency > 0 {
      assert q <= 1 ==> q * oldFrequency <= 1 * oldFrequency;
    } else {
      assert q >= 1 ==> q * oldFrequency <= 1 * oldFrequency;
      assert q <= -1 ==> q * oldFrequency > 0;
    }
  }

  /** For a positive old frequency an accepted length really shortens the data, and fewer than step samples are left over. */
  lemma AcceptedLength(lenData: nat, oldFrequency: int, newFrequency: int, minimum: int)
    requires oldFrequency > 0
    ensures var r := ValidateFrequency(lenData, oldFrequency, newFrequency, minimum);
            r.newLength == -1
            || (!r.error && r.step >= 2 && r.step * oldFrequency == newFrequency && r.newLength >= 1
                && r.newLength * r.step <= lenData < r.newLength * r.step + r.step && 2 * r.newLength <= lenData)
    ensures var r := ValidateFrequency(lenData, oldFrequency, newFrequency, minimum);
            && (r.error <==> newFrequency > oldFrequency && newFrequency % oldFrequency != 0)
            && (r.newLength != -1 <==> newFrequency > oldFrequency && newFrequency % oldFrequency == 0
                                       && lenData >= minimum && lenData >= newFrequency / oldFrequency)
  {
    var r := ValidateFrequency(lenData, oldFrequency, newFrequency, minimum);
    if newFrequency > oldFrequency && newFrequency % oldFrequency == 0 {
      StepNotZero(oldFrequency, newFrequency);
      Division(lenData, newFrequency / oldFrequency);
    }
    if r.newLength != -1 {
      StepNotZero(oldFrequency, newFrequency);
      Division(lenData, r.step);
    }
  }

  lemma Monotone(a: int, b: int, c: int)
    requires c >= 0
    ensures a <= b ==> a * c <= b * c
  {
    if a <= b {
      assert (b - a) * c >= 0;
    }
  }

  lemma Division(n: nat, step: int)
    requires step >= 2
    ensures 0 <= n / step && (n / step) * step <= n < (n / step) * step + step && 2 * (n / step) <= n
  {
    var q, r := n / step, n % step;
    assert n == q * step + r;
    Monotone(q, -1, step);
    Monotone(2, step, q);
  }

  lemma NegativeStep(n: nat, step: int)
    requires step < 0
    ensures n / step == -(n / -step)
  {
    var q := n / -step;
    assert n == q * -step + n % -step;
    assert n == (-q) * step + n % -step;
    assert n == (n / step) * step + n % step;
    var d := n / step + q;
    assert d * step == n % -step - n % step;
    assert d >= 1 ==> d * step <= step;
    assert d <= -1 ==> d * step >= -step;
  }

  /** The length is negative enough to make the allocation panic exactly for a negative old frequency that divides a long enough series. */
  lemma PanicsExactly(lenData: nat, oldFrequency: int, newFrequency: int, minimum: int)
    ensures ValidateFrequency(lenData, oldFrequency, newFrequency, minimum).newLength < -1
       <==> (oldFrequency < 0 < newFrequency && newFrequency % oldFrequency == 0 && lenData >= minimum
             && lenData / -(newFrequency / oldFrequency) >= 2)
  {
    if oldFrequency != 0 && newFrequency > oldFrequency && newFrequency != 0 && newFrequency % oldFrequency == 0 {
      StepNotZero(oldFrequency, newFrequency);
      if oldFrequency < 0 {
        NegativeStep(lenData, newFrequency / oldFrequency);
      } else {
        AcceptedLength(lenData, oldFrequency, newFrequency, minimum);
      }
    }
  }

  // ----- every step-th sample -----

  /** sample i of the result is sample i * step of the data. */
  ghost predicate EveryNth(data: seq<Float>, step: int, result: seq<Float>) {
    forall i :: 0 <= i < |result| ==> Nth(data, step, i, result[i])
  }

  predicate Nth(data: seq<Float>, step: int, i: nat, x: Float) {
    0 <= i * step < |data| && x == data[i * step]
  }

  method SimpleResampler(data: seq<Float>, oldFrequency: int, newFrequency: int, minimum: int) returns (r: Resampled)
    ensures var v := ValidateFrequency(|data|, oldFrequency, newFrequency, minimum);
            if v.error then r == Failed
            else if v.newLength == -1 then r == Series(data, oldFrequency)
            else if v.newLength < 0 then r == Panicked
            else r.Series? && r.frequency == newFrequency && |r.data| == v.newLength && EveryNth(data, v.step, r.data)
  {
    hide ValidateFrequency, Nth;
    var v := ValidateFrequency(|data|, oldFrequency, newFrequency, minimum);
    if v.error { return Failed; }
    if v.newLength == -1 { return Series(data, oldFrequency); }
    if v.newLength < 0 { return Panicked; }
    PositiveWhenAccepted(|data|, oldFrequency, newFrequency, minimum);
    AcceptedLength(|data|, oldFrequency, newFrequency, minimum);
    var newData: seq<Float> := [];
    for i := 0 to v.newLength
      invariant |newData| == i && EveryNth(data, v.step, newData)
    {
      BucketInside(|data|, v.newLength, v.step, i);
      NthIs(data, v.step, i);
      newData := newData + [data[i * v.step]];
    }
    r := Series(newData, newFrequency);
  }

  lemma NthIs(data: seq<Float>, step: int, i: nat)
    requires 0 <= i * step < |data|
    ensures Nth(data, step, i, data[i * step])
  {
  }

  lemma PositiveWhenAccepted(lenData: nat, oldFrequency: int, newFrequency: int, minimum: int)
    requires ValidateFrequency(lenData, oldFrequency, newFrequency, minimum).newLength >= 0
    ensures oldFrequency > 0
  {
    var r := ValidateFrequency(lenData, oldFrequency, newFrequency, minimum);
    StepNotZero(oldFrequency, newFrequency);
    if oldFrequency < 0 {
      NegativeStep(lenData, newFrequency / oldFrequency);
    }
  }

  lemma BucketInside(n: nat, m: nat, step: nat, i: nat)
    requires i < m && m * step <= n && step >= 1
    ensures i * step < (i + 1) * step <= n && (i + 1) * step == i * step + step
  {
    assert (i + 1) * step <= m * step;
  }

  // ----- averages of fixed buckets -----

  function Bucket(data: seq<Float>, step: nat, i: nat): (b: seq<Float>)
    requires (i + 1) * step <= |data|
    ensures |b| == step
  {
    assert (i + 1) * step == i * step + step;
    data[i * step..(i + 1) * step]
  }

  /** means[i] is the mean of the samples of bucket i that are not NaN. */
  ghost predicate Averages(data: seq<Float>, step: nat, means: seq<Float>) {
    && |means| * step <= |data|
    && forall i :: 0 <= i < |means| ==> Averaged(data, step, i, means[i])
  }

  ghost predicate Averaged(data: seq<Float>, step: nat, i: nat, mean: Float) {
    (i + 1) * step <= |data| && MeanOf(Bucket(data, step, i), mean)
  }

  predicate MeanOf(b: seq<Float>, mean: Float) {
    if Count(b) == 0 then mean == NaN
    else mean.Num? && mean.value * Count(b) as real == Total(b)
  }

  /** One bucket of AverageResampler: the samples from base on. */
  method BucketMean(data: seq<Float>, base: nat, step: nat) returns (mean: Float)
    requires base + step <= |data|
    ensures MeanOf(data[base..base + step], mean)
  {
    hide Total, Count;
    ghost var bucket := data[base..base + step];
    var sum, count := 0.0, 0;
    EmptyTotal([]);
    for j := 0 to step
      invariant sum == Total(bucket[..j]) && count == Count(bucket[..j])
    {
      Push(bucket, j);
      var x := data[base + j];
      if x.Num? {
        sum, count := sum + x.value, count + 1;
      }
    }
    assert bucket[..step] == bucket;
    if count == 0 { return NaN; }
    mean := Num(sum / count as real);
    assert mean.value * count as real == sum;
  }

  lemma AveragedIs(data: seq<Float>, step: nat, i: nat, mean: Float)
    requires i * step + step <= |data| && MeanOf(data[i * step..i * step + step], mean)
    ensures Averaged(data, step, i, mean)
  {
    assert (i + 1) * step == i * step + step;
  }

  method AverageResampler(data: seq<Float>, oldFrequency: int, newFrequency: int, minimum: int) returns (r: Resampled)
    ensures var v := ValidateFrequency(|data|, oldFrequency, newFrequency, minimum);
            if v.error then r == Failed
            else if v.newLength == -1 then r == Series(data, oldFrequency)
            else if v.newLength < 0 then r == Panicked
            else r.Series? && r.frequency == newFrequency && |r.data| == v.newLength
                 && v.step >= 2 && Averages(data, v.step, r.data)
                 && |data| < v.newLength * v.step + v.step
  {
    hide ValidateFrequency, Averaged;
    var v := ValidateFrequency(|data|, oldFrequency, newFrequency, minimum);
    if v.error { return Failed; }
    if v.newLength == -1 { return Series(data, oldFrequency); }
    if v.newLength < 0 { return Panicked; }
    PositiveWhenAccepted(|data|, oldFrequency, newFrequency, minimum);
    AcceptedLength(|data|, oldFrequency, newFrequency, minimum);
    var newData: seq<Float> := [];
    for i := 0 to v.newLength
      invariant |newData| == i
      invariant forall j :: 0 <= j < i ==> Averaged(data, v.step, j, newData[j])
    {
      BucketInside(|data|, v.newLength, v.step, i);
      var mean := BucketMean(data, i * v.step, v.step);
      AveragedIs(data, v.step, i, mean);
      newData := newData + [mean];
    }
    r := Series(newData, newFrequency);
  }

  /** The mass of a resampled series: every mean times the number of samples it stands for. */
  ghost function Mass(data: seq<Float>, step: nat, means: seq<Float>): real
    requires Averages(data, step, means)
  {
    if means == [] then 0.0
    else
      var k := |means| - 1;
      AveragesPrefix(data, step, means);
      Mass(data, step, means[..k])
      + (if means[k].Num? then means[k].value * Count(Bucket(data, step, k)) as real else 0.0)
  }

  lemma AveragesPrefix(data: seq<Float>, step: nat, means: seq<Float>)
    requires Averages(data, step, means) && means != []
    ensures Averages(data, step, means[..|means| - 1])
  {
    hide Averaged;
    assert (|means| - 1) * step + step == |means| * step;
  }

  /** Averaging conserves the sum of the samples it covers. */
  lemma {:induction false} AverageConservesMass(data: seq<Float>, step: nat, means: seq<Float>)
    requires Averages(data, step, means)
    ensures Mass(data, step, means) == Total(data[..|means| * step])
  {
    hide Total, Count, Averaged;
    if means == [] {
      assert data[..|means| * step] == [];
      EmptyTotal([]);
    } else {
      var k := |means| - 1;
      AveragesPrefix(data, step, means);
      AverageConservesMass(data, step, means[..k]);
      MassStep(data, step, k, means[k]);
    }
  }

  lemma MassStep(data: seq<Float>, step: nat, k: nat, mean: Float)
    requires Averaged(data, step, k, mean)
    ensures k * step <= (k + 1) * step <= |data|
    ensures Total(data[..(k + 1) * step])
         == Total(data[..k * step]) + (if mean.Num? then mean.value * Count(Bucket(data, step, k)) as real else 0.0)
  {
    hide Total, Count;
    assert k * step + step == (k + 1) * step;
    var b := Bucket(data, step, k);
    assert data[..(k + 1) * step] == data[..k * step] + b;
    TotalConcat(data[..k * step], b);
    EmptyTotal(b);
  }

  /** A mean lies between the smallest and the largest sample of its bucket, and is NaN only when they all are. */
  lemma AverageBetween(data: seq<Float>, step: nat, means: seq<Float>, i: nat, lo: real, hi: real)
    requires Averages(data, step, means) && i < |means| && (i + 1) * step <= |data|
    requires forall x :: x in Bucket(data, step, i) && x.Num? ==> lo <= x.value <= hi
    ensures means[i].NaN? <==> forall x :: x in Bucket(data, step, i) ==> x.NaN?
    ensures means[i].Num? ==> lo <= means[i].value <= hi
  {
    hide Total, Count;
    var b := Bucket(data, step, i);
    CountExtremes(b);
    TotalBounds(b, lo, hi);
    assert Averaged(data, step, i, means[i]);
    if means[i].Num? {
      var c, x := Count(b) as real, means[i].value;
      Cancel(lo, x, c);
      Cancel(x, hi, c);
    }
  }

  // ----- largest triangles: where the buckets lie -----

  /**
   scale(k) is the computed k-th multiple of the bucket size (n - 2) / (m - 2). It may be
   off by less than one half; for m = 3 the bucket size is a division by one and exact.
   */
  ghost predicate Multiples(n: nat, m: int, scale: nat -> real) {
    m >= 3 ==>
      && (m == 3 ==> scale(1) == (n - 2) as real)
      && forall k :: 1 <= k < m ==> Near(n, m, scale(k), k)
  }

  ghost predicate Near(n: nat, m: int, x: real, k: nat)
    requires m >= 3
  {
    var exact := k as real * ((n - 2) as real / (m - 2) as real);
    exact - 0.5 < x < exact + 0.5
  }

  /** Where bucket k begins; the clamp does not apply to the first two boundaries. */
  function Boundary(n: nat, scale: nat -> real, k: nat): int {
    if k == 0 then 1
    else
      var b := scale(k).Floor + 1;
      if k >= 2 && b >= n - 1 then n - 2 else b
  }

  lemma AtLeastOnce(x: real, size: real)
    requires x >= 1.0 && size >= 0.0
    ensures x * size >= size
  {
    assert (x - 1.0) * size >= 0.0;
  }

  lemma Product(m: int, size: real, n: int, k: nat)
    requires m >= 4 && size > 2.0 && (m - 2) as real * size == n as real && 1 <= k < m
    ensures (k + 1) as real * size == k as real * size + size
    ensures k as real * size >= size
    ensures k == m - 2 ==> k as real * size == n as real
    ensures k == m - 1 ==> k as real * size == n as real + size
    ensures k < m - 2 ==> k as real * size <= n as real - size
  {
    var x, y := k as real, (m - 2) as real;
    assert (k + 1) as real == x + 1.0;
    assert (x + 1.0) * size == x * size + size;
    AtLeastOnce(x, size);
    if k < m - 2 {
      assert y - x == (m - 2 - k) as real >= 1.0;
      assert (y - x) * size == y * size - x * size;
      AtLeastOnce(y - x, size);
    } else if k == m - 1 {
      assert x == y + 1.0 && (y + 1.0) * size == y * size + size;
    }
  }

  lemma BucketSize(n: nat, m: int)
    requires m >= 4 && n >= 2 * m
    ensures var size := (n - 2) as real / (m - 2) as real; size > 2.0 && (m - 2) as real * size == (n - 2) as real
  {
    var size, d := (n - 2) as real / (m - 2) as real, (m - 2) as real;
    assert d * size == (n - 2) as real;
    assert size <= 2.0 ==> d * size <= d * 2.0;
  }

  /** Where boundary k lies, given the exact multiple e of the bucket size. */
  lemma BoundaryNear(n: nat, m: int, scale: nat -> real, k: nat, size: real) returns (e: real)
    requires m >= 4 && n >= 2 * m && Multiples(n, m, scale) && 1 <= k < m
    requires size == (n - 2) as real / (m - 2) as real
    ensures e == k as real * size && e - 0.5 < scale(k) < e + 0.5
    ensures size > 2.0 && e >= size
    ensures (k + 1) as real * size == e + size
    ensures k < m - 2 ==> e <= (n - 2) as real - size
    ensures k == m - 2 ==> e == (n - 2) as real
    ensures k == m - 1 ==> e == (n - 2) as real + size
  {
    BucketSize(n, m);
    Product(m, size, n - 2, k);
    e := k as real * size;
    assert Near(n, m, scale(k), k);
  }

  lemma FloorGap(x: real, y: real)
    requires x + 1.0 < y
    ensures x.Floor < y.Floor
  {
  }

  lemma BoundaryStep(n: nat, m: int, scale: nat -> real, k: nat)
    requires m >= 4 && n >= 2 * m && Multiples(n, m, scale) && k < m - 2
    ensures 1 <= Boundary(n, scale, k) < Boundary(n, scale, k + 1) <= n - 2
    ensures k + 1 == m - 2 ==> Boundary(n, scale, k + 1) == n - 2
  {
    hide Multiples, Near;
    var size := (n - 2) as real / (m - 2) as real;
    var f := BoundaryNear(n, m, scale, k + 1, size);
    assert size < scale(k + 1) + 0.5;
    if k > 0 {
      var e := BoundaryNear(n, m, scale, k, size);
      assert f == e + size;
      FloorGap(scale(k), scale(k + 1));
    }
    if k + 1 < m - 2 {
      FloorGap(scale(k + 1), (n - 2) as real);
    }
  }

  /** With four or more output points every bucket holds a sample and together they tile 1 .. n - 3. */
  lemma {:induction false} BucketsTile(n: nat, m: int, scale: nat -> real, i: nat, j: nat)
    requires m >= 4 && n >= 2 * m && Multiples(n, m, scale) && i < j <= m - 2
    ensures 1 <= Boundary(n, scale, i) < Boundary(n, scale, j) <= n - 2
    ensures Boundary(n, scale, 0) == 1 && Boundary(n, scale, m - 2) == n - 2 && Boundary(n, scale, m - 1) == n - 2
    decreases j
  {
    hide Multiples;
    BoundaryStep(n, m, scale, j - 1);
    if i == j - 1 {
    } else {
      BucketsTile(n, m, scale, i, j - 1);
    }
    BoundaryStep(n, m, scale, m - 3);
    var e := BoundaryNear(n, m, scale, m - 1, (n - 2) as real / (m - 2) as real);
  }

  /** The k-th exact multiple of the bucket size. */
  function Exact(n: nat, m: int, k: int): real
    requires m >= 3
  {
    k as real * ((n - 2) as real / (m - 2) as real)
  }

  lemma ExactStep(n: nat, m: int, k: int)
    requires m >= 4
    ensures Exact(n, m, k + 1) == Exact(n, m, k) + Exact(n, m, 1) && Exact(n, m, 0) == 0.0
  {
    var size := (n - 2) as real / (m - 2) as real;
    assert (k + 1) as real == k as real + 1.0;
    assert (k as real + 1.0) * size == k as real * size + size;
  }

  /** Every boundary lies within the error from the exact multiple, and one more; the first is at 1. */
  lemma BoundaryBounds(n: nat, m: int, scale: nat -> real, k: nat)
    requires m >= 4 && n >= 2 * m && Multiples(n, m, scale) && k <= m - 2
    ensures Exact(n, m, k) - 0.5 < Boundary(n, scale, k) as real < Exact(n, m, k) + 1.5
  {
    hide Multiples, Near;
    if k == 0 {
      ExactStep(n, m, 0);
    } else {
      var e := BoundaryNear(n, m, scale, k, (n - 2) as real / (m - 2) as real);
      BoundaryStep(n, m, scale, k - 1);
    }
  }

  /** All buckets have nearly the size of the quotient, so that any two differ by less than four samples. */
  lemma BucketSizes(n: nat, m: int, scale: nat -> real, j: nat, k: nat)
    requires m >= 4 && n >= 2 * m && Multiples(n, m, scale) && 1 <= j <= m - 2 && 1 <= k <= m - 2
    ensures var a, b := Boundary(n, scale, j) - Boundary(n, scale, j - 1), Boundary(n, scale, k) - Boundary(n, scale, k - 1);
            && Exact(n, m, 1) - 2.0 < a as real < Exact(n, m, 1) + 2.0
            && -4 < a - b < 4
  {
    hide Multiples, Exact, Boundary;
    BoundaryBounds(n, m, scale, j);
    BoundaryBounds(n, m, scale, j - 1);
    BoundaryBounds(n, m, scale, k);
    BoundaryBounds(n, m, scale, k - 1);
    ExactStep(n, m, j - 1);
    ExactStep(n, m, k - 1);
  }

  /** Without rounding errors boundary k is the first integer above the k-th multiple, and the buckets but the last differ from the quotient by less than one. */
  lemma {:induction false} ExactBuckets(n: nat, m: int, scale: nat -> real, k: nat)
    requires m >= 4 && n >= 2 * m && (forall j {:trigger scale(j)} :: 1 <= j < m ==> scale(j) == Exact(n, m, j)) && k < m - 2
    ensures Boundary(n, scale, k) as real - 1.0 <= Exact(n, m, k) < Boundary(n, scale, k) as real
    ensures k > 0 ==> Exact(n, m, 1) - 1.0 < (Boundary(n, scale, k) - Boundary(n, scale, k - 1)) as real < Exact(n, m, 1) + 1.0
  {
    assert Multiples(n, m, scale);
    hide Multiples, Near;
    ExactStep(n, m, 0);
    BoundaryStep(n, m, scale, k);
    if k == 0 {
    } else {
      assert scale(k) == Exact(n, m, k);
      BoundaryStep(n, m, scale, k - 1);
      ExactBuckets(n, m, scale, k - 1);
      ExactStep(n, m, k - 1);
    }
  }

  /** With three output points there is one bucket, 1 .. n - 2, and nothing is left to average after it. */
  lemma SingleBucket(n: nat, scale: nat -> real)
    requires n >= 6 && Multiples(n, 3, scale)
    ensures Boundary(n, scale, 1) == n - 1 && Boundary(n, scale, 2) == n - 2
  {
    assert Near(n, 3, scale(2), 2);
    assert 2.0 * ((n - 2) as real / 1.0) == (2 * (n - 2)) as real;
  }

  // ----- largest triangles: what is picked -----

  datatype Point = Point(x: Float, y: Float)

  function Abs(x: real): real { if x < 0.0 then -x else x }

  function CalculateTriangleArea(a: Point, b: Point, c: Point): (area: Float)
    ensures area.Num? ==> area.value >= 0.0
    ensures area.NaN? <==> a.x.NaN? || a.y.NaN? || b.x.NaN? || b.y.NaN? || c.x.NaN? || c.y.NaN?
  {
    if a.x.Num? && a.y.Num? && b.x.Num? && b.y.Num? && c.x.Num? && c.y.Num? then
      Num(Abs(Cross(a.x.value, a.y.value, b.x.value, b.y.value, c.x.value, c.y.value) * 0.5))
    else NaN
  }

  /** Twice the signed area of a triangle by the shoelace formula. */
  function Shoelace(px: real, py: real, qx: real, qy: real, rx: real, ry: real): real {
    px * (qy - ry) + qx * (ry - py) + rx * (py - qy)
  }

  lemma CrossIsShoelace(px: real, py: real, qx: real, qy: real, rx: real, ry: real)
    ensures Cross(px, py, qx, qy, rx, ry) == Shoelace(px, py, qx, qy, rx, ry)
  {
  }

  /** The area is that of the shoelace formula; the order of the corners does not matter, and it is half of base times height. */
  lemma AreaOfTriangle(a: Point, b: Point, c: Point, w: real, h: real)
    ensures a.x.Num? && a.y.Num? && b.x.Num? && b.y.Num? && c.x.Num? && c.y.Num? ==>
      CalculateTriangleArea(a, b, c) == Num(Abs(Shoelace(a.x.value, a.y.value, b.x.value, b.y.value, c.x.value, c.y.value)) / 2.0)
    ensures CalculateTriangleArea(a, b, c) == CalculateTriangleArea(b, a, c) == CalculateTriangleArea(a, c, b)
    ensures a.x.Num? && a.y.Num? && c.x.Num? ==>
      CalculateTriangleArea(a, Point(Num(a.x.value + w), a.y), Point(c.x, Num(a.y.value + h))) == Num(Abs(w * h) / 2.0)
  {
    if a.x.Num? && a.y.Num? && b.x.Num? && b.y.Num? && c.x.Num? && c.y.Num? {
      CrossSwaps(a.x.value, a.y.value, b.x.value, b.y.value, c.x.value, c.y.value);
      CrossIsShoelace(a.x.value, a.y.value, b.x.value, b.y.value, c.x.value, c.y.value);
    }
    if a.x.Num? && c.x.Num? {
      var p, q := a.x.value, c.x.value;
      assert (p - q) * 0.0 - (p - (p + w)) * h == w * h;
    }
  }

  function Cross(px: real, py: real, qx: real, qy: real, rx: real, ry: real): real {
    (px - rx) * (qy - py) - (px - qx) * (ry - py)
  }

  lemma CrossSwaps(px: real, py: real, qx: real, qy: real, rx: real, ry: real)
    ensures Cross(qx, qy, px, py, rx, ry) == -Cross(px, py, qx, qy, rx, ry)
    ensures Cross(px, py, rx, ry, qx, qy) == -Cross(px, py, qx, qy, rx, ry)
  {
    var u, v, x, y := qx - px, qy - py, rx - px, ry - py;
    assert Cross(px, py, qx, qy, rx, ry) == (-x) * v - (-u) * y;
    assert (u - x) * (-v) - u * (y - v) == x * v - u * y;
    assert Cross(qx, qy, px, py, rx, ry) == (u - x) * (-v) - u * (y - v);
  }

  /** p is the mean point of the samples, the first of which stands at xStart. */
  ghost predicate Centroid(points: seq<Float>, xStart: int, p: Point) {
    if points == [] then p == Point(NaN, NaN)
    else
      && p.x == Num(xStart as real + (|points| - 1) as real / 2.0)
      && (if Count(points) < |points| then p.y.NaN? else p.y.Num? && p.y.value * |points| as real == Total(points))
  }

  lemma CentroidUnique(points: seq<Float>, xStart: int, p: Point, q: Point)
    requires Centroid(points, xStart, p) && Centroid(points, xStart, q)
    ensures p == q
  {
    if points != [] && Count(points) == |points| {
      var l := |points| as real;
      Cancel(p.y.value, q.y.value, l);
      Cancel(q.y.value, p.y.value, l);
    }
  }

  /** xStart + (xStart + 1) + ..., k summands. */
  function SumFrom(xStart: int, k: nat): real {
    if k == 0 then 0.0 else SumFrom(xStart, k - 1) + (xStart + k - 1) as real
  }

  lemma {:induction false} SumFromClosed(xStart: int, k: nat)
    ensures SumFrom(xStart, k) == k as real * (xStart as real + (k as real - 1.0) / 2.0)
  {
    if k == 0 {
    } else {
      SumFromClosed(xStart, k - 1);
      var x, j := xStart as real, (k - 1) as real;
      assert (j + 1.0) * (x + j / 2.0) == j * (x + (j - 1.0) / 2.0) + (x + j);
    }
  }

  lemma MeanFrom(xStart: int, k: nat)
    requires k > 0
    ensures SumFrom(xStart, k) / k as real == xStart as real + (k - 1) as real / 2.0
  {
    SumFromClosed(xStart, k);
    var l, y := k as real, xStart as real + (k as real - 1.0) / 2.0;
    var q := (l * y) / l;
    assert q * l == l * y;
    Cancel(q, y, l);
    Cancel(y, q, l);
  }

  method CalculateAverageDataPoint(points: seq<Float>, xStart: int) returns (p: Point)
    ensures Centroid(points, xStart, p)
  {
    hide Total, Count;
    EmptyTotal([]);
    var avgX, avgY := Num(0.0), Num(0.0);
    var hasNaN, x := false, xStart;
    for i := 0 to |points|
      invariant x == xStart + i
      invariant avgX == Num(SumFrom(xStart, i))
      invariant Count(points[..i]) <= i && (hasNaN <==> Count(points[..i]) < i)
      invariant avgY == if hasNaN then NaN else Num(Total(points[..i]))
    {
      Push(points, i);
      avgX := Add(avgX, Num(x as real));
      avgY := Add(avgY, points[i]);
      x := x + 1;
      hasNaN := hasNaN || points[i].NaN?;
    }
    assert points[..|points|] == points;
    if |points| == 0 {
      // 0 / 0
      return Point(NaN, NaN);
    }
    var l := |points| as real;
    MeanFrom(xStart, |points|);
    p := Point(Num(avgX.value / l), if hasNaN then NaN else Num(avgY.value / l));
    assert !hasNaN ==> p.y.value * l == Total(points);
  }

  /** The triangle that sample q spans with sample prev and the point c. */
  function AreaAt(data: seq<Float>, prev: nat, c: Point, q: nat): Float
    requires prev < |data| && q < |data|
  {
    CalculateTriangleArea(Point(Num(prev as real), data[prev]), c, Point(Num(q as real), data[q]))
  }

  /** pick is the last sample of lo .. hi - 1 without an area if there is one, and otherwise the first with the largest area. */
  ghost predicate Choice(data: seq<Float>, prev: nat, c: Point, lo: nat, hi: nat, pick: nat)
    requires prev < |data| && hi <= |data|
  {
    && lo <= pick < hi
    && if AreaAt(data, prev, c, pick).NaN? then
         forall q :: pick < q < hi ==> AreaAt(data, prev, c, q).Num?
       else
         forall q :: lo <= q < hi ==>
           && AreaAt(data, prev, c, q).Num?
           && AreaAt(data, prev, c, q).value <= AreaAt(data, prev, c, pick).value
           && (q < pick ==> AreaAt(data, prev, c, q).value < AreaAt(data, prev, c, pick).value)
  }

  lemma ChoiceUnique(data: seq<Float>, prev: nat, c: Point, lo: nat, hi: nat, p: nat, q: nat)
    requires prev < |data| && hi <= |data| && Choice(data, prev, c, lo, hi, p) && Choice(data, prev, c, lo, hi, q)
    ensures p == q
  {
  }

  /** Every pick of the algorithm, the first and the last sample included, is the right choice in its bucket. */
  ghost predicate Picks(data: seq<Float>, m: nat, scale: nat -> real, picks: seq<nat>, count: nat)
    requires count + 2 <= m
  {
    && |picks| == count + 1
    && (forall i :: 0 <= i < |picks| ==> picks[i] < |data|)
    && picks[0] == 0
    && forall i :: 1 <= i < |picks| ==> RightPick(data, scale, picks[i - 1], i, picks[i])
  }

  /** pick is the choice in bucket i, which starts at boundary i - 1, seen from the previous pick. */
  ghost predicate RightPick(data: seq<Float>, scale: nat -> real, prev: nat, i: nat, pick: nat)
    requires 1 <= i && prev < |data|
  {
    var n := |data|;
    var lo, mid, high := Boundary(n, scale, i - 1), Boundary(n, scale, i), Boundary(n, scale, i + 1);
    && 0 <= lo < mid <= high + 1 <= n
    && exists c :: Centroid(data[mid..high + 1], mid, c) && Choice(data, prev, c, lo, mid, pick)
  }

  lemma AddPick(data: seq<Float>, scale: nat -> real, picks: seq<nat>, count: nat, pick: nat)
    requires Picks(data, count + 2, scale, picks, count)
    requires pick < |data| && RightPick(data, scale, picks[count], count + 1, pick)
    ensures Picks(data, count + 3, scale, picks + [pick], count + 1)
  {
  }

  /** result shows the samples chosen by picks between the first and the last one. */
  ghost predicate Downsampled(data: seq<Float>, m: nat, scale: nat -> real, picks: seq<nat>, result: seq<Float>)
  {
    && m >= 2 && |data| >= 1 && Picks(data, m, scale, picks, m - 2)
    && |result| == m
    && (forall i :: 0 <= i < m - 1 ==> result[i] == data[picks[i]])
    && result[m - 1] == data[|data| - 1]
  }

  /** result has m samples: the first, the right pick from every bucket, and the last. */
  ghost predicate LargestTriangles(data: seq<Float>, m: nat, scale: nat -> real, result: seq<Float>) {
    exists picks :: Downsampled(data, m, scale, picks, result)
  }

  lemma Buckets(n: nat, m: int, scale: nat -> real, i: nat)
    requires m >= 3 && n >= 2 * m && Multiples(n, m, scale) && 1 <= i < m - 1
    ensures 0 < Boundary(n, scale, i - 1) < Boundary(n, scale, i) <= Boundary(n, scale, i + 1) + 1 <= n - 1
  {
    if m == 3 {
      SingleBucket(n, scale);
    } else {
      BucketsTile(n, m, scale, i - 1, i);
      if i < m - 2 {
        BucketsTile(n, m, scale, i, i + 1);
      }
    }
  }

  /** The choice among the samples from lo up to but not including cur, where maxArea is the area found so far. */
  ghost predicate Best(data: seq<Float>, prev: nat, c: Point, lo: nat, cur: nat, maxArea: Float, best: nat)
    requires prev < |data| && cur <= |data|
  {
    if cur == lo then maxArea == Num(-1.0)
    else Choice(data, prev, c, lo, cur, best) && maxArea == AreaAt(data, prev, c, best)
  }

  /** One bucket of the algorithm. */
  method LargestTriangle(data: seq<Float>, prev: nat, c: Point, lo: nat, hi: nat) returns (maxAreaPoint: nat)
    requires prev < |data| && lo < hi <= |data|
    ensures Choice(data, prev, c, lo, hi, maxAreaPoint)
  {
    var maxArea := Num(-1.0);
    maxAreaPoint := 0;
    var cur := lo;
    while cur < hi
      invariant lo <= cur <= hi
      invariant Best(data, prev, c, lo, cur, maxArea, maxAreaPoint)
    {
      var area := AreaAt(data, prev, c, cur);
      if area.NaN? || (maxArea.Num? && area.value > maxArea.value) {
        maxArea := area;
        maxAreaPoint := cur;
      }
      cur := cur + 1;
    }
  }

  method LargestTriangleThreeBucket(data: seq<Float>, oldFrequency: int, newFrequency: int, minimum: int, scale: nat -> real)
    returns (r: Resampled)
    requires Multiples(|data|, ValidateFrequency(|data|, oldFrequency, newFrequency, minimum).newLength, scale)
    ensures var v := ValidateFrequency(|data|, oldFrequency, newFrequency, minimum);
            if v.error then r == Failed
            else if v.newLength == -1 then r == Series(data, oldFrequency)
            else if v.newLength < 0 then r == Panicked
            else r.Series? && r.frequency == newFrequency
                 && 2 * v.newLength <= |data|
                 && LargestTriangles(data, if v.newLength == 1 then 2 else v.newLength, scale, r.data)
  {
    hide ValidateFrequency, Multiples, Choice, Centroid;
    ghost var picks: seq<nat> := [0];
    var v := ValidateFrequency(|data|, oldFrequency, newFrequency, minimum);
    if v.error { return Failed; }
    if v.newLength == -1 { return Series(data, oldFrequency); }
    if v.newLength < 0 { return Panicked; }
    PositiveWhenAccepted(|data|, oldFrequency, newFrequency, minimum);
    AcceptedLength(|data|, oldFrequency, newFrequency, minimum);
    var n, m := |data|, v.newLength;
    var newData := [data[0]];
    var bucketLow, bucketMiddle := 1, scale(1).Floor + 1;
    var prevMaxAreaPoint := 0;
    var i := 0;
    while i < m - 2
      invariant 0 <= i && (m >= 2 ==> i <= m - 2) && (m == 1 ==> i == 0)
      invariant bucketLow == Boundary(n, scale, i) && bucketMiddle == Boundary(n, scale, i + 1)
      invariant Picks(data, i + 2, scale, picks, i) && picks[i] == prevMaxAreaPoint
      invariant |newData| == i + 1 && forall j :: 0 <= j <= i ==> newData[j] == data[picks[j]]
    {
      var bucketHigh := scale(i + 2).Floor + 1;
      if bucketHigh >= n - 1 {
        bucketHigh := n - 2;
      }
      Buckets(n, m, scale, i + 1);
      var c := CalculateAverageDataPoint(data[bucketMiddle..bucketHigh + 1], bucketMiddle);
      var maxAreaPoint := LargestTriangle(data, prevMaxAreaPoint, c, bucketLow, bucketMiddle);
      assert RightPick(data, scale, prevMaxAreaPoint, i + 1, maxAreaPoint);
      AddPick(data, scale, picks, i, maxAreaPoint);
      newData := newData + [data[maxAreaPoint]];
      prevMaxAreaPoint := maxAreaPoint;
      picks := picks + [maxAreaPoint];
      bucketLow, bucketMiddle := bucketMiddle, bucketHigh;
      i := i + 1;
    }
    newData := newData + [data[n - 1]];
    assert Downsampled(data, i + 2, scale, picks, newData);
    r := Series(newData, newFrequency);
  }

  /** The picked samples move strictly forward, one from each bucket, and stop before the last sample. */
  lemma {:induction false} PicksIncrease(data: seq<Float>, m: nat, scale: nat -> real, picks: seq<nat>, i: nat, j: nat)
    requires m >= 3 && |data| >= 2 * m && Multiples(|data|, m, scale) && Picks(data, m, scale, picks, m - 2)
    requires i < j < m - 1
    ensures picks[i] < picks[j] < |data| - 1
    ensures Boundary(|data|, scale, j - 1) <= picks[j] < Boundary(|data|, scale, j)
  {
    var n := |data|;
    assert RightPick(data, scale, picks[j - 1], j, picks[j]);
    Buckets(n, m, scale, j);
    if i + 1 < j {
      PicksIncrease(data, m, scale, picks, i, j - 1);
    } else if i > 0 {
      assert RightPick(data, scale, picks[i - 1], i, picks[i]);
    }
  }

  /** The i-th pick lies between the multiples i - 1 and i of the bucket size, give or take half a sample. */
  lemma PicksNear(data: seq<Float>, m: nat, scale: nat -> real, picks: seq<nat>, i: nat)
    requires m >= 4 && |data| >= 2 * m && Multiples(|data|, m, scale) && Picks(data, m, scale, picks, m - 2)
    requires 1 <= i < m - 1
    ensures Exact(|data|, m, i - 1) - 0.5 < picks[i] as real < Exact(|data|, m, i) + 0.5
  {
    hide Multiples, Exact, Boundary;
    PicksIncrease(data, m, scale, picks, i - 1, i);
    BoundaryBounds(|data|, m, scale, i - 1);
    BoundaryBounds(|data|, m, scale, i);
  }

  /** The picks, and so the resampled series, are determined by the data and the boundaries. */
  lemma {:induction false} PicksUnique(data: seq<Float>, m: nat, scale: nat -> real, p: seq<nat>, q: seq<nat>, count: nat)
    requires count + 2 <= m && Picks(data, m, scale, p, count) && Picks(data, m, scale, q, count)
    ensures p == q
  {
    if count == 0 {
    } else {
      PicksUnique(data, m, scale, p[..count], q[..count], count - 1);
      assert p[..count][count - 1] == q[..count][count - 1];
      var n := |data|;
      var lo, mid, high := Boundary(n, scale, count - 1), Boundary(n, scale, count), Boundary(n, scale, count + 1);
      var prev := p[count - 1];
      assert RightPick(data, scale, prev, count, p[count]) && RightPick(data, scale, prev, count, q[count]);
      var c :| Centroid(data[mid..high + 1], mid, c) && Choice(data, prev, c, lo, mid, p[count]);
      var d :| Centroid(data[mid..high + 1], mid, d) && Choice(data, prev, d, lo, mid, q[count]);
      CentroidUnique(data[mid..high + 1], mid, c, d);
      ChoiceUnique(data, prev, c, lo, mid, p[count], q[count]);
    }
  }

  /**
   Without NaN a pick spans the largest triangle, and is the first to do so: with the previous
   pick and the mean point of the next bucket and the sample after it, at the mean of their
   positions and the mean of their values.
   */
  lemma PickSpansLargest(data: seq<Float>, scale: nat -> real, prev: nat, i: nat, pick: nat) returns (y: real)
    requires 1 <= i && prev < |data| && RightPick(data, scale, prev, i, pick) && NaN !in data
    requires Boundary(|data|, scale, i) <= Boundary(|data|, scale, i + 1)
    ensures var n := |data|;
            var lo, mid, high := Boundary(n, scale, i - 1), Boundary(n, scale, i), Boundary(n, scale, i + 1);
            && y * (high + 1 - mid) as real == Total(data[mid..high + 1])
            && forall q :: lo <= q < mid ==>
                 && data[q].Num? && data[pick].Num? && data[prev].Num?
                 && var x := (mid + high) as real / 2.0;
                    var a := Abs(Shoelace(prev as real, data[prev].value, x, y, q as real, data[q].value));
                    var best := Abs(Shoelace(prev as real, data[prev].value, x, y, pick as real, data[pick].value));
                    a <= best && (q < pick ==> a < best)
  {
    var n := |data|;
    var lo, mid, high := Boundary(n, scale, i - 1), Boundary(n, scale, i), Boundary(n, scale, i + 1);
    var slice := data[mid..high + 1];
    var c :| Centroid(slice, mid, c) && Choice(data, prev, c, lo, mid, pick);
    hide Boundary, Multiples;
    CountExtremes(slice);
    forall q | 0 <= q < n ensures data[q].Num? {
      assert data[q] in data;
    }
    assert NaN !in slice;
    y := c.y.value;
    assert |slice| == high + 1 - mid && c.x == Num((mid + high) as real / 2.0);
    forall q | lo <= q < mid
      ensures AreaAt(data, prev, c, q) == Num(Abs(Shoelace(prev as real, data[prev].value, c.x.value, y, q as real, data[q].value)) / 2.0)
    {
      AreaOfTriangle(Point(Num(prev as real), data[prev]), c, Point(Num(q as real), data[q]), 0.0, 0.0);
    }
    hide AreaAt, Shoelace, Centroid;
  }

  /** For three output points the middle one is the sample before the last, whatever the data. */
  lemma ThreePoints(data: seq<Float>, scale: nat -> real, picks: seq<nat>)
    requires |data| >= 6 && Multiples(|data|, 3, scale) && Picks(data, 3, scale, picks, 1)
    ensures picks == [0, |data| - 2]
  {
    SingleBucket(|data|, scale);
    assert RightPick(data, scale, picks[0], 1, picks[1]);
    assert picks[1] < |data| - 2 ==> AreaAt(data, 0, Point(NaN, NaN), |data| - 2).NaN?;
  }

  /**
   What a NaN does to a pick: after a NaN pick, or before an averaged slice that holds one,
   the pick is the last sample of its bucket; otherwise it is the last NaN of its bucket if there is one.
   */
  lemma PickWithNaN(data: seq<Float>, scale: nat -> real, prev: nat, i: nat, pick: nat)
    requires 1 <= i && prev < |data| && RightPick(data, scale, prev, i, pick)
    ensures var n := |data|;
            var lo, mid, high := Boundary(n, scale, i - 1), Boundary(n, scale, i), Boundary(n, scale, i + 1);
            if data[prev].NaN? || mid == high + 1 || NaN in data[mid..high + 1] then pick == mid - 1
            else if NaN in data[lo..mid] then data[pick].NaN? && NaN !in data[pick + 1..mid]
            else data[pick].Num?
  {
    var n := |data|;
    var lo, mid, high := Boundary(n, scale, i - 1), Boundary(n, scale, i), Boundary(n, scale, i + 1);
    var c :| Centroid(data[mid..high + 1], mid, c) && Choice(data, prev, c, lo, mid, pick);
    CountExtremes(data[mid..high + 1]);
    if data[prev].NaN? || c.y.NaN? {
      assert AreaAt(data, prev, c, mid - 1).NaN? && AreaAt(data, prev, c, pick).NaN?;
    } else {
      assert forall q :: lo <= q < mid ==> (AreaAt(data, prev, c, q).NaN? <==> data[q].NaN?);
      if NaN in data[lo..mid] {
        var k :| 0 <= k < mid - lo && data[lo..mid][k] == NaN;
        assert AreaAt(data, prev, c, lo + k).NaN?;
      }
    }
  }
}
