/**
 Statistics over the series of a job metric: the lowest, median and highest value at every
 step, and percentiles.
 */
module JobMetrics {
  import opened Floats
  import opened Statistics
  import opened Options

  datatype MetricStatistics = MetricStatistics(avg: real, min: real, max: real)

  datatype Series = Series(hostname: string, data: seq<Float>, statistics: MetricStatistics)

  datatype StatsSeries = StatsSeries(median: seq<Float>, min: seq<Float>, max: seq<Float>, percentiles: map<int, seq<Float>>)

  /** What AddPercentiles does: it returns a flag or panics. */
  datatype Answer = Done(ok: bool) | Panicked

  const MAX_FLOAT32: real := 340282346638528859811704183484516925440.0

  function Min(a: real, b: real): real { if a < b then a else b }

  function Max(a: real, b: real): real { if a > b then a else b }

  function Longest(series: seq<Series>): nat {
    if series == [] then 0
    else
      var n, k := Longest(series[..|series| - 1]), |series[|series| - 1].data|;
      if k > n then k else n
  }

  function Shortest(series: seq<Series>): nat
    requires series != []
  {
    var k := |series[|series| - 1].data|;
    if |series| == 1 then k
    else
      var m := Shortest(series[..|series| - 1]);
      if k < m then k else m
  }

  lemma {:induction false} LengthsBetween(series: seq<Series>, j: nat)
    requires j < |series|
    ensures Shortest(series) <= |series[j].data| <= Longest(series)
  {
    var t := series[..|series| - 1];
    if j < |series| - 1 {
      LengthsBetween(t, j);
      assert t[j] == series[j];
    } else if t != [] {
      assert Shortest(series) <= |series[j].data|;
    }
  }

  /** Some series is as long as the longest. */
  lemma {:induction false} LongestReached(series: seq<Series>) returns (j: nat)
    requires series != []
    ensures j < |series| && |series[j].data| == Longest(series)
  {
    var k := |series| - 1;
    if k == 0 || |series[k].data| >= Longest(series[..k]) {
      j := k;
      assert Longest([]) == 0;
    } else {
      j := LongestReached(series[..k]);
    }
  }

  lemma {:induction false} ShortestReached(series: seq<Series>) returns (j: nat)
    requires series != []
    ensures j < |series| && |series[j].data| == Shortest(series)
  {
    var k := |series| - 1;
    if k == 0 || |series[k].data| < Shortest(series[..k]) {
      j := k;
    } else {
      j := ShortestReached(series[..k]);
    }
  }

  /** The loop that both AddStatisticsSeries and AddNodeScope start with. */
  method Lengths(series: seq<Series>) returns (n: nat, m: nat)
    requires series != []
    ensures n == Longest(series) && m == Shortest(series)
  {
    n, m := 0, |series[0].data|;
    for j := 0 to |series|
      invariant n == Longest(series[..j])
      invariant m == if j == 0 then |series[0].data| else Shortest(series[..j])
    {
      assert series[..j + 1][..j] == series[..j];
      if |series[j].data| > n {
        n := |series[j].data|;
      }
      if |series[j].data| < m {
        m := |series[j].data|;
      }
    }
    assert series[..|series|] == series;
  }

  ghost predicate Reaches(series: seq<Series>, i: nat) {
    forall j :: 0 <= j < |series| ==> i < |series[j].data|
  }

  lemma ReachesBelow(series: seq<Series>, i: nat)
    requires series != [] && i < Shortest(series)
    ensures Reaches(series, i)
  {
    forall j | 0 <= j < |series| ensures i < |series[j].data| {
      LengthsBetween(series, j);
    }
  }

  /** The samples of all series at one step. */
  ghost function Column(series: seq<Series>, i: nat): (c: seq<Float>)
    requires Reaches(series, i)
    ensures |c| == |series|
  {
    seq(|series|, j requires 0 <= j < |series| => series[j].data[i])
  }

  // ----- lowest, median and highest -----

  /** The lowest sample, starting from the largest single-precision number. */
  function Lowest(c: seq<Float>): real {
    if c == [] then MAX_FLOAT32
    else
      var x := c[|c| - 1];
      if x.NaN? then Lowest(c[..|c| - 1]) else Min(Lowest(c[..|c| - 1]), x.value)
  }

  function Highest(c: seq<Float>): real {
    if c == [] then -MAX_FLOAT32
    else
      var x := c[|c| - 1];
      if x.NaN? then Highest(c[..|c| - 1]) else Max(Highest(c[..|c| - 1]), x.value)
  }

  /** The buffer for the median: a slot whose sample is NaN keeps the 0 it is made with. */
  function Filled(c: seq<Float>): (f: seq<Float>)
    ensures |f| == |c| && forall j :: 0 <= j < |c| ==> f[j] == if c[j].NaN? then Num(0.0) else c[j]
  {
    seq(|c|, j requires 0 <= j < |c| => if c[j].NaN? then Num(0.0) else c[j])
  }

  /** The statistics of one step. */
  predicate Summary(c: seq<Float>, min: Float, median: Float, max: Float) {
    if Count(c) < 3 then min.NaN? && median.NaN? && max.NaN?
    else min == Num(Lowest(c)) && max == Num(Highest(c)) && c != [] && median == Middle(SortedCopy(Filled(c)))
  }

  predicate InRange(c: seq<Float>) {
    forall j :: 0 <= j < |c| && c[j].Num? ==> -MAX_FLOAT32 <= c[j].value <= MAX_FLOAT32
  }

  /** Within the single-precision range the lowest and the highest are samples and bound all of them. */
  lemma {:induction false} Extremes(c: seq<Float>)
    requires InRange(c) && Count(c) > 0
    ensures Num(Lowest(c)) in c && Num(Highest(c)) in c
    ensures forall j :: 0 <= j < |c| && c[j].Num? ==> Lowest(c) <= c[j].value <= Highest(c)
  {
    var t, x := c[..|c| - 1], c[|c| - 1];
    assert c == t + [x] && x in c;
    if Count(t) == 0 {
      NoneCounted(t);
    } else {
      Extremes(t);
    }
  }

  lemma {:induction false} NoneCounted(c: seq<Float>)
    requires Count(c) == 0
    ensures Lowest(c) == MAX_FLOAT32 && Highest(c) == -MAX_FLOAT32
    ensures forall j :: 0 <= j < |c| ==> c[j].NaN?
  {
    if c == [] {
    } else {
      NoneCounted(c[..|c| - 1]);
    }
  }

  /** The steps of a column that hold a number. */
  ghost function Numbers(c: seq<Float>): set<nat> {
    set j: nat | j < |c| && c[j].Num?
  }

  lemma {:induction false} CountIsSize(c: seq<Float>)
    ensures Count(c) == |Numbers(c)|
  {
    if c == [] {
      assert Numbers(c) == {};
    } else {
      var k := |c| - 1;
      CountIsSize(c[..k]);
      assert Numbers(c) == Numbers(c[..k]) + if c[k].Num? then {k} else {};
    }
  }

  /** There are statistics exactly for three numbers or more; then all three are numbers, the lowest of them no higher than the highest. */
  lemma StatisticsExactly(c: seq<Float>, min: Float, median: Float, max: Float)
    requires Summary(c, min, median, max) && InRange(c)
    ensures |Numbers(c)| < 3 <==> min == NaN
    ensures |Numbers(c)| < 3 <==> median == NaN
    ensures |Numbers(c)| < 3 <==> max == NaN
    ensures |Numbers(c)| >= 3 ==> min in c && max in c && min.value <= max.value
    ensures |Numbers(c)| >= 3 ==> forall j :: 0 <= j < |c| && c[j].Num? ==> min.value <= c[j].value <= max.value
  {
    CountIsSize(c);
    if Count(c) >= 3 {
      Extremes(c);
      MedianNumber(c);
    }
    hide Count, Lowest, Highest, Middle, SortedCopy, Filled;
    if Count(c) >= 3 {
      var j :| 0 <= j < |c| && c[j] == min;
      assert c[j].Num?;
    }
  }

  lemma MedianNumber(c: seq<Float>)
    requires c != []
    ensures Middle(SortedCopy(Filled(c))).Num?
  {
    var f := Filled(c);
    hide SortedCopy, Middle;
    SortedNums(f);
    SortedCopyIs(f, NaN);
    MiddleBetween(SortedCopy(f));
  }

  method StepStatistics(series: seq<Series>, i: nat) returns (min: Float, median: Float, max: Float)
    requires series != [] && Reaches(series, i)
    ensures Summary(Column(series, i), min, median, max)
  {
    hide SortedCopy, Middle;
    ghost var c := Column(series, i);
    var smin, smed, smax := MAX_FLOAT32, seq(|series|, _ => Num(0.0)), -MAX_FLOAT32;
    var notnan := 0;
    for j := 0 to |series|
      invariant |smed| == |series| && notnan == Count(c[..j])
      invariant smin == Lowest(c[..j]) && smax == Highest(c[..j])
      invariant forall k :: 0 <= k < |series| ==> smed[k] == if k < j then Filled(c)[k] else Num(0.0)
    {
      var x := series[j].data[i];
      assert c[..j + 1][..j] == c[..j] && c[..j + 1][j] == x;
      if x.Num? {
        notnan := notnan + 1;
        smed := smed[j := x];
        smin := Min(smin, x.value);
        smax := Max(smax, x.value);
      }
    }
    assert c[..|c|] == c && smed == Filled(c);
    if notnan < 3 {
      return NaN, NaN, NaN;
    }
    var medianRaw, err := Median(smed);
    return Num(smin), medianRaw, Num(smax);
  }

  /** The statistics of every step; there are none where a series has already ended. */
  ghost predicate Summarized(series: seq<Series>, s: StatsSeries) {
    && series != []
    && |s.min| == |s.median| == |s.max| == Longest(series)
    && (forall i :: 0 <= i < Shortest(series) && i < Longest(series) ==>
          Reaches(series, i) && Summary(Column(series, i), s.min[i], s.median[i], s.max[i]))
    && (forall i :: Shortest(series) <= i < Longest(series) ==> s.min[i] == NaN && s.median[i] == NaN && s.max[i] == NaN)
  }

  // ----- percentiles -----

  /** The samples at one step of the series that have not ended. */
  function Present(series: seq<Series>, i: nat): seq<Float> {
    if series == [] then []
    else
      var s := series[|series| - 1];
      Present(series[..|series| - 1], i) + if i < |s.data| then [s.data[i]] else []
  }

  lemma {:induction false} PresentSome(series: seq<Series>, i: nat, j: nat)
    requires j < |series| && i < |series[j].data|
    ensures Present(series, i) != []
  {
    if j == |series| - 1 {
    } else {
      PresentSome(series[..|series| - 1], i, j);
    }
  }

  function Percentile(vals: seq<Float>, p: int): Float
    requires vals != [] && 1 <= p <= 99
  {
    PercentileIndex(|vals|, p);
    SortedCopy(vals)[|vals| * p / 100]
  }

  lemma PercentileIndex(n: nat, p: int)
    requires n > 0 && 1 <= p <= 99
    ensures 0 <= n * p / 100 < n
    ensures 100 * (n * p / 100) <= n * p < 100 * (n * p / 100) + 100
  {
    assert n * p == 99 * n - n * (99 - p);
    assert n * (99 - p) >= 0 && n * p >= 0;
  }

  /** More than p percent of the samples are not above the percentile and at least 100 - p percent are not below it. */
  lemma PercentileRank(vals: seq<Float>, p: int)
    requires vals != [] && 1 <= p <= 99
    ensures var v := Percentile(vals, p);
            100 * AtMost(vals, v) > |vals| * p && 100 * AtLeast(vals, v) >= |vals| * (100 - p)
  {
    hide SortedCopy, AtMost, AtLeast;
    var n := |vals|;
    PercentileIndex(n, p);
    SortedCopyIs(vals, Percentile(vals, p));
    Rank(SortedCopy(vals), n * p / 100);
    assert n * (100 - p) == 100 * n - n * p;
  }

  lemma LeqReflexive(x: Float)
    ensures Leq(x, x)
  {
  }

  lemma IndexMonotone(n: nat, p: int, q: int)
    requires p <= q
    ensures n * p / 100 <= n * q / 100
  {
    assert n * q == n * p + n * (q - p) && n * (q - p) >= 0;
  }

  lemma PercentileMonotone(vals: seq<Float>, p: int, q: int)
    requires vals != [] && 1 <= p <= q <= 99
    ensures Leq(Percentile(vals, p), Percentile(vals, q))
  {
    hide SortedCopy, AtMost, AtLeast, Leq;
    var n := |vals|;
    PercentileIndex(n, p);
    PercentileIndex(n, q);
    SortedCopyIs(vals, NaN);
    IndexMonotone(n, p, q);
    var i, j := n * p / 100, n * q / 100;
    if i == j {
      LeqReflexive(Percentile(vals, p));
    }
  }

  ghost predicate IsPercentile(series: seq<Series>, p: int, v: seq<Float>) {
    && 1 <= p <= 99 && |v| == Longest(series)
    && forall i :: 0 <= i < |v| ==> Present(series, i) != [] && v[i] == Percentile(Present(series, i), p)
  }

  class JobMetric {
    var statisticsSeries: Option<StatsSeries>
    const series: seq<Series>
    const timestep: int
    const unit: string

    constructor (series: seq<Series>, timestep: int, unit: string)
      ensures this.series == series && this.timestep == timestep && this.unit == unit && statisticsSeries == None
    {
      this.series, this.timestep, this.unit := series, timestep, unit;
      statisticsSeries := None;
    }

    method AddStatisticsSeries()
      modifies this
      ensures old(statisticsSeries.Some?) || |series| < 4 ==> statisticsSeries == old(statisticsSeries)
      ensures !(old(statisticsSeries.Some?) || |series| < 4) ==>
                statisticsSeries.Some? && Summarized(series, statisticsSeries.value)
                && statisticsSeries.value.percentiles == map[]
    {
      if statisticsSeries.Some? || |series| < 4 {
        return;
      }
      hide Summary, Longest, Shortest;
      var n, m := Lengths(series);
      var min, median, max: seq<Float> := [], [], [];
      ShortestNotLonger(series);
      var i := 0;
      while i < m
        invariant i <= m && |min| == |median| == |max| == i
        invariant forall k :: 0 <= k < i ==> Reaches(series, k) && Summary(Column(series, k), min[k], median[k], max[k])
      {
        ReachesBelow(series, i);
        var lo, mid, hi := StepStatistics(series, i);
        min, median, max := min + [lo], median + [mid], max + [hi];
        i := i + 1;
      }
      while i < n
        invariant m <= i <= n && |min| == |median| == |max| == i
        invariant forall k :: 0 <= k < m ==> Reaches(series, k) && Summary(Column(series, k), min[k], median[k], max[k])
        invariant forall k :: m <= k < i ==> min[k] == NaN && median[k] == NaN && max[k] == NaN
      {
        min, median, max := min + [NaN], median + [NaN], max + [NaN];
        i := i + 1;
      }
      statisticsSeries := Some(StatsSeries(median, min, max, map[]));
    }

    method AddPercentiles(ps: seq<int>) returns (r: Answer)
      modifies this
      ensures r.Panicked? <==>
                || (|series| == 3 && old(statisticsSeries) == None)
                || (|series| >= 3 && exists k :: 0 <= k < |ps| && !(1 <= ps[k] <= 99))
      ensures r == Done(false) <==> |series| < 3
      ensures |series| < 3 ==> statisticsSeries == old(statisticsSeries)
      ensures r == Done(true) ==>
        && statisticsSeries.Some?
        && var before := if old(statisticsSeries).Some? then old(statisticsSeries).value.percentiles else map[];
           forall p :: p in statisticsSeries.value.percentiles <==> p in before || p in ps
      ensures r == Done(true) && old(statisticsSeries).Some? ==>
        forall p :: p in old(statisticsSeries).value.percentiles ==>
          p in statisticsSeries.value.percentiles
          && statisticsSeries.value.percentiles[p] == old(statisticsSeries).value.percentiles[p]
      ensures r == Done(true) ==>
        forall p :: p in ps && (old(statisticsSeries).Some? ==> p !in old(statisticsSeries).value.percentiles) ==>
          p in statisticsSeries.value.percentiles && IsPercentile(series, p, statisticsSeries.value.percentiles[p])
      ensures r == Done(true) ==>
        (if old(statisticsSeries).Some? then
           statisticsSeries.value.(percentiles := map[]) == old(statisticsSeries).value.(percentiles := map[])
         else Summarized(series, statisticsSeries.value.(percentiles := map[])))
    {
      hide Summarized, IsPercentile, Longest;
      if statisticsSeries == None {
        AddStatisticsSeries();
      }
      if |series| < 3 {
        return Done(false);
      }
      if statisticsSeries == None {
        return Panicked;
      }
      ghost var before := statisticsSeries.value;
      var table := statisticsSeries.value.percentiles;
      var data := SortedSteps(series);
      for j := 0 to |ps|
        invariant statisticsSeries == Some(before)
        invariant forall k :: 0 <= k < j ==> 1 <= ps[k] <= 99
        invariant forall p :: p in table <==> p in before.percentiles || p in ps[..j]
        invariant forall p :: p in before.percentiles ==> table[p] == before.percentiles[p]
        invariant forall p :: p in table && p !in before.percentiles ==> IsPercentile(series, p, table[p])
      {
        var p := ps[j];
        if p < 1 || p > 99 {
          return Panicked;
        }
        assert ps[..j + 1] == ps[..j] + [p];
        if p !in table {
          var percentiles := PercentileSeries(series, data, p);
          table := table[p := percentiles];
        }
      }
      assert ps[..|ps|] == ps;
      statisticsSeries := Some(statisticsSeries.value.(percentiles := table));
      r := Done(true);
    }
  }

  lemma ShortestNotLonger(series: seq<Series>)
    requires series != []
    ensures Shortest(series) <= Longest(series)
  {
    LengthsBetween(series, 0);
  }

  /** The sorted samples of every step. */
  method SortedSteps(series: seq<Series>) returns (data: seq<seq<Float>>)
    requires series != []
    ensures |data| == Longest(series) && forall i :: 0 <= i < |data| ==> data[i] == SortedCopy(Present(series, i))
  {
    hide SortedCopy;
    var n, m := Lengths(series);
    data := [];
    for i := 0 to n
      invariant |data| == i && forall k :: 0 <= k < i ==> data[k] == SortedCopy(Present(series, k))
    {
      var vals: seq<Float> := [];
      for j := 0 to |series|
        invariant vals == Present(series[..j], i)
      {
        assert series[..j + 1][..j] == series[..j];
        if i < |series[j].data| {
          vals := vals + [series[j].data[i]];
        }
      }
      assert series[..|series|] == series;
      data := data + [SortedCopy(vals)];
    }
  }

  method PercentileSeries(series: seq<Series>, data: seq<seq<Float>>, p: int) returns (percentiles: seq<Float>)
    requires series != [] && 1 <= p <= 99
    requires |data| == Longest(series) && forall i :: 0 <= i < |data| ==> data[i] == SortedCopy(Present(series, i))
    ensures IsPercentile(series, p, percentiles)
  {
    hide SortedCopy;
    ghost var longest := LongestReached(series);
    percentiles := [];
    for i := 0 to |data|
      invariant |percentiles| == i
      invariant forall k :: 0 <= k < i ==> Present(series, k) != [] && percentiles[k] == Percentile(Present(series, k), p)
    {
      PresentSome(series, i, longest);
      PercentileIndex(|data[i]|, p);
      percentiles := percentiles + [data[i][|data[i]| * p / 100]];
    }
  }

  // ----- where the median lies -----

  /** Without NaN the median lies between the lowest and the highest sample, with half of the samples on each side. */
  lemma MedianWithin(c: seq<Float>, min: Float, median: Float, max: Float)
    requires Summary(c, min, median, max) && InRange(c) && Count(c) == |c| >= 3
    ensures min.Num? && median.Num? && max.Num? && min.value <= median.value <= max.value
    ensures 2 * AtMost(c, median) >= |c| && 2 * AtLeast(c, median) >= |c|
  {
    CountExtremes(c);
    assert forall j :: 0 <= j < |c| ==> c[j] in c;
    assert Filled(c) == c;
    MedianHalves(c);
    MedianBounds(c, min, median, max);
  }

  lemma {:induction false} FilledPrefix(c: seq<Float>)
    requires c != []
    ensures Filled(c)[..|c| - 1] == Filled(c[..|c| - 1])
  {
  }

  /** Slots that are zero come no later than an upper bound, and neither do samples below it. */
  lemma {:induction false} FilledAtMost(c: seq<Float>, x: real)
    ensures x >= 0.0 ==> AtMost(Filled(c), Num(x)) >= |c| - Count(c)
    ensures x >= 0.0 && Num(x) in c ==> AtMost(Filled(c), Num(x)) >= |c| - Count(c) + 1
    ensures (forall j :: 0 <= j < |c| && c[j].Num? ==> c[j].value <= x) ==> AtMost(Filled(c), Num(x)) >= Count(c)
  {
    if c == [] {
    } else {
      FilledAtMost(c[..|c| - 1], x);
      FilledPrefix(c);
      assert c == c[..|c| - 1] + [c[|c| - 1]];
    }
  }

  /** The same for a lower bound. */
  lemma {:induction false} FilledAtLeast(c: seq<Float>, x: real)
    ensures x <= 0.0 ==> AtLeast(Filled(c), Num(x)) >= |c| - Count(c)
    ensures x <= 0.0 && Num(x) in c ==> AtLeast(Filled(c), Num(x)) >= |c| - Count(c) + 1
    ensures (forall j :: 0 <= j < |c| && c[j].Num? ==> c[j].value >= x) ==> AtLeast(Filled(c), Num(x)) >= Count(c)
  {
    if c == [] {
    } else {
      FilledAtLeast(c[..|c| - 1], x);
      FilledPrefix(c);
      assert c == c[..|c| - 1] + [c[|c| - 1]];
    }
  }

  /**
   With NaN slots counted as zeros the median is within the bounds exactly when zero is, or
   when fewer than half of the slots are NaN.
   */
  lemma MedianBounds(c: seq<Float>, min: Float, median: Float, max: Float)
    requires Summary(c, min, median, max) && InRange(c) && Count(c) >= 3
    ensures min.Num? && median.Num? && max.Num?
    ensures min.value <= median.value <= max.value
       <==> min.value <= 0.0 <= max.value || 2 * (|c| - Count(c)) < |c|
  {
    hide SortedCopy, AtMost, AtLeast, Middle, Sorted, Lowest, Highest, InRange;
    Extremes(c);
    var lo, hi := min.value, max.value;
    var f := Filled(c);
    var s := SortedCopy(f);
    SortedCopyIs(f, min);
    SortedCopyIs(f, max);
    SortedCopyIs(f, Num(0.0));
    SortedNums(f);
    MiddleBetween(s);
    FilledAtMost(c, lo);
    FilledAtLeast(c, lo);
    FilledAtMost(c, hi);
    FilledAtLeast(c, hi);
    FilledAtMost(c, 0.0);
    FilledAtLeast(c, 0.0);
    var a, b := (|c| - 1) / 2, |c| / 2;
    if lo <= 0.0 <= hi {
      SortedIn(f, lo, hi);
    } else {
      RankBounds(s, a, min);
      RankBounds(s, a, max);
      RankBounds(s, b, min);
      RankBounds(s, b, max);
      RankBounds(s, a, Num(0.0));
      RankBounds(s, b, Num(0.0));
    }
  }

  lemma SortedIn(f: seq<Float>, lo: real, hi: real)
    requires forall j :: 0 <= j < |f| ==> f[j].Num? && lo <= f[j].value <= hi
    ensures forall j :: 0 <= j < |f| ==> SortedCopy(f)[j].Num? && lo <= SortedCopy(f)[j].value <= hi
  {
    hide SortedCopy;
    SortedCopyIs(f, NaN);
    var s := SortedCopy(f);
    forall j | 0 <= j < |f| ensures s[j].Num? && lo <= s[j].value <= hi {
      assert s[j] in multiset(s);
      assert s[j] in f;
    }
  }
}
