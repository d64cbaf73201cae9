/**
 Aggregating the series of a metric to node scope: choosing the coarsest scope there is,
 and adding up its series host by host.
 */
module NodeScope {
  import opened Floats
  import opened Statistics
  import opened JobMetrics
  import opened Options
  import opened Sets

  const INVALID := "invalid_scope"
  const NODE := "node"

  /** How coarse a scope is; a name that is not in the table counts as 0. */
  function Granularity(scope: string): int {
    if scope == "node" then 10
    else if scope == "socket" then 5
    else if scope == "memoryDomain" then 4
    else if scope == "core" then 3
    else if scope == "hwthread" then 2
    else if scope == "accelerator" then 1
    else if scope == INVALID then -1
    else 0
  }

  function MaxScope(e: string, other: string): string {
    if Granularity(e) > Granularity(other) then e else other
  }

  /** From coarse to fine: node, socket, memory domain, core, hardware thread, accelerator, then unknown and invalid scopes. */
  lemma Hierarchy(unknown: string)
    requires unknown !in {"node", "socket", "memoryDomain", "core", "hwthread", "accelerator", INVALID}
    ensures var order := ["node", "socket", "memoryDomain", "core", "hwthread", "accelerator", unknown, INVALID];
            forall i, j :: 0 <= i < j < |order| ==> MaxScope(order[i], order[j]) == MaxScope(order[j], order[i]) == order[i]
  {
    var order := ["node", "socket", "memoryDomain", "core", "hwthread", "accelerator", unknown, INVALID];
    forall i, j | 0 <= i < j < |order| ensures Granularity(order[i]) > Granularity(order[j]) {
      ScopeRank(order[i], i, unknown);
      ScopeRank(order[j], j, unknown);
    }
  }

  lemma ScopeRank(s: string, i: nat, unknown: string)
    requires unknown !in {"node", "socket", "memoryDomain", "core", "hwthread", "accelerator", INVALID}
    requires i < 8 && s == ["node", "socket", "memoryDomain", "core", "hwthread", "accelerator", unknown, INVALID][i]
    ensures Granularity(s) == [10, 5, 4, 3, 2, 1, 0, -1][i]
  {
  }

  /** The maximum of the scopes in the order in which they are walked. */
  function MaxOf(order: seq<string>): string {
    if order == [] then INVALID else MaxScope(MaxOf(order[..|order| - 1]), order[|order| - 1])
  }

  ghost predicate Coarsest(scopes: set<string>, s: string) {
    s in scopes && forall t :: t in scopes ==> Granularity(t) <= Granularity(s)
  }

  lemma {:induction false} MaxOfCoarsest(order: seq<string>)
    ensures order == [] ==> MaxOf(order) == INVALID
    ensures order != [] ==> Coarsest((set s | s in order), MaxOf(order))
  {
    if order == [] {
    } else {
      var t, x := order[..|order| - 1], order[|order| - 1];
      MaxOfCoarsest(t);
      assert order == t + [x];
    }
  }

  lemma GranularityKnown(s: string, t: string)
    requires Granularity(s) == Granularity(t) != 0
    ensures s == t
  {
  }

  /** The order of the walk matters exactly when two scopes are unknown and none is known. */
  lemma OrderMatters(scopes: set<string>, s: string, t: string)
    requires Coarsest(scopes, s) && t in scopes && s != t
    ensures Coarsest(scopes, t) <==> Granularity(t) == 0 && forall u :: u in scopes ==> Granularity(u) <= 0
  {
    if Coarsest(scopes, t) && Granularity(t) != 0 {
      GranularityKnown(s, t);
    }
  }

  /** Every coarsest scope is the outcome of some walk, namely of any that ends with it. */
  lemma LastWins(order: seq<string>, s: string)
    requires forall t :: t in order ==> Granularity(t) <= Granularity(s)
    requires Granularity(s) >= 0
    ensures MaxOf(order + [s]) == s
  {
    assert (order + [s])[..|order|] == order;
    MaxOfCoarsest(order);
    assert order != [] ==> MaxOf(order) in order;
  }

  // ----- hosts -----

  function OfHosts(series: seq<Series>, hosts: set<string>): seq<Series> {
    if series == [] then []
    else
      var s := series[|series| - 1];
      OfHosts(series[..|series| - 1], hosts) + if s.hostname in hosts then [s] else []
  }

  /** The mean of the averages and the extremes of the extremes. */
  function AvgSum(group: seq<Series>): real {
    if group == [] then 0.0 else AvgSum(group[..|group| - 1]) + group[|group| - 1].statistics.avg
  }

  function MinAll(group: seq<Series>): real {
    if group == [] then MAX_FLOAT32 else Min(MinAll(group[..|group| - 1]), group[|group| - 1].statistics.min)
  }

  function MaxAll(group: seq<Series>): real {
    if group == [] then -MAX_FLOAT32 else Max(MaxAll(group[..|group| - 1]), group[|group| - 1].statistics.max)
  }

  /** The extremes bound those of every series. */
  lemma {:induction false} ExtremesBound(group: seq<Series>, j: nat)
    requires j < |group|
    ensures MinAll(group) <= group[j].statistics.min && group[j].statistics.max <= MaxAll(group)
  {
    var t := group[..|group| - 1];
    if j == |t| {
    } else {
      ExtremesBound(t, j);
    }
  }

  /** Within the single-precision range the extremes of a host are those of some of its series. */
  lemma {:induction false} ExtremesReached(group: seq<Series>) returns (j: nat, k: nat)
    requires group != []
    requires forall i :: 0 <= i < |group| ==> group[i].statistics.min <= MAX_FLOAT32 && group[i].statistics.max >= -MAX_FLOAT32
    ensures j < |group| && k < |group| && MinAll(group) == group[j].statistics.min && MaxAll(group) == group[k].statistics.max
  {
    var last := |group| - 1;
    if last == 0 {
      j, k := 0, 0;
      assert group[..0] == [];
    } else {
      j, k := ExtremesReached(group[..last]);
      if group[last].statistics.min <= MinAll(group[..last]) { j := last; }
      if group[last].statistics.max >= MaxAll(group[..last]) { k := last; }
    }
  }

  function Averages(group: seq<Series>): (c: seq<Float>)
    ensures |c| == |group| && forall j :: 0 <= j < |group| ==> c[j] == Num(group[j].statistics.avg)
  {
    seq(|group|, j requires 0 <= j < |group| => Num(group[j].statistics.avg))
  }

  lemma {:induction false} AvgSumIs(group: seq<Series>)
    ensures AvgSum(group) == Total(Averages(group)) && Count(Averages(group)) == |group|
  {
    if group == [] {
    } else {
      var c := Averages(group);
      AvgSumIs(group[..|group| - 1]);
      assert c[..|c| - 1] == Averages(group[..|group| - 1]);
    }
  }

  /** The average of a host is the mean of the averages of its series, and so lies between any bounds they all meet. */
  lemma HostAverage(group: seq<Series>, s: Series, lo: real, hi: real)
    requires HostSeries(group, s) && forall j :: 0 <= j < |group| ==> lo <= group[j].statistics.avg <= hi
    ensures s.statistics.avg * |group| as real == Total(Averages(group))
    ensures lo <= s.statistics.avg <= hi
  {
    hide Longest, Shortest;
    var c := Averages(group);
    AvgSumIs(group);
    forall x | x in c ensures x.Num? && lo <= x.value <= hi {
    }
    SumIsTotal(c);
    MeanBounds(c, lo, hi);
    var q := AvgSum(group) / |group| as real;
    assert q * |group| as real == AvgSum(group);
  }

  /** s adds up the series of one host: their sum while all of them last, and NaN up to the longest. */
  ghost predicate HostSeries(group: seq<Series>, s: Series) {
    && group != []
    && |s.data| == Longest(group)
    && (forall i :: 0 <= i < Shortest(group) && i < |s.data| ==> SumsUp(group, i, s.data[i]))
    && (forall i :: Shortest(group) <= i < |s.data| ==> s.data[i] == NaN)
    && s.statistics == MetricStatistics(AvgSum(group) / |group| as real, MinAll(group), MaxAll(group))
  }

  ghost predicate SumsUp(group: seq<Series>, i: nat, x: Float) {
    Reaches(group, i) && x == Sum(Column(group, i))
  }

  ghost predicate DistinctHosts(nodes: seq<Series>) {
    forall j, k :: 0 <= j < k < |nodes| ==> nodes[j].hostname != nodes[k].hostname
  }

  /** One series per host. */
  ghost predicate NodeSeries(series: seq<Series>, nodes: seq<Series>) {
    && DistinctHosts(nodes)
    && (forall h :: h in Hosts(series) <==> h in Hosts(nodes))
    && forall k :: 0 <= k < |nodes| ==> HostSeries(OfHosts(series, {nodes[k].hostname}), nodes[k])
  }

  ghost function Hosts(series: seq<Series>): set<string> {
    set k | 0 <= k < |series| :: series[k].hostname
  }

  lemma {:induction false} OfHostsEmpty(series: seq<Series>, h: string)
    ensures OfHosts(series, {h}) == [] <==> h !in Hosts(series)
    ensures forall k :: 0 <= k < |OfHosts(series, {h})| ==> OfHosts(series, {h})[k].hostname == h
  {
    if series == [] {
    } else {
      OfHostsEmpty(series[..|series| - 1], h);
      HostsPush(series[..|series| - 1], series[|series| - 1]);
      assert series == series[..|series| - 1] + [series[|series| - 1]];
    }
  }

  lemma HostsPush(t: seq<Series>, s: Series)
    ensures Hosts(t + [s]) == Hosts(t) + {s.hostname}
  {
    var u := t + [s];
    forall h | h in Hosts(t) + {s.hostname} ensures h in Hosts(u) {
      if h in Hosts(t) {
        var k :| 0 <= k < |t| && t[k].hostname == h;
        assert u[k].hostname == h;
      } else {
        assert u[|t|].hostname == h;
      }
    }
  }

  /** Series of one host, added up step by step. */
  method SumHost(hostname: string, group: seq<Series>) returns (s: Series)
    requires group != []
    ensures s.hostname == hostname && HostSeries(group, s)
  {
    hide Longest, Shortest, Sum;
    var min, sum, max := MAX_FLOAT32, 0.0, -MAX_FLOAT32;
    for j := 0 to |group|
      invariant sum == AvgSum(group[..j]) && min == MinAll(group[..j]) && max == MaxAll(group[..j])
    {
      assert group[..j + 1][..j] == group[..j];
      sum := sum + group[j].statistics.avg;
      min := Min(min, group[j].statistics.min);
      max := Max(max, group[j].statistics.max);
    }
    assert group[..|group|] == group;
    var n, m := Lengths(group);
    ShortestNotLonger(group);
    var data: seq<Float> := [];
    var i := 0;
    while i < m
      invariant i <= m && |data| == i
      invariant forall k :: 0 <= k < i ==> SumsUp(group, k, data[k])
    {
      ReachesBelow(group, i);
      var x := SumStep(group, i);
      data := data + [x];
      i := i + 1;
    }
    while i < n
      invariant m <= i <= n && |data| == i
      invariant forall k :: 0 <= k < m ==> SumsUp(group, k, data[k])
      invariant forall k :: m <= k < i ==> data[k] == NaN
    {
      data := data + [NaN];
      i := i + 1;
    }
    s := Series(hostname, data, MetricStatistics(sum / |group| as real, min, max));
  }

  method SumStep(group: seq<Series>, i: nat) returns (x: Float)
    requires Reaches(group, i)
    ensures x == Sum(Column(group, i))
  {
    ghost var c := Column(group, i);
    x := Num(0.0);
    for j := 0 to |group|
      invariant x == Sum(c[..j])
    {
      assert c[..j + 1][..j] == c[..j];
      x := Add(x, group[j].data[i]);
    }
    assert c[..|c|] == c;
  }

  ghost predicate Grouped(series: seq<Series>, hosts: map<string, seq<Series>>) {
    hosts.Keys == Hosts(series) && forall h :: h in hosts ==> hosts[h] == OfHosts(series, {h})
  }

  method GroupByHost(series: seq<Series>) returns (hosts: map<string, seq<Series>>)
    ensures Grouped(series, hosts)
  {
    hosts := map[];
    for j := 0 to |series|
      invariant Grouped(series[..j], hosts)
    {
      var s := series[j];
      ghost var t := series[..j];
      assert series[..j + 1] == t + [s] && series[..j + 1][..j] == t;
      HostsPush(t, s);
      OfHostsEmpty(t, s.hostname);
      hosts := hosts[s.hostname := (if s.hostname in hosts then hosts[s.hostname] else []) + [s]];
    }
    assert series[..|series|] == series;
  }

  /** The first hosts that are done: each has its series, and there are no others. */
  ghost predicate SomeHosts(series: seq<Series>, nodes: seq<Series>, finished: set<string>) {
    && DistinctHosts(nodes) && Hosts(nodes) == finished
    && forall k :: 0 <= k < |nodes| ==> HostSeries(OfHosts(series, {nodes[k].hostname}), nodes[k])
  }

  lemma OneMoreHost(series: seq<Series>, nodes: seq<Series>, finished: set<string>, s: Series)
    requires SomeHosts(series, nodes, finished) && s.hostname !in finished && HostSeries(OfHosts(series, {s.hostname}), s)
    ensures SomeHosts(series, nodes + [s], finished + {s.hostname})
  {
    hide HostSeries, OfHosts;
    HostsPush(nodes, s);
    forall k | 0 <= k < |nodes| ensures nodes[k].hostname != s.hostname {
      assert nodes[k].hostname in Hosts(nodes);
    }
  }

  method SumHosts(series: seq<Series>) returns (nodes: seq<Series>)
    ensures NodeSeries(series, nodes)
  {
    hide HostSeries, OfHosts, Hosts;
    var hosts := GroupByHost(series);
    nodes := [];
    var todo := hosts.Keys;
    NoHostsYet(series);
    while todo != {}
      invariant todo <= hosts.Keys && SomeHosts(series, nodes, hosts.Keys - todo)
      decreases |todo|
    {
      hide SomeHosts;
      var hostname := Pick(todo);
      OfHostsEmpty(series, hostname);
      var s := SumHost(hostname, hosts[hostname]);
      OneMoreHost(series, nodes, hosts.Keys - todo, s);
      nodes := nodes + [s];
      todo := todo - {hostname};
      assert hosts.Keys - todo == hosts.Keys - (todo + {hostname}) + {hostname};
    }
  }

  lemma NoHostsYet(series: seq<Series>)
    ensures SomeHosts(series, [], {})
  {
  }

  // ----- conservation -----

  lemma {:induction false} SumSplit(series: seq<Series>, hosts: set<string>, h: string, i: nat)
    requires h !in hosts && Reaches(series, i)
    ensures Reaches(OfHosts(series, hosts + {h}), i) && Reaches(OfHosts(series, hosts), i) && Reaches(OfHosts(series, {h}), i)
    ensures Sum(Column(OfHosts(series, hosts + {h}), i))
         == Add(Sum(Column(OfHosts(series, hosts), i)), Sum(Column(OfHosts(series, {h}), i)))
  {
    hide Sum, OfHosts;
    if series == [] {
      NothingToSum(hosts + {h}, i);
      NothingToSum(hosts, i);
      NothingToSum({h}, i);
    } else {
      var t, s := series[..|series| - 1], series[|series| - 1];
      assert series == t + [s] && Reaches(t, i);
      SumSplit(t, hosts, h, i);
      SumPush(OfHosts(t, hosts + {h}), s, i);
      SumPush(OfHosts(t, hosts), s, i);
      SumPush(OfHosts(t, {h}), s, i);
      HostCase(t, s, hosts);
      HostCase(t, s, hosts + {h});
      HostCase(t, s, {h});
    }
  }

  lemma NothingToSum(hosts: set<string>, i: nat)
    ensures OfHosts([], hosts) == [] && Reaches([], i) && Sum(Column([], i)) == Num(0.0)
  {
  }

  lemma HostCase(t: seq<Series>, s: Series, hosts: set<string>)
    ensures OfHosts(t + [s], hosts) == if s.hostname in hosts then OfHosts(t, hosts) + [s] else OfHosts(t, hosts)
  {
    assert (t + [s])[..|t|] == t;
  }

  lemma SumPush(t: seq<Series>, s: Series, i: nat)
    requires Reaches(t, i) && i < |s.data|
    ensures Reaches(t + [s], i) && Sum(Column(t + [s], i)) == Add(Sum(Column(t, i)), s.data[i])
  {
    var c := Column(t + [s], i);
    assert c[..|c| - 1] == Column(t, i);
  }

  lemma {:induction false} OfAllHosts(series: seq<Series>, hosts: set<string>)
    requires Hosts(series) <= hosts
    ensures OfHosts(series, hosts) == series
  {
    if series == [] {
    } else {
      var t, s := series[..|series| - 1], series[|series| - 1];
      assert series == t + [s];
      HostsPush(t, s);
      OfAllHosts(t, hosts);
    }
  }

  lemma {:induction false} OfNoHosts(series: seq<Series>)
    ensures OfHosts(series, {}) == []
  {
    if series == [] {
    } else {
      OfNoHosts(series[..|series| - 1]);
    }
  }

  /** Up to any host the host sums add up to the sum over the series of those hosts. */
  lemma {:induction false} SumFirst(series: seq<Series>, nodes: seq<Series>, k: nat, i: nat)
    requires NodeSeries(series, nodes) && k <= |nodes| && series != [] && i < Shortest(series)
    ensures Reaches(nodes, i) && Reaches(OfHosts(series, Hosts(nodes[..k])), i)
    ensures Reaches(nodes[..k], i) && Sum(Column(nodes[..k], i)) == Sum(Column(OfHosts(series, Hosts(nodes[..k])), i))
    decreases k
  {
    hide Sum, Shortest, Longest, OfHosts;
    ReachesBelow(series, i);
    forall j | 0 <= j < |nodes| ensures i < |nodes[j].data| {
      HostLong(series, nodes, j, i);
    }
    if k == 0 {
      OfNoHosts(series);
      assert Hosts(nodes[..0]) == {};
      assert Column(nodes[..0], i) == Column([], i);
    } else {
      SumFirst(series, nodes, k - 1, i);
      var t, s := nodes[..k - 1], nodes[k - 1];
      assert nodes[..k] == t + [s];
      HostsPush(t, s);
      assert s.hostname !in Hosts(t);
      SumSplit(series, Hosts(t), s.hostname, i);
      SumPush(t, s, i);
      HostLong(series, nodes, k - 1, i);
    }
  }

  /** At a step that every series reaches, a host's series holds the sum over its group. */
  lemma HostLong(series: seq<Series>, nodes: seq<Series>, j: nat, i: nat)
    requires NodeSeries(series, nodes) && j < |nodes| && series != [] && i < Shortest(series)
    ensures i < |nodes[j].data| && SumsUp(OfHosts(series, {nodes[j].hostname}), i, nodes[j].data[i])
  {
    hide Sum;
    var group := OfHosts(series, {nodes[j].hostname});
    ReachesBelow(series, i);
    OfHostsReach(series, {nodes[j].hostname}, i);
    assert HostSeries(group, nodes[j]);
    var a := ShortestReached(group);
    LengthsBetween(group, a);
  }

  lemma {:induction false} OfHostsReach(series: seq<Series>, hosts: set<string>, i: nat)
    requires Reaches(series, i)
    ensures Reaches(OfHosts(series, hosts), i)
  {
    if series == [] {
    } else {
      assert Reaches(series[..|series| - 1], i);
      OfHostsReach(series[..|series| - 1], hosts, i);
    }
  }

  /** At every step below the shortest series the host sums add up to the sum over all series. */
  lemma NodeSumsConserve(series: seq<Series>, nodes: seq<Series>, i: nat)
    requires NodeSeries(series, nodes) && series != [] && i < Shortest(series)
    ensures Reaches(series, i) && Reaches(nodes, i)
    ensures Sum(Column(nodes, i)) == Sum(Column(series, i))
  {
    hide Sum, Shortest, Longest;
    ReachesBelow(series, i);
    SumFirst(series, nodes, |nodes|, i);
    assert nodes[..|nodes|] == nodes;
    OfAllHosts(series, Hosts(nodes));
  }

  /** The averages of the hosts, each as often as the host has series. */
  ghost function Weighted(series: seq<Series>, nodes: seq<Series>): real {
    if nodes == [] then 0.0
    else
      var last := nodes[|nodes| - 1];
      Weighted(series, nodes[..|nodes| - 1]) + last.statistics.avg * |OfHosts(series, {last.hostname})| as real
  }

  lemma {:induction false} AvgSplit(series: seq<Series>, hosts: set<string>, h: string)
    requires h !in hosts
    ensures AvgSum(OfHosts(series, hosts + {h})) == AvgSum(OfHosts(series, hosts)) + AvgSum(OfHosts(series, {h}))
  {
    hide OfHosts, AvgSum;
    if series == [] {
      AvgNone(hosts + {h});
      AvgNone(hosts);
      AvgNone({h});
    } else {
      var t, s := series[..|series| - 1], series[|series| - 1];
      assert series == t + [s];
      AvgSplit(t, hosts, h);
      HostCase(t, s, hosts);
      HostCase(t, s, hosts + {h});
      HostCase(t, s, {h});
      AvgPush(OfHosts(t, hosts), s);
      AvgPush(OfHosts(t, hosts + {h}), s);
      AvgPush(OfHosts(t, {h}), s);
    }
  }

  lemma AvgNone(hosts: set<string>)
    ensures AvgSum(OfHosts([], hosts)) == 0.0
  {
  }

  lemma AvgPush(t: seq<Series>, s: Series)
    ensures AvgSum(t + [s]) == AvgSum(t) + s.statistics.avg
  {
    assert (t + [s])[..|t|] == t;
  }

  lemma {:induction false} AveragesFirst(series: seq<Series>, nodes: seq<Series>, k: nat)
    requires NodeSeries(series, nodes) && k <= |nodes|
    ensures Weighted(series, nodes[..k]) == AvgSum(OfHosts(series, Hosts(nodes[..k])))
  {
    hide OfHosts, AvgSum;
    if k == 0 {
      OfNoHosts(series);
      assert Hosts(nodes[..0]) == {};
      AvgNone({});
      OfNoHosts([]);
    } else {
      AveragesFirst(series, nodes, k - 1);
      var t, s := nodes[..k - 1], nodes[k - 1];
      assert nodes[..k] == t + [s] && nodes[..k][..k - 1] == t;
      HostsPush(t, s);
      assert s.hostname !in Hosts(t);
      AvgSplit(series, Hosts(t), s.hostname);
      HostTotal(series, nodes, k - 1);
    }
  }

  lemma HostTotal(series: seq<Series>, nodes: seq<Series>, j: nat)
    requires NodeSeries(series, nodes) && j < |nodes|
    ensures var group := OfHosts(series, {nodes[j].hostname}); nodes[j].statistics.avg * |group| as real == AvgSum(group)
  {
    hide OfHosts, AvgSum, Longest, Shortest;
    var group := OfHosts(series, {nodes[j].hostname});
    assert HostSeries(group, nodes[j]);
    var q := AvgSum(group) / |group| as real;
    assert q * |group| as real == AvgSum(group);
  }

  /** The averages of the hosts, weighted by their series, add up to the averages of all series. */
  lemma AveragesConserve(series: seq<Series>, nodes: seq<Series>)
    requires NodeSeries(series, nodes)
    ensures Weighted(series, nodes) == Total(Averages(series))
  {
    hide Weighted, AvgSum, OfHosts;
    AveragesFirst(series, nodes, |nodes|);
    assert nodes[..|nodes|] == nodes;
    OfAllHosts(series, Hosts(nodes));
    AvgSumIs(series);
  }

  // ----- the job's metrics -----

  class JobData {
    var data: map<string, map<string, JobMetric>>

    constructor (data: map<string, map<string, JobMetric>>)
      ensures this.data == data
    {
      this.data := data;
    }

    /**
     Adds a node scope to a metric that has none. The chosen scope is one of the coarsest;
     nothing else changes.
     */
    method AddNodeScope(metric: string) returns (added: bool)
      modifies this
      ensures added <==> metric in old(data) && NODE !in old(data)[metric] && exists s :: s in old(data)[metric] && s != INVALID
      ensures !added ==> data == old(data)
      ensures added ==> exists s :: Coarsest(old(data)[metric].Keys, s) && AddedFrom(old(data), data, metric, s)
      ensures added ==> fresh(data[metric][NODE])
    {
      if metric !in data {
        return false;
      }
      var scopes := data[metric];
      var maxScope := CoarsestOf(scopes.Keys);
      if maxScope == INVALID || maxScope == NODE {
        return false;
      }
      var jm := scopes[maxScope];
      var nodes := SumHosts(jm.series);
      var nodeJm := new JobMetric(nodes, jm.timestep, jm.unit);
      ghost var before := data;
      data := data[metric := scopes[NODE := nodeJm]];
      assert AddedFrom(before, data, metric, maxScope);
      added := true;
    }
  }

  /** The node scope of metric is new and sums up the scope s; all else is as before. */
  ghost predicate AddedFrom(before: map<string, map<string, JobMetric>>, after: map<string, map<string, JobMetric>>, metric: string, s: string)
  {
    && metric in before && s in before[metric] && metric in after && NODE in after[metric]
    && after == before[metric := before[metric][NODE := after[metric][NODE]]]
    && after[metric][NODE].unit == before[metric][s].unit
    && after[metric][NODE].timestep == before[metric][s].timestep
    && NodeSeries(before[metric][s].series, after[metric][NODE].series)
  }

  /** The loop over the scopes of a metric, in any order. */
  method CoarsestOf(scopes: set<string>) returns (maxScope: string)
    ensures scopes == {} ==> maxScope == INVALID
    ensures scopes != {} ==> Coarsest(scopes, maxScope)
    ensures (maxScope == INVALID || maxScope == NODE) <==> (NODE in scopes || forall s :: s in scopes ==> s == INVALID)
  {
    maxScope := INVALID;
    ghost var order: seq<string> := [];
    var todo := scopes;
    while todo != {}
      invariant todo <= scopes && forall s :: s in order <==> s in scopes - todo
      invariant maxScope == MaxOf(order)
      decreases |todo|
    {
      var scope := Pick(todo);
      assert (order + [scope])[..|order|] == order;
      order := order + [scope];
      maxScope := MaxScope(maxScope, scope);
      todo := todo - {scope};
    }
    MaxOfCoarsest(order);
    assert (set s | s in order) == scopes;
  }
}
