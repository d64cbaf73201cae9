/**
 The hardware topology of a node: groups of hardware threads, the lookup tables built from
 them, and the queries that decide which groups a set of threads or cores touches and
 whether it has them for itself.
 */
module TopologyIndex {
  import opened Counting
  import opened Sets

  /** A group by its number; there is nothing outside the list. */
  function Group(groups: seq<seq<int>>, g: int): seq<int> {
    if 0 <= g < |groups| then groups[g] else []
  }

  /** The groups of a list as a function of their number. */
  function Family(groups: seq<seq<int>>): int -> seq<int> {
    g => Group(groups, g)
  }

  /** Before the tables are built no group is known. */
  const NOTHING: int -> seq<int> := _ => []

  function Lookup(index: map<int, seq<int>>, h: int): seq<int> {
    if h in index then index[h] else []
  }

  predicate Ascending(s: seq<int>) {
    forall i, j :: 0 <= i < j < |s| ==> s[i] <= s[j]
  }

  /** index lists for every thread the groups that hold it, in order and as often as they hold it. */
  ghost predicate Inverse(groups: seq<seq<int>>, index: map<int, seq<int>>) {
    && (forall h, g :: Times(Lookup(index, h), g) == Times(Group(groups, g), h))
    && (forall h :: h in index ==> index[h] != [] && Ascending(index[h]))
  }

  /** What has been indexed of group g when the first n groups and k threads of the next one are done. */
  function Part(groups: seq<seq<int>>, n: nat, k: nat, g: int): seq<int>
    requires k <= |Group(groups, n)|
  {
    if g < n then Group(groups, g) else if g == n then Group(groups, g)[..k] else []
  }

  ghost predicate Partial(groups: seq<seq<int>>, index: map<int, seq<int>>, n: nat, k: nat) {
    && n <= |groups| && k <= |Group(groups, n)|
    && (forall h, g :: Times(Lookup(index, h), g) == Times(Part(groups, n, k, g), h))
    && (forall h :: h in index ==> index[h] != [] && Ascending(index[h]) && forall i :: 0 <= i < |index[h]| ==> index[h][i] <= n)
  }

  function Append(index: map<int, seq<int>>, h: int, g: int): map<int, seq<int>> {
    index[h := Lookup(index, h) + [g]]
  }

  lemma AppendTimes(index: map<int, seq<int>>, x: int, n: int, h: int, g: int)
    ensures Times(Lookup(Append(index, x, n), h), g) == Times(Lookup(index, h), g) + if h == x && g == n then 1 else 0
  {
    TimesPush(Lookup(index, h), n, g);
  }

  lemma PartTimes(groups: seq<seq<int>>, n: nat, k: nat, g: int, h: int)
    requires n < |groups| && k < |groups[n]|
    ensures Times(Part(groups, n, k + 1, g), h) == Times(Part(groups, n, k, g), h) + if h == groups[n][k] && g == n then 1 else 0
  {
    if g == n {
      assert groups[n][..k + 1] == groups[n][..k] + [groups[n][k]];
      TimesPush(groups[n][..k], groups[n][k], h);
    }
  }

  lemma PartialStep(groups: seq<seq<int>>, index: map<int, seq<int>>, n: nat, k: nat)
    requires n < |groups| && k < |groups[n]| && Partial(groups, index, n, k)
    ensures Partial(groups, Append(index, groups[n][k], n), n, k + 1)
  {
    hide Part, Times;
    var x := groups[n][k];
    var next := Append(index, x, n);
    forall h, g ensures Times(Lookup(next, h), g) == Times(Part(groups, n, k + 1, g), h) {
      AppendTimes(index, x, n, h, g);
      PartTimes(groups, n, k, g, h);
    }
  }

  lemma PartialNext(groups: seq<seq<int>>, index: map<int, seq<int>>, n: nat)
    requires n < |groups| && Partial(groups, index, n, |groups[n]|)
    ensures Partial(groups, index, n + 1, 0)
  {
    forall g ensures Part(groups, n, |groups[n]|, g) == Part(groups, n + 1, 0, g) {
    }
    hide Part, Times;
    forall h, g ensures Times(Lookup(index, h), g) == Times(Part(groups, n + 1, 0, g), h) {
      assert Times(Lookup(index, h), g) == Times(Part(groups, n, |groups[n]|, g), h);
    }
  }

  method BuildIndex(groups: seq<seq<int>>) returns (index: map<int, seq<int>>)
    ensures Inverse(groups, index)
  {
    hide Partial, Append;
    index := map[];
    PartialStart(groups);
    for g := 0 to |groups|
      invariant Partial(groups, index, g, 0)
    {
      for k := 0 to |groups[g]|
        invariant Partial(groups, index, g, k)
      {
        PartialStep(groups, index, g, k);
        index := Append(index, groups[g][k], g);
      }
      PartialNext(groups, index, g);
    }
    PartialEnd(groups, index);
  }

  lemma PartialStart(groups: seq<seq<int>>)
    ensures Partial(groups, map[], 0, 0)
  {
  }

  lemma PartialEnd(groups: seq<seq<int>>, index: map<int, seq<int>>)
    requires Partial(groups, index, |groups|, 0)
    ensures Inverse(groups, index)
  {
    forall h, g ensures Times(Lookup(index, h), g) == Times(Group(groups, g), h) {
      assert Part(groups, |groups|, 0, g) == Group(groups, g);
    }
  }

  // ----- selecting the groups that ids touch -----

  /**
   The answer to a query: the different groups that share an element with ids, in any
   order, and whether ids hit each of them as often as it has elements.
   */
  ghost predicate Selection(family: int -> seq<int>, ids: seq<int>, found: seq<int>, exclusive: bool) {
    && Distinct(found)
    && (forall g :: g in found <==> exists h :: h in ids && h in family(g))
    && (exclusive <==> forall g :: g in found ==> Hits(family(g), ids) == |family(g)|)
  }

  /** For different ids, exclusive says that they include every element of every group found. */
  lemma ExclusiveMeansAll(family: int -> seq<int>, ids: seq<int>, found: seq<int>, exclusive: bool)
    requires Selection(family, ids, found, exclusive) && Distinct(ids)
    ensures exclusive <==> Contained(family, ids, found)
  {
    forall g | g in found ensures Hits(family(g), ids) == |family(g)| <==> forall h :: h in family(g) ==> h in ids {
      Pigeonhole(family(g), ids);
    }
  }

  /** The answer does not depend on the order in which a map is walked. */
  lemma SelectionUnique(family: int -> seq<int>, ids: seq<int>, f1: seq<int>, e1: bool, f2: seq<int>, e2: bool)
    requires Selection(family, ids, f1, e1) && Selection(family, ids, f2, e2)
    ensures e1 == e2 && multiset(f1) == multiset(f2)
  {
    assert forall g :: g in f1 <==> g in f2;
    forall g ensures multiset(f1)[g] == multiset(f2)[g] {
      DistinctTimes(f1, g);
      DistinctTimes(f2, g);
    }
  }

  ghost predicate Contained(family: int -> seq<int>, ids: seq<int>, found: seq<int>) {
    forall g, h :: g in found && h in family(g) ==> h in ids
  }

  /** For every topology and every answer the flag says whether all groups found are contained in ids. */
  ghost predicate FlagRight(ids: seq<int>) {
    forall groups: seq<seq<int>>, found, exclusive ::
      Selection(Family(groups), ids, found, exclusive) ==> (exclusive <==> Contained(Family(groups), ids, found))
  }

  /** A repeated id is counted too often for a group that holds only it: the flag denies what is the case. */
  lemma RepeatedIdDenies(ids: seq<int>, i: nat, j: nat)
    requires i < j < |ids| && ids[i] == ids[j]
    ensures Selection(Family([[ids[i]]]), ids, [0], false) && Contained(Family([[ids[i]]]), ids, [0])
  {
    var group := [ids[i]];
    var family := Family([group]);
    assert family(0) == group && forall g :: g != 0 ==> family(g) == [];
    HitsSymmetric(group, ids);
    assert group[..0] == [];
    assert Hits(ids, group) == Times(ids, ids[i]);
    TwiceCounted(ids, i, j);
    assert ids[i] in ids && ids[i] in family(0);
  }

  lemma TwiceCounted(ids: seq<int>, i: nat, j: nat)
    requires i < j < |ids| && ids[i] == ids[j]
    ensures Times(ids, ids[i]) >= 2
  {
    assert ids == ids[..j] + [ids[j]] + ids[j + 1..];
    assert ids[..j][i] == ids[i];
    assert multiset(ids) == multiset(ids[..j]) + multiset{ids[j]} + multiset(ids[j + 1..]);
  }

  /** It can also stand in for a missing one: thread 0 given twice passes for threads 0 and 1. */
  lemma RepeatedIdMisleads()
    ensures Selection(Family([[0, 1]]), [0, 0], [0], true) && !Contained(Family([[0, 1]]), [0, 0], [0])
  {
    var family := Family([[0, 1]]);
    assert family(0) == [0, 1] && forall g :: g != 0 ==> family(g) == [];
    assert [0, 0][..1] == [0] && [0][..0] == [];
    assert Hits([0, 1], [0]) == Times([0, 1], 0) == 1;
    assert 0 in [0, 0] && 0 in family(0);
    assert 0 in [0] && 1 in Family([[0, 1]])(0) && 1 !in [0, 0];
  }

  /** The flag is right for every topology if and only if no id is repeated. */
  lemma FlagRightExactly(ids: seq<int>)
    ensures FlagRight(ids) <==> Distinct(ids)
  {
    hide Selection;
    if Distinct(ids) {
      forall groups: seq<seq<int>>, found, exclusive | Selection(Family(groups), ids, found, exclusive)
        ensures exclusive <==> Contained(Family(groups), ids, found)
      {
        ExclusiveMeansAll(Family(groups), ids, found, exclusive);
      }
    } else {
      var i, j :| 0 <= i < j < |ids| && ids[i] == ids[j];
      RepeatedIdDenies(ids, i, j);
    }
  }

  function Tally(counts: map<int, int>, g: int): int {
    if g in counts then counts[g] else 0
  }

  /** index leads from every id to the groups of the family that hold it. */
  ghost predicate Leads(family: int -> seq<int>, index: map<int, seq<int>>) {
    forall h, g :: Times(Lookup(index, h), g) == Times(family(g), h)
  }

  ghost predicate Counted(family: int -> seq<int>, ids: seq<int>, counts: map<int, int>) {
    forall g :: Hits(family(g), ids) == Tally(counts, g)
  }

  predicate AllCounted(counts: map<int, int>) {
    forall g :: g in counts ==> counts[g] > 0
  }

  /** The counting loop of every query. */
  method CountGroups(ghost family: int -> seq<int>, index: map<int, seq<int>>, ids: seq<int>) returns (counts: map<int, int>)
    requires Leads(family, index)
    ensures Counted(family, ids, counts) && AllCounted(counts)
  {
    counts := map[];
    for i := 0 to |ids|
      invariant Counted(family, ids[..i], counts) && AllCounted(counts)
    {
      var groups := Lookup(index, ids[i]);
      ghost var before := counts;
      for j := 0 to |groups|
        invariant forall g :: Tally(counts, g) == Tally(before, g) + Times(groups[..j], g)
        invariant AllCounted(counts)
      {
        assert groups[..j + 1] == groups[..j] + [groups[j]];
        counts := counts[groups[j] := Tally(counts, groups[j]) + 1];
      }
      assert groups[..|groups|] == groups;
      assert ids[..i + 1][..i] == ids[..i];
      forall g ensures Hits(family(g), ids[..i + 1]) == Tally(counts, g) {
        assert Times(groups, g) == Times(family(g), ids[i]);
      }
    }
    assert ids[..|ids|] == ids;
  }

  /** The answering loop of every query: it walks the counts in any order. */
  method Answer(ghost family: int -> seq<int>, counts: map<int, int>, ghost ids: seq<int>, size: int --> int)
    returns (found: seq<int>, exclusive: bool)
    requires Counted(family, ids, counts) && AllCounted(counts)
    requires forall g :: g in counts ==> size.requires(g) && size(g) == |family(g)|
    ensures Selection(family, ids, found, exclusive)
  {
    found, exclusive := [], true;
    var todo := counts.Keys;
    while todo != {}
      invariant todo <= counts.Keys
      invariant Distinct(found) && forall g :: g in found <==> g in counts.Keys - todo
      invariant exclusive <==> forall g :: g in found ==> Hits(family(g), ids) == |family(g)|
      decreases |todo|
    {
      var g := Pick(todo);
      assert Hits(family(g), ids) == counts[g];
      found := found + [g];
      exclusive := exclusive && counts[g] == size(g);
      todo := todo - {g};
    }
    forall g ensures g in found <==> exists h :: h in ids && h in family(g) {
      HitsSome(family(g), ids);
      assert Hits(family(g), ids) == Tally(counts, g);
    }
  }

  /** Lists a set in any order and counts each of its elements once more. */
  method CountOnce(found: set<int>, counts: map<int, int>) returns (list: seq<int>, next: map<int, int>)
    requires AllCounted(counts)
    ensures Distinct(list) && (forall s :: s in list <==> s in found)
    ensures AllCounted(next) && forall s :: Tally(next, s) == Tally(counts, s) + if s in found then 1 else 0
  {
    var todo := found;
    list, next := [], counts;
    while todo != {}
      invariant todo <= found && Distinct(list) && forall s :: s in list <==> s in found - todo
      invariant AllCounted(next) && forall s :: Tally(next, s) == Tally(counts, s) + if s in found - todo then 1 else 0
      decreases |todo|
    {
      var s := Pick(todo);
      list := list + [s];
      next := next[s := Tally(next, s) + 1];
      todo := todo - {s};
    }
  }

  method AddAll(found: set<int>, list: seq<int>) returns (all: set<int>)
    ensures forall s :: s in all <==> s in found || s in list
  {
    all := found;
    for j := 0 to |list|
      invariant forall s :: s in all <==> s in found || s in list[..j]
    {
      all := all + {list[j]};
    }
    assert list[..|list|] == list;
  }

  class Topology {
    const socket: seq<seq<int>>
    const core: seq<seq<int>>
    const memoryDomain: seq<seq<int>>

    var ready: bool
    var hwthreadToSocket: map<int, seq<int>>
    var hwthreadToCore: map<int, seq<int>>
    var hwthreadToMemoryDomain: map<int, seq<int>>
    var coreToSocket: map<int, seq<int>>
    var memoryDomainToSocket: map<int, int>
    var coresPerSocket: map<int, int>

    constructor (socket: seq<seq<int>>, core: seq<seq<int>>, memoryDomain: seq<seq<int>>)
      ensures !ready && Consistent() && this.socket == socket && this.core == core && this.memoryDomain == memoryDomain
    {
      this.socket, this.core, this.memoryDomain := socket, core, memoryDomain;
      ready := false;
      hwthreadToSocket, hwthreadToCore, hwthreadToMemoryDomain := map[], map[], map[];
      coreToSocket, memoryDomainToSocket, coresPerSocket := map[], map[], map[];
    }

    predicate Holds(s: int, h: int) { h in Group(socket, s) }

    /** Core c has a thread in socket s. */
    ghost predicate Touches(c: int, s: int) {
      exists h :: h in Group(core, c) && Holds(s, h)
    }

    /** The cores below n that touch socket s. */
    ghost function CoresOf(s: int, n: nat): seq<int> {
      if n == 0 then [] else CoresOf(s, n - 1) + if Touches(n - 1, s) then [n - 1] else []
    }

    ghost predicate SocketList(list: seq<int>, c: int) {
      Distinct(list) && forall s :: s in list <==> Touches(c, s)
    }

    /** The tables of cores agree with the groups as far as core n. */
    ghost predicate CoresIndexed(table: map<int, seq<int>>, counts: map<int, int>, n: nat) {
      && (forall c :: c in table <==> 0 <= c < n)
      && (forall c :: c in table ==> SocketList(table[c], c))
      && (forall s :: |CoresOf(s, n)| == Tally(counts, s))
      && AllCounted(counts)
    }

    /** A memory domain belongs to the first socket that holds its first thread. */
    ghost predicate DomainAssigned(d: int, s: int) {
      && Group(memoryDomain, d) != []
      && var h := Group(memoryDomain, d)[0];
         Holds(s, h) && forall t :: t < s ==> !Holds(t, h)
    }

    ghost predicate DomainsIndexed(table: map<int, int>, n: nat) {
      && (forall d :: d in table ==> 0 <= d < n && DomainAssigned(d, table[d]))
      && (forall d, s :: 0 <= d < n && DomainAssigned(d, s) ==> d in table)
    }

    /** All tables agree with the groups. */
    ghost predicate Indexed()
      reads this
    {
      && Inverse(socket, hwthreadToSocket)
      && Inverse(core, hwthreadToCore)
      && Inverse(memoryDomain, hwthreadToMemoryDomain)
      && CoresIndexed(coreToSocket, coresPerSocket, |core|)
      && DomainsIndexed(memoryDomainToSocket, |memoryDomain|)
    }

    /** The tables are either empty or agree with the groups. */
    ghost predicate Consistent()
      reads this
    {
      if ready then Indexed()
      else
        && hwthreadToSocket == map[] && hwthreadToCore == map[] && hwthreadToMemoryDomain == map[]
        && coreToSocket == map[] && memoryDomainToSocket == map[] && coresPerSocket == map[]
    }

    method InitTopologyMaps()
      requires Consistent()
      modifies this
      ensures ready && Indexed()
      ensures old(ready) ==> unchanged(this)
    {
      hide Inverse, CoresIndexed, DomainsIndexed, Indexed;
      if !ready {
        ready := true;
        hwthreadToSocket := BuildIndex(socket);
        hwthreadToCore := BuildIndex(core);
        hwthreadToMemoryDomain := BuildIndex(memoryDomain);
        IndexCores();
        IndexDomains();
        AllIndexed();
      }
    }

    lemma AllIndexed()
      requires Inverse(socket, hwthreadToSocket) && Inverse(core, hwthreadToCore) && Inverse(memoryDomain, hwthreadToMemoryDomain)
      requires CoresIndexed(coreToSocket, coresPerSocket, |core|) && DomainsIndexed(memoryDomainToSocket, |memoryDomain|)
      ensures Indexed()
    {
    }

    lemma LookupTouches(h: int, s: int)
      requires Inverse(socket, hwthreadToSocket)
      ensures s in Lookup(hwthreadToSocket, h) <==> Holds(s, h)
    {
      assert Times(Lookup(hwthreadToSocket, h), s) == Times(Group(socket, s), h);
    }

    /** Some of the first k threads of core c is in socket s. */
    ghost predicate TouchesBelow(c: int, k: nat, s: int) {
      exists i :: 0 <= i < k && i < |Group(core, c)| && Holds(s, core[c][i])
    }

    /** The sockets that core c touches. */
    method SocketsOf(c: int) returns (found: set<int>)
      requires 0 <= c < |core| && Inverse(socket, hwthreadToSocket)
      ensures forall s :: s in found <==> Touches(c, s)
    {
      hide Inverse, Holds, TouchesBelow, Touches;
      found := {};
      TouchesEnds(c);
      for k := 0 to |core[c]|
        invariant forall s :: s in found <==> TouchesBelow(c, k, s)
      {
        var sockets := Lookup(hwthreadToSocket, core[c][k]);
        found := AddAll(found, sockets);
        forall s ensures TouchesBelow(c, k + 1, s) <==> TouchesBelow(c, k, s) || s in sockets {
          TouchesStep(c, k, s);
        }
      }
    }

    lemma TouchesEnds(c: int)
      requires 0 <= c < |core|
      ensures forall s :: !TouchesBelow(c, 0, s) && (TouchesBelow(c, |core[c]|, s) <==> Touches(c, s))
    {
    }

    lemma TouchesStep(c: int, k: nat, s: int)
      requires 0 <= c < |core| && k < |core[c]| && Inverse(socket, hwthreadToSocket)
      ensures TouchesBelow(c, k + 1, s) <==> TouchesBelow(c, k, s) || s in Lookup(hwthreadToSocket, core[c][k])
    {
      LookupTouches(core[c][k], s);
    }

    lemma CoresNext(table: map<int, seq<int>>, counts: map<int, int>, n: nat, list: seq<int>, next: map<int, int>)
      requires CoresIndexed(table, counts, n) && SocketList(list, n) && AllCounted(next)
      requires forall s :: Tally(next, s) == Tally(counts, s) + if Touches(n, s) then 1 else 0
      ensures CoresIndexed(table[n := list], next, n + 1)
    {
      hide SocketList, Touches, Tally;
    }

    lemma CoresStart()
      ensures CoresIndexed(map[], map[], 0)
    {
    }

    lemma CoresCounted(table: map<int, seq<int>>, counts: map<int, int>, n: nat)
      requires CoresIndexed(table, counts, n)
      ensures AllCounted(counts)
    {
    }

    lemma SocketListIs(list: seq<int>, found: set<int>, c: int)
      requires Distinct(list) && (forall s :: s in list <==> s in found) && forall s :: s in found <==> Touches(c, s)
      ensures SocketList(list, c)
    {
    }

    method IndexCores()
      requires Inverse(socket, hwthreadToSocket)
      modifies this`coreToSocket, this`coresPerSocket
      ensures CoresIndexed(coreToSocket, coresPerSocket, |core|)
    {
      hide Inverse, Touches, Tally, CoresIndexed, SocketList, AllCounted;
      coreToSocket, coresPerSocket := map[], map[];
      CoresStart();
      for c := 0 to |core|
        invariant CoresIndexed(coreToSocket, coresPerSocket, c)
      {
        var found := SocketsOf(c);
        CoresCounted(coreToSocket, coresPerSocket, c);
        var list, counts := CountOnce(found, coresPerSocket);
        SocketListIs(list, found, c);
        CoresNext(coreToSocket, coresPerSocket, c, list, counts);
        coreToSocket, coresPerSocket := coreToSocket[c := list], counts;
      }
    }

    method IndexDomains()
      requires Inverse(socket, hwthreadToSocket)
      modifies this`memoryDomainToSocket
      ensures DomainsIndexed(memoryDomainToSocket, |memoryDomain|)
    {
      hide DomainAssigned, Inverse;
      memoryDomainToSocket := map[];
      for d := 0 to |memoryDomain|
        invariant DomainsIndexed(memoryDomainToSocket, d)
      {
        NotEmpty(d);
        if |memoryDomain[d]| > 0 {
          var h := memoryDomain[d][0];
          FirstSocket(h, d);
          if h in hwthreadToSocket && |hwthreadToSocket[h]| > 0 {
            memoryDomainToSocket := memoryDomainToSocket[d := hwthreadToSocket[h][0]];
          }
        }
      }
    }

    lemma NotEmpty(d: int)
      ensures Group(memoryDomain, d) == [] ==> forall s :: !DomainAssigned(d, s)
    {
    }

    lemma FirstSocket(h: int, d: int)
      requires Inverse(socket, hwthreadToSocket) && Group(memoryDomain, d) != [] && Group(memoryDomain, d)[0] == h
      ensures h in hwthreadToSocket ==> hwthreadToSocket[h] != [] && DomainAssigned(d, hwthreadToSocket[h][0])
      ensures forall s :: DomainAssigned(d, s) ==> h in hwthreadToSocket
    {
      forall s ensures s in Lookup(hwthreadToSocket, h) <==> Holds(s, h) {
        LookupTouches(h, s);
      }
      if h in hwthreadToSocket {
        assert hwthreadToSocket[h][0] in Lookup(hwthreadToSocket, h);
      }
    }

    // ----- the queries -----

    method GetSocketsFromHWThreads(hwthreads: seq<int>) returns (sockets: seq<int>, exclusive: bool)
      requires Consistent()
      ensures Selection(if ready then Family(socket) else NOTHING, hwthreads, sockets, exclusive)
    {
      ghost var family := if ready then Family(socket) else NOTHING;
      var counts := CountGroups(family, hwthreadToSocket, hwthreads);
      InRange(socket, family, hwthreads, counts);
      var groups := socket;
      sockets, exclusive := Answer(family, counts, hwthreads, s requires 0 <= s < |groups| => |groups[s]|);
    }

    method GetCoresFromHWThreads(hwthreads: seq<int>) returns (cores: seq<int>, exclusive: bool)
      requires Consistent()
      ensures Selection(if ready then Family(core) else NOTHING, hwthreads, cores, exclusive)
    {
      ghost var family := if ready then Family(core) else NOTHING;
      var counts := CountGroups(family, hwthreadToCore, hwthreads);
      InRange(core, family, hwthreads, counts);
      var groups := core;
      cores, exclusive := Answer(family, counts, hwthreads, c requires 0 <= c < |groups| => |groups[c]|);
    }

    method GetMemoryDomainsFromHWThreads(hwthreads: seq<int>) returns (memDoms: seq<int>, exclusive: bool)
      requires Consistent()
      ensures Selection(if ready then Family(memoryDomain) else NOTHING, hwthreads, memDoms, exclusive)
    {
      ghost var family := if ready then Family(memoryDomain) else NOTHING;
      var counts := CountGroups(family, hwthreadToMemoryDomain, hwthreads);
      InRange(memoryDomain, family, hwthreads, counts);
      var groups := memoryDomain;
      memDoms, exclusive := Answer(family, counts, hwthreads, d requires 0 <= d < |groups| => |groups[d]|);
    }

    /** The cores that touch each socket. */
    ghost function CoreFamily(): int -> seq<int> {
      s => CoresOf(s, |core|)
    }

    method GetSocketsFromCores(cores: seq<int>) returns (sockets: seq<int>, exclusive: bool)
      requires Consistent()
      ensures Selection(if ready then CoreFamily() else NOTHING, cores, sockets, exclusive)
    {
      ghost var family := if ready then CoreFamily() else NOTHING;
      if ready {
        CoresLead();
      }
      var counts := CountGroups(family, coreToSocket, cores);
      forall s | s in counts ensures s in coresPerSocket && coresPerSocket[s] == |family(s)| {
        HitsSome(family(s), cores);
        assert Hits(family(s), cores) == Tally(counts, s) && counts[s] > 0;
        assert family(s) != [];
        assert family(s) == CoresOf(s, |core|) && Tally(coresPerSocket, s) == |family(s)|;
      }
      var perSocket := coresPerSocket;
      sockets, exclusive := Answer(family, counts, cores, s requires s in perSocket => perSocket[s]);
    }

    lemma {:induction false} CoresOfBelow(s: int, n: nat)
      ensures Distinct(CoresOf(s, n)) && forall x :: x in CoresOf(s, n) ==> x < n
    {
      hide Touches;
      if n == 0 {
      } else {
        CoresOfBelow(s, n - 1);
        var r := CoresOf(s, n - 1);
        assert forall i :: 0 <= i < |r| ==> r[i] in r;
        assert CoresOf(s, n) == if Touches(n - 1, s) then r + [n - 1] else r;
      }
    }

    lemma {:induction false} CoresOfMembers(s: int, n: nat, c: int)
      ensures c in CoresOf(s, n) <==> 0 <= c < n && Touches(c, s)
    {
      hide Touches;
      if n == 0 {
      } else {
        CoresOfMembers(s, n - 1, c);
        CoresOfBelow(s, n - 1);
        if Touches(n - 1, s) {
          assert CoresOf(s, n) == CoresOf(s, n - 1) + [n - 1];
        } else {
          assert CoresOf(s, n) == CoresOf(s, n - 1);
        }
      }
    }

    lemma CoresLead()
      requires CoresIndexed(coreToSocket, coresPerSocket, |core|)
      ensures Leads(CoreFamily(), coreToSocket)
    {
      forall c, s ensures Times(Lookup(coreToSocket, c), s) == Times(CoresOf(s, |core|), c) {
        CoresOfMembers(s, |core|, c);
        CoresOfBelow(s, |core|);
        DistinctTimes(CoresOf(s, |core|), c);
        if 0 <= c < |core| {
          DistinctTimes(coreToSocket[c], s);
        }
      }
    }

    /** The ids that belong to socket s, in their order. */
    ghost function OfSocket(ids: seq<int>, s: int): seq<int> {
      if ids == [] then []
      else
        var k := |ids| - 1;
        OfSocket(ids[..k], s) + if DomainAssigned(ids[k], s) then [ids[k]] else []
    }

    /** The ids are split by socket: each list has those of its socket, and no list is empty. */
    ghost predicate BySocket(ids: seq<int>, lists: map<int, seq<int>>) {
      && (forall s :: Lookup(lists, s) == OfSocket(ids, s))
      && (forall s :: s in lists ==> lists[s] != [])
    }

    lemma BySocketStep(ids: seq<int>, lists: map<int, seq<int>>, d: int, s: int)
      requires BySocket(ids, lists) && DomainAssigned(d, s)
      ensures BySocket(ids + [d], Append(lists, s, d))
    {
      assert (ids + [d])[..|ids|] == ids;
      assert forall t :: DomainAssigned(d, t) ==> t == s;
    }

    /** The listed cores have every thread of the sockets found. */
    ghost predicate HaveThreads(cores: seq<int>, sockets: seq<int>) {
      forall s, h :: s in sockets && Holds(s, h) ==> exists c :: c in cores && h in Group(core, c)
    }

    ghost predicate InSomeCore(h: int) { exists c :: h in Group(core, c) }

    /** Every thread of a socket that has a core is in some core. */
    ghost predicate ThreadsInCores() {
      forall s, h, c :: Holds(s, h) && Touches(c, s) ==> InSomeCore(h)
    }

    /** Core b touches no sockets but those in ss. */
    ghost predicate Within(b: int, ss: set<int>) {
      forall t :: Touches(b, t) ==> t in ss
    }

    ghost predicate InOtherCore(h: int, c: int, ss: set<int>) {
      exists b :: b != c && h in Group(core, b) && Within(b, ss)
    }

    /** Core c touches one of the sockets ss, but other cores, which touch no further sockets, have all their threads. */
    ghost predicate Spare(c: int, ss: set<int>) {
      && (exists s :: s in ss && Touches(c, s))
      && (forall s, h :: s in ss && Holds(s, h) ==> InOtherCore(h, c, ss))
    }

    ghost predicate NoSpareCore() {
      forall c, ss :: !Spare(c, ss)
    }

    /** Cores that are said to have the sockets found have all their threads, in every query about different cores. */
    ghost predicate ExclusiveHolds() {
      forall cores, sockets :: Selection(CoreFamily(), cores, sockets, true) && Distinct(cores) ==> HaveThreads(cores, sockets)
    }

    /** Cores that have all threads of the sockets found are said to have them, in every query about different cores. */
    ghost predicate HeldIsExclusive() {
      forall cores, sockets :: Selection(CoreFamily(), cores, sockets, false) && Distinct(cores) ==> !HaveThreads(cores, sockets)
    }

    /** Membership in the family of cores. */
    lemma FamilyMembers(s: int, c: int)
      ensures c in CoreFamily()(s) <==> Touches(c, s)
      ensures Touches(c, s) ==> 0 <= c < |core| && 0 <= s < |socket|
    {
      CoresOfMembers(s, |core|, c);
    }

    /** The sockets that cores touch. */
    ghost predicate TouchedBy(sockets: seq<int>, cores: seq<int>) {
      forall s :: s in sockets <==> exists c :: c in cores && Touches(c, s)
    }

    /** Every query about different cores has an answer, and its flag says whether they include all cores of the sockets found. */
    lemma CoresAnswer(cores: seq<int>) returns (sockets: seq<int>)
      requires Distinct(cores)
      ensures TouchedBy(sockets, cores)
      ensures Selection(CoreFamily(), cores, sockets, forall s, c :: s in sockets && Touches(c, s) ==> c in cores)
    {
      hide Touches, CoresOf, CoreFamily, Hits;
      var family := CoreFamily();
      forall s, c ensures (c in family(s) <==> Touches(c, s)) && (Touches(c, s) ==> 0 <= s < |socket|) {
        FamilyMembers(s, c);
      }
      sockets := Touched(family, cores, |socket|);
      var exclusive := forall g :: g in sockets ==> Hits(family(g), cores) == |family(g)|;
      ExclusiveMeansAll(family, cores, sockets, exclusive);
    }

    /** A thread in no core is overlooked: all cores together are said to have its socket. */
    lemma ThreadOverlooked(s: int, h: int, c: int) returns (cores: seq<int>, sockets: seq<int>)
      requires Touches(c, s) && Holds(s, h) && !InSomeCore(h)
      ensures Distinct(cores) && Selection(CoreFamily(), cores, sockets, true) && !HaveThreads(cores, sockets)
    {
      hide Selection, CoreFamily;
      cores := seq(|core|, i => i);
      forall b, t ensures Touches(b, t) ==> b in cores {
        FamilyMembers(t, b);
        assert 0 <= b < |core| ==> cores[b] == b;
      }
      sockets := CoresAnswer(cores);
      assert s in sockets;
    }

    /** That exclusive cores have all threads holds in every query exactly if all threads of sockets with cores are in cores. */
    lemma ExclusiveHoldsExactly()
      ensures ExclusiveHolds() <==> ThreadsInCores()
    {
      hide Selection, CoreFamily, Touches;
      if ThreadsInCores() {
        forall cores, sockets | Selection(CoreFamily(), cores, sockets, true) && Distinct(cores) ensures HaveThreads(cores, sockets) {
          ExclusiveSocketsHeld(cores, sockets);
        }
      } else {
        var s, h, c :| Holds(s, h) && Touches(c, s) && !InSomeCore(h);
        var cores, sockets := ThreadOverlooked(s, h, c);
      }
    }

    lemma ExclusiveSocketsHeld(cores: seq<int>, sockets: seq<int>)
      requires Selection(CoreFamily(), cores, sockets, true) && Distinct(cores) && ThreadsInCores()
      ensures HaveThreads(cores, sockets)
    {
      ExclusiveMeansAll(CoreFamily(), cores, sockets, true);
      forall s, h | s in sockets && Holds(s, h) ensures exists c :: c in cores && h in Group(core, c) {
        var b :| b in cores && b in CoreFamily()(s);
        FamilyMembers(s, b);
        assert InSomeCore(h);
        var c :| h in Group(core, c);
        FamilyMembers(s, c);
        assert c in CoreFamily()(s);
      }
    }

    /** The cores other than c that touch no sockets but ss. */
    ghost function CoresWithin(c: int, ss: set<int>, n: nat): (cores: seq<int>)
      ensures forall b :: b in cores <==> 0 <= b < n && b != c && Within(b, ss)
      ensures Distinct(cores)
    {
      if n == 0 then [] else
        var cores := CoresWithin(c, ss, n - 1);
        assert forall i :: 0 <= i < |cores| ==> cores[i] in cores;
        if n - 1 != c && Within(n - 1, ss) then cores + [n - 1] else cores
    }

    lemma OthersHaveThreads(c: int, ss: set<int>, cores: seq<int>, sockets: seq<int>)
      requires Spare(c, ss) && cores == CoresWithin(c, ss, |core|) && TouchedBy(sockets, cores)
      ensures HaveThreads(cores, sockets)
    {
      forall s, h | s in sockets && Holds(s, h) ensures exists b :: b in cores && h in Group(core, b) {
        hide Spare, Touches, Within;
        var d :| d in cores && Touches(d, s);
        WithinTouches(d, ss, s);
        var b := OtherCore(c, ss, s, h);
        assert b in cores;
      }
    }

    /** A spare core is missed: the other cores have all threads of the sockets they touch, but are not said to have them. */
    lemma CoreMissed(c: int, ss: set<int>) returns (cores: seq<int>, sockets: seq<int>)
      requires Spare(c, ss)
      ensures Distinct(cores) && Selection(CoreFamily(), cores, sockets, false) && HaveThreads(cores, sockets)
    {
      hide Selection, CoreFamily, Spare, Touches, Within, HaveThreads;
      cores := CoresWithin(c, ss, |core|);
      sockets := CoresAnswer(cores);
      OthersHaveThreads(c, ss, cores, sockets);
      var s, h := SpareTouches(c, ss);
      var b := OtherCore(c, ss, s, h);
      assert b in cores && s in sockets && c !in cores;
    }

    lemma WithinTouches(b: int, ss: set<int>, t: int)
      requires Within(b, ss) && Touches(b, t)
      ensures t in ss
    {
    }

    lemma SpareTouches(c: int, ss: set<int>) returns (s: int, h: int)
      requires Spare(c, ss)
      ensures s in ss && Touches(c, s) && Holds(s, h)
    {
      s :| s in ss && Touches(c, s);
      h :| h in Group(core, c) && Holds(s, h);
    }

    lemma OtherCore(c: int, ss: set<int>, s: int, h: int) returns (b: int)
      requires Spare(c, ss) && s in ss && Holds(s, h)
      ensures 0 <= b < |core| && b != c && h in Group(core, b) && Within(b, ss) && Touches(b, s)
    {
      assert InOtherCore(h, c, ss);
      b :| b != c && h in Group(core, b) && Within(b, ss);
    }

    /** That cores with all threads are exclusive holds in every query exactly if no core is spare. */
    lemma HeldIsExclusiveExactly()
      ensures HeldIsExclusive() <==> NoSpareCore()
    {
      hide Selection, CoreFamily, Spare;
      if NoSpareCore() {
        forall cores, sockets | Selection(CoreFamily(), cores, sockets, false) && Distinct(cores) ensures !HaveThreads(cores, sockets) {
          if HaveThreads(cores, sockets) {
            var c, ss := MissedIsSpare(cores, sockets);
          }
        }
      } else {
        var c, ss :| Spare(c, ss);
        var cores, sockets := CoreMissed(c, ss);
      }
    }

    lemma MissedIsSpare(cores: seq<int>, sockets: seq<int>) returns (c: int, ss: set<int>)
      requires Selection(CoreFamily(), cores, sockets, false) && Distinct(cores) && HaveThreads(cores, sockets)
      ensures Spare(c, ss)
    {
      hide CoreFamily, Touches;
      var family := CoreFamily();
      ExclusiveMeansAll(family, cores, sockets, false);
      forall s, b ensures b in family(s) <==> Touches(b, s) {
        FamilyMembers(s, b);
      }
      var s :| s in sockets && exists b :: b in family(s) && b !in cores;
      c :| c in family(s) && c !in cores;
      ss := set t | t in sockets;
      forall b | b in cores ensures Within(b, ss) {
      }
      forall t, h | t in ss && Holds(t, h) ensures InOtherCore(h, c, ss) {
        var b :| b in cores && h in Group(core, b);
      }
    }

    /** For every query about different cores the flag says whether they have all threads of the sockets found. */
    ghost predicate SocketFlagRight() {
      forall cores, sockets, exclusive :: Selection(CoreFamily(), cores, sockets, exclusive) && Distinct(cores) ==>
        (exclusive <==> HaveThreads(cores, sockets))
    }

    /**
     The exclusive flag of GetSocketsFromCores is right for every query about different cores if and
     only if all threads of sockets with cores are in cores, and no core is spare.
     */
    lemma SocketFlagExactly()
      ensures SocketFlagRight() <==> ThreadsInCores() && NoSpareCore()
    {
      hide Selection, CoreFamily, HaveThreads, ThreadsInCores, NoSpareCore;
      ExclusiveHoldsExactly();
      HeldIsExclusiveExactly();
      if SocketFlagRight() {
      } else {
        var cores, sockets, exclusive :| Selection(CoreFamily(), cores, sockets, exclusive) && Distinct(cores) &&
          (exclusive != HaveThreads(cores, sockets));
        assert exclusive ==> !ExclusiveHolds();
        assert !exclusive ==> !HeldIsExclusive();
      }
    }

    // ----- cores in one socket -----

    ghost predicate CoresInOneSocket() {
      forall c, s, t :: Touches(c, s) && Touches(c, t) ==> s == t
    }

    /** A thread of socket s that core c has and no other core. */
    ghost predicate OwnThread(c: int, s: int, h: int) {
      Holds(s, h) && h in Group(core, c) && forall b :: h in Group(core, b) ==> b == c
    }

    /** Every core has a thread of its own in each socket it touches. */
    ghost predicate OwnThreads() {
      forall c, s :: Touches(c, s) ==> exists h :: OwnThread(c, s, h)
    }

    /** If no core is in two sockets, the second condition is that every core has a thread of its own. */
    lemma SpareHasNoThread()
      requires CoresInOneSocket() && ThreadsInCores()
      ensures NoSpareCore() <==> OwnThreads()
    {
      hide Spare, OwnThread, Touches;
      if OwnThreads() {
        forall c, ss ensures !Spare(c, ss) {
          if Spare(c, ss) {
            var s, _ := SpareTouches(c, ss);
            var h :| OwnThread(c, s, h);
            ThreadIsOwn(c, s, h);
            var b := OtherCore(c, ss, s, h);
          }
        }
      } else {
        var c, s :| Touches(c, s) && forall h :: !OwnThread(c, s, h);
        SpareAlone(c, s);
      }
    }

    lemma ThreadIsOwn(c: int, s: int, h: int)
      requires OwnThread(c, s, h)
      ensures Holds(s, h) && forall b :: h in Group(core, b) ==> b == c
    {
    }

    lemma SpareAlone(c: int, s: int)
      requires CoresInOneSocket() && ThreadsInCores() && Touches(c, s) && forall h :: !OwnThread(c, s, h)
      ensures Spare(c, {s})
    {
      forall h | Holds(s, h) ensures InOtherCore(h, c, {s}) {
        assert InSomeCore(h);
        var b :| h in Group(core, b);
        if b == c {
          assert !OwnThread(c, s, h);
          b :| h in Group(core, b) && b != c;
        }
        assert Touches(b, s);
        assert Within(b, {s});
      }
      assert s in {s};
    }

    /** The flag is wrong for thread 1 of socket 0 in no core, and for two cores that share the only thread. */
    lemma SocketFlagWrong()
      requires (socket == [[0, 1]] && core == [[0]]) || (socket == [[0]] && core == [[0], [0]])
      ensures !SocketFlagRight()
    {
      hide Selection, CoreFamily, HaveThreads, CoresOf;
      SocketFlagExactly();
      assert 0 in Group(core, 0) && Holds(0, 0) && Touches(0, 0);
      if |core| == 1 {
        assert Holds(0, 1) && !InSomeCore(1);
      } else {
        assert 0 in Group(core, 1);
        SpareHasNoThread();
      }
    }

    /** Grouping by socket neither loses nor repeats an id: all its occurrences are in the list of its socket and in no other. */
    lemma {:induction false} OfSocketTimes(ids: seq<int>, s: int, d: int)
      ensures Times(OfSocket(ids, s), d) == if DomainAssigned(d, s) then Times(ids, d) else 0
    {
      hide DomainAssigned;
      if ids == [] {
      } else {
        var k := |ids| - 1;
        OfSocketTimes(ids[..k], s, d);
        assert ids == ids[..k] + [ids[k]];
        TimesPush(ids[..k], ids[k], d);
        TimesPush(OfSocket(ids[..k], s), ids[k], d);
        assert OfSocket(ids[..k], s) + [] == OfSocket(ids[..k], s);
      }
    }

    lemma DomainSocketUnique(d: int, s: int, t: int)
      requires DomainAssigned(d, s) && DomainAssigned(d, t)
      ensures s == t
    {
    }

    /** No id is in the lists of two sockets. */
    lemma InOneList(ids: seq<int>, lists: map<int, seq<int>>, d: int, s: int, t: int)
      requires BySocket(ids, lists) && d in Lookup(lists, s) && d in Lookup(lists, t)
      ensures s == t
    {
      OfSocketTimes(ids, s, d);
      OfSocketTimes(ids, t, d);
      DomainSocketUnique(d, s, t);
    }

    ghost predicate Assigned(d: int) {
      exists s :: DomainAssigned(d, s)
    }

    lemma DomainLookup(d: int)
      requires Consistent()
      ensures d in memoryDomainToSocket <==> ready && Assigned(d)
      ensures d in memoryDomainToSocket ==> DomainAssigned(d, memoryDomainToSocket[d])
      ensures Assigned(d) ==> 0 <= d < |memoryDomain| && |memoryDomain[d]| > 0
    {
      hide Inverse, CoresIndexed;
    }

    method GetMemoryDomainsBySocket(domainIDs: seq<int>) returns (ok: bool, socketToDomains: map<int, seq<int>>)
      requires Consistent()
      ensures ok <==> forall d :: d in domainIDs ==> ready && Assigned(d)
      ensures ok ==> BySocket(domainIDs, socketToDomains)
    {
      hide Consistent, Assigned, DomainAssigned, Append, BySocket;
      socketToDomains := map[];
      BySocketStart();
      for i := 0 to |domainIDs|
        invariant forall d :: d in domainIDs[..i] ==> ready && Assigned(d)
        invariant BySocket(domainIDs[..i], socketToDomains)
      {
        var d := domainIDs[i];
        DomainLookup(d);
        assert d in domainIDs;
        if d < 0 || d >= |memoryDomain| || |memoryDomain[d]| == 0 {
          return false, socketToDomains;
        }
        if d !in memoryDomainToSocket {
          return false, socketToDomains;
        }
        var s := memoryDomainToSocket[d];
        BySocketStep(domainIDs[..i], socketToDomains, d, s);
        assert domainIDs[..i + 1] == domainIDs[..i] + [d];
        socketToDomains := Append(socketToDomains, s, d);
      }
      assert domainIDs[..|domainIDs|] == domainIDs;
      ok := true;
    }

    lemma BySocketStart()
      ensures BySocket([], map[])
    {
    }
  }

  lemma InRange(groups: seq<seq<int>>, family: int -> seq<int>, ids: seq<int>, counts: map<int, int>)
    requires family == Family(groups) || family == NOTHING
    requires Counted(family, ids, counts) && AllCounted(counts)
    ensures forall g :: g in counts ==> 0 <= g < |groups| && family(g) == groups[g]
  {
    forall g | g in counts ensures 0 <= g < |groups| && family(g) == groups[g] {
      HitsSome(family(g), ids);
      assert Hits(family(g), ids) == counts[g];
    }
  }

  /** Every query has an answer: the groups below n that ids touch. */
  lemma {:induction false} Touched(family: int -> seq<int>, ids: seq<int>, n: nat) returns (found: seq<int>)
    ensures Distinct(found) && forall g :: g in found <==> 0 <= g < n && exists h :: h in ids && h in family(g)
  {
    if n == 0 {
      found := [];
    } else {
      var r := Touched(family, ids, n - 1);
      assert forall i :: 0 <= i < |r| ==> r[i] in r;
      found := if exists h :: h in ids && h in family(n - 1) then r + [n - 1] else r;
    }
  }

  /** Before the tables are built every query finds nothing and says that it is exclusive. */
  lemma NothingFound(ids: seq<int>, found: seq<int>, exclusive: bool)
    requires Selection(NOTHING, ids, found, exclusive)
    ensures found == [] && exclusive
  {
    HeadIn(found);
    forall g ensures g !in found {
      assert NOTHING(g) == [];
    }
  }

  /** What a query answers before the tables are built is right exactly if the ids are in no group. */
  lemma UnbuiltRightExactly(groups: seq<seq<int>>, ids: seq<int>, found: seq<int>, exclusive: bool)
    requires Selection(NOTHING, ids, found, exclusive)
    ensures Selection(Family(groups), ids, found, exclusive) <==> forall h, g :: h in ids ==> h !in Group(groups, g)
  {
    NothingFound(ids, found, exclusive);
    forall g ensures Family(groups)(g) == Group(groups, g) {
    }
  }
}
