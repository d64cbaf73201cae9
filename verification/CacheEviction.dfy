/**
 What the eviction loop at the end of a computing Get throws out.
 */
module CacheEviction {
  import opened CacheState

  /** The memory that disposing of everything disposable in q gives back. */
  ghost function Freed<R>(objs: map<R, Entry>, q: seq<R>, now: int): int
    requires forall r :: r in q ==> r in objs
  {
    if q == [] then 0
    else
      var last := q[|q| - 1];
      Freed(objs, q[..|q| - 1], now) + if Disposable(objs[last], now) then objs[last].size else 0
  }

  ghost predicate NonNegative<R>(s: State<R>) {
    forall r :: r in s.order ==> r in s.objs && s.objs[r].size >= 0
  }

  /**
   Of the list up to position i: the k-th entry is disposable, and disposing
   of everything between it and position i is not enough to meet the limit.
   */
  ghost predicate Victim<R>(s: State<R>, k: int, i: int, now: int)
    requires 0 <= k <= i < |s.order| && forall r :: r in s.order ==> r in s.objs
  {
    && Disposable(s.objs[s.order[k]], now)
    && s.used - Freed(s.objs, s.order[k+1..i+1], now) > s.max
  }

  ghost function Victims<R>(s: State<R>, i: int, now: int): set<R>
    requires -1 <= i < |s.order| && forall r :: r in s.order ==> r in s.objs
  {
    set k | 0 <= k <= i && Victim(s, k, i, now) :: s.order[k]
  }

  lemma {:induction false} FreedNonNegative<R>(objs: map<R, Entry>, q: seq<R>, now: int)
    requires forall r :: r in q ==> r in objs && objs[r].size >= 0
    ensures Freed(objs, q, now) >= 0
  {
    if q == [] {
    } else {
      FreedNonNegative(objs, q[..|q| - 1], now);
    }
  }

  /** Stepping the walk from position i to i - 1. */
  lemma VictimStep<R>(s: State<R>, t: State<R>, i: int, now: int)
    requires 0 <= i < |s.order| && i <= |t.order| && s.order[..i] == t.order[..i]
    requires s.objs == t.objs && s.max == t.max && s.used > s.max
    requires forall r :: r in s.order ==> r in s.objs
    requires forall r :: r in t.order ==> r in s.objs
    requires t.used == s.used - if Disposable(s.objs[s.order[i]], now) then s.objs[s.order[i]].size else 0
    ensures Victims(s, i, now) == Victims(t, i - 1, now) + if Disposable(s.objs[s.order[i]], now) then {s.order[i]} else {}
  {
    assert s.order[i+1..i+1] == [];
    forall k | 0 <= k < i ensures s.order[k] == t.order[k] && Victim(s, k, i, now) == Victim(t, k, i - 1, now) {
      assert s.order[k] == s.order[..i][k] && t.order[k] == t.order[..i][k];
      assert s.order[k+1..i+1][..i - k - 1] == s.order[..i][k+1..] == t.order[..i][k+1..] == t.order[k+1..i];
      assert s.order[k+1..i+1][i - k - 1] == s.order[i];
    }
    assert Victim(s, i, i, now) == Disposable(s.objs[s.order[i]], now);
  }

  /** One round of the loop that evicts. */
  lemma EvictStep<R>(s: State<R>, i: int, now: int)
    requires Inv(s) && NonNegative(s) && 0 <= i < |s.order| && s.used > s.max
    requires Disposable(s.objs[s.order[i]], now)
    ensures var t := Evict(s, s.order[i]);
      && Inv(t) && NonNegative(t) && t == EvictAll(s, {s.order[i]})
      && t.order == s.order[..i] + s.order[i+1..]
      && Victims(s, i, now) == {s.order[i]} + Victims(t, i - 1, now)
  {
    EvictIsEvictAll(s, s.order[i]);
    EvictAllInv(s, {s.order[i]});
    DropAt(s.order, i);
    VictimStep(s, Evict(s, s.order[i]), i, now);
  }

  /** Victims are listed and nobody waits for them. */
  lemma VictimsListed<R>(s: State<R>, i: int, now: int)
    requires -1 <= i < |s.order| && forall r :: r in s.order ==> r in s.objs
    ensures forall r :: r in Victims(s, i, now) ==> r in s.order && Evictable(s, r)
  {
  }

  /** The loop evicts exactly the victims. */
  lemma {:induction false} TrimEvictsVictims<R>(s: State<R>, i: int, now: int)
    requires Inv(s) && NonNegative(s) && -1 <= i < |s.order|
    ensures Trim(s, i, now) == EvictAll(s, Victims(s, i, now))
    decreases i + 1
  {
    if i < 0 || s.used <= s.max {
      forall k | 0 <= k <= i ensures !Victim(s, k, i, now) {
        FreedNonNegative(s.objs, s.order[k+1..i+1], now);
      }
      assert Victims(s, i, now) == {};
      EvictNothing(s);
    } else {
      var r := s.order[i];
      if Disposable(s.objs[r], now) {
        var t := Evict(s, r);
        EvictStep(s, i, now);
        TrimEvictsVictims(t, i - 1, now);
        VictimsListed(s, i, now);
        EvictAllTwice(s, {r}, Victims(t, i - 1, now));
      } else {
        VictimStep(s, s, i, now);
        assert Victims(s, i, now) == Victims(s, i - 1, now);
        TrimEvictsVictims(s, i - 1, now);
      }
    }
  }

  lemma EvictNothing<R>(s: State<R>)
    requires Inv(s)
    ensures EvictAll(s, {}) == s
  {
    DropNone(s.order, {});
    assert (map k | k in s.entries && s.entries[k] !in {} :: s.entries[k]) == s.entries;
  }

  /** What one round of the loop leaves to the rounds after it. */
  ghost function Round<R>(s: State<R>, i: int, now: int): State<R>
    requires Inv(s) && 0 <= i < |s.order|
  {
    if Disposable(s.objs[s.order[i]], now) then Evict(s, s.order[i]) else s
  }

  lemma RoundFacts<R>(s: State<R>, i: int, now: int)
    requires Inv(s) && 0 <= i < |s.order|
    ensures var t := Round(s, i, now);
      && Inv(t) && t.objs == s.objs && t.max == s.max && i <= |t.order|
      && (forall r :: r in t.order ==> r in s.order)
      && (forall r :: r in s.objs && s.objs[r].waiting > 0 ==> Mapped(t, r))
      && (s.used > s.max ==> Trim(s, i, now) == Trim(t, i - 1, now))
      && (Disposable(s.objs[s.order[i]], now) ==> t.order == s.order[..i] + s.order[i+1..])
      && (forall r :: r in t.order ==> r in s.objs)
  {
    EvictInv(s, s.order[i]);
    DropAt(s.order, i);
  }

  lemma TrimDone<R>(s: State<R>, i: int, now: int)
    requires i < |s.order| && (forall r :: r in s.order ==> r in s.objs) && (i < 0 || s.used <= s.max)
    ensures Trim(s, i, now) == s
  {
  }

  /** The loop never breaks the cache, whatever the sizes. */
  lemma {:induction false} TrimInv<R>(s: State<R>, i: int, now: int)
    requires Inv(s) && i < |s.order|
    ensures Inv(Trim(s, i, now)) && Trim(s, i, now).objs == s.objs && Trim(s, i, now).max == s.max
    ensures forall r :: r in s.objs && s.objs[r].waiting > 0 ==> Mapped(Trim(s, i, now), r)
    ensures forall r :: r in Trim(s, i, now).order ==> r in s.order
    decreases i + 1
  {
    if i < 0 || s.used <= s.max {
    } else {
      RoundFacts(s, i, now);
      TrimInv(Round(s, i, now), i - 1, now);
      hide Inv, Trim, Round;
    }
  }

  lemma TrimmedOrder<R>(s: State<R>, now: int)
    requires Inv(s) && NonNegative(s)
    ensures (forall r :: r in s.order ==> r in s.objs)
    ensures TrimAll(s, now).order == Drop(s.order, Victims(s, |s.order| - 1, now))
  {
    Listed(s);
    TrimEvictsVictims(s, |s.order| - 1, now);
    hide Inv, Trim, Victims;
  }

  /** An entry goes exactly when the disposable entries used less recently do not free enough. */
  lemma EvictedExactly<R>(s: State<R>, now: int, k: nat)
    requires Inv(s) && NonNegative(s) && k < |s.order|
    ensures s.order[k] !in TrimAll(s, now).order <==> Victim(s, k, |s.order| - 1, now)
  {
    hide Inv, Victim, Victims, Trim, TrimAll, Drop, NonNegative, NoDup;
    Listed(s);
    TrimmedOrder(s, now);
    VictimMember(s, k, |s.order| - 1, now);
    DropMember(s.order, Victims(s, |s.order| - 1, now));
  }

  /**
   The eviction policy, for any state a computing Get can leave behind: if no
   size is negative, an entry goes exactly when it is disposable and the
   disposable entries used less recently do not free enough; what stays keeps
   its recency order; nothing goes if the limit was met, and never an entry with waiters or one of
   size 0 that is not past its time; afterwards the limit is met or nothing that is left could go.
   */
  lemma EvictionPolicy<R>(s: State<R>, now: int)
    requires Inv(s)
    ensures Inv(TrimAll(s, now))
    ensures NonNegative(s) ==> forall k :: 0 <= k < |s.order| ==>
      (s.order[k] !in TrimAll(s, now).order <==> Victim(s, k, |s.order| - 1, now))
    ensures exists d :: TrimAll(s, now).order == Drop(s.order, d)
    ensures s.used <= s.max ==> TrimAll(s, now) == s
    ensures forall r :: r in s.order && r !in TrimAll(s, now).order ==>
      r in s.objs && s.objs[r].waiting == 0 && (s.objs[r].size > 0 || now > s.objs[r].expiration)
    ensures TrimAll(s, now).used <= s.max || forall r :: r in TrimAll(s, now).order ==> r in s.objs && !Disposable(s.objs[r], now)
  {
    hide Victim, Drop, Trim;
    forall k | NonNegative(s) && 0 <= k < |s.order|
      ensures s.order[k] !in TrimAll(s, now).order <==> Victim(s, k, |s.order| - 1, now)
    {
      EvictedExactly(s, now, k);
    }
    var d := TrimKeepsOrder(s, |s.order| - 1, now);
    DropMember(s.order, d);
    Listed(s);
    if s.used <= s.max { TrimDone(s, |s.order| - 1, now); }
    TrimInv(s, |s.order| - 1, now);
    TrimLimit(s, |s.order| - 1, now);
  }

  /** What the loop leaves keeps its order. */
  lemma {:induction false} TrimKeepsOrder<R>(s: State<R>, i: int, now: int) returns (d: set<R>)
    requires Inv(s) && -1 <= i < |s.order|
    ensures (forall r :: r in s.order ==> r in s.objs) && Trim(s, i, now).order == Drop(s.order, d)
    ensures forall r :: r in d ==> r in s.objs && Disposable(s.objs[r], now)
    decreases i + 1
  {
    hide Inv, Drop, Disposable;
    Listed(s);
    if i < 0 || s.used <= s.max {
      d := {};
      DropNone(s.order, d);
    } else {
      RoundFacts(s, i, now);
      var e := TrimKeepsOrder(Round(s, i, now), i - 1, now);
      d := if Disposable(s.objs[s.order[i]], now) then {s.order[i]} + e else e;
      DropTwice(s.order, {s.order[i]}, e);
    }
  }

  lemma VictimMember<R>(s: State<R>, k: int, i: int, now: int)
    requires NoDup(s.order) && 0 <= k <= i < |s.order| && forall r :: r in s.order ==> r in s.objs
    ensures s.order[k] in Victims(s, i, now) <==> Victim(s, k, i, now)
  {
  }

  lemma RoundRefused<R>(s: State<R>, i: int, now: int)
    requires Inv(s) && 0 <= i < |s.order|
    requires forall k :: i < k < |s.order| ==> !Disposable(s.objs[s.order[k]], now)
    ensures var t := Round(s, i, now);
      (forall r :: r in t.order ==> r in t.objs) && forall k :: i - 1 < k < |t.order| ==> !Disposable(t.objs[t.order[k]], now)
  {
    hide Inv, Trim, Drop, NoDup, Evict;
    Listed(s);
    RoundFacts(s, i, now);
    if Disposable(s.objs[s.order[i]], now) {
      var t := Round(s, i, now);
      forall k | i - 1 < k < |t.order| ensures !Disposable(t.objs[t.order[k]], now) {
        assert t.order[k] == s.order[k + 1];
      }
    }
  }

  /** When the walk ends over the limit, it refused everything it left. */
  lemma {:induction false} TrimLimit<R>(s: State<R>, i: int, now: int)
    requires Inv(s) && -1 <= i < |s.order|
    requires s.used > s.max ==> forall k :: i < k < |s.order| ==> !Disposable(s.objs[s.order[k]], now)
    ensures var t := Trim(s, i, now);
      t.used <= t.max || forall r :: r in t.order ==> r in s.objs && !Disposable(s.objs[r], now)
    decreases i + 1
  {
    if i < 0 || s.used <= s.max {
    } else {
      RoundFacts(s, i, now);
      var t := Round(s, i, now);
      RoundRefused(s, i, now);
      hide Inv, Round, Trim, Disposable;
      TrimLimit(t, i - 1, now);
    }
  }

  /** No survivor that could have gone was used less recently than an evicted entry. */
  lemma LeastRecentFirst<R>(s: State<R>, now: int, i: nat, j: nat)
    requires Inv(s) && NonNegative(s) && i < j < |s.order|
    requires s.order[i] !in TrimAll(s, now).order
    requires Disposable(s.objs[s.order[j]], now)
    ensures s.order[j] !in TrimAll(s, now).order
  {
    hide Inv, Trim, TrimAll, Drop, NoDup, Disposable;
    Listed(s);
    EvictedExactly(s, now, i);
    EvictedExactly(s, now, j);
    FreedSuffix(s.objs, s.order[i+1..], j - i, now);
    assert s.order[i+1..][j - i..] == s.order[j+1..];
    assert s.order[i+1..|s.order|] == s.order[i+1..] && s.order[j+1..|s.order|] == s.order[j+1..];
  }

  lemma {:induction false} FreedSuffix<R>(objs: map<R, Entry>, q: seq<R>, n: nat, now: int)
    requires n <= |q| && forall r :: r in q ==> r in objs && objs[r].size >= 0
    ensures Freed(objs, q[n..], now) <= Freed(objs, q, now)
  {
    if n == |q| {
      FreedNonNegative(objs, q, now);
    } else {
      FreedSuffix(objs, q[..|q| - 1], n, now);
      assert q[n..][..|q[n..]| - 1] == q[..|q| - 1][n..];
    }
  }

  // ----- Keys -----

  /** What Keys has evicted when the keys in todo are still to be visited. */
  ghost function Swept<R>(s: State<R>, now: int, todo: set<string>): set<R>
    requires Inv(s)
  {
    set r | r in s.order && s.objs[r].key !in todo && s.objs[r].Expired(now) && Evictable(s, r)
  }

  /** size adds up the listed entries that are not pending. */
  ghost predicate Counts<R>(s: State<R>, pending: set<R>, size: int)
    requires Inv(s)
  {
    DropMember(s.order, pending);
    size == Sum(s.objs, Drop(s.order, pending))
  }

  lemma SweepStart<R>(s: State<R>, now: int, refs: set<R>)
    requires Inv(s) && forall r :: r in s.order ==> r in refs
    ensures EvictAll(s, Swept(s, now, s.entries.Keys)) == s && Counts(s, refs, 0)
  {
    assert forall r :: r in s.order ==> Mapped(s, r);
    assert Swept(s, now, s.entries.Keys) == {};
    EvictNothing(s);
    DropAll(s.order, refs);
  }

  lemma SweepEnd<R>(s: State<R>, now: int)
    requires Inv(s)
    ensures EvictAll(s, Swept(s, now, {})) == Sweep(s, now)
  {
    assert Swept(s, now, {}) == set r | r in s.order && s.objs[r].Expired(now) && Evictable(s, r);
  }

  lemma CountsEnd<R>(s: State<R>, size: int)
    requires Inv(s) && Counts(s, {}, size)
    ensures size == s.used
  {
    DropNone(s.order, {});
  }

  /** Visiting an entry that goes. */
  lemma SweepEvict<R>(s: State<R>, now: int, todo: set<string>, key: string)
    requires Inv(s) && key in todo && key in s.entries
    requires s.objs[s.entries[key]].Expired(now) && Evictable(s, s.entries[key])
    ensures var t := EvictAll(s, Swept(s, now, todo));
      Inv(t) && s.entries[key] in t.order && Evict(t, s.entries[key]) == EvictAll(s, Swept(s, now, todo - {key}))
  {
    var r := s.entries[key];
    var d := Swept(s, now, todo);
    CompleteListed(s, r);
    EvictAllInv(s, d);
    DropMember(s.order, d);
    SweptMore(s, now, todo, key);
    EvictAllTwice(s, d, {r});
    EvictIsEvictAll(EvictAll(s, d), r);
  }

  lemma SweptMore<R>(s: State<R>, now: int, todo: set<string>, key: string)
    requires Inv(s) && key in todo && key in s.entries
    ensures var r := s.entries[key];
      if s.objs[r].Expired(now) && Evictable(s, r) then Swept(s, now, todo - {key}) == Swept(s, now, todo) + {r}
      else Swept(s, now, todo - {key}) == Swept(s, now, todo)
  {
    CompleteListed(s, s.entries[key]);
  }

  lemma CountEvict<R>(s: State<R>, pending: set<R>, r: R, size: int)
    requires Inv(s) && r in s.order && Evictable(s, r) && r in pending && Counts(s, pending, size)
    ensures Inv(Evict(s, r)) && Counts(Evict(s, r), pending - {r}, size)
  {
    EvictInv(s, r);
    Listed(s);
    EvictedSum(s, pending, r);
    hide Inv, Sum, Drop;
  }

  /** Evicting a pending entry leaves the listed entries that are not pending. */
  lemma EvictedSum<R>(s: State<R>, pending: set<R>, r: R)
    requires Inv(s) && r in s.objs && r in s.order && Evictable(s, r) && r in pending
    ensures (forall x :: x in s.order ==> x in s.objs) && (forall x :: x in Drop(s.order, pending) ==> x in s.objs)
    ensures Drop(Evict(s, r).order, pending - {r}) == Drop(s.order, pending)
  {
    Listed(s);
    hide Inv, Sum, NoDup;
    DropMember(s.order, pending);
    DropTwice(s.order, {r}, pending - {r});
    assert {r} + (pending - {r}) == pending;
  }

  /** An entry in the map is listed, or counts nothing. */
  lemma MappedSize<R>(s: State<R>, r: R)
    requires Inv(s) && r in s.objs && Mapped(s, r)
    ensures NoDup(s.order) && (forall x :: x in s.order ==> x in s.objs)
    ensures r !in s.order ==> s.objs[r].size == 0
  {
    CompleteListed(s, r);
  }

  /** With r no longer pending, its size counts. */
  lemma SumKeep<R>(objs: map<R, Entry>, order: seq<R>, pending: set<R>, r: R)
    requires NoDup(order) && (forall x :: x in order ==> x in objs) && r in objs && r in pending
    requires r !in order ==> objs[r].size == 0
    ensures (forall x :: x in Drop(order, pending) ==> x in objs) && forall x :: x in Drop(order, pending - {r}) ==> x in objs
    ensures Sum(objs, Drop(order, pending - {r})) == Sum(objs, Drop(order, pending)) + objs[r].size
  {
    hide Drop, Sum, NoDup;
    var q := Drop(order, pending - {r});
    DropMember(order, pending);
    DropMember(order, pending - {r});
    DropNoDup(order, pending - {r});
    DropTwice(order, pending - {r}, {r});
    assert (pending - {r}) + {r} == pending;
    if r in order {
      SumDrop(objs, q, r);
    } else {
      DropNone(q, {r});
    }
  }

  lemma CountKeep<R>(s: State<R>, pending: set<R>, r: R, size: int)
    requires Inv(s) && r in s.objs && Mapped(s, r) && r in pending && Counts(s, pending, size)
    ensures Counts(s, pending - {r}, size + s.objs[r].size)
  {
    hide Inv, Drop, Sum, NoDup, Mapped;
    MappedSize(s, r);
    SumKeep(s.objs, s.order, pending, r);
  }

  /** The entries that keys map to. */
  ghost function Refs<R>(s: State<R>, keys: set<string>): set<R> {
    set k | k in keys && k in s.entries :: s.entries[k]
  }

  lemma RefsMinus<R>(s: State<R>, keys: set<string>, key: string)
    requires Inv(s) && key in keys && key in s.entries
    ensures Refs(s, keys) - {s.entries[key]} == Refs(s, keys - {key}) && s.entries[key] in Refs(s, keys)
  {
  }

  /** Where the walk stands: what it evicted, what it has counted, what is to come. */
  ghost predicate Walking<R>(s: State<R>, t: State<R>, now: int, todo: set<string>, size: int) {
    && Inv(s) && Inv(t) && todo <= s.entries.Keys
    && t == EvictAll(s, Swept(s, now, todo))
    && Counts(t, Refs(s, todo), size)
  }

  lemma WalkStart<R>(s: State<R>, now: int)
    requires Inv(s)
    ensures Walking(s, s, now, s.entries.Keys, 0)
  {
    forall r | r in s.order ensures r in Refs(s, s.entries.Keys) {
      assert s.entries[s.objs[r].key] == r;
    }
    SweepStart(s, now, Refs(s, s.entries.Keys));
  }

  /** Keys still to come have not been evicted. */
  lemma WalkKnown<R>(s: State<R>, t: State<R>, now: int, todo: set<string>, size: int, key: string)
    requires Walking(s, t, now, todo, size) && key in todo
    ensures key in t.entries && t.entries[key] == s.entries[key] && t.objs == s.objs
    ensures s.entries[key] in s.objs && Mapped(t, s.entries[key])
  {
  }

  lemma WalkEvict<R>(s: State<R>, t: State<R>, now: int, todo: set<string>, size: int, key: string)
    requires Walking(s, t, now, todo, size) && key in todo
    requires s.entries[key] in s.objs && s.objs[s.entries[key]].Expired(now) && Evictable(s, s.entries[key])
    ensures s.entries[key] in t.objs && Walking(s, Evict(t, s.entries[key]), now, todo - {key}, size)
  {
    hide Inv, Swept, Counts, Refs;
    SweepEvict(s, now, todo, key);
    RefsMinus(s, todo, key);
    CountEvict(t, Refs(s, todo), s.entries[key], size);
  }

  lemma WalkKeep<R>(s: State<R>, t: State<R>, now: int, todo: set<string>, size: int, key: string)
    requires Walking(s, t, now, todo, size) && key in todo
    requires s.entries[key] in s.objs && !(s.objs[s.entries[key]].Expired(now) && Evictable(s, s.entries[key]))
    ensures Walking(s, t, now, todo - {key}, size + s.objs[s.entries[key]].size)
  {
    WalkKnown(s, t, now, todo, size, key);
    hide Inv, Swept, Counts, Refs;
    SweptMore(s, now, todo, key);
    RefsMinus(s, todo, key);
    CountKeep(t, Refs(s, todo), s.entries[key], size);
  }

  lemma WalkEnd<R>(s: State<R>, t: State<R>, now: int, size: int)
    requires Walking(s, t, now, {}, size)
    ensures t == Sweep(s, now) && size == t.used
  {
    SweepEnd(s, now);
    assert Refs(s, {}) == {};
    CountsEnd(t, size);
  }

  /** The walk of Keys takes out exactly the keys of entries past their time that nobody counts on, and leaves the others as they are. */
  lemma SweepExactly<R>(s: State<R>, now: int, key: string)
    requires Inv(s) && key in s.entries
    ensures s.entries[key] in s.objs
    ensures var e := s.objs[s.entries[key]];
            key !in Sweep(s, now).entries <==> now > e.expiration && e.waiting == 0
    ensures key in Sweep(s, now).entries ==> Sweep(s, now).entries[key] == s.entries[key]
    ensures Sweep(s, now).objs == s.objs
  {
    EntryObj(s, key);
    CompleteListed(s, s.entries[key]);
    hide Inv, Drop;
  }

  /** Del succeeds exactly for a key whose entry nobody counts on; it takes out that key, and gives back its size. */
  lemma DelExactly<R>(s: State<R>, key: string)
    requires Inv(s)
    ensures key in s.entries ==> s.entries[key] in s.objs
    ensures var (t, deleted) := Del(s, key);
            && (deleted <==> key in s.entries && s.objs[s.entries[key]].waiting == 0)
            && t == (if !deleted then s
                     else s.(entries := s.entries - {key}, order := t.order, used := s.used - s.objs[s.entries[key]].size))
            && (deleted ==> t.order == Drop(s.order, {s.entries[key]}))
  {
    if key in s.entries {
      EntryObj(s, key);
    }
    hide Inv, Drop;
  }
}
