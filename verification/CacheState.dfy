/**
 The abstract state of the LRU cache and its critical sections.

 R identifies entry objects: heap references in CacheHeap, plain numbers in
 CacheMachine.  Every function below is one stretch of cache code that runs
 without releasing the cache mutex.
 */
module CacheState {

  /** A cached Go value; only nil and the identity of the value matter. */
  datatype Any = Nil | Of(id: int)

  /** One cacheEntry.  Expiration 0 is Go's zero time: still being computed. */
  datatype Entry = Entry(key: string, value: Any, expiration: int, size: int, waiting: int) {
    predicate InFlight() { expiration == 0 }
    predicate Expired(now: int) { now > expiration }
  }

  datatype State<R(==)> = State(
    objs: map<R, Entry>,      // every entry object allocated so far
    entries: map<string, R>,  // the hash map
    order: seq<R>,            // the linked list, head first
    used: int,
    max: int)

  /** What the caller of Get or Put does after its critical section. */
  datatype Outcome<R> = Hit(value: Any) | Miss | Wait(r: R) | Register | Stored

  // ----- sequences of distinct objects -----

  ghost predicate NoDup<R>(q: seq<R>) {
    forall i, j :: 0 <= i < j < |q| ==> q[i] != q[j]
  }

  /** q without the members of d. */
  ghost function Drop<R>(q: seq<R>, d: set<R>): seq<R> {
    if q == [] then [] else (if q[0] in d then [] else [q[0]]) + Drop(q[1..], d)
  }

  /** The sizes of the objects in q, added up. */
  ghost function Sum<R>(objs: map<R, Entry>, q: seq<R>): int
    requires forall r :: r in q ==> r in objs
  {
    if q == [] then 0 else objs[q[0]].size + Sum(objs, q[1..])
  }

  lemma {:induction false} DropMember<R>(q: seq<R>, d: set<R>)
    ensures forall r :: r in Drop(q, d) ==> r in q && r !in d
    ensures forall r :: r in q && r !in d ==> r in Drop(q, d)
  {
    if q == [] {
    } else {
      DropMember(q[1..], d);
      assert q == [q[0]] + q[1..];
    }
  }

  lemma {:induction false} DropAppend<R>(a: seq<R>, b: seq<R>, d: set<R>)
    ensures Drop(a + b, d) == Drop(a, d) + Drop(b, d)
  {
    if a == [] {
      assert a + b == b;
    } else {
      assert (a + b)[0] == a[0] && (a + b)[1..] == a[1..] + b;
      DropAppend(a[1..], b, d);
    }
  }

  lemma {:induction false} DropNone<R>(q: seq<R>, d: set<R>)
    requires forall r :: r in q ==> r !in d
    ensures Drop(q, d) == q
  {
    if q == [] {
    } else {
      DropNone(q[1..], d);
      assert q == [q[0]] + q[1..];
    }
  }

  lemma {:induction false} DropAll<R>(q: seq<R>, d: set<R>)
    requires forall r :: r in q ==> r in d
    ensures Drop(q, d) == []
  {
    if q == [] {
    } else {
      DropAll(q[1..], d);
    }
  }

  lemma {:induction false} DropTwice<R>(q: seq<R>, d: set<R>, e: set<R>)
    ensures Drop(Drop(q, d), e) == Drop(q, d + e)
  {
    if q == [] {
    } else {
      DropTwice(q[1..], d, e);
      DropAppend(if q[0] in d then [] else [q[0]], Drop(q[1..], d), e);
    }
  }

  lemma {:induction false} DropNoDup<R>(q: seq<R>, d: set<R>)
    requires NoDup(q)
    ensures NoDup(Drop(q, d))
  {
    if q == [] {
    } else {
      DropNoDup(q[1..], d);
      DropMember(q[1..], d);
      assert forall j :: 0 < j < |q| ==> q[j] == q[1..][j - 1];
      assert q[0] !in q[1..];
    }
  }

  /** Removing the i-th object of a list of distinct objects. */
  lemma {:induction false} DropAt<R>(q: seq<R>, i: nat)
    requires NoDup(q) && i < |q|
    ensures Drop(q, {q[i]}) == q[..i] + q[i+1..]
  {
    if i == 0 {
      DropNone(q[1..], {q[0]});
    } else {
      DropAt(q[1..], i - 1);
      assert q[..i] + q[i+1..] == [q[0]] + (q[1..][..i - 1] + q[1..][i..]);
    }
  }

  lemma {:induction false} SumAppend<R>(objs: map<R, Entry>, a: seq<R>, b: seq<R>)
    requires forall r :: r in a + b ==> r in objs
    ensures forall r :: r in a ==> r in a + b
    ensures forall r :: r in b ==> r in a + b
    ensures Sum(objs, a + b) == Sum(objs, a) + Sum(objs, b)
  {
    assert forall r :: r in a ==> r in a + b;
    assert forall r :: r in b ==> r in a + b;
    if a == [] {
      assert a + b == b;
    } else {
      assert (a + b)[0] == a[0] && (a + b)[1..] == a[1..] + b;
      SumAppend(objs, a[1..], b);
    }
  }

  /** The sum reads nothing but the sizes of the objects listed. */
  lemma {:induction false} SumFrame<R>(objs: map<R, Entry>, objs': map<R, Entry>, q: seq<R>)
    requires forall r :: r in q ==> r in objs && r in objs' && objs[r].size == objs'[r].size
    ensures Sum(objs, q) == Sum(objs', q)
  {
    if q == [] {
    } else {
      SumFrame(objs, objs', q[1..]);
    }
  }

  lemma SumDrop<R>(objs: map<R, Entry>, q: seq<R>, r: R)
    requires NoDup(q) && r in q && forall x :: x in q ==> x in objs
    ensures forall x :: x in Drop(q, {r}) ==> x in q
    ensures Sum(objs, Drop(q, {r})) == Sum(objs, q) - objs[r].size
  {
    DropMember(q, {r});
    var i :| 0 <= i < |q| && q[i] == r;
    DropAt(q, i);
    assert q == q[..i] + ([r] + q[i+1..]);
    SumAppend(objs, q[..i], [r] + q[i+1..]);
    SumAppend(objs, [r], q[i+1..]);
    SumAppend(objs, q[..i], q[i+1..]);
    assert [r][1..] == [];
  }

  /** Putting one more object in front. */
  lemma PushFacts<R>(objs: map<R, Entry>, q: seq<R>, r: R)
    requires NoDup(q) && r !in q && r in objs && forall x :: x in q ==> x in objs
    ensures NoDup([r] + q)
    ensures forall x :: x in [r] + q ==> x == r || x in q
    ensures r in [r] + q && forall x :: x in q ==> x in [r] + q
    ensures Sum(objs, [r] + q) == objs[r].size + Sum(objs, q)
  {
    assert ([r] + q)[1..] == q;
    assert ([r] + q)[0] == r;
  }

  /** Taking one object out. */
  lemma DropFacts<R>(objs: map<R, Entry>, q: seq<R>, r: R)
    requires NoDup(q) && r in q && forall x :: x in q ==> x in objs
    ensures NoDup(Drop(q, {r}))
    ensures forall x :: x in Drop(q, {r}) ==> x in q && x != r
    ensures forall x :: x in q && x != r ==> x in Drop(q, {r})
    ensures Sum(objs, Drop(q, {r})) == Sum(objs, q) - objs[r].size
  {
    DropMember(q, {r});
    DropNoDup(q, {r});
    SumDrop(objs, q, r);
  }

  // ----- invariant -----

  /**
   The hash map and the list describe the same set of completed entries, an
   entry in flight is mapped but unlinked with size 0, an entry somebody
   still counts on stays mapped, and used is the sum of the sizes.
   */
  ghost predicate Inv<R>(s: State<R>) { MapInv(s) && CountInv(s) && ListInv(s) && SumInv(s) }

  ghost predicate MapInv<R>(s: State<R>) {
    forall k :: k in s.entries ==> s.entries[k] in s.objs && s.objs[s.entries[k]].key == k
  }

  ghost predicate CountInv<R>(s: State<R>) {
    forall r :: r in s.objs ==>
      && s.objs[r].waiting >= 0
      && (s.objs[r].InFlight() ==> s.objs[r].size == 0 && s.objs[r].waiting > 0)
      && (s.objs[r].waiting > 0 ==> Mapped(s, r))
  }

  ghost predicate ListInv<R>(s: State<R>) {
    && NoDup(s.order)
    && (forall r :: r in s.order ==> r in s.objs && Mapped(s, r) && !s.objs[r].InFlight())
    && (forall r :: r in s.objs && Mapped(s, r) && !s.objs[r].InFlight() ==> r in s.order)
  }

  ghost predicate SumInv<R>(s: State<R>) {
    (forall r :: r in s.order ==> r in s.objs) && s.used == Sum(s.objs, s.order)
  }

  lemma Listed<R>(s: State<R>)
    requires Inv(s)
    ensures NoDup(s.order) && forall r :: r in s.order ==> r in s.objs
  {
  }

  /** A mapped entry that is complete, as one nobody counts on must be, is listed; one in flight is not. */
  lemma CompleteListed<R>(s: State<R>, r: R)
    requires Inv(s) && r in s.objs
    ensures s.objs[r].waiting >= 0 && (s.objs[r].waiting == 0 ==> !s.objs[r].InFlight())
    ensures r in s.order <==> Mapped(s, r) && !s.objs[r].InFlight()
  {
  }

  lemma EntryObj<R>(s: State<R>, key: string)
    requires Inv(s) && key in s.entries
    ensures s.entries[key] in s.objs && s.objs[s.entries[key]].key == key
  {
  }

  lemma Counted<R>(s: State<R>, r: R)
    requires Inv(s) && r in s.objs && s.objs[r].waiting > 0
    ensures Mapped(s, r)
  {
  }

  ghost predicate Mapped<R>(s: State<R>, r: R)
    requires r in s.objs
  {
    s.objs[r].key in s.entries && s.entries[s.objs[r].key] == r
  }

  ghost function Empty<R>(max: int): State<R> { State(map[], map[], [], 0, max) }

  // ----- critical sections -----

  ghost function PushFront<R>(s: State<R>, r: R): State<R> { s.(order := [r] + s.order) }

  ghost function Unlink<R>(s: State<R>, r: R): State<R> { s.(order := Drop(s.order, {r})) }

  ghost predicate Evictable<R>(s: State<R>, r: R) requires r in s.objs { s.objs[r].waiting == 0 }

  /** evictEntry: the new state; the call reports Evictable(s, r). */
  ghost function Evict<R>(s: State<R>, r: R): State<R>
    requires r in s.objs
  {
    if !Evictable(s, r) then s
    else Unlink(s, r).(used := s.used - s.objs[r].size, entries := s.entries - {s.objs[r].key})
  }

  ghost function AddWaiting<R>(s: State<R>, r: R, n: int): State<R>
    requires r in s.objs
  {
    s.(objs := s.objs[r := s.objs[r].(waiting := s.objs[r].waiting + n)])
  }

  /** Get without a usable entry: give up, or go on to Register one. */
  function Absent<R>(canCompute: bool): Outcome<R> {
    if canCompute then Register else Miss
  }

  /** Get puts an entry in flight into the map before it computes the value. */
  ghost function Registered<R>(s: State<R>, key: string, spare: R): State<R> {
    s.(objs := s.objs[spare := Entry(key, Nil, 0, 0, 1)], entries := s.entries[key := spare])
  }

  /** Get once the entry it found is complete. */
  ghost function GetPresent<R>(s: State<R>, r: R, now: int, canCompute: bool): (State<R>, Outcome<R>)
    requires r in s.objs
  {
    if s.objs[r].Expired(now) then
      if Evictable(s, r) then (Evict(s, r), Absent(canCompute))
      else (s, Hit(s.objs[r].value))
    else if s.order != [] && s.order[0] == r then (s, Hit(s.objs[r].value))
    else (PushFront(Unlink(s, r), r), Hit(s.objs[r].value))
  }

  ghost function GetEnter<R>(s: State<R>, key: string, now: int, canCompute: bool): (State<R>, Outcome<R>)
    requires key in s.entries ==> s.entries[key] in s.objs
  {
    if key !in s.entries then (s, Absent(canCompute))
    else
      var r := s.entries[key];
      if s.objs[r].InFlight() then (AddWaiting(s, r, 1), Wait(r))
      else GetPresent(s, r, now, canCompute)
  }

  /** Get after its cond.Wait on r returned: still in flight means waiting again. */
  ghost function GetResume<R>(s: State<R>, r: R, now: int, canCompute: bool): (State<R>, Outcome<R>)
    requires r in s.objs
  {
    if s.objs[r].InFlight() then (s, Wait(r))
    else GetPresent(AddWaiting(s, r, -1), r, now, canCompute)
  }

  /** The eviction loop of Get, at list position i and walking towards the head. */
  ghost function Trim<R>(s: State<R>, i: int, now: int): State<R>
    requires i < |s.order| && forall r :: r in s.order ==> r in s.objs
    decreases i + 1
  {
    if i < 0 || s.used <= s.max then s
    else
      DropMember(s.order, {s.order[i]});
      if Disposable(s.objs[s.order[i]], now) then
        var t := Evict(s, s.order[i]);
        if i - 1 < |t.order| then Trim(t, i - 1, now) else t
      else Trim(s, i - 1, now)
  }

  /** The whole loop, from the tail on. */
  ghost function TrimAll<R>(s: State<R>, now: int): State<R>
    requires forall r :: r in s.order ==> r in s.objs
  {
    Trim(s, |s.order| - 1, now)
  }

  /** What the eviction loop may throw out. */
  predicate Disposable(e: Entry, now: int) {
    (e.size > 0 || e.Expired(now)) && e.waiting == 0
  }

  /** Get after computeValue returned, before the eviction loop. */
  ghost function Complete<R>(s: State<R>, r: R, value: Any, expiration: int, size: int): State<R>
    requires r in s.objs
  {
    var e := s.objs[r];
    State(s.objs[r := Entry(e.key, value, expiration, size, e.waiting - 1)], s.entries, [r] + s.order, s.used + size, s.max)
  }

  ghost function GetFinish<R>(s: State<R>, r: R, value: Any, expiration: int, size: int, now: int): State<R>
    requires r in s.objs && forall x :: x in s.order ==> x in s.objs
  {
    TrimAll(Complete(s, r, value, expiration, size), now)
  }

  /** The field updates of Put on a completed entry. */
  ghost function Overwrite<R>(s: State<R>, r: R, value: Any, expiration: int, size: int): State<R>
    requires r in s.objs
  {
    var e := s.objs[r];
    s.(objs := s.objs[r := e.(value := value, expiration := expiration, size := size)], used := s.used - e.size + size)
  }

  /** Put over a completed entry, which also becomes the most recent one. */
  ghost function PutPresent<R>(s: State<R>, r: R, value: Any, expiration: int, size: int): State<R>
    requires r in s.objs
  {
    PushFront(Unlink(Overwrite(s, r, value, expiration, size), r), r)
  }

  ghost function PutEnter<R>(s: State<R>, key: string, value: Any, expiration: int, size: int): (State<R>, Outcome<R>)
    requires key in s.entries ==> s.entries[key] in s.objs
  {
    if key !in s.entries then (s, Register)
    else
      var r := s.entries[key];
      if s.objs[r].InFlight() then (AddWaiting(s, r, 1), Wait(r))
      else (PutPresent(s, r, value, expiration, size), Stored)
  }

  /** Put of a new key: its size is 0 whatever size the caller passes. */
  ghost function PutNew<R>(s: State<R>, key: string, value: Any, expiration: int, spare: R): State<R> {
    State(s.objs[spare := Entry(key, value, expiration, 0, 0)], s.entries[key := spare], [spare] + s.order, s.used, s.max)
  }

  ghost function PutResume<R>(s: State<R>, r: R, value: Any, expiration: int, size: int): (State<R>, Outcome<R>)
    requires r in s.objs
  {
    if s.objs[r].InFlight() then (s, Wait(r))
    else (PutPresent(AddWaiting(s, r, -1), r, value, expiration, size), Stored)
  }

  ghost function Del<R>(s: State<R>, key: string): (State<R>, bool)
    requires key in s.entries ==> s.entries[key] in s.objs
  {
    if key in s.entries then (Evict(s, s.entries[key]), Evictable(s, s.entries[key])) else (s, false)
  }

  /** Keys: everything expired that nobody waits for goes, in whatever order the map is walked. */
  ghost function Sweep<R>(s: State<R>, now: int): State<R>
    requires Inv(s)
  {
    EvictAll(s, set r | r in s.order && s.objs[r].Expired(now) && Evictable(s, r))
  }

  /** Evicting all of d at once. */
  ghost function EvictAll<R>(s: State<R>, d: set<R>): State<R>
    requires Inv(s)
  {
    DropMember(s.order, d);
    s.(order := Drop(s.order, d),
       entries := map k | k in s.entries && s.entries[k] !in d :: s.entries[k],
       used := Sum(s.objs, Drop(s.order, d)))
  }

  // ----- every critical section keeps the invariant -----

  lemma EvictIsEvictAll<R>(s: State<R>, r: R)
    requires Inv(s) && r in s.order && Evictable(s, r)
    ensures Evict(s, r) == EvictAll(s, {r})
  {
    SumDrop(s.objs, s.order, r);
    assert s.entries - {s.objs[r].key} == map k | k in s.entries && s.entries[k] !in {r} :: s.entries[k];
  }

  lemma EvictAllInv<R>(s: State<R>, d: set<R>)
    requires Inv(s) && forall r :: r in d ==> r in s.order && Evictable(s, r)
    ensures Inv(EvictAll(s, d))
  {
    DropMember(s.order, d);
    DropNoDup(s.order, d);
  }

  lemma EvictAllTwice<R>(s: State<R>, d: set<R>, e: set<R>)
    requires Inv(s) && forall r :: r in d + e ==> r in s.order && Evictable(s, r)
    ensures Inv(EvictAll(s, d)) && EvictAll(EvictAll(s, d), e) == EvictAll(s, d + e)
  {
    EvictAllInv(s, d);
    DropTwice(s.order, d, e);
    FilterTwice(s.entries, d, e);
    hide MapInv, CountInv, ListInv, SumInv;
  }

  lemma FilterTwice<R>(m: map<string, R>, d: set<R>, e: set<R>)
    ensures var n := map k | k in m && m[k] !in d :: m[k];
      (map k | k in n && n[k] !in e :: n[k]) == (map k | k in m && m[k] !in d + e :: m[k])
  {
  }

  /** evictEntry removes nothing that somebody waits for. */
  lemma EvictInv<R>(s: State<R>, r: R)
    requires Inv(s) && r in s.objs && (Mapped(s, r) || !Evictable(s, r))
    ensures Inv(Evict(s, r))
    ensures Evictable(s, r) ==> s.objs[r].key !in Evict(s, r).entries
    ensures forall x :: x in s.objs && s.objs[x].waiting > 0 ==> Mapped(Evict(s, r), x)
  {
    if Evictable(s, r) {
      EvictIsEvictAll(s, r);
      EvictAllInv(s, {r});
    }
  }

  lemma AddWaitingInv<R>(s: State<R>, r: R, n: int)
    requires Inv(s) && r in s.objs && Mapped(s, r)
    requires s.objs[r].waiting + n >= 0 && (s.objs[r].InFlight() ==> s.objs[r].waiting + n > 0)
    ensures Inv(AddWaiting(s, r, n))
  {
    SumFrame(s.objs, AddWaiting(s, r, n).objs, s.order);
  }

  lemma RegisteredInv<R>(s: State<R>, key: string, spare: R)
    requires Inv(s) && key !in s.entries && spare !in s.objs
    ensures Inv(Registered(s, key, spare))
  {
    SumFrame(s.objs, Registered(s, key, spare).objs, s.order);
  }

  /** Moving a listed entry to the front. */
  lemma TouchInv<R>(s: State<R>, r: R)
    requires Inv(s) && r in s.order
    ensures Inv(PushFront(Unlink(s, r), r))
  {
    hide NoDup, Sum, Drop;
    DropFacts(s.objs, s.order, r);
    PushFacts(s.objs, Drop(s.order, {r}), r);
  }

  lemma GetPresentInv<R>(s: State<R>, r: R, now: int, canCompute: bool)
    requires Inv(s) && r in s.order
    ensures var (t, out) := GetPresent(s, r, now, canCompute);
      Inv(t) && (out.Register? || out.Miss? ==> s.objs[r].key !in t.entries)
  {
    EvictInv(s, r);
    TouchInv(s, r);
  }

  lemma GetEnterInv<R>(s: State<R>, key: string, now: int, canCompute: bool)
    requires Inv(s)
    ensures var (t, out) := GetEnter(s, key, now, canCompute);
      Inv(t) && (out.Register? || out.Miss? ==> key !in t.entries)
  {
    if key in s.entries {
      if s.objs[s.entries[key]].InFlight() {
        AddWaitingInv(s, s.entries[key], 1);
      } else {
        GetPresentInv(s, s.entries[key], now, canCompute);
      }
    }
  }

  lemma GetResumeInv<R>(s: State<R>, r: R, now: int, canCompute: bool)
    requires Inv(s) && r in s.objs && s.objs[r].waiting > 0
    ensures var (t, out) := GetResume(s, r, now, canCompute);
      Inv(t) && (out.Register? || out.Miss? ==> s.objs[r].key !in t.entries)
  {
    if !s.objs[r].InFlight() {
      AddWaitingInv(s, r, -1);
      GetPresentInv(AddWaiting(s, r, -1), r, now, canCompute);
    }
  }

  lemma OverwriteSum<R>(s: State<R>, r: R, value: Any, expiration: int, size: int)
    requires Inv(s) && r in s.order
    ensures SumInv(Overwrite(s, r, value, expiration, size))
  {
    var t := Overwrite(s, r, value, expiration, size);
    DropFacts(s.objs, s.order, r);
    SumFrame(s.objs, t.objs, Drop(s.order, {r}));
    DropFacts(t.objs, s.order, r);
    hide MapInv, CountInv, ListInv;
  }

  lemma OverwriteInv<R>(s: State<R>, r: R, value: Any, expiration: int, size: int)
    requires Inv(s) && r in s.order && expiration != 0
    ensures Inv(Overwrite(s, r, value, expiration, size))
  {
    var t := Overwrite(s, r, value, expiration, size);
    OverwriteSum(s, r, value, expiration, size);
    hide NoDup, SumInv;
  }

  lemma PutPresentInv<R>(s: State<R>, r: R, value: Any, expiration: int, size: int)
    requires Inv(s) && r in s.order && expiration != 0
    ensures Inv(PutPresent(s, r, value, expiration, size))
  {
    OverwriteInv(s, r, value, expiration, size);
    TouchInv(Overwrite(s, r, value, expiration, size), r);
  }

  /** A complete entry e enters the list, as a new object or as one that was in flight. */
  ghost function ListedAs<R>(s: State<R>, r: R, e: Entry): State<R> {
    State(s.objs[r := e], s.entries[e.key := r], [r] + s.order, s.used + e.size, s.max)
  }

  ghost predicate MayList<R>(s: State<R>, r: R, e: Entry) {
    && e.expiration != 0 && e.waiting >= 0
    && (if r in s.objs then s.objs[r].InFlight() && s.objs[r].key == e.key else e.key !in s.entries)
  }

  lemma ListedCount<R>(s: State<R>, r: R, e: Entry)
    requires Inv(s) && MayList(s, r, e)
    ensures MapInv(ListedAs(s, r, e)) && CountInv(ListedAs(s, r, e))
  {
  }

  lemma ListedList<R>(s: State<R>, r: R, e: Entry)
    requires Inv(s) && MayList(s, r, e)
    ensures ListInv(ListedAs(s, r, e))
  {
    hide NoDup, Sum, Drop;
    PushFacts(s.objs[r := e], s.order, r);
    hide SumInv;
  }

  lemma ListedSum<R>(s: State<R>, r: R, e: Entry)
    requires Inv(s) && MayList(s, r, e)
    ensures SumInv(ListedAs(s, r, e))
  {
    hide NoDup, Sum, Drop;
    SumFrame(s.objs, s.objs[r := e], s.order);
    PushFacts(s.objs[r := e], s.order, r);
    hide MapInv, CountInv, ListInv;
  }

  lemma ListedInv<R>(s: State<R>, r: R, e: Entry)
    requires Inv(s) && MayList(s, r, e)
    ensures Inv(ListedAs(s, r, e))
  {
    ListedCount(s, r, e);
    ListedList(s, r, e);
    ListedSum(s, r, e);
    hide MapInv, CountInv, ListInv, SumInv;
  }

  lemma PutNewInv<R>(s: State<R>, key: string, value: Any, expiration: int, spare: R)
    requires Inv(s) && key !in s.entries && spare !in s.objs && expiration != 0
    ensures Inv(PutNew(s, key, value, expiration, spare))
  {
    ListedInv(s, spare, Entry(key, value, expiration, 0, 0));
  }

  lemma PutEnterInv<R>(s: State<R>, key: string, value: Any, expiration: int, size: int)
    requires Inv(s) && expiration != 0
    ensures var (t, out) := PutEnter(s, key, value, expiration, size);
      Inv(t) && (out.Register? ==> key !in t.entries)
  {
    if key in s.entries {
      if s.objs[s.entries[key]].InFlight() {
        AddWaitingInv(s, s.entries[key], 1);
      } else {
        PutPresentInv(s, s.entries[key], value, expiration, size);
      }
    }
  }

  lemma PutResumeInv<R>(s: State<R>, r: R, value: Any, expiration: int, size: int)
    requires Inv(s) && r in s.objs && s.objs[r].waiting > 0 && expiration != 0
    ensures Inv(PutResume(s, r, value, expiration, size).0)
  {
    if !s.objs[r].InFlight() {
      AddWaitingInv(s, r, -1);
      PutPresentInv(AddWaiting(s, r, -1), r, value, expiration, size);
    }
  }

  lemma CompleteInv<R>(s: State<R>, r: R, value: Any, expiration: int, size: int)
    requires Inv(s) && r in s.objs && s.objs[r].InFlight() && expiration != 0
    ensures Inv(Complete(s, r, value, expiration, size))
  {
    var e := s.objs[r];
    ListedInv(s, r, Entry(e.key, value, expiration, size, e.waiting - 1));
    assert s.entries[e.key := r] == s.entries;
  }

  lemma SweepInv<R>(s: State<R>, now: int)
    requires Inv(s)
    ensures Inv(Sweep(s, now))
  {
    EvictAllInv(s, set r | r in s.order && s.objs[r].Expired(now) && Evictable(s, r));
  }
}
