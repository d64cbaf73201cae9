/**
 The cache under concurrent use.  Goroutines interleave at the points where
 the code takes or releases the cache mutex; one action is one critical
 section.  R is the type of entry objects.  The fields spec, stamp and clock
 record history and decide nothing.
 */
module CacheMachine {
  import opened CacheState
  import opened CacheEviction
  import opened Sets

  datatype Op =
    | GetOp(now: int, canCompute: bool)
    | PutOp(value: Any, expiration: int, size: int)

  /** Where a goroutine stands; asleep means inside cond.Wait and not yet woken. */
  datatype Pc<R> = Idle | Asleep(r: R, op: Op) | Awake(r: R, op: Op) | Computing(r: R, now: int)

  /** What a computation or a Put stores for a key. */
  datatype Record = Record(value: Any, expiration: int)

  datatype Sys<R(==)> = Sys(
    c: State<R>,
    pcs: map<nat, Pc<R>>,
    spec: map<string, Record>,  // last value put or computed per key and its expiration, until a successful Del
    stamp: map<R, nat>,      // when each entry was last used
    clock: nat)

  datatype Action<R> =
    | Enter(t: nat, key: string, op: Op, spare: R)
    | Wake(t: nat, spare: R)
    | Finish(t: nat, value: Any, expiration: int, size: int)
    | Delete(t: nat, key: string)
    | Walk(t: nat, now: int)

  // ----- steps -----

  ghost function EnterC<R>(c: State<R>, key: string, op: Op): (State<R>, Outcome<R>)
    requires key in c.entries ==> c.entries[key] in c.objs
  {
    match op
    case GetOp(now, canCompute) => GetEnter(c, key, now, canCompute)
    case PutOp(value, expiration, size) => PutEnter(c, key, value, expiration, size)
  }

  ghost function ResumeC<R>(c: State<R>, r: R, op: Op): (State<R>, Outcome<R>)
    requires r in c.objs
  {
    match op
    case GetOp(now, canCompute) => GetResume(c, r, now, canCompute)
    case PutOp(value, expiration, size) => PutResume(c, r, value, expiration, size)
  }

  ghost function Created<R>(c: State<R>, key: string, op: Op, spare: R): State<R> {
    match op
    case GetOp(now, canCompute) => Registered(c, key, spare)
    case PutOp(value, expiration, size) => PutNew(c, key, value, expiration, spare)
  }

  function NextPc<R>(op: Op, out: Outcome<R>, spare: R): Pc<R> {
    match out
    case Wait(r) => Asleep(r, op)
    case Register => if op.GetOp? then Computing(spare, op.now) else Idle
    case _ => Idle
  }

  /** Does the call count as a use of the entry for key? */
  ghost predicate Uses<R>(c: State<R>, key: string, op: Op, out: Outcome<R>) {
    match op
    case GetOp(now, _) => out.Hit? && key in c.entries && c.entries[key] in c.objs && !c.objs[c.entries[key]].Expired(now)
    case PutOp(_, _, _) => !out.Wait? && key in c.entries
  }

  /** What goroutine t's Get or Put on key makes of the system. */
  ghost function Settle<R>(s: Sys<R>, t: nat, key: string, op: Op, c: State<R>, out: Outcome<R>, spare: R): Sys<R> {
    var d := if out.Register? then Created(c, key, op, spare) else c;
    Sys(d,
        s.pcs[t := NextPc(op, out, spare)],
        if op.PutOp? && !out.Wait? then s.spec[key := Record(op.value, op.expiration)] else s.spec,
        if Uses(d, key, op, out) then s.stamp[d.entries[key] := s.clock + 1] else s.stamp,
        s.clock + 1)
  }

  /** cond.Broadcast. */
  function WakeAll<R>(pcs: map<nat, Pc<R>>): map<nat, Pc<R>> {
    map t | t in pcs :: if pcs[t].Asleep? then Awake(pcs[t].r, pcs[t].op) else pcs[t]
  }

  ghost predicate Enabled<R>(s: Sys<R>, a: Action<R>) {
    && a.t in s.pcs
    && match a
       case Enter(t, key, op, spare) => s.pcs[t].Idle? && spare !in s.c.objs && (op.PutOp? ==> op.expiration != 0)
       case Wake(t, spare) => s.pcs[t].Awake? && s.pcs[t].r in s.c.objs && spare !in s.c.objs
       case Finish(t, _, expiration, _) => s.pcs[t].Computing? && s.pcs[t].r in s.c.objs && expiration != 0
       case Delete(t, key) => s.pcs[t].Idle?
       case Walk(t, now) => s.pcs[t].Idle?
  }

  ghost function Step<R>(s: Sys<R>, a: Action<R>): Sys<R>
    requires Inv(s.c) && Enabled(s, a)
  {
    match a
    case Enter(t, key, op, spare) =>
      var (c, out) := EnterC(s.c, key, op);
      Settle(s, t, key, op, c, out, spare)
    case Wake(t, spare) =>
      var (c, out) := ResumeC(s.c, s.pcs[t].r, s.pcs[t].op);
      Settle(s, t, s.c.objs[s.pcs[t].r].key, s.pcs[t].op, c, out, spare)
    case Finish(t, value, expiration, size) =>
      var r := s.pcs[t].r;
      var idle := s.pcs[t := Idle];
      Sys(GetFinish(s.c, r, value, expiration, size, s.pcs[t].now),
          if s.c.objs[r].waiting > 1 then WakeAll(idle) else idle,
          s.spec[s.c.objs[r].key := Record(value, expiration)], s.stamp[r := s.clock + 1], s.clock + 1)
    case Delete(t, key) =>
      var (c, deleted) := Del(s.c, key);
      s.(c := c, spec := if deleted then s.spec - {key} else s.spec, clock := s.clock + 1)
    case Walk(t, now) =>
      s.(c := Sweep(s.c, now), clock := s.clock + 1)
  }

  // ----- invariant -----

  ghost function Owners<R>(pcs: map<nat, Pc<R>>, r: R): set<nat> {
    set t | t in pcs && Owns(pcs[t], r)
  }

  ghost function Waiters<R>(pcs: map<nat, Pc<R>>, r: R): set<nat> {
    set t | t in pcs && Waits(pcs[t], r)
  }

  /** The counter of every entry is the goroutines computing it plus those waiting for it. */
  ghost predicate Counted1<R>(objs: map<R, Entry>, pcs: map<nat, Pc<R>>, r: R)
    requires r in objs
  {
    && objs[r].waiting == |Owners(pcs, r)| + |Waiters(pcs, r)|
    && |Owners(pcs, r)| == if objs[r].InFlight() then 1 else 0
  }

  ghost predicate ThreadInv<R>(objs: map<R, Entry>, pcs: map<nat, Pc<R>>) {
    && (forall r :: r in objs ==> Counted1(objs, pcs, r))
    && (forall t :: t in pcs && !pcs[t].Idle? ==> pcs[t].r in objs)
    && (forall t :: t in pcs && pcs[t].Asleep? ==> objs[pcs[t].r].InFlight())
    && (forall t :: t in pcs && (pcs[t].Asleep? || pcs[t].Awake?) && pcs[t].op.PutOp? ==> pcs[t].op.expiration != 0)
  }

  ghost function Recorded(e: Entry): Record { Record(e.value, e.expiration) }

  /** Every complete entry holds the latest value of its key, with its expiration. */
  ghost predicate SpecInv<R>(c: State<R>, spec: map<string, Record>) {
    forall r :: r in c.order ==> r in c.objs && c.objs[r].key in spec && spec[c.objs[r].key] == Recorded(c.objs[r])
  }

  /** The list is ordered by last use, most recent first. */
  ghost predicate Recency<R>(q: seq<R>, stamp: map<R, nat>, clock: nat) {
    && (forall r :: r in q ==> r in stamp && stamp[r] <= clock)
    && (forall i, j :: 0 <= i < j < |q| ==> stamp[q[i]] > stamp[q[j]])
  }

  ghost predicate Safe<R>(s: Sys<R>) {
    && Inv(s.c)
    && ThreadInv(s.c.objs, s.pcs)
    && SpecInv(s.c, s.spec)
    && Recency(s.c.order, s.stamp, s.clock)
  }

  // ----- what the critical sections do to the counters -----

  /** Nothing but the counters of two entries tells c and d apart as far as goroutines can see. */
  ghost predicate Shifted<R>(objs: map<R, Entry>, objs': map<R, Entry>, r: R, n: int) {
    forall x :: x in objs ==>
      && x in objs'
      && objs'[x].key == objs[x].key
      && objs'[x].InFlight() == objs[x].InFlight()
      && objs'[x].waiting == objs[x].waiting + if x == r then n else 0
  }

  lemma EnterShifts<R>(c: State<R>, key: string, op: Op)
    requires Inv(c) && (op.PutOp? ==> op.expiration != 0)
    ensures var (d, out) := EnterC(c, key, op);
      && Inv(d) && d.objs.Keys == c.objs.Keys
      && (if out.Wait? then out.r in c.objs && c.objs[out.r].InFlight() && Shifted(c.objs, d.objs, out.r, 1)
          else forall x :: Shifted(c.objs, d.objs, x, 0))
      && (out.Register? ==> key !in d.entries)
  {
    hide Inv, Drop;
    if key in c.entries { EntryObj(c, key); }
    match op
    case GetOp(now, canCompute) => GetEnterInv(c, key, now, canCompute);
    case PutOp(value, expiration, size) => PutEnterInv(c, key, value, expiration, size);
  }

  lemma ResumeShifts<R>(c: State<R>, r: R, op: Op)
    requires Inv(c) && r in c.objs && c.objs[r].waiting > 0 && (op.PutOp? ==> op.expiration != 0)
    ensures var (d, out) := ResumeC(c, r, op);
      && Inv(d) && d.objs.Keys == c.objs.Keys
      && (if out.Wait? then d == c && out.r == r && c.objs[r].InFlight() else Shifted(c.objs, d.objs, r, -1))
      && (out.Register? ==> c.objs[r].key !in d.entries)
  {
    hide Inv, Drop;
    match op
    case GetOp(now, canCompute) => GetResumeInv(c, r, now, canCompute);
    case PutOp(value, expiration, size) => PutResumeInv(c, r, value, expiration, size);
  }

  // ----- what one goroutine's move does to the head counts -----

  ghost predicate Owns<R>(pc: Pc<R>, r: R) { pc.Computing? && pc.r == r }

  ghost predicate Waits<R>(pc: Pc<R>, r: R) { (pc.Asleep? || pc.Awake?) && pc.r == r }

  lemma MoveCounts<R>(pcs: map<nat, Pc<R>>, t: nat, pc: Pc<R>, r: R)
    requires t in pcs
    ensures |Owners(pcs[t := pc], r)| == |Owners(pcs, r)| - One(Owns(pcs[t], r)) + One(Owns(pc, r))
    ensures |Waiters(pcs[t := pc], r)| == |Waiters(pcs, r)| - One(Waits(pcs[t], r)) + One(Waits(pc, r))
  {
    Swap(Owners(pcs, r), Owners(pcs[t := pc], r), t);
    Swap(Waiters(pcs, r), Waiters(pcs[t := pc], r), t);
  }

  lemma WakeCounts<R>(pcs: map<nat, Pc<R>>, r: R)
    ensures Owners(WakeAll(pcs), r) == Owners(pcs, r) && Waiters(WakeAll(pcs), r) == Waiters(pcs, r)
  {
  }

  lemma NoCounts<R>(pcs: map<nat, Pc<R>>, r: R)
    requires forall t :: t in pcs && !pcs[t].Idle? ==> pcs[t].r != r
    ensures Owners(pcs, r) == {} && Waiters(pcs, r) == {}
  {
  }

  /** The weight of a goroutine on entry r. */
  ghost function Weight<R>(pc: Pc<R>, r: R): int { if !pc.Idle? && pc.r == r then 1 else 0 }

  /**
   A goroutine that neither starts nor stops computing moves, and the counters
   follow: the general shape of Enter, Wake and of the calls that end at once.
   */
  lemma MoveThread<R>(objs: map<R, Entry>, objs': map<R, Entry>, pcs: map<nat, Pc<R>>, t: nat, pc: Pc<R>)
    requires ThreadInv(objs, pcs) && t in pcs && !pcs[t].Computing? && !pc.Computing? && !pc.Awake?
    requires objs.Keys == objs'.Keys
    requires forall x :: x in objs ==>
      && objs'[x].InFlight() == objs[x].InFlight()
      && objs'[x].waiting == objs[x].waiting - Weight(pcs[t], x) + Weight(pc, x)
    requires pc.Asleep? ==> pc.r in objs && objs[pc.r].InFlight() && (pc.op.PutOp? ==> pc.op.expiration != 0)
    ensures ThreadInv(objs', pcs[t := pc])
  {
    forall x | x in objs' ensures Counted1(objs', pcs[t := pc], x) {
      assert Counted1(objs, pcs, x);
      MoveCounts(pcs, t, pc, x);
    }
  }

  /** A goroutine registers a new entry: as its owner, or complete. */
  lemma AddThread<R>(objs: map<R, Entry>, pcs: map<nat, Pc<R>>, t: nat, pc: Pc<R>, spare: R, e: Entry)
    requires ThreadInv(objs, pcs) && t in pcs && pcs[t].Idle? && spare !in objs
    requires if e.InFlight() then pc.Computing? && pc.r == spare && e.waiting == 1 else pc.Idle? && e.waiting == 0
    ensures ThreadInv(objs[spare := e], pcs[t := pc])
  {
    NoCounts(pcs, spare);
    var objs' := objs[spare := e];
    forall x | x in objs' ensures Counted1(objs', pcs[t := pc], x) {
      assert x in objs ==> Counted1(objs, pcs, x);
      MoveCounts(pcs, t, pc, x);
    }
  }

  /** The owner finishes and everybody asleep is woken if anybody waits for the entry. */
  lemma FinishThread<R>(objs: map<R, Entry>, pcs: map<nat, Pc<R>>, t: nat, e: Entry)
    requires ThreadInv(objs, pcs) && t in pcs && pcs[t].Computing?
    requires !e.InFlight() && e.waiting == objs[pcs[t].r].waiting - 1
    ensures ThreadInv(objs[pcs[t].r := e], if objs[pcs[t].r].waiting > 1 then WakeAll(pcs[t := Idle]) else pcs[t := Idle])
  {
    var r := pcs[t].r;
    var idle := pcs[t := Idle];
    var objs', pcs' := objs[r := e], if objs[r].waiting > 1 then WakeAll(idle) else idle;
    forall x | x in objs' ensures Counted1(objs', pcs', x) {
      assert Counted1(objs, pcs, x);
      MoveCounts(pcs, t, Idle, x);
      WakeCounts(idle, x);
    }
    forall x | x in pcs' && pcs'[x].Asleep? ensures pcs'[x].r != r {
      assert Counted1(objs, pcs, r) && t in Owners(pcs, r);
      assert pcs[x].r == r ==> x in Waiters(pcs, r);
    }
  }

  // ----- what the critical sections do to the list -----

  /**
   A Get or Put on key removes entries from the list, or moves the entry it
   used to the front; a Put that is done leaves its value and its expiration in the entry.
   */
  ghost predicate ListEffect<R>(c: State<R>, d: State<R>, key: string, op: Op, out: Outcome<R>) {
    && (op.PutOp? ==> !out.Hit? && !out.Miss?) && (op.GetOp? ==> !out.Stored?)
    && (forall x :: x in d.order ==>
      && x in c.order && x in d.objs && x in c.objs && d.objs[x].key == c.objs[x].key
      && Recorded(d.objs[x]) == if out.Stored? && c.objs[x].key == key then Record(op.value, op.expiration) else Recorded(c.objs[x]))
    && OrderEffect(c, d, key, op, out)
    && (out.Stored? ==> key in d.entries)
  }

  ghost predicate OrderEffect<R>(c: State<R>, d: State<R>, key: string, op: Op, out: Outcome<R>) {
    if Uses(d, key, op, out) then
      d.entries[key] in c.order && d.order == [d.entries[key]] + Drop(c.order, {d.entries[key]})
    else d.order == c.order || (key in c.entries && d.order == Drop(c.order, {c.entries[key]}))
  }

  lemma GetPresentEffect<R>(c: State<R>, r: R, now: int, canCompute: bool)
    requires Inv(c) && r in c.order
    ensures var (d, out) := GetPresent(c, r, now, canCompute);
      ListEffect(c, d, c.objs[r].key, GetOp(now, canCompute), out)
  {
    hide Inv, NoDup, Drop;
    Listed(c);
    CompleteListed(c, r);
    DropMember(c.order, {r});
    if c.order[0] == r { DropAt(c.order, 0); }
  }

  lemma PutPresentEffect<R>(c: State<R>, r: R, value: Any, expiration: int, size: int)
    requires Inv(c) && r in c.order && expiration != 0
    ensures ListEffect(c, PutPresent(c, r, value, expiration, size), c.objs[r].key, PutOp(value, expiration, size), Stored)
  {
    Listed(c);
    forall x | x in c.order && c.objs[x].key == c.objs[r].key ensures x == r {
      CompleteListed(c, x);
      CompleteListed(c, r);
    }
    CompleteListed(c, r);
    hide Inv, NoDup;
    DropMember(c.order, {r});
    hide Drop;
  }

  lemma WaitEffect<R>(c: State<R>, r: R, n: int, key: string, op: Op)
    requires Inv(c) && r in c.objs
    ensures ListEffect(c, AddWaiting(c, r, n), key, op, Wait(r))
  {
    Listed(c);
    hide Inv;
  }

  lemma EnterEffect<R>(c: State<R>, key: string, op: Op)
    requires Inv(c) && (op.PutOp? ==> op.expiration != 0)
    ensures ListEffect(c, EnterC(c, key, op).0, key, op, EnterC(c, key, op).1)
  {
    Listed(c);
    hide Inv, Drop, NoDup;
    if key in c.entries {
      var r := c.entries[key];
      EntryObj(c, key);
      CompleteListed(c, r);
      if c.objs[r].InFlight() {
        WaitEffect(c, r, 1, key, op);
      } else {
        match op
        case GetOp(now, canCompute) => GetPresentEffect(c, r, now, canCompute);
        case PutOp(value, expiration, size) => PutPresentEffect(c, r, value, expiration, size);
      }
    }
  }

  /** Counters play no part in the effect on the list. */
  lemma EffectOfCopy<R>(b: State<R>, c: State<R>, d: State<R>, key: string, op: Op, out: Outcome<R>)
    requires ListEffect(b, d, key, op, out) && b.order == c.order && b.entries == c.entries && b.objs.Keys == c.objs.Keys
    requires forall x :: x in b.objs ==> b.objs[x].key == c.objs[x].key && Recorded(b.objs[x]) == Recorded(c.objs[x])
    ensures ListEffect(c, d, key, op, out)
  {
  }

  lemma ResumeEffect<R>(c: State<R>, r: R, op: Op)
    requires Inv(c) && r in c.objs && c.objs[r].waiting > 0 && (op.PutOp? ==> op.expiration != 0)
    ensures ListEffect(c, ResumeC(c, r, op).0, c.objs[r].key, op, ResumeC(c, r, op).1)
  {
    hide Inv, Drop, NoDup;
    if c.objs[r].InFlight() {
      Listed(c);
    } else {
      hide ListEffect, GetPresent, PutPresent;
      var key, b := c.objs[r].key, AddWaiting(c, r, -1);
      Counted(c, r);
      AddWaitingInv(c, r, -1);
      CompleteListed(c, r);
      match op {
        case GetOp(now, canCompute) => GetPresentEffect(b, r, now, canCompute);
        case PutOp(value, expiration, size) => PutPresentEffect(b, r, value, expiration, size);
      }
      EffectOfCopy(b, c, ResumeC(c, r, op).0, key, op, ResumeC(c, r, op).1);
    }
  }

  lemma RecencyCons<R>(q: seq<R>, r: R, stamp: map<R, nat>, clock: nat)
    requires Recency(q, stamp, clock) && r in stamp && stamp[r] <= clock && forall x :: x in q ==> stamp[x] < stamp[r]
    ensures Recency([r] + q, stamp, clock)
  {
  }

  lemma {:induction false} RecencyDrop<R>(q: seq<R>, d: set<R>, stamp: map<R, nat>, clock: nat)
    requires Recency(q, stamp, clock)
    ensures Recency(Drop(q, d), stamp, clock)
  {
    if q == [] {
    } else {
      assert Recency(q[1..], stamp, clock);
      RecencyDrop(q[1..], d, stamp, clock);
      DropMember(q[1..], d);
      forall x | x in q[1..] ensures stamp[q[0]] > stamp[x] {
        var i :| 0 <= i < |q[1..]| && q[1..][i] == x;
        assert q[i + 1] == x;
      }
      if q[0] !in d { RecencyCons(Drop(q[1..], d), q[0], stamp, clock); }
    }
  }

  lemma RecencyPush<R>(q: seq<R>, r: R, stamp: map<R, nat>, clock: nat)
    requires Recency(q, stamp, clock) && r !in q
    ensures Recency([r] + q, stamp[r := clock + 1], clock + 1)
  {
  }

  lemma RecencyUse<R>(q: seq<R>, r: R, stamp: map<R, nat>, clock: nat)
    requires Recency(q, stamp, clock)
    ensures Recency([r] + Drop(q, {r}), stamp[r := clock + 1], clock + 1)
  {
    RecencyDrop(q, {r}, stamp, clock);
    DropMember(q, {r});
    RecencyPush(Drop(q, {r}), r, stamp, clock);
  }

  lemma RecencyLater<R>(q: seq<R>, stamp: map<R, nat>, clock: nat)
    requires Recency(q, stamp, clock)
    ensures Recency(q, stamp, clock + 1)
  {
  }

  // ----- every step is safe -----

  lemma SettleThreads<R>(s: Sys<R>, t: nat, key: string, op: Op, d: State<R>, out: Outcome<R>, spare: R)
    requires ThreadInv(s.c.objs, s.pcs) && t in s.pcs && !s.pcs[t].Computing?
    requires s.c.objs.Keys == d.objs.Keys && spare !in d.objs && (op.PutOp? ==> op.expiration != 0)
    requires out.Wait? ==> out.r in s.c.objs && s.c.objs[out.r].InFlight()
    requires forall x :: x in s.c.objs ==>
      && d.objs[x].InFlight() == s.c.objs[x].InFlight()
      && d.objs[x].waiting == s.c.objs[x].waiting - Weight(s.pcs[t], x) + One(out == Wait(x))
    ensures var n := Settle(s, t, key, op, d, out, spare); ThreadInv(n.c.objs, n.pcs)
  {
    hide ThreadInv;
    if out.Register? {
      MoveThread(s.c.objs, d.objs, s.pcs, t, Idle);
      var n := Settle(s, t, key, op, d, out, spare);
      AddThread(d.objs, s.pcs[t := Idle], t, NextPc(op, out, spare), spare, n.c.objs[spare]);
      assert s.pcs[t := Idle][t := NextPc(op, out, spare)] == n.pcs;
    } else {
      MoveThread(s.c.objs, d.objs, s.pcs, t, NextPc(op, out, spare));
    }
  }

  lemma SettleSpec<R>(s: Sys<R>, t: nat, key: string, op: Op, d: State<R>, out: Outcome<R>, spare: R)
    requires Inv(s.c) && Inv(d) && SpecInv(s.c, s.spec) && ListEffect(s.c, d, key, op, out)
    requires spare !in d.objs && (out.Register? ==> key !in d.entries)
    ensures var n := Settle(s, t, key, op, d, out, spare); SpecInv(n.c, n.spec)
  {
    var n := Settle(s, t, key, op, d, out, spare);
    Listed(d);
    forall x | x in n.c.order
      ensures x in n.c.objs && n.c.objs[x].key in n.spec && n.spec[n.c.objs[x].key] == Recorded(n.c.objs[x])
    {
      if x in d.order {
        CompleteListed(d, x);
        hide Inv;
      }
    }
  }

  lemma EffectOnOrder<R>(c: State<R>, d: State<R>, key: string, op: Op, out: Outcome<R>)
    requires ListEffect(c, d, key, op, out)
    ensures OrderEffect(c, d, key, op, out)
  {
  }

  /** Where Settle leaves the list and the last uses. */
  lemma SettleOrder<R>(s: Sys<R>, t: nat, key: string, op: Op, d: State<R>, out: Outcome<R>, spare: R)
    requires out.Register? ==> key !in d.entries
    ensures Settle(s, t, key, op, d, out, spare).clock == s.clock + 1
    ensures var n := Settle(s, t, key, op, d, out, spare);
      if out.Register? && op.PutOp? then n.c.order == [spare] + d.order && n.stamp == s.stamp[spare := s.clock + 1]
      else if Uses(d, key, op, out) then n.c.order == d.order && n.stamp == s.stamp[d.entries[key] := s.clock + 1]
      else n.c.order == d.order && n.stamp == s.stamp
  {
  }

  lemma SettleRecency<R>(s: Sys<R>, t: nat, key: string, op: Op, d: State<R>, out: Outcome<R>, spare: R)
    requires Inv(d) && Recency(s.c.order, s.stamp, s.clock) && ListEffect(s.c, d, key, op, out)
    requires spare !in d.objs && (out.Register? ==> key !in d.entries)
    ensures var n := Settle(s, t, key, op, d, out, spare); Recency(n.c.order, n.stamp, n.clock)
  {
    hide Inv, Recency, Drop, NoDup, ListEffect, Settle;
    EffectOnOrder(s.c, d, key, op, out);
    SettleOrder(s, t, key, op, d, out, spare);
    Listed(d);
    if Uses(d, key, op, out) {
      RecencyUse(s.c.order, d.entries[key], s.stamp, s.clock);
    } else {
      if key in s.c.entries { RecencyDrop(s.c.order, {s.c.entries[key]}, s.stamp, s.clock); }
      RecencyPush(d.order, spare, s.stamp, s.clock);
      RecencyLater(d.order, s.stamp, s.clock);
    }
  }

  lemma EnterSettles<R>(s: Sys<R>, a: Action<R>)
    requires Inv(s.c) && Enabled(s, a) && a.Enter?
    ensures a.key in s.c.entries ==> s.c.entries[a.key] in s.c.objs
    ensures Step(s, a) == Settle(s, a.t, a.key, a.op, EnterC(s.c, a.key, a.op).0, EnterC(s.c, a.key, a.op).1, a.spare)
  {
    if a.key in s.c.entries { EntryObj(s.c, a.key); }
    hide Inv, EnterC, Settle;
  }

  /** The same shift of the counters, per goroutine: nobody counted t before, and it is counted where it now waits. */
  lemma EnterWeights<R>(s: Sys<R>, t: nat, d: State<R>, out: Outcome<R>)
    requires t in s.pcs && s.pcs[t].Idle? && d.objs.Keys == s.c.objs.Keys
    requires if out.Wait? then Shifted(s.c.objs, d.objs, out.r, 1) else forall x :: Shifted(s.c.objs, d.objs, x, 0)
    ensures forall x :: x in s.c.objs ==>
      && d.objs[x].InFlight() == s.c.objs[x].InFlight()
      && d.objs[x].waiting == s.c.objs[x].waiting - Weight(s.pcs[t], x) + One(out == Wait(x))
  {
    forall x | x in s.c.objs
      ensures d.objs[x].InFlight() == s.c.objs[x].InFlight()
      ensures d.objs[x].waiting == s.c.objs[x].waiting - Weight(s.pcs[t], x) + One(out == Wait(x))
    {
      assert !out.Wait? ==> Shifted(s.c.objs, d.objs, x, 0);
    }
  }

  lemma EnterSafe<R>(s: Sys<R>, a: Action<R>)
    requires Safe(s) && Enabled(s, a) && a.Enter?
    ensures Safe(Step(s, a))
  {
    hide Inv, ListEffect, ThreadInv, SpecInv, Recency, Step, EnterC, Shifted, Settle;
    EnterSettles(s, a);
    var (d, out) := EnterC(s.c, a.key, a.op);
    EnterShifts(s.c, a.key, a.op);
    EnterEffect(s.c, a.key, a.op);
    CreatedInv(d, a.key, a.op, out, a.spare);
    EnterWeights(s, a.t, d, out);
    SettleThreads(s, a.t, a.key, a.op, d, out, a.spare);
    SettleSpec(s, a.t, a.key, a.op, d, out, a.spare);
    SettleRecency(s, a.t, a.key, a.op, d, out, a.spare);
    SettleCache(s, a.t, a.key, a.op, d, out, a.spare);
  }

  lemma SettleCache<R>(s: Sys<R>, t: nat, key: string, op: Op, d: State<R>, out: Outcome<R>, spare: R)
    ensures Settle(s, t, key, op, d, out, spare).c == if out.Register? then Created(d, key, op, spare) else d
  {
  }

  lemma CreatedInv<R>(d: State<R>, key: string, op: Op, out: Outcome<R>, spare: R)
    requires Inv(d) && (out.Register? ==> key !in d.entries) && spare !in d.objs && (op.PutOp? ==> op.expiration != 0)
    ensures Inv(if out.Register? then Created(d, key, op, spare) else d)
  {
    hide Inv;
    if out.Register? {
      match op
      case GetOp(_, _) => RegisteredInv(d, key, spare);
      case PutOp(value, expiration, _) => PutNewInv(d, key, value, expiration, spare);
    }
  }

  lemma WakeSettles<R>(s: Sys<R>, a: Action<R>)
    requires Inv(s.c) && Enabled(s, a) && a.Wake?
    ensures var r, op := s.pcs[a.t].r, s.pcs[a.t].op;
            Step(s, a) == Settle(s, a.t, s.c.objs[r].key, op, ResumeC(s.c, r, op).0, ResumeC(s.c, r, op).1, a.spare)
  {
    hide Inv, ResumeC, Settle;
  }

  /** A goroutine that goes on is no longer counted by its entry, unless it waits there again. */
  lemma WakeWeights<R>(s: Sys<R>, t: nat, d: State<R>, out: Outcome<R>)
    requires t in s.pcs && s.pcs[t].Awake? && s.pcs[t].r in s.c.objs && d.objs.Keys == s.c.objs.Keys
    requires if out.Wait? then d == s.c && out.r == s.pcs[t].r else Shifted(s.c.objs, d.objs, s.pcs[t].r, -1)
    ensures forall x :: x in s.c.objs ==>
      && d.objs[x].InFlight() == s.c.objs[x].InFlight()
      && d.objs[x].waiting == s.c.objs[x].waiting - Weight(s.pcs[t], x) + One(out == Wait(x))
  {
  }

  lemma WakeSafe<R>(s: Sys<R>, a: Action<R>)
    requires Safe(s) && Enabled(s, a) && a.Wake?
    ensures Safe(Step(s, a))
  {
    hide Inv, ListEffect, ThreadInv, SpecInv, Recency, Step, ResumeC, Shifted, Settle;
    WaitingPut(s, a.t);
    var r, op := s.pcs[a.t].r, s.pcs[a.t].op;
    var key := s.c.objs[r].key;
    WaitedFor(s, a.t);
    WakeSettles(s, a);
    var (d, out) := ResumeC(s.c, r, op);
    ResumeShifts(s.c, r, op);
    ResumeEffect(s.c, r, op);
    CreatedInv(d, key, op, out, a.spare);
    WakeWeights(s, a.t, d, out);
    SettleThreads(s, a.t, key, op, d, out, a.spare);
    SettleSpec(s, a.t, key, op, d, out, a.spare);
    SettleRecency(s, a.t, key, op, d, out, a.spare);
    SettleCache(s, a.t, key, op, d, out, a.spare);
  }

  lemma WaitingPut<R>(s: Sys<R>, t: nat)
    requires ThreadInv(s.c.objs, s.pcs) && t in s.pcs && s.pcs[t].Awake?
    ensures s.pcs[t].op.PutOp? ==> s.pcs[t].op.expiration != 0
  {
  }

  /** A goroutine that waits for an entry or computes it is counted there. */
  lemma WaitedFor<R>(s: Sys<R>, t: nat)
    requires ThreadInv(s.c.objs, s.pcs) && t in s.pcs && !s.pcs[t].Idle?
    ensures s.c.objs[s.pcs[t].r].waiting > 0
    ensures s.pcs[t].Computing? ==> s.c.objs[s.pcs[t].r].InFlight()
  {
    var r := s.pcs[t].r;
    assert Counted1(s.c.objs, s.pcs, r);
    assert t in Owners(s.pcs, r) + Waiters(s.pcs, r);
  }

  lemma FinishSafe<R>(s: Sys<R>, a: Action<R>)
    requires Safe(s) && Enabled(s, a) && a.Finish?
    ensures Safe(Step(s, a))
  {
    hide Inv, ThreadInv, SpecInv, Recency, Trim, Drop;
    var r := s.pcs[a.t].r;
    var m := Complete(s.c, r, a.value, a.expiration, a.size);
    WaitedFor(s, a.t);
    CompleteListed(s.c, r);
    Listed(s.c);
    CompleteInv(s.c, r, a.value, a.expiration, a.size);
    Listed(m);
    FinishThread(s.c.objs, s.pcs, a.t, m.objs[r]);
    FinishSpec(s.c, m, s.spec, r);
    RecencyPush(s.c.order, r, s.stamp, s.clock);
    TrimSafe(m, s.pcs[a.t].now, s.spec[s.c.objs[r].key := Recorded(m.objs[r])], s.stamp[r := s.clock + 1], s.clock + 1);
  }

  /** The eviction loop neither changes a value nor the order. */
  lemma TrimSafe<R>(m: State<R>, now: int, spec: map<string, Record>, stamp: map<R, nat>, clock: nat)
    requires Inv(m) && SpecInv(m, spec) && Recency(m.order, stamp, clock) && forall r :: r in m.order ==> r in m.objs
    ensures var t := TrimAll(m, now); Inv(t) && t.objs == m.objs && SpecInv(t, spec) && Recency(t.order, stamp, clock)
  {
    hide Inv, Recency, Trim, Drop;
    TrimInv(m, |m.order| - 1, now);
    var d := TrimDrops(m, |m.order| - 1, now);
    RecencyDrop(m.order, d, stamp, clock);
  }

  lemma FinishSpec<R>(c: State<R>, m: State<R>, spec: map<string, Record>, r: R)
    requires Inv(c) && Inv(m) && SpecInv(c, spec) && r in c.objs && r in m.objs && m.order == [r] + c.order
    requires m.objs[r].key == c.objs[r].key
    requires forall x :: x in c.order ==> x in m.objs && x in c.objs && (x != r ==> m.objs[x] == c.objs[x])
    ensures SpecInv(m, spec[c.objs[r].key := Recorded(m.objs[r])])
  {
    forall x | x in m.order && x != r ensures m.objs[x].key != m.objs[r].key {
      CompleteListed(m, x);
      CompleteListed(m, r);
    }
  }

  /** The eviction loop only takes entries out of the list. */
  lemma {:induction false} TrimDrops<R>(s: State<R>, i: int, now: int) returns (d: set<R>)
    requires Inv(s) && i < |s.order|
    ensures Trim(s, i, now).order == Drop(s.order, d)
    decreases i + 1
  {
    if i >= 0 && s.used > s.max {
      RoundFacts(s, i, now);
      var e := TrimDrops(Round(s, i, now), i - 1, now);
      if Disposable(s.objs[s.order[i]], now) {
        d := {s.order[i]} + e;
        hide Inv, Trim;
        DropTwice(s.order, {s.order[i]}, e);
      } else {
        d := e;
      }
    } else {
      d := {};
      DropNone(s.order, {});
    }
  }

  lemma DeleteSafe<R>(s: Sys<R>, a: Action<R>)
    requires Safe(s) && Enabled(s, a) && a.Delete?
    ensures Safe(Step(s, a))
  {
    hide Inv, ThreadInv, SpecInv, Recency, Drop;
    RecencyLater(s.c.order, s.stamp, s.clock);
    if a.key in s.c.entries {
      var r := s.c.entries[a.key];
      EntryObj(s.c, a.key);
      if Evictable(s.c, r) {
        EvictInv(s.c, r);
        RecencyDrop(s.c.order, {r}, s.stamp, s.clock);
        RecencyLater(Drop(s.c.order, {r}), s.stamp, s.clock);
        DeleteSpec(s.c, s.spec, a.key);
      }
    }
  }

  lemma DeleteSpec<R>(c: State<R>, spec: map<string, Record>, key: string)
    requires Inv(c) && SpecInv(c, spec) && key in c.entries && c.entries[key] in c.objs && Evictable(c, c.entries[key])
    ensures SpecInv(Evict(c, c.entries[key]), spec - {key})
  {
    var r := c.entries[key];
    DropMember(c.order, {r});
    forall x | x in c.order && x != r ensures c.objs[x].key != key {
      CompleteListed(c, x);
    }
  }

  lemma WalkSafe<R>(s: Sys<R>, a: Action<R>)
    requires Safe(s) && Enabled(s, a) && a.Walk?
    ensures Safe(Step(s, a))
  {
    hide Inv, ThreadInv, SpecInv, Recency, Drop, NoDup, Sweep;
    SweepInv(s.c, a.now);
    var d := SweepDrops(s.c, a.now);
    RecencyDrop(s.c.order, d, s.stamp, s.clock);
    RecencyLater(Drop(s.c.order, d), s.stamp, s.clock);
    DropMember(s.c.order, d);
    SpecFewer(s.c, Sweep(s.c, a.now), s.spec);
  }

  lemma SweepDrops<R>(c: State<R>, now: int) returns (d: set<R>)
    requires Inv(c)
    ensures Sweep(c, now).order == Drop(c.order, d) && Sweep(c, now).objs == c.objs
  {
    Listed(c);
    d := set r | r in c.order && c.objs[r].Expired(now) && Evictable(c, r);
  }

  lemma SpecFewer<R>(c: State<R>, d: State<R>, spec: map<string, Record>)
    requires SpecInv(c, spec) && c.objs == d.objs && forall r :: r in d.order ==> r in c.order
    ensures SpecInv(d, spec)
  {
  }

  lemma StepSafe<R>(s: Sys<R>, a: Action<R>)
    requires Safe(s) && Enabled(s, a)
    ensures Safe(Step(s, a))
  {
    hide Safe, Step;
    match a
    case Enter(_, _, _, _) => EnterSafe(s, a);
    case Wake(_, _) => WakeSafe(s, a);
    case Finish(_, _, _, _) => FinishSafe(s, a);
    case Delete(_, _) => DeleteSafe(s, a);
    case Walk(_, _) => WalkSafe(s, a);
  }
}
