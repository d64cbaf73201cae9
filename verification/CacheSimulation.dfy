/**
 The pointer cache under concurrent use: serving requests of goroutines in any order, one
 critical section at a time, takes the steps of CacheMachine.
 */
module CacheSimulation {
  import opened CacheState
  import opened CacheHeap
  import opened CacheMachine
  import opened CacheTheorems
  import opened CacheHistory
  import opened Options

  /** What a goroutine does next. */
  datatype Request =
    | Begin(t: nat, key: string, op: Op)                                  // starts a Get or a Put
    | Continue(t: nat)                                                    // returns from cond.Wait
    | Computed(t: nat, value: Any, expiration: int, size: int)            // computeValue has returned
    | Remove(t: nat, key: string)
    | Visit(t: nat, now: int)

  /** The request fits where its goroutine stands, and its expiration is not the zero time. */
  predicate Fits(pcs: map<nat, Pc<CacheEntry>>, q: Request) {
    && q.t in pcs
    && match q
       case Begin(t, _, op) => pcs[t].Idle? && (op.PutOp? ==> op.expiration != 0)
       case Continue(t) => pcs[t].Awake?
       case Computed(t, _, expiration, _) => pcs[t].Computing? && expiration != 0
       case _ => pcs[q.t].Idle?
  }

  /** The action that serves the request. */
  predicate Serves(a: Action<CacheEntry>, q: Request) {
    match q
    case Begin(t, key, op) => a.Enter? && a.t == t && a.key == key && a.op == op
    case Continue(t) => a.Wake? && a.t == t
    case Computed(t, value, expiration, size) => a == Finish(t, value, expiration, size)
    case Remove(t, key) => a == Delete(t, key)
    case Visit(t, now) => a == Walk(t, now)
  }

  /** Where a goroutine stands after a section with the given outcome, with e as the entry that it computes. */
  function After(op: Op, out: Outcome<CacheEntry>, e: CacheEntry?): Pc<CacheEntry> {
    match out
    case Wait(r) => Asleep(r, op)
    case Register => if op.GetOp? && e != null then (var computing: CacheEntry := e; Computing(computing, op.now)) else Idle
    case _ => Idle
  }

  /** What the caller gets to see: the value or nil of a Get, the return of a Put, or nothing yet. */
  datatype Reply = Value(value: Any) | NoValue | Done | Pending | Deleted(ok: bool) | Visited(calls: map<string, Any>)

  function ReplyTo<R>(op: Op, out: Outcome<R>): Reply {
    match out
    case Hit(value) => Value(value)
    case Miss => NoValue
    case Wait(_) => Pending
    case Register => if op.GetOp? then Pending else Done
    case Stored => Done
  }

  /** The reply that belongs to an action of the machine. */
  ghost function ReplyOf(s: Sys<CacheEntry>, a: Action<CacheEntry>): Reply
    requires Inv(s.c) && Enabled(s, a)
  {
    match a
    case Finish(_, value, _, _) => Value(value)
    case Delete(_, key) => Deleted(Del(s.c, key).1)
    case Walk(_, _) =>
      var c := Step(s, a).c;
      Visited(map k | k in c.entries && c.entries[k] in c.objs :: c.objs[c.entries[k]].value)
    case _ => ReplyTo(OpOf(s, a), OutcomeOf(s, a))
  }

  /** A goroutine that has woken is counted by its entry, beside the owner if there is one. */
  lemma WokenCounted(s: Sys<CacheEntry>, t: nat)
    requires Safe(s) && t in s.pcs && s.pcs[t].Awake?
    ensures var r := s.pcs[t].r;
            r in s.c.objs && s.c.objs[r].waiting > 0 && (s.c.objs[r].InFlight() ==> s.c.objs[r].waiting > 1)
  {
    WaitedFor(s, t);
    var r := s.pcs[t].r;
    assert Counted1(s.c.objs, s.pcs, r) && t in Waiters(s.pcs, r);
  }

  lemma ObjectView(cache: Cache, e: CacheEntry)
    requires e in cache.Objects
    ensures e in cache.Abs().objs && cache.Abs().objs[e] == e.View()
  {
  }

  /** What an entering call makes of cache and goroutine. */
  lemma EnterIs(s: Sys<CacheEntry>, a: Action<CacheEntry>)
    requires Inv(s.c) && Enabled(s, a) && a.Enter?
    ensures a.key in s.c.entries ==> s.c.entries[a.key] in s.c.objs
    ensures var (d, out) := EnterC(s.c, a.key, a.op);
            && Step(s, a).c == (if out.Register? then Created(d, a.key, a.op, a.spare) else d)
            && Step(s, a).pcs == s.pcs[a.t := NextPc(a.op, out, a.spare)]
  {
    hide Inv, EnterC, Created;
    if a.key in s.c.entries { EntryObj(s.c, a.key); }
  }

  /** The same for a call that has woken. */
  lemma WakeIs(s: Sys<CacheEntry>, a: Action<CacheEntry>)
    requires Inv(s.c) && Enabled(s, a) && a.Wake?
    ensures var r, op := s.pcs[a.t].r, s.pcs[a.t].op;
            var (d, out) := ResumeC(s.c, r, op);
            && Step(s, a).c == (if out.Register? then Created(d, s.c.objs[r].key, op, a.spare) else d)
            && Step(s, a).pcs == s.pcs[a.t := NextPc(op, out, a.spare)]
  {
    hide Inv, ResumeC, Created;
  }

  lemma SafeInv(s: Sys<CacheEntry>)
    requires Safe(s)
    ensures Inv(s.c)
  {
  }

  method BeginGet(cache: Cache, ghost s: Sys<CacheEntry>, t: nat, key: string, now: int, canCompute: bool)
    returns (pc: Pc<CacheEntry>, reply: Reply, ghost a: Action<CacheEntry>)
    requires cache.Valid() && cache.Abs() == s.c && Safe(s) && t in s.pcs && s.pcs[t].Idle?
    modifies cache, cache.Objects
    ensures cache.Valid() && fresh(cache.Objects - old(cache.Objects))
    ensures Serves(a, Begin(t, key, GetOp(now, canCompute))) && Enabled(s, a)
    ensures Step(s, a).c == cache.Abs() && Step(s, a).pcs == s.pcs[t := pc] && reply == ReplyOf(s, a)
  {
    hide Inv, Safe, Step, Registered, CacheState.GetEnter;
    SafeInv(s);
    var out, e, panicked := cache.GetEnter(key, now, canCompute);
    pc, reply := After(GetOp(now, canCompute), out, e), ReplyTo(GetOp(now, canCompute), out);
    ghost var spare: CacheEntry;
    if e != null && out.Register? {
      spare := e;
    } else {
      spare := new CacheEntry.Spare();
    }
    a := Enter(t, key, GetOp(now, canCompute), spare);
    EnterIs(s, a);
  }

  method WakeGet(cache: Cache, ghost s: Sys<CacheEntry>, t: nat, entry: CacheEntry, now: int, canCompute: bool)
    returns (pc: Pc<CacheEntry>, reply: Reply, ghost a: Action<CacheEntry>)
    requires cache.Valid() && cache.Abs() == s.c && Safe(s) && t in s.pcs && s.pcs[t] == Awake(entry, GetOp(now, canCompute))
    modifies cache, cache.Objects
    ensures cache.Valid() && fresh(cache.Objects - old(cache.Objects))
    ensures Serves(a, Continue(t)) && Enabled(s, a)
    ensures Step(s, a).c == cache.Abs() && Step(s, a).pcs == s.pcs[t := pc] && reply == ReplyOf(s, a)
  {
    hide Inv, Safe, Step, Registered, CacheState.GetResume;
    SafeInv(s);
    WokenCounted(s, t);
    ObjectView(cache, entry);
    var out, e, panicked := cache.GetResume(entry, now, canCompute);
    pc, reply := After(GetOp(now, canCompute), out, e), ReplyTo(GetOp(now, canCompute), out);
    ghost var spare: CacheEntry;
    if e != null && out.Register? {
      spare := e;
    } else {
      spare := new CacheEntry.Spare();
    }
    a := Wake(t, spare);
    WakeIs(s, a);
  }

  method EndGet(cache: Cache, ghost s: Sys<CacheEntry>, t: nat, entry: CacheEntry, now: int, value: Any, expiration: int, size: int)
    returns (broadcast: bool, ghost a: Action<CacheEntry>)
    requires cache.Valid() && cache.Abs() == s.c && Safe(s) && t in s.pcs && s.pcs[t] == Computing(entry, now) && expiration != 0
    modifies cache, cache.Objects
    ensures cache.Valid() && cache.Objects == old(cache.Objects)
    ensures Serves(a, Computed(t, value, expiration, size)) && Enabled(s, a)
    ensures Step(s, a).c == cache.Abs() && Step(s, a).pcs == if broadcast then WakeAll(s.pcs[t := Idle]) else s.pcs[t := Idle]
  {
    hide Inv, CacheState.GetFinish, SpecInv, Recency, Counted1;
    WaitedFor(s, t);
    ObjectView(cache, entry);
    a := Finish(t, value, expiration, size);
    broadcast := cache.GetFinish(entry, value, expiration - now, size, now);
  }

  method BeginPut(cache: Cache, ghost s: Sys<CacheEntry>, t: nat, key: string, value: Any, expiration: int, size: int)
    returns (pc: Pc<CacheEntry>, reply: Reply, ghost a: Action<CacheEntry>)
    requires cache.Valid() && cache.Abs() == s.c && Safe(s) && t in s.pcs && s.pcs[t].Idle? && expiration != 0
    modifies cache, cache.Objects
    ensures cache.Valid() && fresh(cache.Objects - old(cache.Objects))
    ensures Serves(a, Begin(t, key, PutOp(value, expiration, size))) && Enabled(s, a)
    ensures Step(s, a).c == cache.Abs() && Step(s, a).pcs == s.pcs[t := pc] && reply == ReplyOf(s, a)
  {
    hide Inv, Safe, Step, CacheState.PutNew, CacheState.PutPresent, AddWaiting;
    SafeInv(s);
    if key in s.c.entries { EntryObj(s.c, key); }
    ghost var absent := key !in cache.entries;
    var out := cache.PutEnter(key, value, size, expiration, 0);
    pc, reply := After(PutOp(value, expiration, size), out, null), ReplyTo(PutOp(value, expiration, size), out);
    ghost var spare: CacheEntry;
    if absent {
      spare := cache.entries[key];
    } else {
      spare := new CacheEntry.Spare();
    }
    a := Enter(t, key, PutOp(value, expiration, size), spare);
    EnterIs(s, a);
  }

  method WakePut(cache: Cache, ghost s: Sys<CacheEntry>, t: nat, entry: CacheEntry, value: Any, expiration: int, size: int)
    returns (pc: Pc<CacheEntry>, reply: Reply, ghost a: Action<CacheEntry>)
    requires cache.Valid() && cache.Abs() == s.c && Safe(s) && t in s.pcs && s.pcs[t] == Awake(entry, PutOp(value, expiration, size))
    modifies cache, cache.Objects
    ensures cache.Valid() && cache.Objects == old(cache.Objects)
    ensures Serves(a, Continue(t)) && Enabled(s, a)
    ensures Step(s, a).c == cache.Abs() && Step(s, a).pcs == s.pcs[t := pc] && reply == ReplyOf(s, a)
  {
    hide Inv, Safe, Step, CacheState.PutResume;
    WakingPut(s, t);
    SafeInv(s);
    WokenCounted(s, t);
    ObjectView(cache, entry);
    var out := cache.PutResume(entry, value, size, expiration, 0);
    pc, reply := After(PutOp(value, expiration, size), out, null), ReplyTo(PutOp(value, expiration, size), out);
    ghost var spare := new CacheEntry.Spare();
    a := Wake(t, spare);
    PutRegistersNothing(s.c, entry, value, expiration, size);
    WakeIs(s, a);
  }

  lemma PutRegistersNothing(c: State<CacheEntry>, r: CacheEntry, value: Any, expiration: int, size: int)
    requires r in c.objs
    ensures !PutResume(c, r, value, expiration, size).1.Register?
  {
  }

  lemma WakingPut(s: Sys<CacheEntry>, t: nat)
    requires Safe(s) && t in s.pcs && s.pcs[t].Awake?
    ensures s.pcs[t].op.PutOp? ==> s.pcs[t].op.expiration != 0
  {
    WaitingPut(s, t);
  }

  method RemoveKey(cache: Cache, ghost s: Sys<CacheEntry>, t: nat, key: string) returns (reply: Reply, ghost a: Action<CacheEntry>)
    requires cache.Valid() && cache.Abs() == s.c && Safe(s) && t in s.pcs && s.pcs[t].Idle?
    modifies cache, cache.Objects
    ensures cache.Valid() && cache.Objects == old(cache.Objects)
    ensures a == Delete(t, key) && Enabled(s, a) && Step(s, a).c == cache.Abs() && Step(s, a).pcs == s.pcs && reply == ReplyOf(s, a)
  {
    hide Inv, ThreadInv, SpecInv, Recency, CacheState.Del;
    a := Delete(t, key);
    if key in s.c.entries { EntryObj(s.c, key); }
    var ok := cache.Del(key);
    reply := Deleted(ok);
  }

  method VisitAll(cache: Cache, ghost s: Sys<CacheEntry>, t: nat, now: int) returns (panicked: bool, reply: Reply, ghost a: Action<CacheEntry>)
    requires cache.Valid() && cache.Abs() == s.c && Safe(s) && t in s.pcs && s.pcs[t].Idle?
    modifies cache, cache.Objects
    ensures cache.Valid() && cache.Objects == old(cache.Objects) && !panicked
    ensures a == Walk(t, now) && Enabled(s, a) && Step(s, a).c == cache.Abs() && Step(s, a).pcs == s.pcs && reply == ReplyOf(s, a)
  {
    hide Inv, ThreadInv, SpecInv, Recency, Sweep;
    a := Walk(t, now);
    var calls;
    panicked, calls := cache.Keys(now);
    CallsOf(cache);
    reply := Visited(calls);
  }

  /** The values of the mapped entries, as the heap and as the state have them. */
  lemma CallsOf(cache: Cache)
    requires cache.Valid()
    ensures var c := cache.Abs();
            (map k | k in cache.entries :: cache.entries[k].value) ==
            (map k | k in c.entries && c.entries[k] in c.objs :: c.objs[c.entries[k]].value)
  {
    forall k | k in cache.entries ensures cache.entries[k] in cache.Abs().objs {
      EntryObj(cache.Abs(), k);
    }
    hide Inv;
  }

  /** Serves one request: on the heap, and as the step of the machine that it is. */
  method Serve(cache: Cache, pcs: map<nat, Pc<CacheEntry>>, ghost s: Sys<CacheEntry>, q: Request)
    returns (next: map<nat, Pc<CacheEntry>>, reply: Reply, ghost a: Action<CacheEntry>)
    requires cache.Valid() && cache.Abs() == s.c && pcs == s.pcs && Safe(s) && Fits(pcs, q)
    modifies cache, cache.Objects
    ensures cache.Valid() && fresh(cache.Objects - old(cache.Objects))
    ensures Serves(a, q) && Enabled(s, a) && Step(s, a).c == cache.Abs() && Step(s, a).pcs == next
    ensures Inv(s.c) && reply == ReplyOf(s, a)
  {
    hide Safe, Step, Inv, Enabled;
    match q {
      case Begin(t, key, op) =>
        var pc;
        match op {
          case GetOp(now, canCompute) => pc, reply, a := BeginGet(cache, s, t, key, now, canCompute);
          case PutOp(value, expiration, size) => pc, reply, a := BeginPut(cache, s, t, key, value, expiration, size);
        }
        next := pcs[t := pc];
      case Continue(t) =>
        var pc;
        match pcs[t].op {
          case GetOp(now, canCompute) => pc, reply, a := WakeGet(cache, s, t, pcs[t].r, now, canCompute);
          case PutOp(value, expiration, size) => pc, reply, a := WakePut(cache, s, t, pcs[t].r, value, expiration, size);
        }
        next := pcs[t := pc];
      case Computed(t, value, expiration, size) =>
        var broadcast;
        broadcast, a := EndGet(cache, s, t, pcs[t].r, pcs[t].now, value, expiration, size);
        reply := Value(value);
        next := if broadcast then WakeAll(pcs[t := Idle]) else pcs[t := Idle];
      case Remove(t, key) =>
        reply, a := RemoveKey(cache, s, t, key);
        next := pcs;
      case Visit(t, now) =>
        var panicked;
        panicked, reply, a := VisitAll(cache, s, t, now);
        next := pcs;
    }
  }

  /** The run takes one step for each request that fits when its turn comes, the step that serves it, and no other. */
  ghost predicate Follows(tr: seq<Sys<CacheEntry>>, acts: seq<Action<CacheEntry>>, schedule: seq<Request>)
    requires |tr| == |acts| + 1
    decreases |schedule|
  {
    if schedule == [] then acts == []
    else
      var q, earlier, k := schedule[|schedule| - 1], schedule[..|schedule| - 1], |acts|;
      || (!Fits(tr[k].pcs, q) && Follows(tr, acts, earlier))
      || (k > 0 && Fits(tr[k - 1].pcs, q) && Serves(acts[k - 1], q) && Follows(tr[..k], acts[..k - 1], earlier))
  }

  lemma FollowsStep(tr: seq<Sys<CacheEntry>>, acts: seq<Action<CacheEntry>>, schedule: seq<Request>, q: Request, n: Sys<CacheEntry>, a: Action<CacheEntry>)
    requires |tr| == |acts| + 1 && Follows(tr, acts, schedule) && Fits(tr[|acts|].pcs, q) && Serves(a, q)
    ensures Follows(tr + [n], acts + [a], schedule + [q])
  {
    hide Fits, Serves;
    var tr', acts', schedule' := tr + [n], acts + [a], schedule + [q];
    assert tr'[..|tr|] == tr && acts'[..|acts|] == acts && schedule'[..|schedule|] == schedule;
    assert tr'[|acts|] == tr[|acts|];
  }

  lemma FollowsSkip(tr: seq<Sys<CacheEntry>>, acts: seq<Action<CacheEntry>>, schedule: seq<Request>, q: Request)
    requires |tr| == |acts| + 1 && Follows(tr, acts, schedule) && !Fits(tr[|acts|].pcs, q)
    ensures Follows(tr, acts, schedule + [q])
  {
    assert (schedule + [q])[..|schedule|] == schedule;
  }

  /** Each reply is that of its action. */
  ghost predicate Answered(tr: seq<Sys<CacheEntry>>, acts: seq<Action<CacheEntry>>, threads: set<nat>, max: int, replies: seq<Reply>)
    requires Run(tr, acts, threads, max)
  {
    |replies| == |acts| && forall i :: 0 <= i < |acts| ==> replies[i] == ReplyOf(tr[i], acts[i])
  }

  lemma AnsweredStep(tr: seq<Sys<CacheEntry>>, acts: seq<Action<CacheEntry>>, threads: set<nat>, max: int, replies: seq<Reply>,
                     n: Sys<CacheEntry>, a: Action<CacheEntry>, reply: Reply)
    requires Run(tr, acts, threads, max) && Answered(tr, acts, threads, max, replies)
    requires Run(tr + [n], acts + [a], threads, max)
    requires Inv(tr[|acts|].c) && Enabled(tr[|acts|], a) && reply == ReplyOf(tr[|acts|], a)
    ensures Answered(tr + [n], acts + [a], threads, max, replies + [reply])
  {
    hide ReplyOf, Inv, Enabled, Init;
    forall i | 0 <= i < |acts| + 1 ensures (replies + [reply])[i] == ReplyOf((tr + [n])[i], (acts + [a])[i]) {
      assert (tr + [n])[i] == tr[i];
    }
  }

  /** A value that a Get returns without computing it is the one that the last change before left to its key. */
  lemma ReplyIsLatest(tr: seq<Sys<CacheEntry>>, acts: seq<Action<CacheEntry>>, threads: set<nat>, max: int, replies: seq<Reply>, i: nat)
    requires Run(tr, acts, threads, max) && Answered(tr, acts, threads, max, replies)
    requires i < |acts| && (acts[i].Enter? || acts[i].Wake?) && replies[i].Value?
    ensures var latest := Latest(tr, acts, threads, max, i, KeyOf(tr[i], acts[i]));
            latest.Some? && latest.value.value == replies[i].value
  {
    hide Inv, Enabled, Step, OutcomeOf, Latest;
    GetReturnsLatest(tr, acts, threads, max, i);
  }

  /**
   What a Get gets to see on the heap, if it finds its key complete: the value last given to the
   key, exactly if it is in time or another goroutine counts on the entry, and otherwise nothing
   yet, or nil if it cannot compute. A computing Get gets the value it computed.
   */
  lemma ReplyExactly(tr: seq<Sys<CacheEntry>>, acts: seq<Action<CacheEntry>>, threads: set<nat>, max: int, replies: seq<Reply>, i: nat)
    requires Run(tr, acts, threads, max) && Answered(tr, acts, threads, max, replies) && i < |acts|
    ensures acts[i].Finish? ==> replies[i] == Value(acts[i].value)
    ensures (acts[i].Enter? || acts[i].Wake?) && OpOf(tr[i], acts[i]).GetOp? ==>
      var c, key, op := tr[i].c, KeyOf(tr[i], acts[i]), OpOf(tr[i], acts[i]);
      key in c.entries && c.entries[key] in c.objs && !c.objs[c.entries[key]].InFlight() ==>
        var latest := Latest(tr, acts, threads, max, i, key);
        && latest.Some?
        && replies[i] == if op.now <= latest.value.expiration || Awaited(tr[i], acts[i].t, c.entries[key]) then Value(latest.value.value)
                         else if op.canCompute then Pending else NoValue
  {
    hide Inv, Enabled, Step, OutcomeOf, Latest, Init, Awaited;
    if (acts[i].Enter? || acts[i].Wake?) && OpOf(tr[i], acts[i]).GetOp? {
      var c, key := tr[i].c, KeyOf(tr[i], acts[i]);
      if key in c.entries && c.entries[key] in c.objs && !c.objs[c.entries[key]].InFlight() {
        GetReturnsExactly(tr, acts, threads, max, i);
      }
    }
  }

  /**
   Serves any requests in any order; one that does not fit is passed over. The heap follows a
   run of the machine and gives its replies, so that everything proved of those runs holds of
   the pointers, and no panic of Get or Keys happens.
   */
  method Interleave(threads: set<nat>, max: int, schedule: seq<Request>)
    returns (cache: Cache, pcs: map<nat, Pc<CacheEntry>>, replies: seq<Reply>,
             ghost tr: seq<Sys<CacheEntry>>, ghost acts: seq<Action<CacheEntry>>)
    ensures cache.Valid() && Run(tr, acts, threads, max) && Follows(tr, acts, schedule)
    ensures cache.Abs() == tr[|acts|].c && pcs == tr[|acts|].pcs
    ensures Answered(tr, acts, threads, max, replies)
  {
    hide Safe, Step, Inv, Enabled, Run, Fits, Serves, Follows, Answered, ReplyOf;
    cache := new Cache(max);
    pcs := map t | t in threads :: Idle;
    replies := [];
    tr, acts := [Init(threads, max)], [];
    Start(tr, threads, max);
    assert schedule[..0] == [];
    for i := 0 to |schedule|
      invariant cache.Valid() && fresh(cache) && fresh(cache.Objects)
      invariant Run(tr, acts, threads, max) && |tr| == |acts| + 1 && Follows(tr, acts, schedule[..i])
      invariant Answered(tr, acts, threads, max, replies)
      invariant cache.Abs() == tr[|acts|].c && pcs == tr[|acts|].pcs
    {
      assert schedule[..i + 1] == schedule[..i] + [schedule[i]];
      if Fits(pcs, schedule[i]) {
        AlwaysSafe(tr, acts, threads, max, |acts|);
        ghost var s := tr[|acts|];
        var reply;
        ghost var a;
        pcs, reply, a := Serve(cache, pcs, s, schedule[i]);
        Extend(tr, acts, threads, max, a);
        FollowsStep(tr, acts, schedule[..i], schedule[i], Step(s, a), a);
        AnsweredStep(tr, acts, threads, max, replies, Step(s, a), a, reply);
        tr, acts, replies := tr + [Step(s, a)], acts + [a], replies + [reply];
      } else {
        FollowsSkip(tr, acts, schedule[..i], schedule[i]);
      }
    }
    assert schedule[..|schedule|] == schedule;
  }

  lemma Start(tr: seq<Sys<CacheEntry>>, threads: set<nat>, max: int)
    requires tr == [Init(threads, max)]
    ensures Run(tr, [], threads, max) && Follows(tr, [], []) && Answered(tr, [], threads, max, [])
  {
  }
}
