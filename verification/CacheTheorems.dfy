/**
 What holds in every run of the concurrent cache.
 */
module CacheTheorems {
  import opened CacheState
  import opened CacheEviction
  import opened CacheMachine
  import opened Sets

  ghost function Init<R>(threads: set<nat>, max: int): Sys<R> {
    Sys(Empty(max), map t | t in threads :: Idle, map[], map[], 0)
  }

  /** tr lists the states of a run that starts with an empty cache and takes the actions acts. */
  ghost predicate Run<R>(tr: seq<Sys<R>>, acts: seq<Action<R>>, threads: set<nat>, max: int) {
    && |tr| == |acts| + 1
    && tr[0] == Init(threads, max)
    && forall i :: 0 <= i < |acts| ==> Inv(tr[i].c) && Enabled(tr[i], acts[i]) && tr[i + 1] == Step(tr[i], acts[i])
  }

  lemma InitSafe<R>(threads: set<nat>, max: int)
    ensures Safe(Init<R>(threads, max))
  {
  }

  /** No interleaving of Get, Put, Del and Keys ever breaks the cache. */
  lemma {:induction false} AlwaysSafe<R>(tr: seq<Sys<R>>, acts: seq<Action<R>>, threads: set<nat>, max: int, i: nat)
    requires Run(tr, acts, threads, max) && i < |tr|
    ensures Safe(tr[i])
  {
    if i == 0 {
      InitSafe<R>(threads, max);
    } else {
      AlwaysSafe(tr, acts, threads, max, i - 1);
      StepSafe(tr[i - 1], acts[i - 1]);
    }
  }

  /** The actions of a run are exactly the enabled ones: a safe state lets any enabled action run. */
  lemma Extend<R>(tr: seq<Sys<R>>, acts: seq<Action<R>>, threads: set<nat>, max: int, a: Action<R>)
    requires Run(tr, acts, threads, max) && Enabled(tr[|acts|], a)
    ensures Inv(tr[|acts|].c) && Run(tr + [Step(tr[|acts|], a)], acts + [a], threads, max)
  {
    hide Inv, Enabled, Step, Init;
    AlwaysSafe(tr, acts, threads, max, |acts|);
    var tr', acts' := tr + [Step(tr[|acts|], a)], acts + [a];
    forall i | 0 <= i < |acts'| ensures Inv(tr'[i].c) && Enabled(tr'[i], acts'[i]) && tr'[i + 1] == Step(tr'[i], acts'[i]) {
      assert tr'[i] == tr[i] && (i < |acts| ==> acts'[i] == acts[i]);
    }
  }

  // ----- single flight -----

  /** Two goroutines never compute the same key at the same time. */
  lemma SingleFlight<R>(s: Sys<R>, t: nat, u: nat)
    requires Safe(s) && t in s.pcs && u in s.pcs && t != u && s.pcs[t].Computing? && s.pcs[u].Computing?
    ensures s.pcs[t].r in s.c.objs && s.pcs[u].r in s.c.objs
    ensures s.c.objs[s.pcs[t].r].key != s.c.objs[s.pcs[u].r].key
  {
    var r, q := s.pcs[t].r, s.pcs[u].r;
    WaitedFor(s, t);
    WaitedFor(s, u);
    Counted(s.c, r);
    Counted(s.c, q);
    if r == q {
      assert Counted1(s.c.objs, s.pcs, r);
      assert {t, u} <= Owners(s.pcs, r);
      SubsetSize({t, u}, Owners(s.pcs, r));
    }
  }

  /**
   The counter of an entry is the number of goroutines that compute it or wait
   for it, and an entry with a count is never removed from the map.
   */
  lemma CountsExact<R>(s: Sys<R>, r: R)
    requires Safe(s) && r in s.c.objs
    ensures s.c.objs[r].waiting == |Owners(s.pcs, r)| + |Waiters(s.pcs, r)|
    ensures s.c.objs[r].waiting > 0 ==> Mapped(s.c, r)
  {
    assert Counted1(s.c.objs, s.pcs, r);
    if s.c.objs[r].waiting > 0 { Counted(s.c, r); }
  }

  // ----- progress -----

  /** Whoever sleeps waits for an entry whose owner is computing and will be able to finish. */
  lemma NoLostWakeup<R>(s: Sys<R>, t: nat)
    requires Safe(s) && t in s.pcs && s.pcs[t].Asleep?
    ensures exists u :: u in s.pcs && s.pcs[u].Computing? && s.pcs[u].r == s.pcs[t].r && Enabled(s, Finish(u, Nil, 1, 0))
  {
    var r := s.pcs[t].r;
    assert Counted1(s.c.objs, s.pcs, r);
    assert |Owners(s.pcs, r)| == 1;
    var u :| u in Owners(s.pcs, r);
    assert Enabled(s, Finish(u, Nil, 1, 0));
  }

  /** The owner's finish wakes every goroutine that sleeps on its entry. */
  lemma FinishWakes<R>(s: Sys<R>, a: Action<R>, t: nat)
    requires Safe(s) && Enabled(s, a) && a.Finish? && t in s.pcs && s.pcs[t].Asleep? && s.pcs[t].r == s.pcs[a.t].r
    ensures t in Step(s, a).pcs && Step(s, a).pcs[t] == Awake(s.pcs[t].r, s.pcs[t].op)
  {
    var r := s.pcs[a.t].r;
    assert Counted1(s.c.objs, s.pcs, r);
    assert a.t in Owners(s.pcs, r) && t in Waiters(s.pcs, r);
    hide Inv, Trim;
  }

  /** As long as some call has not returned, some call can go on. */
  lemma NoDeadlock<R>(s: Sys<R>, t: nat, spare: R) returns (a: Action<R>)
    requires Safe(s) && t in s.pcs && !s.pcs[t].Idle? && spare !in s.c.objs
    ensures Enabled(s, a) && a.t in s.pcs && !s.pcs[a.t].Idle?
  {
    match s.pcs[t]
    case Asleep(_, _) =>
      NoLostWakeup(s, t);
      var u :| u in s.pcs && s.pcs[u].Computing? && s.pcs[u].r == s.pcs[t].r && Enabled(s, Finish(u, Nil, 1, 0));
      a := Finish(u, Nil, 1, 0);
    case Awake(_, _) =>
      a := Wake(t, spare);
    case Computing(_, _) =>
      a := Finish(t, Nil, 1, 0);
  }

  // ----- the cache against a plain map -----

  /** Get, first critical section: what it returns without computing is the latest value of the key. */
  lemma EnterReturnsLatest<R>(s: Sys<R>, key: string, now: int, canCompute: bool)
    requires Safe(s)
    ensures key in s.c.entries ==> s.c.entries[key] in s.c.objs
    ensures var (d, out) := GetEnter(s.c, key, now, canCompute);
      && (out.Hit? ==> key in s.spec && out.value == s.spec[key].value)
      && (out.Miss? || out.Register? <==>
          key !in s.c.entries ||
          var e := s.c.objs[s.c.entries[key]]; !e.InFlight() && e.Expired(now) && e.waiting == 0)
      && (out.Register? ==> canCompute)
  {
    hide Inv;
    if key in s.c.entries {
      EntryObj(s.c, key);
      CompleteListed(s.c, s.c.entries[key]);
    }
  }

  /** The same after waiting: the goroutine itself no longer counts. */
  lemma WakeReturnsLatest<R>(s: Sys<R>, t: nat)
    requires Safe(s) && t in s.pcs && s.pcs[t].Awake? && s.pcs[t].op.GetOp?
    ensures s.pcs[t].r in s.c.objs
    ensures var e := s.c.objs[s.pcs[t].r];
      var (d, out) := GetResume(s.c, s.pcs[t].r, s.pcs[t].op.now, s.pcs[t].op.canCompute);
      && (out.Hit? ==> e.key in s.spec && out.value == s.spec[e.key].value)
      && (out.Miss? || out.Register? <==> !e.InFlight() && e.Expired(s.pcs[t].op.now) && e.waiting == 1)
      && (out.Register? ==> s.pcs[t].op.canCompute)
  {
    WaitedFor(s, t);
    Counted(s.c, s.pcs[t].r);
    CompleteListed(s.c, s.pcs[t].r);
    hide Inv;
  }

  /** A computation's result and a Put are what a Get of the key then returns, while the entry lives. */
  lemma StoredIsLatest<R>(s: Sys<R>, a: Action<R>)
    requires Safe(s) && Enabled(s, a)
    ensures a.Finish? && s.pcs[a.t].r in s.c.objs ==>
      Step(s, a).spec == s.spec[s.c.objs[s.pcs[a.t].r].key := Record(a.value, a.expiration)]
    ensures a.Enter? && a.op.PutOp? && Step(s, a).pcs[a.t].Idle? ==> Step(s, a).spec == s.spec[a.key := Record(a.op.value, a.op.expiration)]
    ensures a.Wake? && s.pcs[a.t].op.PutOp? && Step(s, a).pcs[a.t].Idle? ==>
      Step(s, a).spec == s.spec[s.c.objs[s.pcs[a.t].r].key := Record(s.pcs[a.t].op.value, s.pcs[a.t].op.expiration)]
    ensures a.Delete? ==> Step(s, a).spec == if Del(s.c, a.key).1 then s.spec - {a.key} else s.spec
    ensures a.Walk? || (a.Enter? && a.op.GetOp?) || (a.Wake? && s.pcs[a.t].op.GetOp?) ==> Step(s, a).spec == s.spec
  {
    hide Inv, Trim, Drop;
    if a.Enter? && a.key in s.c.entries { EntryObj(s.c, a.key); }
  }

  // ----- the memory limit -----

  ghost predicate NonNegativeAction<R>(a: Action<R>) {
    (a.Finish? ==> a.size >= 0) && (a.Enter? && a.op.PutOp? ==> a.op.size >= 0)
  }

  ghost predicate Sizes<R>(s: Sys<R>) {
    && NonNegatives(s.c.objs)
    && (forall t :: t in s.pcs && (s.pcs[t].Asleep? || s.pcs[t].Awake?) && s.pcs[t].op.PutOp? ==> s.pcs[t].op.size >= 0)
  }

  ghost predicate NonNegatives<R>(objs: map<R, Entry>) { forall r :: r in objs ==> objs[r].size >= 0 }

  lemma EnterSizes<R>(c: State<R>, key: string, op: Op)
    requires Inv(c) && NonNegatives(c.objs) && (op.PutOp? ==> op.size >= 0)
    ensures key in c.entries ==> c.entries[key] in c.objs
    ensures NonNegatives(EnterC(c, key, op).0.objs)
  {
    hide Inv, Drop;
    if key in c.entries { EntryObj(c, key); }
  }

  lemma ResumeSizes<R>(c: State<R>, r: R, op: Op)
    requires Inv(c) && r in c.objs && NonNegatives(c.objs) && (op.PutOp? ==> op.size >= 0)
    ensures NonNegatives(ResumeC(c, r, op).0.objs)
  {
    hide Inv, Drop;
  }

  lemma FinishSizes<R>(s: Sys<R>, a: Action<R>)
    requires Safe(s) && Enabled(s, a) && a.Finish? && NonNegatives(s.c.objs) && a.size >= 0
    ensures NonNegatives(Step(s, a).c.objs)
  {
    hide Inv, ThreadInv, SpecInv, Recency, Trim, Drop;
    WaitedFor(s, a.t);
    var m := Complete(s.c, s.pcs[a.t].r, a.value, a.expiration, a.size);
    CompleteInv(s.c, s.pcs[a.t].r, a.value, a.expiration, a.size);
    Listed(m);
    TrimInv(m, |m.order| - 1, s.pcs[a.t].now);
  }

  lemma StepSizes<R>(s: Sys<R>, a: Action<R>)
    requires Safe(s) && Enabled(s, a) && Sizes(s) && NonNegativeAction(a)
    ensures Sizes(Step(s, a))
  {
    hide Inv, ThreadInv, SpecInv, Recency, Trim, Drop;
    match a
    case Enter(_, key, op, _) =>
      EnterSizes(s.c, key, op);
    case Wake(t, _) =>
      WaitedFor(s, t);
      ResumeSizes(s.c, s.pcs[t].r, s.pcs[t].op);
    case Finish(_, _, _, _) =>
      FinishSizes(s, a);
    case Delete(_, key) =>
      if key in s.c.entries { EntryObj(s.c, key); }
    case Walk(_, _) =>
  }

  lemma InitSizes<R>(threads: set<nat>, max: int)
    ensures Sizes(Init<R>(threads, max))
  {
  }

  lemma {:induction false} AlwaysSizes<R>(tr: seq<Sys<R>>, acts: seq<Action<R>>, threads: set<nat>, max: int, i: nat)
    requires Run(tr, acts, threads, max) && i < |tr| && forall j :: 0 <= j < |acts| ==> NonNegativeAction(acts[j])
    ensures Sizes(tr[i])
  {
    hide Inv, Enabled, Step, Init, Sizes, NonNegativeAction;
    if i == 0 {
      InitSizes<R>(threads, max);
    } else {
      AlwaysSizes(tr, acts, threads, max, i - 1);
      AlwaysSafe(tr, acts, threads, max, i - 1);
      StepSizes(tr[i - 1], acts[i - 1]);
    }
  }

  /**
   The end of a computing Get meets the limit, or every listed entry of positive
   size or past its time still has waiters; nothing goes if the limit was met, and
   only entries of this kind; and when no sizes are negative, the evicted entries
   are exactly those it could dispose of for which the disposable entries used less
   recently did not free enough.
   */
  lemma LimitAfterFinish<R>(tr: seq<Sys<R>>, acts: seq<Action<R>>, threads: set<nat>, max: int, i: nat)
    requires Run(tr, acts, threads, max) && i < |acts| && acts[i].Finish?
    ensures var c := tr[i + 1].c; var now := tr[i].pcs[acts[i].t].now;
      c.used <= c.max || forall r :: r in c.order ==> r in c.objs && ((c.objs[r].size > 0 || c.objs[r].Expired(now)) ==> c.objs[r].waiting > 0)
    ensures tr[i].pcs[acts[i].t].r in tr[i].c.objs
    ensures var m := Complete(tr[i].c, tr[i].pcs[acts[i].t].r, acts[i].value, acts[i].expiration, acts[i].size);
      var now := tr[i].pcs[acts[i].t].now;
      && (forall r :: r in m.order ==> r in m.objs)
      && (m.used <= m.max ==> tr[i + 1].c == m)
      && (forall r :: r in m.order && r !in tr[i + 1].c.order ==>
            m.objs[r].waiting == 0 && (m.objs[r].size > 0 || now > m.objs[r].expiration))
      && ((forall j :: 0 <= j < |acts| ==> NonNegativeAction(acts[j])) ==>
          forall k :: 0 <= k < |m.order| ==> (m.order[k] !in tr[i + 1].c.order <==> Victim(m, k, |m.order| - 1, now)))
  {
    hide Inv, Enabled, Step, Init, Safe, Sizes, Trim, Victim, Drop, NonNegative;
    var s, a := tr[i], acts[i];
    AlwaysSafe(tr, acts, threads, max, i);
    if forall j :: 0 <= j < |acts| ==> NonNegativeAction(acts[j]) {
      AlwaysSizes(tr, acts, threads, max, i);
      assert NonNegativeAction(acts[i]);
    }
    FinishIs(s, a);
    var m := Complete(s.c, s.pcs[a.t].r, a.value, a.expiration, a.size);
    var now := s.pcs[a.t].now;
    Listed(m);
    EvictionPolicy(m, now);
    TrimInv(m, |m.order| - 1, now);
    forall r | r in TrimAll(m, now).order ensures r in m.objs && m.objs[r].waiting >= 0 {
      CompleteListed(m, r);
    }
  }

  /** The end of a computing Get is the eviction loop on a sound cache, without negative sizes if there are none so far. */
  lemma FinishIs<R>(s: Sys<R>, a: Action<R>)
    requires Safe(s) && Enabled(s, a) && a.Finish?
    ensures a.t in s.pcs && s.pcs[a.t].Computing? && s.pcs[a.t].r in s.c.objs
    ensures var m := Complete(s.c, s.pcs[a.t].r, a.value, a.expiration, a.size);
            && Inv(m) && (Sizes(s) && a.size >= 0 ==> NonNegative(m)) && (forall r :: r in m.order ==> r in m.objs)
            && Step(s, a).c == TrimAll(m, s.pcs[a.t].now)
  {
    WaitedFor(s, a.t);
    var m := Complete(s.c, s.pcs[a.t].r, a.value, a.expiration, a.size);
    hide Inv, ThreadInv, SpecInv, Recency, TrimAll, Trim;
    CompleteInv(s.c, s.pcs[a.t].r, a.value, a.expiration, a.size);
    Listed(m);
  }
}
