/**
 What holds in every run of the buffered sinks, and where their promises stop.
 */
module FlushTheorems {
  import opened Sets
  import opened FlushProtocol

  /** acts, taken one after the other, lead from s to n. */
  ghost predicate Reaches(cfg: Config, s: State, acts: seq<Action>, n: State) {
    if acts == [] then s == n
    else
      var last := |acts| - 1;
      exists m :: Reaches(cfg, s, acts[..last], m) && Enabled(m, acts[last]) && n == Step(cfg, m, acts[last])
  }

  lemma InitInv(cfg: Config, threads: set<nat>)
    ensures Inv(cfg, Init(threads))
  {
    assert TokenHolders(Init(threads).pcs) == {};
  }

  lemma {:induction false} AlwaysInv(cfg: Config, threads: set<nat>, acts: seq<Action>, n: State)
    requires Reaches(cfg, Init(threads), acts, n)
    ensures Inv(cfg, n)
  {
    if acts == [] {
      InitInv(cfg, threads);
    } else {
      var last := |acts| - 1;
      var m :| Reaches(cfg, Init(threads), acts[..last], m) && Enabled(m, acts[last]) && n == Step(cfg, m, acts[last]);
      AlwaysInv(cfg, threads, acts[..last], m);
      EncoderStep(cfg, m, acts[last]);
      TokenStep(cfg, m, acts[last]);
      RecordStep(cfg, m, acts[last]);
      PromiseStep(cfg, m, acts[last]);
    }
  }

  // ----- the two locks -----

  /**
   timerLock is held exactly while one goroutine is between TryLock and arming,
   or between a successful Stop and the unlock, or runs the callback, or while
   a timer is armed; no two of these happen at once.
   */
  lemma TokenExact(cfg: Config, s: State)
    requires Inv(cfg, s)
    ensures s.token <==> s.armed != {} || exists t :: t in s.pcs && HoldsToken(s.pcs[t])
    ensures forall t, u :: t in s.pcs && u in s.pcs && HoldsToken(s.pcs[t]) && HoldsToken(s.pcs[u]) ==> t == u
    ensures forall t :: t in s.pcs && HoldsToken(s.pcs[t]) ==> s.armed == {}
    ensures forall i, j :: i in s.armed && j in s.armed ==> i == j
  {
    forall t | t in s.pcs && HoldsToken(s.pcs[t]) ensures s.token && s.armed == {} && TokenHolders(s.pcs) == {t} {
      Unique(s, t);
    }
    if s.token && s.armed == {} {
      var t :| t in TokenHolders(s.pcs);
    }
    forall i, j | i in s.armed && j in s.armed ensures i == j {
      SubsetSize({i, j}, s.armed);
    }
  }

  /** Neither lock is ever unlocked while it is free, and the encoder only by the goroutine that holds it. */
  lemma UnlocksHeld(cfg: Config, s: State, t: nat)
    requires Inv(cfg, s) && Enabled(s, Run(t))
    ensures s.token && !Step(cfg, s, Run(t)).token ==> HoldsToken(s.pcs[t])
    ensures s.pcs[t].ReleaseToken? || s.pcs[t].CallbackEnd? ==> s.token && !Step(cfg, s, Run(t)).token
    ensures s.pcs[t].WriteUnlock? || s.pcs[t].Leave? || s.pcs[t].FlushUnlock? ==> s.enc == By(t) && Step(cfg, s, Run(t)).enc == Free
    ensures cfg.influx && s.pcs[t].Decide? ==> s.enc == By(t)
    ensures s.enc.By? && Step(cfg, s, Run(t)).enc != s.enc ==> s.enc == By(t)
  {
    if HoldsToken(s.pcs[t]) { Unique(s, t); }
    assert HoldsEncoder(cfg, s.pcs[t]) ==> s.enc == By(t);
    hide TokenInv, RecordInv, PromiseInv, TokenSpent;
  }

  /** While anything is under way, something can go on. */
  lemma NoDeadlock(cfg: Config, s: State, t: nat) returns (u: nat)
    requires Inv(cfg, s) && t in s.pcs && !s.pcs[t].Idle?
    ensures Enabled(s, Run(u))
  {
    u := if s.enc.By? then s.enc.t else t;
  }

  // ----- the records -----

  /** What the flushes took, in order, followed by what the encoder holds is what was encoded, in order. */
  lemma NothingLost(cfg: Config, threads: set<nat>, acts: seq<Action>, n: State)
    requires Reaches(cfg, Init(threads), acts, n)
    ensures Flat(n.taken) + n.encoder == n.log && n.count == |n.encoder|
  {
    AlwaysInv(cfg, threads, acts, n);
  }

  ghost predicate AllIdle(s: State) { forall t :: t in s.pcs ==> s.pcs[t].Idle? }

  /**
   When every call has returned and no timer is armed, records are left behind
   if and only if, since the encoder was last emptied, a Write failed to get
   timerLock from a callback that had emptied the encoder already.
   */
  lemma StrandedExactly(cfg: Config, threads: set<nat>, acts: seq<Action>, n: State)
    requires Reaches(cfg, Init(threads), acts, n) && AllIdle(n) && n.armed == {}
    ensures n.encoder != [] <==> n.missed
  {
    AlwaysInv(cfg, threads, acts, n);
  }

  // ----- batches -----

  /** On its way to taking the buffer. */
  predicate WillTake(pc: Pc) {
    pc.StopLook? || pc.StopTimer? || pc.ReleaseToken? || pc.FlushLock? || pc.Take?
  }

  /** A full or overfull buffer is about to be taken, or its writer is about to notice. */
  ghost predicate BatchInv(cfg: Config, s: State) {
    s.count >= cfg.batch ==>
      || (exists t :: t in s.pcs && WillTake(s.pcs[t]))
      || (s.count == cfg.batch && exists t :: t in s.pcs && s.pcs[t].Decide?)
  }

  /** Inside Write, up to the decision about the buffer. */
  predicate InWrite(pc: Pc) { pc.WriteLock? || pc.Encode? || pc.Decide? }

  /** What a step does to the record counter, and where it leads. */
  ghost predicate CountEffect(cfg: Config, s: State, t: nat, n: State) {
    && t in s.pcs && t in n.pcs && n.pcs == s.pcs[t := n.pcs[t]]
    && n.count == (if s.pcs[t].Encode? then s.count + 1 else if s.pcs[t].Take? then 0 else s.count)
    && (InWrite(n.pcs[t]) ==> InWrite(s.pcs[t]))
    && (s.pcs[t].Encode? ==> n.pcs[t].Decide?)
    && (s.pcs[t].Decide? && s.count == cfg.batch ==> WillTake(n.pcs[t]))
    && (WillTake(s.pcs[t]) && !s.pcs[t].Take? ==> WillTake(n.pcs[t]))
  }

  lemma WritingCounts(cfg: Config, s: State, t: nat)
    requires t in s.pcs && cfg.influx && !s.pcs[t].WriteUnlock? && (s.pcs[t].WriteLock? || s.pcs[t].Encode? || s.pcs[t].WriteUnlock? || s.pcs[t].Decide?)
    ensures CountEffect(cfg, s, t, Writing(cfg, s, t))
  {
  }

  lemma ArmingCounts(cfg: Config, s: State, t: nat)
    requires t in s.pcs && cfg.influx && !s.pcs[t].WriteUnlock? && (s.pcs[t].TryToken? || s.pcs[t].LookTimer? || s.pcs[t].Create? || s.pcs[t].Assign? || s.pcs[t].Reset? || s.pcs[t].Leave?)
    ensures CountEffect(cfg, s, t, Arming(cfg, s, t))
  {
    hide TokenSpent;
  }

  lemma StoppingCounts(cfg: Config, s: State, t: nat)
    requires t in s.pcs && cfg.influx && !s.pcs[t].WriteUnlock? && (s.pcs[t].StopLook? || s.pcs[t].StopTimer? || s.pcs[t].ReleaseToken?)
    ensures CountEffect(cfg, s, t, Stopping(s, t))
  {
  }

  lemma FlushingCounts(cfg: Config, s: State, t: nat)
    requires t in s.pcs && cfg.influx && !s.pcs[t].WriteUnlock? && (s.pcs[t].FlushLock? || s.pcs[t].Take? || s.pcs[t].FlushUnlock? || s.pcs[t].CallbackEnd?)
    ensures CountEffect(cfg, s, t, Flushing(s, t))
  {
  }

  lemma CountEffects(cfg: Config, s: State, t: nat)
    requires cfg.influx && EncoderInv(cfg, s) && Enabled(s, Run(t))
    ensures CountEffect(cfg, s, t, Advance(cfg, s, t))
  {
    assert !s.pcs[t].WriteUnlock?;
    hide CountEffect, EncoderInv, Writing, Arming, Stopping, Flushing;
    match s.pcs[t]
    case WriteLock(_) | Encode(_) | WriteUnlock | Decide => WritingCounts(cfg, s, t);
    case TryToken | LookTimer | Create | Assign(_) | Reset(_) | Leave => ArmingCounts(cfg, s, t);
    case StopLook | StopTimer(_) | ReleaseToken => StoppingCounts(cfg, s, t);
    case FlushLock(_) | Take(_) | FlushUnlock(_) | CallbackEnd => FlushingCounts(cfg, s, t);
  }

  /** In influx, the goroutine that decides is inside the encoder lock and so alone. */
  lemma DecideAlone(cfg: Config, s: State, t: nat)
    requires cfg.influx && EncoderInv(cfg, s) && t in s.pcs && s.pcs[t].Encode?
    ensures forall u :: u in s.pcs && s.pcs[u].Decide? ==> u == t
  {
  }

  lemma BatchStep(cfg: Config, s: State, a: Action)
    requires cfg.influx && cfg.batch > 0 && EncoderInv(cfg, s) && BatchInv(cfg, s) && Enabled(s, a)
    ensures BatchInv(cfg, Step(cfg, s, a))
  {
    var n := Step(cfg, s, a);
    if a.Run? {
      CountEffects(cfg, s, a.t);
      if s.pcs[a.t].Encode? { DecideAlone(cfg, s, a.t); }
    }
    hide Advance, TokenSpent, EncoderInv, WillTake;
    if n.count >= cfg.batch && !(n.pcs[a.t].Decide? && n.count == cfg.batch) && !WillTake(n.pcs[a.t]) {
      if t :| t in s.pcs && WillTake(s.pcs[t]) {
        assert t in n.pcs && n.pcs[t] == s.pcs[t];
      } else {
        var t :| t in s.pcs && s.pcs[t].Decide? && s.count == cfg.batch;
        assert t in n.pcs && n.pcs[t] == s.pcs[t];
      }
    }
  }

  lemma {:induction false} AlwaysBatch(cfg: Config, threads: set<nat>, acts: seq<Action>, n: State)
    requires cfg.influx && cfg.batch > 0 && Reaches(cfg, Init(threads), acts, n)
    ensures BatchInv(cfg, n)
  {
    if acts == [] {
    } else {
      var last := |acts| - 1;
      var m :| Reaches(cfg, Init(threads), acts[..last], m) && Enabled(m, acts[last]) && n == Step(cfg, m, acts[last]);
      AlwaysBatch(cfg, threads, acts[..last], m);
      AlwaysInv(cfg, threads, acts[..last], m);
      BatchStep(cfg, m, acts[last]);
    }
  }

  /** Only w writes; and once the batch is full w is on its way to taking it. */
  ghost predicate OneWriter(cfg: Config, s: State, w: nat) {
    && (forall t :: t in s.pcs && InWrite(s.pcs[t]) ==> t == w)
    && s.count <= cfg.batch
    && (s.count == cfg.batch ==> w in s.pcs && (s.pcs[w].Decide? || WillTake(s.pcs[w])))
  }

  lemma OneWriterStep(cfg: Config, s: State, a: Action, w: nat)
    requires cfg.influx && cfg.batch > 0 && EncoderInv(cfg, s) && OneWriter(cfg, s, w) && Enabled(s, a)
    requires a.Write? ==> a.t == w
    ensures OneWriter(cfg, Step(cfg, s, a), w)
  {
    if a.Run? { CountEffects(cfg, s, a.t); }
    assert WillTake(FlushLock(true)) && !WillTake(Idle);
    hide Advance, TokenSpent, EncoderInv;
  }

  /** With one writing goroutine the encoder never holds more than a batch. */
  lemma {:induction false} SingleWriterBound(cfg: Config, threads: set<nat>, acts: seq<Action>, n: State, w: nat)
    requires cfg.influx && cfg.batch > 0 && Reaches(cfg, Init(threads), acts, n)
    requires forall i :: 0 <= i < |acts| && acts[i].Write? ==> acts[i].t == w
    ensures OneWriter(cfg, n, w) && n.count == |n.encoder| <= cfg.batch
  {
    AlwaysInv(cfg, threads, acts, n);
    if acts == [] {
    } else {
      var last := |acts| - 1;
      var m :| Reaches(cfg, Init(threads), acts[..last], m) && Enabled(m, acts[last]) && n == Step(cfg, m, acts[last]);
      SingleWriterBound(cfg, threads, acts[..last], m, w);
      AlwaysInv(cfg, threads, acts[..last], m);
      OneWriterStep(cfg, m, acts[last], w);
    }
  }

  // ----- timers -----

  /** A second timer is never made: whoever is about to make one sees that there is none. */
  ghost predicate OneTimer(s: State) {
    && s.created <= 1
    && (s.created == 1 ==> s.timer == T(0) || exists t :: t in s.pcs && s.pcs[t].Assign?)
    && (forall t :: t in s.pcs && s.pcs[t].Create? ==> s.created == 0)
  }

  /** Only one goroutine at a time looks for a timer or makes one. */
  ghost predicate OneMaker(s: State) {
    forall t, u :: t in s.pcs && u in s.pcs && Makes(s.pcs[t]) && Makes(s.pcs[u]) ==> t == u
  }

  predicate Makes(pc: Pc) { pc.LookTimer? || pc.Create? || pc.Assign? }

  lemma InfluxOneMaker(cfg: Config, s: State)
    requires cfg.influx && EncoderInv(cfg, s)
    ensures OneMaker(s)
  {
  }

  lemma OneTimerStep(cfg: Config, s: State, a: Action)
    requires OneMaker(s) && TimersKnown(s) && OneTimer(s) && Enabled(s, a)
    ensures OneTimer(Step(cfg, s, a))
  {
    var n := Step(cfg, s, a);
    if a.Run? { TimerEffects(cfg, s, a.t); }
    hide Advance, TokenSpent;
    if s.created == 1 && s.timer != T(0) {
      var u :| u in s.pcs && s.pcs[u].Assign?;
      if u != a.t { assert n.pcs[u] == s.pcs[u]; }
    }
    if a.Run? && s.pcs[a.t].Create? { assert n.pcs[a.t].Assign?; }
  }
}
