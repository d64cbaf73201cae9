/**
 What an armed timer means: with one writer and nobody closing, InfluxSink never leaves a timer
 armed for an empty encoder.
 */
module FlushTimers {
  import opened Sets
  import opened FlushProtocol
  import opened FlushTheorems
  import opened FlushLimits

  /** Inside a flush that is not the timer's, or on the way to it. */
  predicate ByHand(pc: Pc) {
    pc.StopLook? || pc.StopTimer? || pc.ReleaseToken? || ((pc.FlushLock? || pc.Take?) && !pc.cb)
  }

  /** Has added a record and still holds the encoder. */
  predicate HasAdded(pc: Pc) {
    pc.Decide? || pc.TryToken? || pc.LookTimer? || pc.Create? || pc.Reset?
  }

  /** What a step does to records and timers, and where it leads. */
  ghost predicate RunEffect(cfg: Config, s: State, t: nat, n: State) {
    && t in s.pcs && t in n.pcs && n.pcs == s.pcs[t := n.pcs[t]]
    && var before, after := s.pcs[t], n.pcs[t];
    && n.encoder == (match before case Encode(rec) => s.encoder + [rec] case Take(_) => [] case _ => s.encoder)
    && n.armed == (match before
                   case Create => s.armed + {s.created} case Reset(id) => s.armed + {id}
                   case StopTimer(id) => s.armed - {id} case _ => s.armed)
    && (HasAdded(after) ==> HasAdded(before) || before.Encode?)
    && (ByHand(after) ==> ByHand(before) || before.Decide?)
    && (after.StopTimer? ==> before.StopLook? && s.timer == T(after.id))
    && (after.ReleaseToken? ==> before.StopTimer?)
    && ((after.FlushLock? || after.Take?) && !after.cb ==>
         || before.StopTimer? || before.ReleaseToken? || (before.FlushLock? && !before.cb)
         || (before.StopLook? && s.timer.NoTimer?) || (before.Decide? && !cfg.delayed))
    && (Prepares(after) ==> Prepares(before))
  }

  lemma WritingRuns(cfg: Config, s: State, t: nat)
    requires t in s.pcs && cfg.influx && (s.pcs[t].WriteLock? || s.pcs[t].Encode? || s.pcs[t].Decide?)
    ensures RunEffect(cfg, s, t, Writing(cfg, s, t))
  {
  }

  lemma ArmingRuns(cfg: Config, s: State, t: nat)
    requires t in s.pcs && (s.pcs[t].TryToken? || s.pcs[t].LookTimer? || s.pcs[t].Create? || s.pcs[t].Assign? || s.pcs[t].Reset? || s.pcs[t].Leave?)
    ensures RunEffect(cfg, s, t, Arming(cfg, s, t))
  {
    hide TokenSpent;
  }

  lemma StoppingRuns(cfg: Config, s: State, t: nat)
    requires t in s.pcs && (s.pcs[t].StopLook? || s.pcs[t].StopTimer? || s.pcs[t].ReleaseToken?)
    ensures RunEffect(cfg, s, t, Stopping(s, t))
  {
  }

  lemma FlushingRuns(cfg: Config, s: State, t: nat)
    requires t in s.pcs && (s.pcs[t].FlushLock? || s.pcs[t].Take? || s.pcs[t].FlushUnlock? || s.pcs[t].CallbackEnd?)
    ensures RunEffect(cfg, s, t, Flushing(s, t))
  {
  }

  lemma RunEffects(cfg: Config, s: State, t: nat)
    requires cfg.influx && EncoderInv(cfg, s) && Enabled(s, Run(t))
    ensures RunEffect(cfg, s, t, Advance(cfg, s, t))
  {
    assert !s.pcs[t].WriteUnlock?;
    hide RunEffect, EncoderInv, Writing, Arming, Stopping, Flushing;
    match s.pcs[t]
    case WriteLock(_) | Encode(_) | WriteUnlock | Decide => WritingRuns(cfg, s, t);
    case TryToken | LookTimer | Create | Assign(_) | Reset(_) | Leave => ArmingRuns(cfg, s, t);
    case StopLook | StopTimer(_) | ReleaseToken => StoppingRuns(cfg, s, t);
    case FlushLock(_) | Take(_) | FlushUnlock(_) | CallbackEnd => FlushingRuns(cfg, s, t);
  }

  /** Only the writer w is in Write or in a flush that is not the timer's. */
  ghost predicate Alone(s: State, w: nat) {
    forall t :: t in s.pcs && (Prepares(s.pcs[t]) || ByHand(s.pcs[t])) ==> t == w
  }

  /** A goroutine with the encoder in hand has put a record there; a flush by hand has stopped the timer; an armed timer has records. */
  ghost predicate Timed(s: State) {
    && (forall t :: t in s.pcs && HasAdded(s.pcs[t]) ==> s.encoder != [])
    && (forall t :: t in s.pcs && s.pcs[t].StopTimer? ==> s.armed <= {s.pcs[t].id})
    && (forall t :: t in s.pcs && ByHand(s.pcs[t]) && !s.pcs[t].StopLook? && !s.pcs[t].StopTimer? ==> s.armed == {})
    && (s.armed != {} ==> s.encoder != [])
  }

  /** What is known of the step's goroutine and of the others. */
  ghost predicate Known(cfg: Config, s: State, t: nat) {
    && t in s.pcs
    && (s.pcs[t].Take? ==> forall u :: u in s.pcs && HasAdded(s.pcs[u]) ==> u == t)
    && (HoldsToken(s.pcs[t]) ==> s.armed == {})
    && (s.pcs[t].StopLook? ==> if s.timer.NoTimer? then s.armed == {} else s.armed <= {s.timer.id})
    && (!cfg.delayed ==> s.armed == {} )
    && (s.pcs[t].Create? || s.pcs[t].Reset? ==> forall u :: u in s.pcs && ByHand(s.pcs[u]) ==> u == t)
  }

  lemma TimedRun(cfg: Config, s: State, t: nat, n: State)
    requires Timed(s) && Known(cfg, s, t) && RunEffect(cfg, s, t, n)
    ensures Timed(n)
  {
  }

  lemma KnownAlone(cfg: Config, s: State, t: nat, w: nat)
    requires cfg.influx && Inv(cfg, s) && OneTimer(s) && Alone(s, w) && (!cfg.delayed ==> s.armed == {}) && Enabled(s, Run(t))
    ensures Known(cfg, s, t)
  {
    if HoldsToken(s.pcs[t]) { Unique(s, t); }
    if s.pcs[t].Take? { TakesAlone(cfg, s, t); }
    if s.pcs[t].StopLook? { TimerNamed(cfg, s, t, w); }
    hide Inv;
  }

  lemma TakesAlone(cfg: Config, s: State, t: nat)
    requires cfg.influx && EncoderInv(cfg, s) && t in s.pcs && s.pcs[t].Take?
    ensures forall u :: u in s.pcs && HasAdded(s.pcs[u]) ==> u == t
  {
    assert HoldsEncoder(cfg, s.pcs[t]);
    assert forall u :: u in s.pcs && HasAdded(s.pcs[u]) ==> HoldsEncoder(cfg, s.pcs[u]);
  }

  /** A lone writer that looks for the timer finds the one that is armed, if one is. */
  lemma TimerNamed(cfg: Config, s: State, t: nat, w: nat)
    requires TokenInv(s) && OneTimer(s) && Alone(s, w) && t in s.pcs && s.pcs[t].StopLook?
    ensures if s.timer.NoTimer? then s.armed == {} else s.armed <= {s.timer.id}
  {
    assert t == w;
    assert forall u :: u in s.pcs && s.pcs[u].Assign? ==> u == w;
    assert s.created == 1 ==> s.timer == T(0);
  }

  lemma AloneStep(cfg: Config, s: State, a: Action, w: nat)
    requires cfg.influx && EncoderInv(cfg, s) && Alone(s, w) && Enabled(s, a) && !a.Close? && (a.Write? ==> a.t == w)
    ensures Alone(Step(cfg, s, a), w)
  {
    if a.Run? { RunEffects(cfg, s, a.t); }
    hide EncoderInv, Advance;
  }

  lemma TimedStep(cfg: Config, s: State, a: Action, w: nat)
    requires cfg.influx && Inv(cfg, s) && OneTimer(s) && Alone(s, w) && (!cfg.delayed ==> s.armed == {})
    requires Timed(s) && Enabled(s, a) && !a.Close?
    ensures Timed(Step(cfg, s, a))
  {
    if a.Run? {
      RunEffects(cfg, s, a.t);
      KnownAlone(cfg, s, a.t, w);
      hide Inv, EncoderInv, RunEffect, Known, Advance, Timed;
      TimedRun(cfg, s, a.t, Step(cfg, s, a));
    } else {
      hide Inv, EncoderInv;
    }
  }

  lemma UndelayedStep(cfg: Config, s: State, a: Action, ws: set<nat>)
    requires cfg.influx && EncoderInv(cfg, s) && WritersPrepare(cfg, s, ws) && !cfg.delayed && s.armed == {} && Enabled(s, a)
    ensures Step(cfg, s, a).armed == {}
  {
    if a.Run? { RunEffects(cfg, s, a.t); }
    hide EncoderInv, Advance;
  }

  /** Nobody calls Close. */
  predicate WithoutClose(acts: seq<Action>) {
    forall i :: 0 <= i < |acts| ==> !acts[i].Close?
  }

  /** In every run of InfluxSink with one writer w and no Close, an armed timer has records to flush. */
  lemma {:induction false} ArmedHasRecords(cfg: Config, ts: set<nat>, acts: seq<Action>, n: State, w: nat)
    requires cfg.influx && RunBy(cfg, ts, {w}, acts, n) && WithoutClose(acts)
    ensures n.armed != {} ==> n.encoder != []
    ensures Alone(n, w) && Timed(n) && (!cfg.delayed ==> n.armed == {})
  {
    hide Inv, Step, Alone, Timed, Enabled, OneTimer, WritersPrepare;
    if acts == [] {
      Start(ts, w);
    } else {
      var last := |acts| - 1;
      var m := LastAction(cfg, ts, {w}, acts, n);
      ArmedHasRecords(cfg, ts, acts[..last], m, w);
      OneTimerAlways(cfg, ts, {w}, acts[..last], m);
      InvParts(cfg, m);
      AloneStep(cfg, m, acts[last], w);
      TimedStep(cfg, m, acts[last], w);
      if !cfg.delayed { UndelayedStep(cfg, m, acts[last], {w}); }
    }
    TimedMeans(n);
  }

  lemma Start(ts: set<nat>, w: nat)
    ensures Alone(Init(ts), w) && Timed(Init(ts))
  {
  }

  lemma InvParts(cfg: Config, s: State)
    requires Inv(cfg, s)
    ensures EncoderInv(cfg, s)
  {
  }

  lemma TimedMeans(s: State)
    requires Timed(s)
    ensures s.armed != {} ==> s.encoder != []
  {
  }
}
