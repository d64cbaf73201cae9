/**
 How far the promises of the buffered sinks reach, in terms of the goroutines that write.
 Runs that break a promise are built here step by step.
 */
module FlushLimits {
  import opened Sets
  import opened FlushProtocol
  import opened FlushTheorems

  /** Only the goroutines ws write. */
  predicate WrittenBy(acts: seq<Action>, ws: set<nat>) {
    forall i :: 0 <= i < |acts| && acts[i].Write? ==> acts[i].t in ws
  }

  /** A run from the goroutines ts in which only ws write. */
  ghost predicate RunBy(cfg: Config, ts: set<nat>, ws: set<nat>, acts: seq<Action>, n: State) {
    Reaches(cfg, Init(ts), acts, n) && WrittenBy(acts, ws)
  }

  lemma LastAction(cfg: Config, ts: set<nat>, ws: set<nat>, acts: seq<Action>, n: State) returns (m: State)
    requires RunBy(cfg, ts, ws, acts, n) && acts != []
    ensures var last := |acts| - 1;
            RunBy(cfg, ts, ws, acts[..last], m) && Enabled(m, acts[last]) && n == Step(cfg, m, acts[last])
    ensures acts[|acts| - 1].Write? ==> acts[|acts| - 1].t in ws
    ensures Inv(cfg, m)
  {
    hide Step, Inv;
    var last := |acts| - 1;
    m :| Reaches(cfg, Init(ts), acts[..last], m) && Enabled(m, acts[last]) && n == Step(cfg, m, acts[last]);
    AlwaysInv(cfg, ts, acts[..last], m);
  }

  // ----- one timer -----

  /** From the start of Write to the return of the code that arms the timer. */
  predicate Prepares(pc: Pc) {
    pc.WriteLock? || pc.Encode? || pc.WriteUnlock? || pc.Decide? || pc.TryToken? || pc.Reset? || Makes(pc)
  }

  /** Only writers prepare, and without a delay they do not reach the timer. */
  ghost predicate WritersPrepare(cfg: Config, s: State, ws: set<nat>) {
    && (forall t :: t in s.pcs && Prepares(s.pcs[t]) ==> t in ws)
    && (!cfg.delayed ==> forall t :: t in s.pcs ==> !s.pcs[t].TryToken? && !s.pcs[t].Reset? && !Makes(s.pcs[t]))
  }

  /** A step of a goroutine brings it no nearer to the timer than one step further. */
  ghost predicate PrepareEffect(cfg: Config, s: State, t: nat, n: State) {
    && t in s.pcs && t in n.pcs && n.pcs == s.pcs[t := n.pcs[t]]
    && (Prepares(n.pcs[t]) ==> Prepares(s.pcs[t]))
    && (n.pcs[t].TryToken? ==> cfg.delayed)
    && (n.pcs[t].Reset? || Makes(n.pcs[t]) ==> s.pcs[t].TryToken? || Makes(s.pcs[t]))
  }

  lemma WritingPrepares(cfg: Config, s: State, t: nat)
    requires t in s.pcs && (s.pcs[t].WriteLock? || s.pcs[t].Encode? || s.pcs[t].WriteUnlock? || s.pcs[t].Decide?)
    ensures PrepareEffect(cfg, s, t, Writing(cfg, s, t))
  {
  }

  lemma ArmingPrepares(cfg: Config, s: State, t: nat)
    requires t in s.pcs && (s.pcs[t].TryToken? || s.pcs[t].LookTimer? || s.pcs[t].Create? || s.pcs[t].Assign? || s.pcs[t].Reset? || s.pcs[t].Leave?)
    ensures PrepareEffect(cfg, s, t, Arming(cfg, s, t))
  {
    hide TokenSpent;
  }

  lemma StoppingPrepares(cfg: Config, s: State, t: nat)
    requires t in s.pcs && (s.pcs[t].StopLook? || s.pcs[t].StopTimer? || s.pcs[t].ReleaseToken?)
    ensures PrepareEffect(cfg, s, t, Stopping(s, t))
  {
  }

  lemma FlushingPrepares(cfg: Config, s: State, t: nat)
    requires t in s.pcs && (s.pcs[t].FlushLock? || s.pcs[t].Take? || s.pcs[t].FlushUnlock? || s.pcs[t].CallbackEnd?)
    ensures PrepareEffect(cfg, s, t, Flushing(s, t))
  {
  }

  lemma PreparesFrom(cfg: Config, s: State, t: nat)
    requires Enabled(s, Run(t))
    ensures PrepareEffect(cfg, s, t, Advance(cfg, s, t))
  {
    hide PrepareEffect, Writing, Arming, Stopping, Flushing;
    match s.pcs[t]
    case WriteLock(_) | Encode(_) | WriteUnlock | Decide => WritingPrepares(cfg, s, t);
    case TryToken | LookTimer | Create | Assign(_) | Reset(_) | Leave => ArmingPrepares(cfg, s, t);
    case StopLook | StopTimer(_) | ReleaseToken => StoppingPrepares(cfg, s, t);
    case FlushLock(_) | Take(_) | FlushUnlock(_) | CallbackEnd => FlushingPrepares(cfg, s, t);
  }

  lemma WritersPrepareStep(cfg: Config, s: State, a: Action, ws: set<nat>)
    requires WritersPrepare(cfg, s, ws) && Enabled(s, a) && (a.Write? ==> a.t in ws)
    ensures WritersPrepare(cfg, Step(cfg, s, a), ws)
  {
    if a.Run? { PreparesFrom(cfg, s, a.t); }
    hide Advance, TokenSpent;
  }

  lemma OneMakerIf(cfg: Config, s: State, ws: set<nat>)
    requires EncoderInv(cfg, s) && WritersPrepare(cfg, s, ws) && (cfg.influx || !cfg.delayed || |ws| <= 1)
    ensures OneMaker(s)
  {
    forall t, u | t in s.pcs && u in s.pcs && Makes(s.pcs[t]) && Makes(s.pcs[u]) ensures t == u {
      if cfg.influx {
        InfluxOneMaker(cfg, s);
      } else {
        assert {t, u} <= ws;
        SubsetSize({t, u}, ws);
      }
    }
  }

  /** There is one timer at most, and once all calls have returned flushTimer names the one that is armed. */
  ghost predicate TimerKnown(n: State) {
    n.created <= 1 && n.armed <= {0} && (AllIdle(n) && n.armed != {} ==> n.timer == T(0))
  }

  /** The HTTP sink too makes one timer at most if only one goroutine writes. */
  lemma {:induction false} OneTimerAlways(cfg: Config, ts: set<nat>, ws: set<nat>, acts: seq<Action>, n: State)
    requires RunBy(cfg, ts, ws, acts, n) && (cfg.influx || !cfg.delayed || |ws| <= 1)
    ensures OneTimer(n) && WritersPrepare(cfg, n, ws) && TimerKnown(n)
  {
    hide EncoderInv, RecordInv, PromiseInv, Step;
    AlwaysInv(cfg, ts, acts, n);
    if acts == [] {
    } else {
      var last := |acts| - 1;
      var m := LastAction(cfg, ts, ws, acts, n);
      OneTimerAlways(cfg, ts, ws, acts[..last], m);
      OneMakerIf(cfg, m, ws);
      OneTimerStep(cfg, m, acts[last]);
      WritersPrepareStep(cfg, m, acts[last], ws);
    }
  }

  // ----- the batch -----

  /** Writers that have added a record that they have not yet flushed. */
  ghost function Owing(s: State, ws: set<nat>): set<nat> {
    set t | t in ws && t in s.pcs && Owes(s.pcs[t])
  }

  /** Without a delay every record in the encoder has its own writer on the way to flushing. */
  ghost predicate OwnFlush(s: State, ws: set<nat>) {
    && (forall t :: t in s.pcs && InWrite(s.pcs[t]) ==> t in ws)
    && s.count <= |Owing(s, ws)|
  }

  lemma UndelayedDecide(cfg: Config, s: State, t: nat)
    requires Enabled(s, Run(t)) && s.pcs[t].Decide? && !cfg.delayed
    ensures t in Advance(cfg, s, t).pcs && WillTake(Advance(cfg, s, t).pcs[t])
  {
  }

  predicate Owes(pc: Pc) { pc.Decide? || WillTake(pc) }

  lemma OwingChange(s: State, t: nat, n: State, ws: set<nat>)
    requires t in n.pcs && n.pcs == s.pcs[t := n.pcs[t]]
    ensures |Owing(n, ws)| == |Owing(s, ws)| - One(t in s.pcs && t in ws && Owes(s.pcs[t])) + One(t in ws && Owes(n.pcs[t]))
  {
    Swap(Owing(s, ws), Owing(n, ws), t);
  }

  /** A step adds to the records at most what it adds to the writers that owe a flush. */
  lemma OwnFlushRun(cfg: Config, s: State, t: nat, ws: set<nat>, n: State)
    requires !cfg.delayed && CountEffect(cfg, s, t, n) && OwnFlush(s, ws)
    requires s.pcs[t].Decide? ==> WillTake(n.pcs[t])
    ensures OwnFlush(n, ws)
  {
    hide Owing;
    OwingChange(s, t, n, ws);
  }

  lemma OwnFlushStep(cfg: Config, s: State, a: Action, ws: set<nat>)
    requires cfg.influx && !cfg.delayed && EncoderInv(cfg, s) && OwnFlush(s, ws) && Enabled(s, a) && (a.Write? ==> a.t in ws)
    ensures OwnFlush(Step(cfg, s, a), ws)
  {
    hide Owing, EncoderInv;
    var n := Step(cfg, s, a);
    if a.Run? {
      CountEffects(cfg, s, a.t);
      if s.pcs[a.t].Decide? { UndelayedDecide(cfg, s, a.t); }
      hide Advance, WillTake, CountEffect, OwnFlush;
      OwnFlushRun(cfg, s, a.t, ws, n);
    } else {
      hide Advance;
      OwingChange(s, a.t, n, ws);
    }
  }

  lemma {:induction false} OwnFlushAlways(cfg: Config, ts: set<nat>, ws: set<nat>, acts: seq<Action>, n: State)
    requires cfg.influx && !cfg.delayed && RunBy(cfg, ts, ws, acts, n)
    ensures OwnFlush(n, ws) && n.count <= |ws|
  {
    hide EncoderInv, TokenInv, TimersKnown, RecordInv, PromiseInv, Step;
    if acts == [] {
      assert Owing(n, ws) == {};
    } else {
      var last := |acts| - 1;
      var m := LastAction(cfg, ts, ws, acts, n);
      OwnFlushAlways(cfg, ts, ws, acts[..last], m);
      OwnFlushStep(cfg, m, acts[last], ws);
    }
    SubsetSize(Owing(n, ws), ws);
  }

  // ----- building runs -----

  /** One more action at the end of a run that started with the goroutines ts. */
  lemma Then(cfg: Config, ts: set<nat>, ws: set<nat>, acts: seq<Action>, m: State, a: Action, n: State) returns (acts': seq<Action>)
    requires RunBy(cfg, ts, ws, acts, m) && Enabled(m, a) && (a.Write? ==> a.t in ws)
    requires Step(cfg, m, a).pcs == n.pcs && Step(cfg, m, a).(pcs := n.pcs) == n
    ensures RunBy(cfg, ts, ws, acts', n)
  {
    acts' := acts + [a];
    assert acts'[..|acts|] == acts;
    assert Step(cfg, m, a) == n;
  }

  /** Write adds its record and is about to try for timerLock. */
  lemma RunAppend(cfg: Config, ts: set<nat>, ws: set<nat>, acts: seq<Action>, s: State, t: nat, rec: Line) returns (acts': seq<Action>, n: State)
    requires RunBy(cfg, ts, ws, acts, s) && t in s.pcs && t in ws && s.pcs[t].Idle? && s.enc.Free? && cfg.delayed
    requires cfg.influx ==> s.count + 1 != cfg.batch
    ensures RunBy(cfg, ts, ws, acts', n)
    ensures n == s.(encoder := s.encoder + [rec], count := s.count + 1, log := s.log + [rec],
                    enc := if cfg.influx then By(t) else Free, pcs := s.pcs[t := TryToken])
  {
    hide Arming, Stopping, Flushing, RunBy;
    var s1 := s.(pcs := s.pcs[t := WriteLock(rec)]);
    var s2 := s1.(enc := By(t), pcs := s.pcs[t := Encode(rec)]);
    var s3 := s2.(encoder := s.encoder + [rec], count := s.count + 1, log := s.log + [rec],
                  pcs := s.pcs[t := if cfg.influx then Decide else WriteUnlock]);
    var s4 := s3.(enc := if cfg.influx then By(t) else Free, pcs := s.pcs[t := Decide]);
    n := s4.(pcs := s.pcs[t := TryToken]);
    acts' := Then(cfg, ts, ws, acts, s, Write(t, rec), s1);
    acts' := Then(cfg, ts, ws, acts', s1, Run(t), s2);
    acts' := Then(cfg, ts, ws, acts', s2, Run(t), s3);
    if !cfg.influx { acts' := Then(cfg, ts, ws, acts', s3, Run(t), s4); }
    acts' := Then(cfg, ts, ws, acts', s4, Run(t), n);
  }

  /** The same when the record fills the batch: the encoder is released, the flush still to come. */
  lemma RunFill(cfg: Config, ts: set<nat>, ws: set<nat>, acts: seq<Action>, s: State, t: nat, rec: Line) returns (acts': seq<Action>, n: State)
    requires RunBy(cfg, ts, ws, acts, s) && t in s.pcs && t in ws && s.pcs[t].Idle? && s.enc.Free? && cfg.delayed && cfg.influx
    requires s.count + 1 == cfg.batch
    ensures RunBy(cfg, ts, ws, acts', n)
    ensures n == s.(encoder := s.encoder + [rec], count := s.count + 1, log := s.log + [rec], pcs := s.pcs[t := StopLook])
  {
    hide Arming, Stopping, Flushing, RunBy;
    var s1 := s.(pcs := s.pcs[t := WriteLock(rec)]);
    var s2 := s1.(enc := By(t), pcs := s.pcs[t := Encode(rec)]);
    var s3 := s2.(encoder := s.encoder + [rec], count := s.count + 1, log := s.log + [rec], pcs := s.pcs[t := Decide]);
    n := s3.(enc := Free, pcs := s.pcs[t := StopLook]);
    acts' := Then(cfg, ts, ws, acts, s, Write(t, rec), s1);
    acts' := Then(cfg, ts, ws, acts', s1, Run(t), s2);
    acts' := Then(cfg, ts, ws, acts', s2, Run(t), s3);
    acts' := Then(cfg, ts, ws, acts', s3, Run(t), n);
  }

  /** Write gets timerLock, sees no timer and makes one; flushTimer is not yet assigned. */
  lemma RunCreate(cfg: Config, ts: set<nat>, ws: set<nat>, acts: seq<Action>, s: State, t: nat) returns (acts': seq<Action>, n: State)
    requires RunBy(cfg, ts, ws, acts, s) && t in s.pcs && s.pcs[t].TryToken? && !s.token && s.timer.NoTimer?
    ensures RunBy(cfg, ts, ws, acts', n)
    ensures n == s.(token := true, armed := s.armed + {s.created}, created := s.created + 1, pcs := s.pcs[t := Assign(s.created)])
  {
    hide Writing, Stopping, Flushing, RunBy;
    var s1 := s.(token := true, pcs := s.pcs[t := LookTimer]);
    var s2 := s1.(pcs := s.pcs[t := Create]);
    n := s2.(armed := s.armed + {s.created}, created := s.created + 1, pcs := s.pcs[t := Assign(s.created)]);
    acts' := Then(cfg, ts, ws, acts, s, Run(t), s1);
    acts' := Then(cfg, ts, ws, acts', s1, Run(t), s2);
    acts' := Then(cfg, ts, ws, acts', s2, Run(t), n);
  }

  /** Write assigns flushTimer and returns. */
  lemma RunAssign(cfg: Config, ts: set<nat>, ws: set<nat>, acts: seq<Action>, s: State, t: nat) returns (acts': seq<Action>, n: State)
    requires RunBy(cfg, ts, ws, acts, s) && t in s.pcs && s.pcs[t].Assign?
    ensures RunBy(cfg, ts, ws, acts', n)
    ensures n == s.(timer := T(s.pcs[t].id), enc := if cfg.influx then Free else s.enc, pcs := s.pcs[t := Idle])
  {
    hide Writing, Stopping, Flushing, RunBy;
    var s1 := s.(timer := T(s.pcs[t].id), pcs := s.pcs[t := Done(cfg)]);
    n := s1.(enc := if cfg.influx then Free else s.enc, pcs := s.pcs[t := Idle]);
    acts' := Then(cfg, ts, ws, acts, s, Run(t), s1);
    if cfg.influx { acts' := Then(cfg, ts, ws, acts', s1, Run(t), n); }
  }

  /** Write does not get timerLock and returns. */
  lemma RunRefused(cfg: Config, ts: set<nat>, ws: set<nat>, acts: seq<Action>, s: State, t: nat) returns (acts': seq<Action>, n: State)
    requires RunBy(cfg, ts, ws, acts, s) && t in s.pcs && s.pcs[t].TryToken? && s.token
    ensures RunBy(cfg, ts, ws, acts', n)
    ensures n == s.(missed := s.missed || (s.encoder != [] && TokenSpent(s)), enc := if cfg.influx then Free else s.enc, pcs := s.pcs[t := Idle])
  {
    hide Writing, Stopping, Flushing, RunBy, TokenSpent;
    var s1 := s.(missed := s.missed || (s.encoder != [] && TokenSpent(s)), pcs := s.pcs[t := Done(cfg)]);
    n := s1.(enc := if cfg.influx then Free else s.enc, pcs := s.pcs[t := Idle]);
    acts' := Then(cfg, ts, ws, acts, s, Run(t), s1);
    if cfg.influx { acts' := Then(cfg, ts, ws, acts', s1, Run(t), n); }
  }

  /** The timer fires and its callback empties the encoder; timerLock is still held. */
  lemma RunFire(cfg: Config, ts: set<nat>, ws: set<nat>, acts: seq<Action>, s: State, id: nat, u: nat) returns (acts': seq<Action>, n: State)
    requires RunBy(cfg, ts, ws, acts, s) && id in s.armed && u !in s.pcs && s.enc.Free?
    ensures RunBy(cfg, ts, ws, acts', n)
    ensures n == s.(armed := s.armed - {id}, encoder := [], count := 0, taken := s.taken + [s.encoder], missed := false,
                    pcs := s.pcs[u := CallbackEnd])
  {
    hide Writing, Arming, Stopping, RunBy;
    var s1 := s.(armed := s.armed - {id}, pcs := s.pcs[u := FlushLock(true)]);
    var s2 := s1.(enc := By(u), pcs := s.pcs[u := Take(true)]);
    var s3 := s2.(encoder := [], count := 0, taken := s.taken + [s.encoder], missed := false, pcs := s.pcs[u := FlushUnlock(true)]);
    n := s3.(enc := Free, pcs := s.pcs[u := CallbackEnd]);
    acts' := Then(cfg, ts, ws, acts, s, Fire(id, u), s1);
    acts' := Then(cfg, ts, ws, acts', s1, Run(u), s2);
    acts' := Then(cfg, ts, ws, acts', s2, Run(u), s3);
    acts' := Then(cfg, ts, ws, acts', s3, Run(u), n);
  }

  lemma RunEnd(cfg: Config, ts: set<nat>, ws: set<nat>, acts: seq<Action>, s: State, u: nat) returns (acts': seq<Action>, n: State)
    requires RunBy(cfg, ts, ws, acts, s) && u in s.pcs && s.pcs[u].CallbackEnd?
    ensures RunBy(cfg, ts, ws, acts', n) && n == s.(token := false, pcs := s.pcs[u := Idle])
  {
    n := s.(token := false, pcs := s.pcs[u := Idle]);
    acts' := Then(cfg, ts, ws, acts, s, Run(u), n);
  }

  lemma NoActions(cfg: Config, ts: set<nat>, ws: set<nat>)
    ensures RunBy(cfg, ts, ws, [], Init(ts))
  {
  }

  /**
   Both sinks can leave a record in the encoder with no timer armed: the
   callback has emptied the encoder but still holds timerLock when the second
   Write adds its record and gives up on timerLock.
   */
  lemma RecordStranded(cfg: Config, ts: set<nat>, ws: set<nat>, w: nat) returns (acts: seq<Action>, n: State)
    requires cfg.delayed && (cfg.influx ==> cfg.batch != 1) && w in ts && w in ws
    ensures RunBy(cfg, ts, ws, acts, n) && AllIdle(n) && n.armed == {} && n.encoder == ["b"]
  {
    hide RunBy, Step, TokenSpent;
    var u := Above(ts);
    n := Init(ts);
    acts := [];
    NoActions(cfg, ts, ws);
    acts, n := RunAppend(cfg, ts, ws, acts, n, w, "a");
    acts, n := RunCreate(cfg, ts, ws, acts, n, w);
    acts, n := RunAssign(cfg, ts, ws, acts, n, w);
    acts, n := RunFire(cfg, ts, ws, acts, n, 0, u);
    acts, n := RunAppend(cfg, ts, ws, acts, n, w, "b");
    acts, n := RunRefused(cfg, ts, ws, acts, n, w);
    acts, n := RunEnd(cfg, ts, ws, acts, n, u);
  }

  /**
   HttpSink arms its timer outside the encoder lock, so two writers can make a
   timer each; then flushTimer names the one that is not armed, and the Stop
   in Close misses the one that is.
   */
  lemma TwoTimers(cfg: Config, ts: set<nat>, ws: set<nat>, v: nat, w: nat) returns (acts: seq<Action>, n: State)
    requires !cfg.influx && cfg.delayed && v != w && v in ts && w in ts && v in ws && w in ws
    ensures RunBy(cfg, ts, ws, acts, n) && AllIdle(n) && n.armed == {1} && n.timer == T(0) && n.enc == Free && ts <= n.pcs.Keys
  {
    hide RunBy, Step, TokenSpent;
    var u := Above(ts);
    n := Init(ts);
    acts := [];
    NoActions(cfg, ts, ws);
    acts, n := RunAppend(cfg, ts, ws, acts, n, v, "a");
    acts, n := RunCreate(cfg, ts, ws, acts, n, v);
    acts, n := RunFire(cfg, ts, ws, acts, n, 0, u);
    acts, n := RunEnd(cfg, ts, ws, acts, n, u);
    acts, n := RunAppend(cfg, ts, ws, acts, n, w, "b");
    acts, n := RunCreate(cfg, ts, ws, acts, n, w);
    acts, n := RunAssign(cfg, ts, ws, acts, n, w);
    acts, n := RunAssign(cfg, ts, ws, acts, n, v);
  }

  /** v fills the encoder up to k records, one short of a batch at most. */
  lemma {:induction false} Pile(cfg: Config, ts: set<nat>, ws: set<nat>, v: nat, k: nat) returns (acts: seq<Action>, n: State)
    requires cfg.influx && cfg.delayed && k < cfg.batch && v in ts && v in ws
    ensures RunBy(cfg, ts, ws, acts, n) && n.count == k && n.enc == Free && n.pcs.Keys == ts && AllIdle(n)
    ensures n.token <==> k > 0
    ensures n.timer.NoTimer? || k > 0
  {
    hide RunBy, Step, TokenSpent;
    if k == 0 {
      acts, n := [], Init(ts);
      NoActions(cfg, ts, ws);
    } else {
      acts, n := Pile(cfg, ts, ws, v, k - 1);
      acts, n := RunAppend(cfg, ts, ws, acts, n, v, "a");
      if k == 1 {
        acts, n := RunCreate(cfg, ts, ws, acts, n, v);
        acts, n := RunAssign(cfg, ts, ws, acts, n, v);
      } else {
        acts, n := RunRefused(cfg, ts, ws, acts, n, v);
      }
    }
  }

  /**
   With a delay, a second writer can add records while the first is about to flush a full batch.
   It finds more than a full batch and leaves it to the timer, so the encoder can hold any number
   k of records too many.
   */
  lemma {:induction false} Overgrow(cfg: Config, ts: set<nat>, ws: set<nat>, v: nat, w: nat, k: nat) returns (acts: seq<Action>, n: State)
    requires cfg.influx && cfg.delayed && cfg.batch > 0 && v != w && v in ts && w in ts && v in ws && w in ws
    ensures RunBy(cfg, ts, ws, acts, n) && n.count == cfg.batch + k
    ensures n.enc == Free && w in n.pcs && n.pcs[w].Idle? && (n.token <==> cfg.batch > 1 || k > 0) && (!n.token ==> n.timer.NoTimer?)
  {
    hide RunBy, Step, TokenSpent;
    if k == 0 {
      acts, n := Pile(cfg, ts, ws, v, cfg.batch - 1);
      acts, n := RunFill(cfg, ts, ws, acts, n, v, "a");
    } else {
      acts, n := Overgrow(cfg, ts, ws, v, w, k - 1);
      acts, n := RunAppend(cfg, ts, ws, acts, n, w, "b");
      if n.token {
        acts, n := RunRefused(cfg, ts, ws, acts, n, w);
      } else {
        acts, n := RunCreate(cfg, ts, ws, acts, n, w);
        acts, n := RunAssign(cfg, ts, ws, acts, n, w);
      }
    }
  }

  /** Without a delay, Write adds its record and is about to flush. */
  lemma RunDirect(cfg: Config, ts: set<nat>, ws: set<nat>, acts: seq<Action>, s: State, t: nat, rec: Line) returns (acts': seq<Action>, n: State)
    requires RunBy(cfg, ts, ws, acts, s) && t in s.pcs && t in ws && s.pcs[t].Idle? && s.enc.Free? && !cfg.delayed && cfg.influx
    ensures RunBy(cfg, ts, ws, acts', n)
    ensures n == s.(encoder := s.encoder + [rec], count := s.count + 1, log := s.log + [rec], pcs := s.pcs[t := FlushLock(false)])
  {
    hide Arming, Stopping, Flushing, RunBy;
    var s1 := s.(pcs := s.pcs[t := WriteLock(rec)]);
    var s2 := s1.(enc := By(t), pcs := s.pcs[t := Encode(rec)]);
    var s3 := s2.(encoder := s.encoder + [rec], count := s.count + 1, log := s.log + [rec], pcs := s.pcs[t := Decide]);
    n := s3.(enc := Free, pcs := s.pcs[t := FlushLock(false)]);
    acts' := Then(cfg, ts, ws, acts, s, Write(t, rec), s1);
    acts' := Then(cfg, ts, ws, acts', s1, Run(t), s2);
    acts' := Then(cfg, ts, ws, acts', s2, Run(t), s3);
    acts' := Then(cfg, ts, ws, acts', s3, Run(t), n);
  }

  /** All of the goroutines q add a record before one of them flushes. */
  lemma {:induction false} Crowd(cfg: Config, ts: set<nat>, ws: set<nat>, q: set<nat>) returns (acts: seq<Action>, n: State)
    requires cfg.influx && !cfg.delayed && q <= ts && q <= ws
    ensures RunBy(cfg, ts, ws, acts, n) && n.count == |q| && n.enc == Free && n.pcs.Keys == ts
    ensures forall t :: t in ts - q ==> n.pcs[t].Idle?
    decreases |q|
  {
    hide RunBy, Step, TokenSpent;
    if q == {} {
      acts, n := [], Init(ts);
      NoActions(cfg, ts, ws);
    } else {
      var t :| t in q;
      acts, n := Crowd(cfg, ts, ws, q - {t});
      acts, n := RunDirect(cfg, ts, ws, acts, n, t, "a");
    }
  }

  lemma RunReaches(cfg: Config, ts: set<nat>, ws: set<nat>, acts: seq<Action>, n: State)
    requires RunBy(cfg, ts, ws, acts, n)
    ensures Reaches(cfg, Init(ts), acts, n)
  {
  }

  // ----- exactly when the promises hold -----

  ghost predicate AlwaysOneTimer(cfg: Config, ts: set<nat>, ws: set<nat>) {
    forall acts, n :: RunBy(cfg, ts, ws, acts, n) ==> TimerKnown(n)
  }

  lemma TwoOf(ws: set<nat>) returns (v: nat, w: nat)
    requires |ws| > 1
    ensures v in ws && w in ws && v != w
  {
    v :| v in ws;
    assert |ws - {v}| > 0;
    w :| w in ws - {v};
  }

  /**
   For all runs in which the goroutines ws write, Stop through flushTimer reaches whatever is
   armed if and only if the sink is InfluxSink, or there is no delay, or only one goroutine writes.
   */
  lemma OneTimerExactly(cfg: Config, ts: set<nat>, ws: set<nat>)
    requires ws <= ts
    ensures AlwaysOneTimer(cfg, ts, ws) <==> cfg.influx || !cfg.delayed || |ws| <= 1
  {
    hide RunBy;
    if cfg.influx || !cfg.delayed || |ws| <= 1 {
      forall acts, n | RunBy(cfg, ts, ws, acts, n) ensures TimerKnown(n) {
        OneTimerAlways(cfg, ts, ws, acts, n);
      }
    } else {
      var v, w := TwoOf(ws);
      var acts, n := TwoTimers(cfg, ts, ws, v, w);
      assert 1 in n.armed && !TimerKnown(n);
    }
  }

  lemma MissedStep(cfg: Config, s: State, a: Action)
    requires Enabled(s, a) && !s.missed && forall t :: t in s.pcs ==> !s.pcs[t].TryToken?
    ensures !Step(cfg, s, a).missed
  {
    hide TokenSpent;
  }

  /** Without a delay, or if nobody writes, nobody tries for timerLock and so nobody is refused. */
  lemma {:induction false} NeverMissed(cfg: Config, ts: set<nat>, ws: set<nat>, acts: seq<Action>, n: State)
    requires RunBy(cfg, ts, ws, acts, n) && (!cfg.delayed || ws == {})
    ensures !n.missed
  {
    hide Step, Inv;
    if acts == [] {
    } else {
      var last := |acts| - 1;
      var m := LastAction(cfg, ts, ws, acts, n);
      NeverMissed(cfg, ts, ws, acts[..last], m);
      OneTimerAlways(cfg, ts, ws, acts[..last], m);
      MissedStep(cfg, m, acts[last]);
    }
  }

  /** With a batch size of 1 every record in the encoder of InfluxSink has a goroutine about to take it. */
  lemma TakenAtOnce(cfg: Config, ts: set<nat>, ws: set<nat>, acts: seq<Action>, n: State)
    requires cfg.influx && cfg.batch == 1 && RunBy(cfg, ts, ws, acts, n) && AllIdle(n)
    ensures n.encoder == []
  {
    AlwaysBatch(cfg, ts, acts, n);
    AlwaysInv(cfg, ts, acts, n);
    hide Reaches, Inv;
  }

  ghost predicate NeverStrands(cfg: Config, ts: set<nat>, ws: set<nat>) {
    forall acts, n :: RunBy(cfg, ts, ws, acts, n) && AllIdle(n) && n.armed == {} ==> n.encoder == []
  }

  /**
   For all runs in which the goroutines ws write, no record is left behind once all calls have
   returned and no timer is armed, if and only if there is no delay, or nobody writes, or the
   sink is InfluxSink with a batch size of 1.
   */
  lemma NeverStrandsExactly(cfg: Config, ts: set<nat>, ws: set<nat>)
    requires ws <= ts
    ensures NeverStrands(cfg, ts, ws) <==> !cfg.delayed || ws == {} || (cfg.influx && cfg.batch == 1)
  {
    hide RunBy, AllIdle;
    if cfg.influx && cfg.batch == 1 {
      forall acts, n | RunBy(cfg, ts, ws, acts, n) && AllIdle(n) && n.armed == {} ensures n.encoder == [] {
        TakenAtOnce(cfg, ts, ws, acts, n);
      }
    } else if !cfg.delayed || ws == {} {
      forall acts, n | RunBy(cfg, ts, ws, acts, n) && AllIdle(n) && n.armed == {} ensures n.encoder == [] {
        NeverMissed(cfg, ts, ws, acts, n);
        RunReaches(cfg, ts, ws, acts, n);
        StrandedExactly(cfg, ts, acts, n);
      }
    } else {
      var w :| w in ws;
      var acts, n := RecordStranded(cfg, ts, ws, w);
    }
  }

  ghost predicate AlwaysWithinBatch(cfg: Config, ts: set<nat>, ws: set<nat>) {
    forall acts, n :: RunBy(cfg, ts, ws, acts, n) ==> n.count <= cfg.batch
  }

  lemma WithinBatch(cfg: Config, ts: set<nat>, ws: set<nat>, acts: seq<Action>, n: State)
    requires cfg.influx && RunBy(cfg, ts, ws, acts, n) && Room(cfg, ws) && ws != {}
    ensures n.count <= cfg.batch
  {
    if |ws| == 1 {
      var w :| w in ws;
      forall x | x in ws ensures x == w {
        SubsetSize({x, w}, ws);
      }
      SingleWriterBound(cfg, ts, acts, n, w);
    } else {
      OwnFlushAlways(cfg, ts, ws, acts, n);
    }
  }

  /** Where nobody writes, nothing is encoded. */
  lemma {:induction false} NobodyWrites(cfg: Config, ts: set<nat>, acts: seq<Action>, n: State)
    requires cfg.influx && RunBy(cfg, ts, {}, acts, n)
    ensures n.count == 0 && forall t :: t in n.pcs ==> !InWrite(n.pcs[t])
  {
    hide EncoderInv, TokenInv, RecordInv, PromiseInv, Advance;
    if acts == [] {
    } else {
      var last := |acts| - 1;
      var m := LastAction(cfg, ts, {}, acts, n);
      NobodyWrites(cfg, ts, acts[..last], m);
      if acts[last].Run? { CountEffects(cfg, m, acts[last].t); }
    }
  }

  /** With a batch size of 0 the first record is too many. */
  lemma FirstRecord(cfg: Config, ts: set<nat>, ws: set<nat>, w: nat) returns (acts: seq<Action>, n: State)
    requires cfg.influx && cfg.batch == 0 && w in ts && w in ws
    ensures RunBy(cfg, ts, ws, acts, n) && n.count == 1
  {
    hide RunBy, Step, TokenSpent;
    if cfg.delayed {
      acts, n := [], Init(ts);
      NoActions(cfg, ts, ws);
      acts, n := RunAppend(cfg, ts, ws, acts, n, w, "a");
    } else {
      acts, n := Crowd(cfg, ts, ws, {w});
    }
  }

  /** What the runs within a batch have in common: enough room for all that may write before a flush. */
  predicate Room(cfg: Config, ws: set<nat>) {
    ws == {} || (cfg.batch > 0 && (|ws| == 1 || (!cfg.delayed && |ws| <= cfg.batch)))
  }

  /**
   For all runs of InfluxSink in which the goroutines ws write, the encoder holds at most a batch
   if and only if nobody writes, or the batch size is positive and only one goroutine writes, or
   there is no delay and no more goroutines write than a batch has records.
   */
  lemma BatchExactly(cfg: Config, ts: set<nat>, ws: set<nat>)
    requires cfg.influx && ws <= ts
    ensures AlwaysWithinBatch(cfg, ts, ws) <==> Room(cfg, ws)
  {
    hide RunBy;
    if Room(cfg, ws) {
      forall acts, n | RunBy(cfg, ts, ws, acts, n) ensures n.count <= cfg.batch {
        if ws == {} {
          NobodyWrites(cfg, ts, acts, n);
        } else {
          WithinBatch(cfg, ts, ws, acts, n);
        }
      }
    } else if cfg.batch == 0 {
      var w :| w in ws;
      var acts, n := FirstRecord(cfg, ts, ws, w);
    } else if cfg.delayed {
      assert |ws| > 1;
      var v, w := TwoOf(ws);
      var acts, n := Overgrow(cfg, ts, ws, v, w, 1);
    } else {
      assert |ws| > 1;
      var acts, n := Crowd(cfg, ts, ws, ws);
    }
  }
}
