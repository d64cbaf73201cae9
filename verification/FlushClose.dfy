/**
 What Close achieves: with no writer active it leaves nothing in the encoder and no timer armed.
 */
module FlushClose {
  import opened FlushProtocol
  import opened FlushTheorems
  import opened FlushLimits

  /** No goroutine is inside Write. */
  ghost predicate NoWriter(s: State) {
    forall t :: t in s.pcs ==> !Prepares(s.pcs[t])
  }

  /** flushTimer names whatever is armed. */
  ghost predicate Named(s: State) {
    forall id :: id in s.armed ==> s.timer == T(id)
  }

  /** Goroutine t, in Close, is still to take the encoder unless it is empty. */
  ghost predicate Flushes(s: State, t: nat) {
    t in s.pcs && (WillTake(s.pcs[t]) || s.encoder == [])
  }

  /** It is still to stop the timer unless none is armed. */
  ghost predicate Disarms(s: State, t: nat) {
    && Named(s) && t in s.pcs
    && (s.pcs[t].StopLook? || (s.pcs[t].StopTimer? && s.armed <= {s.pcs[t].id}) || s.armed == {})
  }

  lemma NoWriterStep(cfg: Config, s: State, a: Action)
    requires NoWriter(s) && Enabled(s, a) && !a.Write?
    ensures NoWriter(Step(cfg, s, a))
  {
    if a.Run? { PreparesFrom(cfg, s, a.t); }
    hide Advance, TokenSpent;
  }

  /** What a step outside Write does to the encoder. */
  lemma EncoderEffect(cfg: Config, s: State, t: nat)
    requires Enabled(s, Run(t)) && !Prepares(s.pcs[t])
    ensures var n := Advance(cfg, s, t);
            && t in n.pcs && n.pcs == s.pcs[t := n.pcs[t]]
            && n.encoder == (if s.pcs[t].Take? then [] else s.encoder) && n.log == s.log
            && (WillTake(s.pcs[t]) && !s.pcs[t].Take? ==> WillTake(n.pcs[t]))
  {
    hide Writing, TokenSpent;
    if s.pcs[t].Leave? {
      hide Stopping, Flushing;
    } else {
      hide Arming;
    }
  }

  lemma FlushesStep(cfg: Config, s: State, a: Action, t: nat)
    requires NoWriter(s) && Flushes(s, t) && Enabled(s, a) && !a.Write?
    ensures Flushes(Step(cfg, s, a), t) && Step(cfg, s, a).log == s.log
  {
    if a.Run? { EncoderEffect(cfg, s, a.t); }
    hide Advance, TokenSpent;
  }

  /** What a step outside Write does to the timers. */
  lemma TimerQuiet(cfg: Config, s: State, t: nat)
    requires Enabled(s, Run(t)) && !Prepares(s.pcs[t])
    ensures var n := Advance(cfg, s, t);
            && t in n.pcs && n.pcs == s.pcs[t := n.pcs[t]]
            && n.timer == s.timer && n.armed <= s.armed
            && (s.pcs[t].StopLook? ==> if s.timer.NoTimer? then n.pcs[t] == FlushLock(false) else n.pcs[t] == StopTimer(s.timer.id))
            && (s.pcs[t].StopTimer? ==> n.armed == s.armed - {s.pcs[t].id})
  {
    hide Writing, TokenSpent;
    if s.pcs[t].Leave? {
      hide Stopping, Flushing;
    } else {
      hide Arming;
    }
  }

  lemma DisarmsStep(cfg: Config, s: State, a: Action, t: nat)
    requires NoWriter(s) && Disarms(s, t) && Enabled(s, a) && !a.Write?
    ensures Disarms(Step(cfg, s, a), t)
  {
    if a.Run? { TimerQuiet(cfg, s, a.t); }
    hide Advance, TokenSpent;
  }

  /** Nobody begins to write. */
  predicate WithoutWrite(acts: seq<Action>) {
    forall i :: 0 <= i < |acts| ==> !acts[i].Write?
  }

  lemma {:induction false} CloseUnderWay(cfg: Config, s: State, t: nat, acts: seq<Action>, n: State)
    requires NoWriter(s) && Flushes(s, t) && Reaches(cfg, s, acts, n) && WithoutWrite(acts)
    ensures NoWriter(n) && Flushes(n, t) && n.log == s.log
    ensures RecordInv(s) ==> RecordInv(n)
    ensures Disarms(s, t) ==> Disarms(n, t)
  {
    hide NoWriter, Flushes, Disarms, RecordInv, Step, Enabled;
    if acts == [] {
    } else {
      var last := |acts| - 1;
      var m :| Reaches(cfg, s, acts[..last], m) && Enabled(m, acts[last]) && n == Step(cfg, m, acts[last]);
      CloseUnderWay(cfg, s, t, acts[..last], m);
      NoWriterStep(cfg, m, acts[last]);
      FlushesStep(cfg, m, acts[last], t);
      if Disarms(m, t) { DisarmsStep(cfg, m, acts[last], t); }
      if RecordInv(m) { RecordStep(cfg, m, acts[last]); }
    }
  }

  /** Close starts to flush and to disarm. */
  lemma CloseStarts(cfg: Config, s: State, t: nat)
    requires Enabled(s, Close(t)) && NoWriter(s)
    ensures var c := Step(cfg, s, Close(t));
            NoWriter(c) && Flushes(c, t) && c.log == s.log && (RecordInv(s) ==> RecordInv(c)) && (Named(s) ==> Disarms(c, t))
  {
  }

  lemma CloseEnded(n: State, t: nat)
    requires Flushes(n, t) && n.pcs[t].Idle?
    ensures n.encoder == [] && (Disarms(n, t) ==> n.armed == {})
  {
  }

  /** With one timer and no writer active, flushTimer names whatever is armed. */
  lemma NamedTimer(cfg: Config, ts: set<nat>, ws: set<nat>, acts: seq<Action>, s: State)
    requires RunBy(cfg, ts, ws, acts, s) && (cfg.influx || !cfg.delayed || |ws| <= 1) && NoWriter(s)
    ensures Named(s)
  {
    hide RecordInv, PromiseInv, EncoderInv, Reaches, WritersPrepare;
    AlwaysInv(cfg, ts, acts, s);
    OneTimerAlways(cfg, ts, ws, acts, s);
    assert s.created == 1 ==> s.timer == T(0);
  }

  /**
   After the run acts, in which only ws write, goroutine t calls Close while no goroutine is inside
   Write, and has returned after the actions more, with no Write begun meanwhile.
   */
  ghost predicate Closed(cfg: Config, ts: set<nat>, ws: set<nat>, acts: seq<Action>, s: State, t: nat, more: seq<Action>, n: State) {
    && RunBy(cfg, ts, ws, acts, s) && NoWriter(s) && Enabled(s, Close(t))
    && Reaches(cfg, Step(cfg, s, Close(t)), more, n) && WithoutWrite(more)
    && t in n.pcs && n.pcs[t].Idle?
  }

  /**
   Such a Close leaves the encoder empty, and every record ever encoded has been taken by a flush, in
   order. If the sink is InfluxSink, or there is no delay, or only one goroutine wrote, no timer is
   armed either.
   */
  lemma CloseFlushes(cfg: Config, ts: set<nat>, ws: set<nat>, acts: seq<Action>, s: State, t: nat, more: seq<Action>, n: State)
    requires Closed(cfg, ts, ws, acts, s, t, more, n)
    ensures n.encoder == [] && n.log == s.log && Flat(n.taken) == s.log
    ensures cfg.influx || !cfg.delayed || |ws| <= 1 ==> n.armed == {}
  {
    hide NoWriter, Flushes, Disarms, Named, Step, Enabled, Reaches, RunBy;
    RunReaches(cfg, ts, ws, acts, s);
    AlwaysInv(cfg, ts, acts, s);
    CloseStarts(cfg, s, t);
    CloseUnderWay(cfg, Step(cfg, s, Close(t)), t, more, n);
    CloseEnded(n, t);
    if cfg.influx || !cfg.delayed || |ws| <= 1 { NamedTimer(cfg, ts, ws, acts, s); }
    assert Flat(n.taken) + [] == Flat(n.taken);
  }

  lemma Next(cfg: Config, s: State, acts: seq<Action>, m: State, a: Action, n: State) returns (acts': seq<Action>)
    requires Reaches(cfg, s, acts, m) && WithoutWrite(acts) && Enabled(m, a) && !a.Write?
    requires Step(cfg, m, a).pcs == n.pcs && Step(cfg, m, a).(pcs := n.pcs) == n
    ensures Reaches(cfg, s, acts', n) && WithoutWrite(acts')
  {
    acts' := acts + [a];
    assert acts'[..|acts|] == acts;
    assert Step(cfg, m, a) == n;
  }

  /** A flush by itself. */
  lemma RunFlush(cfg: Config, c: State, acts: seq<Action>, s: State, t: nat) returns (acts': seq<Action>, n: State)
    requires Reaches(cfg, c, acts, s) && WithoutWrite(acts) && t in s.pcs && s.pcs[t] == FlushLock(false) && s.enc == Free
    ensures Reaches(cfg, c, acts', n) && WithoutWrite(acts') && t in n.pcs && n.pcs[t].Idle? && n.armed == s.armed
  {
    hide Writing, Arming, Stopping, Reaches, WithoutWrite;
    var s1 := s.(enc := By(t), pcs := s.pcs[t := Take(false)]);
    var s2 := s1.(encoder := [], count := 0, taken := s.taken + [s.encoder], missed := false, pcs := s.pcs[t := FlushUnlock(false)]);
    n := s2.(enc := Free, pcs := s.pcs[t := Idle]);
    acts' := Next(cfg, c, acts, s, Run(t), s1);
    acts' := Next(cfg, c, acts', s1, Run(t), s2);
    acts' := Next(cfg, c, acts', s2, Run(t), n);
  }

  /** Close by itself, if flushTimer names a timer that is not armed: whatever is armed stays so. */
  lemma MissedClose(cfg: Config, s: State, t: nat) returns (more: seq<Action>, n: State)
    requires AllIdle(s) && t in s.pcs && s.timer.T? && s.timer.id !in s.armed && s.enc == Free
    ensures Enabled(s, Close(t)) && Reaches(cfg, Step(cfg, s, Close(t)), more, n) && WithoutWrite(more)
    ensures t in n.pcs && n.pcs[t].Idle? && n.armed == s.armed
  {
    hide Writing, Arming, Flushing, Reaches;
    var c := Step(cfg, s, Close(t));
    Start(cfg, c);
    var s1 := s.(pcs := s.pcs[t := StopTimer(s.timer.id)]);
    var s2 := s.(armed := s.armed - {s.timer.id}, pcs := s.pcs[t := FlushLock(false)]);
    more := Next(cfg, c, [], c, Run(t), s1);
    more := Next(cfg, c, more, s1, Run(t), s2);
    more, n := RunFlush(cfg, c, more, s2, t);
  }

  lemma Start(cfg: Config, s: State)
    ensures Reaches(cfg, s, [], s)
  {
  }

  ghost predicate CloseDisarms(cfg: Config, ts: set<nat>, ws: set<nat>) {
    forall acts, s, t, more, n :: Closed(cfg, ts, ws, acts, s, t, more, n) ==> n.armed == {}
  }

  /** That Close leaves no timer armed holds exactly if the sink is InfluxSink, or there is no delay, or one goroutine writes. */
  lemma CloseDisarmsExactly(cfg: Config, ts: set<nat>, ws: set<nat>)
    requires ws <= ts
    ensures CloseDisarms(cfg, ts, ws) <==> cfg.influx || !cfg.delayed || |ws| <= 1
  {
    if cfg.influx || !cfg.delayed || |ws| <= 1 {
      forall acts, s, t, more, n | Closed(cfg, ts, ws, acts, s, t, more, n) ensures n.armed == {} {
        CloseFlushes(cfg, ts, ws, acts, s, t, more, n);
      }
    } else {
      hide RunBy, Reaches, Step;
      var v, w := TwoOf(ws);
      var acts, s := TwoTimers(cfg, ts, ws, v, w);
      var more, n := MissedClose(cfg, s, v);
      assert Closed(cfg, ts, ws, acts, s, v, more, n);
    }
  }
}
