/**
 The buffering of InfluxSink and HttpSink: goroutines that write, a timer
 callback and Close share the encoder lock and timerLock.  timerLock is taken
 with TryLock by a writer and given back by whoever disarms the timer or by
 the timer's callback, so it is a token that travels through the timer.
 One action is one stretch of code between two accesses to shared state.
 */
module FlushProtocol {
  import opened Sets

  /** influx: the writer keeps the encoder lock while it looks after the timer, and batches. */
  datatype Config = Config(influx: bool, delayed: bool, batch: nat)

  /** One record as it is encoded. */
  type Line = string

  datatype Timer = NoTimer | T(id: nat)

  datatype Lock = Free | By(t: nat)

  /** Where a goroutine stands; cb marks a flush made by the timer callback. */
  datatype Pc =
    | Idle
    | WriteLock(rec: Line)       // about to lock the encoder
    | Encode(rec: Line)          // adds its record
    | WriteUnlock               // http: releases the encoder before it decides
    | Decide                    // flush now, batch full, or leave it to the timer
    | TryToken                  // timerLock.TryLock
    | LookTimer                 // reads flushTimer
    | Create                    // time.AfterFunc
    | Assign(id: nat)           // stores the new timer in flushTimer
    | Reset(id: nat)            // flushTimer.Reset
    | Leave                     // influx: releases the encoder and returns
    | StopLook                  // reads flushTimer
    | StopTimer(id: nat)        // flushTimer.Stop
    | ReleaseToken              // Stop succeeded: unlocks timerLock
    | FlushLock(cb: bool)       // about to lock the encoder
    | Take(cb: bool)            // copies and resets the encoder
    | FlushUnlock(cb: bool)     // releases the encoder
    | CallbackEnd               // the callback unlocks timerLock

  datatype State = State(
    enc: Lock,                  // encoderLock
    token: bool,                // timerLock is held
    timer: Timer,               // flushTimer
    armed: set<nat>,            // timers that are running
    created: nat,               // how many timers exist
    encoder: seq<Line>,
    count: nat,                 // numRecordsInEncoder
    pcs: map<nat, Pc>,
    log: seq<Line>,              // every record ever encoded
    taken: seq<seq<Line>>,       // the buffers of all flushes
    missed: bool)               // see Stranded

  datatype Action = Write(t: nat, rec: Line) | Close(t: nat) | Run(t: nat) | Fire(id: nat, t: nat)

  function Init(threads: set<nat>): State {
    State(Free, false, NoTimer, {}, 0, [], 0, map t | t in threads :: Idle, [], [], false)
  }

  predicate Enabled(s: State, a: Action) {
    match a
    case Write(t, _) => t in s.pcs && s.pcs[t].Idle?
    case Close(t) => t in s.pcs && s.pcs[t].Idle?
    case Run(t) => t in s.pcs && !s.pcs[t].Idle? && (s.pcs[t].WriteLock? || s.pcs[t].FlushLock? ==> s.enc.Free?)
    case Fire(id, t) => id in s.armed && t !in s.pcs
  }

  function Step(cfg: Config, s: State, a: Action): State
    requires Enabled(s, a)
  {
    match a
    case Write(t, rec) => s.(pcs := s.pcs[t := WriteLock(rec)])
    case Close(t) => s.(pcs := s.pcs[t := StopLook])
    case Fire(id, t) => s.(armed := s.armed - {id}, pcs := s.pcs[t := FlushLock(true)])
    case Run(t) => Advance(cfg, s, t)
  }

  /** The goroutine has dealt with the timer: influx still has to release the encoder. */
  function Done(cfg: Config): Pc { if cfg.influx then Leave else Idle }

  function Advance(cfg: Config, s: State, t: nat): State
    requires Enabled(s, Run(t))
  {
    match s.pcs[t]
    case WriteLock(_) | Encode(_) | WriteUnlock | Decide => Writing(cfg, s, t)
    case TryToken | LookTimer | Create | Assign(_) | Reset(_) | Leave => Arming(cfg, s, t)
    case StopLook | StopTimer(_) | ReleaseToken => Stopping(s, t)
    case FlushLock(_) | Take(_) | FlushUnlock(_) | CallbackEnd => Flushing(s, t)
    case Idle => s
  }

  /** Write up to its decision what to do about the buffer. */
  function Writing(cfg: Config, s: State, t: nat): State
    requires t in s.pcs
  {
    match s.pcs[t]
    case WriteLock(rec) => s.(enc := By(t), pcs := s.pcs[t := Encode(rec)])
    case Encode(rec) =>
      s.(encoder := s.encoder + [rec], count := s.count + 1, log := s.log + [rec],
         pcs := s.pcs[t := if cfg.influx then Decide else WriteUnlock])
    case WriteUnlock => s.(enc := Free, pcs := s.pcs[t := Decide])
    case Decide =>
      if !cfg.delayed then s.(enc := if cfg.influx then Free else s.enc, pcs := s.pcs[t := FlushLock(false)])
      else if cfg.influx && s.count == cfg.batch then s.(enc := Free, pcs := s.pcs[t := StopLook])
      else s.(pcs := s.pcs[t := TryToken])
    case _ => s
  }

  /** Write when it leaves the buffer to the timer. */
  function Arming(cfg: Config, s: State, t: nat): State
    requires t in s.pcs
  {
    match s.pcs[t]
    case TryToken =>
      if s.token then s.(pcs := s.pcs[t := Done(cfg)], missed := s.missed || (s.encoder != [] && TokenSpent(s)))
      else s.(token := true, pcs := s.pcs[t := LookTimer])
    case LookTimer => s.(pcs := s.pcs[t := if s.timer.NoTimer? then Create else Reset(s.timer.id)])
    case Create => s.(armed := s.armed + {s.created}, created := s.created + 1, pcs := s.pcs[t := Assign(s.created)])
    case Assign(id) => s.(timer := T(id), pcs := s.pcs[t := Done(cfg)])
    case Reset(id) => s.(armed := s.armed + {id}, pcs := s.pcs[t := Done(cfg)])
    case Leave => s.(enc := Free, pcs := s.pcs[t := Idle])
    case _ => s
  }

  /** Write with a full batch, and Close: stop the timer before the flush. */
  function Stopping(s: State, t: nat): State
    requires t in s.pcs
  {
    match s.pcs[t]
    case StopLook => s.(pcs := s.pcs[t := if s.timer.NoTimer? then FlushLock(false) else StopTimer(s.timer.id)])
    case StopTimer(id) =>
      s.(armed := s.armed - {id}, pcs := s.pcs[t := if id in s.armed then ReleaseToken else FlushLock(false)])
    case ReleaseToken => s.(token := false, pcs := s.pcs[t := FlushLock(false)])
    case _ => s
  }

  /** Flush, and the end of the timer callback. */
  function Flushing(s: State, t: nat): State
    requires t in s.pcs
  {
    match s.pcs[t]
    case FlushLock(cb) => s.(enc := By(t), pcs := s.pcs[t := Take(cb)])
    case Take(cb) =>
      s.(encoder := [], count := 0, taken := s.taken + [s.encoder], pcs := s.pcs[t := FlushUnlock(cb)], missed := false)
    case FlushUnlock(cb) => s.(enc := Free, pcs := s.pcs[t := if cb then CallbackEnd else Idle])
    case CallbackEnd => s.(token := false, pcs := s.pcs[t := Idle])
    case _ => s
  }

  /** timerLock is held by a callback that has already emptied the encoder. */
  predicate TokenSpent(s: State) {
    exists t :: t in s.pcs && (s.pcs[t] == FlushUnlock(true) || s.pcs[t] == CallbackEnd)
  }

  // ----- who holds what -----

  predicate HoldsEncoder(cfg: Config, pc: Pc) {
    || pc.Encode? || pc.WriteUnlock? || pc.Take? || pc.FlushUnlock?
    || (cfg.influx && (pc.Decide? || pc.TryToken? || pc.LookTimer? || pc.Create? || pc.Assign? || pc.Reset? || pc.Leave?))
  }

  /** Between TryLock and arming, in the callback, or between a successful Stop and the unlock. */
  predicate HoldsToken(pc: Pc) {
    || pc.LookTimer? || pc.Create? || pc.Reset? || pc.ReleaseToken? || pc.CallbackEnd?
    || ((pc.FlushLock? || pc.Take? || pc.FlushUnlock?) && pc.cb)
  }

  ghost function TokenHolders(pcs: map<nat, Pc>): set<nat> {
    set t | t in pcs && HoldsToken(pcs[t])
  }

  function Flat(bs: seq<seq<Line>>): seq<Line> {
    if bs == [] then [] else Flat(bs[..|bs| - 1]) + bs[|bs| - 1]
  }

  /** The encoder lock is held by exactly the goroutine whose code is inside it. */
  ghost predicate EncoderInv(cfg: Config, s: State) {
    && (forall t :: t in s.pcs && HoldsEncoder(cfg, s.pcs[t]) ==> s.enc == By(t))
    && (s.enc.By? ==> s.enc.t in s.pcs && HoldsEncoder(cfg, s.pcs[s.enc.t]))
    && (cfg.influx ==> forall t :: t in s.pcs ==> !s.pcs[t].WriteUnlock?)
    && (!cfg.influx ==> forall t :: t in s.pcs ==> !s.pcs[t].Leave?)
  }

  /** The token is held once: by one goroutine or by one armed timer. */
  ghost predicate TokenInv(s: State) {
    |TokenHolders(s.pcs)| + |s.armed| == One(s.token) && TimersKnown(s)
  }

  ghost predicate RecordInv(s: State) {
    Flat(s.taken) + s.encoder == s.log && s.count == |s.encoder|
  }

  /** This goroutine will still empty the encoder, arm the timer, or try to. */
  predicate Promises(pc: Pc) {
    || pc.WriteUnlock? || pc.Decide? || pc.TryToken? || pc.LookTimer? || pc.Create? || pc.Reset?
    || pc.StopLook? || pc.StopTimer? || pc.ReleaseToken? || pc.FlushLock? || pc.Take?
  }

  ghost predicate Promised(s: State) {
    s.armed != {} || exists t :: t in s.pcs && Promises(s.pcs[t])
  }

  ghost predicate PromiseInv(s: State) {
    && (s.missed ==> s.encoder != [])
    && (s.encoder != [] && !s.missed ==> Promised(s))
  }

  ghost predicate Inv(cfg: Config, s: State) {
    EncoderInv(cfg, s) && TokenInv(s) && RecordInv(s) && PromiseInv(s)
  }

  // ----- every step keeps the invariant -----

  /** What a step does to the encoder lock, by where its goroutine stood and stands. */
  ghost predicate EncoderShape(cfg: Config, s: State, t: nat, n: State) {
    var before := t in s.pcs && HoldsEncoder(cfg, s.pcs[t]);
    && t in n.pcs && n.pcs == s.pcs[t := n.pcs[t]]
    && (var after := HoldsEncoder(cfg, n.pcs[t]);
       if before then n.enc == (if after then s.enc else Free)
       else if after then s.enc.Free? && n.enc == By(t) else n.enc == s.enc)
    && (if cfg.influx then !n.pcs[t].WriteUnlock? else !n.pcs[t].Leave?)
  }

  /** What EncoderInv says about the goroutine that moves. */
  ghost predicate Placed(cfg: Config, s: State, t: nat) {
    && t in s.pcs && !s.pcs[t].Idle?
    && (s.pcs[t].WriteLock? || s.pcs[t].FlushLock? ==> s.enc.Free?)
    && (if cfg.influx then !s.pcs[t].WriteUnlock? else !s.pcs[t].Leave?)
  }

  lemma WritingShape(cfg: Config, s: State, t: nat)
    requires Placed(cfg, s, t) && (s.pcs[t].WriteLock? || s.pcs[t].Encode? || s.pcs[t].WriteUnlock? || s.pcs[t].Decide?)
    ensures EncoderShape(cfg, s, t, Writing(cfg, s, t))
  {
  }

  lemma ArmingShape(cfg: Config, s: State, t: nat)
    requires Placed(cfg, s, t)
    requires s.pcs[t].TryToken? || s.pcs[t].LookTimer? || s.pcs[t].Create? || s.pcs[t].Assign? || s.pcs[t].Reset? || s.pcs[t].Leave?
    ensures EncoderShape(cfg, s, t, Arming(cfg, s, t))
  {
    hide TokenSpent;
  }

  lemma StoppingShape(cfg: Config, s: State, t: nat)
    requires Placed(cfg, s, t) && (s.pcs[t].StopLook? || s.pcs[t].StopTimer? || s.pcs[t].ReleaseToken?)
    ensures EncoderShape(cfg, s, t, Stopping(s, t))
  {
  }

  lemma FlushingShape(cfg: Config, s: State, t: nat)
    requires Placed(cfg, s, t) && (s.pcs[t].FlushLock? || s.pcs[t].Take? || s.pcs[t].FlushUnlock? || s.pcs[t].CallbackEnd?)
    ensures EncoderShape(cfg, s, t, Flushing(s, t))
  {
  }

  lemma EncoderShapes(cfg: Config, s: State, t: nat)
    requires EncoderInv(cfg, s) && Enabled(s, Run(t))
    ensures EncoderShape(cfg, s, t, Advance(cfg, s, t))
  {
    assert Placed(cfg, s, t);
    hide EncoderInv, Enabled, EncoderShape, Writing, Arming, Stopping, Flushing;
    match s.pcs[t]
    case WriteLock(_) | Encode(_) | WriteUnlock | Decide => WritingShape(cfg, s, t);
    case TryToken | LookTimer | Create | Assign(_) | Reset(_) | Leave => ArmingShape(cfg, s, t);
    case StopLook | StopTimer(_) | ReleaseToken => StoppingShape(cfg, s, t);
    case FlushLock(_) | Take(_) | FlushUnlock(_) | CallbackEnd => FlushingShape(cfg, s, t);
  }

  lemma EncoderStep(cfg: Config, s: State, a: Action)
    requires EncoderInv(cfg, s) && Enabled(s, a)
    ensures EncoderInv(cfg, Step(cfg, s, a))
  {
    if a.Run? {
      EncoderShapes(cfg, s, a.t);
      hide Advance, HoldsEncoder;
    }
  }

  lemma HoldersChange(pcs: map<nat, Pc>, t: nat, pc: Pc)
    ensures |TokenHolders(pcs[t := pc])| == |TokenHolders(pcs)| - One(t in pcs && HoldsToken(pcs[t])) + One(HoldsToken(pc))
  {
    Swap(TokenHolders(pcs), TokenHolders(pcs[t := pc]), t);
  }

  /** A goroutine that holds the token is the only one, and no timer is armed. */
  lemma Unique(s: State, t: nat)
    requires TokenInv(s) && t in s.pcs && HoldsToken(s.pcs[t])
    ensures s.token && s.armed == {} && TokenHolders(s.pcs) == {t}
  {
    SubsetSize({t}, TokenHolders(s.pcs));
  }

  /** The token only changes hands: between goroutines, and into and out of a timer. */
  ghost predicate TokenShape(s: State, t: nat, n: State) {
    && t in n.pcs && n.pcs == s.pcs[t := n.pcs[t]]
    && One(HoldsToken(n.pcs[t])) + |n.armed| - One(n.token)
       == One(t in s.pcs && HoldsToken(s.pcs[t])) + |s.armed| - One(s.token)
  }

  lemma WritingToken(cfg: Config, s: State, t: nat)
    requires t in s.pcs && (s.pcs[t].WriteLock? || s.pcs[t].Encode? || s.pcs[t].WriteUnlock? || s.pcs[t].Decide?)
    ensures TokenShape(s, t, Writing(cfg, s, t))
  {
  }

  lemma ArmingToken(cfg: Config, s: State, t: nat)
    requires t in s.pcs && (HoldsToken(s.pcs[t]) ==> s.token && s.armed == {})
    requires s.pcs[t].TryToken? || s.pcs[t].LookTimer? || s.pcs[t].Assign? || s.pcs[t].Leave?
    ensures TokenShape(s, t, Arming(cfg, s, t))
  {
    hide TokenSpent;
  }

  lemma ArmToken(cfg: Config, s: State, t: nat)
    requires t in s.pcs && s.token && s.armed == {} && (s.pcs[t].Create? || s.pcs[t].Reset?)
    ensures TokenShape(s, t, Arming(cfg, s, t))
  {
    hide TokenSpent;
    assert Arming(cfg, s, t).armed == {if s.pcs[t].Create? then s.created else s.pcs[t].id};
  }

  lemma StoppingToken(s: State, t: nat)
    requires t in s.pcs && (HoldsToken(s.pcs[t]) ==> s.token && s.armed == {})
    requires s.pcs[t].StopLook? || s.pcs[t].ReleaseToken?
    ensures TokenShape(s, t, Stopping(s, t))
  {
  }

  /** Stop hands the token of the armed timer to the goroutine that stopped it. */
  lemma StopToken(s: State, t: nat)
    requires t in s.pcs && s.pcs[t].StopTimer?
    ensures TokenShape(s, t, Stopping(s, t))
  {
    var id := s.pcs[t].id;
    var n := Stopping(s, t);
    assert n.pcs == s.pcs[t := if id in s.armed then ReleaseToken else FlushLock(false)] && n.armed == s.armed - {id} && n.token == s.token;
    hide Stopping;
    assert s.armed == if id in s.armed then s.armed - {id} + {id} else s.armed - {id};
  }

  lemma FlushingToken(s: State, t: nat)
    requires t in s.pcs && (HoldsToken(s.pcs[t]) ==> s.token && s.armed == {})
    requires s.pcs[t].FlushLock? || s.pcs[t].Take? || s.pcs[t].FlushUnlock? || s.pcs[t].CallbackEnd?
    ensures TokenShape(s, t, Flushing(s, t))
  {
  }

  lemma TokenShapes(cfg: Config, s: State, t: nat)
    requires TokenInv(s) && Enabled(s, Run(t))
    ensures TokenShape(s, t, Advance(cfg, s, t))
  {
    hide TokenInv, TokenSpent, TokenHolders, Writing, Arming, Stopping, Flushing, TokenShape;
    if HoldsToken(s.pcs[t]) { Unique(s, t); }
    match s.pcs[t]
    case WriteLock(_) | Encode(_) | WriteUnlock | Decide => WritingToken(cfg, s, t);
    case TryToken | LookTimer | Assign(_) | Leave => ArmingToken(cfg, s, t);
    case Create | Reset(_) => ArmToken(cfg, s, t);
    case StopLook | ReleaseToken => StoppingToken(s, t);
    case StopTimer(_) => StopToken(s, t);
    case FlushLock(_) | Take(_) | FlushUnlock(_) | CallbackEnd => FlushingToken(s, t);
  }

  ghost predicate TimersKnown(s: State) {
    && (forall id :: id in s.armed ==> id < s.created)
    && (s.timer.T? ==> s.timer.id < s.created)
    && (forall t :: t in s.pcs && (s.pcs[t].Assign? || s.pcs[t].Reset? || s.pcs[t].StopTimer?) ==> s.pcs[t].id < s.created)
  }

  /** Which timers a step makes, names and runs. */
  ghost predicate TimerEffect(s: State, t: nat, n: State) {
    && t in n.pcs && t in s.pcs && n.pcs == s.pcs[t := n.pcs[t]]
    && n.created == s.created + One(s.pcs[t].Create?)
    && (forall id :: id in n.armed ==> id in s.armed || (s.pcs[t].Create? && id == s.created) || (s.pcs[t].Reset? && id == s.pcs[t].id))
    && n.timer == (if s.pcs[t].Assign? then T(s.pcs[t].id) else s.timer)
    && (n.pcs[t].Create? ==> s.pcs[t].LookTimer? && s.timer.NoTimer?)
    && (n.pcs[t].Assign? <==> s.pcs[t].Create?) && (n.pcs[t].Assign? ==> n.pcs[t].id == s.created)
    && (n.pcs[t].Reset? || n.pcs[t].StopTimer? ==> s.timer == T(n.pcs[t].id))
  }

  lemma WritingTimers(cfg: Config, s: State, t: nat)
    requires t in s.pcs && (s.pcs[t].WriteLock? || s.pcs[t].Encode? || s.pcs[t].WriteUnlock? || s.pcs[t].Decide?)
    ensures TimerEffect(s, t, Writing(cfg, s, t))
  {
  }

  lemma ArmingTimers(cfg: Config, s: State, t: nat)
    requires t in s.pcs && (s.pcs[t].TryToken? || s.pcs[t].LookTimer? || s.pcs[t].Create? || s.pcs[t].Assign? || s.pcs[t].Reset? || s.pcs[t].Leave?)
    ensures TimerEffect(s, t, Arming(cfg, s, t))
  {
    hide TokenSpent;
  }

  lemma StoppingTimers(s: State, t: nat)
    requires t in s.pcs && (s.pcs[t].StopLook? || s.pcs[t].StopTimer? || s.pcs[t].ReleaseToken?)
    ensures TimerEffect(s, t, Stopping(s, t))
  {
  }

  lemma FlushingTimers(s: State, t: nat)
    requires t in s.pcs && (s.pcs[t].FlushLock? || s.pcs[t].Take? || s.pcs[t].FlushUnlock? || s.pcs[t].CallbackEnd?)
    ensures TimerEffect(s, t, Flushing(s, t))
  {
  }

  lemma TimerEffects(cfg: Config, s: State, t: nat)
    requires Enabled(s, Run(t))
    ensures TimerEffect(s, t, Advance(cfg, s, t))
  {
    hide TimerEffect, Writing, Arming, Stopping, Flushing;
    match s.pcs[t]
    case WriteLock(_) | Encode(_) | WriteUnlock | Decide => WritingTimers(cfg, s, t);
    case TryToken | LookTimer | Create | Assign(_) | Reset(_) | Leave => ArmingTimers(cfg, s, t);
    case StopLook | StopTimer(_) | ReleaseToken => StoppingTimers(s, t);
    case FlushLock(_) | Take(_) | FlushUnlock(_) | CallbackEnd => FlushingTimers(s, t);
  }

  lemma TimersStep(cfg: Config, s: State, a: Action)
    requires TimersKnown(s) && Enabled(s, a)
    ensures TimersKnown(Step(cfg, s, a))
  {
    if a.Run? {
      TimerEffects(cfg, s, a.t);
      hide Advance;
    }
  }

  lemma TokenStep(cfg: Config, s: State, a: Action)
    requires TokenInv(s) && Enabled(s, a)
    ensures TokenInv(Step(cfg, s, a))
  {
    hide Advance, TimersKnown, TokenHolders;
    TimersStep(cfg, s, a);
    if a.Run? {
      TokenShapes(cfg, s, a.t);
    } else if a.Fire? {
      assert s.armed == s.armed - {a.id} + {a.id};
    }
    HoldersChange(s.pcs, a.t, Step(cfg, s, a).pcs[a.t]);
  }

  lemma RecordStep(cfg: Config, s: State, a: Action)
    requires RecordInv(s) && Enabled(s, a)
    ensures RecordInv(Step(cfg, s, a))
  {
    hide Flat;
    if a.Run? && s.pcs[a.t].Encode? {
      assert Flat(s.taken) + (s.encoder + [s.pcs[a.t].rec]) == Flat(s.taken) + s.encoder + [s.pcs[a.t].rec];
    } else if a.Run? && s.pcs[a.t].Take? {
      FlatAppend(s.taken, s.encoder);
      assert Flat(s.taken) + s.encoder + [] == Flat(s.taken) + s.encoder;
    }
  }

  lemma FlatAppend(bs: seq<seq<Line>>, b: seq<Line>)
    ensures Flat(bs + [b]) == Flat(bs) + b
  {
    assert (bs + [b])[..|bs|] == bs;
  }

  /** Whoever holds the token without having spent it promises something. */
  lemma TokenPromises(s: State)
    requires TokenInv(s) && s.token && !TokenSpent(s)
    ensures Promised(s)
  {
    if s.armed == {} {
      assert |TokenHolders(s.pcs)| == 1;
      var t :| t in TokenHolders(s.pcs);
      assert Promises(s.pcs[t]);
    }
  }

  /** A goroutine keeps its promise, or hands it to the timer, unless the token's holder has promised. */
  ghost predicate Passes(s: State, t: nat, n: State) {
    && t in n.pcs && n.pcs == s.pcs[t := n.pcs[t]]
    && (n.encoder != [] && !n.missed && ((t in s.pcs && Promises(s.pcs[t])) || s.armed != {}) ==>
        Promises(n.pcs[t]) || n.armed != {} || (t in s.pcs && s.pcs[t].TryToken? && s.token && !TokenSpent(s)))
  }

  lemma ArmingPasses(cfg: Config, s: State, t: nat)
    requires t in s.pcs && s.encoder != []
    requires s.pcs[t].TryToken? || s.pcs[t].LookTimer? || s.pcs[t].Create? || s.pcs[t].Assign? || s.pcs[t].Reset? || s.pcs[t].Leave?
    ensures Passes(s, t, Arming(cfg, s, t))
  {
    hide TokenSpent;
    match s.pcs[t]
    case Create => assert s.created in Arming(cfg, s, t).armed;
    case Reset(id) => assert id in Arming(cfg, s, t).armed;
    case _ =>
  }

  lemma WritingPasses(cfg: Config, s: State, t: nat)
    requires t in s.pcs && (s.pcs[t].WriteLock? || s.pcs[t].Encode? || s.pcs[t].WriteUnlock? || s.pcs[t].Decide?)
    ensures Passes(s, t, Writing(cfg, s, t))
  {
    hide TokenSpent;
  }

  lemma StoppingPasses(s: State, t: nat)
    requires t in s.pcs && (s.pcs[t].StopLook? || s.pcs[t].StopTimer? || s.pcs[t].ReleaseToken?)
    ensures Passes(s, t, Stopping(s, t))
  {
    hide TokenSpent;
  }

  lemma FlushingPasses(s: State, t: nat)
    requires t in s.pcs && (s.pcs[t].FlushLock? || s.pcs[t].Take? || s.pcs[t].FlushUnlock? || s.pcs[t].CallbackEnd?)
    ensures Passes(s, t, Flushing(s, t))
  {
    hide TokenSpent;
  }

  lemma StepPasses(cfg: Config, s: State, a: Action)
    requires Enabled(s, a) && s.encoder != []
    ensures Passes(s, a.t, Step(cfg, s, a))
  {
    hide TokenSpent, Writing, Arming, Stopping, Flushing;
    if a.Run? {
      hide Passes;
      match s.pcs[a.t]
      case WriteLock(_) | Encode(_) | WriteUnlock | Decide => WritingPasses(cfg, s, a.t);
      case TryToken | LookTimer | Create | Assign(_) | Reset(_) | Leave => ArmingPasses(cfg, s, a.t);
      case StopLook | StopTimer(_) | ReleaseToken => StoppingPasses(s, a.t);
      case FlushLock(_) | Take(_) | FlushUnlock(_) | CallbackEnd => FlushingPasses(s, a.t);
    }
  }

  /** A promise is passed on until the encoder is emptied. */
  lemma PromiseKept(cfg: Config, s: State, a: Action)
    requires Promised(s) && TokenInv(s) && Enabled(s, a) && s.encoder != []
    requires var n := Step(cfg, s, a); n.encoder != [] && !n.missed
    ensures Promised(Step(cfg, s, a))
  {
    var n := Step(cfg, s, a);
    StepPasses(cfg, s, a);
    hide Step, TokenInv;
    if n.armed == {} && !Promises(n.pcs[a.t]) {
      if a.t in s.pcs && s.pcs[a.t].TryToken? && s.token && !TokenSpent(s) {
        TokenPromises(s);
        var u :| s.armed != {} || (u in s.pcs && HoldsToken(s.pcs[u]) && Promises(s.pcs[u]));
        assert u in n.pcs && n.pcs[u] == s.pcs[u];
      } else {
        var u :| u in s.pcs && Promises(s.pcs[u]);
        assert u in n.pcs && n.pcs[u] == s.pcs[u];
      }
    }
  }

  lemma PromiseStep(cfg: Config, s: State, a: Action)
    requires PromiseInv(s) && TokenInv(s) && Enabled(s, a)
    ensures PromiseInv(Step(cfg, s, a))
  {
    var n := Step(cfg, s, a);
    if n.encoder != [] && !n.missed {
      if a.Run? && s.pcs[a.t].Encode? {
        assert Promises(n.pcs[a.t]);
      } else {
        PromiseKept(cfg, s, a);
      }
    }
  }
}
