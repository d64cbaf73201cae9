/**
 Whole runs of the message processor over a list of stages, as functions of the orders in
 which the rule maps are walked, and what every run keeps.
 */
module ProcessorRuns {
  import opened MessageView
  import opened Options

  /** Stages in any order and number; Apply stands for the thirteen stages that edit by rules. */
  datatype Stage = DropByName | DropByType | DropIf | RenameByName | Apply(op: Op) | NormalizeUnit | ChangeUnitPrefix

  datatype Converted = Converted(before: string, after: string, value: Value)

  /** The unit package as the processor uses it: the short form of a valid unit, and the conversion of a value to a prefix. */
  datatype Units = Units(normalize: string -> Option<string>, convert: (string, string, Value) -> Option<Converted>)

  datatype Config = Config(
    dropMessages: set<string>, dropTypes: set<string>, dropIf: map<nat, Condition>,
    renames: map<string, string>, rules: map<Op, map<nat, Rule>>, prefixes: map<nat, Rule>,
    normalizeUnits: bool, units: Units)

  datatype Result = Done(s: Situation) | Dropped | Failed(s: Situation) | Panicked

  function RulesFor(c: Config, op: Op): map<nat, Rule> {
    if op in c.rules then c.rules[op] else map[]
  }

  function KeysOf(c: Config, stage: Stage): set<nat> {
    match stage
    case DropIf => c.dropIf.Keys
    case Apply(op) => RulesFor(c, op).Keys
    case ChangeUnitPrefix => c.prefixes.Keys
    case _ => {}
  }

  ghost predicate Inside(order: seq<nat>, keys: set<nat>) {
    forall r :: r in order ==> r in keys
  }

  predicate IsMetric(v: View) {
    "value" in v.fields && v.fields["value"].Data?
  }

  // ----- one stage -----

  function RunDrops(conditions: map<nat, Condition>, order: seq<nat>, s: Situation): Result
    requires Inside(order, conditions.Keys)
  {
    if order == [] then Done(s)
    else
      match RunDrops(conditions, order[..|order| - 1], s)
      case Done(t) =>
        (match conditions[order[|order| - 1]](t)
         case Faulty => Failed(t)
         case Yes => Dropped
         case No => Done(t))
      case other => other
  }

  /** The unit goes to the meta data of the environment even where the message has it as a tag. */
  function Normalize(units: Units, s: Situation): Situation {
    if "unit" in s.msg.meta then
      match units.normalize(s.msg.meta["unit"])
      case None => s
      case Some(u) => s.(msg := Put(s.msg, Meta, "unit", u), env := Put(s.env, Meta, "unit", u))
    else if "unit" in s.msg.tags then
      match units.normalize(s.msg.tags["unit"])
      case None => s
      case Some(u) => s.(msg := Put(s.msg, Tags, "unit", u), env := Put(s.env, Meta, "unit", u))
    else s
  }

  function SetValue(v: View, value: Value): View { v.(fields := v.fields["value" := value]) }

  /** The environment gets the unit as it was before the conversion. */
  function ChangePrefix(units: Units, prefix: string, s: Situation): Situation {
    if "value" !in s.msg.fields then s
    else if "unit" in s.msg.meta then
      match units.convert(s.msg.meta["unit"], prefix, s.msg.fields["value"])
      case None => s
      case Some(c) => s.(msg := Put(SetValue(s.msg, c.value), Meta, "unit", c.after),
                         env := Put(SetValue(s.env, c.value), Meta, "unit", c.before))
    else if "unit" in s.msg.tags then
      match units.convert(s.msg.tags["unit"], prefix, s.msg.fields["value"])
      case None => s
      case Some(c) => s.(msg := Put(SetValue(s.msg, c.value), Tags, "unit", c.after),
                         env := Put(SetValue(s.env, c.value), Meta, "unit", c.before))
    else s
  }

  function RunPrefixes(units: Units, rules: map<nat, Rule>, order: seq<nat>, s: Situation): Result
    requires Inside(order, rules.Keys)
  {
    if order == [] then Done(s)
    else
      match RunPrefixes(units, rules, order[..|order| - 1], s)
      case Done(t) =>
        var rule := rules[order[|order| - 1]];
        (match rule.condition(t)
         case Faulty => Failed(t)
         case No => Done(t)
         case Yes => Done(ChangePrefix(units, rule.value, t)))
      case other => other
  }

  function RunStage(c: Config, stage: Stage, order: seq<nat>, s: Situation): Result
    requires Inside(order, KeysOf(c, stage))
  {
    match stage
    case DropByName => if s.env.name in c.dropMessages then Dropped else Done(s)
    case DropByType =>
      if c.dropTypes == {} then Done(s)
      else if s.extras.messagetype.None? then Panicked
      else if s.extras.messagetype.value in c.dropTypes then Dropped
      else Done(s)
    case DropIf => RunDrops(c.dropIf, order, s)
    case RenameByName =>
      if s.env.name in c.renames then
        var name := s.env.name;
        var rule := Rule(_ => Yes, "", c.renames[name]);
        Done(s.(msg := Edit(Rename, rule, s.msg, name), env := Edit(Rename, rule, s.env, name)))
      else Done(s)
    case Apply(op) =>
      (match RunRules(op, RulesFor(c, op), order, s)
       case Next(t) => Done(t)
       case Fault(t) => Failed(t))
    case NormalizeUnit => if c.normalizeUnits && IsMetric(s.msg) then Done(Normalize(c.units, s)) else Done(s)
    case ChangeUnitPrefix => if IsMetric(s.msg) then RunPrefixes(c.units, c.prefixes, order, s) else Done(s)
  }

  // ----- all stages -----

  ghost predicate AllInside(c: Config, stages: seq<Stage>, orders: seq<seq<nat>>) {
    |orders| == |stages| && forall i :: 0 <= i < |stages| ==> Inside(orders[i], KeysOf(c, stages[i]))
  }

  function RunStages(c: Config, stages: seq<Stage>, orders: seq<seq<nat>>, s: Situation): Result
    requires AllInside(c, stages, orders)
  {
    if stages == [] then Done(s)
    else
      var k := |stages| - 1;
      match RunStages(c, stages[..k], orders[..k], s)
      case Done(t) => RunStage(c, stages[k], orders[k], t)
      case other => other
  }

  predicate UnitStage(stage: Stage) { stage == NormalizeUnit || stage == ChangeUnitPrefix }

  predicate ResultMirror(r: Result) { (r.Done? || r.Failed?) ==> Mirror(r.s) }

  lemma {:induction false} DropsKeep(conditions: map<nat, Condition>, order: seq<nat>, s: Situation)
    requires Inside(order, conditions.Keys)
    ensures var r := RunDrops(conditions, order, s); (r.Done? || r.Failed?) ==> r.s == s
  {
    if order == [] {
    } else {
      DropsKeep(conditions, order[..|order| - 1], s);
    }
  }

  lemma StageKeepsMirror(c: Config, stage: Stage, order: seq<nat>, s: Situation)
    requires Mirror(s) && !UnitStage(stage) && Inside(order, KeysOf(c, stage))
    ensures ResultMirror(RunStage(c, stage, order, s))
  {
    match stage
    case DropIf => DropsKeep(c.dropIf, order, s);
    case Apply(op) => RulesKeepMirror(op, RulesFor(c, op), order, s);
    case _ =>
  }

  /** Without unit stages the environment shows the message after every stage of every run. */
  lemma {:induction false} RunKeepsMirror(c: Config, stages: seq<Stage>, orders: seq<seq<nat>>, s: Situation, k: nat)
    requires AllInside(c, stages, orders) && Mirror(s) && k <= |stages|
    requires forall i :: 0 <= i < |stages| ==> !UnitStage(stages[i])
    ensures AllInside(c, stages[..k], orders[..k]) && ResultMirror(RunStages(c, stages[..k], orders[..k], s))
    decreases k
  {
    hide RunStage;
    if k == 0 {
    } else {
      RunKeepsMirror(c, stages, orders, s, k - 1);
      assert stages[..k][..k - 1] == stages[..k - 1] && orders[..k][..k - 1] == orders[..k - 1];
      var r := RunStages(c, stages[..k - 1], orders[..k - 1], s);
      if r.Done? {
        StageKeepsMirror(c, stages[k - 1], orders[k - 1], r.s);
      }
    }
  }

  // ----- the run as a reader of the rules understands it -----

  /** What becomes of a message when every condition and every name is looked up in the message itself. */
  datatype Reading = Kept(v: View) | Gone | Wrong(v: View) | Broken

  function ReadRule(op: Op, rule: Rule, v: View, x: Extras): Reading {
    match rule.condition(Situation(v, v, x))
    case Faulty => Wrong(v)
    case No => Kept(v)
    case Yes =>
      match op
      case Add(at) => Kept(Put(v, at, rule.key, rule.value))
      case Delete(at) => if at.Fields? && rule.key in PROTECTED then Wrong(v) else Kept(Remove(v, at, rule.key))
      case Move(from, to) =>
        var text := Lookup(v, from, rule.key);
        if text.None? then Kept(v) else Kept(Put(Remove(v, from, rule.key), to, rule.value, text.value))
      case Rename => Kept(Put(SetName(v, rule.value), Meta, "oldname", v.name))
  }

  function ReadRules(op: Op, rules: map<nat, Rule>, order: seq<nat>, v: View, x: Extras): Reading
    requires Inside(order, rules.Keys)
  {
    if order == [] then Kept(v)
    else
      match ReadRules(op, rules, order[..|order| - 1], v, x)
      case Kept(w) => ReadRule(op, rules[order[|order| - 1]], w, x)
      case other => other
  }

  function ReadDrops(conditions: map<nat, Condition>, order: seq<nat>, v: View, x: Extras): Reading
    requires Inside(order, conditions.Keys)
  {
    if order == [] then Kept(v)
    else
      match ReadDrops(conditions, order[..|order| - 1], v, x)
      case Kept(w) =>
        var verdict := conditions[order[|order| - 1]](Situation(w, w, x));
        if verdict.Faulty? then Wrong(w) else if verdict.Yes? then Gone else Kept(w)
      case other => other
  }

  function ReadStage(c: Config, stage: Stage, order: seq<nat>, v: View, x: Extras): Reading
    requires Inside(order, KeysOf(c, stage)) && !UnitStage(stage)
  {
    match stage
    case DropByName => if v.name in c.dropMessages then Gone else Kept(v)
    case DropByType =>
      if c.dropTypes == {} then Kept(v)
      else if x.messagetype.None? then Broken
      else if x.messagetype.value in c.dropTypes then Gone else Kept(v)
    case DropIf => ReadDrops(c.dropIf, order, v, x)
    case RenameByName =>
      if v.name in c.renames then Kept(Put(SetName(v, c.renames[v.name]), Meta, "oldname", v.name)) else Kept(v)
    case Apply(op) => ReadRules(op, RulesFor(c, op), order, v, x)
  }

  function ReadStages(c: Config, stages: seq<Stage>, orders: seq<seq<nat>>, v: View, x: Extras): Reading
    requires AllInside(c, stages, orders) && forall i :: 0 <= i < |stages| ==> !UnitStage(stages[i])
  {
    if stages == [] then Kept(v)
    else
      var k := |stages| - 1;
      match ReadStages(c, stages[..k], orders[..k], v, x)
      case Kept(w) => ReadStage(c, stages[k], orders[k], w, x)
      case other => other
  }

  /** Both copies of the message are what the reading says. */
  function Doubled(r: Reading, x: Extras): Result {
    match r
    case Kept(v) => Done(Situation(v, v, x))
    case Gone => Dropped
    case Wrong(v) => Failed(Situation(v, v, x))
    case Broken => Panicked
  }

  lemma {:induction false} RulesRefine(op: Op, rules: map<nat, Rule>, order: seq<nat>, v: View, x: Extras)
    requires Inside(order, rules.Keys)
    ensures var r := RunRules(op, rules, order, Situation(v, v, x));
            (match r case Next(t) => Done(t) case Fault(t) => Failed(t)) == Doubled(ReadRules(op, rules, order, v, x), x)
  {
    hide Put, Remove, Lookup, SetName;
    if order == [] {
    } else {
      RulesRefine(op, rules, order[..|order| - 1], v, x);
    }
  }

  lemma {:induction false} DropsRefine(conditions: map<nat, Condition>, order: seq<nat>, v: View, x: Extras)
    requires Inside(order, conditions.Keys)
    ensures RunDrops(conditions, order, Situation(v, v, x)) == Doubled(ReadDrops(conditions, order, v, x), x)
  {
    if order == [] {
    } else {
      DropsRefine(conditions, order[..|order| - 1], v, x);
    }
  }

  lemma StageRefines(c: Config, stage: Stage, order: seq<nat>, v: View, x: Extras)
    requires Inside(order, KeysOf(c, stage)) && !UnitStage(stage)
    ensures RunStage(c, stage, order, Situation(v, v, x)) == Doubled(ReadStage(c, stage, order, v, x), x)
  {
    hide RunRules, RunDrops, ReadRules, ReadDrops, Put;
    match stage
    case DropIf => DropsRefine(c.dropIf, order, v, x);
    case Apply(op) => RulesRefine(op, RulesFor(c, op), order, v, x);
    case _ =>
  }

  /** Keeping an environment beside the message changes nothing: a run that starts mirrored does what its rules say of the message alone. */
  lemma {:induction false} RunRefines(c: Config, stages: seq<Stage>, orders: seq<seq<nat>>, v: View, x: Extras)
    requires AllInside(c, stages, orders) && forall i :: 0 <= i < |stages| ==> !UnitStage(stages[i])
    ensures RunStages(c, stages, orders, Situation(v, v, x)) == Doubled(ReadStages(c, stages, orders, v, x), x)
  {
    hide RunStage, ReadStage;
    if stages == [] {
    } else {
      var k := |stages| - 1;
      RunRefines(c, stages[..k], orders[..k], v, x);
      var r := ReadStages(c, stages[..k], orders[..k], v, x);
      if r.Kept? {
        StageRefines(c, stages[k], orders[k], r.v, x);
      }
    }
  }

  // ----- fields that cannot be deleted -----

  predicate MovesFields(stage: Stage) { stage.Apply? && stage.op.Move? && stage.op.from == Fields }

  lemma {:induction false} RulesProtect(op: Op, rules: map<nat, Rule>, order: seq<nat>, s: Situation, key: string)
    requires Inside(order, rules.Keys) && key in PROTECTED && key in s.msg.fields && !MovesFields(Apply(op))
    ensures key in RunRules(op, rules, order, s).s.msg.fields
  {
    if order == [] {
    } else {
      RulesProtect(op, rules, order[..|order| - 1], s, key);
    }
  }

  lemma {:induction false} PrefixesProtect(units: Units, rules: map<nat, Rule>, order: seq<nat>, s: Situation, key: string)
    requires Inside(order, rules.Keys) && key in s.msg.fields
    ensures var r := RunPrefixes(units, rules, order, s); (r.Done? || r.Failed?) ==> key in r.s.msg.fields
  {
    if order == [] {
    } else {
      PrefixesProtect(units, rules, order[..|order| - 1], s, key);
    }
  }

  lemma StageProtects(c: Config, stage: Stage, order: seq<nat>, s: Situation, key: string)
    requires Inside(order, KeysOf(c, stage)) && key in PROTECTED && key in s.msg.fields && !MovesFields(stage)
    ensures var r := RunStage(c, stage, order, s); (r.Done? || r.Failed?) ==> key in r.s.msg.fields
  {
    hide RunRules, RunDrops, RunPrefixes;
    match stage
    case DropIf => DropsKeep(c.dropIf, order, s);
    case Apply(op) => RulesProtect(op, RulesFor(c, op), order, s, key);
    case ChangeUnitPrefix => PrefixesProtect(c.units, c.prefixes, order, s, key);
    case _ =>
  }

  /** Only a stage that moves fields away can cost a message its value, event, log or control field. */
  lemma {:induction false} ProtectedFieldsStay(c: Config, stages: seq<Stage>, orders: seq<seq<nat>>, s: Situation, key: string)
    requires AllInside(c, stages, orders) && key in PROTECTED && key in s.msg.fields
    requires forall i :: 0 <= i < |stages| ==> !MovesFields(stages[i])
    ensures var r := RunStages(c, stages, orders, s); (r.Done? || r.Failed?) ==> key in r.s.msg.fields
  {
    hide RunStage, MovesFields;
    if stages == [] {
    } else {
      var k := |stages| - 1;
      ProtectedFieldsStay(c, stages[..k], orders[..k], s, key);
      var r := RunStages(c, stages[..k], orders[..k], s);
      if r.Done? {
        StageProtects(c, stages[k], orders[k], r.s, key);
      }
    }
  }

  /** Every rule map is walked completely. */
  ghost predicate AllWalked(c: Config, stages: seq<Stage>, orders: seq<seq<nat>>) {
    |orders| == |stages| && forall i :: 0 <= i < |stages| ==> Walk(orders[i], KeysOf(c, stages[i]), true)
  }

  /** In every run over these stages, with any rules, the field key stays if it is there at the start. */
  ghost predicate AlwaysKept(stages: seq<Stage>, key: string) {
    forall c, orders, s: Situation :: AllWalked(c, stages, orders) && key in s.msg.fields ==> FieldKept(c, stages, orders, s, key)
  }

  ghost predicate FieldKept(c: Config, stages: seq<Stage>, orders: seq<seq<nat>>, s: Situation, key: string) {
    AllInside(c, stages, orders) ==> var r := RunStages(c, stages, orders, s); (r.Done? || r.Failed?) ==> key in r.s.msg.fields
  }

  /** A configuration whose only rule moves the field key away under another name, always. */
  function MoverConfig(op: Op, key: string): Config {
    Config({}, {}, map[], map[], map[op := map[0 := Rule(_ => Yes, key, key + "_")]], map[], false,
           Units(_ => None, (_, _, _) => None))
  }

  /** The orders of a run: the one rule wherever its operation is applied. */
  function MoverOrder(op: Op, stage: Stage): (order: seq<nat>) {
    if stage == Apply(op) then [0] else []
  }

  /** What a stage does under that configuration: it takes the field away if it is the operation, and otherwise nothing. */
  lemma MoverStage(op: Op, key: string, stage: Stage, s: Situation)
    requires op.Move? && op.from == Fields
    ensures var c := MoverConfig(op, key);
            && Walk(MoverOrder(op, stage), KeysOf(c, stage), true) && Inside(MoverOrder(op, stage), KeysOf(c, stage))
            && var r := RunStage(c, stage, MoverOrder(op, stage), s);
               r.Done? && (key in r.s.msg.fields <==> key in s.msg.fields && stage != Apply(op))
  {
    var c, order := MoverConfig(op, key), MoverOrder(op, stage);
    match stage
    case Apply(o) =>
      if o == op {
        assert order == [0] && [0][..0] == [] && RulesFor(c, op).Keys == {0};
        MovedAway(op, RulesFor(c, op)[0], key, s);
        assert RunRules(op, RulesFor(c, op), [0], s) == RunRule(op, RulesFor(c, op)[0], s);
      } else {
        assert RulesFor(c, o) == map[];
      }
    case _ =>
  }

  lemma MovedAway(op: Op, rule: Rule, key: string, s: Situation)
    requires op.Move? && op.from == Fields && rule.key == key && rule.value != key && rule.condition(s) == Yes
    ensures RunRule(op, rule, s).Next? && key !in RunRule(op, rule, s).s.msg.fields
    ensures key !in s.msg.fields ==> RunRule(op, rule, s).s == s
  {
  }

  /** The run of that configuration keeps the field up to the first stage with its operation and not beyond. */
  lemma {:induction false} MoverRun(op: Op, key: string, stages: seq<Stage>, orders: seq<seq<nat>>, s: Situation)
    requires op.Move? && op.from == Fields && |orders| == |stages| && key in s.msg.fields
    requires forall i :: 0 <= i < |stages| ==> orders[i] == MoverOrder(op, stages[i])
    ensures var c := MoverConfig(op, key);
            && AllWalked(c, stages, orders) && AllInside(c, stages, orders)
            && var r := RunStages(c, stages, orders, s);
               r.Done? && (key in r.s.msg.fields <==> Apply(op) !in stages)
  {
    hide RunStage, KeysOf, Walk, MoverConfig, MoverOrder, Inside;
    var c := MoverConfig(op, key);
    forall i | 0 <= i < |stages| ensures Walk(orders[i], KeysOf(c, stages[i]), true) && Inside(orders[i], KeysOf(c, stages[i])) {
      MoverStage(op, key, stages[i], s);
    }
    if stages == [] {
    } else {
      var k := |stages| - 1;
      MoverRun(op, key, stages[..k], orders[..k], s);
      MoverStage(op, key, stages[k], RunStages(c, stages[..k], orders[..k], s).s);
      assert stages == stages[..k] + [stages[k]];
    }
  }

  /** A run over these stages that loses the field: every rule map is empty but that of a moving stage. */
  lemma MoverLoses(stages: seq<Stage>, key: string, i: nat) returns (c: Config, orders: seq<seq<nat>>, s: Situation)
    requires i < |stages| && MovesFields(stages[i])
    ensures AllWalked(c, stages, orders) && key in s.msg.fields && !FieldKept(c, stages, orders, s, key)
  {
    hide AllWalked, AllInside;
    var op := stages[i].op;
    var v := View("", map[], map[], map[key := Text("")]);
    c, s := MoverConfig(op, key), Situation(v, v, Extras(0, None, map[]));
    orders := seq(|stages|, j requires 0 <= j < |stages| => MoverOrder(op, stages[j]));
    hide MoverConfig, MoverOrder, RunStages;
    MoverRun(op, key, stages, orders, s);
    assert stages[i] == Apply(op) && stages[i] in stages;
  }

  /** A protected field stays in every run over these stages if and only if none of them moves fields. */
  lemma ProtectedExactly(stages: seq<Stage>, key: string)
    requires key in PROTECTED
    ensures AlwaysKept(stages, key) <==> forall i :: 0 <= i < |stages| ==> !MovesFields(stages[i])
  {
    hide MovesFields, AllWalked, AllInside, RunStages;
    if i :| 0 <= i < |stages| && MovesFields(stages[i]) {
      var c, orders, s := MoverLoses(stages, key, i);
    } else {
      forall c, orders, s: Situation | AllWalked(c, stages, orders) && key in s.msg.fields ensures FieldKept(c, stages, orders, s, key) {
        if AllInside(c, stages, orders) {
          ProtectedFieldsStay(c, stages, orders, s, key);
        }
      }
    }
  }

  // ----- dropping by type -----

  ghost predicate Drops(c: Config, s: Situation) {
    RunStage(c, DropByType, [], s).Dropped?
  }

  /** Whether a message is dropped by its type does not depend on map order if and only if its fields agree on it. */
  lemma DropDetermined(c: Config, v: View)
    ensures (forall s, t :: Initial(v, s) && Initial(v, t) ==> (Drops(c, s) <==> Drops(c, t)))
       <==> (forall j, k :: j in v.fields && k in v.fields ==> (TypeOf(j) in c.dropTypes <==> TypeOf(k) in c.dropTypes))
  {
    hide TypeOf, IsType;
    forall s | Initial(v, s) ensures Drops(c, s) <==> exists k :: k in v.fields && s.extras.messagetype == Some(TypeOf(k)) && TypeOf(k) in c.dropTypes {
      TypesPossible(v.fields, s.extras.messagetype);
    }
    if j, k :| j in v.fields && k in v.fields && TypeOf(j) in c.dropTypes && TypeOf(k) !in c.dropTypes {
      TypesPossible(v.fields, Some(TypeOf(j)));
      TypesPossible(v.fields, Some(TypeOf(k)));
      var s := InitialOfType(v, Some(TypeOf(j)));
      var t := InitialOfType(v, Some(TypeOf(k)));
      assert Drops(c, s) && !Drops(c, t);
    } else {
      forall s, t | Initial(v, s) && Initial(v, t) ensures Drops(c, s) <==> Drops(c, t) {
        TypesPossible(v.fields, s.extras.messagetype);
        TypesPossible(v.fields, t.extras.messagetype);
      }
    }
  }

  /** A metric with any further field of no special name is dropped by its type or kept, as map order has it. */
  lemma MetricByChance(c: Config, v: View, extra: string) returns (s: Situation, t: Situation)
    requires c.dropTypes == {"metric"} && "value" in v.fields && extra in v.fields && extra !in PROTECTED
    ensures Initial(v, s) && Initial(v, t) && Drops(c, s) && !Drops(c, t)
  {
    TypesPossible(v.fields, Some("metric"));
    TypesPossible(v.fields, Some("unknown"));
    assert TypeOf("value") == "metric" && TypeOf(extra) == "unknown";
    s := InitialOfType(v, Some("metric"));
    t := InitialOfType(v, Some("unknown"));
  }

  // ----- the unit stages -----

  /** Normalizing a unit leaves the environment out of step exactly when the unit is a valid tag. */
  lemma NormalizeMirror(units: Units, s: Situation)
    requires Mirror(s)
    ensures Mirror(Normalize(units, s))
       <==> "unit" in s.msg.meta || "unit" !in s.msg.tags || units.normalize(s.msg.tags["unit"]).None?
  {
    if "unit" !in s.msg.meta && "unit" in s.msg.tags && units.normalize(s.msg.tags["unit"]).Some? {
      assert "unit" in Normalize(units, s).env.meta;
    }
  }

  /** A conversion leaves it out of step unless the unit is in the meta data and keeps its short form. */
  lemma ChangePrefixMirror(units: Units, prefix: string, s: Situation)
    requires Mirror(s) && "value" in s.msg.fields
    ensures "unit" in s.msg.meta ==>
      (Mirror(ChangePrefix(units, prefix, s)) <==>
         var c := units.convert(s.msg.meta["unit"], prefix, s.msg.fields["value"]); c.None? || c.value.before == c.value.after)
    ensures "unit" !in s.msg.meta && "unit" in s.msg.tags ==>
      (Mirror(ChangePrefix(units, prefix, s)) <==> units.convert(s.msg.tags["unit"], prefix, s.msg.fields["value"]).None?)
    ensures "unit" !in s.msg.meta && "unit" !in s.msg.tags ==> Mirror(ChangePrefix(units, prefix, s))
  {
    var t := ChangePrefix(units, prefix, s);
    if "unit" in s.msg.meta {
      var c := units.convert(s.msg.meta["unit"], prefix, s.msg.fields["value"]);
      if c.Some? {
        assert t.msg.meta["unit"] == c.value.after && t.env.meta["unit"] == c.value.before;
      }
    } else if "unit" in s.msg.tags && units.convert(s.msg.tags["unit"], prefix, s.msg.fields["value"]).Some? {
      assert "unit" in t.env.meta && "unit" !in t.msg.meta;
    }
  }
}
