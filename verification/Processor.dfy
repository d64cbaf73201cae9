/**
 The message processor on mutable maps. The working copy of a message and the evaluation
 environment are separate objects; every stage writes to both, and the environment holds
 its tags and its fields twice, under two names for the same map.
 */
module Processor {
  import opened MessageView
  import opened ProcessorRuns
  import opened Options
  import opened Sets

  class Table<V> {
    var entries: map<string, V>

    constructor (entries: map<string, V>)
      ensures this.entries == entries
    {
      this.entries := entries;
    }
  }

  class Message {
    var name: string
    const time: int
    const tags: Table<string>
    const meta: Table<string>
    const fields: Table<Value>

    constructor (name: string, time: int, tags: Table<string>, meta: Table<string>, fields: Table<Value>)
      ensures this.name == name && this.time == time && this.tags == tags && this.meta == meta && this.fields == fields
    {
      this.name, this.time, this.tags, this.meta, this.fields := name, time, tags, meta, fields;
    }

    ghost predicate Valid() { tags != meta }

    function Show(): View
      reads this, tags, meta, fields
    {
      View(name, tags.entries, meta.entries, fields.entries)
    }

    method Put(at: Location, key: string, text: string)
      requires Valid()
      modifies tags, meta, fields
      ensures Show() == MessageView.Put(old(Show()), at, key, text)
    {
      match at
      case Tags => tags.entries := tags.entries[key := text];
      case Meta => meta.entries := meta.entries[key := text];
      case Fields => fields.entries := fields.entries[key := Text(text)];
    }

    method Remove(at: Location, key: string)
      requires Valid()
      modifies tags, meta, fields
      ensures Show() == MessageView.Remove(old(Show()), at, key)
    {
      match at
      case Tags => tags.entries := tags.entries - {key};
      case Meta => meta.entries := meta.entries - {key};
      case Fields => fields.entries := fields.entries - {key};
    }
  }

  /** The maps of the copy are new, so that edits do not reach the original. */
  method FromMessage(other: Message) returns (m: Message)
    ensures m.Valid() && fresh(m) && fresh(m.tags) && fresh(m.meta) && fresh(m.fields)
    ensures m.Show() == other.Show() && m.time == other.time
  {
    var tags := new Table(other.tags.entries);
    var meta := new Table(other.meta.entries);
    var fields := new Table(other.fields.entries);
    m := new Message(other.name, other.time, tags, meta, fields);
  }

  class Env {
    var name: string
    const tag: Table<string>
    const tags: Table<string>
    const field: Table<Value>
    const fields: Table<Value>
    const meta: Table<string>
    const extras: Extras

    constructor (name: string, tags: Table<string>, meta: Table<string>, fields: Table<Value>, extras: Extras)
      ensures this.name == name && this.tags == tags && this.tag == tags && this.meta == meta
      ensures this.fields == fields && this.field == fields && this.extras == extras
    {
      this.name, this.tags, this.tag, this.meta, this.fields, this.field := name, tags, tags, meta, fields, fields;
      this.extras := extras;
    }

    ghost predicate Valid() { tag == tags && field == fields && tags != meta }

    function Show(): View
      reads this, tags, meta, fields
    {
      View(name, tags.entries, meta.entries, fields.entries)
    }

    method Put(at: Location, key: string, text: string)
      requires Valid()
      modifies tags, meta, fields
      ensures Show() == MessageView.Put(old(Show()), at, key, text)
    {
      match at
      case Tags =>
        tag.entries := tag.entries[key := text];
        tags.entries := tags.entries[key := text];
      case Meta => meta.entries := meta.entries[key := text];
      case Fields =>
        field.entries := field.entries[key := Text(text)];
        fields.entries := fields.entries[key := Text(text)];
    }

    method Remove(at: Location, key: string)
      requires Valid()
      modifies tags, meta, fields
      ensures Show() == MessageView.Remove(old(Show()), at, key)
    {
      match at
      case Tags =>
        tag.entries := tag.entries - {key};
        tags.entries := tags.entries - {key};
      case Meta => meta.entries := meta.entries - {key};
      case Fields =>
        field.entries := field.entries - {key};
        fields.entries := fields.entries - {key};
    }
  }

  // ----- the first environment -----

  /** Copies entries under sanitized keys, in any order. */
  method SanitizedTable(m: map<string, string>) returns (t: Table<string>, ghost order: seq<string>)
    ensures fresh(t) && Walk(order, m.Keys, true) && t.entries == Sanitized(m, order)
  {
    var entries: map<string, string> := map[];
    order := [];
    var todo := m.Keys;
    while todo != {}
      invariant todo <= m.Keys && Walk(order, m.Keys - todo, true)
      invariant (forall k :: k in order ==> k in m) && entries == Sanitized(m, order)
      decreases |todo|
    {
      var key := Pick(todo);
      assert (order + [key])[..|order|] == order;
      entries := entries[Sanitize(key) := m[key]];
      order := order + [key];
      todo := todo - {key};
    }
    t := new Table(entries);
  }

  /** part has the entries of whole under keys, and no others. */
  ghost predicate Copied(part: map<string, Value>, whole: map<string, Value>, keys: set<string>) {
    && (forall k :: k in part <==> k in whole && k in keys)
    && forall k :: k in part ==> part[k] == whole[k]
  }

  lemma CopiedPush(part: map<string, Value>, whole: map<string, Value>, todo: set<string>, among: set<string>, k: string)
    requires k in todo && todo <= whole.Keys && Copied(part, whole, (whole.Keys - todo) * among)
    ensures Copied(if k in among then part[k := whole[k]] else part, whole, (whole.Keys - (todo - {k})) * among)
  {
  }

  lemma CopiedAll(part: map<string, Value>, whole: map<string, Value>, todo: set<string>, among: set<string>)
    requires todo == {} && Copied(part, whole, (whole.Keys - todo) * among)
    ensures Copied(part, whole, among)
  {
  }

  /** Walks the fields: each is copied, the special ones get a variable, and the last one decides the type. */
  method FieldParams(fields: map<string, Value>)
    returns (copied: map<string, Value>, t: Option<string>, shortcuts: map<string, Value>, ghost order: seq<string>)
    ensures Copied(copied, fields, fields.Keys) && Copied(shortcuts, fields, PROTECTED)
    ensures Walk(order, fields.Keys, true) && t == TypeAfter(order)
  {
    hide TypeOf, Copied, Walk;
    copied, t, shortcuts, order := map[], None, map[], [];
    WalkStart(fields.Keys);
    var todo := fields.Keys;
    NothingCopied(fields, fields.Keys);
    NothingCopied(fields, PROTECTED);
    while todo != {}
      invariant todo <= fields.Keys
      invariant Copied(copied, fields, (fields.Keys - todo) * fields.Keys)
      invariant Copied(shortcuts, fields, (fields.Keys - todo) * PROTECTED)
      invariant Walk(order, fields.Keys - todo, true) && t == TypeAfter(order)
      decreases |todo|
    {
      var key := Pick(todo);
      CopiedPush(copied, fields, todo, fields.Keys, key);
      CopiedPush(shortcuts, fields, todo, PROTECTED, key);
      copied := copied[key := fields[key]];
      t := Some(TypeOf(key));
      WalkPush(order, fields.Keys, todo, key);
      order := order + [key];
      if key in PROTECTED {
        shortcuts := shortcuts[key := fields[key]];
      }
      todo := todo - {key};
    }
    WalkEnd(order, fields.Keys, todo);
    CopiedAll(copied, fields, todo, fields.Keys);
    CopiedAll(shortcuts, fields, todo, PROTECTED);
  }

  lemma NothingCopied(whole: map<string, Value>, among: set<string>)
    ensures Copied(map[], whole, (whole.Keys - whole.Keys) * among)
  {
  }

  method GetParamMap(point: Message) returns (env: Env)
    requires point.Valid()
    ensures env.Valid() && fresh(env) && fresh(env.tags) && fresh(env.meta) && fresh(env.fields)
    ensures Initial(point.Show(), Now(point, env)) && env.extras.time == point.time
  {
    ghost var tagOrder, metaOrder;
    var tags, meta;
    tags, tagOrder := SanitizedTable(point.tags.entries);
    meta, metaOrder := SanitizedTable(point.meta.entries);
    var copied, t, shortcuts, fieldOrder := FieldParams(point.fields.entries);
    var fields := new Table(copied);
    env := new Env(point.name, tags, meta, fields, Extras(point.time, t, shortcuts));
  }

  // ----- rules -----

  /** The two copies share no map. */
  ghost predicate Separate(out: Message, env: Env) {
    && out.Valid() && env.Valid()
    && {out.tags, out.meta} !! {env.tags, env.meta} && out.fields != env.fields
  }

  /** What conditions see. */
  function Now(out: Message, env: Env): Situation
    reads out, out.tags, out.meta, out.fields, env, env.tags, env.meta, env.fields
  {
    Situation(out.Show(), env.Show(), env.extras)
  }

  lemma RulesPush(op: Op, rules: map<nat, Rule>, order: seq<nat>, d: nat, s: Situation)
    requires d in rules && forall r :: r in order ==> r in rules
    requires RunRules(op, rules, order, s).Next?
    ensures RunRules(op, rules, order + [d], s) == RunRule(op, rules[d], RunRules(op, rules, order, s).s)
  {
    assert (order + [d])[..|order|] == order;
  }

  /** How a method on the two objects ends, compared with the value that the rules compute. */
  ghost predicate Ends(step: Step, failed: bool, s: Situation) {
    step == if failed then Fault(s) else Next(s)
  }

  /** Moves one entry in both copies, if the message has it. */
  method MoveEntry(message: Message, params: Env, key: string, value: string, from: Location, to: Location)
    requires Separate(message, params)
    modifies message.tags, message.meta, message.fields, params.tags, params.meta, params.fields
    ensures var s := old(Now(message, params));
            Now(message, params) ==
            match Lookup(s.msg, from, key)
            case None => s
            case Some(v) => s.(msg := MessageView.Put(MessageView.Remove(s.msg, from, key), to, value, v),
                               env := MessageView.Put(MessageView.Remove(s.env, from, key), to, value, v))
  {
    hide MessageView.Put, MessageView.Remove;
    var v := Lookup(message.Show(), from, key);
    if v.Some? {
      message.Remove(from, key);
      params.Remove(from, key);
      message.Put(to, value, v.value);
      params.Put(to, value, v.value);
    }
  }

  method MoveInMessage(message: Message, params: Env, checks: map<nat, Rule>, from: Location, to: Location)
    returns (failed: bool, ghost order: seq<nat>)
    requires Separate(message, params)
    modifies message.tags, message.meta, message.fields, params.tags, params.meta, params.fields
    ensures Walk(order, checks.Keys, !failed)
    ensures Ends(RunRules(Move(from, to), checks, order, old(Now(message, params))), failed, Now(message, params))
  {
    hide RunRules, Walk, MessageView.Put, MessageView.Remove, Lookup;
    ghost var start := Now(message, params);
    order := [];
    NoRules(Move(from, to), checks, start);
    var todo := checks.Keys;
    while todo != {}
      invariant todo <= checks.Keys && Walk(order, checks.Keys - todo, true) && forall r :: r in order ==> r in checks
      invariant Ends(RunRules(Move(from, to), checks, order, start), false, Now(message, params))
      decreases |todo|
    {
      var d := Pick(todo);
      var data := checks[d];
      WalkPush(order, checks.Keys, todo, d);
      RulesPush(Move(from, to), checks, order, d, start);
      order := order + [d];
      var verdict := data.condition(Now(message, params));
      if verdict == Faulty {
        return true, order;
      }
      if verdict == Yes {
        MoveEntry(message, params, data.key, data.value, from, to);
      }
      todo := todo - {d};
    }
    WalkEnd(order, checks.Keys, todo);
    failed := false;
  }

  lemma NoRules(op: Op, rules: map<nat, Rule>, s: Situation)
    ensures RunRules(op, rules, [], s) == Next(s)
    ensures Walk([], rules.Keys - rules.Keys, true)
  {
  }

  lemma WalkEnd<T>(order: seq<T>, keys: set<T>, todo: set<T>)
    requires todo == {} && Walk(order, keys - todo, true)
    ensures Walk(order, keys, true)
  {
  }

  /** One more step of a walk. */
  lemma WalkPush<T>(order: seq<T>, keys: set<T>, todo: set<T>, x: T)
    requires todo <= keys && x in todo && Walk(order, keys - todo, true)
    ensures Walk(order + [x], keys - (todo - {x}), true) && Walk(order + [x], keys, false)
    ensures forall y :: y in order ==> y in keys
  {
  }

  method DeleteIf(message: Message, params: Env, checks: map<nat, Rule>, location: Location)
    returns (failed: bool, ghost order: seq<nat>)
    requires Separate(message, params)
    modifies message.tags, message.meta, message.fields, params.tags, params.meta, params.fields
    ensures Walk(order, checks.Keys, !failed)
    ensures Ends(RunRules(Delete(location), checks, order, old(Now(message, params))), failed, Now(message, params))
  {
    hide RunRules, Walk, MessageView.Put, MessageView.Remove, Lookup;
    ghost var start := Now(message, params);
    order := [];
    NoRules(Delete(location), checks, start);
    var todo := checks.Keys;
    while todo != {}
      invariant todo <= checks.Keys && Walk(order, checks.Keys - todo, true) && forall r :: r in order ==> r in checks
      invariant Ends(RunRules(Delete(location), checks, order, start), false, Now(message, params))
      decreases |todo|
    {
      var d := Pick(todo);
      var data := checks[d];
      WalkPush(order, checks.Keys, todo, d);
      RulesPush(Delete(location), checks, order, d, start);
      order := order + [d];
      var verdict := data.condition(Now(message, params));
      if verdict == Faulty {
        return true, order;
      }
      if verdict == Yes {
        if location == Fields && data.key in PROTECTED {
          return true, order;
        }
        message.Remove(location, data.key);
        params.Remove(location, data.key);
      }
      todo := todo - {d};
    }
    WalkEnd(order, checks.Keys, todo);
    failed := false;
  }

  method AddIf(message: Message, params: Env, checks: map<nat, Rule>, location: Location)
    returns (failed: bool, ghost order: seq<nat>)
    requires Separate(message, params)
    modifies message.tags, message.meta, message.fields, params.tags, params.meta, params.fields
    ensures Walk(order, checks.Keys, !failed)
    ensures Ends(RunRules(Add(location), checks, order, old(Now(message, params))), failed, Now(message, params))
  {
    hide RunRules, Walk, MessageView.Put, MessageView.Remove, Lookup;
    ghost var start := Now(message, params);
    order := [];
    NoRules(Add(location), checks, start);
    var todo := checks.Keys;
    while todo != {}
      invariant todo <= checks.Keys && Walk(order, checks.Keys - todo, true) && forall r :: r in order ==> r in checks
      invariant Ends(RunRules(Add(location), checks, order, start), false, Now(message, params))
      decreases |todo|
    {
      var d := Pick(todo);
      var data := checks[d];
      WalkPush(order, checks.Keys, todo, d);
      RulesPush(Add(location), checks, order, d, start);
      order := order + [d];
      var verdict := data.condition(Now(message, params));
      if verdict == Faulty {
        return true, order;
      }
      if verdict == Yes {
        message.Put(location, data.key, data.value);
        params.Put(location, data.key, data.value);
      }
      todo := todo - {d};
    }
    WalkEnd(order, checks.Keys, todo);
    failed := false;
  }

  /** Sets a new name in both copies and keeps the old one in the meta data. */
  method Rename(message: Message, params: Env, was: string, name: string)
    requires Separate(message, params)
    modifies message, message.meta, params, params.meta
    ensures Now(message, params) ==
      var s := old(Now(message, params));
      s.(msg := Put(SetName(s.msg, name), Meta, "oldname", was), env := Put(SetName(s.env, name), Meta, "oldname", was))
  {
    message.name := name;
    params.name := name;
    message.meta.entries := message.meta.entries["oldname" := was];
    params.meta.entries := params.meta.entries["oldname" := was];
  }

  method RenameMessagesIf(message: Message, params: Env, checks: map<nat, Rule>)
    returns (failed: bool, ghost order: seq<nat>)
    requires Separate(message, params)
    modifies message, message.meta, params, params.meta
    ensures Walk(order, checks.Keys, !failed)
    ensures Ends(RunRules(Op.Rename, checks, order, old(Now(message, params))), failed, Now(message, params))
  {
    hide RunRules, Walk, MessageView.Put, MessageView.Remove, Lookup;
    ghost var start := Now(message, params);
    order := [];
    NoRules(Op.Rename, checks, start);
    var todo := checks.Keys;
    while todo != {}
      invariant todo <= checks.Keys && Walk(order, checks.Keys - todo, true) && forall r :: r in order ==> r in checks
      invariant Ends(RunRules(Op.Rename, checks, order, start), false, Now(message, params))
      decreases |todo|
    {
      var d := Pick(todo);
      var data := checks[d];
      WalkPush(order, checks.Keys, todo, d);
      RulesPush(Op.Rename, checks, order, d, start);
      order := order + [d];
      var verdict := data.condition(Now(message, params));
      if verdict == Faulty {
        return true, order;
      }
      if verdict == Yes {
        Rename(message, params, message.name, data.value);
      }
      todo := todo - {d};
    }
    WalkEnd(order, checks.Keys, todo);
    failed := false;
  }

  // ----- stages -----

  datatype Signal = Go | Drop | Fail | Panic

  /** What a stage says about the message, compared with the value that the run computes. */
  ghost predicate Says(r: Result, signal: Signal, s: Situation) {
    match signal
    case Go => r == Done(s)
    case Drop => r == Dropped
    case Fail => r == Failed(s)
    case Panic => r == Panicked
  }

  lemma DropsPush(conditions: map<nat, Condition>, order: seq<nat>, d: nat, s: Situation)
    requires d in conditions && Inside(order, conditions.Keys) && RunDrops(conditions, order, s) == Done(s)
    ensures Inside(order + [d], conditions.Keys)
    ensures RunDrops(conditions, order + [d], s) ==
      match conditions[d](s) { case Faulty => Failed(s) case Yes => Dropped case No => Done(s) }
  {
    assert (order + [d])[..|order|] == order;
  }

  method DropMessagesIf(message: Message, params: Env, checks: map<nat, Condition>) returns (signal: Signal, ghost order: seq<nat>)
    ensures Inside(order, checks.Keys) && Walk(order, checks.Keys, signal == Go)
    ensures Says(RunDrops(checks, order, Now(message, params)), signal, Now(message, params))
  {
    hide Walk;
    order := [];
    WalkStart(checks.Keys);
    var todo := checks.Keys;
    while todo != {}
      invariant todo <= checks.Keys && Walk(order, checks.Keys - todo, true) && Inside(order, checks.Keys)
      invariant RunDrops(checks, order, Now(message, params)) == Done(Now(message, params))
      decreases |todo|
    {
      var d := Pick(todo);
      WalkPush(order, checks.Keys, todo, d);
      DropsPush(checks, order, d, Now(message, params));
      order := order + [d];
      var verdict := checks[d](Now(message, params));
      if verdict == Faulty {
        return Fail, order;
      }
      if verdict == Yes {
        return Drop, order;
      }
      todo := todo - {d};
    }
    WalkEnd(order, checks.Keys, todo);
    signal := Go;
  }

  lemma WalkStart<T>(keys: set<T>)
    ensures Walk([], keys - keys, true)
  {
  }

  method NormalizeUnits(message: Message, params: Env, units: Units)
    requires Separate(message, params)
    modifies message.tags, message.meta, message.fields, params.tags, params.meta, params.fields
    ensures Now(message, params) == Normalize(units, old(Now(message, params)))
  {
    hide MessageView.Put;
    if "unit" in message.meta.entries {
      var u := units.normalize(message.meta.entries["unit"]);
      if u.Some? {
        message.Put(Meta, "unit", u.value);
        params.Put(Meta, "unit", u.value);
      }
    } else if "unit" in message.tags.entries {
      var u := units.normalize(message.tags.entries["unit"]);
      if u.Some? {
        message.Put(Tags, "unit", u.value);
        params.Put(Meta, "unit", u.value);
      }
    }
  }

  /** Writes a converted value and its unit. */
  method Convert(message: Message, params: Env, c: Converted, at: Location)
    requires Separate(message, params)
    modifies message.tags, message.meta, message.fields, params.tags, params.meta, params.fields
    ensures Now(message, params) ==
      var s := old(Now(message, params));
      s.(msg := MessageView.Put(SetValue(s.msg, c.value), at, "unit", c.after),
         env := MessageView.Put(SetValue(s.env, c.value), Meta, "unit", c.before))
  {
    hide MessageView.Put;
    ghost var s := Now(message, params);
    message.fields.entries := message.fields.entries["value" := c.value];
    params.field.entries := params.field.entries["value" := c.value];
    params.fields.entries := params.fields.entries["value" := c.value];
    assert params.fields.entries == s.env.fields["value" := c.value];
    assert message.Show() == SetValue(s.msg, c.value) && params.Show() == SetValue(s.env, c.value);
    message.Put(at, "unit", c.after);
    params.Put(Meta, "unit", c.before);
  }

  method ChangeOne(message: Message, params: Env, units: Units, prefix: string)
    requires Separate(message, params)
    modifies message.tags, message.meta, message.fields, params.tags, params.meta, params.fields
    ensures Now(message, params) == ChangePrefix(units, prefix, old(Now(message, params)))
  {
    hide MessageView.Put, SetValue;
    if "value" in message.fields.entries {
      var value := message.fields.entries["value"];
      if "unit" in message.meta.entries {
        var c := units.convert(message.meta.entries["unit"], prefix, value);
        if c.Some? {
          Convert(message, params, c.value, Meta);
        }
      } else if "unit" in message.tags.entries {
        var c := units.convert(message.tags.entries["unit"], prefix, value);
        if c.Some? {
          Convert(message, params, c.value, Tags);
        }
      }
    }
  }

  lemma PrefixesPush(units: Units, rules: map<nat, Rule>, order: seq<nat>, d: nat, s: Situation, t: Situation)
    requires d in rules && Inside(order, rules.Keys) && RunPrefixes(units, rules, order, s) == Done(t)
    ensures Inside(order + [d], rules.Keys)
    ensures RunPrefixes(units, rules, order + [d], s) ==
      match rules[d].condition(t) { case Faulty => Failed(t) case No => Done(t) case Yes => Done(ChangePrefix(units, rules[d].value, t)) }
  {
    assert (order + [d])[..|order|] == order;
  }

  method ChangeUnitPrefixes(message: Message, params: Env, units: Units, checks: map<nat, Rule>) returns (signal: Signal, ghost order: seq<nat>)
    requires Separate(message, params)
    modifies message.tags, message.meta, message.fields, params.tags, params.meta, params.fields
    ensures Inside(order, checks.Keys) && Walk(order, checks.Keys, signal == Go) && (signal == Go || signal == Fail)
    ensures Says(RunPrefixes(units, checks, order, old(Now(message, params))), signal, Now(message, params))
  {
    hide Walk, ChangePrefix;
    ghost var start := Now(message, params);
    order := [];
    WalkStart(checks.Keys);
    var todo := checks.Keys;
    while todo != {}
      invariant todo <= checks.Keys && Walk(order, checks.Keys - todo, true) && Inside(order, checks.Keys)
      invariant RunPrefixes(units, checks, order, start) == Done(Now(message, params))
      decreases |todo|
    {
      var d := Pick(todo);
      WalkPush(order, checks.Keys, todo, d);
      PrefixesPush(units, checks, order, d, start, Now(message, params));
      order := order + [d];
      var verdict := checks[d].condition(Now(message, params));
      if verdict == Faulty {
        return Fail, order;
      }
      if verdict == Yes {
        ChangeOne(message, params, units, checks[d].value);
      }
      todo := todo - {d};
    }
    WalkEnd(order, checks.Keys, todo);
    signal := Go;
  }

  /** The stages that edit by rules. */
  method ApplyRules(message: Message, params: Env, op: Op, checks: map<nat, Rule>) returns (failed: bool, ghost order: seq<nat>)
    requires Separate(message, params)
    modifies message, message.tags, message.meta, message.fields, params, params.tags, params.meta, params.fields
    ensures Walk(order, checks.Keys, !failed)
    ensures Ends(RunRules(op, checks, order, old(Now(message, params))), failed, Now(message, params))
  {
    hide RunRules, Walk;
    match op
    case Add(at) => failed, order := AddIf(message, params, checks, at);
    case Delete(at) => failed, order := DeleteIf(message, params, checks, at);
    case Move(from, to) => failed, order := MoveInMessage(message, params, checks, from, to);
    case Rename => failed, order := RenameMessagesIf(message, params, checks);
  }

  lemma WalkInside(order: seq<nat>, keys: set<nat>, complete: bool)
    requires Walk(order, keys, complete)
    ensures Inside(order, keys)
  {
  }

  lemma NothingToWalk<T>()
    ensures Walk<T>([], {}, true) && Walk<T>([], {}, false)
  {
  }

  method ProcessStage(c: Config, stage: Stage, out: Message, params: Env) returns (signal: Signal, ghost order: seq<nat>)
    requires Separate(out, params)
    modifies out, out.tags, out.meta, out.fields, params, params.tags, params.meta, params.fields
    ensures Walk(order, KeysOf(c, stage), signal == Go) && Inside(order, KeysOf(c, stage))
    ensures Says(RunStage(c, stage, order, old(Now(out, params))), signal, Now(out, params))
  {
    hide RunRules, RunDrops, RunPrefixes, Normalize, Walk, MessageView.Put;
    signal, order := Go, [];
    NothingToWalk<nat>();
    match stage
    case DropByName =>
      if params.name in c.dropMessages {
        signal := Drop;
      }
    case DropByType =>
      if c.dropTypes != {} {
        if params.extras.messagetype.None? {
          signal := Panic;
        } else if params.extras.messagetype.value in c.dropTypes {
          signal := Drop;
        }
      }
    case DropIf =>
      signal, order := DropMessagesIf(out, params, c.dropIf);
    case RenameByName =>
      if params.name in c.renames {
        Rename(out, params, params.name, c.renames[params.name]);
      }
    case Apply(op) =>
      var failed: bool;
      failed, order := ApplyRules(out, params, op, RulesFor(c, op));
      WalkInside(order, RulesFor(c, op).Keys, !failed);
      if failed {
        signal := Fail;
      }
    case NormalizeUnit =>
      if c.normalizeUnits && IsMetric(out.Show()) {
        NormalizeUnits(out, params, c.units);
      }
    case ChangeUnitPrefix =>
      if IsMetric(out.Show()) {
        signal, order := ChangeUnitPrefixes(out, params, c.units, c.prefixes);
      } else {
        order := SomeWalk(c.prefixes.Keys);
        WalkInside(order, c.prefixes.Keys, true);
      }
  }

  const DEFAULT_STAGES: seq<Stage> := [
    DropByName, DropByType, DropIf,
    Apply(Add(Tags)), Apply(Delete(Tags)), Apply(Move(Tags, Meta)), Apply(Move(Tags, Fields)),
    Apply(Add(Meta)), Apply(Delete(Meta)), Apply(Move(Meta, Tags)), Apply(Move(Meta, Fields)),
    Apply(Add(Fields)), Apply(Delete(Fields)), Apply(Move(Fields, Tags)), Apply(Move(Fields, Meta)),
    RenameByName, Apply(Op.Rename), ChangeUnitPrefix, NormalizeUnit]

  class MessageProcessor {
    const config: Config
    var stages: seq<Stage>

    constructor (config: Config)
      ensures this.config == config && stages == []
    {
      this.config, stages := config, [];
    }

    /**
     Processes a copy. The caller's message is not in the frame, so neither it nor any of its
     maps changes; what comes out, and the environment beside it, is what the run computes.
     */
    method ProcessMessage(m: Message)
      returns (out: Message, signal: Signal, ghost start: Situation, ghost orders: seq<seq<nat>>, ghost env: View)
      modifies this
      ensures stages == if old(stages) == [] then DEFAULT_STAGES else old(stages)
      ensures fresh(out) && fresh(out.tags) && fresh(out.meta) && fresh(out.fields)
      ensures unchanged(m) && unchanged(m.tags) && unchanged(m.meta) && unchanged(m.fields)
      ensures Initial(m.Show(), start) && start.extras.time == m.time
      ensures Ran(config, stages, orders, start, signal, Situation(out.Show(), env, start.extras))
    {
      hide Ran, Initial;
      out := FromMessage(m);
      if |stages| == 0 {
        stages := DEFAULT_STAGES;
      }
      var params := GetParamMap(out);
      start := Now(out, params);
      signal, orders := ProcessStages(config, stages, out, params);
      env := params.Show();
    }
  }

  /** How a run ends: after all stages, or at the stage that drops the message, fails or panics. */
  ghost predicate Ran(c: Config, stages: seq<Stage>, orders: seq<seq<nat>>, start: Situation, signal: Signal, now: Situation) {
    && |orders| <= |stages| && AllInside(c, stages[..|orders|], orders)
    && (signal == Go ==> |orders| == |stages|)
    && (forall i :: 0 <= i < |orders| ==> Walk(orders[i], KeysOf(c, stages[i]), signal == Go || i < |orders| - 1))
    && Says(RunStages(c, stages[..|orders|], orders, start), signal, now)
  }

  /** The stage loop. Go is a processed message, Drop none, Fail an error and Panic a stop. */
  method ProcessStages(c: Config, stages: seq<Stage>, out: Message, params: Env) returns (signal: Signal, ghost orders: seq<seq<nat>>)
    requires Separate(out, params)
    modifies out, out.tags, out.meta, out.fields, params, params.tags, params.meta, params.fields
    ensures Ran(c, stages, orders, old(Now(out, params)), signal, Now(out, params))
  {
    hide RunStage, Inside, Now, Walk, KeysOf;
    ghost var start := Now(out, params);
    orders := [];
    for i := 0 to |stages|
      invariant |orders| == i && AllInside(c, stages[..i], orders)
      invariant forall j :: 0 <= j < i ==> Walk(orders[j], KeysOf(c, stages[j]), true)
      invariant RunStages(c, stages[..i], orders, start) == Done(Now(out, params))
    {
      ghost var order;
      signal, order := ProcessStage(c, stages[i], out, params);
      StagesPush(c, stages, orders, i, order, start);
      orders := orders + [order];
      if signal != Go {
        return;
      }
    }
    signal := Go;
  }

  lemma StagesPush(c: Config, stages: seq<Stage>, orders: seq<seq<nat>>, i: nat, order: seq<nat>, s: Situation)
    requires i < |stages| && AllInside(c, stages[..i], orders) && Inside(order, KeysOf(c, stages[i]))
    requires RunStages(c, stages[..i], orders, s).Done?
    ensures AllInside(c, stages[..i + 1], orders + [order])
    ensures RunStages(c, stages[..i + 1], orders + [order], s) == RunStage(c, stages[i], order, RunStages(c, stages[..i], orders, s).s)
  {
    hide RunStage, Inside;
    var t, o := stages[..i + 1], orders + [order];
    assert t[..i] == stages[..i] && o[..i] == orders;
    forall j | 0 <= j < |t| ensures Inside(o[j], KeysOf(c, t[j])) {
      if j < i {
        assert o[j] == orders[j] && t[j] == stages[..i][j];
      }
    }
  }

  /**
   From end to end: without unit stages, and if no tag or meta key mentions type-id, the
   environment shows the message whenever ProcessMessage returns one, and showed it after every stage.
   */
  lemma ProcessedMirror(c: Config, stages: seq<Stage>, orders: seq<seq<nat>>, v: View, start: Situation, signal: Signal, now: Situation)
    requires Initial(v, start) && Ran(c, stages, orders, start, signal, now)
    requires forall i :: 0 <= i < |stages| ==> !UnitStage(stages[i])
    requires forall k :: k in v.tags || k in v.meta ==> !Mentions(k)
    ensures signal == Go || signal == Fail ==> now.env == now.msg
    ensures forall k :: 0 <= k <= |orders| ==>
      AllInside(c, stages[..k], orders[..k]) && ResultMirror(RunStages(c, stages[..k], orders[..k], start))
  {
    hide RunStages, Initial;
    InitialMirror(v, start);
    var done := stages[..|orders|];
    forall k | 0 <= k <= |orders|
      ensures AllInside(c, stages[..k], orders[..k]) && ResultMirror(RunStages(c, stages[..k], orders[..k], start))
    {
      RunKeepsMirror(c, done, orders, start, k);
      assert done[..k] == stages[..k];
    }
    assert stages[..|orders|] == done && orders[..|orders|] == orders;
  }
}
