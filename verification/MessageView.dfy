/**
 Messages and the edits that processing rules make, as values.

 A processing run keeps two copies of a message side by side: the working copy itself and
 the environment in which conditions are evaluated. A situation holds both.
 */
module MessageView {
  import opened Options
  import opened Sets

  /** A field is a string or other data, for which only its printed form matters here. */
  datatype Value = Text(text: string) | Data(id: nat, printed: string)

  datatype View = View(name: string, tags: map<string, string>, meta: map<string, string>, fields: map<string, Value>)

  /** What a run fixes at its start: the time, the message type and the fields that have a variable of their own. */
  datatype Extras = Extras(time: int, messagetype: Option<string>, shortcuts: map<string, Value>)

  datatype Situation = Situation(msg: View, env: View, extras: Extras)

  datatype Verdict = Yes | No | Faulty

  type Condition = Situation -> Verdict

  datatype Location = Tags | Meta | Fields

  datatype Op = Add(at: Location) | Delete(at: Location) | Move(from: Location, to: Location) | Rename

  /** A condition with the key and the value (or the new name) that its rule mentions. */
  datatype Rule = Rule(condition: Condition, key: string, value: string)

  datatype Step = Next(s: Situation) | Fault(s: Situation)

  const PROTECTED: set<string> := {"value", "event", "log", "control"}

  function Print(v: Value): string {
    match v
    case Text(t) => t
    case Data(_, p) => p
  }

  function Lookup(v: View, at: Location, key: string): Option<string> {
    match at
    case Tags => if key in v.tags then Some(v.tags[key]) else None
    case Meta => if key in v.meta then Some(v.meta[key]) else None
    case Fields => if key in v.fields then Some(Print(v.fields[key])) else None
  }

  function Put(v: View, at: Location, key: string, text: string): View {
    match at
    case Tags => v.(tags := v.tags[key := text])
    case Meta => v.(meta := v.meta[key := text])
    case Fields => v.(fields := v.fields[key := Text(text)])
  }

  function Remove(v: View, at: Location, key: string): View {
    match at
    case Tags => v.(tags := v.tags - {key})
    case Meta => v.(meta := v.meta - {key})
    case Fields => v.(fields := v.fields - {key})
  }

  function SetName(v: View, name: string): View { v.(name := name) }

  // ----- one rule -----

  /** What a rule does to one of the copies; the text that is moved, or the old name, comes from the message. */
  function Edit(op: Op, rule: Rule, v: View, taken: string): View {
    match op
    case Add(at) => Put(v, at, rule.key, rule.value)
    case Delete(at) => Remove(v, at, rule.key)
    case Move(from, to) => Put(Remove(v, from, rule.key), to, rule.value, taken)
    case Rename => Put(SetName(v, rule.value), Meta, "oldname", taken)
  }

  /** What a rule takes from the message; nothing if it moves a key that is not there. */
  function Taken(op: Op, rule: Rule, msg: View): Option<string> {
    match op
    case Move(from, _) => Lookup(msg, from, rule.key)
    case Rename => Some(msg.name)
    case _ => Some("")
  }

  function RunRule(op: Op, rule: Rule, s: Situation): Step {
    match rule.condition(s)
    case Faulty => Fault(s)
    case No => Next(s)
    case Yes =>
      if op == Delete(Fields) && rule.key in PROTECTED then Fault(s)
      else
        match Taken(op, rule, s.msg)
        case None => Next(s)
        case Some(taken) => Next(s.(msg := Edit(op, rule, s.msg, taken), env := Edit(op, rule, s.env, taken)))
  }

  /** All rules of an operation in the order in which their map is walked. */
  function RunRules(op: Op, rules: map<nat, Rule>, order: seq<nat>, s: Situation): Step
    requires forall r :: r in order ==> r in rules
  {
    if order == [] then Next(s)
    else
      match RunRules(op, rules, order[..|order| - 1], s)
      case Fault(t) => Fault(t)
      case Next(t) => RunRule(op, rules[order[|order| - 1]], t)
  }

  /** order walks different elements of keys, and all of them if it is complete. */
  ghost predicate Walk<T>(order: seq<T>, keys: set<T>, complete: bool) {
    && (forall i, j :: 0 <= i < j < |order| ==> order[i] != order[j])
    && (forall x :: x in order ==> x in keys)
    && (complete ==> forall x :: x in keys ==> x in order)
  }

  /** The environment shows the message as it is. */
  predicate Mirror(s: Situation) { s.env == s.msg }

  lemma {:induction false} RulesKeepMirror(op: Op, rules: map<nat, Rule>, order: seq<nat>, s: Situation)
    requires Mirror(s) && forall r :: r in order ==> r in rules
    ensures Mirror(RunRules(op, rules, order, s).s)
    ensures RunRules(op, rules, order, s).s.extras == s.extras
  {
    if order == [] {
    } else {
      RulesKeepMirror(op, rules, order[..|order| - 1], s);
    }
  }

  // ----- the first environment -----

  const TYPE_ID := "type-id"

  function Sanitize(key: string): string {
    if key == "" then ""
    else if TYPE_ID <= key then "typeid" + Sanitize(key[|TYPE_ID|..])
    else [key[0]] + Sanitize(key[1..])
  }

  predicate Mentions(key: string) {
    key != "" && (TYPE_ID <= key || Mentions(key[1..]))
  }

  /** Only a key that mentions type-id is changed, and it gets shorter. */
  lemma {:induction false} SanitizeLength(key: string)
    ensures !Mentions(key) ==> Sanitize(key) == key
    ensures Mentions(key) ==> |Sanitize(key)| < |key|
    ensures |Sanitize(key)| <= |key|
    decreases |key|
  {
    if key == "" {
    } else {
      if TYPE_ID <= key {
        SanitizeLength(key[|TYPE_ID|..]);
      } else {
        SanitizeLength(key[1..]);
      }
    }
  }

  /** The first occurrence of type-id loses its hyphen, what is before it stays, and the rest follows suit. */
  lemma {:induction false} SanitizeFirst(before: string, after: string)
    requires forall i :: 0 <= i < |before| ==> !(TYPE_ID <= (before + (TYPE_ID + after))[i..])
    ensures Sanitize(before + (TYPE_ID + after)) == before + ("typeid" + Sanitize(after))
  {
    var rest := TYPE_ID + after;
    var key := before + rest;
    if before == "" {
      assert key == rest && rest[|TYPE_ID|..] == after;
      assert "" + ("typeid" + Sanitize(after)) == "typeid" + Sanitize(after);
    } else {
      assert key[0..] == key && key[1..] == before[1..] + rest;
      forall i | 0 <= i < |before| - 1 ensures !(TYPE_ID <= (before[1..] + rest)[i..]) {
        assert (before[1..] + rest)[i..] == key[i + 1..];
      }
      SanitizeFirst(before[1..], after);
      assert !(TYPE_ID <= key[0..]);
    }
  }

  /** Tags or meta data under their sanitized keys, entered in the given order. */
  function Sanitized(m: map<string, string>, order: seq<string>): map<string, string>
    requires forall k :: k in order ==> k in m
  {
    if order == [] then map[]
    else
      var k := order[|order| - 1];
      Sanitized(m, order[..|order| - 1])[Sanitize(k) := m[k]]
  }

  lemma {:induction false} SanitizedKeys(m: map<string, string>, order: seq<string>, x: string)
    requires forall k :: k in order ==> k in m
    ensures x in Sanitized(m, order) <==> exists k :: k in order && Sanitize(k) == x
    ensures (forall k :: k in order ==> !Mentions(k)) && x in order ==> x in Sanitized(m, order) && Sanitized(m, order)[x] == m[x]
  {
    if order == [] {
    } else {
      var t, k := order[..|order| - 1], order[|order| - 1];
      assert order == t + [k] && k in order;
      SanitizedKeys(m, t, x);
      SanitizeLength(k);
      SanitizeLength(x);
    }
  }

  lemma {:induction false} LongestMention(keys: set<string>, k: string) returns (l: string)
    requires k in keys && Mentions(k)
    ensures l in keys && Mentions(l) && forall x :: x in keys && Mentions(x) ==> |x| <= |l|
    decreases |keys|
  {
    if forall x :: x in keys && Mentions(x) ==> |x| <= |k| {
      l := k;
    } else {
      var x :| x in keys && Mentions(x) && |x| > |k|;
      l := LongestMention(keys - {k}, x);
    }
  }

  /** The sanitized entries are the entries themselves exactly when no key mentions type-id. */
  lemma SanitizedSame(m: map<string, string>, order: seq<string>)
    requires Walk(order, m.Keys, true)
    ensures Sanitized(m, order) == m <==> forall k :: k in m ==> !Mentions(k)
  {
    if k :| k in m && Mentions(k) {
      var l := LongestMention(m.Keys, k);
      SanitizedKeys(m, order, l);
      if l in Sanitized(m, order) {
        var x :| x in order && Sanitize(x) == l;
        SanitizeLength(x);
        assert false;
      }
    } else {
      forall x ensures x in Sanitized(m, order) <==> x in m {
        SanitizedKeys(m, order, x);
        SanitizeLength(x);
        if y :| y in order && Sanitize(y) == x {
          SanitizeLength(y);
        }
      }
      forall x | x in m ensures Sanitized(m, order)[x] == m[x] {
        SanitizedKeys(m, order, x);
      }
    }
  }

  function TypeOf(key: string): string {
    if key == "value" then "metric"
    else if key in PROTECTED then key
    else "unknown"
  }

  /** A set can always be walked. */
  lemma {:induction false} SomeWalk<T>(keys: set<T>) returns (order: seq<T>)
    ensures Walk(order, keys, true)
  {
    if keys == {} {
      order := [];
    } else {
      var x :| x in keys;
      order := SomeWalk(keys - {x});
      order := order + [x];
    }
  }

  /** Any element can be the last one walked. */
  lemma LastWalked<T>(keys: set<T>, x: T) returns (order: seq<T>)
    requires x in keys
    ensures Walk(order, keys, true) && order != [] && order[|order| - 1] == x
  {
    order := SomeWalk(keys - {x});
    order := order + [x];
  }

  /** The message type is that of the field walked last, and is missing if there is no field. */
  function TypeAfter(order: seq<string>): Option<string> {
    if order == [] then None else Some(TypeOf(order[|order| - 1]))
  }

  ghost predicate IsType(fields: map<string, Value>, t: Option<string>) {
    exists order :: Walk(order, fields.Keys, true) && t == TypeAfter(order)
  }

  /** Which types map order can give a message: that of every field. */
  lemma TypesPossible(fields: map<string, Value>, t: Option<string>)
    ensures IsType(fields, t) <==> if t.None? then fields == map[] else exists k :: k in fields && t.value == TypeOf(k)
  {
    hide TypeOf;
    if IsType(fields, t) {
      var order :| Walk(order, fields.Keys, true) && t == TypeAfter(order);
      if order == [] {
        assert fields.Keys == {};
      } else {
        assert order[|order| - 1] in order;
      }
    }
    if t.None? && fields == map[] {
      var order := SomeWalk(fields.Keys);
      NothingWalked(order, fields.Keys);
    }
    if k :| k in fields && t == Some(TypeOf(k)) {
      var order := LastWalked(fields.Keys, k);
    }
  }

  lemma NothingWalked<T>(order: seq<T>, keys: set<T>)
    requires Walk(order, keys, true) && keys == {}
    ensures order == []
  {
    HeadIn(order);
  }

  /** Which types are possible, by name: a metric needs a value, the other special types the field of their name, and unknown any other field. */
  lemma TypesByName(fields: map<string, Value>)
    ensures IsType(fields, Some("metric")) <==> "value" in fields
    ensures IsType(fields, Some("event")) <==> "event" in fields
    ensures IsType(fields, Some("log")) <==> "log" in fields
    ensures IsType(fields, Some("control")) <==> "control" in fields
    ensures IsType(fields, Some("unknown")) <==> exists k :: k in fields && k !in {"value", "event", "log", "control"}
    ensures forall t :: t !in {"metric", "event", "log", "control", "unknown"} ==> !IsType(fields, Some(t))
  {
    forall t ensures IsType(fields, Some(t)) <==> exists k :: k in fields && t == TypeOf(k) {
      TypesPossible(fields, Some(t));
    }
    hide IsType;
  }

  /** The type of a message does not depend on map order if and only if all its fields are of one type. */
  lemma TypeDetermined(fields: map<string, Value>)
    ensures (forall t, u :: IsType(fields, t) && IsType(fields, u) ==> t == u)
       <==> (forall j, k :: j in fields && k in fields ==> TypeOf(j) == TypeOf(k))
  {
    hide TypeOf, IsType;
    forall t ensures IsType(fields, t) <==> if t.None? then fields == map[] else exists k :: k in fields && t.value == TypeOf(k) {
      TypesPossible(fields, t);
    }
    forall k | k in fields ensures IsType(fields, Some(TypeOf(k))) {
    }
  }

  /** The situation in which a run on the message v starts. */
  ghost predicate Initial(v: View, s: Situation) {
    && s.msg == v && s.env.name == v.name && s.env.fields == v.fields
    && (exists order :: Walk(order, v.tags.Keys, true) && s.env.tags == Sanitized(v.tags, order))
    && (exists order :: Walk(order, v.meta.Keys, true) && s.env.meta == Sanitized(v.meta, order))
    && IsType(v.fields, s.extras.messagetype)
    && s.extras.shortcuts == map k | k in v.fields && k in PROTECTED :: v.fields[k]
  }

  /** The first environment shows the message exactly when no tag or meta key mentions type-id. */
  lemma InitialMirror(v: View, s: Situation)
    requires Initial(v, s)
    ensures Mirror(s) <==> forall k :: k in v.tags || k in v.meta ==> !Mentions(k)
  {
    var t :| Walk(t, v.tags.Keys, true) && s.env.tags == Sanitized(v.tags, t);
    var m :| Walk(m, v.meta.Keys, true) && s.env.meta == Sanitized(v.meta, m);
    SanitizedSame(v.tags, t);
    SanitizedSame(v.meta, m);
  }

  /** Every possible type is that of some start. */
  lemma InitialOfType(v: View, t: Option<string>) returns (s: Situation)
    requires IsType(v.fields, t)
    ensures Initial(v, s) && s.extras.messagetype == t
  {
    var tags := SomeWalk(v.tags.Keys);
    var meta := SomeWalk(v.meta.Keys);
    var env := View(v.name, Sanitized(v.tags, tags), Sanitized(v.meta, meta), v.fields);
    s := Situation(v, env, Extras(0, t, map k | k in v.fields && k in PROTECTED :: v.fields[k]));
  }
}
