/**
 What one rule, one stage or one unit conversion does to a message, map by map.
 */
module RuleEffects {
  import opened Options
  import opened MessageView
  import opened ProcessorRuns
  import opened ProcessorUnits
  import opened Processor
  import U = Units

  // ----- one rule -----

  /** A rule acts exactly if its condition holds, and fails if that cannot be evaluated. */
  lemma ConditionDecides(op: Op, rule: Rule, s: Situation)
    ensures rule.condition(s) == No ==> RunRule(op, rule, s) == Next(s)
    ensures rule.condition(s) == Faulty ==> RunRule(op, rule, s) == Fault(s)
    ensures RunRule(op, rule, s).s.extras == s.extras
  {
  }

  /** A tag is moved with its text: it leaves the tags, and the meta data or the fields get the text under the new key. */
  lemma MovesTag(rule: Rule, s: Situation)
    requires rule.condition(s) == Yes
    ensures var k, m, a, b := rule.key, rule.value, s.msg, s.env;
            if k !in a.tags then
              RunRule(Move(Tags, Meta), rule, s) == Next(s) && RunRule(Move(Tags, Fields), rule, s) == Next(s)
            else
              var t := a.tags[k];
              && RunRule(Move(Tags, Meta), rule, s) == Next(Situation(
                   View(a.name, a.tags - {k}, a.meta[m := t], a.fields),
                   View(b.name, b.tags - {k}, b.meta[m := t], b.fields), s.extras))
              && RunRule(Move(Tags, Fields), rule, s) == Next(Situation(
                   View(a.name, a.tags - {k}, a.meta, a.fields[m := Text(t)]),
                   View(b.name, b.tags - {k}, b.meta, b.fields[m := Text(t)]), s.extras))
  {
  }

  /** The same for an entry of the meta data. */
  lemma MovesMeta(rule: Rule, s: Situation)
    requires rule.condition(s) == Yes
    ensures var k, m, a, b := rule.key, rule.value, s.msg, s.env;
            if k !in a.meta then
              RunRule(Move(Meta, Tags), rule, s) == Next(s) && RunRule(Move(Meta, Fields), rule, s) == Next(s)
            else
              var t := a.meta[k];
              && RunRule(Move(Meta, Tags), rule, s) == Next(Situation(
                   View(a.name, a.tags[m := t], a.meta - {k}, a.fields),
                   View(b.name, b.tags[m := t], b.meta - {k}, b.fields), s.extras))
              && RunRule(Move(Meta, Fields), rule, s) == Next(Situation(
                   View(a.name, a.tags, a.meta - {k}, a.fields[m := Text(t)]),
                   View(b.name, b.tags, b.meta - {k}, b.fields[m := Text(t)]), s.extras))
  {
  }

  /** The same for a field: a string as it is, and anything else in its printed form. */
  lemma MovesField(rule: Rule, s: Situation)
    requires rule.condition(s) == Yes
    ensures var k, m, a, b := rule.key, rule.value, s.msg, s.env;
            if k !in a.fields then
              RunRule(Move(Fields, Tags), rule, s) == Next(s) && RunRule(Move(Fields, Meta), rule, s) == Next(s)
            else
              var t := if a.fields[k].Text? then a.fields[k].text else a.fields[k].printed;
              && RunRule(Move(Fields, Tags), rule, s) == Next(Situation(
                   View(a.name, a.tags[m := t], a.meta, a.fields - {k}),
                   View(b.name, b.tags[m := t], b.meta, b.fields - {k}), s.extras))
              && RunRule(Move(Fields, Meta), rule, s) == Next(Situation(
                   View(a.name, a.tags, a.meta[m := t], a.fields - {k}),
                   View(b.name, b.tags, b.meta[m := t], b.fields - {k}), s.extras))
  {
  }

  /** An addition sets one entry of one map, in both copies, whether or not the key was there. */
  lemma Adds(rule: Rule, s: Situation)
    requires rule.condition(s) == Yes
    ensures var k, t, a, b := rule.key, rule.value, s.msg, s.env;
            && RunRule(Add(Tags), rule, s) == Next(Situation(
                 View(a.name, a.tags[k := t], a.meta, a.fields), View(b.name, b.tags[k := t], b.meta, b.fields), s.extras))
            && RunRule(Add(Meta), rule, s) == Next(Situation(
                 View(a.name, a.tags, a.meta[k := t], a.fields), View(b.name, b.tags, b.meta[k := t], b.fields), s.extras))
            && RunRule(Add(Fields), rule, s) == Next(Situation(
                 View(a.name, a.tags, a.meta, a.fields[k := Text(t)]), View(b.name, b.tags, b.meta, b.fields[k := Text(t)]), s.extras))
  {
  }

  /** A deletion takes one entry out of one map, in both copies; the value, event, log and control fields are refused. */
  lemma Deletes(rule: Rule, s: Situation)
    requires rule.condition(s) == Yes
    ensures var k, a, b := rule.key, s.msg, s.env;
            && RunRule(Delete(Tags), rule, s) == Next(Situation(
                 View(a.name, a.tags - {k}, a.meta, a.fields), View(b.name, b.tags - {k}, b.meta, b.fields), s.extras))
            && RunRule(Delete(Meta), rule, s) == Next(Situation(
                 View(a.name, a.tags, a.meta - {k}, a.fields), View(b.name, b.tags, b.meta - {k}, b.fields), s.extras))
            && RunRule(Delete(Fields), rule, s) ==
                 if k == "value" || k == "event" || k == "log" || k == "control" then Fault(s)
                 else Next(Situation(
                   View(a.name, a.tags, a.meta, a.fields - {k}), View(b.name, b.tags, b.meta, b.fields - {k}), s.extras))
  {
  }

  /** Renaming sets the name and keeps the old one, that of the message, in the meta data. */
  lemma Renames(rule: Rule, s: Situation)
    requires rule.condition(s) == Yes
    ensures var n, a, b := rule.value, s.msg, s.env;
            RunRule(Rename, rule, s) == Next(Situation(
              View(n, a.tags, a.meta["oldname" := a.name], a.fields), View(n, b.tags, b.meta["oldname" := a.name], b.fields), s.extras))
  {
  }

  /** If one rule is all there is, what the methods on the shared maps leave is what that rule does, and they fail exactly if it does. */
  lemma SingleRule(op: Op, r: nat, rule: Rule, order: seq<nat>, failed: bool, s: Situation, n: Situation)
    requires Walk(order, {r}, !failed)
    requires Ends(RunRules(op, map[r := rule], order, s), failed, n)
    ensures order == [r] && n == RunRule(op, rule, s).s && (failed <==> RunRule(op, rule, s).Fault?)
  {
    hide RunRule;
    WalkLength(order, {r});
    NoRules(op, map[r := rule], s);
    hide RunRules;
    assert order != [] ==> order == [order[0]] && order[0] in order;
    OneRule(op, r, rule, s);
  }

  lemma OneRule(op: Op, r: nat, rule: Rule, s: Situation)
    ensures RunRules(op, map[r := rule], [r], s) == RunRule(op, rule, s)
  {
    hide RunRule;
    assert [r][..0] == [];
  }

  lemma {:induction false} WalkLength(order: seq<nat>, keys: set<nat>)
    requires Walk(order, keys, false)
    ensures |order| <= |keys|
  {
    if order == [] {
    } else {
      var k := |order| - 1;
      assert order[k] in order;
      forall x | x in order[..k] ensures x in keys && x != order[k] {
        assert x in order;
      }
      WalkLength(order[..k], keys - {order[k]});
    }
  }

  // ----- stages without rules of their own -----

  /** What the stages that look up the name or the type do; the name and the type are those of the environment. */
  lemma StageEffects(c: Config, s: Situation)
    ensures RunStage(c, DropByName, [], s) == if s.env.name in c.dropMessages then Dropped else Done(s)
    ensures s.extras.messagetype.Some? ==>
      RunStage(c, DropByType, [], s) == (if s.extras.messagetype.value in c.dropTypes then Dropped else Done(s))
    ensures var a, b, was := s.msg, s.env, s.env.name;
            RunStage(c, RenameByName, [], s) ==
            if was in c.renames then
              var n := c.renames[was];
              Done(Situation(View(n, a.tags, a.meta["oldname" := was], a.fields), View(n, b.tags, b.meta["oldname" := was], b.fields), s.extras))
            else Done(s)
    ensures !("value" in s.msg.fields && s.msg.fields["value"].Data?) ==>
      RunStage(c, NormalizeUnit, [], s) == Done(s) && RunStage(c, ChangeUnitPrefix, [], s) == Done(s)
  {
  }

  /** The k-th condition walked is the first that does not say no, or k is past the end. */
  ghost predicate FirstAt(conditions: map<nat, Condition>, order: seq<nat>, k: nat, s: Situation)
    requires Inside(order, conditions.Keys)
  {
    && k <= |order|
    && (forall j :: 0 <= j < k ==> order[j] in conditions && conditions[order[j]](s) == No)
    && (k < |order| ==> order[k] in conditions && conditions[order[k]](s) != No)
  }

  lemma {:induction false} DropsAt(conditions: map<nat, Condition>, order: seq<nat>, s: Situation) returns (k: nat)
    requires Inside(order, conditions.Keys)
    ensures FirstAt(conditions, order, k, s)
    ensures RunDrops(conditions, order, s) ==
            if k == |order| then Done(s) else if conditions[order[k]](s) == Yes then Dropped else Failed(s)
  {
    if order == [] {
      k := 0;
    } else {
      var last := |order| - 1;
      assert order[last] in order;
      k := DropsAt(conditions, order[..last], s);
      if k == last && conditions[order[last]](s) == No {
        k := |order|;
      }
    }
  }

  /** A message is dropped exactly if the first condition that does not say no says yes; the run fails exactly if it cannot be evaluated. */
  lemma DropsExactly(conditions: map<nat, Condition>, order: seq<nat>, s: Situation)
    requires Inside(order, conditions.Keys)
    ensures RunDrops(conditions, order, s) == Dropped <==>
      exists k: nat :: FirstAt(conditions, order, k, s) && k < |order| && conditions[order[k]](s) == Yes
    ensures RunDrops(conditions, order, s) == Failed(s) <==>
      exists k: nat :: FirstAt(conditions, order, k, s) && k < |order| && conditions[order[k]](s) == Faulty
    ensures RunDrops(conditions, order, s) == Done(s) <==> FirstAt(conditions, order, |order|, s)
  {
    hide RunDrops;
    var k := DropsAt(conditions, order, s);
    forall j: nat | FirstAt(conditions, order, j, s) ensures j == k {
      FirstUnique(conditions, order, j, k, s);
    }
  }

  lemma FirstUnique(conditions: map<nat, Condition>, order: seq<nat>, j: nat, k: nat, s: Situation)
    requires Inside(order, conditions.Keys) && FirstAt(conditions, order, j, s) && FirstAt(conditions, order, k, s)
    ensures j == k
  {
  }

  // ----- units -----

  /** Normalizing writes the short form over a readable unit: over the meta data if it is there, and else over the tag. */
  lemma Normalizes(scale: Scale, s: Situation)
    ensures var a, b := s.msg, s.env;
            Normalize(Package(scale), s) ==
            if "unit" in a.meta && U.Valid(U.NewUnit(a.meta["unit"])) then
              var t := U.Short(U.NewUnit(a.meta["unit"]));
              Situation(View(a.name, a.tags, a.meta["unit" := t], a.fields), View(b.name, b.tags, b.meta["unit" := t], b.fields), s.extras)
            else if "unit" !in a.meta && "unit" in a.tags && U.Valid(U.NewUnit(a.tags["unit"])) then
              var t := U.Short(U.NewUnit(a.tags["unit"]));
              Situation(View(a.name, a.tags["unit" := t], a.meta, a.fields), View(b.name, b.tags, b.meta["unit" := t], b.fields), s.extras)
            else s
  {
    hide U.NewUnit, U.Short;
  }

  /**
   A conversion scales the value and writes the unit with the new prefix where the old one was found;
   the environment gets the value, and the old unit in its meta data. Without a known prefix, a
   readable unit or a value nothing happens.
   */
  lemma Converts(scale: Scale, prefix: string, s: Situation)
    ensures var a, b, to := s.msg, s.env, U.NewPrefix(prefix);
            var n := ChangePrefix(Package(scale), prefix, s);
            if "value" !in a.fields || UnitText(a).None? || to == U.InvalidPrefix || !U.Valid(U.NewUnit(UnitText(a).value)) then n == s
            else
              var u := U.NewUnit(UnitText(a).value);
              var x := scale(u.prefix, to, a.fields["value"]);
              var t := U.Short(u.(prefix := to));
              && n.msg == (if "unit" in a.meta then View(a.name, a.tags, a.meta["unit" := t], a.fields["value" := x])
                           else View(a.name, a.tags["unit" := t], a.meta, a.fields["value" := x]))
              && n.env == View(b.name, b.tags, b.meta["unit" := U.Short(u)], b.fields["value" := x])
              && n.extras == s.extras
  {
    hide U.NewUnit, U.NewPrefix, U.Short, ConvertUnit;
    if "value" in s.msg.fields && UnitText(s.msg).Some? {
      ConversionOf(scale, UnitText(s.msg).value, prefix, s.msg.fields["value"]);
    }
  }
}
