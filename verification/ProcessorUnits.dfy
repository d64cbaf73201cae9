/**
 The unit stages of the message processor with the unit package itself in place of the
 parameter. Only the scaling of a value stays a parameter.
 */
module ProcessorUnits {
  import opened Options
  import opened MessageView
  import opened ProcessorRuns
  import U = Units

  type Scale = (U.Prefix, U.Prefix, Value) -> Value

  function NormalizeUnit(text: string): Option<string> {
    var u := U.NewUnit(text);
    if U.Valid(u) then Some(U.Short(u)) else None
  }

  function ConvertUnit(scale: Scale, text: string, prefix: string, value: Value): Option<Converted> {
    var to, u := U.NewPrefix(prefix), U.NewUnit(text);
    if to == U.InvalidPrefix || !U.Valid(u) then None
    else
      var (conversion, after) := U.GetUnitPrefixFactor(u, to);
      if conversion.Scaling? && U.Valid(after) then
        Some(Converted(U.Short(u), U.Short(after), scale(conversion.from, conversion.to, value)))
      else None
  }

  function Package(scale: Scale): Units {
    Units(text => NormalizeUnit(text), (text, prefix, value) => ConvertUnit(scale, text, prefix, value))
  }

  /** A conversion takes place exactly for a known prefix and a readable unit, and changes its short form exactly if the prefix is another. */
  lemma ConversionOf(scale: Scale, text: string, prefix: string, value: Value)
    ensures var c, to, u := ConvertUnit(scale, text, prefix, value), U.NewPrefix(prefix), U.NewUnit(text);
            && (c.Some? <==> to != U.InvalidPrefix && U.Valid(u))
            && (c.Some? ==> c.value.before == U.Short(u) && c.value.after == U.Short(u.(prefix := to))
                            && c.value.value == scale(u.prefix, to, value))
            && (c.Some? ==> (c.value.before == c.value.after <==> u.prefix == to))
  {
    hide U.NewUnit, U.NewPrefix, U.Short;
    var to, u := U.NewPrefix(prefix), U.NewUnit(text);
    if to != U.InvalidPrefix && U.Valid(u) {
      U.ReadWritable(text);
      U.ConversionKeepsUnit(u, to);
      U.ShortTells(u, to);
    }
  }

  /** The text of the unit, as meta data or else as a tag. */
  function UnitText(v: View): Option<string> {
    if "unit" in v.meta then Some(v.meta["unit"]) else if "unit" in v.tags then Some(v.tags["unit"]) else None
  }

  /** Whether a unit stage would find something to do: a unit that can be read. */
  predicate Readable(v: View) {
    UnitText(v).Some? && U.Valid(U.NewUnit(UnitText(v).value))
  }

  /** Normalizing leaves the environment out of step exactly for a readable unit that is a tag. */
  lemma NormalizingMirror(scale: Scale, s: Situation)
    requires Mirror(s)
    ensures Mirror(Normalize(Package(scale), s)) <==> "unit" in s.msg.meta || !Readable(s.msg)
  {
    hide U.NewUnit;
    NormalizeMirror(Package(scale), s);
  }

  /**
   A conversion leaves it in step exactly if nothing is converted, or if the unit is in the
   meta data and has the wanted prefix already.
   */
  lemma ConversionMirror(scale: Scale, prefix: string, s: Situation)
    requires Mirror(s) && "value" in s.msg.fields
    ensures Mirror(ChangePrefix(Package(scale), prefix, s)) <==>
      || U.NewPrefix(prefix) == U.InvalidPrefix || !Readable(s.msg)
      || ("unit" in s.msg.meta && U.NewUnit(s.msg.meta["unit"]).prefix == U.NewPrefix(prefix))
  {
    hide U.NewUnit, U.NewPrefix, ConvertUnit;
    ChangePrefixMirror(Package(scale), prefix, s);
    if UnitText(s.msg).Some? {
      ConversionOf(scale, UnitText(s.msg).value, prefix, s.msg.fields["value"]);
    }
  }

  /** A message that has been normalized is not changed by normalizing it again. */
  lemma NormalizeTwice(scale: Scale, s: Situation)
    ensures var t := Normalize(Package(scale), s); Normalize(Package(scale), t).msg == t.msg
  {
    hide U.NewUnit, U.Short;
    if UnitText(s.msg).Some? {
      U.ReadPrintRead(UnitText(s.msg).value);
    }
  }
}
