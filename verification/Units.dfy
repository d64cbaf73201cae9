/**
 Units of measurement: prefixes, measures, how a unit is read from a string and how it is
 printed. Both tables are searched in no particular order, which is harmless because their
 patterns never match the same string.
 */
module Units {
  import opened Options

  datatype Prefix =
    | InvalidPrefix | Base
    | Kilo | Mega | Giga | Tera | Peta | Exa | Zetta | Yotta | Milli | Micro | Nano
    | Kibi | Mebi | Gibi | Tebi | Pebi | Exbi | Zebi | Yobi

  datatype Measure =
    | InvalidMeasure | Bytes | Flops | Percentage | TemperatureC | TemperatureF | Rotation
    | Frequency | Time | Watt | Joule | Cycles | Requests | Packets | Events

  datatype Unit = Unit(prefix: Prefix, measure: Measure, divMeasure: Measure)

  /** What a string that cannot be read gives. */
  const UNREADABLE := Unit(InvalidPrefix, InvalidMeasure, InvalidMeasure)

  // ----- prefixes -----

  /** The sets of characters that the pattern of a prefix wants, one for each position. */
  function PrefixPattern(p: Prefix): seq<set<char>> {
    match p
    case InvalidPrefix => [{}]
    case Base => []
    case Kilo => [{'k', 'K'}]
    case Mega => [{'M'}]
    case Giga => [{'g', 'G'}]
    case Tera => [{'t', 'T'}]
    case Peta => [{'p', 'P'}]
    case Exa => [{'e', 'E'}]
    case Zetta => [{'z', 'Z'}]
    case Yotta => [{'y', 'Y'}]
    case Milli => [{'m'}]
    case Micro => [{'u'}]
    case Nano => [{'n'}]
    case Kibi => [{'k', 'K'}, {'i'}]
    case Mebi => [{'M'}, {'i'}]
    case Gibi => [{'g', 'G'}, {'i'}]
    case Tebi => [{'t', 'T'}, {'i'}]
    case Pebi => [{'p', 'P'}, {'i'}]
    case Exbi => [{'e', 'E'}, {'i'}]
    case Zebi => [{'z', 'Z'}, {'i'}]
    case Yobi => [{'y', 'Y'}, {'i'}]
  }

  predicate PrefixMatches(p: Prefix, s: string) {
    |s| == |PrefixPattern(p)| && forall i :: 0 <= i < |s| ==> s[i] in PrefixPattern(p)[i]
  }

  function PrefixShort(p: Prefix): string {
    match p
    case InvalidPrefix => "inval"
    case Base => ""
    case Kilo => "K"
    case Mega => "M"
    case Giga => "G"
    case Tera => "T"
    case Peta => "P"
    case Exa => "E"
    case Zetta => "Z"
    case Yotta => "Y"
    case Milli => "m"
    case Micro => "u"
    case Nano => "n"
    case Kibi => "Ki"
    case Mebi => "Mi"
    case Gibi => "Gi"
    case Tebi => "Ti"
    case Pebi => "Pi"
    case Exbi => "Ei"
    case Zebi => "Zi"
    case Yobi => "Yi"
  }

  /** The prefix whose pattern a string matches. */
  function NewPrefix(s: string): Prefix {
    if s == "" then Base
    else if |s| == 1 then
      var c := s[0];
      if c in {'k', 'K'} then Kilo else if c == 'M' then Mega else if c in {'g', 'G'} then Giga
      else if c in {'t', 'T'} then Tera else if c in {'p', 'P'} then Peta else if c in {'e', 'E'} then Exa
      else if c in {'z', 'Z'} then Zetta else if c in {'y', 'Y'} then Yotta else if c == 'm' then Milli
      else if c == 'u' then Micro else if c == 'n' then Nano else InvalidPrefix
    else if |s| == 2 && s[1] == 'i' then
      var c := s[0];
      if c in {'k', 'K'} then Kibi else if c == 'M' then Mebi else if c in {'g', 'G'} then Gibi
      else if c in {'t', 'T'} then Tebi else if c in {'p', 'P'} then Pebi else if c in {'e', 'E'} then Exbi
      else if c in {'z', 'Z'} then Zebi else if c in {'y', 'Y'} then Yobi else InvalidPrefix
    else InvalidPrefix
  }

  /** At most one prefix matches a string, so it does not matter in which order the table is searched. */
  lemma OnePrefix(p: Prefix, s: string)
    requires p != InvalidPrefix
    ensures PrefixMatches(p, s) <==> NewPrefix(s) == p
  {
  }

  // ----- measures -----

  /** The part of a pattern that is left to match: a character that must or may come next. */
  datatype Pattern = End | One(chars: set<char>, rest: Pattern) | Opt(chars: set<char>, rest: Pattern)

  /** Whether the pattern matches s from position i on; what follows the match is ignored. */
  predicate Matches(p: Pattern, s: string, i: nat) {
    match p
    case End => true
    case One(chars, rest) => i < |s| && s[i] in chars && Matches(rest, s, i + 1)
    case Opt(chars, rest) => Matches(rest, s, i) || (i < |s| && s[i] in chars && Matches(rest, s, i + 1))
  }

  const BYTES := One({'b', 'B'}, Opt({'y', 'Y'}, Opt({'t', 'T'}, Opt({'e', 'E'}, Opt({'s', 'S'}, End)))))
  const FLOPS := One({'f', 'F'}, Opt({'l', 'L'}, Opt({'o', 'O'}, Opt({'p', 'P'}, Opt({'s', 'S'}, End)))))
  const PERCENT_SIGN := One({'%'}, End)
  const PERCENT := One({'p', 'P'}, One({'e'}, One({'r'}, One({'c'}, One({'e'}, One({'n'}, One({'t'}, End)))))))
  const DEG_C := One({'d'}, One({'e'}, One({'g'}, One({'c', 'C'}, End))))
  const SIGN_C := One({'°'}, One({'c', 'C'}, End))
  const DEG_F := One({'d'}, One({'e'}, One({'g'}, One({'f', 'F'}, End))))
  const SIGN_F := One({'°'}, One({'f', 'F'}, End))
  const RPM := One({'r', 'R'}, One({'p', 'P'}, One({'m', 'M'}, End)))
  const HERTZ := One({'h', 'H'}, Opt({'e', 'E'}, Opt({'r', 'R'}, Opt({'t', 'T'}, One({'z', 'Z'}, End)))))
  const SECONDS := One({'s', 'S'}, Opt({'e', 'E'}, Opt({'c', 'C'}, Opt({'o', 'O'}, Opt({'n', 'N'}, Opt({'d', 'D'}, Opt({'s', 'S'}, End)))))))
  const CYCLES := One({'c', 'C'}, One({'y', 'Y'}, Opt({'c', 'C'}, Opt({'l', 'L'}, Opt({'e', 'E'}, Opt({'s', 'S'}, End))))))
  const WATTS := One({'w', 'W'}, Opt({'a', 'A'}, Opt({'t', 'T'}, Opt({'t', 'T'}, Opt({'s', 'S'}, End)))))
  const JOULES := One({'j', 'J'}, Opt({'o', 'O'}, Opt({'u', 'U'}, Opt({'l', 'L'}, Opt({'e', 'E'}, Opt({'s', 'S'}, End))))))
  const REQUESTS :=
    One({'r', 'R'}, One({'e', 'E'}, One({'q', 'Q'}, Opt({'u', 'U'}, Opt({'e', 'E'}, Opt({'s', 'S'}, Opt({'t', 'T'}, Opt({'s', 'S'}, End))))))))
  const PACKETS := One({'p', 'P'}, Opt({'a', 'A'}, Opt({'c', 'C'}, One({'k', 'K'}, Opt({'e', 'E'}, One({'t', 'T'}, Opt({'s', 'S'}, End)))))))
  const EVENTS := One({'e', 'E'}, Opt({'v', 'V'}, Opt({'e', 'E'}, One({'n', 'N'}, One({'t', 'T'}, Opt({'s', 'S'}, End))))))

  predicate MeasureMatches(m: Measure, s: string) {
    match m
    case InvalidMeasure => false
    case Bytes => Matches(BYTES, s, 0)
    case Flops => Matches(FLOPS, s, 0)
    case Percentage => Matches(PERCENT_SIGN, s, 0) || Matches(PERCENT, s, 0)
    case TemperatureC => Matches(DEG_C, s, 0) || Matches(SIGN_C, s, 0)
    case TemperatureF => Matches(DEG_F, s, 0) || Matches(SIGN_F, s, 0)
    case Rotation => Matches(RPM, s, 0)
    case Frequency => Matches(HERTZ, s, 0)
    case Time => Matches(SECONDS, s, 0)
    case Watt => Matches(WATTS, s, 0)
    case Joule => Matches(JOULES, s, 0)
    case Cycles => Matches(CYCLES, s, 0)
    case Requests => Matches(REQUESTS, s, 0)
    case Packets => Matches(PACKETS, s, 0)
    case Events => Matches(EVENTS, s, 0)
  }

  function MeasureShort(m: Measure): string {
    match m
    case InvalidMeasure => "inval"
    case Bytes => "B"
    case Flops => "Flops"
    case Percentage => "%"
    case TemperatureC => "degC"
    case TemperatureF => "degF"
    case Rotation => "RPM"
    case Frequency => "Hz"
    case Time => "s"
    case Watt => "W"
    case Joule => "J"
    case Cycles => "cyc"
    case Requests => "requests"
    case Packets => "packets"
    case Events => "events"
  }

  /** The only measure that a string can be, judging by its first letters. */
  function Candidate(s: string): Measure {
    if s == "" then InvalidMeasure
    else
      var c := s[0];
      if c in {'b', 'B'} then Bytes
      else if c in {'f', 'F'} then Flops
      else if c == '%' then Percentage
      else if c in {'p', 'P'} then (if |s| > 1 && s[1] == 'e' then Percentage else Packets)
      else if c == 'd' then (if |s| > 3 && s[3] in {'f', 'F'} then TemperatureF else TemperatureC)
      else if c == '°' then (if |s| > 1 && s[1] in {'f', 'F'} then TemperatureF else TemperatureC)
      else if c in {'r', 'R'} then (if |s| > 1 && s[1] in {'e', 'E'} then Requests else Rotation)
      else if c in {'h', 'H'} then Frequency
      else if c in {'s', 'S'} then Time
      else if c in {'c', 'C'} then Cycles
      else if c in {'w', 'W'} then Watt
      else if c in {'j', 'J'} then Joule
      else if c in {'e', 'E'} then Events
      else InvalidMeasure
  }

  function NewMeasure(s: string): Measure {
    if MeasureMatches(Candidate(s), s) then Candidate(s) else InvalidMeasure
  }

  /** A pattern that may skip characters and must then find one finds it at most that much later. */
  lemma PacketsSecond(s: string)
    requires Matches(PACKETS, s, 0)
    ensures |s| > 1 && s[1] != 'e'
  {
    var k := One({'k', 'K'}, Opt({'e', 'E'}, One({'t', 'T'}, Opt({'s', 'S'}, End))));
    var c := Opt({'c', 'C'}, k);
    assert Matches(Opt({'a', 'A'}, c), s, 1);
    assert Matches(c, s, 1) || s[1] in {'a', 'A'};
    assert Matches(c, s, 1) ==> Matches(k, s, 1) || s[1] in {'c', 'C'};
  }

  lemma CandidateOnly(m: Measure, s: string)
    requires MeasureMatches(m, s)
    ensures Candidate(s) == m
  {
    match m
    case Packets => PacketsSecond(s);
    case Percentage =>
      assert Matches(PERCENT, s, 0) ==> Matches(PERCENT.rest, s, 1);
    case TemperatureC =>
      assert Matches(DEG_C, s, 0) ==> Matches(DEG_C.rest, s, 1) && Matches(DEG_C.rest.rest, s, 2);
      assert Matches(DEG_C.rest.rest, s, 2) ==> Matches(DEG_C.rest.rest.rest, s, 3);
      assert Matches(SIGN_C, s, 0) ==> Matches(SIGN_C.rest, s, 1);
    case TemperatureF =>
      assert Matches(DEG_F, s, 0) ==> Matches(DEG_F.rest, s, 1) && Matches(DEG_F.rest.rest, s, 2);
      assert Matches(DEG_F.rest.rest, s, 2) ==> Matches(DEG_F.rest.rest.rest, s, 3);
      assert Matches(SIGN_F, s, 0) ==> Matches(SIGN_F.rest, s, 1);
    case Rotation =>
      assert Matches(RPM.rest, s, 1);
    case Requests =>
      assert Matches(REQUESTS.rest, s, 1);
    case _ =>
  }

  /** At most one measure matches a string, so it does not matter in which order the table is searched. */
  lemma OneMeasure(m: Measure, s: string)
    requires m != InvalidMeasure
    ensures MeasureMatches(m, s) <==> NewMeasure(s) == m
  {
    if MeasureMatches(m, s) {
      CandidateOnly(m, s);
    }
  }

  /** The rest of a pattern can be skipped if all of it is optional. */
  predicate Optional(p: Pattern) {
    p.End? || (p.Opt? && Optional(p.rest))
  }

  lemma {:induction false} SkipOptional(p: Pattern, s: string, i: nat)
    requires Optional(p)
    ensures Matches(p, s, i)
  {
    if p.End? {
    } else {
      SkipOptional(p.rest, s, i);
    }
  }

  /** The short form of every measure is read as that measure. */
  lemma ShortMeasure(m: Measure)
    requires m != InvalidMeasure
    ensures NewMeasure(MeasureShort(m)) == m
  {
    var s := MeasureShort(m);
    match m
    case Bytes => SkipOptional(BYTES.rest, s, 1);
    case Flops => SkipOptional(FLOPS.rest, s, 1);
    case Percentage =>
      assert Matches(PERCENT_SIGN.rest, s, 1);
    case TemperatureC =>
      assert Matches(DEG_C.rest.rest.rest, s, 3);
      assert Matches(DEG_C.rest, s, 1);
    case TemperatureF =>
      assert Matches(DEG_F.rest.rest.rest, s, 3);
      assert Matches(DEG_F.rest, s, 1);
    case Rotation =>
      assert Matches(RPM.rest.rest, s, 2);
      assert Matches(RPM.rest, s, 1);
    case Frequency =>
      var z := HERTZ.rest.rest.rest.rest;
      assert Matches(z.rest, s, 2);
      assert Matches(z, s, 1);
      assert Matches(HERTZ.rest.rest, s, 1);
      assert Matches(HERTZ.rest, s, 1);
    case Time => SkipOptional(SECONDS.rest, s, 1);
    case Watt => SkipOptional(WATTS.rest, s, 1);
    case Joule => SkipOptional(JOULES.rest, s, 1);
    case Cycles =>
      SkipOptional(CYCLES.rest.rest, s, 2);
      assert Matches(CYCLES.rest, s, 1);
    case Requests => ShortWord(m);
    case Packets => ShortWord(m);
    case Events => ShortWord(m);
  }

  lemma ShortWord(m: Measure)
    requires m == Requests || m == Packets || m == Events
    ensures NewMeasure(MeasureShort(m)) == m
  {
    var s := MeasureShort(m);
    match m
    case Requests =>
      SkipOptional(REQUESTS.rest.rest.rest, s, 3);
      assert Matches(REQUESTS.rest, s, 1) by { assert Matches(REQUESTS.rest.rest, s, 2); }
    case Packets =>
      var t := PACKETS.rest.rest.rest.rest.rest;
      SkipOptional(t.rest, s, 6);
      assert Matches(t, s, 5);
      assert Matches(PACKETS.rest.rest.rest, s, 3);
      assert Matches(PACKETS.rest, s, 1);
    case Events =>
      var n := EVENTS.rest.rest.rest;
      SkipOptional(n.rest.rest, s, 5);
      assert Matches(n, s, 3);
      assert Matches(EVENTS.rest, s, 1);
  }

  // ----- reading and printing units -----

  predicate Valid(u: Unit) { u.prefix != InvalidPrefix && u.measure != InvalidMeasure }

  function Short(u: Unit): string {
    var s := PrefixShort(u.prefix) + MeasureShort(u.measure);
    if u.divMeasure != InvalidMeasure then s + "/" + MeasureShort(u.divMeasure) else s
  }

  const PREFIX_CHARS: set<char> := {'k', 'K', 'm', 'M', 'g', 'G', 't', 'T', 'p', 'P', 'e', 'E', 'z', 'Z', 'y', 'Y'}

  /** How many characters the splitting expression takes for the prefix: a letter if it can, then an i if it can. */
  function SplitLength(s: string): (k: nat)
    ensures k <= |s|
  {
    var k := if s != "" && s[0] in PREFIX_CHARS then 1 else 0;
    if k < |s| && s[k] == 'i' then k + 1 else k
  }

  /** The part of s before the first c. */
  function Before(s: string, c: char): (r: string)
    ensures r <= s
  {
    if s == "" || s[0] == c then "" else [s[0]] + Before(s[1..], c)
  }

  /** The texts before and after the first slash; the expression does not look beyond the end of the line. */
  function Measures(s: string): (string, Option<string>) {
    var line := Before(s, '\n');
    var first := Before(line, '/');
    if |first| < |line| then (first, Some(Before(line[|first| + 1..], '/'))) else (first, None)
  }

  predicate NeverMilli(m: Measure) {
    m in {Bytes, Flops, Packets, Events, Cycles, Requests}
  }

  /** The last corrections: no thousandths of what comes in whole pieces, and no prefix for a percentage. */
  function Corrected(pre: Prefix, m: Measure): Prefix {
    if m == Percentage then Base
    else if NeverMilli(m) && pre == Milli then Mega
    else pre
  }

  /** The prefix and the measure of a text; a letter that could be Peta or Exa may belong to the measure. */
  function Resolve(letters: string, text: string): (Prefix, Measure) {
    var pre, m := NewPrefix(letters), NewMeasure(text);
    if m == InvalidMeasure && (pre == Peta || pre == Exa) && NewMeasure(letters + text) != InvalidMeasure then
      (Base, NewMeasure(letters + text))
    else (pre, m)
  }

  function NewUnit(unitStr: string): Unit {
    var k := SplitLength(unitStr);
    var (text, below) := Measures(unitStr[k..]);
    var (pre, m) := Resolve(unitStr[..k], text);
    var div := if below.Some? then NewMeasure(below.value) else InvalidMeasure;
    var p := Corrected(pre, m);
    if p != InvalidPrefix && m != InvalidMeasure then Unit(p, m, div) else UNREADABLE
  }

  // ----- which units survive printing -----

  /** The units that can be written: the splitting expression knows no u and no n, and the corrections must not apply. */
  predicate Writable(u: Unit) {
    && Valid(u) && u.prefix != Micro && u.prefix != Nano
    && Corrected(u.prefix, u.measure) == u.prefix
  }

  predicate Free(s: string, c: char) { forall i :: 0 <= i < |s| ==> s[i] != c }

  lemma {:induction false} BeforeFree(s: string, c: char, rest: string)
    requires Free(s, c) && (rest == "" || rest[0] == c)
    ensures Before(s + rest, c) == s
  {
    if s == "" {
      assert s + rest == rest;
    } else {
      assert (s + rest)[1..] == s[1..] + rest;
      BeforeFree(s[1..], c, rest);
    }
  }

  lemma MeasureLetters(m: Measure)
    requires m != InvalidMeasure
    ensures MeasureShort(m) != "" && Free(MeasureShort(m), '/') && Free(MeasureShort(m), '\n')
    ensures MeasureShort(m)[0] != 'i'
    ensures MeasureShort(m)[0] in PREFIX_CHARS <==> m == Packets || m == Events
  {
  }

  /** What follows the prefix letters in the short form. */
  function Tail(m: Measure, div: Measure): string {
    MeasureShort(m) + if div != InvalidMeasure then "/" + MeasureShort(div) else ""
  }

  lemma ShortIs(u: Unit)
    ensures Short(u) == PrefixShort(u.prefix) + Tail(u.measure, u.divMeasure)
  {
    assert u.divMeasure != InvalidMeasure ==>
      PrefixShort(u.prefix) + MeasureShort(u.measure) + "/" + MeasureShort(u.divMeasure)
      == PrefixShort(u.prefix) + (MeasureShort(u.measure) + ("/" + MeasureShort(u.divMeasure)));
  }

  /** From any text of the measure, Measures finds the text and the measure below the slash. */
  lemma MeasuresOf(text: string, div: Measure)
    requires Free(text, '/') && Free(text, '\n')
    ensures var tail := text + if div != InvalidMeasure then "/" + MeasureShort(div) else "";
            var (first, below) := Measures(tail);
            first == text && (if below.Some? then NewMeasure(below.value) else InvalidMeasure) == div
  {
    hide MeasureShort, Before, NewMeasure;
    if div == InvalidMeasure {
      BeforeFree(text, '\n', "");
      BeforeFree(text, '/', "");
      assert text + "" == text;
    } else {
      MeasureLetters(div);
      ShortMeasure(div);
      CutAtSlash(text, MeasureShort(div));
    }
  }

  lemma CutAtSlash(text: string, below: string)
    requires Free(text, '/') && Free(text, '\n') && Free(below, '/') && Free(below, '\n')
    ensures Measures(text + ("/" + below)) == (text, Some(below))
  {
    hide Before;
    var line := text + ("/" + below);
    assert line + "" == line && below + "" == below;
    BeforeFree(line, '\n', "");
    BeforeFree(text, '/', "/" + below);
    assert line[|text| + 1..] == below;
    BeforeFree(below, '/', "");
  }

  lemma SplitPrefix(p: Prefix, tail: string)
    requires p != InvalidPrefix && tail != "" && tail[0] != 'i'
    ensures p != Micro && p != Nano && (p == Base ==> tail[0] !in PREFIX_CHARS) ==>
              SplitLength(PrefixShort(p) + tail) == |PrefixShort(p)|
    ensures p == Micro || p == Nano ==> SplitLength(PrefixShort(p) + tail) == 0
    ensures NewPrefix(PrefixShort(p)) == p
  {
    OnePrefix(p, PrefixShort(p));
  }

  /** The first letter is taken for a prefix; what is left of the word is no measure. */
  lemma PrefixLetterBack(m: Measure)
    requires m == Packets || m == Events
    ensures var s := MeasureShort(m);
            (NewPrefix(s[..1]) == Peta || NewPrefix(s[..1]) == Exa)
            && NewMeasure(s[1..]) == InvalidMeasure && s[0] in {'p', 'P', 'e', 'E'} && s[1] != 'i' && s[..1] + s[1..] == s
  {
    var s := MeasureShort(m);
    assert s[..1][0] == s[0] && s[1..][0] == s[1];
    assert Candidate(s[1..]) == InvalidMeasure;
  }

  lemma NotWritten(p: Prefix, m: Measure)
    requires m != InvalidMeasure && (p == Micro || p == Nano)
    ensures NewMeasure(PrefixShort(p) + MeasureShort(m)) == InvalidMeasure
    ensures Free(PrefixShort(p) + MeasureShort(m), '/') && Free(PrefixShort(p) + MeasureShort(m), '\n')
  {
    MeasureLetters(m);
    assert Candidate(PrefixShort(p) + MeasureShort(m)) == InvalidMeasure;
  }

  lemma {:induction false} BeforeSkip(x: string, y: string, c: char)
    requires Free(x, c)
    ensures Before(x + y, c) == x + Before(y, c)
  {
    if x == "" {
      assert x + y == y;
    } else {
      assert (x + y)[1..] == x[1..] + y;
      BeforeSkip(x[1..], y, c);
    }
  }

  /** The text behind a first name: a second one behind a slash, if there is one, and what is not looked at. */
  function Behind(below: Option<string>, more: string): string {
    if below.Some? then "/" + (below.value + more) else more
  }

  /**
   How any string falls apart: a letter and an i, each if it can be taken; the first name, up to a
   slash or the end of the line; and the second name behind a slash, up to the same.
   */
  predicate Splits(letters: string, text: string, below: Option<string>, more: string) {
    && var tail := text + Behind(below, more);
    && (|letters| == 0 || letters == "i" || (|letters| == 1 && letters[0] in PREFIX_CHARS)
        || (|letters| == 2 && letters[0] in PREFIX_CHARS && letters[1] == 'i'))
    && (letters == "" && tail != "" ==> tail[0] !in PREFIX_CHARS && tail[0] != 'i')
    && (|letters| == 1 && letters != "i" && tail != "" ==> tail[0] != 'i')
    && Free(text, '/') && Free(text, '\n') && (below.Some? ==> Free(below.value, '/') && Free(below.value, '\n'))
    && (more == "" || more[0] == '\n' || (below.Some? && more[0] == '/'))
  }

  /** The line with a second name, and where it is cut. */
  lemma SecondName(text: string, b: string, more: string)
    requires Free(text, '/') && Free(text, '\n') && Free(b, '/') && Free(b, '\n')
    requires more == "" || more[0] == '\n' || more[0] == '/'
    ensures Measures(text + ("/" + (b + more))) == (text, Some(b))
  {
    hide Before, Free;
    var end := Before(more, '\n');
    var line := text + ("/" + (b + end));
    LineWith(text, b, more);
    BeforeFree(text, '/', "/" + (b + end));
    assert line[|text| + 1..] == b + end;
    EndOf(more);
    BeforeFree(b, '/', end);
  }

  lemma LineWith(text: string, b: string, more: string)
    requires Free(text, '\n') && Free(b, '\n')
    ensures Before(text + ("/" + (b + more)), '\n') == text + ("/" + (b + Before(more, '\n')))
  {
    hide Before;
    BeforeSkip(text, "/" + (b + more), '\n');
    BeforeSkip("/", b + more, '\n');
    BeforeSkip(b, more, '\n');
  }

  lemma EndOf(more: string)
    requires more == "" || more[0] == '\n' || more[0] == '/'
    ensures var end := Before(more, '\n'); end == "" || end[0] == '/'
  {
  }

  lemma MeasuresSplit(letters: string, text: string, below: Option<string>, more: string)
    requires Splits(letters, text, below, more)
    ensures Measures(text + Behind(below, more)) == (text, below)
  {
    if below.None? {
      FirstName(text, more);
    } else {
      SecondName(text, below.value, more);
    }
  }

  lemma FirstName(text: string, more: string)
    requires Free(text, '/') && Free(text, '\n') && (more == "" || more[0] == '\n')
    ensures Measures(text + more) == (text, None)
  {
    hide Before, Free;
    BeforeFree(text, '\n', more);
    BeforeFree(text, '/', "");
    assert text + "" == text;
  }

  lemma LettersSplit(letters: string, text: string, below: Option<string>, more: string)
    requires Splits(letters, text, below, more)
    ensures SplitLength(letters + (text + Behind(below, more))) == |letters|
  {
  }

  /**
   Exactly which strings are units, and which: the first name is a measure behind letters that are a
   prefix, or are none before a percentage; or it is one only together with the letters of Peta or Exa.
   The second name is a measure or counts as none.
   */
  lemma ReadsExactly(letters: string, text: string, below: Option<string>, more: string)
    requires Splits(letters, text, below, more)
    ensures var u := NewUnit(letters + (text + Behind(below, more)));
            var p, m, whole := NewPrefix(letters), NewMeasure(text), NewMeasure(letters + text);
            var div := if below.Some? then NewMeasure(below.value) else InvalidMeasure;
            if m != InvalidMeasure && (p != InvalidPrefix || m == Percentage) then
              u.measure == m && u.divMeasure == div
              && u.prefix == if m == Percentage then Base
                             else if m in {Bytes, Flops, Packets, Events, Cycles, Requests} && p == Milli then Mega else p
            else if m == InvalidMeasure && p in {Peta, Exa} && whole != InvalidMeasure then
              u == Unit(Base, whole, div)
            else !Valid(u)
  {
    hide NewMeasure, NewPrefix, Measures, SplitLength;
    LettersSplit(letters, text, below, more);
    MeasuresSplit(letters, text, below, more);
    var tail := text + Behind(below, more);
    assert (letters + tail)[..|letters|] == letters && (letters + tail)[|letters|..] == tail;
  }

  /** Every string splits in this way. */
  lemma SomeSplit(s: string) returns (letters: string, text: string, below: Option<string>, more: string)
    ensures Splits(letters, text, below, more) && s == letters + (text + Behind(below, more))
  {
    var k := SplitLength(s);
    letters := s[..k];
    var tail := s[k..];
    var rest;
    text, rest := Cut(tail);
    if rest != "" && rest[0] == '/' {
      var b;
      b, more := Cut(rest[1..]);
      below := Some(b);
      assert rest == "/" + (b + more);
    } else {
      below, more := None, rest;
    }
    assert text + Behind(below, more) == tail;
    hide Free;
    assert s == letters + tail;
  }

  /** The text up to the first slash or the end of the line. */
  lemma {:induction false} Cut(s: string) returns (text: string, rest: string)
    ensures s == text + rest && Free(text, '/') && Free(text, '\n') && (rest == "" || rest[0] == '/' || rest[0] == '\n')
  {
    if s == "" || s[0] == '/' || s[0] == '\n' {
      text, rest := "", s;
    } else {
      text, rest := Cut(s[1..]);
      text := [s[0]] + text;
    }
  }

  /** What the short form of a valid unit is read as: the unit with the corrections applied, unless its prefix cannot be written. */
  lemma ShortReads(u: Unit)
    requires Valid(u)
    ensures NewUnit(Short(u)) ==
      if u.prefix == Micro || u.prefix == Nano then UNREADABLE else u.(prefix := Corrected(u.prefix, u.measure))
  {
    if u.prefix == Micro || u.prefix == Nano {
      SmallRefused(u);
    } else if u.prefix == Base && (u.measure == Packets || u.measure == Events) {
      LetterParses(u);
    } else {
      PrefixParses(u);
    }
  }

  function DivShort(div: Measure): Option<string> {
    if div != InvalidMeasure then Some(MeasureShort(div)) else None
  }

  /** What is read of the second measure of a short form. */
  lemma DivBack(div: Measure)
    ensures var below := DivShort(div);
            && (below.Some? ==> Free(below.value, '/') && Free(below.value, '\n'))
            && (if below.Some? then NewMeasure(below.value) else InvalidMeasure) == div
  {
    hide MeasureShort, NewMeasure;
    if div != InvalidMeasure {
      MeasureLetters(div);
      ShortMeasure(div);
    }
  }

  /** A short form as letters, the rest of the first name, and the second one. */
  lemma ShortSplits(u: Unit, k: nat)
    requires k <= |MeasureShort(u.measure)|
    ensures var letters, text := PrefixShort(u.prefix) + MeasureShort(u.measure)[..k], MeasureShort(u.measure)[k..];
            Short(u) == letters + (text + Behind(DivShort(u.divMeasure), ""))
  {
    hide MeasureShort, PrefixShort, Short;
    ShortIs(u);
    var word := MeasureShort(u.measure);
    assert word == word[..k] + word[k..];
    if u.divMeasure != InvalidMeasure {
      assert MeasureShort(u.divMeasure) + "" == MeasureShort(u.divMeasure);
    }
  }

  lemma PrefixParses(u: Unit)
    requires Valid(u) && u.prefix != Micro && u.prefix != Nano && !(u.prefix == Base && (u.measure == Packets || u.measure == Events))
    ensures NewUnit(Short(u)) == u.(prefix := Corrected(u.prefix, u.measure))
  {
    hide NewMeasure, NewPrefix, NewUnit, MeasureShort, PrefixShort, Short;
    var word := MeasureShort(u.measure);
    ShortSplits(u, 0);
    assert PrefixShort(u.prefix) + word[..0] == PrefixShort(u.prefix) && word[0..] == word;
    MeasureLetters(u.measure);
    ShortMeasure(u.measure);
    DivBack(u.divMeasure);
    OnePrefixShort(u.prefix);
    PrefixLetters(u.prefix);
    ReadsExactly(PrefixShort(u.prefix), word, DivShort(u.divMeasure), "");
  }

  lemma PrefixLetters(p: Prefix)
    requires p != InvalidPrefix && p != Micro && p != Nano
    ensures var s := PrefixShort(p);
            && (s == "" <==> p == Base)
            && (|s| == 0 || (|s| == 1 && s != "i" && s[0] in PREFIX_CHARS) || (|s| == 2 && s[0] in PREFIX_CHARS && s[1] == 'i'))
  {
  }

  /** The corrections in full: a percentage loses its prefix, thousandths of whole pieces become millions, and nothing else changes. */
  lemma ReadsCorrected(u: Unit)
    requires Valid(u) && u.prefix != Micro && u.prefix != Nano
    ensures var v := NewUnit(Short(u));
            && v.measure == u.measure && v.divMeasure == u.divMeasure
            && (u.measure == Percentage ==> v.prefix == Base)
            && (u.measure != Percentage && u.prefix != Milli ==> v.prefix == u.prefix)
            && (u.measure in {Bytes, Flops, Packets, Events, Cycles, Requests} && u.prefix == Milli ==> v.prefix == Mega)
            && (u.measure in {TemperatureC, TemperatureF, Rotation, Frequency, Time, Watt, Joule} ==> v.prefix == u.prefix)
  {
    hide NewUnit, Short;
    ShortReads(u);
  }

  /** A valid unit is read back from its short form exactly when it is writable. */
  lemma ShortParses(u: Unit)
    requires Valid(u)
    ensures NewUnit(Short(u)) == u <==> Writable(u)
  {
    hide NewUnit, Short;
    ShortReads(u);
  }

  lemma EmptyPrefix()
    ensures NewPrefix("") == Base && PrefixShort(Base) == ""
  {
  }

  lemma LetterParses(u: Unit)
    requires u.prefix == Base && (u.measure == Packets || u.measure == Events)
    ensures NewUnit(Short(u)) == u
  {
    hide NewMeasure, NewPrefix, NewUnit, MeasureShort, Short;
    var word := MeasureShort(u.measure);
    WordLong(u.measure);
    ShortSplits(u, 1);
    MeasureLetters(u.measure);
    ShortMeasure(u.measure);
    DivBack(u.divMeasure);
    PrefixLetterBack(u.measure);
    assert "" + word[..1] == word[..1] && word[..1][0] == word[0];
    ReadsExactly(word[..1], word[1..], DivShort(u.divMeasure), "");
  }

  lemma WordLong(m: Measure)
    requires m == Packets || m == Events
    ensures |MeasureShort(m)| > 1
  {
  }

  /** Every unit that a string is read as is writable, or the unreadable one. */
  lemma ReadWritable(s: string)
    ensures NewUnit(s) == UNREADABLE || Writable(NewUnit(s))
  {
    hide NewMeasure, Measures;
    var letters := s[..SplitLength(s)];
    SplitLetters(s);
  }

  lemma SplitLetters(s: string)
    ensures NewPrefix(s[..SplitLength(s)]) != Micro && NewPrefix(s[..SplitLength(s)]) != Nano
  {
  }

  /** Printing what was read and reading it again gives the same unit, for every string. */
  lemma ReadPrintRead(s: string)
    ensures NewUnit(Short(NewUnit(s))) == NewUnit(s)
  {
    hide NewUnit, Short, Writable;
    ReadWritable(s);
    if NewUnit(s) == UNREADABLE {
      UnreadableStays();
    } else {
      WritableValid(NewUnit(s));
      ShortParses(NewUnit(s));
    }
  }

  lemma WritableValid(u: Unit)
    requires Writable(u)
    ensures Valid(u)
  {
  }

  lemma UnreadableStays()
    ensures NewUnit(Short(UNREADABLE)) == UNREADABLE
  {
    var s := Short(UNREADABLE);
    assert s == "invalinval";
    assert SplitLength(s) == 1 && NewPrefix(s[..1]) == InvalidPrefix;
  }

  // ----- conversions -----

  function Factor(p: Prefix): real {
    match p
    case InvalidPrefix => 0.0
    case Base => 1.0
    case Kilo => 1000.0
    case Mega => 1000000.0
    case Giga => 1000000000.0
    case Tera => 1000000000000.0
    case Peta => 1000000000000000.0
    case Exa => 1000000000000000000.0
    case Zetta => 1000000000000000000000.0
    case Yotta => 1000000000000000000000000.0
    case Milli => 0.001
    case Micro => 0.000001
    case Nano => 0.000000001
    case Kibi => 1024.0
    case Mebi => 1048576.0
    case Gibi => 1073741824.0
    case Tebi => 1099511627776.0
    case Pebi => 1125899906842624.0
    case Exbi => 1152921504606846976.0
    case Zebi => 1180591620717411303424.0
    case Yobi => 1208925819614629174706176.0
  }

  const DECIMAL := [Nano, Micro, Milli, Base, Kilo, Mega, Giga, Tera, Peta, Exa, Zetta, Yotta]
  const BINARY := [Base, Kibi, Mebi, Gibi, Tebi, Pebi, Exbi, Zebi, Yobi]

  /** Each decimal prefix is a thousand of the one below it, and each binary prefix 1024 of the one below it; no prefix is 1. */
  lemma Ladders(i: nat)
    ensures i + 1 < |DECIMAL| ==> Factor(DECIMAL[i + 1]) == 1000.0 * Factor(DECIMAL[i])
    ensures i + 1 < |BINARY| ==> Factor(BINARY[i + 1]) == 1024.0 * Factor(BINARY[i])
    ensures Factor(Base) == 1.0
  {
  }

  /** A value multiplied by a quotient of factors. */
  function Scale(v: real, x: real, y: real): real
    requires y != 0.0
  {
    v * (x / y)
  }

  /** A floating-point value in another prefix. */
  function Convert(from: Prefix, to: Prefix, v: real): real
    requires to != InvalidPrefix
  {
    FactorPositive(to);
    Scale(v, Factor(from), Factor(to))
  }

  /** A conversion keeps the quantity: the value in the new prefix stands for as much as the old one. */
  lemma ConvertKeeps(from: Prefix, to: Prefix, v: real)
    requires to != InvalidPrefix
    ensures Convert(from, to, v) * Factor(to) == v * Factor(from)
  {
    hide Factor, Scale, Convert;
    ConvertIs(from, to, v);
    ScaleKeeps(v, Factor(from), Factor(to));
  }

  lemma ScaleKeeps(v: real, x: real, y: real)
    requires y != 0.0
    ensures Scale(v, x, y) * y == v * x
  {
    var q := x / y;
    assert q * y == x;
    assert (v * q) * y == v * (q * y);
  }

  /** One rung down a ladder multiplies a value by 1000, or by 1024, and one rung up divides it. */
  lemma ConvertRung(i: nat, v: real)
    ensures var d := DECIMAL; i + 1 < |d| ==> Convert(d[i + 1], d[i], v) == 1000.0 * v && Convert(d[i], d[i + 1], v) == v / 1000.0
    ensures var b := BINARY; i + 1 < |b| ==> Convert(b[i + 1], b[i], v) == 1024.0 * v && Convert(b[i], b[i + 1], v) == v / 1024.0
  {
    hide Factor, Convert;
    Ladders(i);
    if i + 1 < |DECIMAL| { RungFactor(DECIMAL[i], DECIMAL[i + 1], 1000.0, v); }
    if i + 1 < |BINARY| { RungFactor(BINARY[i], BINARY[i + 1], 1024.0, v); }
  }

  lemma RungFactor(low: Prefix, high: Prefix, k: real, v: real)
    requires low != InvalidPrefix && high != InvalidPrefix && Factor(high) == k * Factor(low) && k != 0.0
    ensures Convert(high, low, v) == k * v && Convert(low, high, v) == v / k
  {
    hide Factor, Convert;
    ConvertKeeps(high, low, v);
    ConvertKeeps(low, high, v);
    FactorPositive(low);
    var f, up, down := Factor(low), Convert(low, high, v), Convert(high, low, v);
    assert v * (k * f) == (k * v) * f && up * (k * f) == (up * k) * f;
    CancelFactor(down, k * v, f);
    CancelFactor(up * k, v, f);
    assert up == (up * k) / k;
  }

  lemma CancelFactor(a: real, b: real, f: real)
    requires f != 0.0 && a * f == b * f
    ensures a == b
  {
    assert (a - b) * f == 0.0;
  }

  /** Converting by way of another prefix makes no difference, and so converting back restores the value. */
  lemma ConvertThrough(a: Prefix, b: Prefix, c: Prefix, v: real)
    requires b != InvalidPrefix && c != InvalidPrefix
    ensures Convert(b, c, Convert(a, b, v)) == Convert(a, c, v)
    ensures a == c ==> Convert(a, c, v) == v
  {
    hide Factor, Scale, Convert;
    ConvertIs(a, b, v);
    ConvertIs(b, c, Convert(a, b, v));
    ConvertIs(a, c, v);
    ScaleThrough(Factor(a), Factor(b), Factor(c), v);
  }

  lemma ConvertIs(from: Prefix, to: Prefix, v: real)
    requires to != InvalidPrefix
    ensures Factor(to) != 0.0 && Convert(from, to, v) == Scale(v, Factor(from), Factor(to))
  {
    hide Factor, Scale;
    FactorPositive(to);
  }

  lemma ScaleThrough(x: real, y: real, z: real, v: real)
    requires y != 0.0 && z != 0.0
    ensures Scale(Scale(v, x, y), y, z) == Scale(v, x, z)
    ensures Scale(v, z, z) == v
  {
    Cancels(x, y, z, v);
  }

  lemma FactorPositive(p: Prefix)
    ensures Factor(p) == 0.0 <==> p == InvalidPrefix
    ensures Factor(p) >= 0.0
  {
  }

  lemma Cancels(x: real, y: real, z: real, v: real)
    requires y != 0.0 && z != 0.0
    ensures (v * (x / y)) * (y / z) == v * (x / z)
    ensures v * (z / z) == v
  {
    var q, r := x / y, y / z;
    assert q * y == x && r * z == y;
    assert (q * r) * z == q * (r * z) == x;
    assert q * r == x / z;
    assert (v * q) * r == v * (q * r);
  }

  /** The function that converts values: none, or the one that scales from one prefix to another. */
  datatype Conversion = Nil | Scaling(from: Prefix, to: Prefix)

  const INVALID_UNIT: Unit := NewUnit("foobar")

  /** How values are converted and the unit afterwards, for which the old unit is printed and read again. */
  function GetUnitPrefixFactor(u: Unit, to: Prefix): (Conversion, Unit) {
    var v := NewUnit(Short(u));
    if Valid(v) then (Scaling(u.prefix, to), v.(prefix := to)) else (Nil, INVALID_UNIT)
  }

  /** A valid unit is converted to the same unit with the new prefix, unless it is in millionths or billionths: then it is refused. */
  lemma ConversionKeepsUnit(u: Unit, to: Prefix)
    requires Valid(u)
    ensures GetUnitPrefixFactor(u, to) ==
      if u.prefix == Micro || u.prefix == Nano then (Nil, INVALID_UNIT) else (Scaling(u.prefix, to), u.(prefix := to))
  {
    hide NewUnit, Short;
    ShortReads(u);
  }

  /** The unit that stands for an invalid one is read as flops, and so is valid. */
  lemma InvalidUnitValid()
    ensures INVALID_UNIT == Unit(Base, Flops, InvalidMeasure) && Valid(INVALID_UNIT)
  {
    hide NewMeasure, NewPrefix, SplitLength, Measures;
    var s := "foobar";
    assert s[..0] == "" && s[0..] == s;
    FoobarParts();
    FoobarIsFlops();
    EmptyPrefix();
  }

  lemma FoobarParts()
    ensures SplitLength("foobar") == 0 && Measures("foobar") == ("foobar", None)
  {
    hide Before;
    var s := "foobar";
    BeforeFree(s, '\n', "");
    BeforeFree(s, '/', "");
    assert s + "" == s;
  }

  lemma FoobarIsFlops()
    ensures NewMeasure("foobar") == Flops
  {
    var s := "foobar";
    SkipOptional(FLOPS.rest, s, 1);
    assert MeasureMatches(Flops, s);
  }

  /** The unit does not tell that a conversion is refused: it is then a valid one, even if the prefix is not. */
  lemma RefusalLooksValid(u: Unit, to: Prefix)
    ensures var (conversion, after) := GetUnitPrefixFactor(u, to);
            && (conversion.Nil? <==> !Valid(NewUnit(Short(u))))
            && (conversion.Nil? ==> after == Unit(Base, Flops, InvalidMeasure))
            && (Valid(after) <==> conversion.Nil? || to != InvalidPrefix)
  {
    hide NewUnit, Short;
    InvalidUnitValid();
  }

  /** Different prefixes of a unit are written differently. */
  lemma ShortTells(u: Unit, to: Prefix)
    requires u.prefix != InvalidPrefix && to != InvalidPrefix
    ensures Short(u) == Short(u.(prefix := to)) <==> u.prefix == to
  {
    hide NewPrefix, PrefixShort, Tail, Short;
    OnePrefixShort(u.prefix);
    OnePrefixShort(to);
    ShortIs(u);
    ShortIs(u.(prefix := to));
    var p, q, t := PrefixShort(u.prefix), PrefixShort(to), Tail(u.measure, u.divMeasure);
    if p + t == q + t {
      assert |p| == |q|;
      assert p == (p + t)[..|p|] && q == (q + t)[..|q|];
    }
  }

  lemma OnePrefixShort(p: Prefix)
    requires p != InvalidPrefix
    ensures NewPrefix(PrefixShort(p)) == p
  {
    OnePrefix(p, PrefixShort(p));
  }

  lemma SmallRefused(u: Unit)
    requires Valid(u) && (u.prefix == Micro || u.prefix == Nano)
    ensures NewUnit(Short(u)) == UNREADABLE
  {
    hide NewMeasure, NewPrefix, Measures, SplitLength, MeasureShort, PrefixShort;
    var p, m, div := u.prefix, u.measure, u.divMeasure;
    ShortIs(u);
    MeasureLetters(m);
    var s := Short(u);
    SplitPrefix(p, Tail(m, div));
    NotWritten(p, m);
    var text := PrefixShort(p) + MeasureShort(m);
    MeasuresOf(text, div);
    assert s == text + if div != InvalidMeasure then "/" + MeasureShort(div) else "";
    assert s[..0] == "" && s[0..] == s;
    EmptyPrefix();
  }
}
