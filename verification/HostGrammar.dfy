/**
 The grammar of host lists. The regular expression that the package matches against the
 front of its input is written out as the equivalent deterministic scanner: every
 repetition in it takes as many characters as it can and never has to give one back.
 */
module HostGrammar {
  import opened Numerals
  import opened Options

  /** A single number or a range of numbers, as texts. */
  datatype Item = Single(text: string) | Range(start: string, end: string)

  /** One host expression; without a bracket there are no items and no suffix. */
  datatype Host = Host(prefix: string, items: seq<Item>, suffix: string)

  predicate IsSpace(c: char) { c == ' ' || '\t' <= c <= '\r' }

  predicate IsDelimiter(c: char) { c == ',' || IsSpace(c) }

  predicate IsDns(c: char) { 'a' <= c <= 'z' || 'A' <= c <= 'Z' || '0' <= c <= '9' || c == '-' }

  predicate All(t: string, p: char -> bool) { forall i :: 0 <= i < |t| ==> p(t[i]) }

  predicate WellFormedItem(item: Item) {
    match item
    case Single(t) => t != "" && Digits(t)
    case Range(s, e) => s != "" && e != "" && Digits(s) && Digits(e)
  }

  predicate WellFormed(h: Host) {
    && h.prefix != "" && All(h.prefix, IsDns) && All(h.suffix, IsDns)
    && (forall i :: 0 <= i < |h.items| ==> WellFormedItem(h.items[i]))
    && (h.items == [] ==> h.suffix == "")
  }

  // ----- the scanner -----

  /** How many leading characters of s satisfy p. */
  function Span(s: string, p: char -> bool): (k: nat)
    ensures k <= |s| && All(s[..k], p) && (k < |s| ==> !p(s[k]))
  {
    if s == "" || !p(s[0]) then 0 else 1 + Span(s[1..], p)
  }

  /** A number or a range at the front of t, with what follows it. */
  function ScanItem(t: string): (r: Option<(Item, string)>)
    ensures r.Some? ==> WellFormedItem(r.value.0) && |r.value.1| < |t|
  {
    var k := Span(t, IsDigit);
    if k == 0 then None else Some(ScanEnd(t[..k], t[k..]))
  }

  /** The end of a range whose start has been read, if there is one. */
  function ScanEnd(start: string, t: string): (r: (Item, string))
    requires start != "" && Digits(start)
    ensures WellFormedItem(r.0) && |r.1| <= |t|
  {
    if t != "" && t[0] == '-' && Span(t[1..], IsDigit) > 0 then
      var j := Span(t[1..], IsDigit);
      (Range(start, t[1..][..j]), t[1..][j..])
    else (Single(start), t)
  }

  /** Items separated by commas up to the closing bracket. */
  function ScanItems(t: string): (r: Option<(seq<Item>, string)>)
    ensures r.Some? ==> r.value.0 != [] && |r.value.1| < |t|
                        && forall i :: 0 <= i < |r.value.0| ==> WellFormedItem(r.value.0[i])
    decreases |t|
  {
    match ScanItem(t)
    case None => None
    case Some((item, u)) =>
      if u == "" then None
      else if u[0] == ']' then Some(([item], u[1..]))
      else if u[0] == ',' then
        match ScanItems(u[1..])
        case None => None
        case Some((items, v)) => Some(([item] + items, v))
      else None
  }

  /** One match of the expression at the front of s, and the input after it. */
  function Scan(s: string): (r: Option<(Host, string)>)
    ensures r.Some? ==> WellFormed(r.value.0) && |r.value.1| < |s|
  {
    var t := s[Span(s, IsDelimiter)..];
    var p := Span(t, IsDns);
    if p == 0 then None else Some(ScanRanges(t[..p], t[p..]))
  }

  /** The optional bracket and suffix after a prefix. */
  function ScanRanges(prefix: string, t: string): (r: (Host, string))
    requires prefix != "" && All(prefix, IsDns)
    ensures WellFormed(r.0) && |r.1| <= |t|
  {
    match (if t != "" && t[0] == '[' then ScanItems(t[1..]) else None)
    case None => (Host(prefix, [], ""), t)
    case Some((items, v)) =>
      var q := Span(v, IsDns);
      (Host(prefix, items, v[..q]), v[q..])
  }

  // ----- the printed form -----

  function PrintItem(item: Item): string {
    match item
    case Single(t) => t
    case Range(s, e) => s + "-" + e
  }

  function PrintItems(items: seq<Item>): string {
    if items == [] then ""
    else if |items| == 1 then PrintItem(items[0])
    else PrintItem(items[0]) + "," + PrintItems(items[1..])
  }

  function Print(h: Host): string {
    if h.items == [] then h.prefix
    else h.prefix + "[" + PrintItems(h.items) + "]" + h.suffix
  }

  // ----- scanning undoes printing -----

  lemma {:induction false} SpanOf(x: string, y: string, p: char -> bool)
    requires All(x, p) && (y == "" || !p(y[0]))
    ensures Span(x + y, p) == |x| && (x + y)[..|x|] == x && (x + y)[|x|..] == y
  {
    if x == "" {
      assert x + y == y;
    } else {
      assert (x + y)[1..] == x[1..] + y;
      SpanOf(x[1..], y, p);
    }
  }

  lemma ScanPrintedItem(item: Item, rest: string)
    requires WellFormedItem(item) && rest != "" && (rest[0] == ',' || rest[0] == ']')
    ensures ScanItem(PrintItem(item) + rest) == Some((item, rest))
  {
    match item
    case Single(t) =>
      SpanOf(t, rest, IsDigit);
    case Range(s, e) =>
      var u := "-" + (e + rest);
      assert PrintItem(item) + rest == s + u;
      SpanOf(s, u, IsDigit);
      SpanOf(e, rest, IsDigit);
      assert u[1..] == e + rest;
  }

  lemma {:induction false} ScanPrintedItems(items: seq<Item>, rest: string)
    requires items != [] && forall i :: 0 <= i < |items| ==> WellFormedItem(items[i])
    ensures ScanItems(PrintItems(items) + ("]" + rest)) == Some((items, rest))
  {
    hide ScanItem, PrintItem, WellFormedItem;
    var t := PrintItems(items) + ("]" + rest);
    if |items| == 1 {
      ScanPrintedItem(items[0], "]" + rest);
      assert ("]" + rest)[1..] == rest && items == [items[0]];
    } else {
      var u := PrintItems(items[1..]) + ("]" + rest);
      assert t == PrintItem(items[0]) + ("," + u);
      ScanPrintedItem(items[0], "," + u);
      ScanPrintedItems(items[1..], rest);
      assert ("," + u)[1..] == u && items == [items[0]] + items[1..];
    }
  }

  /** A bracket with its items and what follows. */
  function Bracket(items: seq<Item>, rest: string): string {
    "[" + (PrintItems(items) + ("]" + rest))
  }

  /** No bracket with items stands at the front of t. */
  ghost predicate NoBracket(t: string) {
    forall items, rest {:trigger Bracket(items, rest)} ::
      items != [] && (forall i :: 0 <= i < |items| ==> WellFormedItem(items[i])) ==> t != Bracket(items, rest)
  }

  /** The expression ends where rest begins: it takes as many characters as it can, and a bracket if there is one. */
  ghost predicate Ends(h: Host, rest: string) {
    && (rest == "" || !IsDns(rest[0]))
    && (h.items == [] ==> NoBracket(rest))
  }

  lemma EndIsPrinted(start: string, t: string)
    requires start != "" && Digits(start)
    ensures start + t == PrintItem(ScanEnd(start, t).0) + ScanEnd(start, t).1
  {
    hide Digits;
    if t != "" && t[0] == '-' {
      var j := Span(t[1..], IsDigit);
      hide Span;
      Concat(start, "-", t[1..][..j], t[1..][j..]);
      assert t == "-" + (t[1..][..j] + t[1..][j..]);
    }
  }

  lemma Concat(a: string, b: string, c: string, d: string)
    ensures a + (b + (c + d)) == (a + b + c) + d
  {
  }

  lemma ItemIsPrinted(t: string)
    requires ScanItem(t).Some?
    ensures t == PrintItem(ScanItem(t).value.0) + ScanItem(t).value.1
  {
    hide ScanEnd, PrintItem, Span, WellFormedItem;
    var k := Span(t, IsDigit);
    EndIsPrinted(t[..k], t[k..]);
    assert t == t[..k] + t[k..];
  }

  lemma {:induction false} ItemsArePrinted(t: string)
    requires ScanItems(t).Some?
    ensures t == PrintItems(ScanItems(t).value.0) + ("]" + ScanItems(t).value.1)
    decreases |t|
  {
    hide ScanItem, PrintItem, WellFormedItem;
    var (item, u) := ScanItem(t).value;
    ItemIsPrinted(t);
    if u[0] == ']' {
      assert u == "]" + u[1..];
    } else {
      ItemsArePrinted(u[1..]);
      var (items, v) := ScanItems(u[1..]).value;
      assert u == "," + u[1..];
      assert ([item] + items)[1..] == items;
      assert t == PrintItem(item) + "," + PrintItems(items) + ("]" + v);
    }
  }

  lemma RangesArePrinted(h: Host, t: string, rest: string)
    requires h.prefix != "" && All(h.prefix, IsDns) && (t == "" || !IsDns(t[0]))
    requires ScanRanges(h.prefix, t) == (h, rest)
    ensures WellFormed(h) && Ends(h, rest) && t == if h.items == [] then rest else Bracket(h.items, h.suffix + rest)
  {
    hide ScanItems, PrintItems, WellFormedItem, Span, NoBracket;
    if h.items == [] {
      NoItemsNoBracket(t);
    } else {
      var (items, v) := ScanItems(t[1..]).value;
      ItemsArePrinted(t[1..]);
      assert t == "[" + t[1..] && v == h.suffix + rest;
    }
  }

  lemma NoItemsNoBracket(t: string)
    ensures NoBracket(t) <==> t == "" || t[0] != '[' || ScanItems(t[1..]).None?
  {
    hide ScanItems, WellFormedItem, PrintItems;
    forall items, rest | items != [] && (forall i :: 0 <= i < |items| ==> WellFormedItem(items[i])) && t == Bracket(items, rest)
      ensures t[0] == '[' && ScanItems(t[1..]).Some?
    {
      ScanPrintedItems(items, rest);
      assert t[1..] == PrintItems(items) + ("]" + rest);
    }
    if t != "" && t[0] == '[' && ScanItems(t[1..]).Some? {
      var (items, v) := ScanItems(t[1..]).value;
      ItemsArePrinted(t[1..]);
      assert t == Bracket(items, v);
    }
  }

  lemma PrintedRanges(h: Host, rest: string)
    requires WellFormed(h) && Ends(h, rest)
    ensures ScanRanges(h.prefix, if h.items == [] then rest else Bracket(h.items, h.suffix + rest)) == (h, rest)
  {
    hide ScanItems, PrintItems, WellFormedItem, Span, NoBracket;
    if h.items == [] {
      NoItemsNoBracket(rest);
    } else {
      var v := h.suffix + rest;
      var u := PrintItems(h.items) + ("]" + v);
      assert ("[" + u)[1..] == u;
      ScanPrintedItems(h.items, v);
      SpanOf(h.suffix, rest, IsDns);
    }
  }

  lemma PrintSplits(h: Host, rest: string)
    ensures Print(h) + rest == h.prefix + if h.items == [] then rest else Bracket(h.items, h.suffix + rest)
  {
    hide PrintItems;
  }

  /** The scanner reads back every well-formed host expression, behind any delimiters, if it ends there. */
  lemma ScanPrinted(delims: string, h: Host, rest: string)
    requires WellFormed(h) && All(delims, IsDelimiter) && Ends(h, rest)
    ensures Scan(delims + (Print(h) + rest)) == Some((h, rest))
  {
    hide Print, WellFormedItem, ScanRanges, Span, NoBracket;
    var u := if h.items == [] then rest else Bracket(h.items, h.suffix + rest);
    PrintSplits(h, rest);
    SpanOf(delims, h.prefix + u, IsDelimiter);
    SpanOf(h.prefix, u, IsDns);
    PrintedRanges(h, rest);
  }

  /** An expression ends before a delimiter and at the end of the input. */
  lemma EndsBefore(h: Host, rest: string)
    requires rest == "" || IsDelimiter(rest[0])
    ensures Ends(h, rest)
  {
    assert forall items, t :: Bracket(items, t)[0] == '[';
  }

  /** The delimiters and the prefix that the scanner takes, and the text behind them. */
  lemma ScanParts(s: string) returns (delims: string, t: string)
    requires Scan(s).Some?
    ensures var (h, rest) := Scan(s).value;
            && All(delims, IsDelimiter) && s == delims + (h.prefix + t) && (t == "" || !IsDns(t[0]))
            && h.prefix != "" && All(h.prefix, IsDns) && ScanRanges(h.prefix, t) == (h, rest)
  {
    hide ScanRanges, Span;
    var d := Span(s, IsDelimiter);
    delims := s[..d];
    var u := s[d..];
    var p := Span(u, IsDns);
    t := u[p..];
    PrefixKept(u[..p], t);
    assert s == delims + u && u == u[..p] + t;
  }

  lemma ScanIsPrinted(s: string) returns (delims: string)
    requires Scan(s).Some?
    ensures var (h, rest) := Scan(s).value;
            WellFormed(h) && Ends(h, rest) && All(delims, IsDelimiter) && s == delims + (Print(h) + rest)
  {
    hide Scan, WellFormed, Ends, ScanRanges, Print, Bracket, All;
    var (h, rest) := Scan(s).value;
    var t;
    delims, t := ScanParts(s);
    RangesArePrinted(h, t, rest);
    PrintSplits(h, rest);
  }

  lemma PrefixKept(prefix: string, t: string)
    requires prefix != "" && All(prefix, IsDns)
    ensures ScanRanges(prefix, t).0.prefix == prefix
  {
    hide ScanItems, Span;
  }

  /**
   Exactly what the scanner matches: a well-formed host expression behind delimiters that takes as
   many characters as it can.
   */
  lemma ScanExactly(s: string, h: Host, rest: string)
    ensures Scan(s) == Some((h, rest)) <==>
      WellFormed(h) && Ends(h, rest) && exists delims :: All(delims, IsDelimiter) && s == delims + (Print(h) + rest)
  {
    hide Scan, WellFormed, Ends, Print;
    if Scan(s) == Some((h, rest)) {
      var delims := ScanIsPrinted(s);
    }
    if delims :| WellFormed(h) && Ends(h, rest) && All(delims, IsDelimiter) && s == delims + (Print(h) + rest) {
      ScanPrinted(delims, h, rest);
    }
  }

  // ----- scanning a longer input -----

  lemma {:induction false} SpanPrefix(s: string, more: string, p: char -> bool)
    requires Span(s, p) < |s| || more == "" || !p(more[0])
    ensures Span(s + more, p) == Span(s, p)
  {
    var k := Span(s, p);
    assert s + more == s[..k] + (s[k..] + more);
    SpanOf(s[..k], s[k..] + more, p);
  }

  /** Splitting at the end of a span commutes with appending. */
  lemma SpanSplit(s: string, more: string, p: char -> bool)
    requires Span(s, p) < |s| || more == "" || !p(more[0])
    ensures Span(s + more, p) == Span(s, p)
    ensures (s + more)[..Span(s, p)] == s[..Span(s, p)]
    ensures (s + more)[Span(s, p)..] == s[Span(s, p)..] + more
  {
    SpanPrefix(s, more, p);
  }

  lemma ScanItemLonger(t: string, more: string)
    requires ScanItem(t).Some? && ScanItem(t).value.1 != "" && ScanItem(t).value.1[0] != '-'
    ensures ScanItem(t + more) == Some((ScanItem(t).value.0, ScanItem(t).value.1 + more))
  {
    hide Span, WellFormedItem;
    SpanSplit(t, more, IsDigit);
    var u := t[Span(t, IsDigit)..];
    assert (u + more)[1..] == u[1..] + more;
    if u[0] == '-' {
      SpanSplit(u[1..], more, IsDigit);
    }
  }

  lemma {:induction false} ScanItemsLonger(t: string, more: string)
    requires ScanItems(t).Some?
    ensures ScanItems(t + more) == Some((ScanItems(t).value.0, ScanItems(t).value.1 + more))
    decreases |t|
  {
    hide ScanItem, WellFormedItem;
    var u := ScanItem(t).value.1;
    ScanItemLonger(t, more);
    assert (u + more)[0] == u[0] && (u + more)[1..] == u[1..] + more;
    if u[0] != ',' {
    } else {
      ScanItemsLonger(u[1..], more);
    }
  }

  /** A match does not change when a delimiter and more input follow, unless the input stopped inside a bracket. */
  lemma ScanLonger(s: string, more: string)
    requires more != "" && IsDelimiter(more[0]) && Scan(s).Some?
    requires Scan(s).value.1 == "" || Scan(s).value.1[0] != '['
    ensures Scan(s + more) == Some((Scan(s).value.0, Scan(s).value.1 + more))
  {
    hide Span, ScanRanges, WellFormed;
    SpanSplit(s, more, IsDelimiter);
    var t := s[Span(s, IsDelimiter)..];
    SpanSplit(t, more, IsDns);
    var p := Span(t, IsDns);
    RangesLonger(t[..p], t[p..], more);
  }

  lemma RangesLonger(prefix: string, t: string, more: string)
    requires prefix != "" && All(prefix, IsDns) && more != "" && IsDelimiter(more[0])
    requires ScanRanges(prefix, t).1 == "" || ScanRanges(prefix, t).1[0] != '['
    ensures ScanRanges(prefix, t + more) == (ScanRanges(prefix, t).0, ScanRanges(prefix, t).1 + more)
  {
    hide Span, ScanItems, WellFormed;
    if t != "" && t[0] == '[' {
      ScanItemsLonger(t[1..], more);
      assert (t + more)[1..] == t[1..] + more;
      SpanSplit(ScanItems(t[1..]).value.1, more, IsDns);
    }
  }

  lemma {:induction false} SpanSkip(x: string, s: string, p: char -> bool)
    requires All(x, p)
    ensures Span(x + s, p) == |x| + Span(s, p)
  {
    if x == "" {
      assert x + s == s;
    } else {
      assert (x + s)[1..] == x[1..] + s;
      SpanSkip(x[1..], s, p);
    }
  }

  /** More delimiters in front change nothing. */
  lemma ScanDelimiters(sep: string, s: string)
    requires All(sep, IsDelimiter)
    ensures Scan(sep + s) == Scan(s)
  {
    hide ScanRanges, Span;
    SpanSkip(sep, s, IsDelimiter);
    assert (sep + s)[|sep| + Span(s, IsDelimiter)..] == s[Span(s, IsDelimiter)..];
  }
}
