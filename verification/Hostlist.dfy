/**
 Expansion of host lists into sorted lists of host names.

 Numbers are unsigned 64-bit: a longer numeral is read as the largest number. A range
 that ends there never ends, because its counter wraps around; that outcome has its own value.
 */
module Hostlist {
  import opened Numerals
  import opened Names
  import opened HostGrammar
  import opened Options

  const MAX: nat := 0xFFFF_FFFF_FFFF_FFFF

  datatype Outcome = Hosts(names: seq<string>) | Malformed | Diverges

  function ParseUint(t: string): nat
    requires Digits(t)
  {
    if Value(t) > MAX then MAX else Value(t)
  }

  // ----- what the names of an expression are -----

  /** The text t is a number of the item: one of its width if the ends agree in width, and one without leading zeros if not. */
  predicate InItem(item: Item, t: string)
    requires WellFormedItem(item)
  {
    match item
    case Single(n) => t == n
    case Range(s, e) =>
      && Digits(t) && t != "" && Value(s) <= Value(t) <= Value(e)
      && (if |s| == |e| then |t| == |s| else t[0] != '0')
  }

  /** name has a number of the item between the prefix and the suffix. */
  ghost predicate ItemDenotes(h: Host, item: Item, name: string)
    requires WellFormedItem(item)
  {
    exists t :: InItem(item, t) && name == h.prefix + t + h.suffix
  }

  /** name is one of the hosts that h stands for. */
  ghost predicate Denotes(h: Host, name: string)
    requires WellFormed(h)
  {
    if h.items == [] then name == h.prefix
    else exists i :: 0 <= i < |h.items| && ItemDenotes(h, h.items[i], name)
  }

  /** Whether the package accepts the ends of a range. */
  predicate Acceptable(item: Item)
    requires WellFormedItem(item)
  {
    item.Range? ==>
      && Value(item.start) <= Value(item.end) < MAX
      && (|item.start| == |item.end| || (item.start[0] != '0' && item.end[0] != '0'))
  }

  // ----- the expansion as a function -----

  /** Adds names in front of a later outcome. */
  function Prepend(l: seq<string>, o: Outcome): Outcome {
    if o.Hosts? then Hosts(l + o.names) else o
  }

  function Number(padded: bool, width: nat, i: nat): string {
    if padded then Pad(i, width) else Decimal(i)
  }

  function Numbers(h: Host, padded: bool, width: nat, first: nat, end: nat): (l: seq<string>)
    requires first <= end
    ensures |l| == end - first
    decreases end - first
  {
    if first == end then []
    else [h.prefix + Number(padded, width, first) + h.suffix] + Numbers(h, padded, width, first + 1, end)
  }

  function ExpandItem(h: Host, item: Item): Outcome
    requires WellFormedItem(item)
  {
    match item
    case Single(t) => Hosts([h.prefix + t + h.suffix])
    case Range(s, e) =>
      var first, last := ParseUint(s), ParseUint(e);
      if first > last then Malformed
      else if |s| != |e| && (s[0] == '0' || e[0] == '0') then Malformed
      else if last == MAX then Diverges
      else Hosts(Numbers(h, |s| == |e|, |s|, first, last + 1))
  }

  function ExpandItems(h: Host, items: seq<Item>): Outcome
    requires forall i :: 0 <= i < |items| ==> WellFormedItem(items[i])
  {
    if items == [] then Hosts([])
    else
      match ExpandItem(h, items[0])
      case Hosts(l) => Prepend(l, ExpandItems(h, items[1..]))
      case other => other
  }

  function ExpandHost(h: Host): Outcome
    requires WellFormed(h)
  {
    if h.items == [] then Hosts([h.prefix]) else ExpandItems(h, h.items)
  }

  /** The names of all matches, in the order in which they are found. */
  function Collect(s: string): Outcome
    decreases |s|
  {
    if s == "" then Hosts([])
    else
      match Scan(s)
      case None => Malformed
      case Some((h, rest)) =>
        match ExpandHost(h)
        case Hosts(l) => Prepend(l, Collect(rest))
        case other => other
  }

  function Expansion(s: string): Outcome {
    match Collect(s)
    case Hosts(l) => Hosts(SortedSet(l))
    case other => other
  }

  // ----- the loops -----

  method ExpandRange(h: Host, s: string, e: string, result: seq<string>) returns (r: Outcome)
    requires WellFormedItem(Range(s, e))
    ensures r == Prepend(result, ExpandItem(h, Range(s, e)))
  {
    var first, last := ParseUint(s), ParseUint(e);
    if first > last { return Malformed; }
    var doPadding := |s| == |e|;
    if !doPadding && (s[0] == '0' || e[0] == '0') { return Malformed; }
    if last == MAX { return Diverges; }
    var names, i := result, first;
    while i <= last
      invariant first <= i <= last + 1
      invariant names + Numbers(h, doPadding, |s|, i, last + 1) == result + Numbers(h, doPadding, |s|, first, last + 1)
    {
      names := names + [h.prefix + Number(doPadding, |s|, i) + h.suffix];
      i := i + 1;
    }
    r := Hosts(names);
  }

  method ExpandBracket(h: Host, result: seq<string>) returns (r: Outcome)
    requires WellFormed(h)
    ensures r == Prepend(result, ExpandItems(h, h.items))
  {
    hide ExpandItem, WellFormedItem;
    var names, i := result, 0;
    while i < |h.items|
      invariant 0 <= i <= |h.items|
      invariant Prepend(result, ExpandItems(h, h.items)) == Prepend(names, ExpandItems(h, h.items[i..]))
    {
      ghost var before := names;
      match h.items[i] {
        case Single(t) =>
          names := names + [h.prefix + t + h.suffix];
          ExpandSingle(h, t);
        case Range(s, e) =>
          assert WellFormedItem(h.items[i]);
          var ranged := ExpandRange(h, s, e, names);
          if !ranged.Hosts? { return ranged; }
          names := ranged.names;
      }
      assert h.items[i..][1..] == h.items[i + 1..];
      var l := ExpandItem(h, h.items[i]);
      PrependTwice(before, l.names, ExpandItems(h, h.items[i + 1..]));
      i := i + 1;
    }
    r := Hosts(names);
  }

  lemma ExpandSingle(h: Host, t: string)
    requires WellFormedItem(Single(t))
    ensures ExpandItem(h, Single(t)) == Hosts([h.prefix + t + h.suffix])
  {
  }

  lemma PrependTwice(a: seq<string>, b: seq<string>, o: Outcome)
    ensures Prepend(a, Prepend(b, o)) == Prepend(a + b, o)
  {
    if o.Hosts? {
      assert a + (b + o.names) == a + b + o.names;
    }
  }

  method Expand(input: string) returns (r: Outcome)
    ensures r == Expansion(input)
  {
    hide ExpandItems, Scan, WellFormed, SortedSet;
    var rest, result := input, [];
    while |rest| > 0
      invariant Collect(input) == Prepend(result, Collect(rest))
    {
      var v := Scan(rest);
      if v.None? { return Malformed; }
      var h := v.value.0;
      ghost var before := result;
      if h.items == [] {
        result := result + [h.prefix];
      } else {
        var ranged := ExpandBracket(h, result);
        if !ranged.Hosts? { return ranged; }
        result := ranged.names;
      }
      rest := v.value.1;
      PrependTwice(before, ExpandHost(h).names, Collect(rest));
    }
    assert result + [] == result;
    r := Hosts(SortedSet(result));
  }

  // ----- the meaning of the result -----

  /** A range yields every number from its start to its end, the first and the last one spelled as its ends are. */
  lemma RangeNumbers(s: string, e: string, i: nat)
    requires WellFormedItem(Range(s, e)) && Acceptable(Range(s, e)) && Value(s) <= i <= Value(e)
    ensures var t := Number(|s| == |e|, |s|, i);
            InItem(Range(s, e), t) && Value(t) == i && (i == Value(s) ==> t == s) && (i == Value(e) ==> t == e)
  {
    if |s| == |e| {
      PadValue(i, |s|);
      PadRestores(e, i);
      if i == Value(s) {
        PadRestores(s, i);
      }
    } else {
      DecimalCanonical(s);
      DecimalCanonical(e);
      DecimalValue(i);
    }
  }

  /** Every number text of a range is the one that is printed for its value. */
  lemma NumberText(s: string, e: string, t: string)
    requires WellFormedItem(Range(s, e)) && InItem(Range(s, e), t)
    ensures t == Number(|s| == |e|, |s|, Value(t))
  {
    if |s| == |e| {
      PadRestores(t, Value(t));
    } else {
      DecimalCanonical(t);
    }
  }

  lemma {:induction false} NumbersAt(h: Host, padded: bool, width: nat, first: nat, end: nat, k: nat)
    requires first <= end && k < end - first
    ensures Numbers(h, padded, width, first, end)[k] == h.prefix + Number(padded, width, first + k) + h.suffix
    decreases k
  {
    hide Number;
    if k == 0 {
    } else {
      NumbersAt(h, padded, width, first + 1, end, k - 1);
    }
  }

  lemma Affixes(prefix: string, t: string, u: string, suffix: string)
    requires prefix + t + suffix == prefix + u + suffix
    ensures t == u
  {
    var x, y := prefix + t + suffix, prefix + u + suffix;
    assert |t| == |u|;
    assert t == x[|prefix|..|prefix| + |t|] && u == y[|prefix|..|prefix| + |u|];
  }

  function NumberName(h: Host, s: string, e: string, i: nat): string {
    h.prefix + Number(|s| == |e|, |s|, i) + h.suffix
  }

  lemma AcceptedItem(h: Host, s: string, e: string)
    requires WellFormedItem(Range(s, e)) && Acceptable(Range(s, e))
    ensures ExpandItem(h, Range(s, e)) == Hosts(Numbers(h, |s| == |e|, |s|, Value(s), Value(e) + 1))
  {
    hide Numbers, Value;
  }

  /** The list of names of an accepted range. */
  lemma RangeNames(h: Host, s: string, e: string)
    requires WellFormedItem(Range(s, e)) && Acceptable(Range(s, e))
    ensures var o := ExpandItem(h, Range(s, e));
            && o.Hosts? && |o.names| == Value(e) - Value(s) + 1
            && forall k :: 0 <= k < |o.names| ==> o.names[k] == NumberName(h, s, e, Value(s) + k)
  {
    hide ExpandItem, Value, Number, Numbers;
    AcceptedItem(h, s, e);
    var l := Numbers(h, |s| == |e|, |s|, Value(s), Value(e) + 1);
    forall k | 0 <= k < |l| ensures l[k] == NumberName(h, s, e, Value(s) + k) {
      NumbersAt(h, |s| == |e|, |s|, Value(s), Value(e) + 1, k);
    }
  }

  lemma NumberNameEnds(h: Host, s: string, e: string)
    requires WellFormedItem(Range(s, e)) && Acceptable(Range(s, e))
    ensures NumberName(h, s, e, Value(s)) == h.prefix + s + h.suffix
    ensures NumberName(h, s, e, Value(e)) == h.prefix + e + h.suffix
  {
    RangeNumbers(s, e, Value(s));
    RangeNumbers(s, e, Value(e));
  }

  lemma NumberNamesDiffer(h: Host, s: string, e: string, i: nat, j: nat)
    requires WellFormedItem(Range(s, e)) && Acceptable(Range(s, e)) && Value(s) <= i < j <= Value(e)
    ensures NumberName(h, s, e, i) != NumberName(h, s, e, j)
  {
    hide Number, InItem;
    RangeNumbers(s, e, i);
    RangeNumbers(s, e, j);
    if NumberName(h, s, e, i) == NumberName(h, s, e, j) {
      Affixes(h.prefix, Number(|s| == |e|, |s|, i), Number(|s| == |e|, |s|, j), h.suffix);
    }
  }

  lemma NumberNameLength(h: Host, s: string, e: string, i: nat)
    requires WellFormedItem(Range(s, e)) && Acceptable(Range(s, e)) && Value(s) <= i <= Value(e) && |s| == |e|
    ensures |NumberName(h, s, e, i)| == |h.prefix| + |s| + |h.suffix|
  {
    RangeNumbers(s, e, i);
  }

  /** An accepted range gives end - start + 1 different names, from the literal start to the literal end. */
  lemma RangeExact(h: Host, s: string, e: string)
    requires WellFormedItem(Range(s, e)) && Acceptable(Range(s, e))
    ensures ExpandItem(h, Range(s, e)).Hosts?
    ensures var l := ExpandItem(h, Range(s, e)).names;
            && |l| == Value(e) - Value(s) + 1
            && l[0] == h.prefix + s + h.suffix && l[|l| - 1] == h.prefix + e + h.suffix
            && (forall i, j :: 0 <= i < j < |l| ==> l[i] != l[j])
            && (|s| == |e| ==> forall i :: 0 <= i < |l| ==> |l[i]| == |h.prefix| + |s| + |h.suffix|)
  {
    hide ExpandItem, NumberName, Value;
    RangeNames(h, s, e);
    NumberNameEnds(h, s, e);
    var l := ExpandItem(h, Range(s, e)).names;
    forall i, j | 0 <= i < j < |l| ensures l[i] != l[j] {
      NumberNamesDiffer(h, s, e, Value(s) + i, Value(s) + j);
    }
    if |s| == |e| {
      forall i | 0 <= i < |l| ensures |l[i]| == |h.prefix| + |s| + |h.suffix| {
        NumberNameLength(h, s, e, Value(s) + i);
      }
    }
  }

  lemma NumberNameDenoted(h: Host, s: string, e: string, i: nat)
    requires WellFormedItem(Range(s, e)) && Acceptable(Range(s, e)) && Value(s) <= i <= Value(e)
    ensures ItemDenotes(h, Range(s, e), NumberName(h, s, e, i))
  {
    hide Value, Number, InItem;
    RangeNumbers(s, e, i);
  }

  lemma DenotedNumber(h: Host, s: string, e: string, name: string) returns (i: nat)
    requires WellFormedItem(Range(s, e)) && ItemDenotes(h, Range(s, e), name)
    ensures Value(s) <= i <= Value(e) && name == NumberName(h, s, e, i)
  {
    hide Value, Number;
    var t :| InItem(Range(s, e), t) && name == h.prefix + t + h.suffix;
    NumberText(s, e, t);
    i := Value(t);
  }

  /** The names of an accepted range are those it denotes. */
  lemma RangeMeaning(h: Host, s: string, e: string, name: string)
    requires WellFormedItem(Range(s, e)) && Acceptable(Range(s, e))
    ensures ExpandItem(h, Range(s, e)).Hosts?
    ensures name in ExpandItem(h, Range(s, e)).names <==> ItemDenotes(h, Range(s, e), name)
  {
    hide ExpandItem, NumberName, ItemDenotes, Value;
    RangeNames(h, s, e);
    var l := ExpandItem(h, Range(s, e)).names;
    if name in l {
      var k :| 0 <= k < |l| && l[k] == name;
      NumberNameDenoted(h, s, e, Value(s) + k);
    }
    if ItemDenotes(h, Range(s, e), name) {
      var i := DenotedNumber(h, s, e, name);
      assert name == l[i - Value(s)];
    }
  }

  /** One item is accepted exactly when its ends are, and gives exactly the names that it denotes. */
  lemma ItemMeaning(h: Host, item: Item, name: string)
    requires WellFormedItem(item)
    ensures ExpandItem(h, item).Hosts? <==> Acceptable(item)
    ensures Acceptable(item) ==> (name in ExpandItem(h, item).names <==> ItemDenotes(h, item, name))
  {
    if item.Range? {
      if Acceptable(item) {
        RangeMeaning(h, item.start, item.end, name);
      }
    } else {
      assert InItem(item, item.text);
    }
  }

  lemma {:induction false} ItemsMeaning(h: Host, items: seq<Item>, name: string)
    requires forall i :: 0 <= i < |items| ==> WellFormedItem(items[i])
    ensures ExpandItems(h, items).Hosts? <==> forall i :: 0 <= i < |items| ==> Acceptable(items[i])
    ensures ExpandItems(h, items).Hosts? ==>
      (name in ExpandItems(h, items).names <==> exists i :: 0 <= i < |items| && ItemDenotes(h, items[i], name))
  {
    hide ExpandItem, WellFormedItem, InItem, Acceptable;
    if items == [] {
    } else {
      ItemMeaning(h, items[0], name);
      ItemsMeaning(h, items[1..], name);
      assert forall i :: 1 <= i < |items| ==> items[i] == items[1..][i - 1];
      assert forall i :: 0 <= i < |items| - 1 ==> items[1..][i] == items[i + 1];
      if i :| 0 <= i < |items[1..]| && ItemDenotes(h, items[1..][i], name) {
        assert ItemDenotes(h, items[i + 1], name);
      }
      if i :| 0 <= i < |items| && ItemDenotes(h, items[i], name) {
        assert i == 0 || ItemDenotes(h, items[1..][i - 1], name);
      }
    }
  }

  ghost predicate AllAcceptable(h: Host)
    requires WellFormed(h)
  {
    forall i :: 0 <= i < |h.items| ==> Acceptable(h.items[i])
  }

  lemma HostMeaning(h: Host, name: string)
    requires WellFormed(h)
    ensures ExpandHost(h).Hosts? <==> AllAcceptable(h)
    ensures AllAcceptable(h) ==> (name in ExpandHost(h).names <==> Denotes(h, name))
  {
    hide ExpandItem, WellFormedItem, InItem, Acceptable, ExpandItems;
    ItemsMeaning(h, h.items, name);
  }

  /** The host expressions of an input. */
  function Parse(s: string): (r: Option<seq<Host>>)
    ensures r.Some? ==> forall k :: 0 <= k < |r.value| ==> WellFormed(r.value[k])
    decreases |s|
  {
    if s == "" then Some([])
    else
      match Scan(s)
      case None => None
      case Some((h, rest)) =>
        match Parse(rest)
        case None => None
        case Some(hosts) => Some([h] + hosts)
  }

  ghost predicate Accepted(s: string) {
    Parse(s).Some? && forall k :: 0 <= k < |Parse(s).value| ==> AllAcceptable(Parse(s).value[k])
  }

  ghost predicate Denoted(s: string, name: string)
    requires Parse(s).Some?
  {
    exists k :: 0 <= k < |Parse(s).value| && Denotes(Parse(s).value[k], name)
  }

  lemma {:induction false} CollectMeaning(s: string, name: string)
    ensures Collect(s).Hosts? <==> Accepted(s)
    ensures Accepted(s) ==> (name in Collect(s).names <==> Denoted(s, name))
    decreases |s|
  {
    hide Scan, WellFormed, ExpandHost, AllAcceptable, Denotes;
    if s == "" || Scan(s).None? {
    } else {
      var (h, rest) := Scan(s).value;
      HostMeaning(h, name);
      CollectMeaning(rest, name);
      if Parse(rest).Some? {
        var hosts := Parse(s).value;
        assert hosts[0] == h && hosts[1..] == Parse(rest).value;
        assert forall k :: 1 <= k < |hosts| ==> hosts[k] == hosts[1..][k - 1];
        assert forall k :: 0 <= k < |hosts| - 1 ==> hosts[1..][k] == hosts[k + 1];
        if k :| 0 <= k < |hosts[1..]| && Denotes(hosts[1..][k], name) {
          assert Denotes(hosts[k + 1], name);
        }
      }
    }
  }

  /**
   The expansion succeeds exactly for an input that parses and whose ranges are acceptable, and
   is then the strictly increasing list of the names that its host expressions denote.
   */
  lemma ExpansionMeaning(s: string, name: string)
    ensures Expansion(s).Hosts? <==> Accepted(s)
    ensures Accepted(s) ==> Increasing(Expansion(s).names) && (name in Expansion(s).names <==> Denoted(s, name))
    ensures Accepted(s) ==> forall i, j :: 0 <= i < j < |Expansion(s).names| ==> Less(Expansion(s).names[i], Expansion(s).names[j])
  {
    hide Collect, Accepted, Denoted, SortedSet;
    CollectMeaning(s, name);
    if Accepted(s) {
      SortedSetIs(Collect(s).names);
      var l := Expansion(s).names;
      forall i, j | 0 <= i < j < |l| ensures Less(l[i], l[j]) {
        IncreasingAt(l, i, j);
      }
    }
  }

  // ----- endless ranges -----

  /** The counter of a range loop after n rounds; it wraps around. */
  function Counter(first: nat, n: nat): nat {
    if n == 0 then first else (Counter(first, n - 1) + 1) % (MAX + 1)
  }

  lemma {:induction false} CounterValue(first: nat, n: nat)
    requires first <= MAX
    ensures Counter(first, n) <= MAX
    ensures first + n <= MAX ==> Counter(first, n) == first + n
  {
    if n == 0 {
    } else {
      CounterValue(first, n - 1);
    }
  }

  /** The guard of the range loop holds in every round, so that the loop never ends, exactly if the range ends at the largest number. */
  lemma LoopNeverEnds(first: nat, last: nat)
    requires first <= last <= MAX
    ensures (forall n: nat :: Counter(first, n) <= last) <==> last == MAX
  {
    if last == MAX {
      forall n: nat ensures Counter(first, n) <= last {
        CounterValue(first, n);
      }
    } else {
      CounterValue(first, last + 1 - first);
      assert Counter(first, last + 1 - first) == last + 1;
    }
  }

  /** A range that is not refused and whose loop never ends. */
  predicate Endless(item: Item)
    requires WellFormedItem(item)
  {
    && item.Range?
    && ParseUint(item.start) <= ParseUint(item.end) && Value(item.end) >= MAX
    && (|item.start| == |item.end| || (item.start[0] != '0' && item.end[0] != '0'))
  }

  lemma ItemEndless(h: Host, item: Item)
    requires WellFormedItem(item)
    ensures ExpandItem(h, item).Diverges? <==> Endless(item)
    ensures ExpandItem(h, item).Hosts? <==> Acceptable(item)
  {
    hide Numbers, Value;
  }

  ghost predicate AllWellFormed(items: seq<Item>) {
    forall i :: 0 <= i < |items| ==> WellFormedItem(items[i])
  }

  ghost predicate AllOk(items: seq<Item>)
    requires AllWellFormed(items)
  {
    forall i :: 0 <= i < |items| ==> Acceptable(items[i])
  }

  /** The first item that is not acceptable is an endless range. */
  ghost predicate FirstEndless(items: seq<Item>)
    requires AllWellFormed(items)
  {
    exists k :: 0 <= k < |items| && Endless(items[k]) && AllOk(items[..k])
  }

  lemma AllOkConcat(a: seq<Item>, b: seq<Item>)
    requires AllWellFormed(a) && AllWellFormed(b)
    ensures AllWellFormed(a + b) && (AllOk(a + b) <==> AllOk(a) && AllOk(b))
  {
    hide Acceptable, WellFormedItem;
    var c := a + b;
    assert forall i :: 0 <= i < |a| ==> c[i] == a[i];
    assert forall i :: 0 <= i < |b| ==> c[|a| + i] == b[i];
  }

  /** Position k of a + b, in a or in b. */
  lemma ConcatAt(a: seq<Item>, b: seq<Item>, k: nat)
    requires AllWellFormed(a) && AllWellFormed(b) && k < |a| + |b|
    ensures AllWellFormed(a + b)
    ensures k < |a| ==> (a + b)[k] == a[k] && (AllOk((a + b)[..k]) <==> AllOk(a[..k]))
    ensures k >= |a| ==> (a + b)[k] == b[k - |a|] && (AllOk((a + b)[..k]) <==> AllOk(a) && AllOk(b[..k - |a|]))
  {
    hide AllOk, WellFormedItem;
    if k < |a| {
      assert (a + b)[..k] == a[..k];
    } else {
      assert (a + b)[..k] == a + b[..k - |a|];
      AllOkConcat(a, b[..k - |a|]);
    }
  }

  lemma FirstEndlessConcat(a: seq<Item>, b: seq<Item>)
    requires AllWellFormed(a) && AllWellFormed(b)
    ensures AllWellFormed(a + b)
    ensures FirstEndless(a + b) <==> FirstEndless(a) || (AllOk(a) && FirstEndless(b))
  {
    hide AllOk, Endless, WellFormedItem;
    AllOkConcat(a, b);
    if k :| 0 <= k < |a + b| && Endless((a + b)[k]) && AllOk((a + b)[..k]) {
      ConcatAt(a, b, k);
    }
    if k :| 0 <= k < |a| && Endless(a[k]) && AllOk(a[..k]) {
      ConcatAt(a, b, k);
    }
    if k :| 0 <= k < |b| && Endless(b[k]) && AllOk(b[..k]) {
      ConcatAt(a, b, |a| + k);
    }
  }

  lemma {:induction false} ItemsEndless(h: Host, items: seq<Item>)
    requires AllWellFormed(items)
    ensures ExpandItems(h, items).Diverges? <==> FirstEndless(items)
    ensures ExpandItems(h, items).Hosts? <==> AllOk(items)
  {
    hide ExpandItem, Acceptable, Endless, FirstEndless, WellFormedItem;
    if items == [] {
      OneEndless([]);
    } else {
      var first := [items[0]];
      ItemEndless(h, items[0]);
      OneEndless(first);
      ItemsEndless(h, items[1..]);
      FirstEndlessConcat(first, items[1..]);
      AllOkConcat(first, items[1..]);
      assert items == first + items[1..];
    }
  }

  lemma OneEndless(items: seq<Item>)
    requires AllWellFormed(items) && |items| <= 1
    ensures FirstEndless(items) <==> |items| == 1 && Endless(items[0])
    ensures AllOk(items) <==> items == [] || Acceptable(items[0])
  {
    if |items| == 1 {
      assert items[..0] == [];
    }
  }

  /** The items of all host expressions in the order in which they are found, up to where the input stops matching. */
  function Found(s: string): (items: seq<Item>)
    ensures AllWellFormed(items)
    decreases |s|
  {
    if s == "" then []
    else
      match Scan(s)
      case None => []
      case Some((h, rest)) => h.items + Found(rest)
  }

  /** The expansion never ends exactly if the first item that is not acceptable is an endless range, whatever comes after it. */
  lemma {:induction false} ExpansionEndless(s: string)
    ensures Expansion(s).Diverges? <==> FirstEndless(Found(s))
    decreases |s|
  {
    hide Scan, ExpandItems, FirstEndless, AllWellFormed, AllOk, SortedSet, WellFormed;
    OneEndless([]);
    if s == "" {
    } else if Scan(s).Some? {
      var (h, rest) := Scan(s).value;
      HostItems(h);
      ItemsEndless(h, h.items);
      ExpansionEndless(rest);
      FirstEndlessConcat(h.items, Found(rest));
    }
  }

  lemma HostItems(h: Host)
    requires WellFormed(h)
    ensures AllWellFormed(h.items) && (h.items == [] ==> ExpandItems(h, h.items) == Hosts([]) && AllOk(h.items))
  {
  }

  const LARGEST := "18446744073709551615"

  /** A list that never ends: n[18446744073709551615-18446744073709551615]. */
  lemma EndlessList()
    ensures Expansion("n[" + LARGEST + "-" + LARGEST + "]").Diverges?
  {
    LargestNumeral();
    hide Value, Digits;
    EndlessRange(LARGEST);
  }

  /** Any range from a numeral of the largest number to itself. */
  lemma EndlessRange(m: string)
    requires m != "" && Digits(m) && Value(m) == MAX
    ensures Expansion("n[" + m + "-" + m + "]").Diverges?
  {
    hide Value, Scan, ExpandItem, SortedSet;
    var h := Host("n", [Range(m, m)], "");
    assert "" + (Print(h) + "") == "n[" + m + "-" + m + "]";
    EndsBefore(h, "");
    ScanPrinted("", h, "");
    ItemEndless(h, Range(m, m));
  }

  lemma LargestNumeral()
    ensures Digits(LARGEST) && Value(LARGEST) == MAX
  {
    assert Digits("") && Value("") == 0;
    hide Value, Digits;
    FourDigits("", '1', '8', '4', '4');
    assert "" + ['1', '8', '4', '4'] == "1844";
    FourDigits("1844", '6', '7', '4', '4');
    assert "1844" + ['6', '7', '4', '4'] == "18446744";
    FourDigits("18446744", '0', '7', '3', '7');
    assert "18446744" + ['0', '7', '3', '7'] == "184467440737";
    FourDigits("184467440737", '0', '9', '5', '5');
    assert "184467440737" + ['0', '9', '5', '5'] == "1844674407370955";
    FourDigits("1844674407370955", '1', '6', '1', '5');
    assert "1844674407370955" + ['1', '6', '1', '5'] == LARGEST;
  }

  // ----- union -----

  lemma BracketStops(s: string)
    requires s != "" && s[0] == '['
    ensures Scan(s).None?
  {
    assert Span(s, IsDelimiter) == 0 && s[0..] == s;
  }

  lemma {:induction false} CollectLonger(a: string, more: string)
    requires Collect(a).Hosts? && more != "" && IsDelimiter(more[0])
    ensures Collect(a + more) == Prepend(Collect(a).names, Collect(more))
    decreases |a|
  {
    hide Scan, WellFormed, ExpandHost;
    if a == "" {
      assert a + more == more;
    } else {
      var (h, rest) := Scan(a).value;
      if rest != "" && rest[0] == '[' {
        BracketStops(rest);
      }
      ScanLonger(a, more);
      CollectLonger(rest, more);
      PrependTwice(ExpandHost(h).names, Collect(rest).names, Collect(more));
    }
  }

  lemma CollectDelimiters(sep: string, b: string)
    requires sep != "" && All(sep, IsDelimiter)
    ensures Collect(sep + b) == if b == "" then Malformed else Collect(b)
  {
    ScanDelimiters(sep, b);
    if b == "" {
      assert Scan("").None?;
    }
  }

  /**
   Joining a valid list by any delimiters with any other non-empty input: the outcome is that
   of the second input, with the names of both merged into one strictly increasing list.
   */
  lemma UnionLaw(a: string, sep: string, b: string, name: string)
    requires Expansion(a).Hosts? && b != "" && sep != "" && All(sep, IsDelimiter)
    ensures var ab, eb := Expansion(a + sep + b), Expansion(b);
            if eb.Hosts? then
              ab.Hosts? && Increasing(ab.names)
              && (name in ab.names <==> name in Expansion(a).names || name in eb.names)
            else ab == eb
  {
    hide Collect, SortedSet;
    assert a + sep + b == a + (sep + b);
    CollectLonger(a, sep + b);
    CollectDelimiters(sep, b);
    SortedSetIs(Collect(a).names);
    if Collect(b).Hosts? {
      SortedSetIs(Collect(b).names);
      SortedSetIs(Collect(a).names + Collect(b).names);
    }
  }

  /** Commas and spaces after a valid list make it invalid. */
  lemma TrailingDelimiters(a: string, sep: string)
    requires Expansion(a).Hosts? && sep != "" && All(sep, IsDelimiter)
    ensures Expansion(a + sep) == Malformed
  {
    hide Collect, SortedSet;
    CollectLonger(a, sep);
    CollectDelimiters(sep, "");
    assert sep + "" == sep;
  }

  // ----- round trips -----

  /** Host expressions, each behind its delimiters. */
  function Spell(seps: seq<string>, hosts: seq<Host>): string
    requires |seps| == |hosts|
  {
    if hosts == [] then "" else seps[0] + (Print(hosts[0]) + Spell(seps[1..], hosts[1..]))
  }

  /** Delimiters, which only the first expression can do without. */
  predicate Separators(seps: seq<string>) {
    forall k :: 0 <= k < |seps| ==> All(seps[k], IsDelimiter) && (k > 0 ==> seps[k] != "")
  }

  /** Every list of well-formed host expressions is read back from its spelling with any delimiters. */
  lemma {:induction false} ParsePrinted(seps: seq<string>, hosts: seq<Host>)
    requires |seps| == |hosts| && Separators(seps) && forall k :: 0 <= k < |hosts| ==> WellFormed(hosts[k])
    ensures Parse(Spell(seps, hosts)) == Some(hosts)
    decreases |hosts|
  {
    hide Scan, WellFormed, Print, Ends;
    if hosts == [] {
    } else {
      var rest := Spell(seps[1..], hosts[1..]);
      if |hosts| > 1 {
        assert rest[0] == seps[1][0] && IsDelimiter(seps[1][0]);
      }
      EndsBefore(hosts[0], rest);
      ScanPrinted(seps[0], hosts[0], rest);
      ParsePrinted(seps[1..], hosts[1..]);
      assert hosts == [hosts[0]] + hosts[1..];
    }
  }

  lemma {:induction false} ParseSpelled(s: string) returns (seps: seq<string>)
    requires Parse(s).Some?
    ensures |seps| == |Parse(s).value| && Separators(seps) && s == Spell(seps, Parse(s).value)
    decreases |s|
  {
    hide Scan, Print;
    if s == "" {
      seps := [];
    } else {
      var (h, rest) := Scan(s).value;
      var delims := ScanIsPrinted(s);
      var more := ParseSpelled(rest);
      var hosts := Parse(rest).value;
      seps := [delims] + more;
      assert seps[1..] == more && ([h] + hosts)[1..] == hosts;
      if hosts != [] {
        SpellStarts(more, hosts);
      }
    }
  }

  /** A spelling without a delimiter at its front starts with a letter or digit of its first name. */
  lemma SpellStarts(seps: seq<string>, hosts: seq<Host>)
    requires |seps| == |hosts| && hosts != [] && WellFormed(hosts[0])
    ensures seps[0] == "" ==> Spell(seps, hosts) != "" && IsDns(Spell(seps, hosts)[0])
  {
    assert Print(hosts[0])[0] == hosts[0].prefix[0];
  }

  /** Exactly the inputs that parse, and as what: the spellings of well-formed expressions, with delimiters between any two. */
  lemma ParseExactly(s: string, hosts: seq<Host>)
    ensures Parse(s) == Some(hosts) <==>
      && (forall k :: 0 <= k < |hosts| ==> WellFormed(hosts[k]))
      && exists seps :: |seps| == |hosts| && Separators(seps) && s == Spell(seps, hosts)
  {
    hide Parse, WellFormed, Separators, Spell;
    if Parse(s) == Some(hosts) {
      var seps := ParseSpelled(s);
    }
    if seps :| |seps| == |hosts| && Separators(seps) && s == Spell(seps, hosts) {
      if forall k :: 0 <= k < |hosts| ==> WellFormed(hosts[k]) {
        ParsePrinted(seps, hosts);
      }
    }
  }

  /** Three numbers are no range: n[1-2-3] is malformed, whatever the name and the numbers. */
  lemma ThreeNumbers(name: string, a: string, b: string, c: string)
    requires PlainName(name) && WellFormedItem(Range(a, b)) && WellFormedItem(Single(c))
    ensures Expansion(name + ("[" + a + "-" + b + "-" + c + "]")) == Malformed
  {
    hide Scan, ScanItems, WellFormedItem;
    NoThirdNumber(a, b, c);
    UnreadBracket(name, "[" + a + "-" + b + "-" + c + "]");
  }

  lemma MalformedRange()
    ensures Expansion("n[1-2-3]") == Malformed
  {
    ThreeNumbers("n", "1", "2", "3");
    assert "n" + ("[" + "1" + "-" + "2" + "-" + "3" + "]") == "n[1-2-3]";
  }

  /** A bracket that cannot be read makes the input malformed. */
  lemma UnreadBracket(name: string, t: string)
    requires PlainName(name) && t != "" && t[0] == '[' && ScanItems(t[1..]).None?
    ensures Expansion(name + t) == Malformed
  {
    hide Scan, ScanItems;
    var h := Host(name, [], "");
    NoItemsNoBracket(t);
    assert "" + (Print(h) + t) == name + t;
    ScanPrinted("", h, t);
    BracketStops(t);
    assert Collect(t) == Malformed;
  }

  lemma NoThirdNumber(a: string, b: string, c: string)
    requires WellFormedItem(Range(a, b)) && WellFormedItem(Single(c))
    ensures ScanItems(("[" + a + "-" + b + "-" + c + "]")[1..]).None?
  {
    hide ScanItems, Digits;
    var third := "-" + c + "]";
    AfterBracket(a, b, c);
    assert third[0] == '-';
    NothingAfterRange(a, b, third);
  }

  lemma AfterBracket(a: string, b: string, c: string)
    ensures ("[" + a + "-" + b + "-" + c + "]")[1..] == a + ("-" + (b + ("-" + c + "]")))
  {
    var t := a + ("-" + (b + ("-" + c + "]")));
    assert "[" + a + "-" + b + "-" + c + "]" == "[" + t;
  }

  lemma RangeFront(a: string, b: string, third: string)
    requires WellFormedItem(Range(a, b)) && third != "" && third[0] == '-'
    ensures ScanItem(a + ("-" + (b + third))) == Some((Range(a, b), third))
  {
    var second := "-" + (b + third);
    SpanOf(a, second, IsDigit);
    SpanOf(b, third, IsDigit);
    hide Span, Digits;
    assert second[1..] == b + third;
  }

  lemma NothingAfterRange(a: string, b: string, third: string)
    requires WellFormedItem(Range(a, b)) && third != "" && third[0] == '-'
    ensures ScanItems(a + ("-" + (b + third))).None?
  {
    hide Span;
    var second := "-" + (b + third);
    RangeFront(a, b, third);
    hide ScanItem;
    assert ScanItem(a + second) == Some((Range(a, b), third));
  }

  predicate IsAllowed(c: char) { IsDns(c) || IsDelimiter(c) || c == '[' || c == ']' }

  lemma {:induction false} ItemsAllowed(items: seq<Item>)
    requires forall i :: 0 <= i < |items| ==> WellFormedItem(items[i])
    ensures All(PrintItems(items), IsAllowed)
  {
    if items == [] {
    } else {
      ItemsAllowed(items[1..]);
      assert WellFormedItem(items[0]) && All(PrintItem(items[0]), IsAllowed);
    }
  }

  lemma {:induction false} SpellAllowed(seps: seq<string>, hosts: seq<Host>)
    requires |seps| == |hosts| && Separators(seps) && forall k :: 0 <= k < |hosts| ==> WellFormed(hosts[k])
    ensures All(Spell(seps, hosts), IsAllowed)
  {
    if hosts == [] {
    } else {
      ItemsAllowed(hosts[0].items);
      assert All(seps[0], IsAllowed) && All(Print(hosts[0]), IsAllowed);
      SpellAllowed(seps[1..], hosts[1..]);
    }
  }

  /** An input with a character that no host list has is not expanded. */
  lemma ForeignCharacter(s: string, k: nat)
    requires k < |s| && !IsAllowed(s[k])
    ensures !Expansion(s).Hosts?
  {
    hide Parse, Spell, Separators, WellFormed, Collect, SortedSet;
    ExpansionMeaning(s, "");
    if Parse(s).Some? {
      var seps := ParseSpelled(s);
      SpellAllowed(seps, Parse(s).value);
    }
  }

  function Join(names: seq<string>): string {
    if names == [] then ""
    else if |names| == 1 then names[0]
    else names[0] + "," + Join(names[1..])
  }

  predicate PlainName(name: string) { name != "" && All(name, IsDns) }

  lemma {:induction false} CollectJoined(delims: string, names: seq<string>)
    requires forall k :: 0 <= k < |names| ==> PlainName(names[k])
    requires All(delims, IsDelimiter) && (names == [] ==> delims == "")
    ensures Collect(delims + Join(names)) == Hosts(names)
    decreases |names|
  {
    hide Scan;
    if names == [] {
    } else {
      var h := Host(names[0], [], "");
      var rest := if |names| == 1 then "" else "," + Join(names[1..]);
      assert delims + Join(names) == delims + (Print(h) + rest);
      EndsBefore(h, rest);
      ScanPrinted(delims, h, rest);
      if |names| > 1 {
        CollectJoined(",", names[1..]);
      }
      assert names == [names[0]] + names[1..];
    }
  }

  lemma NamesPlain(h: Host, name: string)
    requires WellFormed(h) && Denotes(h, name)
    ensures PlainName(name)
  {
    if h.items != [] {
      var i :| 0 <= i < |h.items| && ItemDenotes(h, h.items[i], name);
      var t :| InItem(h.items[i], t) && name == h.prefix + t + h.suffix;
      assert WellFormedItem(h.items[i]) && Digits(t);
      assert All(t, IsDns);
    }
  }

  /** Expanding the comma-separated result of an expansion gives the same result. */
  lemma Reexpansion(s: string)
    requires Expansion(s).Hosts?
    ensures Expansion(Join(Expansion(s).names)) == Expansion(s)
  {
    hide Collect, SortedSet, WellFormed, Denotes, Join;
    var r := Expansion(s).names;
    forall k | 0 <= k < |r| ensures PlainName(r[k]) {
      ExpansionMeaning(s, r[k]);
      var j :| 0 <= j < |Parse(s).value| && Denotes(Parse(s).value[j], r[k]);
      NamesPlain(Parse(s).value[j], r[k]);
    }
    CollectJoined("", r);
    assert "" + Join(r) == Join(r);
    SortedSetIs(r);
    SortedSetIs(Collect(s).names);
    IncreasingUnique(r, SortedSet(r));
  }
}
