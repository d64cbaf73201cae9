/**
 Lists of names: the order of strings, sorting and removing duplicates.
 */
module Names {
  predicate Less(a: string, b: string) {
    b != "" && (a == "" || a[0] < b[0] || (a[0] == b[0] && Less(a[1..], b[1..])))
  }

  /** a comes before b exactly if it is a proper prefix of b, or has the smaller character where they first differ. */
  lemma {:induction false} LessExactly(a: string, b: string)
    ensures Less(a, b) <==> exists k: nat {:trigger a[..k]} :: k <= |a| && k < |b| && a[..k] == b[..k] && (k == |a| || a[k] < b[k])
  {
    if b == "" {
    } else if a == "" {
      assert a[..0] == b[..0];
    } else {
      LessExactly(a[1..], b[1..]);
      if a[0] < b[0] {
        assert a[..0] == b[..0];
      }
      if k: nat :| k <= |a[1..]| && k < |b[1..]| && a[1..][..k] == b[1..][..k] && (k == |a[1..]| || a[1..][k] < b[1..][k]) && a[0] == b[0] {
        assert a[..k + 1] == [a[0]] + a[1..][..k] && b[..k + 1] == [b[0]] + b[1..][..k];
      }
      if k: nat :| k <= |a| && k < |b| && a[..k] == b[..k] && (k == |a| || a[k] < b[k]) && k > 0 {
        assert a[0] == a[..k][0] && b[0] == b[..k][0];
        assert a[1..][..k - 1] == a[..k][1..] && b[1..][..k - 1] == b[..k][1..];
      }
    }
  }

  lemma {:induction false} LessTransitive(a: string, b: string, c: string)
    requires Less(a, b) && Less(b, c)
    ensures Less(a, c)
  {
    if a == "" || a[0] < b[0] || b[0] < c[0] {
    } else {
      LessTransitive(a[1..], b[1..], c[1..]);
    }
  }

  lemma {:induction false} LessTotal(a: string, b: string)
    ensures Less(a, b) || a == b || Less(b, a)
    ensures !(Less(a, b) && Less(b, a)) && !Less(a, a)
  {
    if a == "" {
    } else {
      LessTotal(a[1..], a[1..]);
      if b != "" && a[0] == b[0] {
        LessTotal(a[1..], b[1..]);
        assert a == [a[0]] + a[1..] && b == [b[0]] + b[1..];
      }
    }
  }

  lemma NotLessTransitive(c: string, b: string, a: string)
    requires !Less(c, b) && !Less(b, a)
    ensures !Less(c, a)
    ensures Less(a, b) || Less(b, c) ==> Less(a, c)
  {
    LessTotal(a, b);
    LessTotal(b, c);
    LessTotal(a, c);
    if Less(a, b) && Less(b, c) {
      LessTransitive(a, b, c);
    }
  }

  predicate Increasing(l: seq<string>) {
    l == [] || ((forall y :: y in l[1..] ==> Less(l[0], y)) && Increasing(l[1..]))
  }

  predicate Ordered(l: seq<string>) {
    l == [] || ((forall y :: y in l[1..] ==> !Less(y, l[0])) && Ordered(l[1..]))
  }

  function Insert(x: string, l: seq<string>): seq<string> {
    if l == [] || !Less(l[0], x) then [x] + l else [l[0]] + Insert(x, l[1..])
  }

  function Sort(l: seq<string>): seq<string> {
    if l == [] then [] else Insert(l[0], Sort(l[1..]))
  }

  /** Drops every element that equals its successor. */
  function Compact(l: seq<string>): seq<string> {
    if |l| <= 1 then l
    else if l[0] == l[1] then Compact(l[1..])
    else [l[0]] + Compact(l[1..])
  }

  lemma {:induction false} InsertOrdered(x: string, l: seq<string>)
    requires Ordered(l)
    ensures Ordered(Insert(x, l))
    ensures forall y :: y in Insert(x, l) <==> y == x || y in l
  {
    if l == [] {
    } else if !Less(l[0], x) {
      var r := [x] + l;
      assert r[1..] == l;
      forall y | y in r[1..] ensures !Less(y, r[0]) {
        assert y == l[0] || y in l[1..];
        if y in l[1..] {
          NotLessTransitive(y, l[0], x);
        }
      }
    } else {
      InsertOrdered(x, l[1..]);
      var r := [l[0]] + Insert(x, l[1..]);
      assert r[1..] == Insert(x, l[1..]);
      LessTotal(l[0], x);
      assert forall y :: y in l <==> y == l[0] || y in l[1..];
    }
  }

  lemma {:induction false} SortOrders(l: seq<string>)
    ensures Ordered(Sort(l))
    ensures forall y :: y in Sort(l) <==> y in l
  {
    if l == [] {
    } else {
      SortOrders(l[1..]);
      InsertOrdered(l[0], Sort(l[1..]));
      assert forall y :: y in l <==> y == l[0] || y in l[1..];
    }
  }

  lemma {:induction false} CompactIncreases(l: seq<string>)
    requires Ordered(l)
    ensures Increasing(Compact(l))
    ensures forall y :: y in Compact(l) <==> y in l
  {
    if |l| <= 1 {
    } else {
      CompactIncreases(l[1..]);
      assert forall y :: y in l <==> y == l[0] || y in l[1..];
      if l[0] != l[1] {
        var r := [l[0]] + Compact(l[1..]);
        assert r[1..] == Compact(l[1..]);
        forall y | y in r[1..] ensures Less(l[0], y) {
          assert y == l[1] || y in l[1..][1..];
          LessTotal(l[0], l[1]);
          if y != l[1] {
            NotLessTransitive(y, l[1], l[0]);
          }
        }
      } else {
        assert l[1] in l[1..];
      }
    }
  }

  /** A strictly increasing list is determined by its members. */
  lemma {:induction false} IncreasingUnique(l: seq<string>, m: seq<string>)
    requires Increasing(l) && Increasing(m)
    requires forall y :: y in l <==> y in m
    ensures l == m
  {
    assert m != [] ==> m[0] in l;
    if l == [] {
    } else {
      assert l[0] in m;
      LessTotal(l[0], m[0]);
      assert l[0] == m[0];
      assert forall y :: y in l <==> y == l[0] || y in l[1..];
      assert forall y :: y in m <==> y == m[0] || y in m[1..];
      LessTotal(l[0], l[0]);
      IncreasingUnique(l[1..], m[1..]);
      assert l == [l[0]] + l[1..] && m == [m[0]] + m[1..];
    }
  }

  /** In a strictly increasing list every name comes before all later ones. */
  lemma {:induction false} IncreasingAt(l: seq<string>, i: nat, j: nat)
    requires Increasing(l) && i < j < |l|
    ensures Less(l[i], l[j]) && l[i] != l[j]
  {
    LessTotal(l[i], l[i]);
    if i == 0 {
      assert l[j] == l[1..][j - 1];
    } else {
      IncreasingAt(l[1..], i - 1, j - 1);
    }
  }

  function SortedSet(l: seq<string>): seq<string> { Compact(Sort(l)) }

  /** Sorting and compacting gives the one strictly increasing list with the same members. */
  lemma SortedSetIs(l: seq<string>)
    ensures Increasing(SortedSet(l))
    ensures forall y :: y in SortedSet(l) <==> y in l
  {
    SortOrders(l);
    CompactIncreases(Sort(l));
  }
}
