/** Facts about finite sets that several models count with. */
module Sets {
  function One(b: bool): int { if b then 1 else 0 }

  /** Some element of a set: a map is walked in no particular order. */
  method Pick<T(==)>(todo: set<T>) returns (x: T)
    requires todo != {}
    ensures x in todo
  {
    x :| x in todo;
  }

  lemma HeadIn<T>(q: seq<T>)
    ensures q != [] ==> q[0] in q
  {
  }

  /** Two sets that differ at most in t. */
  lemma Swap<T>(a: set<T>, b: set<T>, t: T)
    requires a - {t} == b - {t}
    ensures |b| == |a| - One(t in a) + One(t in b)
  {
    assert a == (a - {t}) + if t in a then {t} else {};
    assert b == (b - {t}) + if t in b then {t} else {};
  }

  lemma {:induction false} SubsetSize<T>(a: set<T>, b: set<T>)
    requires a <= b
    ensures |a| <= |b|
    ensures |a| == |b| ==> a == b
  {
    if a == {} {
      if x :| x in b {
        assert |b| == |b - {x}| + 1;
      }
    } else {
      var x :| x in a;
      SubsetSize(a - {x}, b - {x});
      assert b == b - {x} + {x};
    }
  }

  /** There is always a number not yet in use. */
  lemma {:induction false} Above(q: set<nat>) returns (n: nat)
    ensures forall x :: x in q ==> x < n
  {
    if q == {} {
      n := 0;
    } else {
      var x :| x in q;
      var m := Above(q - {x});
      n := if x < m then m else x + 1;
      assert forall y :: y in q ==> y == x || y in q - {x};
    }
  }
}
