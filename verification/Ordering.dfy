/** Names in code-point order, and the sorted listing of a finite set of them.
    The programs sort every collection of paths or identifiers before using it. */
module Ordering {

  /** A path or an identifier. */
  datatype Name = Name(text: string)

  /** Lexicographic order, as Python's and JavaScript's default string sort. */
  predicate TextLeq(a: string, b: string) {
    |a| == 0 || (|b| > 0 && (a[0] < b[0] || (a[0] == b[0] && TextLeq(a[1..], b[1..]))))
  }

  predicate Leq(a: Name, b: Name) {
    TextLeq(a.text, b.text)
  }

  lemma TextLeqTotal(a: string, b: string)
    ensures TextLeq(a, b) || TextLeq(b, a)
  {
  }

  lemma {:induction false} TextLeqAntisymmetric(a: string, b: string)
    requires TextLeq(a, b) && TextLeq(b, a)
    ensures a == b
  {
    if a != [] {
      TextLeqAntisymmetric(a[1..], b[1..]);
      assert a == [a[0]] + a[1..] && b == [b[0]] + b[1..];
    }
  }

  lemma {:induction false} TextLeqTransitive(a: string, b: string, c: string)
    requires TextLeq(a, b) && TextLeq(b, c)
    ensures TextLeq(a, c)
  {
    if a != [] && a[0] == b[0] && b[0] == c[0] {
      TextLeqTransitive(a[1..], b[1..], c[1..]);
    }
  }

  ghost predicate IsLeast(m: Name, s: set<Name>) {
    m in s && forall y :: y in s ==> Leq(m, y)
  }

  lemma {:induction false} LeastExists(s: set<Name>)
    requires s != {}
    ensures exists m :: IsLeast(m, s)
  {
    var x :| x in s;
    var rest := s - {x};
    TextLeqTotal(x.text, x.text);
    if rest == {} {
      forall y | y in s ensures Leq(x, y) {
        assert y == x || y in rest;
      }
      assert IsLeast(x, s);
    } else {
      LeastExists(rest);
      var m :| IsLeast(m, rest);
      TextLeqTotal(x.text, m.text);
      if Leq(x, m) {
        forall y | y in s ensures Leq(x, y) {
          if y != x { assert y in rest && Leq(m, y); TextLeqTransitive(x.text, m.text, y.text); }
        }
        assert IsLeast(x, s);
      } else {
        assert IsLeast(m, s);
      }
    }
  }

  lemma LeastUnique(s: set<Name>)
    ensures forall x, y :: IsLeast(x, s) && IsLeast(y, s) ==> x == y
  {
    forall x, y | IsLeast(x, s) && IsLeast(y, s) ensures x == y {
      TextLeqAntisymmetric(x.text, y.text);
    }
  }

  function Least(s: set<Name>): (m: Name)
    requires s != {}
    ensures m in s
  {
    LeastExists(s);
    LeastUnique(s);
    assert forall x :: IsLeast(x, s) <==> (x in s && forall y :: y in s ==> Leq(x, y));
    var m :| m in s && forall y :: y in s ==> Leq(m, y);
    m
  }

  /** The members of `s` in increasing order, each once. */
  function Sorted(s: set<Name>): (r: seq<Name>)
    ensures forall x :: x in r <==> x in s
  {
    if s == {} then [] else [Least(s)] + Sorted(s - {Least(s)})
  }

  lemma LeastIsLeast(s: set<Name>)
    requires s != {}
    ensures IsLeast(Least(s), s)
  {
    LeastExists(s);
    var x :| IsLeast(x, s);
  }

  lemma {:induction false} SortedIncreases(s: set<Name>)
    ensures forall i, j :: 0 <= i < j < |Sorted(s)| ==> Sorted(s)[i] != Sorted(s)[j] && Leq(Sorted(s)[i], Sorted(s)[j])
  {
    if s != {} {
      LeastIsLeast(s);
      SortedIncreases(s - {Least(s)});
      assert forall x :: x in Sorted(s - {Least(s)}) ==> Leq(Least(s), x);
    }
  }

  lemma {:induction false} SortedCount(s: set<Name>)
    ensures |Sorted(s)| == |s|
  {
    if s != {} {
      SortedCount(s - {Least(s)});
    }
  }
}
