/** Sequences read from their last element, as the folds over histories read them. */
module Sequences {

  lemma SnocEqual<T>(a: seq<T>, b: seq<T>)
    requires a != [] && b != []
    requires a[..|a| - 1] == b[..|b| - 1] && a[|a| - 1] == b[|b| - 1]
    ensures a == b
  {
    assert a == a[..|a| - 1] + [a[|a| - 1]];
    assert b == b[..|b| - 1] + [b[|b| - 1]];
  }
}
