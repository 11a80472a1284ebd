// Shared vocabulary of the model: optional values, results, and the few facts
// about finite sets that several modules need.

module Wrappers {

  datatype Option<+T> = None | Some(value: T)

  datatype Result<+T, +E> = Success(value: T) | Failure(error: E)
}

module SetFacts {

  lemma {:induction false} SubsetSize<T>(a: set<T>, b: set<T>)
    requires a <= b
    ensures |a| <= |b|
  {
    if a != {} {
      var x :| x in a;
      SubsetSize(a - {x}, b - {x});
    }
  }

  lemma UnionSize<T>(a: set<T>, b: set<T>)
    ensures |a + b| <= |a| + |b|
  {
    assert a + b == a + (b - a);
    SubsetSize(b - a, b);
  }

  lemma DifferenceSize<T>(a: set<T>, b: set<T>)
    requires b <= a
    ensures |a - b| == |a| - |b|
  {
    assert a == (a - b) + b;
  }
}
