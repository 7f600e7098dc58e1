/** Values shared by every part of the model. */
module Common {

  datatype Option<+T> = None | Some(value: T)

  /** The error values the code compares against, and every other error. */
  datatype Error =
    | Canceled
    | DeadlineExceeded
    | NotFound
    | AlreadyExists
    | NoRows
    | Other(code: int)

  datatype Result<+T> = Ok(value: T) | Err(error: Error)

  function ToSet<T>(s: seq<T>): set<T> {
    set x | x in s
  }

  predicate NoDup<T(==)>(s: seq<T>) {
    forall i, j :: 0 <= i < j < |s| ==> s[i] != s[j]
  }

  function Min(a: int, b: int): int {
    if a < b then a else b
  }

  lemma {:induction false} NoDupCardinality<T>(s: seq<T>)
    requires NoDup(s)
    ensures |ToSet(s)| == |s|
  {
    if s == [] {
    } else {
      var front, x := s[..|s| - 1], s[|s| - 1];
      NoDupCardinality(front);
      assert ToSet(s) == ToSet(front) + {x};
      assert x !in ToSet(front);
    }
  }

  lemma {:induction false} SetOfSeqBound<T>(s: seq<T>)
    ensures |ToSet(s)| <= |s|
  {
    if s == [] {
    } else {
      var front, x := s[..|s| - 1], s[|s| - 1];
      SetOfSeqBound(front);
      assert ToSet(s) == ToSet(front) + {x};
    }
  }

  lemma SubsetCardinality<T>(a: set<T>, b: set<T>)
    requires a <= b
    ensures |a| <= |b|
    ensures |a| == |b| ==> a == b
  {
    assert b == a + (b - a);
    assert |b| == |a| + |b - a|;
  }
}
