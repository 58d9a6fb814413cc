/** What several modules share: parameters of kernel/param.h, an option type, and the sizes of
    finite sets. */
module Prelude {
  const MAXOPBLOCKS: nat := 10
  const LOGSIZE: nat := 30

  datatype Option<T> = None | Some(value: T)

  lemma {:induction false} SubsetCount<T>(a: set<T>, b: set<T>)
    requires a <= b
    ensures |a| <= |b|
    decreases |a|
  {
    if a != {} {
      var x :| x in a;
      SubsetCount(a - {x}, b - {x});
    }
  }

  lemma UnionCount<T>(a: set<T>, b: set<T>)
    ensures |a + b| <= |a| + |b|
  {
    assert a + b == a + (b - a);
  }

  /** The numbers below n are n numbers. */
  lemma {:induction false} RangeCount(n: nat, s: set<nat>)
    ensures (forall x :: x in s ==> x < n) ==> |s| <= n
    ensures (forall x: nat :: x < n ==> x in s) ==> n <= |s|
  {
    if n > 0 {
      RangeCount(n - 1, s - {n - 1});
    }
  }
}
