/** Counting a finite set through a numbering of its elements. */
module Counting {
  /** A set whose elements are numbered below `n` without repetition has at most `n` elements. */
  lemma {:induction false} InjectionBoundsSize(xs: set<int>, f: map<int, int>, n: nat)
    requires forall x :: x in xs ==> x in f && 0 <= f[x] < n
    requires forall x, y :: x in xs && y in xs && f[x] == f[y] ==> x == y
    ensures |xs| <= n
    decreases n
  {
    if n == 0 {
      assert forall x :: x !in xs;
    } else if x :| x in xs && f[x] == n - 1 {
      InjectionBoundsSize(xs - {x}, f, n - 1);
    } else {
      InjectionBoundsSize(xs, f, n - 1);
    }
  }

  function Range(n: nat): set<int> {
    if n == 0 then {} else Range(n - 1) + {n - 1}
  }

  lemma {:induction false} RangeIsRange(n: nat)
    ensures |Range(n)| == n
    ensures forall i :: i in Range(n) <==> 0 <= i < n
    decreases n
  {
    if n > 0 {
      RangeIsRange(n - 1);
    }
  }

  lemma SubsetOfSameSize(a: set<int>, b: set<int>)
    requires a <= b && |a| == |b|
    ensures a == b
  {
    assert b == a + (b - a) && |b| == |a| + |b - a|;
  }
}
