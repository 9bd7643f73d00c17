// Counting in finite sets: the pigeonhole facts that the allocator relies on.

module Finite {

  function Range(lo: nat, hi: nat): (r: set<nat>)
    ensures forall k :: k in r <==> lo <= k < hi
    decreases hi
  {
    if lo >= hi then {} else Range(lo, hi - 1) + {hi - 1}
  }

  lemma {:induction false} RangeSize(lo: nat, hi: nat)
    requires lo <= hi
    ensures |Range(lo, hi)| == hi - lo
    decreases hi
  {
    if lo < hi {
      RangeSize(lo, hi - 1);
      assert Range(lo, hi) == Range(lo, hi - 1) + {hi - 1};
    } else {
      assert Range(lo, hi) == {};
    }
  }

  lemma {:induction false} SubsetSize<T>(a: set<T>, b: set<T>)
    requires a <= b
    ensures |a| <= |b|
    ensures |a| == |b| ==> a == b
    decreases a
  {
    if a == {} {
    } else {
      var x :| x in a;
      SubsetSize(a - {x}, b - {x});
    }
  }

  /** A set of offsets in 1..n with n elements is all of 1..n. */
  lemma FullRange(s: set<nat>, n: nat)
    requires forall k | k in s :: 1 <= k <= n
    ensures |s| <= n
    ensures |s| == n ==> forall k | 1 <= k <= n :: k in s
  {
    RangeSize(1, n + 1);
    SubsetSize(s, Range(1, n + 1));
  }

  /** A set that contains all of 1..n has at least n elements. */
  lemma CoversRange(s: set<nat>, n: nat)
    requires forall k | 1 <= k <= n :: k in s
    ensures |s| >= n
  {
    RangeSize(1, n + 1);
    SubsetSize(Range(1, n + 1), s);
  }

  lemma TwoElements<T>(s: set<T>) returns (p: T, q: T)
    requires |s| > 1
    ensures p in s && q in s && p != q
  {
    p :| p in s;
    assert |s - {p}| == |s| - 1;
    q :| q in s - {p};
  }

  lemma OneElement<T>(s: set<T>, p: T)
    requires |s| == 1 && p in s
    ensures s == {p}
  {
    assert |s - {p}| == 0;
  }

  ghost function Image(f: nat -> nat, n: nat): set<nat> { set x | x in Range(0, n) :: f(x) }

  lemma {:induction false} ImageSize(f: nat -> nat, n: nat)
    requires forall x, y | 0 <= x < y < n :: f(x) != f(y)
    ensures |Image(f, n)| == n
    decreases n
  {
    if n == 0 {
      assert Image(f, n) == {};
    } else {
      ImageSize(f, n - 1);
      assert Image(f, n) == Image(f, n - 1) + {f(n - 1)};
    }
  }

  /** An injection from 0..n-1 into itself meets every element. */
  lemma InjectionOnto(f: nat -> nat, n: nat, y: nat) returns (x: nat)
    requires forall k | 0 <= k < n :: f(k) < n
    requires forall x1, x2 | 0 <= x1 < x2 < n :: f(x1) != f(x2)
    requires y < n
    ensures x < n && f(x) == y
  {
    ImageSize(f, n);
    RangeSize(0, n);
    SubsetSize(Image(f, n), Range(0, n));
    x := Preimage(f, n, y);
  }

  lemma Preimage(f: nat -> nat, n: nat, y: nat) returns (x: nat)
    requires Image(f, n) == Range(0, n) && y < n
    ensures x < n && f(x) == y
  {
    assert y in Image(f, n);
    x :| x in Range(0, n) && f(x) == y;
  }
}
