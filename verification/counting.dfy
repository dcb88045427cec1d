/** `collections.Counter` over a list of integers, seen as a multiset.

    `len(counter)` is the number of distinct keys and `counter.values()` are
    the multiplicities. The lemmas here bound multiplicities by the size of
    the list, which rules out some categories for small hands.
 */
module Counting {

  /** Element-wise image of a list, `[f(x) for x in s]`. */
  function Map(f: int -> int, s: seq<int>): (r: seq<int>)
    ensures |r| == |s|
    ensures forall i :: 0 <= i < |s| ==> r[i] == f(s[i])
  {
    seq(|s|, i requires 0 <= i < |s| => f(s[i]))
  }

  lemma MapConcat(f: int -> int, x: seq<int>, y: seq<int>)
    ensures Map(f, x + y) == Map(f, x) + Map(f, y)
  {
  }

  /** Reordering a list reorders its image: the image's multiset depends only on the list's multiset. */
  lemma {:induction false} MapPermutation(f: int -> int, a: seq<int>, b: seq<int>)
    requires multiset(a) == multiset(b)
    ensures multiset(Map(f, a)) == multiset(Map(f, b))
    decreases |a|
  {
    if |a| == 0 {
      assert |b| == 0 by {
        assert |multiset(b)| == 0;
      }
    } else {
      var x := a[0];
      assert x in multiset(b) by {
        assert x in multiset(a);
      }
      var j :| 0 <= j < |b| && b[j] == x;
      var front, back := b[..j], b[j + 1..];
      var b' := front + back;
      assert b == front + [x] + back;
      assert a == [x] + a[1..];
      assert multiset(a[1..]) == multiset(b') by {
        assert multiset(a[1..]) == multiset(a) - multiset{x};
        assert multiset(b') == multiset(b) - multiset{x};
      }
      MapPermutation(f, a[1..], b');
      MapConcat(f, [x], a[1..]);
      MapConcat(f, front + [x], back);
      MapConcat(f, front, [x]);
      MapConcat(f, front, back);
    }
  }

  /** The distinct elements of a list, `set(s)` (also the keys of `Counter(s)`). */
  function Distinct(s: seq<int>): set<int> {
    set x | x in s
  }

  /** `n in Counter(...).values()`: some element occurs exactly `n` times. */
  predicate HasCount(m: multiset<int>, n: nat) {
    exists x | x in m :: m[x] == n
  }

  /** The elements that occur exactly `n` times; `list(counter.values()).count(n)` is its size. */
  function WithCount(m: multiset<int>, n: nat): set<int> {
    set x | x in m && m[x] == n
  }

  /** A list has at least as many elements as distinct elements. */
  lemma {:induction false} DistinctBound(s: seq<int>)
    ensures |Distinct(s)| <= |s|
    decreases |s|
  {
    if |s| > 0 {
      assert Distinct(s) == Distinct(s[1..]) + {s[0]};
      DistinctBound(s[1..]);
    }
  }

  /** An element occurring `k` times adds `k - 1` to the length beyond the number of distinct elements. */
  lemma {:induction false} CountBound(s: seq<int>, r: int)
    requires r in s
    ensures multiset(s)[r] - 1 + |Distinct(s)| <= |s|
    decreases |s|
  {
    assert s == [s[0]] + s[1..];
    if s[0] == r && r !in s[1..] {
      DistinctBound(s);
    } else if s[0] == r {
      assert Distinct(s) == Distinct(s[1..]);
      CountBound(s[1..], r);
    } else {
      assert Distinct(s) == Distinct(s[1..]) + {s[0]};
      CountBound(s[1..], r);
    }
  }

  /** Two distinct elements occurring `k1` and `k2` times add both excesses. */
  lemma {:induction false} CountBound2(s: seq<int>, r1: int, r2: int)
    requires r1 in s && r2 in s && r1 != r2
    ensures multiset(s)[r1] - 1 + multiset(s)[r2] - 1 + |Distinct(s)| <= |s|
    decreases |s|
  {
    assert s == [s[0]] + s[1..];
    if s[0] == r1 && r1 !in s[1..] {
      CountBound(s, r2);
      assert multiset(s)[r1] == 1;
    } else if s[0] == r2 && r2 !in s[1..] {
      CountBound(s, r1);
      assert multiset(s)[r2] == 1;
    } else if s[0] == r1 || s[0] == r2 {
      assert Distinct(s) == Distinct(s[1..]);
      CountBound2(s[1..], r1, r2);
    } else {
      assert Distinct(s) == Distinct(s[1..]) + {s[0]};
      CountBound2(s[1..], r1, r2);
    }
  }

  /** A subset of `b` as large as `b` is `b`. */
  lemma SubsetOfSameSize(a: set<int>, b: set<int>)
    requires a <= b && |a| == |b|
    ensures a == b
  {
    assert a + (b - a) == b;
    assert a * (b - a) == {};
    assert |b - a| == 0;
  }

  lemma SubsetSize(a: set<int>, b: set<int>)
    requires a <= b
    ensures |a| <= |b|
  {
    assert b == a + (b - a) && a * (b - a) == {};
  }
}
