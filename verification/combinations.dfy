/** `itertools.combinations(s, k)`: every choice of `k` positions of `s`, kept in
    their original order, listed in lexicographic order of the chosen positions.
    All combinations that use the first element come first, followed by the
    combinations of the rest.
 */
module Combinations {
  import opened Ordering

  /** `c` can be obtained from `s` by deleting elements (order kept). */
  predicate IsSubseq<T(==)>(c: seq<T>, s: seq<T>)
    decreases |s|
  {
    if |c| == 0 then true
    else if |s| == 0 then false
    else (c[0] == s[0] && IsSubseq(c[1..], s[1..])) || IsSubseq(c, s[1..])
  }

  /** Number of ways to choose `k` of `n` items. */
  function Binomial(n: nat, k: nat): nat {
    if k == 0 then 1
    else if n == 0 then 0
    else Binomial(n - 1, k - 1) + Binomial(n - 1, k)
  }

  lemma {:induction false} BinomialPositive(n: nat, k: nat)
    ensures Binomial(n, k) > 0 <==> k <= n
  {
    if k > 0 && n > 0 {
      BinomialPositive(n - 1, k - 1);
      BinomialPositive(n - 1, k);
    }
  }

  /** `[x] + c` for every `c` in `cs`, in order. */
  function PrependAll<T>(x: T, cs: seq<seq<T>>): (r: seq<seq<T>>)
    ensures |r| == |cs|
    ensures forall i :: 0 <= i < |cs| ==> r[i] == [x] + cs[i]
  {
    seq(|cs|, i requires 0 <= i < |cs| => [x] + cs[i])
  }

  /** `list(itertools.combinations(s, k))`. Each entry is a length-`k` subsequence of `s`,
      and there are `Binomial(|s|, k)` of them. */
  function Choose<T(==)>(s: seq<T>, k: nat): (r: seq<seq<T>>)
    ensures |r| == Binomial(|s|, k)
    ensures forall i :: 0 <= i < |r| ==> |r[i]| == k && IsSubseq(r[i], s)
    decreases |s|
  {
    if k == 0 then [[]]
    else if |s| == 0 then []
    else PrependAll(s[0], Choose(s[1..], k - 1)) + Choose(s[1..], k)
  }

  /** Every length-`k` subsequence of `s` is listed: `Choose` is complete. */
  lemma {:induction false} ChooseComplete<T>(s: seq<T>, k: nat, c: seq<T>)
    requires |c| == k && IsSubseq(c, s)
    ensures c in Choose(s, k)
    decreases |s|
  {
    if k == 0 {
      assert c == [];
    } else {
      assert |s| > 0;
      var with := PrependAll(s[0], Choose(s[1..], k - 1));
      var without := Choose(s[1..], k);
      if c[0] == s[0] && IsSubseq(c[1..], s[1..]) {
        ChooseComplete(s[1..], k - 1, c[1..]);
        var i :| 0 <= i < |Choose(s[1..], k - 1)| && Choose(s[1..], k - 1)[i] == c[1..];
        assert c == [s[0]] + c[1..];
        assert with[i] == c;
        assert (with + without)[i] == c;
      } else {
        ChooseComplete(s[1..], k, c);
        var i :| 0 <= i < |without| && without[i] == c;
        assert (with + without)[|with| + i] == c;
      }
    }
  }

  /** There are combinations of size `k` exactly when `s` has at least `k` elements. */
  lemma ChooseEmptyIff<T>(s: seq<T>, k: nat)
    ensures |Choose(s, k)| == 0 <==> |s| < k
  {
    BinomialPositive(|s|, k);
  }

  // ---------------------------------------------------------------------
  // The order of the combinations
  // ---------------------------------------------------------------------

  /** Every element of a subsequence is an element of the sequence. */
  lemma {:induction false} SubseqElements<T>(c: seq<T>, s: seq<T>)
    requires IsSubseq(c, s)
    ensures forall x :: x in c ==> x in s
    decreases |s|
  {
    if |c| > 0 && |s| > 0 {
      if c[0] == s[0] && IsSubseq(c[1..], s[1..]) {
        SubseqElements(c[1..], s[1..]);
        assert forall x :: x in c ==> x == c[0] || x in c[1..];
      } else {
        SubseqElements(c, s[1..]);
      }
    }
  }

  predicate StrictlyIncreasing(s: seq<int>) {
    forall i, j :: 0 <= i < j < |s| ==> s[i] < s[j]
  }

  /** The first element of a strictly increasing list is below every later one. */
  lemma HeadBelowTail(s: seq<int>)
    requires StrictlyIncreasing(s) && |s| > 0
    ensures StrictlyIncreasing(s[1..])
    ensures forall y :: y in s[1..] ==> s[0] < y
  {
    forall y | y in s[1..] ensures s[0] < y {
      var m :| 0 <= m < |s[1..]| && s[1..][m] == y;
      assert s[m + 1] == y;
    }
  }

  /** A common first element does not change the list order. */
  lemma PrependLex(x: int, a: seq<int>, b: seq<int>)
    ensures LexLess([x] + a, [x] + b) == LexLess(a, b)
  {
    assert ([x] + a)[1..] == a && ([x] + b)[1..] == b;
  }

  /** Chosen from a strictly increasing list, the combinations come in strictly increasing
      lexicographic order. */
  lemma {:induction false} ChooseLexIncreasing(s: seq<int>, k: nat)
    requires StrictlyIncreasing(s)
    ensures forall i, j :: 0 <= i < j < |Choose(s, k)| ==> LexLess(Choose(s, k)[i], Choose(s, k)[j])
    decreases |s|
  {
    if k > 0 && |s| > 0 {
      var t := s[1..];
      HeadBelowTail(s);
      var x := Choose(t, k - 1);
      var a := PrependAll(s[0], x);
      var b := Choose(t, k);
      ChooseLexIncreasing(t, k - 1);
      ChooseLexIncreasing(t, k);
      assert Choose(s, k) == a + b;
      forall i, j | 0 <= i < j < |a + b| ensures LexLess((a + b)[i], (a + b)[j]) {
        if j < |a| {
          PrependLex(s[0], x[i], x[j]);
        } else if i >= |a| {
          assert (a + b)[i] == b[i - |a|] && (a + b)[j] == b[j - |a|];
        } else {
          var c := b[j - |a|];
          SubseqElements(c, t);
          assert c[0] in c;
          assert (a + b)[i] == [s[0]] + x[i] && (a + b)[j] == c;
        }
      }
    }
  }

  /** The positions `lo, lo + 1, ..., hi - 1`. */
  function Range(lo: int, hi: int): (r: seq<int>)
    ensures |r| == if lo < hi then hi - lo else 0
    ensures forall i :: 0 <= i < |r| ==> r[i] == lo + i
    decreases hi - lo
  {
    if lo >= hi then [] else [lo] + Range(lo + 1, hi)
  }

  /** The elements of `s` at the positions `ps`. */
  function Pick<T>(s: seq<T>, ps: seq<int>): (r: seq<T>)
    requires forall i :: 0 <= i < |ps| ==> 0 <= ps[i] < |s|
    ensures |r| == |ps| && forall i :: 0 <= i < |ps| ==> r[i] == s[ps[i]]
  {
    seq(|ps|, i requires 0 <= i < |ps| => s[ps[i]])
  }

  /** Every position in every list of `p` lies in `lo..n - 1`. */
  predicate PositionsOk(p: seq<seq<int>>, lo: int, n: int) {
    forall i, q :: 0 <= i < |p| && 0 <= q < |p[i]| ==> lo <= p[i][q] < n
  }

  /** `c` lists the elements of `s` picked at the position lists of `p`, entry by entry. */
  predicate PickedAt<T(==)>(c: seq<seq<T>>, s: seq<T>, p: seq<seq<int>>) {
    && |c| == |p| && PositionsOk(p, 0, |s|)
    && forall i :: 0 <= i < |p| ==> c[i] == Pick(s, p[i])
  }

  /** Picking at a first position followed by further positions. */
  lemma PickCons<T>(s: seq<T>, lo: int, ps: seq<int>)
    requires 0 <= lo < |s| && forall i :: 0 <= i < |ps| ==> 0 <= ps[i] < |s|
    ensures Pick(s, [lo] + ps) == [s[lo]] + Pick(s, ps)
  {
  }

  /** One level of `Choose`: picking commutes with "prepend the first element to the combinations
      with it, then list those without it". */
  lemma PickStep<T>(s: seq<T>, lo: int, c1: seq<seq<T>>, c2: seq<seq<T>>, p1: seq<seq<int>>, p2: seq<seq<int>>)
    requires 0 <= lo < |s| && PickedAt(c1, s, p1) && PickedAt(c2, s, p2)
    ensures PickedAt(PrependAll(s[lo], c1) + c2, s, PrependAll(lo, p1) + p2)
  {
    var c, p := PrependAll(s[lo], c1) + c2, PrependAll(lo, p1) + p2;
    forall i, q | 0 <= i < |p| && 0 <= q < |p[i]| ensures 0 <= p[i][q] < |s| {
      if i < |p1| && q > 0 {
        assert p[i][q] == p1[i][q - 1];
      }
    }
    assert PositionsOk(p, 0, |s|);
    forall i | 0 <= i < |p| ensures c[i] == Pick(s, p[i]) {
      if i < |p1| {
        PickCons(s, lo, p1[i]);
      } else {
        assert c[i] == c2[i - |p1|] && p[i] == p2[i - |p1|];
      }
    }
  }

  /** One unfolding of `Choose`. */
  lemma ChooseCons<T>(s: seq<T>, k: nat)
    requires k > 0 && |s| > 0
    ensures Choose(s, k) == PrependAll(s[0], Choose(s[1..], k - 1)) + Choose(s[1..], k)
  {
  }

  lemma RangeCons(lo: int, hi: int)
    requires lo < hi
    ensures Range(lo, hi)[0] == lo && Range(lo, hi)[1..] == Range(lo + 1, hi)
  {
  }

  /** The combinations of `s[lo..]` are the elements of `s` picked at the combinations of the
      positions `lo..|s| - 1`. */
  lemma {:induction false} ChoosePositions<T>(s: seq<T>, lo: nat, k: nat)
    requires lo <= |s|
    ensures PickedAt(Choose(s[lo..], k), s, Choose(Range(lo, |s|), k))
    decreases |s| - lo
  {
    var n := |s|;
    if k > 0 && lo < n {
      var t, r := s[lo..], Range(lo, n);
      var c1, c2 := Choose(s[lo + 1..], k - 1), Choose(s[lo + 1..], k);
      var p1, p2 := Choose(Range(lo + 1, n), k - 1), Choose(Range(lo + 1, n), k);
      ChoosePositions(s, lo + 1, k - 1);
      ChoosePositions(s, lo + 1, k);
      PickStep(s, lo, c1, c2, p1, p2);
      assert Choose(t, k) == PrependAll(s[lo], c1) + c2 by {
        assert t[0] == s[lo] && t[1..] == s[lo + 1..];
        ChooseCons(t, k);
      }
      assert Choose(r, k) == PrependAll(lo, p1) + p2 by {
        RangeCons(lo, n);
        ChooseCons(r, k);
      }
    } else if k > 0 {
      assert s[lo..] == [] && Range(lo, n) == [];
    }
  }

  /** `itertools.combinations(s, k)`: the entries are `s` picked at the k-element position
      lists, and those position lists come in strictly increasing lexicographic order. */
  lemma ChooseOrder<T>(s: seq<T>, k: nat)
    ensures PickedAt(Choose(s, k), s, Choose(Range(0, |s|), k))
    ensures var p := Choose(Range(0, |s|), k);
      forall i, j :: 0 <= i < j < |p| ==> LexLess(p[i], p[j])
  {
    ChoosePositions(s, 0, k);
    assert s[0..] == s;
    ChooseLexIncreasing(Range(0, |s|), k);
  }

  /** The combinations of one element are the singletons, in the order of `s`. */
  lemma {:induction false} ChooseSingletons<T>(s: seq<T>)
    ensures |Choose(s, 1)| == |s|
    ensures forall i :: 0 <= i < |s| ==> Choose(s, 1)[i] == [s[i]]
  {
    if |s| > 0 {
      ChooseSingletons(s[1..]);
      assert Choose(s, 1) == PrependAll(s[0], [[]]) + Choose(s[1..], 1);
    }
  }

  lemma ChooseTwoOfTwo(s: seq<int>)
    requires s == [3, 4]
    ensures Choose(s, 2) == [[3, 4]]
  {
    ChooseSingletons(s[1..]);
    assert s[1..] == [4];
    var r := Choose(s, 2);
    assert r == PrependAll(3, Choose(s[1..], 1)) + Choose(s[1..], 2);
    assert |r| == 1 && r[0] == [3, 4];
  }

  lemma ChooseTwoOfThree(s: seq<int>)
    requires s == [2, 3, 4]
    ensures Choose(s, 2) == [[2, 3], [2, 4], [3, 4]]
  {
    ChooseSingletons(s[1..]);
    ChooseTwoOfTwo(s[1..]);
    var r := Choose(s, 2);
    assert r == PrependAll(2, Choose(s[1..], 1)) + Choose(s[1..], 2);
    assert |r| == 3 && r[0] == [2, 3] && r[1] == [2, 4] && r[2] == [3, 4];
  }

  lemma WithOne(t: seq<int>)
    requires t == [2, 3, 4]
    ensures PrependAll(1, Choose(t, 1)) == [[1, 2], [1, 3], [1, 4]]
  {
    ChooseSingletons(t);
    var w := PrependAll(1, Choose(t, 1));
    assert |w| == 3 && w[0] == [1, 2] && w[1] == [1, 3] && w[2] == [1, 4];
  }

  lemma JoinFourTwo(a: seq<seq<int>>, b: seq<seq<int>>)
    requires a == [[1, 2], [1, 3], [1, 4]] && b == [[2, 3], [2, 4], [3, 4]]
    ensures a + b == [[1, 2], [1, 3], [1, 4], [2, 3], [2, 4], [3, 4]]
  {
  }

  /** The order `itertools.combinations` documents, on four elements taken two at a time. */
  lemma ChooseFourTwo(s: seq<int>)
    requires s == [1, 2, 3, 4]
    ensures Choose(s, 2) == [[1, 2], [1, 3], [1, 4], [2, 3], [2, 4], [3, 4]]
  {
    var t := s[1..];
    assert s[0] == 1 && t == [2, 3, 4];
    WithOne(t);
    ChooseTwoOfThree(t);
    ChooseCons(s, 2);
    JoinFourTwo(PrependAll(1, Choose(t, 1)), Choose(t, 2));
  }
}
