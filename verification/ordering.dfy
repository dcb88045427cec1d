/** Python's ordering on the selection key `(category, tie-break list)` and
    Python's `max(items, key=...)`.

    Tuples and lists compare lexicographically: the first position where they
    differ decides, and a proper prefix is smaller than the longer list.
    `max` walks the items left to right and replaces its current best only
    when the next key is strictly greater, so it returns the first maximum.
 */
module Ordering {

  datatype Key = Key(category: int, tiebreak: seq<int>)

  /** `a < b` on Python lists of integers. */
  predicate LexLess(a: seq<int>, b: seq<int>)
    decreases |a|
  {
    if |a| == 0 then |b| > 0
    else if |b| == 0 then false
    else if a[0] != b[0] then a[0] < b[0]
    else LexLess(a[1..], b[1..])
  }

  /** `a < b` on the tuples `(category, tie-break list)`. */
  predicate KeyLess(a: Key, b: Key) {
    a.category < b.category || (a.category == b.category && LexLess(a.tiebreak, b.tiebreak))
  }

  /** The list order is a strict total order. */
  lemma {:induction false} LexIrreflexive(a: seq<int>)
    ensures !LexLess(a, a)
    decreases |a|
  {
    if |a| > 0 {
      LexIrreflexive(a[1..]);
    }
  }

  lemma {:induction false} LexTransitive(a: seq<int>, b: seq<int>, c: seq<int>)
    requires LexLess(a, b) && LexLess(b, c)
    ensures LexLess(a, c)
    decreases |a|
  {
    if |a| > 0 && |b| > 0 && |c| > 0 && a[0] == b[0] && b[0] == c[0] {
      LexTransitive(a[1..], b[1..], c[1..]);
    }
  }

  lemma {:induction false} LexTotal(a: seq<int>, b: seq<int>)
    ensures a == b || LexLess(a, b) || LexLess(b, a)
    decreases |a|
  {
    if |a| > 0 && |b| > 0 && a[0] == b[0] {
      LexTotal(a[1..], b[1..]);
      if a[1..] == b[1..] {
        assert a == [a[0]] + a[1..] && b == [b[0]] + b[1..];
      }
    }
  }

  /** The key order is a strict total order. */
  lemma KeyIrreflexive(a: Key)
    ensures !KeyLess(a, a)
  {
    LexIrreflexive(a.tiebreak);
  }

  lemma KeyTransitive(a: Key, b: Key, c: Key)
    requires KeyLess(a, b) && KeyLess(b, c)
    ensures KeyLess(a, c)
  {
    if a.category == b.category && b.category == c.category {
      LexTransitive(a.tiebreak, b.tiebreak, c.tiebreak);
    }
  }

  lemma KeyTotal(a: Key, b: Key)
    ensures a == b || KeyLess(a, b) || KeyLess(b, a)
  {
    LexTotal(a.tiebreak, b.tiebreak);
  }

  /** One step of the fold: `best` is the first maximum of `keys[..n]`; the next key `keys[n]`
      replaces it exactly when it is strictly greater, and the winner is the first maximum of `keys[..n + 1]`. */
  lemma MaxStep(keys: seq<Key>, best: nat, n: nat)
    requires best < n < |keys|
    requires forall j :: 0 <= j < n ==> !KeyLess(keys[best], keys[j])
    requires forall j :: 0 <= j < best ==> KeyLess(keys[j], keys[best])
    ensures var w := if KeyLess(keys[best], keys[n]) then n else best;
      && (forall j :: 0 <= j <= n ==> !KeyLess(keys[w], keys[j]))
      && (forall j :: 0 <= j < w ==> KeyLess(keys[j], keys[w]))
  {
    if KeyLess(keys[best], keys[n]) {
      forall j | 0 <= j <= n ensures !KeyLess(keys[n], keys[j]) {
        if j == n {
          KeyIrreflexive(keys[n]);
        } else if KeyLess(keys[n], keys[j]) {
          KeyTransitive(keys[best], keys[n], keys[j]);
        }
      }
      forall j | 0 <= j < n ensures KeyLess(keys[j], keys[n]) {
        KeyTotal(keys[j], keys[best]);
        if keys[j] != keys[best] {
          KeyTransitive(keys[j], keys[best], keys[n]);
        }
      }
    }
  }

  /** `max(range(len(keys)), key=keys.__getitem__)`: a left fold that keeps the current best
      unless the next key is strictly greater. The result is a maximum, and every key before it
      is strictly smaller, so it is the first maximum. */
  function FirstMax(keys: seq<Key>): (i: nat)
    requires |keys| > 0
    ensures i < |keys|
    ensures forall j :: 0 <= j < |keys| ==> !KeyLess(keys[i], keys[j])
    ensures forall j :: 0 <= j < i ==> KeyLess(keys[j], keys[i])
    decreases |keys|
  {
    if |keys| == 1 then
      KeyIrreflexive(keys[0]);
      0
    else
      var n := |keys| - 1;
      var best := FirstMax(keys[..n]);
      MaxStep(keys, best, n);
      if KeyLess(keys[best], keys[n]) then n else best
  }

  /** A position whose key is maximal and strictly greater than every earlier key is the one
      the fold returns. */
  lemma FirstMaxUnique(keys: seq<Key>, i: nat)
    requires i < |keys|
    requires forall j :: 0 <= j < |keys| ==> !KeyLess(keys[i], keys[j])
    requires forall j :: 0 <= j < i ==> KeyLess(keys[j], keys[i])
    ensures FirstMax(keys) == i
  {
  }
}
