/** Concrete hands from the application's domain, classified and compared as the code does. */
module Scenarios {
  import opened Sorting
  import opened Counting
  import opened Classifier
  import opened BestHand
  import opened Ordering

  /** A, 2, 3, 4, 5 of mixed suits. */
  const MixedWheel: seq<int> := [141, 22, 33, 44, 51]
  /** 10, J, Q, K, A of spades. */
  const SpadeRoyal: seq<int> := [101, 111, 121, 131, 141]
  /** K, K, A, 3, 2: a pair of kings with an ace kicker. */
  const KingsAceKicker: seq<int> := [132, 133, 141, 32, 23]
  /** K, K, Q, 4, 3: a pair of kings with a queen kicker. */
  const KingsQueenKicker: seq<int> := [131, 134, 122, 43, 34]

  lemma MixedWheelFacts(c: seq<int>)
    requires c == MixedWheel
    ensures IsWheel(c) && !IsFlush(c) && |c| == 5
  {
    assert Ranks(c) == [14, 2, 3, 4, 5];
    assert Suits(c) == [1, 2, 3, 4, 1];
    assert Distinct(Ranks(c)) == WheelRanks;
    assert Distinct(Suits(c)) == {1, 2, 3, 4};
  }

  /** The wheel is a straight whose tie-break list is [5, 4, 3, 2, 1]. */
  lemma MixedWheelIsStraight()
    ensures Classify(MixedWheel) == Hand(5, [5, 4, 3, 2, 1], "Escalera")
  {
    MixedWheelFacts(MixedWheel);
    WheelIsStraight(MixedWheel);
  }

  lemma SpadeRoyalFacts(c: seq<int>)
    requires c == SpadeRoyal
    ensures IsFlush(c) && Distinct(Ranks(c)) == RoyalRanks
  {
    assert Ranks(c) == [10, 11, 12, 13, 14];
    assert Suits(c) == [1, 1, 1, 1, 1];
    assert Distinct(Ranks(c)) == RoyalRanks;
    assert Distinct(Suits(c)) == {1};
  }

  /** Ten to ace of one suit is a royal flush, not merely a straight flush. */
  lemma SpadeRoyalIsRoyal()
    ensures Classify(SpadeRoyal).category == 10
    ensures Classify(SpadeRoyal).name == "Escalera Real"
  {
    SpadeRoyalFacts(SpadeRoyal);
    RoyalFlushIff(SpadeRoyal);
  }

  /** When all but one value are distinct and `pair` occurs twice, `pair` is the only value
      occurring twice and none occurs three or four times. */
  lemma SinglePairCounts(ranks: seq<int>, pair: int)
    requires |Distinct(ranks)| == |ranks| - 1 && multiset(ranks)[pair] == 2
    ensures var m := multiset(ranks);
      !HasCount(m, 3) && !HasCount(m, 4) && WithCount(m, 2) == {pair}
  {
    var m := multiset(ranks);
    forall x | x in m && x != pair ensures m[x] == 1 {
      assert x in ranks && pair in ranks;
      CountBound2(ranks, x, pair);
    }
  }

  /** Four distinct ranks are neither the wheel nor a run of five. */
  lemma FourRanksNotStraight(c: seq<int>)
    requires |Distinct(Ranks(c))| == 4
    ensures !IsWheel(c) && !IsStraight(c)
  {
    assert |WheelRanks| == 5;
  }

  /** A hand of four distinct ranks, one of them twice, not all one suit. */
  lemma OnePairFacts(c: seq<int>, ranks: seq<int>, sorted: seq<int>, pair: int)
    requires |c| == 5 && Ranks(c) == ranks && Sorted(sorted) && multiset(sorted) == multiset(ranks)
    requires |Distinct(Suits(c))| > 1
    requires |Distinct(ranks)| == 4 && multiset(ranks)[pair] == 2
    ensures Classify(c).category == 2
    ensures Classify(c).tiebreak == sorted
  {
    SinglePairCounts(ranks, pair);
    FourRanksNotStraight(c);
    PairIff(c);
    SortedUnique(Classify(c).tiebreak, sorted);
  }

  lemma DistinctOf(s: seq<int>, d: set<int>)
    requires forall x :: x in s <==> x in d
    ensures Distinct(s) == d
  {
    forall x ensures x in Distinct(s) <==> x in d {
    }
  }

  lemma KingsAceKickerFacts(a: seq<int>)
    requires a == KingsAceKicker
    ensures Ranks(a) == [13, 13, 14, 3, 2] && |Distinct(Suits(a))| > 1 && |Distinct(Ranks(a))| == 4
  {
    assert Ranks(a) == [13, 13, 14, 3, 2];
    assert Suits(a) == [2, 3, 1, 2, 3];
    DistinctOf([2, 3, 1, 2, 3], {1, 2, 3});
    DistinctOf([13, 13, 14, 3, 2], {2, 3, 13, 14});
  }

  lemma KingsQueenKickerFacts(b: seq<int>)
    requires b == KingsQueenKicker
    ensures Ranks(b) == [13, 13, 12, 4, 3] && |Distinct(Suits(b))| > 1 && |Distinct(Ranks(b))| == 4
  {
    assert Ranks(b) == [13, 13, 12, 4, 3];
    assert Suits(b) == [1, 4, 2, 3, 4];
    DistinctOf([1, 4, 2, 3, 4], {1, 2, 3, 4});
    DistinctOf([13, 13, 12, 4, 3], {3, 4, 12, 13});
  }

  /** Five literal ranks and the same ranks in ascending order. */
  lemma SortedPermutation(ranks: seq<int>, sorted: seq<int>)
    requires |ranks| == |sorted| == 5 && sorted[0] <= sorted[1] <= sorted[2] <= sorted[3] <= sorted[4]
    requires multiset{ranks[0], ranks[1], ranks[2], ranks[3], ranks[4]}
      == multiset{sorted[0], sorted[1], sorted[2], sorted[3], sorted[4]}
    ensures Sorted(sorted) && multiset(sorted) == multiset(ranks)
  {
    assert ranks == [ranks[0], ranks[1], ranks[2], ranks[3], ranks[4]];
    assert sorted == [sorted[0], sorted[1], sorted[2], sorted[3], sorted[4]];
  }

  lemma KingsAcePair(a: seq<int>)
    requires |a| == 5 && Ranks(a) == [13, 13, 14, 3, 2] && |Distinct(Suits(a))| > 1 && |Distinct(Ranks(a))| == 4
    ensures Classify(a).category == 2 && Classify(a).tiebreak == [2, 3, 13, 13, 14]
  {
    SortedPermutation([13, 13, 14, 3, 2], [2, 3, 13, 13, 14]);
    OnePairFacts(a, [13, 13, 14, 3, 2], [2, 3, 13, 13, 14], 13);
  }

  lemma KingsQueenPair(b: seq<int>)
    requires |b| == 5 && Ranks(b) == [13, 13, 12, 4, 3] && |Distinct(Suits(b))| > 1 && |Distinct(Ranks(b))| == 4
    ensures Classify(b).category == 2 && Classify(b).tiebreak == [3, 4, 12, 13, 13]
  {
    SortedPermutation([13, 13, 12, 4, 3], [3, 4, 12, 13, 13]);
    OnePairFacts(b, [13, 13, 12, 4, 3], [3, 4, 12, 13, 13], 13);
  }

  /** As written, the tie-break lists are ascending and compared from their first (lowest) entry:
      a pair of kings with an ace kicker ranks BELOW a pair of kings with a queen kicker,
      because its lowest card, 2, is below 3. */
  lemma AscendingTieBreakOrder(a: seq<int>, b: seq<int>)
    requires a == KingsAceKicker && b == KingsQueenKicker
    ensures Classify(a).category == Classify(b).category == 2
    ensures Classify(a).tiebreak == [2, 3, 13, 13, 14]
    ensures Classify(b).tiebreak == [3, 4, 12, 13, 13]
    ensures KeyLess(HandKey(a), HandKey(b))
  {
    KingsAceKickerFacts(a);
    KingsAcePair(a);
    KingsQueenKickerFacts(b);
    KingsQueenPair(b);
  }

  /** A higher category is the greater key: a pair of kings (2) ranks below the royal flush (10),
      and not the other way round. */
  lemma PairBelowRoyal(a: seq<int>, b: seq<int>)
    requires a == KingsAceKicker && b == SpadeRoyal
    ensures KeyLess(HandKey(a), HandKey(b)) && !KeyLess(HandKey(b), HandKey(a))
  {
    KingsAceKickerFacts(a);
    KingsAcePair(a);
    SpadeRoyalIsRoyal();
  }
}
