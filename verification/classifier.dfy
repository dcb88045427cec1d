/** The hand classifier `clasificar_mano`.

    It takes any list of integer card ids (the application passes 5, 6 or 7)
    and returns a category from 1 (high card) to 10 (royal flush), a
    tie-break list and the category's Spanish name. The tie-break list is the
    ranks sorted ascending, except for the ace-low straight ("wheel"), whose
    list is overwritten with [5, 4, 3, 2, 1].
 */
module Classifier {
  import opened Cards
  import opened Sorting
  import opened Counting

  datatype Hand = Hand(category: int, tiebreak: seq<int>, name: string)

  /** Rank set of the ace-low straight A-2-3-4-5. */
  const WheelRanks: set<int> := {14, 2, 3, 4, 5}
  /** Tie-break list that replaces the sorted ranks of a wheel. */
  const WheelOrder: seq<int> := [5, 4, 3, 2, 1]
  /** Rank set of the royal flush 10-J-Q-K-A. */
  const RoyalRanks: set<int> := {14, 13, 12, 11, 10}

  /** The name the classifier returns with each category number. */
  function CategoryName(category: int): string
    requires 1 <= category <= 10
  {
    match category
    case 10 => "Escalera Real"
    case 9 => "Escalera de Color"
    case 8 => "Póker"
    case 7 => "Full House"
    case 6 => "Color"
    case 5 => "Escalera"
    case 4 => "Trío"
    case 3 => "Doble Pareja"
    case 2 => "Pareja"
    case _ => "Carta Alta"
  }

  function Ranks(cards: seq<int>): seq<int> {
    Map(Rank, cards)
  }

  function Suits(cards: seq<int>): seq<int> {
    Map(Suit, cards)
  }

  /** Multiplicity of every rank, `Counter(valores)`. */
  function RankCounts(cards: seq<int>): multiset<int> {
    multiset(Ranks(cards))
  }

  /** Exactly one distinct suit. */
  predicate IsFlush(cards: seq<int>) {
    |Distinct(Suits(cards))| == 1
  }

  /** The rank set is exactly {A, 2, 3, 4, 5}. */
  predicate IsWheel(cards: seq<int>) {
    Distinct(Ranks(cards)) == WheelRanks
  }

  /** The ordinary straight test: five distinct ranks whose largest and smallest differ by 4. */
  predicate IsRun(cards: seq<int>) {
    var ranks := Ranks(cards);
    var sorted := SortAsc(ranks);
    |Distinct(ranks)| == 5 && (DistinctBound(ranks); sorted[|sorted| - 1] - sorted[0] == 4)
  }

  /** The straight flag after the wheel special case. */
  predicate IsStraight(cards: seq<int>) {
    IsRun(cards) || IsWheel(cards)
  }

  /** Five consecutive ranks starting at `lo`. */
  function Consecutive(lo: int): set<int> {
    {lo, lo + 1, lo + 2, lo + 3, lo + 4}
  }

  /** The tie-break list: the wheel's fixed order, otherwise the ranks in ascending order. */
  function TieBreak(cards: seq<int>): seq<int> {
    if IsWheel(cards) then WheelOrder else SortAsc(Ranks(cards))
  }

  /** The category ladder, tried from the strongest category down, on the rank counts,
      the flush and straight flags and the tie-break list. */
  function Ladder(counts: multiset<int>, flush: bool, straight: bool, values: seq<int>): (h: Hand)
    ensures 1 <= h.category <= 10
    ensures h.name == CategoryName(h.category)
    ensures h.tiebreak == values
  {
    var category :=
      if flush && straight then (if Distinct(values) == RoyalRanks then 10 else 9)
      else if HasCount(counts, 4) then 8
      else if HasCount(counts, 3) && HasCount(counts, 2) then 7
      else if flush then 6
      else if straight then 5
      else if HasCount(counts, 3) then 4
      else if |WithCount(counts, 2)| == 2 then 3
      else if HasCount(counts, 2) then 2
      else 1;
    Hand(category, values, CategoryName(category))
  }

  /** `clasificar_mano`: counts, flags and tie-break list of the cards, then the ladder. */
  function Classify(cards: seq<int>): (h: Hand)
    ensures 1 <= h.category <= 10
    ensures h.name == CategoryName(h.category)
    ensures IsWheel(cards) ==> h.tiebreak == [5, 4, 3, 2, 1]
    ensures !IsWheel(cards) ==> Sorted(h.tiebreak) && multiset(h.tiebreak) == multiset(Ranks(cards))
  {
    Ladder(RankCounts(cards), IsFlush(cards), IsStraight(cards), TieBreak(cards))
  }

  // ---------------------------------------------------------------------
  // Properties
  // ---------------------------------------------------------------------

  /** Reordering the cards does not change the classification: only counts, a sorted list and sets are used. */
  lemma ClassifyPermutation(a: seq<int>, b: seq<int>)
    requires multiset(a) == multiset(b)
    ensures Classify(a) == Classify(b)
  {
    MapPermutation(Rank, a, b);
    MapPermutation(Suit, a, b);
    SameRankFlags(Ranks(a), Ranks(b), a, b);
    SameDistinct(Suits(a), Suits(b));
    assert RankCounts(a) == RankCounts(b);
    assert IsFlush(a) == IsFlush(b);
  }

  /** Cards with the same ranks, in any order, agree on the straight flag and the tie-break list. */
  lemma SameRankFlags(ra: seq<int>, rb: seq<int>, a: seq<int>, b: seq<int>)
    requires ra == Ranks(a) && rb == Ranks(b) && multiset(ra) == multiset(rb)
    ensures IsStraight(a) == IsStraight(b) && TieBreak(a) == TieBreak(b)
  {
    SortAscPermutation(ra, rb);
    SameDistinct(ra, rb);
    assert IsWheel(a) == IsWheel(b);
    assert IsRun(a) == IsRun(b);
  }

  /** Lists with the same elements have the same distinct elements. */
  lemma SameDistinct(a: seq<int>, b: seq<int>)
    requires multiset(a) == multiset(b)
    ensures Distinct(a) == Distinct(b)
  {
    forall x ensures x in a <==> x in b {
      assert x in a <==> x in multiset(a);
      assert x in b <==> x in multiset(b);
    }
  }

  /** The smallest and largest entries of the sorted ranks are the smallest and largest ranks. */
  lemma SortedRankBounds(cards: seq<int>, x: int)
    requires x in Ranks(cards)
    ensures var v := SortAsc(Ranks(cards));
      |v| > 0 && v[0] <= x <= v[|v| - 1] && v[0] in Ranks(cards) && v[|v| - 1] in Ranks(cards)
  {
    var v := SortAsc(Ranks(cards));
    assert x in multiset(v);
    SortedBounds(v, x);
    assert v[0] in multiset(v) && v[|v| - 1] in multiset(v);
  }

  /** The ordinary straight test holds exactly when the distinct ranks are five consecutive numbers. */
  lemma RunIsConsecutive(cards: seq<int>)
    ensures IsRun(cards) <==> exists lo :: Distinct(Ranks(cards)) == Consecutive(lo)
  {
    if IsRun(cards) {
      RunGivesConsecutive(cards);
    }
    if exists lo :: Distinct(Ranks(cards)) == Consecutive(lo) {
      var lo :| Distinct(Ranks(cards)) == Consecutive(lo);
      ConsecutiveGivesRun(cards, lo);
    }
  }

  lemma RunGivesConsecutive(cards: seq<int>)
    requires IsRun(cards)
    ensures Distinct(Ranks(cards)) == Consecutive(SortAsc(Ranks(cards))[0])
  {
    var ranks := Ranks(cards);
    var v := SortAsc(ranks);
    SameDistinct(v, ranks);
    SortedSpanConsecutive(v);
  }

  lemma ConsecutiveGivesRun(cards: seq<int>, lo: int)
    requires Distinct(Ranks(cards)) == Consecutive(lo)
    ensures IsRun(cards)
  {
    var ranks := Ranks(cards);
    var v := SortAsc(ranks);
    SameDistinct(v, ranks);
    ConsecutiveSortedEnds(v, lo);
  }

  /** A sorted list with five distinct values spanning 4 holds exactly five consecutive values. */
  lemma SortedSpanConsecutive(v: seq<int>)
    requires Sorted(v) && |v| > 0
    requires |Distinct(v)| == 5 && v[|v| - 1] - v[0] == 4
    ensures Distinct(v) == Consecutive(v[0])
  {
    var lo := v[0];
    assert Distinct(v) <= Consecutive(lo) by {
      forall x | x in Distinct(v) ensures x in Consecutive(lo) {
        SortedBounds(v, x);
      }
    }
    assert |Consecutive(lo)| == 5;
    SubsetOfSameSize(Distinct(v), Consecutive(lo));
  }

  /** A sorted list whose values are five consecutive numbers starts with the first and ends with the last. */
  lemma ConsecutiveSortedEnds(v: seq<int>, lo: int)
    requires Sorted(v) && Distinct(v) == Consecutive(lo)
    ensures |Distinct(v)| == 5 && |v| > 0 && v[0] == lo && v[|v| - 1] == lo + 4
  {
    assert lo in Distinct(v) && lo + 4 in Distinct(v);
    SortedBounds(v, lo);
    SortedBounds(v, lo + 4);
    assert v[0] in Distinct(v) && v[|v| - 1] in Distinct(v);
  }

  /** A wheel that is not all one suit is a straight (5), provided it has at most 7 cards
      (with 8 cards four aces would make it four of a kind). */
  lemma WheelIsStraight(cards: seq<int>)
    requires IsWheel(cards) && !IsFlush(cards)
    requires |cards| <= 7
    ensures Classify(cards).category == 5
    ensures Classify(cards).tiebreak == [5, 4, 3, 2, 1]
  {
    var ranks := Ranks(cards);
    var counts := RankCounts(cards);
    assert !HasCount(counts, 4) by {
      if HasCount(counts, 4) {
        var r :| r in counts && counts[r] == 4;
        CountBound(ranks, r);
      }
    }
    assert !(HasCount(counts, 3) && HasCount(counts, 2)) by {
      if HasCount(counts, 3) && HasCount(counts, 2) {
        var r3 :| r3 in counts && counts[r3] == 3;
        var r2 :| r2 in counts && counts[r2] == 2;
        CountBound2(ranks, r3, r2);
      }
    }
  }

  /** A one-suit wheel is a straight flush (9). */
  lemma WheelIsStraightFlush(cards: seq<int>)
    requires IsWheel(cards) && IsFlush(cards)
    ensures Classify(cards).category == 9
  {
    assert Distinct(WheelOrder) != RoyalRanks by {
      assert 14 !in WheelOrder;
    }
  }

  /** A wheel is never a royal flush: its tie-break list no longer holds the ace. */
  lemma WheelNeverRoyal(cards: seq<int>)
    requires IsWheel(cards)
    ensures Classify(cards).category != 10
  {
    assert 14 !in WheelOrder;
    assert 14 !in Distinct(WheelOrder);
  }

  /** Royal flush is returned exactly for one suit and the ranks {10, J, Q, K, A}. */
  lemma RoyalFlushIff(cards: seq<int>)
    ensures Classify(cards).category == 10 <==> IsFlush(cards) && Distinct(Ranks(cards)) == RoyalRanks
  {
    if Distinct(Ranks(cards)) == RoyalRanks {
      RoyalRanksStraight(cards);
    }
    LadderRoyal(RankCounts(cards), IsFlush(cards), IsStraight(cards), TieBreak(cards));
    if Classify(cards).category == 10 {
      if IsWheel(cards) {
        WheelNeverRoyal(cards);
      }
      assert TieBreak(cards) == SortAsc(Ranks(cards));
      SameDistinct(SortAsc(Ranks(cards)), Ranks(cards));
    }
  }

  /** Ranks {10, J, Q, K, A} form an ordinary straight and are their own tie-break set. */
  lemma RoyalRanksStraight(cards: seq<int>)
    requires Distinct(Ranks(cards)) == RoyalRanks
    ensures IsStraight(cards) && !IsWheel(cards)
    ensures Distinct(TieBreak(cards)) == RoyalRanks
  {
    var ranks := Ranks(cards);
    RoyalIsConsecutive();
    ConsecutiveGivesRun(cards, 10);
    RoyalNotWheel(cards);
    SameDistinct(SortAsc(ranks), ranks);
  }

  lemma RoyalIsConsecutive()
    ensures RoyalRanks == Consecutive(10)
  {
  }

  /** Ranks {10, J, Q, K, A} are not the wheel, so the tie-break list is the sorted ranks. */
  lemma RoyalNotWheel(cards: seq<int>)
    requires Distinct(Ranks(cards)) == RoyalRanks
    ensures !IsWheel(cards) && TieBreak(cards) == SortAsc(Ranks(cards))
  {
    assert 2 in WheelRanks && 2 !in RoyalRanks;
  }

  lemma LadderRoyal(counts: multiset<int>, flush: bool, straight: bool, values: seq<int>)
    ensures Ladder(counts, flush, straight, values).category == 10
      <==> flush && straight && Distinct(values) == RoyalRanks
  {
  }

  /** A straight flush outranks every other category: 9 or 10 is returned exactly for flush and straight. */
  lemma StraightFlushFirst(cards: seq<int>)
    ensures Classify(cards).category >= 9 <==> IsFlush(cards) && IsStraight(cards)
  {
    LadderTop(RankCounts(cards), IsFlush(cards), IsStraight(cards), TieBreak(cards));
  }

  lemma LadderTop(counts: multiset<int>, flush: bool, straight: bool, values: seq<int>)
    ensures Ladder(counts, flush, straight, values).category >= 9 <==> flush && straight
  {
  }

  /** Straight flush (9) is returned exactly for flush and straight whose tie-break set is not the royal set. */
  lemma StraightFlushIff(cards: seq<int>)
    ensures Classify(cards).category == 9 <==>
      IsFlush(cards) && IsStraight(cards) && Distinct(TieBreak(cards)) != RoyalRanks
  {
  }

  /** Four of a kind (8) is returned exactly when some rank occurs four times and the cards are not
      a straight flush. */
  lemma FourOfAKindIff(cards: seq<int>)
    ensures var m := RankCounts(cards);
      Classify(cards).category == 8 <==> HasCount(m, 4) && !(IsFlush(cards) && IsStraight(cards))
  {
  }

  /** Full house (7) is returned exactly when some rank occurs three times and another twice, none four
      times, and the cards are not a straight flush. */
  lemma FullHouseIff(cards: seq<int>)
    ensures var m := RankCounts(cards);
      Classify(cards).category == 7 <==>
        HasCount(m, 3) && HasCount(m, 2) && !HasCount(m, 4) && !(IsFlush(cards) && IsStraight(cards))
  {
  }

  /** Flush (6) is returned exactly for one suit without a straight, four of a kind or full house. */
  lemma FlushIff(cards: seq<int>)
    ensures var m := RankCounts(cards);
      Classify(cards).category == 6 <==>
        IsFlush(cards) && !IsStraight(cards) && !HasCount(m, 4) && !(HasCount(m, 3) && HasCount(m, 2))
  {
  }

  /** Straight (5) is returned exactly for a straight of several suits without four of a kind or full house. */
  lemma StraightIff(cards: seq<int>)
    ensures var m := RankCounts(cards);
      Classify(cards).category == 5 <==>
        IsStraight(cards) && !IsFlush(cards) && !HasCount(m, 4) && !(HasCount(m, 3) && HasCount(m, 2))
  {
  }

  /** Three of a kind (4) is returned exactly when some rank occurs three times, none four times and none
      twice, and the cards are neither a flush nor a straight. */
  lemma TripsIff(cards: seq<int>)
    ensures var m := RankCounts(cards);
      Classify(cards).category == 4 <==>
        HasCount(m, 3) && !HasCount(m, 2) && !HasCount(m, 4) && !IsFlush(cards) && !IsStraight(cards)
  {
  }

  /** Four of a kind and full house are returned even when the cards are also a flush. */
  lemma PairPatternsBeatFlush(cards: seq<int>)
    requires !(IsFlush(cards) && IsStraight(cards))
    ensures HasCount(RankCounts(cards), 4) ==> Classify(cards).category == 8
    ensures !HasCount(RankCounts(cards), 4) && HasCount(RankCounts(cards), 3) && HasCount(RankCounts(cards), 2)
      ==> Classify(cards).category == 7
  {
  }

  /** Two pair is returned exactly when two ranks occur twice, none three or four times,
      and the cards are neither a flush nor a straight. */
  lemma TwoPairIff(cards: seq<int>)
    ensures var counts := RankCounts(cards);
      Classify(cards).category == 3 <==>
        |WithCount(counts, 2)| == 2 && !HasCount(counts, 3) && !HasCount(counts, 4)
        && !IsFlush(cards) && !IsStraight(cards)
  {
  }

  /** Pair is returned exactly when some rank occurs twice but not as two pairs, no rank occurs
      three or four times, and the cards are neither a flush nor a straight. */
  lemma PairIff(cards: seq<int>)
    ensures var counts := RankCounts(cards);
      Classify(cards).category == 2 <==>
        HasCount(counts, 2) && |WithCount(counts, 2)| != 2 && !HasCount(counts, 3) && !HasCount(counts, 4)
        && !IsFlush(cards) && !IsStraight(cards)
  {
  }

  /** High card is returned exactly when no rank occurs exactly two, three or four times and the cards
      are neither a flush nor a straight. */
  lemma HighCardIff(cards: seq<int>)
    ensures var counts := RankCounts(cards);
      Classify(cards).category == 1 <==>
        !HasCount(counts, 2) && !HasCount(counts, 3) && !HasCount(counts, 4)
        && !IsFlush(cards) && !IsStraight(cards)
  {
    var counts := RankCounts(cards);
    if !HasCount(counts, 2) {
      assert WithCount(counts, 2) == {};
    }
  }

  // ---------------------------------------------------------------------
  // Hands of real, distinct cards
  // ---------------------------------------------------------------------

  /** The cards of rank `r`. */
  function CardsOfRank(cards: seq<int>, r: int): set<int> {
    set x | x in cards && Rank(x) == r
  }

  /** The ranks of a list are the first card's rank followed by the ranks of the rest. */
  lemma RanksCons(cards: seq<int>)
    requires |cards| > 0
    ensures Ranks(cards) == [Rank(cards[0])] + Ranks(cards[1..])
  {
    assert cards == [cards[0]] + cards[1..];
    MapConcat(Rank, [cards[0]], cards[1..]);
  }

  /** The first card of a list without repeated cards is not among the rest, which has no repeats either. */
  lemma SplitFirst(cards: seq<int>)
    requires NoDuplicates(cards) && |cards| > 0
    ensures cards[0] !in cards[1..] && NoDuplicates(cards[1..])
  {
    var t := cards[1..];
    forall i | 0 <= i < |t| ensures t[i] != cards[0] {
      assert t[i] == cards[i + 1];
    }
    forall i, j | 0 <= i < j < |t| ensures t[i] != t[j] {
      assert t[i] == cards[i + 1] && t[j] == cards[j + 1];
    }
  }

  /** Without repeated cards, a rank occurs as often as there are cards of that rank. */
  lemma {:induction false} RankCountIsCardCount(cards: seq<int>, r: int)
    requires NoDuplicates(cards)
    ensures multiset(Ranks(cards))[r] == |CardsOfRank(cards, r)|
    decreases |cards|
  {
    if |cards| > 0 {
      var h, t := cards[0], cards[1..];
      RanksCons(cards);
      SplitFirst(cards);
      RankCountIsCardCount(t, r);
      assert forall x :: x in cards <==> x == h || x in t;
      if Rank(h) == r {
        assert CardsOfRank(cards, r) == CardsOfRank(t, r) + {h};
      } else {
        assert CardsOfRank(cards, r) == CardsOfRank(t, r);
      }
    }
  }

  /** Real cards of rank `r` have one of the four ids of that rank. */
  lemma CardsOfRankIds(cards: seq<int>, r: int)
    requires ValidHand(cards)
    ensures CardsOfRank(cards, r) <= {10 * r + 1, 10 * r + 2, 10 * r + 3, 10 * r + 4}
  {
  }

  /** Among real, distinct cards a rank occurs at most four times, once per suit. */
  lemma RankCountAtMostFour(cards: seq<int>, r: int)
    requires ValidHand(cards)
    ensures multiset(Ranks(cards))[r] <= 4
  {
    RankCountIsCardCount(cards, r);
    CardsOfRankIds(cards, r);
    SubsetSize(CardsOfRank(cards, r), {10 * r + 1, 10 * r + 2, 10 * r + 3, 10 * r + 4});
  }

  /** On real, distinct cards, high card is returned exactly when no rank repeats and the cards
      are neither a flush nor a straight. */
  lemma HighCardValidIff(cards: seq<int>)
    requires ValidHand(cards)
    ensures Classify(cards).category == 1 <==>
      && (forall r :: multiset(Ranks(cards))[r] <= 1)
      && !IsFlush(cards) && !IsStraight(cards)
  {
    var counts := RankCounts(cards);
    HighCardIff(cards);
    if !HasCount(counts, 2) && !HasCount(counts, 3) && !HasCount(counts, 4) {
      forall r ensures counts[r] <= 1 {
        RankCountAtMostFour(cards, r);
      }
    }
  }
}
