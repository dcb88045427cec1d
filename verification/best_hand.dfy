/** `obtener_mejor_mano`: the best five-card hand among the given cards.

    It lists `itertools.combinations(cards, 5)`, takes the `max` of that list
    under the key `(category, tie-break list)` of `clasificar_mano`, and
    returns the winner's classification together with the winner. With fewer
    than five cards the list is empty and `max` raises `ValueError`.
 */
module BestHand {
  import opened Classifier
  import opened Ordering
  import opened Combinations

  /** `ValueError: max() arg is an empty sequence`. */
  datatype Error = EmptyArgument

  datatype Result<T> = Ok(value: T) | Err(error: Error)

  /** The pair `(clasificar_mano(mejor_mano), mejor_mano)`. */
  datatype Best = Best(hand: Hand, cards: seq<int>)

  /** `evaluar_mano`: the selection key of a five-card hand. */
  function HandKey(cards: seq<int>): Key {
    var h := Classify(cards);
    Key(h.category, h.tiebreak)
  }

  function KeysOf(hands: seq<seq<int>>): (r: seq<Key>)
    ensures |r| == |hands|
    ensures forall i :: 0 <= i < |hands| ==> r[i] == HandKey(hands[i])
  {
    seq(|hands|, i requires 0 <= i < |hands| => HandKey(hands[i]))
  }

  /** `hands[i]` is `hand`, and every hand listed before it has a strictly smaller key. */
  predicate FirstMaxAt(hands: seq<seq<int>>, i: int, hand: seq<int>) {
    && 0 <= i < |hands| && hands[i] == hand
    && forall j :: 0 <= j < i ==> KeyLess(HandKey(hands[j]), HandKey(hand))
  }

  /** A combination that is maximal in the listed order is maximal among all five-card subsequences. */
  lemma MaxOverAllSubsequences(cards: seq<int>, best: seq<int>)
    requires forall j :: 0 <= j < |Choose(cards, 5)| ==> !KeyLess(HandKey(best), HandKey(Choose(cards, 5)[j]))
    ensures forall c :: |c| == 5 && IsSubseq(c, cards) ==> !KeyLess(HandKey(best), HandKey(c))
  {
    forall c | |c| == 5 && IsSubseq(c, cards) ensures !KeyLess(HandKey(best), HandKey(c)) {
      ChooseComplete(cards, 5, c);
    }
  }

  /** `obtener_mejor_mano(cards)`. */
  function ObtainBest(cards: seq<int>): (r: Result<Best>)
    ensures r.Err? <==> |cards| < 5
    ensures r.Ok? ==> |r.value.cards| == 5 && IsSubseq(r.value.cards, cards)
    ensures r.Ok? ==> r.value.hand == Classify(r.value.cards)
    ensures r.Ok? ==> forall c :: |c| == 5 && IsSubseq(c, cards) ==> !KeyLess(HandKey(r.value.cards), HandKey(c))
    ensures r.Ok? ==> exists i :: FirstMaxAt(Choose(cards, 5), i, r.value.cards)
  {
    var combos := Choose(cards, 5);
    ChooseEmptyIff(cards, 5);
    if |combos| == 0 then
      Err(EmptyArgument)
    else
      var keys := KeysOf(combos);
      var i := FirstMax(keys);
      var best := combos[i];
      MaxOverAllSubsequences(cards, best);
      assert FirstMaxAt(combos, i, best);
      Ok(Best(Classify(best), best))
  }
}
