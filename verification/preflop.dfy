/** `clasificar_mano_preflop`: the kind of a two-card starting hand.

    It works on the text ids of the two hole cards: everything but the last
    character is the rank and the last character is the suit. The result is
    2 for a pair, 1 for two suited cards of different rank and 0 otherwise.
 */
module Preflop {
  import opened Cards

  /** The result: a kind, or the `IndexError` raised by `""[-1]`. */
  datatype Outcome = Kind(kind: int) | IndexError

  /** Python's `s[:-1]`: everything but the last character (empty for the empty string). */
  function DropLast(s: string): (r: string)
    ensures |s| > 0 ==> r + [s[|s| - 1]] == s
    ensures |s| == 0 ==> r == s
  {
    if |s| == 0 then s else s[..|s| - 1]
  }

  /** `clasificar_mano_preflop([first, second])`. The rank parts are compared first, so the suit
      character is only read (and can be missing) when the rank parts differ. */
  function ClassifyPreflop(first: string, second: string): (r: Outcome)
    ensures r.Kind? ==> 0 <= r.kind <= 2
    ensures r == Kind(2) <==> DropLast(first) == DropLast(second)
    ensures r == IndexError <==> DropLast(first) != DropLast(second) && (|first| == 0 || |second| == 0)
    ensures r == Kind(1) <==>
      && DropLast(first) != DropLast(second) && |first| > 0 && |second| > 0
      && first[|first| - 1] == second[|second| - 1]
    ensures r == Kind(0) <==>
      && DropLast(first) != DropLast(second) && |first| > 0 && |second| > 0
      && first[|first| - 1] != second[|second| - 1]
  {
    if DropLast(first) == DropLast(second) then Kind(2)
    else if |first| == 0 || |second| == 0 then IndexError
    else if first[|first| - 1] == second[|second| - 1] then Kind(1)
    else Kind(0)
  }

  /** The order of the two hole cards does not matter. */
  lemma PreflopSymmetric(first: string, second: string)
    ensures ClassifyPreflop(first, second) == ClassifyPreflop(second, first)
  {
  }

  /** On real cards the text slicing reads ranks and suits: 2 exactly for equal ranks,
      1 exactly for different ranks of the same suit, 0 exactly for different ranks and suits. */
  lemma PreflopOfCards(a: int, b: int)
    requires ValidId(a) && ValidId(b)
    ensures ClassifyPreflop(IdText(a), IdText(b)).Kind?
    ensures var kind := ClassifyPreflop(IdText(a), IdText(b)).kind;
      && (kind == 2 <==> Rank(a) == Rank(b))
      && (kind == 1 <==> Rank(a) != Rank(b) && Suit(a) == Suit(b))
      && (kind == 0 <==> Rank(a) != Rank(b) && Suit(a) != Suit(b))
  {
    CardTextOfId(Rank(a), Suit(a));
    CardTextOfId(Rank(b), Suit(b));
    DecimalTextInjective(Rank(a), Rank(b));
    if Suit(a) != Suit(b) {
      assert DigitValue(DigitChar(Suit(a))) != DigitValue(DigitChar(Suit(b)));
    }
  }
}
