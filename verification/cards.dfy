/** Card identifiers.

    The application names a card by the text of `rank*10 + suit`: ranks run from
    2 to 14 (11..14 are Jack, Queen, King, Ace) and suits from 1 to 4 (spades,
    clubs, diamonds, hearts). The evaluator turns that text into an integer and
    reads the rank back with `// 10` and the suit with `% 10`.
 */
module Cards {

  /** Rank part of an integer card id (floor division; ids are never negative). */
  function Rank(id: int): int {
    id / 10
  }

  /** Suit part of an integer card id. */
  function Suit(id: int): int {
    id % 10
  }

  /** An id that stands for a real card of the 52-card deck. */
  predicate ValidId(id: int) {
    2 <= Rank(id) <= 14 && 1 <= Suit(id) <= 4
  }

  /** No element occurs twice. */
  predicate NoDuplicates<T(==)>(s: seq<T>) {
    forall i, j :: 0 <= i < j < |s| ==> s[i] != s[j]
  }

  /** Every id in `cards` is a real card and no card occurs twice. */
  predicate ValidHand(cards: seq<int>) {
    (forall i :: 0 <= i < |cards| ==> ValidId(cards[i])) && NoDuplicates(cards)
  }

  /** The id of the card with the given rank and suit. */
  function IdOf(rank: int, suit: int): (id: int)
    requires 2 <= rank <= 14 && 1 <= suit <= 4
    ensures ValidId(id)
    ensures Rank(id) == rank && Suit(id) == suit
  {
    rank * 10 + suit
  }

  lemma IdOfRankSuit(id: int)
    requires ValidId(id)
    ensures IdOf(Rank(id), Suit(id)) == id
  {
  }

  // ---------------------------------------------------------------------
  // Decimal text, as produced by an f-string and read back by `int(...)`.
  // ---------------------------------------------------------------------

  predicate IsDigit(c: char) {
    '0' <= c <= '9'
  }

  /** A string that Python's `int(...)` reads as a decimal number (ASCII digits only). */
  predicate IsDigitString(s: string) {
    |s| > 0 && forall i :: 0 <= i < |s| ==> IsDigit(s[i])
  }

  function DigitChar(d: int): (c: char)
    requires 0 <= d < 10
    ensures IsDigit(c)
  {
    ('0' as int + d) as char
  }

  function DigitValue(c: char): (d: int)
    requires IsDigit(c)
    ensures 0 <= d < 10
    ensures DigitChar(d) == c
  {
    c as int - '0' as int
  }

  /** Python's `str(n)` for a natural number: most significant digit first, no leading zero. */
  function DecimalText(n: nat): (s: string)
    ensures IsDigitString(s)
    ensures (n < 10) == (|s| == 1)
    ensures s[0] != '0' || n == 0
    decreases n
  {
    if n < 10 then [DigitChar(n)] else DecimalText(n / 10) + [DigitChar(n % 10)]
  }

  /** Python's `int(s)` on a string of ASCII digits. */
  function Parse(s: string): (n: nat)
    requires IsDigitString(s)
    decreases |s|
  {
    if |s| == 1 then DigitValue(s[0])
    else 10 * Parse(s[..|s| - 1]) + DigitValue(s[|s| - 1])
  }

  /** Reading back the text of a number gives the number. */
  lemma {:induction false} ParseDecimalText(n: nat)
    ensures Parse(DecimalText(n)) == n
    decreases n
  {
    if n >= 10 {
      var s := DecimalText(n);
      assert s[..|s| - 1] == DecimalText(n / 10);
      ParseDecimalText(n / 10);
    }
  }

  /** Writing out the value of a digit string without leading zero gives the string back. */
  lemma {:induction false} DecimalTextOfParse(s: string)
    requires IsDigitString(s)
    requires s[0] != '0' || |s| == 1
    ensures DecimalText(Parse(s)) == s
    decreases |s|
  {
    if |s| > 1 {
      var p := s[..|s| - 1];
      assert p[0] == s[0];
      DecimalTextOfParse(p);
      ParsePositive(p);
      var n := Parse(s);
      assert n / 10 == Parse(p) && n % 10 == DigitValue(s[|s| - 1]);
    }
  }

  /** A digit string that does not start with '0' denotes a number of at least 1. */
  lemma {:induction false} ParsePositive(s: string)
    requires IsDigitString(s)
    requires s[0] != '0'
    ensures Parse(s) >= 1
    decreases |s|
  {
    if |s| > 1 {
      var p := s[..|s| - 1];
      assert p[0] == s[0];
      ParsePositive(p);
    }
  }

  lemma DecimalTextInjective(a: nat, b: nat)
    ensures DecimalText(a) == DecimalText(b) <==> a == b
  {
    ParseDecimalText(a);
    ParseDecimalText(b);
  }

  /** The text id of a card, `f'{valor}{palo}'`: rank digits followed by one suit digit. */
  function CardText(rank: int, suit: int): string
    requires 2 <= rank <= 14 && 1 <= suit <= 4
  {
    DecimalText(rank) + DecimalText(suit)
  }

  /** The text id is the decimal text of the integer id: `int(...)` and `str(...)` agree on cards,
      the rank is everything but the last character and the suit is the last character. */
  lemma CardTextOfId(rank: int, suit: int)
    requires 2 <= rank <= 14 && 1 <= suit <= 4
    ensures CardText(rank, suit) == DecimalText(IdOf(rank, suit))
    ensures Parse(CardText(rank, suit)) == IdOf(rank, suit)
    ensures var t := CardText(rank, suit);
      t[..|t| - 1] == DecimalText(rank) && t[|t| - 1] == DigitChar(suit)
  {
    var id := IdOf(rank, suit);
    assert id / 10 == rank && id % 10 == suit;
    ParseDecimalText(id);
    var t := CardText(rank, suit);
    assert t[..|t| - 1] == DecimalText(rank);
  }

  /** The text id of the card with integer id `id`. */
  function IdText(id: int): string
    requires ValidId(id)
  {
    CardText(Rank(id), Suit(id))
  }
}
