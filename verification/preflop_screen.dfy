/** The starting-hand screen: choosing two hole cards and typing the number of
    rivals before moving on to the table.

    Mouse hit-testing is pixel arithmetic and is not modelled: a click arrives
    already resolved into the cards it hit and whether it hit the text box or
    the continue button.
 */
module PreflopScreen {
  import opened Cards

  // ---------------------------------------------------------------------
  // Hole-card selection
  // ---------------------------------------------------------------------

  /** At most two cards are selected and none twice. */
  predicate SelectionOk<T(==)>(selected: seq<T>) {
    |selected| <= 2 && NoDuplicates(selected)
  }

  /** `list.index(x)`: the position of the first occurrence of `x`. */
  function IndexOf<T(==)>(s: seq<T>, x: T): (i: nat)
    requires x in s
    ensures i < |s| && s[i] == x && x !in s[..i]
    decreases |s|
  {
    if s[0] == x then 0
    else
      var i := IndexOf(s[1..], x);
      assert s[..i + 1] == [s[0]] + s[1..][..i];
      i + 1
  }

  /** `list.remove(x)`: delete the first occurrence of `x`. */
  function RemoveFirst<T(==)>(s: seq<T>, x: T): (r: seq<T>)
    requires x in s
  {
    var i := IndexOf(s, x);
    s[..i] + s[i + 1..]
  }

  /** `handle_card_selection`: a selected card is deselected; otherwise the card is added at the end
      while fewer than two are selected, and ignored when two already are. */
  function SelectCard<T(==)>(selected: seq<T>, card: T): (r: seq<T>)
    ensures card in selected ==> |r| == |selected| - 1 && multiset(r) == multiset(selected) - multiset{card}
    ensures card !in selected && |selected| < 2 ==> |r| == |selected| + 1 && r[..|selected|] == selected && r[|selected|] == card
    ensures card !in selected && |selected| >= 2 ==> r == selected
  {
    if card in selected then
      var i := IndexOf(selected, card);
      assert selected == selected[..i] + [card] + selected[i + 1..];
      RemoveFirst(selected, card)
    else if |selected| < 2 then selected + [card]
    else selected
  }

  /** A deselected card is gone when no card was selected twice. */
  lemma DeselectRemoves<T>(selected: seq<T>, card: T)
    requires NoDuplicates(selected) && card in selected
    ensures card !in SelectCard(selected, card)
  {
    var r := SelectCard(selected, card);
    assert multiset(selected)[card] == 1 by {
      var i :| 0 <= i < |selected| && selected[i] == card;
      assert selected == selected[..i] + [card] + selected[i + 1..];
      assert card !in selected[..i] && card !in selected[i + 1..];
    }
    assert multiset(r)[card] == 0;
  }

  /** Every selection keeps "at most two cards, none twice". */
  lemma SelectCardKeepsSelectionOk<T>(selected: seq<T>, card: T)
    requires SelectionOk(selected)
    ensures SelectionOk(SelectCard(selected, card))
  {
    var r := SelectCard(selected, card);
    if card !in selected && |selected| < 2 {
      assert r == selected + [card];
    }
  }

  /** Selecting a new card and then selecting it again gives back the previous selection. */
  lemma SelectTwiceUndoes<T>(selected: seq<T>, card: T)
    requires card !in selected && |selected| < 2
    ensures SelectCard(SelectCard(selected, card), card) == selected
  {
    var once := SelectCard(selected, card);
    assert once == selected + [card];
    assert once[..|selected|] == selected;
    assert IndexOf(once, card) == |selected|;
  }

  /** The `for` loop over the card rectangles: every card the click hit is selected in turn. */
  function SelectAll<T(==)>(selected: seq<T>, hits: seq<T>): (r: seq<T>)
    decreases |hits|
  {
    if |hits| == 0 then selected else SelectAll(SelectCard(selected, hits[0]), hits[1..])
  }

  lemma {:induction false} SelectAllKeepsSelectionOk<T>(selected: seq<T>, hits: seq<T>)
    requires SelectionOk(selected)
    ensures SelectionOk(SelectAll(selected, hits))
    decreases |hits|
  {
    if |hits| > 0 {
      SelectCardKeepsSelectionOk(selected, hits[0]);
      SelectAllKeepsSelectionOk(SelectCard(selected, hits[0]), hits[1..]);
    }
  }

  // ---------------------------------------------------------------------
  // Number of rivals
  // ---------------------------------------------------------------------

  /** A key press: backspace, or any other key with the text it produces (`event.unicode`). */
  datatype KeyPress = Backspace | Text(unicode: string)

  /** A key press produces at most one character. */
  predicate SingleCharacter(key: KeyPress) {
    key.Text? ==> |key.unicode| <= 1
  }

  /** The text box: backspace drops the last character (nothing happens on an empty box);
      typed digits are appended only while the box is empty. */
  function RivalKey(input: string, key: KeyPress): (r: string)
    ensures key.Backspace? && |input| > 0 ==> r + [input[|input| - 1]] == input
    ensures key.Text? && IsDigitString(key.unicode) && |input| == 0 ==> r == key.unicode
    ensures |input| >= 1 && key.Text? ==> r == input
    ensures key.Backspace? && |input| == 0 ==> r == input
    ensures key.Text? && !IsDigitString(key.unicode) ==> r == input
  {
    match key
    case Backspace => if |input| == 0 then input else input[..|input| - 1]
    case Text(u) => if IsDigitString(u) && |input| < 1 then input + u else input
  }

  /** The text box holds at most one character, and only digits. */
  predicate RivalsOk(input: string) {
    |input| <= 1 && forall i :: 0 <= i < |input| ==> IsDigit(input[i])
  }

  lemma RivalKeyKeepsRivalsOk(input: string, key: KeyPress)
    requires RivalsOk(input) && SingleCharacter(key)
    ensures RivalsOk(RivalKey(input, key))
  {
  }

  /** The continue test: exactly two cards and a number of rivals from 1 to 8. */
  predicate CanContinue<T>(selected: seq<T>, input: string) {
    |selected| == 2 && IsDigitString(input) && 1 <= Parse(input) <= 8
  }

  /** With a well-kept text box the test accepts exactly the single characters '1' to '8'. */
  lemma CanContinueIff<T>(selected: seq<T>, input: string)
    requires RivalsOk(input)
    ensures CanContinue(selected, input) <==> |selected| == 2 && |input| == 1 && '1' <= input[0] <= '8'
  {
  }

  // ---------------------------------------------------------------------
  // The screen's event handler
  // ---------------------------------------------------------------------

  datatype State<T> = State(selected: seq<T>, rivals: string, inputActive: bool)

  /** A mouse click, already resolved into what it hit, or a key press. */
  datatype Event<T> =
    | MouseDown(hitCards: seq<T>, onInput: bool, onContinue: bool)
    | KeyDown(key: KeyPress)

  /** The screen stays (with its new state) or hands two cards and the rival count to the table screen. */
  datatype Next<T> = Stay(state: State<T>) | ToTable(first: T, second: T, rivals: int)

  predicate StateOk<T(==)>(s: State<T>) {
    SelectionOk(s.selected) && RivalsOk(s.rivals)
  }

  /** `handle_events`. */
  function HandleEvent<T(==)>(s: State<T>, e: Event<T>): (n: Next<T>)
    ensures n.ToTable? ==> e.MouseDown? && e.onContinue && CanContinue(SelectAll(s.selected, e.hitCards), s.rivals)
    ensures n.ToTable? ==> 1 <= n.rivals <= 8
    ensures e.MouseDown? && e.onContinue && CanContinue(SelectAll(s.selected, e.hitCards), s.rivals) ==>
      var selected := SelectAll(s.selected, e.hitCards);
      n == ToTable(selected[0], selected[1], Parse(s.rivals))
    ensures e.MouseDown? && n.Stay? ==> n.state == State(SelectAll(s.selected, e.hitCards), s.rivals, e.onInput)
    ensures e.KeyDown? ==> n.Stay? && n.state.selected == s.selected && n.state.inputActive == s.inputActive
    ensures e.KeyDown? ==> n.state.rivals == if s.inputActive then RivalKey(s.rivals, e.key) else s.rivals
  {
    match e
    case MouseDown(hits, onInput, onContinue) =>
      var selected := SelectAll(s.selected, hits);
      if onContinue && CanContinue(selected, s.rivals) then
        ToTable(selected[0], selected[1], Parse(s.rivals))
      else
        Stay(State(selected, s.rivals, onInput))
    case KeyDown(key) =>
      if s.inputActive then Stay(s.(rivals := RivalKey(s.rivals, key))) else Stay(s)
  }

  /** Every event keeps the screen state well formed, and leaving the screen hands over two
      different cards and a rival count from 1 to 8. */
  lemma HandleEventKeepsStateOk<T>(s: State<T>, e: Event<T>)
    requires StateOk(s)
    requires e.KeyDown? ==> SingleCharacter(e.key)
    ensures HandleEvent(s, e).Stay? ==> StateOk(HandleEvent(s, e).state)
    ensures HandleEvent(s, e).ToTable? ==> HandleEvent(s, e).first != HandleEvent(s, e).second
  {
    if e.MouseDown? {
      SelectAllKeepsSelectionOk(s.selected, e.hitCards);
    } else {
      RivalKeyKeepsRivalsOk(s.rivals, e.key);
    }
  }
}
