# poker-mind hand evaluator, in Dafny

This project models the hand-evaluation core of the poker-mind application, together with
the starting-hand screen that feeds it.

- **Card ids.** A card is named by the text `f'{valor}{palo}'`, and its integer id is
  `rank*10 + suit`.
  - Ranks run from 2 to 14, where 11..14 are J, Q, K, A.
  - Suits run from 1 to 4: spades, clubs, diamonds, hearts.
- **`clasificar_mano`** takes a list of card ids and returns `(category, tie-break list, name)`.
  - The category runs from 1 (high card) to 10 (royal flush).
  - The result comes from the rank counts, a one-suit test and a straight test.
  - The ace-low straight A-2-3-4-5 (the "wheel") is special-cased.
- **`obtener_mejor_mano`** takes the `max` over `itertools.combinations(cards, 5)`, keyed by
  `(category, tie-break list)`.
- **`clasificar_mano_preflop`** sorts the two hole cards into pair (2), suited (1) and other (0).
  It does this by slicing their text ids.
- **The starting-hand screen** models three things:
  - selecting hole cards (a click toggles a card, with at most two selected);
  - the one-character text box for the number of rivals;
  - the guard that lets the player continue to the table.

Modules:

- `Cards`: card ids, their rank and suit, and their decimal text.
- `Sorting`: an ascending sort standing in for `list.sort()`, proved to be the unique sorted
  permutation.
- `Counting`: `Counter` as a multiset, and bounds on multiplicities.
- `Classifier`: `clasificar_mano`.
- `Ordering`: Python's tuple and list order, and `max(..., key=...)`.
- `Combinations`: `itertools.combinations`, with the order in which it lists the combinations.
- `BestHand`: `obtener_mejor_mano`.
- `Preflop`: `clasificar_mano_preflop`.
- `PreflopScreen`: the starting-hand screen.
- `Scenarios`: concrete hands classified and compared.

Behaviour of the code a reader might not expect:

- **Tie-break order.** The tie-break list is the ranks in ASCENDING order, and Python compares
  lists from the first entry. So between two hands of the same category, the one with the
  higher LOWEST card wins. For example, a pair of kings with A-3-2 loses to a pair of kings
  with Q-4-3 (`Scenarios.AscendingTieBreakOrder`). The wheel alone gets the descending list
  [5, 4, 3, 2, 1].
- **Input size.** `clasificar_mano` is not restricted to five cards. The application also calls
  it on 5, 6 and 7 cards. The straight test then asks for five distinct ranks spanning 4,
  which six or seven cards with a repeated rank can pass.
- **No validation.** Invalid ids are not rejected: no list of integer ids makes the classifier
  fail, and the empty list is high card. `int(carta)` (app/screens/hand_screen.py:274) would
  raise `ValueError` on text that is not a number, but the application only passes the digit
  texts it builds itself.
- **Too few cards.** `obtener_mejor_mano` on fewer than five cards fails, because `max` of an
  empty sequence raises `ValueError`. The model returns that error as a value.

## Model

| member | source | states |
|---|---|---|
| Cards.IdOf | app/screens/preflop_screen.py:92-94 | the id built from a rank in 2..14 and a suit in 1..4 is a valid card whose `// 10` and `% 10` give back that rank and suit |
| Cards.IdOfRankSuit | app/screens/hand_screen.py:277-278 | every valid id is rebuilt from its floor-divided rank and its remainder suit |
| Cards.DecimalText | app/screens/preflop_screen.py:94 | `str(n)` is digits only, a single character exactly when n is below 10, and without a leading zero |
| Cards.ParseDecimalText | app/screens/hand_screen.py:274 | `int(str(n)) == n` for every natural number |
| Cards.DecimalTextOfParse | app/screens/hand_screen.py:274 | a digit string without leading zero is the text of its own value |
| Cards.CardTextOfId | app/screens/preflop_screen.py:92-94 | the card text `f'{valor}{palo}'` is the decimal text of `rank*10 + suit`; `int(...)` reads the id, everything but the last character is the rank text, and the last character is the suit digit |
| Cards.DecimalTextInjective | app/screens/hand_screen.py:320 | two numbers have equal texts exactly when they are equal |
| Sorting.SortAsc | app/screens/hand_screen.py:286 | `valores.sort()` yields an ascending permutation of the ranks |
| Sorting.SortedUnique | app/screens/hand_screen.py:286 | two ascending lists with the same elements are equal, so any correct sort gives the same tie-break list |
| Sorting.SortAscPermutation | app/screens/hand_screen.py:286 | sorting lists with the same elements gives the same list |
| Sorting.SortedBounds | app/screens/hand_screen.py:289 | after sorting, the first entry is `min(valores)` and the last is `max(valores)` |
| Counting.MapPermutation | app/screens/hand_screen.py:277-278 | mapping cards to ranks or suits keeps "same elements, any order" |
| Counting.CountBound | app/screens/hand_screen.py:281 | a rank occurring m times leaves at most n - m + 1 distinct ranks among n cards |
| Counting.CountBound2 | app/screens/hand_screen.py:281 | two different ranks occurring m1 and m2 times leave at most n - m1 - m2 + 2 distinct ranks |
| Counting.DistinctBound | app/screens/hand_screen.py:289 | there are at most as many distinct ranks as cards |
| Classifier.Ladder | app/screens/hand_screen.py:297-316 | the ladder always gives a category from 1 to 10 with its own name, and returns the tie-break list unchanged |
| Classifier.Classify | app/screens/hand_screen.py:272-316 | a category from 1 to 10 with its name; for a wheel the tie-break list is [5, 4, 3, 2, 1], otherwise it is the ranks in ascending order (a sorted permutation of them) |
| Classifier.ClassifyPermutation | app/screens/hand_screen.py:277-294 | the classification depends only on which cards are given, not on their order |
| Classifier.SameRankFlags | app/screens/hand_screen.py:286-294 | cards with the same ranks in any order agree on the straight flag and the tie-break list |
| Classifier.RunIsConsecutive | app/screens/hand_screen.py:289 | "five distinct ranks and max - min == 4" holds exactly when the distinct ranks are five consecutive numbers |
| Classifier.RunGivesConsecutive | app/screens/hand_screen.py:289 | a passing straight test means the distinct ranks are the five numbers from the lowest rank up |
| Classifier.ConsecutiveGivesRun | app/screens/hand_screen.py:289 | five consecutive distinct ranks pass the straight test |
| Classifier.SortedSpanConsecutive | app/screens/hand_screen.py:289 | a sorted list with five distinct values spanning 4 holds exactly five consecutive values |
| Classifier.ConsecutiveSortedEnds | app/screens/hand_screen.py:289 | a sorted list of five consecutive values starts at the lowest and ends at the highest |
| Classifier.SortedRankBounds | app/screens/hand_screen.py:286-289 | every rank lies between the first and last sorted rank, and both of those are ranks of the cards |
| Classifier.WheelIsStraight | app/screens/hand_screen.py:291-308 | a wheel that is not all one suit, among at most seven cards, is a straight (5) with tie-break [5, 4, 3, 2, 1] |
| Classifier.WheelIsStraightFlush | app/screens/hand_screen.py:291-300 | a one-suit wheel is a straight flush (9) |
| Classifier.WheelNeverRoyal | app/screens/hand_screen.py:292-299 | a wheel is never a royal flush, because its overwritten tie-break list holds no ace |
| Classifier.RoyalFlushIff | app/screens/hand_screen.py:285-299 | category 10 is returned exactly for one suit and the rank set {10, J, Q, K, A} |
| Classifier.RoyalRanksStraight | app/screens/hand_screen.py:289-298 | the ranks {10, J, Q, K, A} pass the straight test, are not a wheel, and are the tie-break list's own rank set |
| Classifier.LadderRoyal | app/screens/hand_screen.py:297-299 | the ladder gives 10 exactly for flush, straight and a royal rank set |
| Classifier.StraightFlushFirst | app/screens/hand_screen.py:297-300 | 9 or 10 is returned exactly when the cards are both flush and straight, so a straight flush beats every other category |
| Classifier.StraightFlushIff | app/screens/hand_screen.py:297-300 | category 9 exactly for flush and straight whose tie-break set is not {10, J, Q, K, A} |
| Classifier.FourOfAKindIff | app/screens/hand_screen.py:297-302 | category 8 exactly when some rank occurs four times and the cards are not a straight flush |
| Classifier.FullHouseIff | app/screens/hand_screen.py:297-304 | category 7 exactly when some rank occurs three times and some twice, none four times, and the cards are not a straight flush |
| Classifier.FlushIff | app/screens/hand_screen.py:297-306 | category 6 exactly for one suit without a straight, four of a kind or full house |
| Classifier.StraightIff | app/screens/hand_screen.py:297-308 | category 5 exactly for a straight of several suits without four of a kind or full house |
| Classifier.TripsIff | app/screens/hand_screen.py:297-310 | category 4 exactly when some rank occurs three times, none twice or four times, and the cards are neither flush nor straight |
| Classifier.PairPatternsBeatFlush | app/screens/hand_screen.py:301-306 | four of a kind (8) and full house (7) win over a plain flush or straight |
| Classifier.TwoPairIff | app/screens/hand_screen.py:301-312 | category 3 exactly when two ranks occur twice, none three or four times, and the cards are neither flush nor straight |
| Classifier.PairIff | app/screens/hand_screen.py:301-314 | category 2 exactly when some rank occurs twice but not as exactly two pairs, none three or four times, and the cards are neither flush nor straight |
| Classifier.HighCardIff | app/screens/hand_screen.py:301-316 | category 1 exactly when no rank occurs exactly two, three or four times and the cards are neither flush nor straight (any list of ids, so a rank may occur five or more times) |
| Classifier.HighCardValidIff | app/screens/hand_screen.py:301-316 | on real cards without repeats, category 1 exactly when no rank occurs twice and the cards are neither flush nor straight |
| Classifier.RankCountAtMostFour | app/screens/hand_screen.py:281 | among real cards without repeats, `Counter(valores)` never exceeds 4 for a rank, one per suit |
| Classifier.RankCountIsCardCount | app/screens/hand_screen.py:281 | without repeated cards, the count of a rank is the number of cards of that rank |
| Classifier.CardsOfRankIds | app/screens/hand_screen.py:277-278 | a real card of rank r is one of the ids 10r+1 to 10r+4 |
| Classifier.SameDistinct | app/screens/hand_screen.py:292 | lists with the same elements have the same `set(...)` |
| Ordering.LexIrreflexive | app/screens/hand_screen.py:337 | no list of ranks is below itself |
| Ordering.LexTransitive | app/screens/hand_screen.py:337 | the list order is transitive |
| Ordering.LexTotal | app/screens/hand_screen.py:337 | any two different lists are ordered one way or the other |
| Ordering.KeyIrreflexive | app/screens/hand_screen.py:337 | no key `(category, list)` is below itself |
| Ordering.KeyTransitive | app/screens/hand_screen.py:337 | the key order is transitive |
| Ordering.KeyTotal | app/screens/hand_screen.py:337 | any two different keys are ordered one way or the other |
| Ordering.MaxStep | app/screens/hand_screen.py:340 | one step of `max` keeps the current best unless the next key is strictly greater, and the result is the first maximum so far |
| Ordering.FirstMax | app/screens/hand_screen.py:340 | `max(..., key=...)` returns a position no key exceeds, and every earlier key is strictly smaller |
| Ordering.FirstMaxUnique | app/screens/hand_screen.py:340 | a position that is maximal and strictly above all earlier keys is the one `max` returns |
| Combinations.Choose | app/screens/hand_screen.py:332 | `combinations(cards, 5)` lists Binomial(n, 5) entries, each a length-5 subsequence of the cards |
| Combinations.ChooseComplete | app/screens/hand_screen.py:332 | every length-k subsequence of the cards is among the combinations |
| Combinations.ChooseEmptyIff | app/screens/hand_screen.py:332-340 | there are no combinations exactly when there are fewer than k cards |
| Combinations.ChooseOrder | app/screens/hand_screen.py:332-340 | `combinations(cards, k)` lists the cards picked at the k-position lists, and those position lists come in strictly increasing lexicographic order; this fixes which of several equal hands `max` returns first |
| Combinations.ChoosePositions | app/screens/hand_screen.py:332 | the combinations of a suffix of the cards are the cards picked at the combinations of that suffix's positions, entry by entry |
| Combinations.ChooseLexIncreasing | app/screens/hand_screen.py:332 | over strictly increasing items, each combination is lexicographically below every later one |
| Combinations.PickStep | app/screens/hand_screen.py:332 | picking commutes with one step of the enumeration: combinations with the first element first, then those without it |
| Combinations.SubseqElements | app/screens/hand_screen.py:332 | every element of a combination is one of the cards |
| Combinations.ChooseSingletons | app/screens/hand_screen.py:332 | the combinations of one card are the single cards, in the given order |
| Combinations.ChooseFourTwo | app/screens/hand_screen.py:332 | the combinations of [1, 2, 3, 4] taken two at a time are [1, 2], [1, 3], [1, 4], [2, 3], [2, 4], [3, 4], in that order |
| Combinations.BinomialPositive | app/screens/hand_screen.py:332 | the number of k-combinations of n items is positive exactly when k <= n |
| BestHand.MaxOverAllSubsequences | app/screens/hand_screen.py:332-340 | a hand maximal among the listed combinations is maximal among all five-card subsequences |
| BestHand.ObtainBest | app/screens/hand_screen.py:331-341 | fails exactly when there are fewer than five cards; otherwise returns a five-card subsequence with its classification, whose key no five-card subsequence exceeds, and which is the first such in `combinations` order |
| Preflop.DropLast | app/screens/hand_screen.py:320 | `s[:-1]` followed by the last character gives back `s`, and is empty on the empty string |
| Preflop.ClassifyPreflop | app/screens/hand_screen.py:318-329 | 2 exactly when the texts agree except for the last character; otherwise `IndexError` exactly when one text is empty, 1 exactly when both last characters are equal, and 0 exactly when they differ |
| Preflop.PreflopSymmetric | app/screens/hand_screen.py:318-329 | swapping the two hole cards does not change the result |
| Preflop.PreflopOfCards | app/screens/hand_screen.py:318-329 | on real cards: 2 exactly for equal ranks, 1 exactly for different ranks of one suit, 0 exactly for different ranks and suits |
| PreflopScreen.IndexOf | app/screens/preflop_screen.py:67 | `list.index` finds the first occurrence |
| PreflopScreen.SelectCard | app/screens/preflop_screen.py:65-69 | a selected card is removed (one occurrence, the rest kept); a new card is appended while fewer than two are selected; otherwise nothing changes |
| PreflopScreen.DeselectRemoves | app/screens/preflop_screen.py:66-67 | with no duplicates, clicking a selected card deselects it completely |
| PreflopScreen.SelectCardKeepsSelectionOk | app/screens/preflop_screen.py:65-69 | at most two cards and none twice stays true after every click |
| PreflopScreen.SelectTwiceUndoes | app/screens/preflop_screen.py:65-69 | clicking a new card twice restores the previous selection |
| PreflopScreen.SelectAllKeepsSelectionOk | app/screens/preflop_screen.py:41-43 | clicking over any number of card rectangles keeps the selection well formed |
| PreflopScreen.RivalKey | app/screens/preflop_screen.py:57-61 | backspace drops the last character and leaves an empty box empty; digit text is taken only into an empty box; non-digit text is ignored, and a full box ignores every text key |
| PreflopScreen.RivalKeyKeepsRivalsOk | app/screens/preflop_screen.py:57-61 | the box always holds at most one digit when each key yields one character |
| PreflopScreen.CanContinueIff | app/screens/preflop_screen.py:52 | with a well-kept box the continue test passes exactly for two cards and one of the characters '1' to '8' |
| PreflopScreen.HandleEvent | app/screens/preflop_screen.py:38-63 | a click on the continue button moves on exactly when the test passes, handing over the two selected cards and `int(rivals)`, from 1 to 8; any other click keeps the rival text and sets the box active exactly when the click hit it, after toggling the hit cards; a key press changes only the rival text, and only while the box is active |
| PreflopScreen.HandleEventKeepsStateOk | app/screens/preflop_screen.py:38-63 | every event keeps the screen state well formed, and moving on hands over two different cards |
| Scenarios.MixedWheelIsStraight | app/screens/hand_screen.py:291-308 | A-2-3-4-5 of mixed suits is "Escalera" with tie-break [5, 4, 3, 2, 1] |
| Scenarios.SpadeRoyalIsRoyal | app/screens/hand_screen.py:297-299 | 10 to A of spades is "Escalera Real" |
| Scenarios.SinglePairCounts | app/screens/hand_screen.py:309-314 | with one rank twice and all others distinct, no rank occurs three or four times and exactly one rank occurs twice |
| Scenarios.OnePairFacts | app/screens/hand_screen.py:286-314 | four distinct ranks among five cards of several suits is a pair, with the ranks sorted ascending as tie-break |
| Scenarios.PairBelowRoyal | app/screens/hand_screen.py:335-340 | under the key `(category, tie-break list)` a pair of kings ranks below the royal flush of spades and not above it |
| Scenarios.AscendingTieBreakOrder | app/screens/hand_screen.py:286-340 | K-K-A-3-2 gets tie-break [2, 3, 13, 13, 14] and ranks below K-K-Q-4-3, whose tie-break is [3, 4, 12, 13, 13] |

## Left out

- **Rendering, sound and image loading.** The pygame screens, `utils.py`, the title screen and
  the application loop are left out as I/O.
- **Click resolution.** Turning a click's pixel position into the cards, the text box or the
  button it hit is left out; a click arrives already resolved.
- **Prediction.** The neural-network prediction in `predict_hand` is a foreign call and is left
  out: the Keras model, the scaler and the pandas frame.
- **Community cards.** Picking the community cards on the hand screen is UI state and is not
  part of this model.
- **Card ids as text.** Ids are modelled as the integers that `int(carta)` yields. The text form
  matters only to `clasificar_mano_preflop` and is modelled there through `Cards.CardText`.
- **Unicode digits.** `event.unicode.isdigit()` (app/screens/preflop_screen.py:60) also accepts
  non-ASCII digits, and the model accepts only '0' to '9'. So the model cannot reach two
  behaviours of the code:
  - A character such as '²' counts as a digit but is not one `int` can read. Once it is in the
    box, `int(self.rivals_input)` raises `ValueError`. This happens on the next frame drawn with
    two cards selected (app/screens/preflop_screen.py:150), and on a click of the continue
    button with two cards selected (app/screens/preflop_screen.py:52). Either way the screen
    crashes.
  - A decimal digit of another script, such as Arabic-Indic '٣', is read by `int` and counts as
    a number of rivals.
- `Sorting.SortAsc`: an insertion sort stands in for Timsort. Any correct sort gives the same
  list, by `Sorting.SortedUnique`.
- `Classifier.WheelIsStraight`: limited to at most seven cards, the most the application
  passes. With eight cards, four aces could make the hand four of a kind.
- `PreflopScreen.RivalKeyKeepsRivalsOk`: assumes each key press delivers at most one character
  in `event.unicode`, as pygame does for a single key.
