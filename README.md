# Italian cards: deck, Camicia engine and move parser

A Dafny model of three pieces of the Italian-Cards repository:

- **Cards** (`cards.dfy`, from `core/src/lib.rs`). The forty-card Italian deck: suits, numerals 1..7 and the three face cards, a card's numeric value, and the `Deck` double-ended queue. The top of a deck is the back of the queue and the bottom is its front. The module also holds the rank-major construction of the deck and its Fisher–Yates shuffle.
- **Camicia** (`camicia.dfy`, from `camicia/src/lib.rs`). The beggar-my-neighbour engine. A `Game` object owns three decks (the pile and two hands), whose turn it is and the forced payment still owed. `Tick` is proved against a pure one-tick function `Step` on a snapshot value `GameState`. Card conservation and the forced-payment invariant are proved about `Step` and about every sequence of ticks.
- **ParseMove** (`parse_move.dfy`, from `src/parse_move.rs`). The text form of a Scopa move. `t<n>` drops hand card n; `<n>;<i1>+…+<ik>` captures table cards. Each parser is a pure function returning `None` or `Some((remainder, move))`. The nom combinators it is built from are specified directly:
  - `u32` reads the longest run of ASCII digits and fails if there is none or if the value exceeds 2^32 - 1;
  - `separated_list0` never fails, and an item that does not parse ends the list before its `+`;
  - `alt` falls back to its second parser.

  A printer `Format` is proved to be a right inverse of the parser.

`wrappers.dfy` holds the `Option` type shared by the three modules.

The parser is more permissive than the grammar `t<n>` / `<n>;<i>(+<i>)*` suggests:

- The parser accepts leading zeros (`007`).
- It returns any trailing text as the remainder rather than rejecting it.
- It accepts an empty capture list (`3;`).
- A capture index above 2^32 - 1 does not make the move fail: the list stops before it and the index text is left in the remainder (`RightOverflowLeftOver`). Only an overflowing hand index makes the parse fail.

## Model

| member | source | states |
|---|---|---|
| Cards.New | core/src/lib.rs:66-74 | defined exactly for 1 ≤ n ≤ 10 (other values panic); the card has the requested suit, is a well-formed card and its value is n |
| Cards.Denari | core/src/lib.rs:76-84 | for every 1 ≤ n ≤ 10, the separately written coin-card constructor agrees with `New(Denari, n)` |
| Cards.Value | core/src/lib.rs:86-93 | a numeral's value is its number, a face card's value is 8..10, and every well-formed card's value is in 1..10 |
| Cards.NewOfValue | core/src/lib.rs:66-93 | round trip: rebuilding a well-formed card from its suit and value gives back the same card |
| Cards.ValueInjective | core/src/lib.rs:86-93 | two well-formed cards of one suit with equal value are equal |
| Cards.ReversePermutes | core/src/lib.rs:58-62 | reversing the drained cards keeps the same multiset of cards |
| Cards.Deck.Top | core/src/lib.rs:37-39 | None exactly on an empty deck, otherwise the last (top) card |
| Cards.Deck.Bottom | core/src/lib.rs:40-42 | None exactly on an empty deck, otherwise the first (bottom) card |
| Cards.Deck.Len | core/src/lib.rs:55-57 | the number of cards in the deck |
| Cards.Deck.TakeFromTop | core/src/lib.rs:43-45 | returns the old top; an empty deck is left unchanged; otherwise the old deck is the new deck plus the returned card on top |
| Cards.Deck.PushToTop | core/src/lib.rs:46-48 | the card is appended on top, it becomes the top, and the length grows by one |
| Cards.Deck.TakeFromBottom | core/src/lib.rs:49-51 | returns the old bottom; an empty deck is left unchanged; otherwise the old deck is the returned card followed by the new deck |
| Cards.Deck.PushToBottom | core/src/lib.rs:52-54 | the card is prepended at the bottom, it becomes the bottom, and the length grows by one |
| Cards.Deck.MoveAllCardsTo | core/src/lib.rs:58-62 | the source ends empty and the destination becomes the reversed source followed by the old destination, so the total length is kept; the old top of the source becomes the bottom of the destination |
| Cards.ReverseAt | core/src/lib.rs:58-62 | position k of the reversed cards holds the card k places from the top |
| Cards.PushThenTakeTop | core/src/lib.rs:43-48 | pushing a card on top and then taking from the top returns that card and restores the deck |
| Cards.PushThenTakeBottom | core/src/lib.rs:49-54 | pushing a card at the bottom and then taking from the bottom returns that card and restores the deck |
| Cards.CanonicalDeck | core/src/lib.rs:96-107 | the unshuffled deck has 40 cards |
| Cards.CanonicalDeckComplete | core/src/lib.rs:96-107 | every card of the unshuffled deck is well formed, every well-formed card is in it, and no card occurs twice |
| Cards.BuildDeck | core/src/lib.rs:96-107 | the nested push loops produce the canonical deck in rank-major, suit-minor order |
| Cards.Swap | core/src/lib.rs:115 | the elements at i and j trade places and every other position is unchanged |
| Cards.ShuffleFromPermutes | core/src/lib.rs:113-116 | whatever draws j ≤ i are used, the swap passes permute their input |
| Cards.Shuffle | core/src/lib.rs:113-116 | the in-order swap loop computes the specified swap passes and keeps the multiset of cards |
| Cards.ShuffledCards | core/src/lib.rs:95-119 | a shuffled deck has 40 cards |
| Cards.ShuffledCardsComplete | core/src/lib.rs:95-119 | a shuffled deck holds exactly the canonical cards, and a card is in it exactly when it is well formed |
| Cards.ShuffledDeck | core/src/lib.rs:95-119 | returns a fresh deck holding the shuffled cards |
| Camicia.Not | camicia/src/lib.rs:124-133 | the other player is never the same player |
| Camicia.NotInvolutive | camicia/src/lib.rs:45-47 | flipping the turn twice is the identity |
| Camicia.Winner | camicia/src/lib.rs:36-44 | there is a winner exactly when the player to move has no cards |
| Camicia.Step | camicia/src/lib.rs:48-99 | one tick keeps the forced payment at none or 1..3 |
| Camicia.Throw | camicia/src/lib.rs:66-68 | in every branch of `tick`, the mover's top card leaves their hand and lands on top of the pile; nothing else changes |
| Camicia.HandOver | camicia/src/lib.rs:73-76 | the receiving player's deck becomes the reversed pile under their old deck; the pile empties; the other hand is unchanged |
| Camicia.StepConserves | camicia/src/lib.rs:48-99 | a tick keeps the multiset of cards in the pile and both hands |
| Camicia.StepWithoutPayment | camicia/src/lib.rs:50-65 | with no payment owed, the card goes on the pile, the turn passes, and a payment of v starts exactly when the card's value v is in 1..3 |
| Camicia.StepCounterCharge | camicia/src/lib.rs:66-71 | during a payment, a 1..3 card passes the turn and sets the payment owed to its value |
| Camicia.StepPaymentExhausted | camicia/src/lib.rs:72-77 | paying the last owed card with a non-1..3 card moves the whole pile to the opponent, clears the payment and passes the turn |
| Camicia.StepPaymentContinues | camicia/src/lib.rs:77-79 | paying with a non-1..3 card while more than one card is owed keeps the turn and lowers the debt by one |
| Camicia.PlayConserves | camicia/src/main.rs:11-21 | in any sequence of ticks, every state holds the cards the first state held |
| Camicia.Initial | camicia/src/lib.rs:25-33 | the deal splits the deck at half its length: First's cards followed by Second's are the deck, the pile is empty, First moves and no payment is owed |
| Camicia.InitialDeal | camicia/src/lib.rs:24-34 | a fresh game gives each player 20 cards and starts with an empty pile, and the forty canonical cards are all in play |
| Camicia.GameKeepsDeck | camicia/src/main.rs:18-21 | at every tick of a game dealt from a shuffled deck, the three stacks hold 40 cards in total, and they are exactly the canonical cards |
| Camicia.Game.constructor | camicia/src/lib.rs:24-34 | First gets the lower half of the shuffled deck and Second the upper half; the pile is empty; First moves; no payment is owed; the three decks are fresh and distinct |
| Camicia.Game.IsOver | camicia/src/lib.rs:36-44 | Some(Second) iff First is to move with no cards, Some(First) iff Second is to move with no cards, otherwise None |
| Camicia.Game.ToggleTurn | camicia/src/lib.rs:45-47 | the turn flips and every deck and the payment owed are unchanged |
| Camicia.Game.Tick | camicia/src/lib.rs:48-99 | needs the player to move to have a card (the source panics otherwise); the new state is one `Step` of the old one and the object invariant is kept |
| ParseMove.DigitRunMaximal | src/parse_move.rs:35-37 | the digit run read for a number is all digits, is not followed by a digit, and is non-empty exactly when the text starts with a digit |
| ParseMove.ParseU32 | src/parse_move.rs:35-37 | a parsed literal consumes at least one character, leaves a suffix of its input and fits in 32 bits |
| ParseMove.ParseLeft | src/parse_move.rs:35-37 | the hand index is the value of the digits consumed, fits in 32 bits and is not followed by a digit; it fails exactly when there is no digit or the value overflows |
| ParseMove.ParseU32Spec | src/parse_move.rs:35-37 | a literal starts with a digit and stops before a non-digit; it fails exactly when there is no digit or the value exceeds 2^32 - 1 |
| ParseMove.MoreItems | src/parse_move.rs:39-41 | the items after the first fit in 32 bits; when no item is read, nothing is consumed |
| ParseMove.ParseRight | src/parse_move.rs:39-41 | the capture list never fails; its items fit in 32 bits; it consumes nothing exactly when it reads no item |
| ParseMove.ParseTableDropMove | src/parse_move.rs:15-23 | a table drop starts with `t` and names no table card |
| ParseMove.ParseTakingMove | src/parse_move.rs:25-34 | a capture starts with a digit and carries a (possibly empty) list of table indices |
| ParseMove.ParseMoveInternal | src/parse_move.rs:11-13 | a success consumes input; the move is a table drop exactly when the text starts with `t`; its numbers fit in 32 bits |
| ParseMove.MoreItemsSuffix | src/parse_move.rs:39-41 | what the capture list leaves is the unconsumed end of its input |
| ParseMove.ParseMoveSuffix | src/parse_move.rs:11-34 | what a move parse leaves is the unconsumed end of its input |
| ParseMove.FormsDisjoint | src/parse_move.rs:11-13 | the two forms never both match, so the move is the table-drop result when the text starts with `t` and the capture result otherwise |
| ParseMove.ParseDecimal | src/parse_move.rs:35-37 | the decimal text of a 32-bit number, followed by a non-digit, parses back to that number |
| ParseMove.MoreItemsOfPlusJoin | src/parse_move.rs:39-41 | a `+i` list followed by text that does not continue it parses back to the same indices in order |
| ParseMove.ParseRightOfJoin | src/parse_move.rs:39-41 | a printed capture list parses back to the same indices in order |
| ParseMove.ParseFormat | src/parse_move.rs:11-41 | round trip: any move whose numbers fit in 32 bits, printed and followed by text that does not continue it, parses back to the move with that text as the remainder |
| ParseMove.ParseDropFormat | src/parse_move.rs:15-23 | `t<n>` followed by a non-digit parses to a table drop of n, and the text after it is the remainder |
| ParseMove.ParseCaptureFormat | src/parse_move.rs:25-34 | `<n>;<i1>+…+<ik>` parses to a capture of n with the indices in order |
| ParseMove.PlainTextEndsList | src/parse_move.rs:39-41 | text starting with neither a digit nor `+` ends a capture list |
| ParseMove.TrailingPlusEndsList | src/parse_move.rs:39-41 | a `+` with no number after it ends a capture list and is not consumed |
| ParseMove.EmptyCaptureList | src/parse_move.rs:25-41 | `n;` parses to a capture with an empty list |
| ParseMove.TrailingPlusLeftOver | src/parse_move.rs:39-41 | a capture followed by a lone `+` keeps its list and leaves the `+` in the remainder |
| ParseMove.MissingSemicolon | src/parse_move.rs:27 | a number not followed by `;` is no move |
| ParseMove.NeitherForm | src/parse_move.rs:11-37 | text that starts with neither `t` nor a digit is no move |
| ParseMove.LeadingZeroAccepted | src/parse_move.rs:35-37 | any number of leading `0`s are accepted and do not change the value |
| ParseMove.LeftOverflowFails | src/parse_move.rs:15-37 | a hand index above 2^32 - 1 makes both forms fail |
| ParseMove.RightOverflowLeftOver | src/parse_move.rs:39-41 | a table index above 2^32 - 1 ends the list before it; the move succeeds with that text left over |
| ParseMove.CaptureTwoExample | src/parse_move.rs:25-41 | `0;0+1` is a capture of hand card 0 taking table cards 0 and 1 |
| ParseMove.CaptureOneExample | src/parse_move.rs:25-41 | `0;1` is a capture of hand card 0 taking table card 1 |
| ParseMove.OtherExamples | src/parse_move.rs:11-23 | `t2` drops hand card 2, and `x;1+2` is no move |

## Left out

- Randomness: `rand::thread_rng` and `gen_range` (core/src/lib.rs:110-114) are not modelled. The shuffle takes its draws as an explicit sequence `js`, the k-th draw lying in 0..=i for i = 39 - k. `Camicia.Game.constructor` takes the same draws.
- Cards.Shuffle: the swaps act on a sequence value, not on the queue in place. Nothing else refers to the queue while it is shuffled, so no aliasing is lost.
- `Display` and `Debug` formatting with emoji (core/src/lib.rs:122-154, camicia/src/lib.rs:103-122): presentation only.
- The `Deref`/`DerefMut` sugar (core/src/lib.rs:157-163): the model's decks expose their cards directly as the field `cards`.
- Machine integer widths: `usize` is unbounded `nat`. No arithmetic in the core can overflow: values stay at most 10, lengths at most 40, and `forced_number - 1` only runs when the counter exceeds 1. The parser widens `u32` to `usize`, which loses nothing.
- The driver programs scopa/src/main.rs, src/main.rs and camicia/src/main.rs: terminal I/O loops. The loop of camicia/src/main.rs is modelled only as the sequences of ticks that `Camicia.IsPlay` describes.
- The definition of `ParsedMove` is not part of this model: src/parse_move.rs:8 imports it from the crate root. Its two fields, `from` and `to`, are read off their construction at src/parse_move.rs:19-22 and 30-33.
- src/lib.rs: an unfinished draft of the card types that does not compile, superseded by core/src/lib.rs.
- The Scopa match, capture and scoring engine that scopa/src/main.rs calls: its source is not part of this model.
- The nom library: its combinators are specified by what they accept, what they return and what they leave over, not by their code. nom's error values are collapsed to `None`.
