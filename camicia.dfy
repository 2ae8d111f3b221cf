/**
 * Camicia (beggar-my-neighbour): two players throw their top card onto a
 * pile in turn; a card of value 1, 2 or 3 forces the opponent to pay that
 * many cards, and a player who pays without throwing a 1..3 card hands the
 * whole pile to the player who forced the payment.
 */
module Camicia {

  import opened Wrappers
  import opened Cards

  datatype Turn = First | Second

  /** The other player (the source's `impl Not for Turn`). */
  function Not(t: Turn): (r: Turn)
    ensures r != t
  {
    match t
    case First => Second
    case Second => First
  }

  lemma NotInvolutive(t: Turn)
    ensures Not(Not(t)) == t
  {
  }

  /** A forced payment still owed: absent, or 1, 2 or 3 cards. */
  predicate ForcedInRange(f: Option<nat>)
  {
    f.Some? ==> 1 <= f.value <= 3
  }

  /** Whether a thrown card of this value starts a forced payment. */
  predicate Forcing(c: Card)
  {
    1 <= Value(c) <= 3
  }

  // ---------------------------------------------------------------------------
  // The game as a value, and one tick of it as a function.

  datatype GameState = GameState(
    turn: Turn,
    pile: seq<Card>,
    first: seq<Card>,
    second: seq<Card>,
    forcedMove: Option<nat>)

  function Hand(g: GameState, t: Turn): seq<Card>
  {
    if t == First then g.first else g.second
  }

  function WithHand(g: GameState, t: Turn, h: seq<Card>): (r: GameState)
    ensures Hand(r, t) == h && Hand(r, Not(t)) == Hand(g, Not(t))
    ensures r.turn == g.turn && r.pile == g.pile && r.forcedMove == g.forcedMove
  {
    if t == First then g.(first := h) else g.(second := h)
  }

  /** The player to move still has a card to throw. */
  predicate CanTick(g: GameState)
  {
    Hand(g, g.turn) != []
  }

  /** The game is over when the player to move has no cards; the other one wins. */
  function Winner(g: GameState): (r: Option<Turn>)
    ensures r.None? <==> CanTick(g)
  {
    if Hand(g, g.turn) == [] then Some(Not(g.turn)) else None
  }

  /** The state right after dealing `deck`: the lower half to First, the upper half to Second. */
  function Initial(deck: seq<Card>): (g: GameState)
    ensures g.first + g.second == deck && |g.first| == |deck| / 2
    ensures g.pile == [] && g.turn == First && g.forcedMove.None?
  {
    GameState(First, [], deck[..|deck| / 2], deck[|deck| / 2..], None)
  }

  /**
   * One tick: the player to move throws their top card onto the pile. A 1..3
   * card demands that many cards from the opponent and passes the turn. Any
   * other card passes the turn when no payment is owed; during a payment it
   * either pays one more card or, if it was the last one owed, makes the
   * pile go to the opponent, who moves next.
   */
  function Step(g: GameState): (r: GameState)
    requires CanTick(g) && ForcedInRange(g.forcedMove)
    ensures ForcedInRange(r.forcedMove)
  {
    var t := g.turn;
    var c := TopCard(g);
    var thrown := Throw(g);
    if Forcing(c) then
      thrown.(turn := Not(t), forcedMove := Some(Value(c)))
    else if g.forcedMove.None? then
      thrown.(turn := Not(t))
    else if g.forcedMove.value == 1 then
      HandOver(thrown, Not(t)).(turn := Not(t), forcedMove := None)
    else
      thrown.(forcedMove := Some(g.forcedMove.value - 1))
  }

  /** The top card of the player to move. */
  function TopCard(g: GameState): Card
    requires CanTick(g)
  {
    var hand := Hand(g, g.turn);
    hand[|hand| - 1]
  }

  /** The player to move takes their top card and puts it on top of the pile. */
  function Throw(g: GameState): (r: GameState)
    requires CanTick(g)
    ensures Hand(r, g.turn) + [TopCard(g)] == Hand(g, g.turn)
    ensures Hand(r, Not(g.turn)) == Hand(g, Not(g.turn))
    ensures r.pile == g.pile + [TopCard(g)]
    ensures r.turn == g.turn && r.forcedMove == g.forcedMove
  {
    var hand := Hand(g, g.turn);
    WithHand(g, g.turn, hand[..|hand| - 1]).(pile := g.pile + [TopCard(g)])
  }

  /** Player `t` takes the whole pile under their deck, the pile's top card lowest. */
  function HandOver(g: GameState, t: Turn): (r: GameState)
    ensures Hand(r, t) == Reverse(g.pile) + Hand(g, t)
    ensures Hand(r, Not(t)) == Hand(g, Not(t))
    ensures r.pile == [] && r.turn == g.turn && r.forcedMove == g.forcedMove
  {
    WithHand(g, t, Reverse(g.pile) + Hand(g, t)).(pile := [])
  }

  /** The cards in play, counted with multiplicity. */
  function CardsInPlay(g: GameState): multiset<Card>
  {
    multiset(g.pile) + multiset(g.first) + multiset(g.second)
  }

  /** Where the three stacks are, seen from player `t`. */
  lemma CardsInPlayFrom(g: GameState, t: Turn)
    ensures CardsInPlay(g) == multiset(g.pile) + multiset(Hand(g, t)) + multiset(Hand(g, Not(t)))
  {
  }

  lemma ThrowConserves(g: GameState)
    requires CanTick(g)
    ensures CardsInPlay(Throw(g)) == CardsInPlay(g)
  {
    var r := Throw(g);
    var t := g.turn;
    var c := TopCard(g);
    CardsInPlayFrom(g, t);
    CardsInPlayFrom(r, t);
    assert multiset(Hand(g, t)) == multiset(Hand(r, t)) + multiset{c};
    assert multiset(r.pile) == multiset(g.pile) + multiset{c};
  }

  lemma HandOverConserves(g: GameState, t: Turn)
    ensures CardsInPlay(HandOver(g, t)) == CardsInPlay(g)
  {
    var r := HandOver(g, t);
    CardsInPlayFrom(g, t);
    CardsInPlayFrom(r, t);
    ReversePermutes(g.pile);
    assert multiset(Hand(r, t)) == multiset(g.pile) + multiset(Hand(g, t));
  }

  /** A tick neither creates, duplicates nor loses a card. */
  lemma StepConserves(g: GameState)
    requires CanTick(g) && ForcedInRange(g.forcedMove)
    ensures CardsInPlay(Step(g)) == CardsInPlay(g)
  {
    ThrowConserves(g);
    HandOverConserves(Throw(g), Not(g.turn));
  }

  /** With no payment owed, the turn always passes and only a 1..3 card starts a payment. */
  lemma StepWithoutPayment(g: GameState)
    requires CanTick(g) && g.forcedMove.None?
    ensures var hand := Hand(g, g.turn);
            var c := hand[|hand| - 1];
            var r := Step(g);
            r.turn == Not(g.turn) &&
            r.pile == g.pile + [c] &&
            Hand(r, g.turn) == hand[..|hand| - 1] &&
            Hand(r, Not(g.turn)) == Hand(g, Not(g.turn)) &&
            r.forcedMove == (if 1 <= Value(c) <= 3 then Some(Value(c)) else None)
  {
  }

  /** During a payment, a 1..3 card turns the payment round onto the opponent. */
  lemma StepCounterCharge(g: GameState)
    requires CanTick(g) && ForcedInRange(g.forcedMove) && g.forcedMove.Some?
    requires var hand := Hand(g, g.turn); Forcing(hand[|hand| - 1])
    ensures var hand := Hand(g, g.turn);
            var r := Step(g);
            r.turn == Not(g.turn) &&
            r.pile == g.pile + [hand[|hand| - 1]] &&
            r.forcedMove == Some(Value(hand[|hand| - 1]))
  {
  }

  /** Paying the last owed card without a 1..3 card hands the pile to the opponent. */
  lemma StepPaymentExhausted(g: GameState)
    requires CanTick(g) && g.forcedMove == Some(1)
    requires var hand := Hand(g, g.turn); !Forcing(hand[|hand| - 1])
    ensures var hand := Hand(g, g.turn);
            var c := hand[|hand| - 1];
            var r := Step(g);
            r.pile == [] && r.forcedMove.None? && r.turn == Not(g.turn) &&
            Hand(r, g.turn) == hand[..|hand| - 1] &&
            Hand(r, Not(g.turn)) == Reverse(g.pile + [c]) + Hand(g, Not(g.turn))
  {
  }

  /** Paying a card while more are still owed keeps the turn and lowers the debt by one. */
  lemma StepPaymentContinues(g: GameState)
    requires CanTick(g) && ForcedInRange(g.forcedMove) && g.forcedMove.Some? && g.forcedMove.value != 1
    requires var hand := Hand(g, g.turn); !Forcing(hand[|hand| - 1])
    ensures var hand := Hand(g, g.turn);
            var r := Step(g);
            r.turn == g.turn &&
            r.pile == g.pile + [hand[|hand| - 1]] &&
            r.forcedMove == Some(g.forcedMove.value - 1)
  {
  }

  /** `gs` is a play: every state but the first is one tick after the one before it. */
  predicate IsPlay(gs: seq<GameState>)
  {
    forall i :: 0 <= i < |gs| - 1 ==>
      CanTick(gs[i]) && ForcedInRange(gs[i].forcedMove) && gs[i + 1] == Step(gs[i])
  }

  /** However long a play runs, the cards in play are those it started with. */
  lemma {:induction false} PlayConserves(gs: seq<GameState>, k: nat)
    requires IsPlay(gs) && k < |gs|
    ensures CardsInPlay(gs[k]) == CardsInPlay(gs[0])
  {
    if k > 0 {
      PlayConserves(gs, k - 1);
      StepConserves(gs[k - 1]);
    }
  }

  /** A freshly dealt game gives each player twenty of the forty cards and holds every card once. */
  lemma InitialDeal(js: seq<nat>)
    requires ValidDraws(40, js)
    ensures var g := Initial(ShuffledCards(js));
            |g.first| == 20 && |g.second| == 20 && g.pile == [] &&
            CardsInPlay(g) == multiset(CanonicalDeck())
  {
    var d := ShuffledCards(js);
    assert d[..20] + d[20..] == d;
    assert multiset(d) == multiset(d[..20]) + multiset(d[20..]);
    ShuffledCardsComplete(js);
  }

  /** At every tick of a game dealt from a shuffled deck, the forty cards are all in play. */
  lemma GameKeepsDeck(js: seq<nat>, gs: seq<GameState>, k: nat)
    requires ValidDraws(40, js)
    requires IsPlay(gs) && k < |gs| && gs[0] == Initial(ShuffledCards(js))
    ensures |gs[k].pile| + |gs[k].first| + |gs[k].second| == 40
    ensures CardsInPlay(gs[k]) == multiset(CanonicalDeck())
  {
    InitialDeal(js);
    PlayConserves(gs, k);
    var g := gs[k];
    assert |multiset(CanonicalDeck())| == 40;
    assert |CardsInPlay(g)| == |multiset(g.pile)| + |multiset(g.first)| + |multiset(g.second)|;
  }

  // ---------------------------------------------------------------------------
  // The game as the source keeps it: an object with three decks.

  class Game {
    var turn: Turn
    const pile: Deck
    const playerFirst: Deck
    const playerSecond: Deck
    /** The number (1, 2 or 3) of cards still owed, if a payment is under way. */
    var forcedMove: Option<nat>

    ghost predicate Valid()
      reads this
    {
      pile != playerFirst && pile != playerSecond && playerFirst != playerSecond &&
      ForcedInRange(forcedMove)
    }

    function State(): GameState
      reads this, pile, playerFirst, playerSecond
    {
      GameState(turn, pile.cards, playerFirst.cards, playerSecond.cards, forcedMove)
    }

    /** Deals a shuffled deck, given the random draws of its shuffle. */
    constructor (js: seq<nat>)
      requires ValidDraws(40, js)
      ensures Valid()
      ensures fresh(pile) && fresh(playerFirst) && fresh(playerSecond)
      ensures State() == Initial(ShuffledCards(js))
    {
      var deck := ShuffledDeck(js);
      var all := deck.cards;
      var half := |all| / 2;
      playerFirst := new Deck(all[..half]);
      playerSecond := new Deck(all[half..]);
      pile := new Deck([]);
      turn := First;
      forcedMove := None;
    }

    /** The winner, once the player to move has run out of cards. */
    function IsOver(): (r: Option<Turn>)
      reads this, playerFirst, playerSecond
      ensures r == Some(Second) <==> playerFirst.cards == [] && turn == First
      ensures r == Some(First) <==> playerSecond.cards == [] && turn == Second
      ensures r == Winner(State())
    {
      if playerFirst.cards == [] && turn == First then Some(Second)
      else if playerSecond.cards == [] && turn == Second then Some(First)
      else None
    }

    method ToggleTurn()
      modifies this
      ensures turn == Not(old(turn)) && forcedMove == old(forcedMove)
      ensures State() == old(State()).(turn := Not(old(turn)))
      ensures old(Valid()) ==> Valid()
    {
      turn := Not(turn);
    }

    method Tick()
      requires Valid() && CanTick(State())
      modifies this, pile, playerFirst, playerSecond
      ensures Valid()
      ensures State() == Step(old(State()))
    {
      ghost var g := State();
      ghost var thrown := Throw(g);
      match (turn, forcedMove)
      case (First, None) =>
        var taken := playerFirst.TakeFromTop();
        var c := taken.value;
        assert c == TopCard(g);
        if 1 <= Value(c) <= 3 {
          forcedMove := Some(Value(c));
        }
        pile.PushToTop(c);
        turn := Second;
        assert Throw(g).(turn := Second) == State().(forcedMove := g.forcedMove);
      case (Second, None) =>
        var taken := playerSecond.TakeFromTop();
        var c := taken.value;
        assert c == TopCard(g);
        if 1 <= Value(c) <= 3 {
          forcedMove := Some(Value(c));
        }
        pile.PushToTop(c);
        turn := First;
        assert Throw(g).(turn := First) == State().(forcedMove := g.forcedMove);
      case (First, Some(forcedNumber)) =>
        var taken := playerFirst.TakeFromTop();
        var c := taken.value;
        assert c == TopCard(g);
        pile.PushToTop(c);
        assert pile.cards == thrown.pile && playerFirst.cards == thrown.first;
        if 1 <= Value(c) <= 3 {
          forcedMove := Some(Value(c));
          turn := Second;
        } else if forcedNumber == 1 {
          pile.MoveAllCardsTo(playerSecond);
          forcedMove := None;
          turn := Second;
          assert playerSecond.cards == HandOver(thrown, Second).second;
        } else {
          forcedMove := Some(forcedNumber - 1);
        }
      case (Second, Some(forcedNumber)) =>
        var taken := playerSecond.TakeFromTop();
        var c := taken.value;
        assert c == TopCard(g);
        pile.PushToTop(c);
        assert pile.cards == thrown.pile && playerSecond.cards == thrown.second;
        if 1 <= Value(c) <= 3 {
          forcedMove := Some(Value(c));
          turn := First;
        } else if forcedNumber == 1 {
          pile.MoveAllCardsTo(playerFirst);
          forcedMove := None;
          turn := First;
          assert playerFirst.cards == HandOver(thrown, First).first;
        } else {
          forcedMove := Some(forcedNumber - 1);
        }
    }
  }
}
