/** Italian playing cards and the double-ended deck they are kept in. */
module Cards {

  import opened Wrappers

  datatype Suit = Denari | Coppe | Bastoni | Spade

  /** A rank: a numeral (meant to be 1 to 7) or one of the three face cards. */
  datatype CardNum = Numeric(n: nat) | Fante | Cavallo | Re

  datatype Card = Card(suit: Suit, number: CardNum)

  /** The forty cards of a deck are those whose numeral, if any, lies in 1..7. */
  predicate WellFormed(c: Card)
  {
    c.number.Numeric? ==> 1 <= c.number.n <= 7
  }

  /** The card of the given suit with numeric value `n`; any other `n` panics. */
  function New(suit: Suit, n: nat): (c: Card)
    requires 1 <= n <= 10
    ensures c.suit == suit && WellFormed(c)
    ensures Value(c) == n
  {
    match n
    case 8 => Card(suit, Fante)
    case 9 => Card(suit, Cavallo)
    case 10 => Card(suit, Re)
    case _ => Card(suit, Numeric(n))
  }

  /** The coin card of value `n`, written out independently of `New`. */
  function Denari(n: nat): (c: Card)
    requires 1 <= n <= 10
    ensures c == New(Suit.Denari, n)
  {
    if n <= 7 then Card(Suit.Denari, Numeric(n))
    else if n == 8 then Card(Suit.Denari, Fante)
    else if n == 9 then Card(Suit.Denari, Cavallo)
    else Card(Suit.Denari, Re)
  }

  /** The numeric value of a card: the numeral itself, or 8, 9, 10 for the faces. */
  function Value(c: Card): (v: nat)
    ensures WellFormed(c) ==> 1 <= v <= 10
    ensures c.number.Numeric? ==> v == c.number.n
    ensures !c.number.Numeric? ==> 8 <= v <= 10
  {
    match c.number
    case Numeric(n) => n
    case Fante => 8
    case Cavallo => 9
    case Re => 10
  }

  /** `New` inverts `Value` on every well-formed card. */
  lemma NewOfValue(c: Card)
    requires WellFormed(c)
    ensures New(c.suit, Value(c)) == c
  {
  }

  /** Two well-formed cards of one suit with the same value are the same card. */
  lemma ValueInjective(c: Card, d: Card)
    requires WellFormed(c) && WellFormed(d) && c.suit == d.suit
    requires Value(c) == Value(d)
    ensures c == d
  {
    NewOfValue(c);
    NewOfValue(d);
  }

  // ---------------------------------------------------------------------------
  // The deck: a double-ended queue whose front is the bottom and whose back is
  // the top.

  /** `s` written backwards. */
  function Reverse<T>(s: seq<T>): (r: seq<T>)
    ensures |r| == |s|
  {
    if s == [] then [] else [s[|s| - 1]] + Reverse(s[..|s| - 1])
  }

  /** The k-th element of the reversal is the k-th from the end. */
  lemma {:induction false} ReverseAt<T>(s: seq<T>, k: nat)
    requires k < |s|
    ensures Reverse(s)[k] == s[|s| - 1 - k]
  {
    if k > 0 {
      ReverseAt(s[..|s| - 1], k - 1);
    }
  }

  /** Reversing keeps every element with its multiplicity. */
  lemma {:induction false} ReversePermutes<T>(s: seq<T>)
    ensures multiset(Reverse(s)) == multiset(s)
  {
    if s != [] {
      var init := s[..|s| - 1];
      ReversePermutes(init);
      assert s == init + [s[|s| - 1]];
    }
  }

  class Deck {
    /** cards[0] is the bottom of the deck, cards[|cards| - 1] its top. */
    var cards: seq<Card>

    constructor (cs: seq<Card>)
      ensures cards == cs
    {
      cards := cs;
    }

    function Top(): (r: Option<Card>)
      reads this
      ensures r.None? <==> cards == []
      ensures r.Some? ==> r.value == cards[|cards| - 1]
    {
      if cards == [] then None else Some(cards[|cards| - 1])
    }

    function Bottom(): (r: Option<Card>)
      reads this
      ensures r.None? <==> cards == []
      ensures r.Some? ==> r.value == cards[0]
    {
      if cards == [] then None else Some(cards[0])
    }

    function Len(): (n: nat)
      reads this
      ensures n == |cards|
    {
      |cards|
    }

    method TakeFromTop() returns (r: Option<Card>)
      modifies this
      ensures r == old(Top())
      ensures r.None? ==> cards == old(cards)
      ensures r.Some? ==> old(cards) == cards + [r.value]
    {
      if cards == [] {
        r := None;
      } else {
        r := Some(cards[|cards| - 1]);
        cards := cards[..|cards| - 1];
      }
    }

    method PushToTop(c: Card)
      modifies this
      ensures cards == old(cards) + [c]
      ensures Top() == Some(c) && Len() == old(Len()) + 1
    {
      cards := cards + [c];
    }

    method TakeFromBottom() returns (r: Option<Card>)
      modifies this
      ensures r == old(Bottom())
      ensures r.None? ==> cards == old(cards)
      ensures r.Some? ==> old(cards) == [r.value] + cards
    {
      if cards == [] {
        r := None;
      } else {
        r := Some(cards[0]);
        cards := cards[1..];
      }
    }

    method PushToBottom(c: Card)
      modifies this
      ensures cards == [c] + old(cards)
      ensures Bottom() == Some(c) && Len() == old(Len()) + 1
    {
      cards := [c] + cards;
    }

    /**
     * Drains this deck from the bottom upwards, pushing each card onto the
     * bottom of `dest`; the old top of this deck ends up as the bottom of `dest`.
     */
    method MoveAllCardsTo(dest: Deck)
      requires dest != this
      modifies this, dest
      ensures cards == []
      ensures dest.cards == Reverse(old(cards)) + old(dest.cards)
      ensures Len() + dest.Len() == old(Len()) + old(dest.Len())
      ensures old(Top()).Some? ==> dest.Bottom() == old(Top())
    {
      var drained := cards;
      cards := [];
      var i := 0;
      while i < |drained|
        invariant 0 <= i <= |drained|
        invariant cards == []
        invariant dest.cards == Reverse(drained[..i]) + old(dest.cards)
      {
        assert drained[..i + 1][..i] == drained[..i];
        dest.PushToBottom(drained[i]);
        i := i + 1;
      }
      assert drained[..i] == drained;
      if drained != [] {
        ReverseAt(drained, 0);
      }
    }
  }

  /** Pushing a card on top and taking it back returns it and restores the deck. */
  method PushThenTakeTop(d: Deck, c: Card) returns (r: Option<Card>)
    modifies d
    ensures r == Some(c) && d.cards == old(d.cards)
  {
    d.PushToTop(c);
    r := d.TakeFromTop();
    assert d.cards + [c] == old(d.cards) + [c];
    assert d.cards == (d.cards + [c])[..|d.cards|];
  }

  /** Pushing a card at the bottom and taking it back returns it and restores the deck. */
  method PushThenTakeBottom(d: Deck, c: Card) returns (r: Option<Card>)
    modifies d
    ensures r == Some(c) && d.cards == old(d.cards)
  {
    d.PushToBottom(c);
    r := d.TakeFromBottom();
    assert [c] + d.cards == [c] + old(d.cards);
    assert d.cards == ([c] + d.cards)[1..];
  }

  // ---------------------------------------------------------------------------
  // Building and shuffling the forty-card deck.

  const Numbers: seq<CardNum> :=
    [Numeric(1), Numeric(2), Numeric(3), Numeric(4), Numeric(5), Numeric(6),
     Numeric(7), Fante, Cavallo, Re]

  const Suits: seq<Suit> := [Suit.Denari, Coppe, Bastoni, Spade]

  /** The deck before shuffling: rank-major, suit-minor. */
  function CanonicalDeck(): (s: seq<Card>)
    ensures |s| == 40
  {
    seq(40, k requires 0 <= k < 40 => Card(Suits[k % 4], Numbers[k / 4]))
  }

  /** Every card of the canonical deck is well formed, and every well-formed card is in it exactly once. */
  lemma CanonicalDeckComplete()
    ensures forall k :: 0 <= k < 40 ==> WellFormed(CanonicalDeck()[k])
    ensures forall c :: WellFormed(c) ==> c in CanonicalDeck()
    ensures forall i, j :: 0 <= i < j < 40 ==> CanonicalDeck()[i] != CanonicalDeck()[j]
  {
    var s := CanonicalDeck();
    forall c | WellFormed(c)
      ensures c in s
    {
      var r := Value(c) - 1;
      var u := match c.suit case Denari => 0 case Coppe => 1 case Bastoni => 2 case Spade => 3;
      assert Numbers[r] == c.number;
      assert s[4 * r + u] == c;
    }
    forall i, j | 0 <= i < j < 40
      ensures s[i] != s[j]
    {
      if i % 4 != j % 4 {
        assert s[i].suit != s[j].suit;
      } else {
        assert i / 4 != j / 4;
        assert s[i].number != s[j].number;
      }
    }
  }

  /** The construction loop of the deck: for every rank, for every suit, push to the back. */
  method BuildDeck() returns (deck: seq<Card>)
    ensures deck == CanonicalDeck()
  {
    deck := [];
    for r := 0 to |Numbers|
      invariant |deck| == 4 * r
      invariant forall k :: 0 <= k < |deck| ==> deck[k] == Card(Suits[k % 4], Numbers[k / 4])
    {
      for u := 0 to |Suits|
        invariant |deck| == 4 * r + u
        invariant forall k :: 0 <= k < |deck| ==> deck[k] == Card(Suits[k % 4], Numbers[k / 4])
      {
        deck := deck + [Card(Suits[u], Numbers[r])];
      }
    }
  }

  /**
   * Draws of the random generator for a Fisher-Yates pass over `n` cards: the
   * k-th draw picks an index in 0..=i for i = n - 1 - k, for i from n - 1 down to 1.
   */
  predicate ValidDraws(n: nat, js: seq<nat>)
  {
    |js| == (if n == 0 then 0 else n - 1) &&
    forall k :: 0 <= k < |js| ==> js[k] <= n - 1 - k
  }

  /** `VecDeque::swap`: the elements at `i` and `j` trade places. */
  function Swap<T>(s: seq<T>, i: nat, j: nat): (r: seq<T>)
    requires i < |s| && j < |s|
    ensures |r| == |s| && r[i] == s[j] && r[j] == s[i]
    ensures forall k :: 0 <= k < |s| && k != i && k != j ==> r[k] == s[k]
  {
    s[i := s[j]][j := s[i]]
  }

  lemma SwapPermutes<T>(s: seq<T>, i: nat, j: nat)
    requires i < |s| && j < |s|
    ensures multiset(Swap(s, i, j)) == multiset(s)
  {
  }

  /** The remaining Fisher-Yates passes, starting at draw k. */
  function ShuffleFrom<T>(s: seq<T>, js: seq<nat>, k: nat): (r: seq<T>)
    requires ValidDraws(|s|, js) && k <= |js|
    ensures |r| == |s|
    decreases |js| - k
  {
    if k == |js| then s else ShuffleFrom(Swap(s, |s| - 1 - k, js[k]), js, k + 1)
  }

  /** The whole shuffle is a permutation of its input. */
  lemma {:induction false} ShuffleFromPermutes<T>(s: seq<T>, js: seq<nat>, k: nat)
    requires ValidDraws(|s|, js) && k <= |js|
    ensures multiset(ShuffleFrom(s, js, k)) == multiset(s)
    decreases |js| - k
  {
    if k < |js| {
      var t := Swap(s, |s| - 1 - k, js[k]);
      SwapPermutes(s, |s| - 1 - k, js[k]);
      ShuffleFromPermutes(t, js, k + 1);
    }
  }

  /** The swap loop of the shuffle, with the random draws given as `js`. */
  method Shuffle(s: seq<Card>, js: seq<nat>) returns (r: seq<Card>)
    requires ValidDraws(|s|, js)
    ensures r == ShuffleFrom(s, js, 0)
    ensures multiset(r) == multiset(s)
  {
    r := s;
    if |s| == 0 {
      return;
    }
    var i := |s| - 1;
    while i >= 1
      invariant 0 <= i <= |s| - 1
      invariant ValidDraws(|r|, js)
      invariant ShuffleFrom(r, js, |s| - 1 - i) == ShuffleFrom(s, js, 0)
      invariant multiset(r) == multiset(s)
    {
      var j := js[|s| - 1 - i];
      r := r[i := r[j]][j := r[i]];
      i := i - 1;
    }
  }

  /** The forty cards in the order a given sequence of draws leaves them. */
  function ShuffledCards(js: seq<nat>): (s: seq<Card>)
    requires ValidDraws(40, js)
    ensures |s| == 40
  {
    ShuffleFrom(CanonicalDeck(), js, 0)
  }

  /** Whatever the draws, a shuffled deck holds each of the forty cards exactly once. */
  lemma ShuffledCardsComplete(js: seq<nat>)
    requires ValidDraws(40, js)
    ensures multiset(ShuffledCards(js)) == multiset(CanonicalDeck())
    ensures forall c :: WellFormed(c) <==> c in ShuffledCards(js)
  {
    ShuffleFromPermutes(CanonicalDeck(), js, 0);
    CanonicalDeckComplete();
    forall c
      ensures WellFormed(c) <==> c in ShuffledCards(js)
    {
      calc {
        c in ShuffledCards(js);
        c in multiset(ShuffledCards(js));
        c in multiset(CanonicalDeck());
        c in CanonicalDeck();
      }
    }
  }

  /** `shuffled_deck`: the canonical deck, shuffled with the draws `js`. */
  method ShuffledDeck(js: seq<nat>) returns (d: Deck)
    requires ValidDraws(40, js)
    ensures fresh(d)
    ensures d.cards == ShuffledCards(js)
  {
    var deck := BuildDeck();
    deck := Shuffle(deck, js);
    d := new Deck(deck);
  }
}
