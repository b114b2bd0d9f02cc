/** The passive containers the engine moves cards through: the deck, the piles
    (the two teams' discard piles and the current trick), the teams' counters and
    the players' eight-slot hands. */
module Containers {
  import opened Wrappers
  import opened Cards

  /** The deck after cutting at `pos`: the cards from `pos` on, then the first `pos` cards. */
  function Rotated(s: seq<Card>, pos: nat): seq<Card>
    requires pos <= |s|
  {
    s[pos..] + s[..pos]
  }

  /** Cutting keeps the cards: same length, same multiset, card i is old card (i + pos) mod length. */
  lemma RotatedFacts(s: seq<Card>, pos: nat)
    requires 1 <= pos <= |s| - 1
    ensures |Rotated(s, pos)| == |s|
    ensures multiset(Rotated(s, pos)) == multiset(s)
    ensures forall i :: 0 <= i < |s| ==> Rotated(s, pos)[i] == s[(i + pos) % |s|]
  {
    var r, n := Rotated(s, pos), |s|;
    assert s == s[..pos] + s[pos..];
    forall i | 0 <= i < n ensures r[i] == s[(i + pos) % n] {
      if i < n - pos {
        assert r[i] == s[pos..][i];
        assert (i + pos) % n == i + pos;
      } else {
        assert r[i] == s[..pos][i - (n - pos)];
        WrapOnce(i + pos, n);
      }
    }
  }

  /** A number between n and 2n, taken modulo n, loses one n. */
  lemma WrapOnce(x: int, n: int)
    requires 0 < n <= x < 2 * n
    ensures x % n == x - n
  {
  }

  class Deck {
    var cards: seq<Card>

    /** A fresh deck: every value, and for each value every colour, in enum order. */
    constructor ()
      ensures cards == FullDeck()
    {
      var built: seq<Card> := [];
      var i := 0;
      while i < 8
        invariant 0 <= i <= 8
        invariant built == DeckOf(Ranks[..i])
      {
        var j := 0;
        while j < 4
          invariant 0 <= j <= 4
          invariant built == DeckOf(Ranks[..i]) + RankRow(Ranks[i])[..j]
        {
          built := built + [Card(Suits[j], Ranks[i])];
          j := j + 1;
        }
        assert Ranks[..i + 1][..i] == Ranks[..i];
        i := i + 1;
      }
      assert Ranks[..8] == Ranks;
      cards := built;
    }

    /** Put the given cards on top: new deck = given + old deck. */
    method Add(given: seq<Card>)
      modifies this
      ensures cards == given + old(cards)
    {
      cards := given + cards;
    }

    /** Shuffling, with the random order supplied as a permutation of the current cards. */
    method Shuffle(order: seq<Card>)
      requires multiset(order) == multiset(cards)
      modifies this
      ensures cards == order
    {
      cards := order;
    }

    /** Cut at `pos`, which the source draws in 1..len-1. */
    method Cut(pos: nat)
      requires 1 <= pos <= |cards| - 1
      modifies this
      ensures cards == Rotated(old(cards), pos)
    {
      cards := cards[pos..] + cards[..pos];
    }

    /** Pop `n` cards from the top, one at a time. When fewer than `n` remain, every
        remaining card is popped before the pop on the empty deck fails. */
    method Deal(n: nat) returns (dealt: Option<seq<Card>>)
      modifies this
      ensures n <= |old(cards)| ==> dealt == Some(old(cards)[..n]) && cards == old(cards)[n..]
      ensures n > |old(cards)| ==> dealt == None && cards == []
    {
      var taken: seq<Card> := [];
      var i := 0;
      while i < n
        invariant 0 <= i <= n
        invariant i <= |old(cards)|
        invariant taken == old(cards)[..i] && cards == old(cards)[i..]
      {
        if cards == [] {
          return None;
        }
        taken := taken + [cards[0]];
        cards := cards[1..];
        i := i + 1;
      }
      dealt := Some(taken);
    }
  }

  class Pile {
    var cards: seq<Card>

    constructor ()
      ensures cards == []
    {
      cards := [];
    }

    /** Put the given cards on top: new pile = given + old pile. */
    method Add(given: seq<Card>)
      modifies this
      ensures cards == given + old(cards)
    {
      cards := given + cards;
    }

    /** Hand back every card and leave the pile empty. */
    method PopAll() returns (popped: seq<Card>)
      modifies this
      ensures popped == old(cards) && cards == []
    {
      popped := cards;
      cards := [];
    }
  }

  class Team {
    const name: string
    var score: int
    var points: int

    constructor (name: string)
      ensures this.name == name && score == 0 && points == 0
    {
      this.name := name;
      score := 0;
      points := 0;
    }
  }

  /** The slot a Python list index refers to: a negative index counts from the end. */
  function Slot(t: int): (k: nat)
    requires -8 <= t <= 7
    ensures k < 8 && (t >= 0 ==> k == t)
  {
    if t >= 0 then t else t + 8
  }

  /** The hand after writing `cards` one by one into slot t, t - 1, ... (the add_cards loop). */
  function Placed(h: seq<Option<Card>>, t: int, cards: seq<Card>): (r: seq<Option<Card>>)
    requires |h| == 8 && t <= 7 && |cards| <= t + 9
    ensures |r| == 8
    decreases |cards|
  {
    if cards == [] then h else Placed(h[Slot(t) := Some(cards[0])], t - 1, cards[1..])
  }

  /** Without wrap-around, the cards land in slots t, t - 1, ..., t - |cards| + 1 and nothing else moves. */
  lemma {:induction false} PlacedAt(h: seq<Option<Card>>, t: int, cards: seq<Card>)
    requires |h| == 8 && t <= 7 && |cards| <= t + 1
    ensures forall k :: 0 <= k < 8 ==>
      Placed(h, t, cards)[k] == if t - |cards| < k <= t then Some(cards[t - k]) else h[k]
    decreases |cards|
  {
    if cards != [] {
      PlacedAt(h[t := Some(cards[0])], t - 1, cards[1..]);
    }
  }

  /** Eight cards dealt into an empty hand fill slots 7 down to 0 in deal order. */
  lemma FreshHandPlacement(cards: seq<Card>)
    requires |cards| == 8
    ensures forall k :: 0 <= k < 8 ==> Placed(EmptyHand(), 7, cards)[k] == Some(cards[7 - k])
  {
    PlacedAt(EmptyHand(), 7, cards);
  }

  function EmptyHand(): (h: seq<Option<Card>>)
    ensures |h| == 8
  {
    [None, None, None, None, None, None, None, None]
  }

  predicate AllEmpty(h: seq<Option<Card>>) {
    forall k :: 0 <= k < |h| ==> h[k] == None
  }

  /** The cards held in a hand, slot order, empty slots skipped. */
  function HandCards(h: seq<Option<Card>>): (r: seq<Card>)
    ensures |r| <= |h|
  {
    if h == [] then []
    else HandCards(h[..|h| - 1]) + (if h[|h| - 1].Some? then [h[|h| - 1].value] else [])
  }

  lemma {:induction false} HandCardsAppend(a: seq<Option<Card>>, b: seq<Option<Card>>)
    ensures HandCards(a + b) == HandCards(a) + HandCards(b)
  {
    if b == [] {
      assert a + b == a;
    } else {
      assert (a + b)[..|a + b| - 1] == a + b[..|b| - 1];
      HandCardsAppend(a, b[..|b| - 1]);
    }
  }

  /** A hand whose slots below j are empty and whose slots from j on hold cards holds |h| - j cards. */
  lemma {:induction false} FilledFromCount(h: seq<Option<Card>>, j: nat)
    requires j <= |h|
    requires forall k :: 0 <= k < j ==> h[k].None?
    requires forall k :: j <= k < |h| ==> h[k].Some?
    ensures |HandCards(h)| == |h| - j
  {
    if h != [] {
      if j == |h| {
        FilledFromCount(h[..|h| - 1], j - 1);
      } else {
        FilledFromCount(h[..|h| - 1], j);
      }
    }
  }

  /** A hand holds no card exactly when every slot is empty. */
  lemma {:induction false} NoCardsIffEmpty(h: seq<Option<Card>>)
    ensures |HandCards(h)| == 0 <==> AllEmpty(h)
    decreases |h|
  {
    if h != [] {
      var a := h[..|h| - 1];
      NoCardsIffEmpty(a);
      assert AllEmpty(h) <==> AllEmpty(a) && h[|h| - 1] == None by {
        assert forall k :: 0 <= k < |a| ==> a[k] == h[k];
      }
    }
  }

  /** Eight empty slots hold no card. */
  lemma EmptyHandHoldsNothing()
    ensures HandCards(EmptyHand()) == []
  {
    NoCardsIffEmpty(EmptyHand());
  }

  /** The card of one slot, as a sequence of zero or one card. */
  function SlotCards(x: Option<Card>): seq<Card> {
    if x.Some? then [x.value] else []
  }

  lemma {:induction false} HandCardsSplit(h: seq<Option<Card>>, k: nat)
    requires k < |h|
    ensures HandCards(h) == HandCards(h[..k]) + SlotCards(h[k]) + HandCards(h[k + 1..])
  {
    var a, y, b := h[..k], h[k], h[k + 1..];
    assert h == a + [y] + b;
    HandCardsAppend(a + [y], b);
    HandCardsAppend(a, [y]);
    assert [y][..0] == [];
    assert HandCards([y]) == HandCards([]) + SlotCards(y);
  }

  /** Overwriting one slot swaps that slot's card (if any) for the new one (if any). */
  lemma {:induction false} HandCardsUpdate(h: seq<Option<Card>>, k: nat, x: Option<Card>)
    requires k < |h|
    ensures multiset(HandCards(h[k := x])) + multiset(SlotCards(h[k])) ==
            multiset(HandCards(h)) + multiset(SlotCards(x))
  {
    var h' := h[k := x];
    HandCardsSplit(h, k);
    HandCardsSplit(h', k);
    assert h'[..k] == h[..k] && h'[k + 1..] == h[k + 1..];
  }

  /** Emptying a slot that holds a card takes exactly that card out of the hand. */
  lemma EmptySlot(h: seq<Option<Card>>, k: nat, card: Card)
    requires k < |h| && h[k] == Some(card)
    ensures multiset(HandCards(h[k := None])) + multiset{card} == multiset(HandCards(h))
    ensures |HandCards(h[k := None])| + 1 == |HandCards(h)|
  {
    HandCardsUpdate(h, k, None);
    assert SlotCards(h[k]) == [card];
    assert |multiset(HandCards(h[k := None])) + multiset{card}| == |multiset(HandCards(h))|;
  }

  /** A hand whose slots 0..t are empty and, when every slot is empty, t is back at 7. */
  predicate HandShape(h: seq<Option<Card>>, t: int) {
    |h| == 8 && -1 <= t <= 7 &&
    (forall k :: 0 <= k <= t ==> h[k] == None) &&
    (AllEmpty(h) ==> t == 7)
  }

  /** In a well-shaped hand, top_hand_index is 7 exactly when every slot is empty. */
  lemma TopIsSevenIffEmpty(h: seq<Option<Card>>, t: int)
    requires HandShape(h, t)
    ensures t == 7 <==> AllEmpty(h)
  {
  }

  /** Dealing into free slots keeps the hand well shaped. */
  lemma {:induction false} PlacedKeepsShape(h: seq<Option<Card>>, t: int, cards: seq<Card>)
    requires HandShape(h, t) && |cards| <= t + 1
    ensures HandShape(Placed(h, t, cards), t - |cards|)
    decreases |cards|
  {
    if cards != [] {
      var h' := h[t := Some(cards[0])];
      assert Placed(h, t, cards) == Placed(h', t - 1, cards[1..]);
      assert !AllEmpty(h') by { assert h'[t] != None; }
      assert HandShape(h', t - 1);
      PlacedKeepsShape(h', t - 1, cards[1..]);
    }
  }

  /** Filling an empty slot adds its card to the hand. */
  lemma {:induction false} FillSlot(h: seq<Option<Card>>, k: nat, c: Card)
    requires k < |h| && h[k] == None
    ensures multiset(HandCards(h[k := Some(c)])) == multiset(HandCards(h)) + multiset{c}
  {
    HandCardsUpdate(h, k, Some(c));
    assert SlotCards(h[k]) == [] && SlotCards(Some(c)) == [c];
  }

  /** Dealing into free slots adds exactly the dealt cards to the hand. */
  lemma {:induction false} PlacedAddsCards(h: seq<Option<Card>>, t: int, cards: seq<Card>)
    requires |h| == 8 && t <= 7 && |cards| <= t + 1
    requires forall k :: 0 <= k <= t ==> h[k] == None
    ensures multiset(HandCards(Placed(h, t, cards))) == multiset(HandCards(h)) + multiset(cards)
    decreases |cards|
  {
    if cards != [] {
      PlacedAddsCards(h[t := Some(cards[0])], t - 1, cards[1..]);
      PlacedFirst(h, t, cards);
      FilledThenRest(h, t, cards, Placed(h, t, cards));
    }
  }

  /** A hand r that holds the cards of h with slot t filled by the first card, plus the other
      cards, holds the cards of h plus all the cards. */
  lemma FilledThenRest(h: seq<Option<Card>>, t: nat, cards: seq<Card>, r: seq<Option<Card>>)
    requires t < |h| && h[t] == None && cards != []
    requires multiset(HandCards(r)) == multiset(HandCards(h[t := Some(cards[0])])) + multiset(cards[1..])
    ensures multiset(HandCards(r)) == multiset(HandCards(h)) + multiset(cards)
  {
    FillSlot(h, t, cards[0]);
    FirstAndRest(cards);
    UnionAssoc(multiset(HandCards(h)), multiset{cards[0]}, multiset(cards[1..]));
  }

  /** The cards of a non-empty sequence are its first card and the cards of the rest. */
  lemma FirstAndRest(cards: seq<Card>)
    requires cards != []
    ensures multiset(cards) == multiset{cards[0]} + multiset(cards[1..])
  {
    assert cards == [cards[0]] + cards[1..];
  }

  /** Multiset union regroups freely. */
  lemma UnionAssoc(a: multiset<Card>, b: multiset<Card>, c: multiset<Card>)
    ensures a + b + c == a + (b + c)
  {
  }

  /** Placing cards from slot t puts the first one in slot t and the rest from slot t - 1. */
  lemma PlacedFirst(h: seq<Option<Card>>, t: int, cards: seq<Card>)
    requires |h| == 8 && 0 <= t <= 7 && 0 < |cards| <= t + 1
    ensures Placed(h, t, cards) == Placed(h[t := Some(cards[0])], t - 1, cards[1..])
  {
    assert Slot(t) == t;
  }

  class Player {
    const name: string
    const team: Team
    const isHuman: bool
    var hand: seq<Option<Card>>
    var topHandIndex: int

    constructor (name: string, team: Team, isHuman: bool)
      ensures this.name == name && this.team == team && this.isHuman == isHuman
      ensures hand == EmptyHand() && topHandIndex == 7
      ensures Valid()
    {
      this.name := name;
      this.team := team;
      this.isHuman := isHuman;
      hand := EmptyHand();
      topHandIndex := 7;
    }

    /** The hand the seat is left with when its cards are taken back: eight empty slots. */
    predicate Emptied()
      reads this
    {
      hand == EmptyHand() && topHandIndex == 7
    }

    lemma EmptiedIsValid()
      requires Emptied()
      ensures Valid()
    {
    }

    predicate Valid()
      reads this
    {
      HandShape(hand, topHandIndex)
    }

    /** Write each card into slot topHandIndex and step the index down (a negative index
        wraps as in Python). */
    method AddCards(cards: seq<Card>)
      requires |hand| == 8 && topHandIndex <= 7 && |cards| <= topHandIndex + 9
      modifies this
      ensures hand == Placed(old(hand), old(topHandIndex), cards)
      ensures topHandIndex == old(topHandIndex) - |cards|
    {
      var i := 0;
      while i < |cards|
        invariant 0 <= i <= |cards|
        invariant |hand| == 8 && topHandIndex == old(topHandIndex) - i
        invariant Placed(hand, topHandIndex, cards[i..]) == Placed(old(hand), old(topHandIndex), cards)
      {
        assert cards[i..][1..] == cards[i + 1..];
        hand := hand[Slot(topHandIndex) := Some(cards[i])];
        topHandIndex := topHandIndex - 1;
        i := i + 1;
      }
      assert cards[i..] == [];
    }

    /** Take the card out of the slot list index i refers to (a negative index counts from the
        end); once every slot is empty the index goes back to 7. */
    method PlayCard(i: int) returns (card: Option<Card>)
      requires -8 <= i < 8 && |hand| == 8
      modifies this
      ensures card == old(hand)[Slot(i)]
      ensures hand == old(hand)[Slot(i) := None]
      ensures topHandIndex == if AllEmpty(hand) then 7 else old(topHandIndex)
      ensures old(Valid()) ==> Valid()
    {
      card := hand[Slot(i)];
      hand := hand[Slot(i) := None];
      if forall k :: 0 <= k < 8 ==> hand[k] == None {
        topHandIndex := 7;
      }
    }
  }
}
