/** Trick resolution (winner and points of a trick), card legality, and the belote bonus. */
module Tricks {
  import opened Wrappers
  import opened Cards
  import opened Containers

  /** The trick pile stores the newest card first; play order is the reverse. */
  function Reverse(s: seq<Card>): (r: seq<Card>)
    ensures |r| == |s|
    ensures forall k :: 0 <= k < |s| ==> r[k] == s[|s| - 1 - k]
  {
    if s == [] then [] else Reverse(s[1..]) + [s[0]]
  }

  lemma ReverseFacts(s: seq<Card>, c: Card)
    ensures Reverse([c] + s) == Reverse(s) + [c]
    ensures multiset(Reverse(s)) == multiset(s)
  {
    assert ([c] + s)[1..] == s;
    var r := Reverse(s);
    if s != [] {
      assert s == [s[0]] + s[1..];
      ReverseFacts(s[1..], s[0]);
    }
  }

  /** Whether `c` takes the lead from the best card so far, whose level is `bestLevel`, in a trick
      whose led card had colour `asked` and trump status `leadIsTrump`. The trump status of the
      best card is never updated after the lead. */
  predicate Beats(c: Card, bestLevel: nat, leadIsTrump: bool, asked: Suit, trump: Suit)
  {
    var isTrump := IsTrump(c, trump);
    var level := Level(c, trump);
    (isTrump && leadIsTrump && level > bestLevel)
    || (!isTrump && !leadIsTrump && c.color == asked && level > bestLevel)
    || (isTrump && !leadIsTrump)
  }

  /** Only a trump or a card of the asked colour can take the lead, and after a trump lead
      only a trump. */
  lemma BeatsRule(c: Card, bestLevel: nat, leadIsTrump: bool, asked: Suit, trump: Suit)
    ensures Beats(c, bestLevel, leadIsTrump, asked, trump) ==> IsTrump(c, trump) || c.color == asked
    ensures leadIsTrump && !IsTrump(c, trump) ==> !Beats(c, bestLevel, leadIsTrump, asked, trump)
  {
  }

  /** Position (in play order) of the best card among the first n cards of the trick. */
  function BestAmong(played: seq<Card>, trump: Suit, n: nat): (r: nat)
    requires 1 <= n <= |played|
    ensures r < n
  {
    if n == 1 then 0
    else
      var b := BestAmong(played, trump, n - 1);
      if Beats(played[n - 1], Level(played[b], trump), IsTrump(played[0], trump), played[0].color, trump)
      then n - 1 else b
  }

  /** Position (in play order) of the card that wins the trick. */
  function WinningPosition(played: seq<Card>, trump: Suit): (r: nat)
    requires |played| > 0
    ensures r < |played|
  {
    BestAmong(played, trump, |played|)
  }

  /** Winning seat, winning team and points of a trick whose first card was played by `leader`. */
  datatype PliInfo = PliInfo(winner: int, team: int, points: nat)

  function GetPliInfo(played: seq<Card>, trump: Suit, leader: int): (info: PliInfo)
    requires |played| > 0
    ensures leader >= 0 ==> 0 <= info.winner < 4 && 0 <= info.team < 2 && info.team == info.winner % 2
  {
    var w := WinningPosition(played, trump);
    PliInfo((leader + w) % 4, (leader + w) % 2, PointsOf(played, trump))
  }

  /** When trump is led, the winner is a trump and no trump of the trick is stronger. */
  lemma {:induction false} TrumpLedHighestTrumpWins(played: seq<Card>, trump: Suit, n: nat)
    requires 1 <= n <= |played| && IsTrump(played[0], trump)
    ensures var b := BestAmong(played, trump, n);
      IsTrump(played[b], trump) &&
      forall j :: 0 <= j < n && IsTrump(played[j], trump) ==> TrumpLevel(played[j].value) <= TrumpLevel(played[b].value)
  {
    if n > 1 {
      TrumpLedHighestTrumpWins(played, trump, n - 1);
    }
  }

  /** When no trump is played, the winner has the led colour and no card of that colour is stronger. */
  lemma {:induction false} NoTrumpHighestAskedWins(played: seq<Card>, trump: Suit, n: nat)
    requires 1 <= n <= |played|
    requires forall j :: 0 <= j < |played| ==> !IsTrump(played[j], trump)
    ensures var b := BestAmong(played, trump, n);
      played[b].color == played[0].color &&
      forall j :: 0 <= j < n && played[j].color == played[0].color ==> PlainLevel(played[j].value) <= PlainLevel(played[b].value)
  {
    if n > 1 {
      NoTrumpHighestAskedWins(played, trump, n - 1);
    }
  }

  /** Only the led card, a trump or a card of the led colour can hold the lead: a plain
      off-colour card never wins. */
  lemma {:induction false} OffColourNeverWins(played: seq<Card>, trump: Suit, n: nat)
    requires 1 <= n <= |played|
    ensures var b := BestAmong(played, trump, n);
      b == 0 || IsTrump(played[b], trump) || played[b].color == played[0].color
  {
    if n > 1 {
      OffColourNeverWins(played, trump, n - 1);
    }
  }

  /** As written: after a plain lead, every trump takes the lead when it is played, even
      below a trump already in the trick. */
  lemma TrumpAfterPlainLeadTakesLead(played: seq<Card>, trump: Suit, k: nat)
    requires 0 < k < |played| && !IsTrump(played[0], trump) && IsTrump(played[k], trump)
    ensures BestAmong(played, trump, k + 1) == k
  {
  }

  /** As written: with spades trump and a heart led, the jack of spades is overtaken by
      the eight of spades, and a trump can be overtaken by a stronger heart. */
  lemma AsWrittenTrumpExamples()
    ensures WinningPosition([Card(Hearts, Seven), Card(Spades, Jack), Card(Spades, Eight), Card(Hearts, Ace)], Spades) == 3
    ensures WinningPosition([Card(Hearts, Seven), Card(Spades, Jack), Card(Spades, Eight), Card(Clubs, Ace)], Spades) == 2
  {
    var a := [Card(Hearts, Seven), Card(Spades, Jack), Card(Spades, Eight), Card(Hearts, Ace)];
    assert BestAmong(a, Spades, 2) == 1;
    assert BestAmong(a, Spades, 3) == 2;
    var b := [Card(Hearts, Seven), Card(Spades, Jack), Card(Spades, Eight), Card(Clubs, Ace)];
    assert BestAmong(b, Spades, 2) == 1;
    assert BestAmong(b, Spades, 3) == 2;
  }

  /** The _get_pli_info loop over the cards in play order: the led card is the first best card
      and fixes the asked colour and the trump status of the best card; every later card
      replaces the best one when it Beats it; the points of every card are added up. */
  method WalkTrick(played: seq<Card>, trump: Suit) returns (best: nat, points: nat)
    requires |played| > 0
    ensures best == WinningPosition(played, trump) && points == PointsOf(played, trump)
  {
    points := 0;
    best := 0;
    var bestLevel := 0;
    var leadIsTrump := false;
    var asked := played[0].color;
    for k := 0 to |played|
      invariant points == PointsOf(played[..k], trump)
      invariant k > 0 ==> best == BestAmong(played, trump, k) && bestLevel == Level(played[best], trump)
      invariant k > 0 ==> leadIsTrump == IsTrump(played[0], trump) && asked == played[0].color
    {
      var card := played[k];
      var isTrump := card.color == trump;
      var level := if isTrump then TrumpLevel(card.value) else PlainLevel(card.value);
      if k == 0 {
        asked := card.color;
        best := k;
        bestLevel := level;
        leadIsTrump := isTrump;
      } else if (isTrump && leadIsTrump && level > bestLevel)
             || (!isTrump && !leadIsTrump && card.color == asked && level > bestLevel)
             || (isTrump && !leadIsTrump) {
        best := k;
        bestLevel := level;
      }
      points := points + if isTrump then TrumpPoints(card.value) else PlainPoints(card.value);
      PointsOfPrefixStep(played, k, trump);
    }
    assert played[..|played|] == played;
  }

  /** _get_pli_info: the trick walked in play order (the pile reversed); the winner is counted
      from `current`, the seat whose turn it is. */
  method ResolveTrick(pli: seq<Card>, trump: Suit, current: int) returns (info: PliInfo)
    requires |pli| > 0
    ensures info == GetPliInfo(Reverse(pli), trump, current)
  {
    var best, points := WalkTrick(Reverse(pli), trump);
    info := PliInfo((current + best) % 4, (current + best) % 2, points);
  }

  /** Trick points are the table values summed, whatever the order the pile stores them in. */
  lemma PliPointsOrder(pli: seq<Card>, trump: Suit, leader: int)
    requires |pli| > 0
    ensures GetPliInfo(Reverse(pli), trump, leader).points == PointsOf(pli, trump)
  {
    ReverseFacts(pli, pli[0]);
    PointsOfPermutation(Reverse(pli), pli, trump);
  }

  predicate HoldsColor(hand: seq<Option<Card>>, color: Suit) {
    exists k :: 0 <= k < |hand| && hand[k].Some? && hand[k].value.color == color
  }

  /** Highest trump level among the trumps of `cards`, -1 when there is none. */
  function MaxTrumpLevel(cards: seq<Card>, trump: Suit): (m: int)
    ensures -1 <= m < 8
    ensures m == -1 <==> forall k :: 0 <= k < |cards| ==> cards[k].color != trump
    ensures forall k :: 0 <= k < |cards| && cards[k].color == trump ==> TrumpLevel(cards[k].value) <= m
    ensures m >= 0 ==> exists k :: 0 <= k < |cards| && cards[k].color == trump && TrumpLevel(cards[k].value) == m
  {
    if cards == [] then -1
    else
      var init := cards[..|cards| - 1];
      var last := cards[|cards| - 1];
      var m := MaxTrumpLevel(init, trump);
      assert forall k :: 0 <= k < |init| ==> init[k] == cards[k];
      if last.color == trump && TrumpLevel(last.value) > m then TrumpLevel(last.value) else m
  }

  /** Highest trump level held in a hand, -1 when it holds no trump. */
  function HandMaxTrumpLevel(hand: seq<Option<Card>>, trump: Suit): int {
    MaxTrumpLevel(HandCards(hand), trump)
  }

  /** Whether `card` may be played from `hand` by seat `mover` onto the trick `pli` (stored newest
      first). A hand with no trump counts its highest trump as -1. */
  function CardValid(hand: seq<Option<Card>>, card: Card, pli: seq<Card>, trump: Suit, mover: nat): (r: bool)
    ensures |pli| > 0 && Some(card) in hand && card.color == pli[|pli| - 1].color && card.color != trump ==> r
  {
    if |pli| == 0 then true
    else
      var asked := pli[|pli| - 1].color;
      if HoldsColor(hand, asked) && card.color != asked then false
      else if card.color == trump && MaxTrumpLevel(pli, trump) >= 0
              && TrumpLevel(card.value) < MaxTrumpLevel(pli, trump)
              && HandMaxTrumpLevel(hand, trump) > MaxTrumpLevel(pli, trump) then false
      else if !HoldsColor(hand, asked) && card.color != trump && HoldsColor(hand, trump)
              && (|pli| <= 2 || mover % 2 != GetPliInfo(Reverse(pli), trump, mover).team) then false
      else true
  }

  /** Any card may open a trick. */
  lemma OpeningIsFree(hand: seq<Option<Card>>, card: Card, trump: Suit, mover: nat)
    ensures CardValid(hand, card, [], trump, mover)
  {
  }

  /** Holding the led colour, an off-colour card is illegal. */
  lemma MustFollow(hand: seq<Option<Card>>, card: Card, pli: seq<Card>, trump: Suit, mover: nat)
    requires |pli| > 0 && HoldsColor(hand, pli[|pli| - 1].color) && card.color != pli[|pli| - 1].color
    ensures !CardValid(hand, card, pli, trump, mover)
  {
  }

  /** A trump below the best trump of the trick is illegal while the hand holds a trump above it. */
  lemma MustOvertrump(hand: seq<Option<Card>>, card: Card, pli: seq<Card>, trump: Suit, mover: nat, k: nat, better: Card)
    requires |pli| > 0 && card.color == trump
    requires 0 <= k < |pli| && pli[k].color == trump && TrumpLevel(card.value) < TrumpLevel(pli[k].value)
    requires forall j :: 0 <= j < |pli| && pli[j].color == trump ==> TrumpLevel(pli[j].value) <= TrumpLevel(pli[k].value)
    requires Some(better) in hand && better.color == trump && TrumpLevel(better.value) > TrumpLevel(pli[k].value)
    ensures !CardValid(hand, card, pli, trump, mover)
  {
    var i :| 0 <= i < |hand| && hand[i] == Some(better);
    HandCardsHas(hand, i);
    var hc := HandCards(hand);
    var j :| 0 <= j < |hc| && hc[j] == better;
    assert HandMaxTrumpLevel(hand, trump) >= TrumpLevel(better.value);
  }

  /** A card in slot i of a hand is among the hand's cards. */
  lemma {:induction false} HandCardsHas(hand: seq<Option<Card>>, i: nat)
    requires i < |hand| && hand[i].Some?
    ensures exists j :: 0 <= j < |HandCards(hand)| && HandCards(hand)[j] == hand[i].value
  {
    HandCardsSplit(hand, i);
    var j := |HandCards(hand[..i])|;
    assert HandCards(hand)[j] == hand[i].value;
  }

  /** Void in the led colour but holding trump, a plain card is illegal while the trick has at most
      two cards, and with three cards exactly when the computed team is not the mover's. */
  lemma MustTrump(hand: seq<Option<Card>>, card: Card, pli: seq<Card>, trump: Suit, mover: nat)
    requires 0 < |pli| <= 3
    requires !HoldsColor(hand, pli[|pli| - 1].color) && HoldsColor(hand, trump) && card.color != trump
    ensures |pli| <= 2 ==> !CardValid(hand, card, pli, trump, mover)
    ensures |pli| == 3 ==> (CardValid(hand, card, pli, trump, mover) <==>
                            mover % 2 == (mover + WinningPosition(Reverse(pli), trump)) % 2)
  {
  }

  /** Every hand that holds a card has a legal card: one of the led colour, else its best trump,
      else any card. */
  lemma LegalCardExists(hand: seq<Option<Card>>, pli: seq<Card>, trump: Suit, mover: nat)
    requires exists k :: 0 <= k < |hand| && hand[k].Some?
    ensures exists k :: 0 <= k < |hand| && hand[k].Some? && CardValid(hand, hand[k].value, pli, trump, mover)
  {
    if |pli| > 0 {
      var asked := pli[|pli| - 1].color;
      if HoldsColor(hand, asked) && asked != trump {
        var k :| 0 <= k < |hand| && hand[k].Some? && hand[k].value.color == asked;
        assert CardValid(hand, hand[k].value, pli, trump, mover);
      } else if HoldsColor(hand, trump) {
        var k := BestTrumpSlot(hand, trump);
        assert CardValid(hand, hand[k].value, pli, trump, mover);
      } else {
        var k :| 0 <= k < |hand| && hand[k].Some?;
        assert CardValid(hand, hand[k].value, pli, trump, mover);
      }
    } else {
      var k :| 0 <= k < |hand| && hand[k].Some?;
      assert CardValid(hand, hand[k].value, pli, trump, mover);
    }
  }

  /** The slot of the strongest trump of a hand that holds one. */
  lemma BestTrumpSlot(hand: seq<Option<Card>>, trump: Suit) returns (k: nat)
    requires HoldsColor(hand, trump)
    ensures k < |hand| && hand[k].Some? && hand[k].value.color == trump
    ensures TrumpLevel(hand[k].value.value) == HandMaxTrumpLevel(hand, trump)
  {
    var i :| 0 <= i < |hand| && hand[i].Some? && hand[i].value.color == trump;
    HandCardsHas(hand, i);
    var hc := HandCards(hand);
    var m := HandMaxTrumpLevel(hand, trump);
    var j :| 0 <= j < |hc| && hc[j].color == trump && TrumpLevel(hc[j].value) == m;
    k := SlotOf(hand, j);
  }

  /** Card j of HandCards(hand) sits in some slot of the hand. */
  lemma {:induction false} SlotOf(hand: seq<Option<Card>>, j: nat) returns (k: nat)
    requires j < |HandCards(hand)|
    ensures k < |hand| && hand[k] == Some(HandCards(hand)[j])
  {
    var init := hand[..|hand| - 1];
    if j < |HandCards(init)| {
      k := SlotOf(init, j);
    } else {
      k := |hand| - 1;
    }
  }

  /** Whether a hand holds both the king and the queen of `color`. */
  predicate HasBelote(hand: seq<Option<Card>>, color: Suit) {
    Some(Card(color, King)) in hand && Some(Card(color, Queen)) in hand
  }

  /** The belote bonus, looking at seats from `from` on: 20 at the first seat whose team name is the
      bidding team's name and whose hand holds king and queen of the bid colour, otherwise 0. */
  function BelotePoints(hands: seq<seq<Option<Card>>>, teamNames: seq<string>, biddingTeam: nat, color: Suit, from: nat): (r: nat)
    requires |teamNames| == 2 && biddingTeam < 2
    ensures r == 0 || r == 20
    decreases |hands| - from
  {
    if from >= |hands| then 0
    else if teamNames[from % 2] == teamNames[biddingTeam] && HasBelote(hands[from], color) then 20
    else BelotePoints(hands, teamNames, biddingTeam, color, from + 1)
  }

  /** Belote is 20 exactly when some seat of the bidding team's name holds king and queen of the bid
      colour, and 0 otherwise. */
  lemma {:induction false} BeloteRule(hands: seq<seq<Option<Card>>>, teamNames: seq<string>, biddingTeam: nat, color: Suit, from: nat)
    requires |teamNames| == 2 && biddingTeam < 2
    ensures BelotePoints(hands, teamNames, biddingTeam, color, from) == 20 <==> exists p :: from <= p < |hands| && teamNames[p % 2] == teamNames[biddingTeam] && HasBelote(hands[p], color)
    decreases |hands| - from
  {
    if from < |hands| {
      BeloteRule(hands, teamNames, biddingTeam, color, from + 1);
    }
  }

  /** A value as `_get_belotte_points` compares it: a card's value field holds the text of its
      Value member (the deck is built from the members' texts), while the test compares it with
      the members themselves. A text never equals an enum member. */
  datatype PyValue = Text(text: string) | Member(rank: Rank)

  /** The value field of a card as the deck stores it. */
  function StoredValue(c: Card): (v: PyValue)
    ensures v.Text?
  {
    Text(RankText(c.value))
  }

  /** The source's test that a hand holds a card of `rank` in `color`, with the comparison as
      written (the hand is full while bidding, so every slot holds a card). */
  predicate HoldsAsWritten(hand: seq<Option<Card>>, rank: Rank, color: Suit) {
    exists k :: 0 <= k < |hand| && hand[k].Some? &&
      StoredValue(hand[k].value) == Member(rank) && hand[k].value.color == color
  }

  /** The belote bonus as `_get_belotte_points` computes it: the same walk over the seats as
      BelotePoints, with the king and queen tests as written. */
  function BelotePointsAsWritten(hands: seq<seq<Option<Card>>>, teamNames: seq<string>, biddingTeam: nat, color: Suit, from: nat): (r: int)
    requires |teamNames| == 2 && biddingTeam < 2
    ensures r == 0 || r == 20
    decreases |hands| - from
  {
    if from >= |hands| then 0
    else
      var hand := hands[from];
      if teamNames[from % 2] == teamNames[biddingTeam]
         && HoldsAsWritten(hand, King, color) && HoldsAsWritten(hand, Queen, color) then 20
      else BelotePointsAsWritten(hands, teamNames, biddingTeam, color, from + 1)
  }

  /** As written, no hand ever earns the belote bonus: it is 0 for every deal. */
  lemma {:induction false} BeloteAsWrittenIsZero(hands: seq<seq<Option<Card>>>, teamNames: seq<string>, biddingTeam: nat, color: Suit, from: nat)
    requires |teamNames| == 2 && biddingTeam < 2
    ensures BelotePointsAsWritten(hands, teamNames, biddingTeam, color, from) == 0
    decreases |hands| - from
  {
    if from < |hands| {
      BeloteAsWrittenIsZero(hands, teamNames, biddingTeam, color, from + 1);
    }
  }

  /** A deal that shows the difference: seat 0, of the bidding team, holds the king and queen of
      hearts, the bid colour. As written the bonus is 0, by the rule it is 20, and a contract of
      80 made with 65 card points fails without the bonus and is fulfilled with it. */
  lemma BeloteFindingExample()
    ensures var hands := [[Some(Card(Hearts, King)), Some(Card(Hearts, Queen))], [], [], []];
      BelotePointsAsWritten(hands, ["A", "B"], 0, Hearts, 0) == 0 &&
      BelotePoints(hands, ["A", "B"], 0, Hearts, 0) == 20 &&
      !Fulfilled(80, [], 0, 65, 87, 0) && Fulfilled(80, [], 0, 65, 87, 20)
  {
    var hands := [[Some(Card(Hearts, King)), Some(Card(Hearts, Queen))], [], [], []];
    BeloteAsWrittenIsZero(hands, ["A", "B"], 0, Hearts, 0);
  }

  /** Whether the contract is fulfilled: a generale (500) when every trick went to the bidder seat,
      a capot (250) when the challengers scored nothing, otherwise when the bidding team's points
      plus belote reach the bid. */
  function Fulfilled(bidValue: int, winners: seq<int>, bidder: int, biddingPoints: int, challengerPoints: int, belote: int): (r: bool)
    ensures bidValue == 250 && biddingPoints + challengerPoints == 152 ==> (r <==> biddingPoints == 152)
  {
    if bidValue == 500 then forall i :: 0 <= i < |winners| ==> winners[i] == bidder
    else if bidValue == 250 then challengerPoints == 0
    else biddingPoints + belote >= bidValue
  }
}
