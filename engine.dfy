/** The game engine: one object holding the teams, the seats, the deck, the two team piles
    and the current trick, and stepping through a round (deal, auction, eight tricks,
    scoring) one call at a time. */
module Engine {
  import opened Wrappers
  import opened Cards
  import opened Containers
  import opened Ledger
  import opened Tricks

  datatype GameState = Playing | Bidding | BetweenRounds | Ended | BiddingReady | PlayingReady

  /** One row of the play memory: who played which card. */
  datatype PlayRecord = PlayRecord(playerIndex: int, card: Card)

  /** The seat after `i` around the table (the index steps up and goes back to 0 at 4). */
  function Next(i: int): (j: int)
    requires 0 <= i < 4
    ensures 0 <= j < 4 && j == (i + 1) % 4
  {
    if i + 1 == 4 then 0 else i + 1
  }

  /** How many seats after `leader` seat `p` sits. */
  function Offset(p: int, leader: int): int {
    (p - leader + 4) % 4
  }

  /** Hand p of hs holds eight cards less one per finished trick, and one less again when
      seat p has played to the current trick of n cards led by seat `leader`. */
  ghost predicate Fits(hs: seq<seq<Option<Card>>>, done: nat, leader: nat, n: nat)
    requires |hs| == 4
  {
    forall p :: 0 <= p < 4 ==> |HandCards(hs[p])| == 8 - done - (if Offset(p, leader) < n then 1 else 0)
  }

  /** A card laid from the hand of the seat whose turn it is keeps the hands fitting the
      trick, now one card longer. */
  lemma FitsAfterLay(hs: seq<seq<Option<Card>>>, c: nat, k: nat, done: nat, leader: nat, n: nat)
    requires |hs| == 4 && leader < 4 && n < 4 && c == (leader + n) % 4
    requires k < |hs[c]| && hs[c][k].Some? && Fits(hs, done, leader, n)
    ensures Fits(hs[c := hs[c][k := None]], done, leader, n + 1)
  {
    var h := hs[c][k := None];
    EmptySlot(hs[c], k, hs[c][k].value);
    forall p | 0 <= p < 4
      ensures |HandCards(hs[c := h][p])| == 8 - done - (if Offset(p, leader) < n + 1 then 1 else 0)
    {
      OffsetOfTurn(p, leader, n);
      if p == c {
        assert hs[c := h][p] == h;
      } else {
        assert hs[c := h][p] == hs[p];
      }
    }
  }

  /** Once all four seats played, the trick counts as finished, whoever leads the next. */
  lemma FitsAfterTrick(hs: seq<seq<Option<Card>>>, done: nat, leader: nat, winner: nat)
    requires |hs| == 4 && leader < 4 && Fits(hs, done, leader, 4)
    ensures Fits(hs, done + 1, winner, 0)
  {
    forall p | 0 <= p < 4 ensures |HandCards(hs[p])| == 8 - (done + 1) {
      OffsetOfTurn(p, leader, 0);
    }
  }

  /** The seat after the one n places after the leader is n + 1 places after it. */
  lemma TurnAfter(leader: int, n: int)
    requires 0 <= leader < 4 && 0 <= n < 4
    ensures Next((leader + n) % 4) == (leader + n + 1) % 4
  {
  }

  /** Seat p is among the first n + 1 seats of a trick exactly when it is among the first n or
      it is the seat n places after the leader. */
  lemma OffsetOfTurn(p: int, leader: int, n: int)
    requires 0 <= p < 4 && 0 <= leader < 4 && 0 <= n < 4
    ensures 0 <= Offset(p, leader) < 4
    ensures Offset(p, leader) < n + 1 <==> Offset(p, leader) < n || p == (leader + n) % 4
  {
  }

  /** Cards dealt to each seat before pass `step`, with the two-card pass at pass `m - 1`. */
  function Sent(m: int, step: nat): nat {
    3 * step - (if 1 <= m <= step then 1 else 0)
  }

  /** Cards dealt to each seat in pass `step`. */
  function PassSize(m: int, step: nat): nat {
    if m == step + 1 then 2 else 3
  }

  /** What is left of deck d once q seats have each taken n cards from its top (nothing once
      it runs short). */
  function Rest(d: seq<Card>, q: nat, n: nat): seq<Card>
  {
    if q == 0 then d
    else
      var r := Rest(d, q - 1, n);
      if n <= |r| then r[n..] else []
  }

  /** The n cards seat q takes when a pass around the table is dealt from d. */
  function Chunk(d: seq<Card>, q: nat, n: nat): (c: seq<Card>)
    ensures |c| <= n
  {
    var r := Rest(d, q, n);
    if n <= |r| then r[..n] else r
  }

  /** The four seats in turn: seat q takes the q-th block of n cards and four blocks are gone. */
  lemma ChunkIsSlice(d: seq<Card>, q: nat, n: nat)
    requires q < 4 && 4 * n <= |d|
    ensures q * n + n <= |d| && Chunk(d, q, n) == d[q * n..q * n + n]
    ensures Rest(d, 4, n) == d[4 * n..]
  {
    assert Rest(d, 1, n) == d[n..];
    assert Rest(d, 2, n) == d[2 * n..];
    assert Rest(d, 3, n) == d[3 * n..];
    if q == 0 {
    } else if q == 1 {
    } else if q == 2 {
      assert q * n == 2 * n;
    } else {
      assert q * n == 3 * n;
    }
  }

  /** With 4 - p seats still to serve, the one served now leaves 3 - p blocks of n. */
  lemma SeatsLeft(p: nat, n: nat)
    requires p < 4
    ensures (4 - p) * n == (3 - p) * n + n && (3 - p) * n >= 0
  {
  }

  /** The cards seat p has received after the first `step` passes of a deal from d, in the
      order received, with the two-card pass at pass `m - 1`: in each pass the seat takes,
      from the cards left, the block after the blocks of the seats before it. */
  function Received(d: seq<Card>, m: int, p: nat, step: nat): (r: seq<Card>)
    requires 1 <= m <= 3 && step <= 3 && |d| >= 32
    ensures |r| <= Sent(m, step)
  {
    if step == 0 then []
    else Received(d, m, p, step - 1) + Chunk(d[4 * Sent(m, step - 1)..], p, PassSize(m, step - 1))
  }

  /** After `step` passes every seat has received Sent(m, step) cards: eight after three. */
  lemma {:induction false} ReceivedLength(d: seq<Card>, m: int, p: nat, step: nat)
    requires 1 <= m <= 3 && step <= 3 && |d| >= 32 && p < 4
    ensures |Received(d, m, p, step)| == Sent(m, step)
  {
    if step > 0 {
      ReceivedLength(d, m, p, step - 1);
      ChunkIsSlice(d[4 * Sent(m, step - 1)..], p, PassSize(m, step - 1));
    }
  }

  /** A hand filled from the top by a deal: slot 7 - i holds the i-th card received and the
      slots below the received cards are empty. */
  function DealtHand(got: seq<Card>): (h: seq<Option<Card>>)
    requires |got| <= 8
    ensures |h| == 8
  {
    seq(8, k requires 0 <= k < 8 => if 7 - k < |got| then Some(got[7 - k]) else None)
  }

  /** Hand h is the hand dealt the cards `got`, in that order. */
  ghost predicate HoldsDealt(h: seq<Option<Card>>, got: seq<Card>) {
    |got| <= 8 && h == DealtHand(got)
  }

  /** A dealt hand holds exactly the cards it received. */
  lemma DealtCount(h: seq<Option<Card>>, got: seq<Card>)
    requires HoldsDealt(h, got)
    ensures |HandCards(h)| == |got|
  {
    FilledFromCount(h, 8 - |got|);
  }

  /** Writing c into the free slots below the cards already received extends what was received. */
  lemma PlacedDealt(h: seq<Option<Card>>, got: seq<Card>, c: seq<Card>)
    requires HoldsDealt(h, got) && |got| + |c| <= 8
    ensures HoldsDealt(Placed(h, 7 - |got|, c), got + c)
  {
    PlacedAt(h, 7 - |got|, c);
  }

  /** One more pass adds to what each seat has received its block of the cards left after
      the earlier passes. */
  lemma ReceivedNext(d0: seq<Card>, m: int, step: nat, d: seq<Card>, n: nat, gots: seq<seq<Card>>)
    requires 1 <= m <= 3 && step < 3 && |d0| == 32 && n == (if m == step + 1 then 2 else 3)
    requires 4 * Sent(m, step) <= 32 && d == d0[4 * Sent(m, step)..]
    requires |gots| == 4 && forall p :: 0 <= p < 4 ==> gots[p] == Received(d0, m, p, step)
    ensures Sent(m, step + 1) == Sent(m, step) + n && |d| >= 4 * n
    ensures forall p :: 0 <= p < 4 ==>
      |gots[p]| == 7 - (7 - Sent(m, step)) && |gots[p]| + n <= 8 &&
      gots[p] + Chunk(d, p, n) == Received(d0, m, p, step + 1)
  {
    forall p | 0 <= p < 4 ensures |gots[p]| == Sent(m, step) {
      ReceivedLength(d0, m, p, step);
    }
  }

  /** Dropping i cards and then j more drops i + j. */
  lemma DropDrop(s: seq<Card>, d: seq<Card>, i: nat, j: nat, k: nat)
    requires k == i + j <= |s| && d == s[i..]
    ensures d[j..] == s[k..]
  {
  }

  /** The cards held by the first n seats, seat by seat, each hand in slot order. */
  function HandsCards(hs: seq<seq<Option<Card>>>, n: nat): seq<Card>
    requires n <= |hs|
  {
    if n == 0 then [] else HandsCards(hs, n - 1) + HandCards(hs[n - 1])
  }

  /** The bookkeeping of one place when a single place changed: p is its count now and p0
      its recorded count, a and a0 the same for the places after it; `here` says the changed
      place is this one, `after` that it lies further on. */
  lemma ChangeStep(p: multiset<Card>, p0: multiset<Card>, a: multiset<Card>, a0: multiset<Card>, x: multiset<Card>,
                   here: bool, after: bool, lost: bool)
    requires !here ==> p == p0
    requires here ==> !after && if lost then p + x == p0 else p == p0 + x
    requires after && lost ==> a + x == a0
    requires after && !lost ==> a == a0 + x
    requires !after ==> a == a0
    ensures (here || after) && lost ==> (p + a) + x == p0 + a0
    ensures (here || after) && !lost ==> p + a == (p0 + a0) + x
    ensures !here && !after ==> p + a == p0 + a0
  {
    if (here || after) && lost {
      forall y ensures ((p + a) + x)[y] == (p0 + a0)[y] {
      }
    } else if here || after {
      forall y ensures (p + a)[y] == ((p0 + a0) + x)[y] {
      }
    }
  }

  /** The cards recorded for places k and later. */
  ghost function SumFrom(s: seq<multiset<Card>>, k: nat): multiset<Card>
    decreases |s| - k
  {
    if k >= |s| then multiset{} else s[k] + SumFrom(s, k + 1)
  }

  /** Cards taken out of the game one batch after another: `got` earlier, then `held`. */
  lemma MoveOut(now: multiset<Card>, before: multiset<Card>, total: multiset<Card>, got: seq<Card>, held: seq<Card>)
    requires now + multiset(held) == before && before + multiset(got) == total
    ensures now + multiset(got + held) == total
  {
    forall y ensures (now + multiset(got + held))[y] == total[y] {
      assert (before + multiset(got))[y] == total[y];
    }
  }

  /** Cards added on both sides can be taken away again. */
  lemma Cancel(a: multiset<Card>, b: multiset<Card>, x: multiset<Card>)
    requires a + x == b + x
    ensures a == b
  {
    forall y ensures a[y] == b[y] {
      assert (a + x)[y] == (b + x)[y];
    }
  }

  /** The four seats of a new game, seat i in team t0 when i is even and t1 otherwise. */
  method NewSeats(names: seq<string>, t0: Team, t1: Team, isHuman: seq<bool>) returns (ps: seq<Player>)
    requires |names| == 4 && |isHuman| == 4
    ensures |ps| == 4 && forall i, j :: 0 <= i < j < 4 ==> ps[i] != ps[j]
    ensures forall i :: 0 <= i < 4 ==> fresh(ps[i])
    ensures ps[0].team == t0 && ps[1].team == t1 && ps[2].team == t0 && ps[3].team == t1
    ensures forall i :: 0 <= i < 4 ==> ps[i].name == names[i] && ps[i].isHuman == isHuman[i]
    ensures forall i :: 0 <= i < 4 ==> ps[i].Emptied() && ps[i].Valid()
  {
    var p0 := new Player(names[0], t0, isHuman[0]);
    var p1 := new Player(names[1], t1, isHuman[1]);
    var p2 := new Player(names[2], t0, isHuman[2]);
    var p3 := new Player(names[3], t1, isHuman[3]);
    ps := [p0, p1, p2, p3];
  }

  /** A fresh deck put in the given order, which holds every card exactly once. */
  method NewDeck(order: seq<Card>) returns (d: Deck)
    requires OnceEach(multiset(order))
    ensures fresh(d) && d.cards == order && |order| == 32
  {
    d := new Deck();
    OnceEachIsFullDeck(multiset(order));
    assert |order| == |multiset(order)|;
    d.Shuffle(order);
  }

  /** The two team piles and the trick of a new game, all empty. */
  method NewPiles() returns (s0: Pile, s1: Pile, tr: Pile)
    ensures fresh(s0) && fresh(s1) && fresh(tr) && s0 != s1 && tr != s0 && tr != s1
    ensures s0.cards == [] && s1.cards == [] && tr.cards == []
  {
    s0 := new Pile();
    s1 := new Pile();
    tr := new Pile();
  }

  /** The objects of a new game are pairwise distinct where they must be, and wired as the
      seats expect: two teams, four seats (seat i in team i mod 2), a deck, two team piles
      and the trick. */
  ghost predicate Apart(teams: seq<Team>, players: seq<Player>, deck: Deck, piles: seq<Pile>, pli: Pile) {
    |teams| == 2 && |players| == 4 && |piles| == 2 &&
    teams[0] != teams[1] && piles[0] != piles[1] && pli != piles[0] && pli != piles[1] &&
    (forall i, j :: 0 <= i < j < 4 ==> players[i] != players[j]) &&
    (forall i :: 0 <= i < 4 ==> players[i] as object != deck) &&
    (forall i :: 0 <= i < 2 ==> piles[i] as object != deck) &&
    players[0].team == teams[0] && players[1].team == teams[1] &&
    players[2].team == teams[0] && players[3].team == teams[1]
  }

  /** The teams, seats, deck and piles of a new game, the deck in the given order. */
  method NewTable(playerNames: seq<string>, teamNames: seq<string>, isHuman: seq<bool>, order: seq<Card>)
      returns (ts: seq<Team>, ps: seq<Player>, d: Deck, ss: seq<Pile>, tr: Pile)
    requires |playerNames| == 4 && |teamNames| == 2 && |isHuman| == 4 && OnceEach(multiset(order))
    ensures Apart(ts, ps, d, ss, tr) && fresh(d) && fresh(tr) && fresh(ss[0]) && fresh(ss[1])
    ensures forall i :: 0 <= i < 4 ==> fresh(ps[i])
    ensures [ts[0].name, ts[1].name] == teamNames && ts[0].score == 0 && ts[1].score == 0
    ensures ts[0].points == 0 && ts[1].points == 0
    ensures forall i :: 0 <= i < 4 ==> ps[i].name == playerNames[i] && ps[i].isHuman == isHuman[i]
    ensures forall i :: 0 <= i < 4 ==> ps[i].Emptied() && ps[i].Valid()
    ensures d.cards == order && |order| == 32
    ensures ss[0].cards == [] && ss[1].cards == [] && tr.cards == []
  {
    var t0 := new Team(teamNames[0]);
    var t1 := new Team(teamNames[1]);
    ps := NewSeats(playerNames, t0, t1, isHuman);
    ts := [t0, t1];
    d := NewDeck(order);
    var s0, s1;
    s0, s1, tr := NewPiles();
    ss := [s0, s1];
  }

  class CoincheEngine {
    const teams: seq<Team>
    const players: seq<Player>
    const targetScore: int
    const deck: Deck
    const piles: seq<Pile>
    const pli: Pile
    /** The cards of a fresh deck, as a multiset. */
    ghost const allCards: multiset<Card>

    var startingPlayerIndex: int
    var state: GameState
    var currentPlayerIndex: int

    var isBiddingClosed: bool
    var bidValue: Option<int>
    var bidColor: Option<Suit>
    /** Index into `teams` of the team holding the contract. */
    var biddingTeam: Option<nat>
    /** Index into `teams` of the other team. */
    var challengerTeam: Option<nat>
    var isCoinched: bool
    var isSurcoinched: bool
    var bidderIndex: Option<nat>
    var bidMemory: seq<BidRecord>
    var belottePoints: nat

    var pliWinnersMemory: seq<int>
    var pliCounter: nat
    var playMemory: seq<PlayRecord>
    /** The seat that led the current trick. */
    ghost var pliLeader: nat

    /** Two teams, four seats, two team piles. */
    ghost predicate Sized() {
      |teams| == 2 && |players| == 4 && |piles| == 2
    }

    /** Two teams, four distinct seats, seat i in team i mod 2, three distinct piles, and none
        of these objects is the engine or the deck. */
    ghost predicate Wired() {
      Sized() &&
      teams[0] != teams[1] && piles[0] != piles[1] && pli != piles[0] && pli != piles[1] &&
      deck as object != this && pli as object != this &&
      (forall i, j :: 0 <= i < j < 4 ==> players[i] != players[j]) &&
      (forall i :: 0 <= i < 4 ==> players[i] as object != this && players[i] as object != deck) &&
      (forall i :: 0 <= i < 2 ==> piles[i] as object != this && piles[i] as object != deck) &&
      players[0].team == teams[0] && players[1].team == teams[1] &&
      players[2].team == teams[0] && players[3].team == teams[1]
    }

    function Hands(): seq<seq<Option<Card>>>
      requires |players| == 4
      reads players
    {
      [players[0].hand, players[1].hand, players[2].hand, players[3].hand]
    }

    function TeamNames(): seq<string>
      requires |teams| == 2
    {
      [teams[0].name, teams[1].name]
    }

    /** The object holding place k. */
    ghost function PlaceObject(k: nat): object
      requires Sized() && k < 8
    {
      if k == 0 then deck else if k == 1 then pli else if k < 4 then piles[k - 2] else players[k - 4]
    }

    /** The cards at place k (0 deck, 1 trick, 2 and 3 the piles, 4 to 7 the hands). */
    ghost function PlaceAt(k: nat): seq<Card>
      requires Sized() && k < 8
      reads PlaceObject(k)
    {
      if k == 0 then deck.cards else if k == 1 then pli.cards else if k < 4 then piles[k - 2].cards
      else HandCards(players[k - 4].hand)
    }

    /** The cards of places k and later. */
    ghost function BagFrom(k: nat): multiset<Card>
      requires Sized() && k <= 8
      reads deck, pli, piles, players
      decreases 8 - k
    {
      if k == 8 then multiset{} else multiset(PlaceAt(k)) + BagFrom(k + 1)
    }

    /** Every card in the game, wherever it is. */
    ghost function Bag(): multiset<Card>
      requires Sized()
      reads deck, pli, piles, players
    {
      BagFrom(0)
    }

    /** The cards of each place, place by place. */
    ghost function Snapshot(): (s: seq<multiset<Card>>)
      requires Sized()
      reads deck, pli, piles, players
      ensures |s| == 8 && forall k :: 0 <= k < 8 ==> s[k] == multiset(PlaceAt(k))
    {
      seq(8, k requires 0 <= k < 8 reads deck, pli, piles, players => multiset(PlaceAt(k)))
    }

    /** Counting the places from k on, one by one, gives their recorded total. */
    lemma {:induction false} BagIsSum(k: nat, s: seq<multiset<Card>>)
      requires Sized() && k <= 8 && |s| == 8
      requires forall m :: k <= m < 8 ==> s[m] == multiset(PlaceAt(m))
      ensures BagFrom(k) == SumFrom(s, k)
      decreases 8 - k
    {
      if k < 8 {
        BagIsSum(k + 1, s);
      }
    }

    /** Against a record s of the places, only place i changed since, by losing the cards x
        when `lost` holds and by gaining them otherwise: the places from k on balance out. */
    lemma {:induction false} BagAfterChangeFrom(k: nat, i: nat, x: multiset<Card>, lost: bool, s: seq<multiset<Card>>)
      requires Sized() && k <= 8 && i < 8 && |s| == 8
      requires forall m :: k <= m < 8 && m != i ==> multiset(PlaceAt(m)) == s[m]
      requires k <= i ==> if lost then multiset(PlaceAt(i)) + x == s[i] else multiset(PlaceAt(i)) == s[i] + x
      ensures k <= i && lost ==> BagFrom(k) + x == SumFrom(s, k)
      ensures k <= i && !lost ==> BagFrom(k) == SumFrom(s, k) + x
      ensures i < k ==> BagFrom(k) == SumFrom(s, k)
      decreases 8 - k
    {
      if k < 8 {
        BagAfterChangeFrom(k + 1, i, x, lost, s);
        ChangeStep(multiset(PlaceAt(k)), s[k], BagFrom(k + 1), SumFrom(s, k + 1), x, k == i, k + 1 <= i, lost);
      }
    }

    /** Place i lost the cards x, every other place untouched since the record s was taken. */
    lemma BagAfterLoss(i: nat, x: multiset<Card>, s: seq<multiset<Card>>)
      requires Sized() && i < 8 && |s| == 8
      requires forall m :: 0 <= m < 8 && m != i ==> multiset(PlaceAt(m)) == s[m]
      requires multiset(PlaceAt(i)) + x == s[i]
      ensures Bag() + x == SumFrom(s, 0)
    {
      BagAfterChangeFrom(0, i, x, true, s);
    }

    /** Place i gained the cards x, every other place untouched since the record s was taken. */
    lemma BagAfterGain(i: nat, x: multiset<Card>, s: seq<multiset<Card>>)
      requires Sized() && i < 8 && |s| == 8
      requires forall m :: 0 <= m < 8 && m != i ==> multiset(PlaceAt(m)) == s[m]
      requires multiset(PlaceAt(i)) == s[i] + x
      ensures Bag() == SumFrom(s, 0) + x
    {
      BagAfterChangeFrom(0, i, x, false, s);
    }

    /** Seat p holds no place but its own. */
    lemma OtherPlace(m: nat, p: nat)
      requires Wired() && m < 8 && p < 4 && m != 4 + p
      ensures PlaceObject(m) != players[p]
    {
      if m >= 4 {
        assert players[m - 4] != players[p];
      }
    }

    /** Places from k on, all empty, hold no card. */
    lemma {:induction false} EmptyFrom(k: nat)
      requires Sized() && k <= 8
      requires forall m :: k <= m < 8 ==> PlaceAt(m) == []
      ensures BagFrom(k) == multiset{}
      decreases 8 - k
    {
      if k < 8 {
        EmptyFrom(k + 1);
      }
    }

    ghost predicate PlayersValid()
      requires |players| == 4
      reads players
    {
      forall p :: 0 <= p < 4 ==> players[p].Valid()
    }

    /** The deck is empty between operations and the 32 cards of the game, each once, are all
        accounted for. */
    ghost predicate Conserved()
      requires Sized()
      reads deck, pli, piles, players
    {
      deck.cards == [] && Bag() == allCards && |allCards| == 32 && OnceEach(allCards)
    }

    /** Right after a deal: eight cards in every hand, nothing on the table, no points. */
    ghost predicate Dealt()
      requires Sized()
      reads pli, piles, teams, players
    {
      pli.cards == [] && piles[0].cards == [] && piles[1].cards == [] &&
      teams[0].points == 0 && teams[1].points == 0 &&
      forall p :: 0 <= p < 4 ==> |HandCards(players[p].hand)| == 8 && players[p].topHandIndex == -1
    }

    /** After a round: every hand empty, no trick on the table, no points. */
    ghost predicate Cleared()
      requires Sized()
      reads pli, teams, players
    {
      pli.cards == [] && teams[0].points == 0 && teams[1].points == 0 &&
      forall p :: 0 <= p < 4 ==> AllEmpty(players[p].hand) && players[p].topHandIndex == 7
    }

    /** A new game before the first deal: the 32 cards of the game all in the deck, empty
        hands, an empty table and no points. */
    ghost predicate SetUp()
      reads deck, pli, piles, teams, players
    {
      Wired() && PlayersValid() && |deck.cards| == 32 &&
      multiset(deck.cards) == allCards && |allCards| == 32 && OnceEach(allCards) &&
      pli.cards == [] && piles[0].cards == [] && piles[1].cards == [] &&
      teams[0].points == 0 && teams[1].points == 0 &&
      forall p :: 0 <= p < 4 ==> players[p].Emptied()
    }

    /** Between rounds: the seats and the cards are consistent and the table is cleared. */
    ghost predicate Collected()
      reads deck, pli, piles, teams, players
    {
      Wired() && PlayersValid() && Conserved() && Cleared()
    }

    /** A contract is in force: value, colour, the two teams and the bidder seat. */
    ghost predicate Contract()
      reads this
    {
      bidValue.Some? && bidColor.Some? && biddingTeam.Some? && biddingTeam.value < 2 &&
      challengerTeam == Some(1 - biddingTeam.value) && bidderIndex.Some? && bidderIndex.value < 4
    }

    /** The ledger is well formed, the current bid is its highest value and the coinche flag
        says whether it holds a coinche. */
    ghost predicate Ledgered()
      reads this`bidMemory, this`bidValue, this`isCoinched
    {
      WellFormed(bidMemory) && bidValue == MaxBid(bidMemory) && isCoinched == AnyCoinche(bidMemory)
    }

    /** The seats, the table and the piles are consistent: the part of the state the auction
        leaves alone. */
    ghost predicate Table()
      reads deck, pli, piles, teams, players
    {
      Wired() && PlayersValid() && Conserved() && Dealt()
    }

    /** The contract fields agree with each other: a bidder exists exactly when a value was
        bid, and a surcoinche has closed the auction. */
    ghost predicate Shaped()
      reads this
    {
      0 <= startingPlayerIndex < 4 && 0 <= currentPlayerIndex < 4 &&
      (bidValue.Some? ==> bidColor.Some? && biddingTeam.Some? && biddingTeam.value < 2 &&
                          challengerTeam == Some(1 - biddingTeam.value) && bidderIndex.Some?) &&
      (bidderIndex.Some? ==> bidderIndex.value < 4 && bidValue.Some?) &&
      (isBiddingClosed ==> bidderIndex.Some?) && (!isSurcoinched || isBiddingClosed) &&
      pliWinnersMemory == []
    }

    /** Right after an accepted action: the ledger agrees with the bid fields, which agree with
        each other. */
    ghost predicate Pending()
      reads this
    {
      Ledgered() && Shaped()
    }

    /** During the auction: as right after an action, and still open. */
    ghost predicate Auction()
      reads this
    {
      Pending() && !isSurcoinched && !isBiddingClosed
    }

    /** During the tricks: the contract, one winner per finished trick, each team's points are
        the points of its pile, and every seat holds eight cards less one per finished trick and
        one more if it already played to the current trick. */
    ghost predicate Trick()
      requires Sized()
      reads this, pli, piles, teams, players
    {
      Contract() && pliCounter <= 8 && |pli.cards| <= 4 && pliLeader < 4 &&
      currentPlayerIndex == (pliLeader + |pli.cards|) % 4 &&
      |pliWinnersMemory| == pliCounter &&
      Scored(bidColor.value) && HandsFit(pliCounter, pliLeader, |pli.cards|)
    }

    /** Each team's round points are the points of the cards in its pile. */
    ghost predicate Scored(trump: Suit)
      requires Sized()
      reads piles, teams
    {
      teams[0].points == PointsOf(piles[0].cards, trump) && teams[1].points == PointsOf(piles[1].cards, trump)
    }

    /** Every seat holds eight cards less one per finished trick, and one less again when it
        has played to the current trick of n cards led by seat `leader`. */
    ghost predicate HandsFit(done: nat, leader: nat, n: nat)
      requires Sized()
      reads players
    {
      Fits(Hands(), done, leader, n)
    }

    ghost predicate Valid()
      reads this, deck, pli, piles, teams, players
    {
      Wired() && PlayersValid() && Conserved() &&
      0 <= startingPlayerIndex < 4 && 0 <= currentPlayerIndex < 4 &&
      match state
      case BiddingReady => Dealt()
      case Bidding => Dealt() && Auction()
      case PlayingReady => Dealt() && Contract() && pliWinnersMemory == []
      case Playing => Trick() && |pli.cards| < 4 && pliCounter < 8
      case BetweenRounds => Cleared()
      case Ended => Cleared()
    }

    /** A new game: two teams, four seats (seat i in team i mod 2), a fresh deck put in the
        given shuffled order, dealt with the given method. */
    constructor (playerNames: seq<string>, teamNames: seq<string>, isHuman: seq<bool>, targetScore: int,
                 order: seq<Card>, dealMethod: int)
      requires |playerNames| == 4 && |teamNames| == 2 && |isHuman| == 4
      requires |order| == 32 && OnceEach(multiset(order))
      requires 1 <= dealMethod <= 3
      ensures Valid() && state == BiddingReady && startingPlayerIndex == 0
      ensures this.targetScore == targetScore
      ensures forall i :: 0 <= i < 4 ==> players[i].name == playerNames[i] && players[i].isHuman == isHuman[i]
      ensures TeamNames() == teamNames && teams[0].score == 0 && teams[1].score == 0
      ensures forall p :: 0 <= p < 4 ==> HoldsDealt(players[p].hand, Received(order, dealMethod, p, 3))
    {
      var ts, ps, d, ss, tr := NewTable(playerNames, teamNames, isHuman, order);
      teams := ts;
      players := ps;
      this.targetScore := targetScore;
      deck := d;
      piles := ss;
      pli := tr;
      startingPlayerIndex := 0;
      currentPlayerIndex := 0;
      state := BiddingReady;
      isBiddingClosed := false;
      bidValue := None;
      bidColor := None;
      biddingTeam := None;
      challengerTeam := None;
      isCoinched := false;
      isSurcoinched := false;
      bidderIndex := None;
      bidMemory := [];
      belottePoints := 0;
      pliWinnersMemory := [];
      pliCounter := 0;
      playMemory := [];
      pliLeader := 0;
      allCards := multiset(order);
      new;
      FirstDeal(dealMethod);
    }

    /** With empty hands and an empty table, every card of the game is in the deck. */
    lemma OnlyDeck()
      requires Sized() && pli.cards == [] && piles[0].cards == [] && piles[1].cards == []
      requires forall p :: 0 <= p < 4 ==> players[p].Emptied()
      ensures Bag() == multiset(deck.cards)
    {
      NoCardsIffEmpty(EmptyHand());
      EmptyFrom(1);
    }

    /** With an empty deck, no trick on the table and every hand empty, the cards of the
        game are those of the two piles. */
    lemma OnlyPiles()
      requires Sized() && deck.cards == [] && pli.cards == []
      requires forall p :: 0 <= p < 4 ==> |players[p].hand| == 8 && AllEmpty(players[p].hand)
      ensures Bag() == multiset(piles[0].cards) + multiset(piles[1].cards)
      ensures forall p :: 0 <= p < 4 ==> players[p].hand == EmptyHand()
    {
      forall p | 0 <= p < 4 ensures players[p].hand == EmptyHand() && HandCards(players[p].hand) == [] {
        NoCardsIffEmpty(players[p].hand);
      }
      EmptyFrom(4);
      assert BagFrom(2) == multiset(piles[0].cards) + multiset(piles[1].cards) + BagFrom(4);
      assert BagFrom(0) == BagFrom(2);
    }

    /** Right after a deal, with the auction not yet open, the game is in a valid state. */
    lemma DealtIsValid()
      requires Table() && state == BiddingReady
      requires 0 <= startingPlayerIndex < 4 && 0 <= currentPlayerIndex < 4
      ensures Valid()
    {
    }

    /** A valid game between rounds, part by part. */
    lemma RoundOverParts()
      requires Valid() && state == GameState.BetweenRounds
      ensures Collected() && 0 <= startingPlayerIndex < 4 && 0 <= currentPlayerIndex < 4
    {
    }

    /** The deal that ends the set-up: a full deck, empty hands, an empty table. */
    method FirstDeal(dealMethod: int)
      requires SetUp() && 1 <= dealMethod <= 3 && state == BiddingReady
      requires 0 <= startingPlayerIndex < 4 && 0 <= currentPlayerIndex < 4
      modifies deck, players
      ensures Valid() && teams[0].score == old(teams[0].score) && teams[1].score == old(teams[1].score)
      ensures forall p :: 0 <= p < 4 ==> HoldsDealt(players[p].hand, Received(old(deck.cards), dealMethod, p, 3))
    {
      OnlyDeck();
      Deal(dealMethod);
    }

    /** The next n cards leave the deck. */
    method TakeFromDeck(n: nat) returns (got: seq<Card>)
      requires Wired() && n <= |deck.cards|
      modifies deck
      ensures got == old(deck.cards)[..n] && deck.cards == old(deck.cards)[n..]
      ensures Bag() + multiset(got) == old(Bag())
    {
      ghost var s := Snapshot();
      BagIsSum(0, s);
      var dealt := deck.Deal(n);
      got := dealt.value;
      assert old(deck.cards) == got + deck.cards;
      forall m | 1 <= m < 8 ensures multiset(PlaceAt(m)) == s[m] {
        assert PlaceObject(m) != deck;
      }
      BagAfterLoss(0, multiset(got), s);
    }

    /** Seat p puts the cards into the free slots of its hand (Player.add_cards). */
    method PlaceCards(p: nat, cards: seq<Card>)
      requires Wired() && p < 4 && players[p].Valid() && |cards| <= players[p].topHandIndex + 1
      modifies players[p]
      ensures players[p].hand == Placed(old(players[p].hand), old(players[p].topHandIndex), cards)
      ensures players[p].topHandIndex == old(players[p].topHandIndex) - |cards| && players[p].Valid()
      ensures |HandCards(players[p].hand)| == old(|HandCards(players[p].hand)|) + |cards|
      ensures Bag() == old(Bag()) + multiset(cards)
    {
      var player := players[p];
      ghost var h, t := player.hand, player.topHandIndex;
      ghost var s := Snapshot();
      BagIsSum(0, s);
      player.AddCards(cards);
      PlacedKeepsShape(h, t, cards);
      PlacedAddsCards(h, t, cards);
      forall m | 0 <= m < 8 && m != 4 + p ensures multiset(PlaceAt(m)) == s[m] {
        assert PlaceObject(m) != player;
      }
      BagAfterGain(4 + p, multiset(cards), s);
    }

    /** Seat p, dealt `got` so far, is dealt the cards. */
    method GiveTo(p: nat, cards: seq<Card>, ghost got: seq<Card>)
      requires Wired() && p < 4 && players[p].Valid()
      requires HoldsDealt(players[p].hand, got) && players[p].topHandIndex == 7 - |got| && |got| + |cards| <= 8
      modifies players[p]
      ensures HoldsDealt(players[p].hand, got + cards)
      ensures players[p].topHandIndex == old(players[p].topHandIndex) - |cards| && players[p].Valid()
      ensures Bag() == old(Bag()) + multiset(cards)
    {
      PlacedDealt(players[p].hand, got, cards);
      PlaceCards(p, cards);
    }

    /** Seat p takes the next n cards from the deck, on top of the cards `got` it was dealt so far. */
    method DealTo(p: nat, n: nat, ghost got: seq<Card>)
      requires Wired() && p < 4 && players[p].Valid() && n <= |deck.cards|
      requires HoldsDealt(players[p].hand, got) && players[p].topHandIndex == 7 - |got| && |got| + n <= 8
      modifies deck, players[p]
      ensures deck.cards == old(deck.cards)[n..] && Bag() == old(Bag())
      ensures HoldsDealt(players[p].hand, got + old(deck.cards)[..n])
      ensures players[p].topHandIndex == old(players[p].topHandIndex) - n && players[p].Valid()
    {
      var cards := TakeFromDeck(n);
      GiveTo(p, cards, got);
    }

    /** Seats before p have each taken their block of n cards from d on top of what they
        had been dealt (gots), seats from p on are as they were, and the deck holds the rest. */
    ghost predicate Served(p: nat, n: nat, d: seq<Card>, gots: seq<seq<Card>>, t0: seq<int>)
      requires Sized() && p <= 4 && |gots| == 4 && |t0| == 4
      reads deck, players
    {
      deck.cards == Rest(d, p, n) && |deck.cards| >= (4 - p) * n &&
      (forall q :: 0 <= q < p ==>
        players[q].topHandIndex == t0[q] - n &&
        HoldsDealt(players[q].hand, gots[q] + Chunk(d, q, n))) &&
      (forall q :: p <= q < 4 ==>
        players[q].topHandIndex == t0[q] &&
        HoldsDealt(players[q].hand, gots[q]))
    }

    /** Seat p takes its block: the pass moves on by one seat. */
    method ServeSeat(p: nat, n: nat, ghost d: seq<Card>, ghost gots: seq<seq<Card>>, ghost t0: seq<int>)
      requires Wired() && PlayersValid() && p < 4 && |gots| == 4 && |t0| == 4
      requires forall q :: 0 <= q < 4 ==> t0[q] == 7 - |gots[q]| && |gots[q]| + n <= 8
      requires Served(p, n, d, gots, t0)
      modifies deck, players[p]
      ensures PlayersValid() && Bag() == old(Bag()) && Served(p + 1, n, d, gots, t0)
    {
      SeatsLeft(p, n);
      DealTo(p, n, gots[p]);
    }

    /** One pass around the table: each seat in turn takes the next n cards from the deck,
        on top of the cards `gots` it was dealt so far. */
    method DealRound(n: nat, ghost gots: seq<seq<Card>>)
      requires Wired() && PlayersValid() && |deck.cards| >= 4 * n && |gots| == 4
      requires forall p :: 0 <= p < 4 ==>
        HoldsDealt(players[p].hand, gots[p]) && players[p].topHandIndex == 7 - |gots[p]| && |gots[p]| + n <= 8
      modifies deck, players
      ensures PlayersValid() && Bag() == old(Bag())
      ensures deck.cards == old(deck.cards)[4 * n..]
      ensures forall p :: 0 <= p < 4 ==>
        players[p].topHandIndex == old(players[p].topHandIndex) - n &&
        HoldsDealt(players[p].hand, gots[p] + Chunk(old(deck.cards), p, n))
    {
      ghost var d := deck.cards;
      ghost var t0 := seq(4, q requires 0 <= q < 4 reads players => players[q].topHandIndex);
      for p := 0 to 4
        invariant PlayersValid() && Bag() == old(Bag()) && Served(p, n, d, gots, t0)
      {
        ServeSeat(p, n, d, gots, t0);
      }
      ChunkIsSlice(d, 0, n);
    }

    /** Pass `step` of the deal: two cards per seat in the pass `m` names, three otherwise. */
    method DealPass(step: nat, m: int, ghost d0: seq<Card>)
      requires Wired() && PlayersValid() && 1 <= m <= 3 && step < 3 && |d0| == 32
      requires deck.cards == d0[4 * Sent(m, step)..]
      requires forall p :: 0 <= p < 4 ==> HoldsDealt(players[p].hand, Received(d0, m, p, step))
      requires forall p :: 0 <= p < 4 ==> players[p].topHandIndex == 7 - Sent(m, step)
      modifies deck, players
      ensures PlayersValid() && Bag() == old(Bag())
      ensures deck.cards == d0[4 * Sent(m, step + 1)..]
      ensures forall p :: 0 <= p < 4 ==> HoldsDealt(players[p].hand, Received(d0, m, p, step + 1))
      ensures forall p :: 0 <= p < 4 ==> players[p].topHandIndex == 7 - Sent(m, step + 1)
    {
      var n := if m == step + 1 then 2 else 3;
      ghost var gots := seq(4, p requires 0 <= p < 4 => Received(d0, m, p, step));
      ReceivedNext(d0, m, step, deck.cards, n, gots);
      DropDrop(d0, deck.cards, 4 * Sent(m, step), 4 * n, 4 * Sent(m, step + 1));
      DealRound(n, gots);
    }

    /** The full deal: three passes, the one numbered `dealMethod` giving two cards and the
        other two three, so that every seat ends with eight cards. */
    method Deal(dealMethod: int)
      requires Wired() && PlayersValid() && 1 <= dealMethod <= 3 && |deck.cards| == 32
      requires forall p :: 0 <= p < 4 ==> players[p].Emptied()
      modifies deck, players
      ensures PlayersValid() && Bag() == old(Bag()) && deck.cards == []
      ensures forall p :: 0 <= p < 4 ==>
        HoldsDealt(players[p].hand, Received(old(deck.cards), dealMethod, p, 3)) &&
        |HandCards(players[p].hand)| == 8 && players[p].topHandIndex == -1
    {
      ghost var d0 := deck.cards;
      for step := 0 to 3
        invariant PlayersValid() && Bag() == old(Bag())
        invariant deck.cards == d0[4 * Sent(dealMethod, step)..]
        invariant forall p :: 0 <= p < 4 ==> HoldsDealt(players[p].hand, Received(d0, dealMethod, p, step))
        invariant forall p :: 0 <= p < 4 ==> players[p].topHandIndex == 7 - Sent(dealMethod, step)
      {
        DealPass(step, dealMethod, d0);
      }
      forall p | 0 <= p < 4 ensures |HandCards(players[p].hand)| == 8 {
        ReceivedLength(d0, dealMethod, p, 3);
        DealtCount(players[p].hand, Received(d0, dealMethod, p, 3));
      }
    }

    /** The auction fields as start_bidding sets them. */
    method ResetAuction()
      modifies this`isBiddingClosed, this`bidValue, this`bidColor, this`biddingTeam, this`isCoinched,
               this`isSurcoinched, this`bidderIndex, this`pliWinnersMemory, this`currentPlayerIndex,
               this`bidMemory, this`state
      ensures !isBiddingClosed && bidValue.None? && bidColor.None? && biddingTeam.None?
      ensures !isCoinched && !isSurcoinched && bidderIndex.None? && pliWinnersMemory == []
      ensures currentPlayerIndex == startingPlayerIndex && bidMemory == [] && state == Bidding
    {
      isBiddingClosed := false;
      bidValue := None;
      bidColor := None;
      biddingTeam := None;
      isCoinched := false;
      isSurcoinched := false;
      bidderIndex := None;
      pliWinnersMemory := [];
      currentPlayerIndex := startingPlayerIndex;
      bidMemory := [];
      state := Bidding;
    }

    /** Open the auction: clear the contract and the ledger, the starting seat speaks first. */
    method StartBidding()
      requires Valid() && state == BiddingReady
      modifies this
      ensures Valid() && state == Bidding
      ensures bidMemory == [] && currentPlayerIndex == startingPlayerIndex
      ensures bidValue.None? && bidColor.None? && biddingTeam.None? && bidderIndex.None?
      ensures !isCoinched && !isSurcoinched && !isBiddingClosed && pliWinnersMemory == []
      ensures startingPlayerIndex == old(startingPlayerIndex)
    {
      ResetAuction();
    }

    /** The trick fields as start_playing sets them: seat `lead` opens the first trick. */
    method OpenTricks(lead: nat)
      modifies this`currentPlayerIndex, this`pliCounter, this`playMemory, this`state, this`pliLeader
      ensures currentPlayerIndex == lead && pliCounter == 0 && playMemory == [] && state == Playing
      ensures pliLeader == lead
    {
      currentPlayerIndex := lead;
      pliCounter := 0;
      playMemory := [];
      state := Playing;
      pliLeader := lead;
    }

    /** Open the tricks: the starting seat leads the first one. */
    method StartPlaying()
      requires Valid() && state == PlayingReady
      modifies this
      ensures Valid() && state == Playing
      ensures currentPlayerIndex == startingPlayerIndex && pliCounter == 0 && playMemory == []
      ensures bidValue == old(bidValue) && bidColor == old(bidColor) && biddingTeam == old(biddingTeam)
      ensures bidderIndex == old(bidderIndex) && belottePoints == old(belottePoints)
    {
      OpenTricks(startingPlayerIndex);
    }

    /** The next round opens: the starting seat moves on, no trick is won yet and the next
        auction is ready. */
    method NextRound()
      requires 0 <= startingPlayerIndex < 4
      modifies this`startingPlayerIndex, this`pliWinnersMemory, this`state
      ensures startingPlayerIndex == Next(old(startingPlayerIndex))
      ensures pliWinnersMemory == [] && state == BiddingReady
    {
      pliWinnersMemory := [];
      startingPlayerIndex := Next(startingPlayerIndex);
      state := BiddingReady;
    }

    /** The round is over: the starting seat moves on, the two piles are gathered into the
        deck, which is cut at cutPos and dealt with the given method, and the next auction
        is ready to open. */
    method BetweenRounds(cutPos: nat, dealMethod: int)
      requires Valid() && state == GameState.BetweenRounds
      requires 1 <= cutPos <= 31 && 1 <= dealMethod <= 3
      modifies this, deck, piles, players
      ensures Valid() && state == BiddingReady
      ensures startingPlayerIndex == Next(old(startingPlayerIndex))
      ensures pliWinnersMemory == []
      ensures |old(piles[0].cards) + old(piles[1].cards)| == 32
      ensures forall p :: 0 <= p < 4 ==>
        HoldsDealt(players[p].hand, Received(Rotated(old(piles[0].cards) + old(piles[1].cards), cutPos), dealMethod, p, 3))
    {
      RoundOverParts();
      NextRound();
      Redeal(cutPos, dealMethod);
      DealtIsValid();
    }

    /** Gather the piles into the deck, cut it and deal it. */
    method Redeal(cutPos: nat, dealMethod: int)
      requires Collected() && 1 <= cutPos <= 31 && 1 <= dealMethod <= 3
      modifies deck, piles, players
      ensures Table()
      ensures |old(piles[0].cards) + old(piles[1].cards)| == 32
      ensures forall p :: 0 <= p < 4 ==>
        HoldsDealt(players[p].hand, Received(Rotated(old(piles[0].cards) + old(piles[1].cards), cutPos), dealMethod, p, 3))
    {
      Gather();
      deck.Cut(cutPos);
      RotatedFacts(old(piles[0].cards) + old(piles[1].cards), cutPos);
      OnlyDeck();
      Deal(dealMethod);
    }

    /** Both piles emptied back into the deck, with all hands and the trick empty. */
    method Gather()
      requires Collected()
      modifies deck, piles
      ensures PlayersValid() && Bag() == old(Bag()) && |deck.cards| == 32
      ensures deck.cards == old(piles[0].cards) + old(piles[1].cards)
      ensures piles[0].cards == [] && piles[1].cards == []
      ensures forall p :: 0 <= p < 4 ==> players[p].Emptied()
    {
      OnlyPiles();
      var c0 := piles[0].PopAll();
      var c1 := piles[1].PopAll();
      deck.Add(c0 + c1);
      OnlyDeck();
    }

    /** The ledger row of the current seat's accepted action, and the contract fields a raise,
        a surcoinche or a coinche sets: a raise makes the current seat the bidder and its team
        the bidding team, a coinche moves the bidder seat to the coinching seat. */
    method RecordAction(value: Option<int>, color: Option<Suit>, coinche: bool, surcoinche: bool)
      requires 0 <= currentPlayerIndex < 4
      modifies this`bidMemory, this`bidValue, this`bidColor, this`biddingTeam, this`challengerTeam,
               this`bidderIndex, this`isSurcoinched, this`isBiddingClosed, this`isCoinched
      ensures bidMemory == old(bidMemory) + [Record(currentPlayerIndex, value, color, coinche, surcoinche)]
      ensures Given(value) ==> bidValue == value && bidColor == color && biddingTeam == Some(currentPlayerIndex % 2) &&
                               challengerTeam == Some((currentPlayerIndex + 1) % 2)
      ensures !Given(value) ==> bidValue == old(bidValue) && bidColor == old(bidColor) &&
                                biddingTeam == old(biddingTeam) && challengerTeam == old(challengerTeam)
      ensures bidderIndex == if Given(value) || (!surcoinche && coinche) then Some(currentPlayerIndex) else old(bidderIndex)
      ensures isCoinched == (old(isCoinched) || (!Given(value) && !surcoinche && coinche))
      ensures isSurcoinched == (old(isSurcoinched) || (!Given(value) && surcoinche))
      ensures isBiddingClosed == (old(isBiddingClosed) || (!Given(value) && surcoinche))
    {
      bidMemory := bidMemory + [Record(currentPlayerIndex, value, color, coinche, surcoinche)];
      if Given(value) {
        bidValue := value;
        bidColor := color;
        biddingTeam := Some(currentPlayerIndex % 2);
        challengerTeam := Some((currentPlayerIndex + 1) % 2);
        bidderIndex := Some(currentPlayerIndex);
      } else if surcoinche {
        isSurcoinched := true;
        isBiddingClosed := true;
      } else if coinche {
        isCoinched := true;
        bidderIndex := Some(currentPlayerIndex);
      }
    }

    /** Pile t receives the cards on top of what it holds. */
    method GainPile(t: nat, cards: seq<Card>)
      requires Wired() && t < 2
      modifies piles[t]
      ensures piles[t].cards == cards + old(piles[t].cards)
      ensures Bag() == old(Bag()) + multiset(cards) && unchanged(players)
      ensures old(PlayersValid()) ==> PlayersValid()
    {
      var pile := piles[t];
      ghost var s := Snapshot();
      BagIsSum(0, s);
      pile.Add(cards);
      forall m | 0 <= m < 8 && m != 2 + t ensures multiset(PlaceAt(m)) == s[m] {
        assert PlaceObject(m) != pile;
      }
      BagAfterGain(2 + t, multiset(cards), s);
    }

    /** Seat p hands over the cards it holds and is left with an empty hand. */
    method TakeHand(p: nat) returns (held: seq<Card>)
      requires Wired() && p < 4
      modifies players[p]
      ensures held == HandCards(old(players[p].hand))
      ensures players[p].Emptied() && players[p].Valid()
      ensures Bag() + multiset(held) == old(Bag())
    {
      var seat := players[p];
      ghost var s := Snapshot();
      BagIsSum(0, s);
      held := HandCards(seat.hand);
      assert s[4 + p] == multiset(held) by {
        assert PlaceAt(4 + p) == held;
      }
      seat.hand := EmptyHand();
      seat.topHandIndex := 7;
      seat.EmptiedIsValid();
      EmptyHandHoldsNothing();
      forall m | 0 <= m < 8 && m != 4 + p ensures multiset(PlaceAt(m)) == s[m] {
        OtherPlace(m, p);
      }
      assert multiset(PlaceAt(4 + p)) + multiset(held) == s[4 + p] by {
        assert PlaceAt(4 + p) == [];
      }
      BagAfterLoss(4 + p, multiset(held), s);
    }

    /** The first p seats have handed their hands over, in seat order, as `cards`; the
        others still hold their hands of hs; the cards of the game, with `cards`, are total. */
    ghost predicate Gathering(hs: seq<seq<Option<Card>>>, p: nat, cards: seq<Card>, total: multiset<Card>)
      requires Wired() && |hs| == 4 && p <= 4
      reads deck, pli, piles, players
    {
      cards == HandsCards(hs, p) && Bag() + multiset(cards) == total &&
      (forall q :: 0 <= q < p ==> players[q].Emptied()) &&
      (forall q :: p <= q < 4 ==> players[q].hand == hs[q])
    }

    /** Seat p, the next one, hands its cards over. */
    method GatherNext(p: nat, cards: seq<Card>, ghost hs: seq<seq<Option<Card>>>, ghost total: multiset<Card>)
        returns (more: seq<Card>)
      requires Wired() && |hs| == 4 && p < 4 && Gathering(hs, p, cards, total)
      modifies players[p]
      ensures Gathering(hs, p + 1, more, total)
    {
      ghost var before := Bag();
      var held := TakeHand(p);
      MoveOut(Bag(), before, total, cards, held);
      more := cards + held;
      forall q | 0 <= q < 4 && q != p ensures players[q] != players[p] { }
    }

    /** The four hands, seat by seat, are gathered up and every hand is emptied. */
    method CollectHands() returns (cards: seq<Card>)
      requires Wired() && PlayersValid()
      modifies players
      ensures cards == HandsCards(old(Hands()), 4)
      ensures forall p :: 0 <= p < 4 ==> players[p].Emptied()
      ensures PlayersValid() && Bag() + multiset(cards) == old(Bag())
    {
      ghost var hs := Hands();
      cards := [];
      for p := 0 to 4
        invariant Gathering(hs, p, cards, old(Bag()))
      {
        cards := GatherNext(p, cards, hs, old(Bag()));
      }
      forall q | 0 <= q < 4 ensures players[q].Valid() {
        players[q].EmptiedIsValid();
      }
    }

    /** Everyone passed: the four hands, seat by seat, go onto the first team pile and every
        hand is emptied. */
    method CancelRound()
      requires Wired() && PlayersValid()
      modifies players, piles[0]
      ensures piles[0].cards == HandsCards(old(Hands()), 4) + old(piles[0].cards)
      ensures forall p :: 0 <= p < 4 ==> players[p].Emptied()
      ensures PlayersValid() && Bag() == old(Bag())
    {
      ghost var p0 := piles[0].cards;
      var cards := CollectHands();
      assert piles[0].cards == p0;
      GainPile(0, cards);
    }

    /** The auction is open and the hands are full: the game is valid in the Bidding state. */
    lemma BiddingIsValid()
      requires Table() && Auction() && state == Bidding
      ensures Valid()
    {
    }

    /** A valid game in the Bidding state, part by part. */
    lemma BiddingParts()
      requires Valid() && state == Bidding
      ensures Table() && Auction()
    {
    }

    /** The auction closed with a contract: the game is valid in the PlayingReady state. */
    lemma ContractIsValid()
      requires Table() && Contract() && state == PlayingReady && pliWinnersMemory == []
      requires 0 <= startingPlayerIndex < 4 && 0 <= currentPlayerIndex < 4
      ensures Valid()
    {
    }

    /** Every hand given back: the game is valid in the BetweenRounds state. */
    lemma VoidedIsValid()
      requires Wired() && PlayersValid() && Conserved()
      requires pli.cards == [] && teams[0].points == 0 && teams[1].points == 0
      requires forall p :: 0 <= p < 4 ==> players[p].Emptied()
      requires state == GameState.BetweenRounds && 0 <= startingPlayerIndex < 4 && 0 <= currentPlayerIndex < 4
      ensures Valid()
    {
    }

    /** The current seat's accepted action recorded and the turn passed to the next seat; the
        flags stay consistent with the contract fields. */
    method TakeAction(value: Option<int>, color: Option<Suit>, coinche: bool, surcoinche: bool)
      requires Auction()
      requires value.Some? <==> Given(value)
      requires Given(value) ==> color.Some? && !coinche && !surcoinche
      requires coinche ==> !surcoinche && MaxBid(bidMemory).Some?
      requires surcoinche ==> AnyCoinche(bidMemory)
      modifies this`bidMemory, this`bidValue, this`bidColor, this`biddingTeam, this`challengerTeam,
               this`bidderIndex, this`isSurcoinched, this`isBiddingClosed, this`isCoinched, this`currentPlayerIndex
      ensures bidMemory == old(bidMemory) + [Record(old(currentPlayerIndex), value, color, coinche, surcoinche)]
      ensures currentPlayerIndex == Next(old(currentPlayerIndex))
      ensures Given(value) ==> bidValue == value && bidColor == color && biddingTeam == Some(old(currentPlayerIndex) % 2) &&
                               challengerTeam == Some((old(currentPlayerIndex) + 1) % 2)
      ensures !Given(value) ==> bidValue == old(bidValue) && bidColor == old(bidColor) &&
                                biddingTeam == old(biddingTeam) && challengerTeam == old(challengerTeam)
      ensures bidderIndex == if Given(value) || coinche then Some(old(currentPlayerIndex)) else old(bidderIndex)
      ensures isCoinched == (old(isCoinched) || coinche)
      ensures isSurcoinched == surcoinche && isBiddingClosed == surcoinche
      ensures Shaped()
    {
      RecordAction(value, color, coinche, surcoinche);
      currentPlayerIndex := Next(currentPlayerIndex);
    }

    /** Nobody bid: the auction is closed, every hand goes onto the first pile and the round is
        over. */
    method VoidRound()
      requires Table() && 0 <= startingPlayerIndex < 4 && 0 <= currentPlayerIndex < 4
      modifies this`isBiddingClosed, this`state, piles[0], players
      ensures Valid() && state == GameState.BetweenRounds && isBiddingClosed
      ensures piles[0].cards == HandsCards(old(Hands()), 4) + old(piles[0].cards)
      ensures forall p :: 0 <= p < 4 ==> players[p].Emptied()
    {
      isBiddingClosed := true;
      CancelRound();
      state := GameState.BetweenRounds;
      VoidedIsValid();
    }

    /** The turn reached the bidder seat, or a surcoinche closed the auction: the belote bonus
        is computed and the tricks are ready to start. Otherwise the auction goes on. */
    method CloseIfDone()
      requires Table() && state == Bidding && Pending()
      modifies this`isBiddingClosed, this`belottePoints, this`state
      ensures Valid()
      ensures state == PlayingReady <==> old(isBiddingClosed) || (bidderIndex.Some? && currentPlayerIndex == bidderIndex.value)
      ensures state == PlayingReady ==>
        belottePoints == BelotePoints(Hands(), TeamNames(), biddingTeam.value, bidColor.value, 0)
      ensures state != PlayingReady ==> state == Bidding
    {
      if isBiddingClosed || (bidderIndex.Some? && currentPlayerIndex == bidderIndex.value) {
        Close();
      } else {
        BiddingIsValid();
      }
    }

    /** The auction is closed: the belote bonus of the bidding team is computed and the tricks
        are ready to start. */
    method Close()
      requires Table() && state == Bidding && Pending() && bidderIndex.Some?
      modifies this`isBiddingClosed, this`belottePoints, this`state
      ensures Valid() && state == PlayingReady && isBiddingClosed
      ensures belottePoints == BelotePoints(Hands(), TeamNames(), biddingTeam.value, bidColor.value, 0)
    {
      isBiddingClosed := true;
      belottePoints := BelotePoints(Hands(), TeamNames(), biddingTeam.value, bidColor.value, 0);
      state := PlayingReady;
      ContractIsValid();
    }

    /** The ledger side of an accepted action: it is recorded, the turn moves on, and the
        ledger still agrees with the bid fields. */
    method Advance(value: Option<int>, color: Option<Suit>, coinche: bool, surcoinche: bool)
      requires Auction()
      requires BidAccepted(bidMemory, value, color, coinche, surcoinche)
      modifies this`bidMemory, this`bidValue, this`bidColor, this`biddingTeam, this`challengerTeam,
               this`bidderIndex, this`isSurcoinched, this`isBiddingClosed, this`isCoinched, this`currentPlayerIndex
      ensures bidMemory == old(bidMemory) + [Record(old(currentPlayerIndex), value, color, coinche, surcoinche)]
      ensures currentPlayerIndex == Next(old(currentPlayerIndex))
      ensures Given(value) ==> bidValue == value && bidColor == color && biddingTeam == Some(old(currentPlayerIndex) % 2) &&
                               challengerTeam == Some((old(currentPlayerIndex) + 1) % 2)
      ensures !Given(value) ==> bidValue == old(bidValue) && bidColor == old(bidColor) &&
                                biddingTeam == old(biddingTeam) && challengerTeam == old(challengerTeam)
      ensures bidderIndex == if Given(value) || coinche then Some(old(currentPlayerIndex)) else old(bidderIndex)
      ensures isCoinched == (old(isCoinched) || coinche)
      ensures isSurcoinched == surcoinche && isBiddingClosed == surcoinche
      ensures Pending()
    {
      AcceptedShape(bidMemory, value, color, coinche, surcoinche);
      TakeAction(value, color, coinche, surcoinche);
      AcceptedStep(old(bidMemory), bidMemory, old(currentPlayerIndex), value, color, coinche, surcoinche);
    }

    /** After an accepted action: the round is voided when nobody bid and the turn is back at
        the starting seat; otherwise the auction closes when it was closed by a surcoinche or
        the turn reaches the bidder seat, and goes on if not. */
    method Conclude()
      requires Table() && state == Bidding && Pending()
      modifies this`isBiddingClosed, this`belottePoints, this`state, piles[0], players
      ensures bidMemory == old(bidMemory) && currentPlayerIndex == old(currentPlayerIndex) &&
              startingPlayerIndex == old(startingPlayerIndex)
      ensures bidValue == old(bidValue) && bidColor == old(bidColor) && biddingTeam == old(biddingTeam) &&
              challengerTeam == old(challengerTeam) && bidderIndex == old(bidderIndex) &&
              isCoinched == old(isCoinched) && isSurcoinched == old(isSurcoinched)
      ensures Valid()
      ensures state == GameState.BetweenRounds <==> bidderIndex.None? && currentPlayerIndex == startingPlayerIndex
      ensures state == PlayingReady <==>
        bidderIndex.Some? && (old(isBiddingClosed) || currentPlayerIndex == bidderIndex.value)
      ensures state == GameState.BetweenRounds ==>
        piles[0].cards == HandsCards(old(Hands()), 4) + old(piles[0].cards) &&
        forall p :: 0 <= p < 4 ==> players[p].Emptied()
      ensures state != GameState.BetweenRounds ==> Hands() == old(Hands())
      ensures state == PlayingReady ==>
        belottePoints == BelotePoints(Hands(), TeamNames(), biddingTeam.value, bidColor.value, 0)
    {
      if bidderIndex.None? && currentPlayerIndex == startingPlayerIndex {
        VoidRound();
      } else {
        CloseIfDone();
      }
    }

    /** An accepted auction action: it is appended to the ledger, the contract fields follow it,
        the turn passes to the next seat and the round is voided, closed or goes on. */
    method Act(value: Option<int>, color: Option<Suit>, coinche: bool, surcoinche: bool)
      requires Table() && Auction() && state == Bidding
      requires BidAccepted(bidMemory, value, color, coinche, surcoinche)
      modifies this, piles[0], players
      ensures Valid() && startingPlayerIndex == old(startingPlayerIndex)
      ensures bidMemory == old(bidMemory) + [Record(old(currentPlayerIndex), value, color, coinche, surcoinche)]
      ensures currentPlayerIndex == Next(old(currentPlayerIndex))
      ensures Given(value) ==>
        bidValue == value && bidColor == color && biddingTeam == Some(old(currentPlayerIndex) % 2) &&
        challengerTeam == Some((old(currentPlayerIndex) + 1) % 2)
      ensures !Given(value) ==> bidValue == old(bidValue) && bidColor == old(bidColor) && biddingTeam == old(biddingTeam)
      ensures bidderIndex == if Given(value) || coinche then Some(old(currentPlayerIndex)) else old(bidderIndex)
      ensures isCoinched == (old(isCoinched) || coinche) && isSurcoinched == surcoinche
      ensures state == GameState.BetweenRounds <==> bidderIndex.None? && currentPlayerIndex == startingPlayerIndex
      ensures state == PlayingReady <==> bidderIndex.Some? && (surcoinche || currentPlayerIndex == bidderIndex.value)
      ensures state == GameState.BetweenRounds ==>
        piles[0].cards == HandsCards(old(Hands()), 4) + old(piles[0].cards) &&
        forall p :: 0 <= p < 4 ==> players[p].Emptied()
      ensures state != GameState.BetweenRounds ==> Hands() == old(Hands())
      ensures state == PlayingReady ==>
        belottePoints == BelotePoints(Hands(), TeamNames(), biddingTeam.value, bidColor.value, 0)
    {
      Advance(value, color, coinche, surcoinche);
      Conclude();
    }

    /** One auction action by the seat whose turn it is. A rejected action changes nothing. An
        accepted one is appended to the ledger and the turn passes to the next seat; the round is
        then voided (every hand onto the first pile) when the turn is back at the starting seat
        with no bidder, and the auction closes, with the belote bonus computed, when the turn
        reaches the bidder seat or on a surcoinche. */
    method Bid(value: Option<int>, color: Option<Suit>, coinche: bool, surcoinche: bool) returns (accepted: bool)
      requires Valid() && state == Bidding
      modifies this, piles[0], players
      ensures Valid() && startingPlayerIndex == old(startingPlayerIndex)
      ensures accepted == BidAccepted(old(bidMemory), value, color, coinche, surcoinche)
      ensures !accepted ==> unchanged(this, piles[0]) && unchanged(players[0], players[1], players[2], players[3])
      ensures accepted ==> bidMemory == old(bidMemory) + [Record(old(currentPlayerIndex), value, color, coinche, surcoinche)]
      ensures accepted ==> currentPlayerIndex == Next(old(currentPlayerIndex))
      ensures accepted && Given(value) ==>
        bidValue == value && bidColor == color && biddingTeam == Some(old(currentPlayerIndex) % 2) &&
        challengerTeam == Some((old(currentPlayerIndex) + 1) % 2)
      ensures !Given(value) ==> bidValue == old(bidValue) && bidColor == old(bidColor) && biddingTeam == old(biddingTeam)
      ensures accepted ==> bidderIndex == if Given(value) || coinche then Some(old(currentPlayerIndex)) else old(bidderIndex)
      ensures accepted ==> isCoinched == (old(isCoinched) || coinche) && isSurcoinched == surcoinche
      ensures accepted ==>
        (state == GameState.BetweenRounds <==> bidderIndex.None? && currentPlayerIndex == startingPlayerIndex)
      ensures accepted ==>
        (state == PlayingReady <==> bidderIndex.Some? && (surcoinche || currentPlayerIndex == bidderIndex.value))
      ensures state == GameState.BetweenRounds ==>
        piles[0].cards == HandsCards(old(Hands()), 4) + old(piles[0].cards) &&
        forall p :: 0 <= p < 4 ==> players[p].Emptied()
      ensures state != GameState.BetweenRounds ==> Hands() == old(Hands())
      ensures state == PlayingReady ==>
        belottePoints == BelotePoints(Hands(), TeamNames(), biddingTeam.value, bidColor.value, 0)
    {
      accepted := BidAccepted(bidMemory, value, color, coinche, surcoinche);
      if accepted {
        BiddingParts();
        Act(value, color, coinche, surcoinche);
      }
    }

    /** Seat p takes the card out of the slot list index i refers to (Player.play_card): the
        cards of the game are short of exactly that card. */
    method DrawCard(p: nat, i: int) returns (card: Card)
      requires Wired() && p < 4 && -8 <= i < 8 && players[p].Valid() && players[p].hand[Slot(i)].Some?
      modifies players[p]
      ensures card == old(players[p].hand[Slot(i)].value)
      ensures players[p].hand == old(players[p].hand)[Slot(i) := None] && players[p].Valid()
      ensures Bag() + multiset{card} == old(Bag())
    {
      var seat := players[p];
      ghost var s := Snapshot();
      ghost var total := Bag();
      assert total == SumFrom(s, 0) by {
        BagIsSum(0, s);
      }
      ghost var h := seat.hand;
      var got := seat.PlayCard(i);
      card := got.value;
      EmptySlot(h, Slot(i), card);
      assert Bag() + multiset{card} == total by {
        forall m | 0 <= m < 8 && m != 4 + p ensures multiset(PlaceAt(m)) == s[m] {
          OtherPlace(m, p);
        }
        BagAfterLoss(4 + p, multiset{card}, s);
      }
    }

    /** The card goes on top of the trick (Pile.add): the cards of the game are up by it. */
    method GainTrick(card: Card)
      requires Wired()
      modifies pli
      ensures pli.cards == [card] + old(pli.cards) && Bag() == old(Bag()) + multiset{card}
    {
      ghost var s := Snapshot();
      BagIsSum(0, s);
      pli.Add([card]);
      forall m | 0 <= m < 8 && m != 1 ensures multiset(PlaceAt(m)) == s[m] {
        assert PlaceObject(m) != pli;
      }
      BagAfterGain(1, multiset{card}, s);
    }

    /** The trick is emptied (Pile.pop_all): the cards of the game are short of exactly its
        cards. */
    method TakePli() returns (cards: seq<Card>)
      requires Wired()
      modifies pli
      ensures cards == old(pli.cards) && pli.cards == [] && Bag() + multiset(cards) == old(Bag())
    {
      ghost var s := Snapshot();
      BagIsSum(0, s);
      cards := pli.PopAll();
      forall m | 0 <= m < 8 && m != 1 ensures multiset(PlaceAt(m)) == s[m] {
        assert PlaceObject(m) != pli;
      }
      BagAfterLoss(1, multiset(cards), s);
    }

    /** The current seat plays the card of the slot list index i refers to: it leaves the
        hand and goes on top of the trick. */
    method LayCard(i: int) returns (card: Card)
      requires Wired() && PlayersValid() && 0 <= currentPlayerIndex < 4 && -8 <= i < 8
      requires players[currentPlayerIndex].hand[Slot(i)].Some?
      modifies players[currentPlayerIndex], pli
      ensures card == old(players[currentPlayerIndex].hand[Slot(i)].value)
      ensures players[currentPlayerIndex].hand == old(players[currentPlayerIndex].hand)[Slot(i) := None]
      ensures pli.cards == [card] + old(pli.cards)
      ensures PlayersValid() && Bag() == old(Bag())
    {
      card := DrawCard(currentPlayerIndex, i);
      GainTrick(card);
      forall q | 0 <= q < 4 ensures players[q].Valid() {
        if q != currentPlayerIndex {
          assert players[q] != players[currentPlayerIndex];
        }
      }
    }

    /** The card joins the play memory and the turn passes to the next seat. */
    method RecordPlay(card: Card)
      requires 0 <= currentPlayerIndex < 4
      modifies this`playMemory, this`currentPlayerIndex
      ensures playMemory == old(playMemory) + [PlayRecord(old(currentPlayerIndex), card)]
      ensures currentPlayerIndex == Next(old(currentPlayerIndex))
    {
      playMemory := playMemory + [PlayRecord(currentPlayerIndex, card)];
      currentPlayerIndex := Next(currentPlayerIndex);
    }

    /** A full trick is resolved from the current seat: the winner is recorded, the winner's
        team gains the trick's points and its cards on top of its pile, and the winner
        leads next. */
    method AwardTrick() returns (info: PliInfo)
      requires Wired() && bidColor.Some? && |pli.cards| == 4 && 0 <= currentPlayerIndex < 4
      modifies pli, piles[0], piles[1], teams[0], teams[1],
               this`pliWinnersMemory, this`pliCounter, this`currentPlayerIndex, this`pliLeader
      ensures info == GetPliInfo(Reverse(old(pli.cards)), bidColor.value, old(currentPlayerIndex))
      ensures 0 <= info.winner < 4 && info.team == info.winner % 2
      ensures pliWinnersMemory == old(pliWinnersMemory) + [info.winner]
      ensures teams[info.team].points == old(teams[info.team].points) + PointsOf(old(pli.cards), bidColor.value)
      ensures teams[1 - info.team].points == old(teams[1 - info.team].points)
      ensures teams[0].score == old(teams[0].score) && teams[1].score == old(teams[1].score)
      ensures piles[info.team].cards == old(pli.cards) + old(piles[info.team].cards)
      ensures piles[1 - info.team].cards == old(piles[1 - info.team].cards)
      ensures pli.cards == [] && pliCounter == old(pliCounter) + 1
      ensures currentPlayerIndex == info.winner && pliLeader == info.winner
      ensures Bag() == old(Bag())
    {
      info := ResolveTrick(pli.cards, bidColor.value, currentPlayerIndex);
      PliPointsOrder(pli.cards, bidColor.value, currentPlayerIndex);
      pliWinnersMemory := pliWinnersMemory + [info.winner];
      Bank(info.team, info.points);
      pliCounter := pliCounter + 1;
      currentPlayerIndex := info.winner;
      pliLeader := info.winner;
    }

    /** Team t gains the given points, and the trick goes on top of its pile. */
    method Bank(t: nat, points: nat)
      requires Wired() && t < 2
      modifies pli, piles[t], teams[t]
      ensures teams[t].points == old(teams[t].points) + points && teams[t].score == old(teams[t].score)
      ensures piles[t].cards == old(pli.cards) + old(piles[t].cards) && pli.cards == []
      ensures Bag() == old(Bag())
    {
      var team := teams[t];
      team.points := team.points + points;
      var cards := TakePli();
      GainPile(t, cards);
    }

    /** The end of the round: the contract is judged on the round's tricks; the team that
        holds it, when it is fulfilled, and the other team otherwise, scores the bid value;
        both round point counters go back to 0; the game ends when a team reached the
        target score, and otherwise waits for the next round. */
    method ScoreRound()
      requires Wired() && Contract() && state == Playing
      modifies teams[0], teams[1], this`state
      ensures var bt, ct := biddingTeam.value, challengerTeam.value;
        var won := Fulfilled(bidValue.value, pliWinnersMemory, bidderIndex.value,
                             old(teams[bt].points), old(teams[ct].points), belottePoints);
        teams[bt].score == old(teams[bt].score) + (if won then bidValue.value else 0) &&
        teams[ct].score == old(teams[ct].score) + (if won then 0 else bidValue.value)
      ensures teams[0].points == 0 && teams[1].points == 0
      ensures state == Ended <==> teams[0].score >= targetScore || teams[1].score >= targetScore
      ensures state != Ended ==> state == GameState.BetweenRounds
    {
      var bidding := teams[biddingTeam.value];
      var challenger := teams[challengerTeam.value];
      var fulfilled := Fulfilled(bidValue.value, pliWinnersMemory, bidderIndex.value,
                                 bidding.points, challenger.points, belottePoints);
      if fulfilled {
        bidding.score := bidding.score + bidValue.value;
      } else {
        challenger.score := challenger.score + bidValue.value;
      }
      ghost var s0, s1 := teams[0].score, teams[1].score;
      for t := 0 to 2
        invariant forall u :: 0 <= u < t ==> teams[u].points == 0
        invariant teams[0].score == s0 && teams[1].score == s1 && state == Playing
      {
        teams[t].points := 0;
      }
      for t := 0 to 2
        invariant teams[0].points == 0 && teams[1].points == 0
        invariant teams[0].score == s0 && teams[1].score == s1
        invariant state == Ended <==> exists u :: 0 <= u < t && teams[u].score >= targetScore
        invariant state != Ended ==> state == Playing
      {
        if teams[t].score >= targetScore {
          state := Ended;
        }
      }
      if state != Ended {
        state := GameState.BetweenRounds;
      }
    }

    /** A trick won as info says (the trick in pile order): it is off the table, its winner is
        recorded and leads, and its cards are on top of the winning team's pile. */
    ghost predicate Awarded(info: PliInfo, trick: seq<Card>, winners: seq<int>, done: nat, pile0: seq<Card>, pile1: seq<Card>)
      requires Sized()
      reads this, pli, piles
    {
      pli.cards == [] && pliWinnersMemory == winners + [info.winner] &&
      pliCounter == done + 1 && currentPlayerIndex == info.winner &&
      piles[0].cards == (if info.team == 0 then trick + pile0 else pile0) &&
      piles[1].cards == (if info.team == 1 then trick + pile1 else pile1)
    }

    /** The round was scored from the scores score0 and score1: the contract is judged on the
        cards of the two piles, the side it favours gains the bid value, and the game has ended
        exactly when a team reached the target score. */
    ghost predicate RoundScored(score0: int, score1: int)
      requires Sized()
      reads this, piles, teams
    {
      Contract() &&
      var bt, ct, trump := biddingTeam.value, challengerTeam.value, bidColor.value;
      var won := Fulfilled(bidValue.value, pliWinnersMemory, bidderIndex.value,
                           PointsOf(piles[bt].cards, trump), PointsOf(piles[ct].cards, trump), belottePoints);
      var before := [score0, score1];
      teams[bt].score == before[bt] + (if won then bidValue.value else 0) &&
      teams[ct].score == before[ct] + (if won then 0 else bidValue.value) &&
      (state == Ended <==> teams[0].score >= targetScore || teams[1].score >= targetScore) &&
      (state != Ended ==> state == GameState.BetweenRounds)
    }

    /** The current seat's card goes from its hand onto the trick and into the play memory, and
        the turn passes on; the trick bookkeeping follows. */
    method Lay(i: int) returns (card: Card)
      requires Wired() && PlayersValid() && Conserved() && Trick() && |pli.cards| < 4 && pliCounter < 8
      requires -8 <= i < 8 && players[currentPlayerIndex].hand[Slot(i)].Some?
      modifies players[currentPlayerIndex], pli, this`playMemory, this`currentPlayerIndex
      ensures card == old(players[currentPlayerIndex].hand[Slot(i)].value)
      ensures players[old(currentPlayerIndex)].hand == old(players[currentPlayerIndex].hand)[Slot(i) := None]
      ensures pli.cards == [card] + old(pli.cards)
      ensures playMemory == old(playMemory) + [PlayRecord(old(currentPlayerIndex), card)]
      ensures currentPlayerIndex == Next(old(currentPlayerIndex))
      ensures PlayersValid() && Conserved() && Trick()
    {
      ghost var n := |pli.cards|;
      card := Shift(i);
      RecordPlay(card);
      TurnAfter(pliLeader, n);
    }

    /** The current seat's card goes from its hand onto the trick; the hands fit the trick one
        card longer, and nothing else about the trick changes. */
    method Shift(i: int) returns (card: Card)
      requires Wired() && PlayersValid() && Conserved() && Trick() && |pli.cards| < 4 && pliCounter < 8
      requires -8 <= i < 8 && players[currentPlayerIndex].hand[Slot(i)].Some?
      modifies players[currentPlayerIndex], pli
      ensures card == old(players[currentPlayerIndex].hand[Slot(i)].value)
      ensures players[currentPlayerIndex].hand == old(players[currentPlayerIndex].hand)[Slot(i) := None]
      ensures pli.cards == [card] + old(pli.cards)
      ensures PlayersValid() && Conserved() && Contract() && Scored(bidColor.value)
      ensures HandsFit(pliCounter, pliLeader, |pli.cards|)
    {
      ghost var c, n, hs := currentPlayerIndex, |pli.cards|, Hands();
      card := LayCard(i);
      assert Hands() == hs[c := hs[c][Slot(i) := None]];
      FitsAfterLay(hs, c, Slot(i), pliCounter, pliLeader, n);
    }

    /** A full trick is awarded and the trick bookkeeping starts over from its winner. */
    method CompleteTrick()
      requires Wired() && PlayersValid() && Conserved() && Trick() && |pli.cards| == 4 && pliCounter < 8
      modifies pli, piles[0], piles[1], teams[0], teams[1],
               this`pliWinnersMemory, this`pliCounter, this`currentPlayerIndex, this`pliLeader
      ensures Awarded(GetPliInfo(Reverse(old(pli.cards)), bidColor.value, old(currentPlayerIndex)), old(pli.cards), old(pliWinnersMemory), old(pliCounter),
                      old(piles[0].cards), old(piles[1].cards))
      ensures teams[0].score == old(teams[0].score) && teams[1].score == old(teams[1].score)
      ensures Conserved() && Trick()
    {
      ghost var t, hs := pli.cards, Hands();
      var info := AwardTrick();
      PointsOfAppend(t, old(piles[info.team].cards), bidColor.value);
      FitsAfterTrick(hs, old(pliCounter), old(pliLeader), info.winner);
    }

    /** After the eighth trick every hand is empty, so the table is cleared once the points are
        reset. */
    lemma HandsSpent()
      requires Sized() && PlayersValid() && HandsFit(8, pliLeader, 0)
      ensures forall p :: 0 <= p < 4 ==> AllEmpty(players[p].hand) && players[p].topHandIndex == 7
    {
      forall p | 0 <= p < 4 ensures AllEmpty(players[p].hand) && players[p].topHandIndex == 7 {
        assert Hands()[p] == players[p].hand;
        NoCardsIffEmpty(players[p].hand);
        TopIsSevenIffEmpty(players[p].hand, players[p].topHandIndex);
      }
    }

    /** During the tricks, with fewer than four cards on the table and fewer than eight
        tricks finished, the game is in a valid state. */
    lemma PlayingIsValid()
      requires Wired() && PlayersValid() && Conserved() && Trick() && state == Playing
      requires |pli.cards| < 4 && pliCounter < 8 && 0 <= startingPlayerIndex < 4 && 0 <= currentPlayerIndex < 4
      ensures Valid()
    {
    }

    /** A valid game in the Playing state, part by part. */
    lemma PlayingParts()
      requires Valid() && state == Playing
      ensures Wired() && PlayersValid() && Conserved() && Trick()
      ensures |pli.cards| < 4 && pliCounter < 8 && 0 <= startingPlayerIndex < 4 && 0 <= currentPlayerIndex < 4
    {
    }

    /** With the table cleared after a round, the game is in a valid state whether it ended or
        waits for the next round. */
    lemma ClearedIsValid()
      requires Collected() && (state == GameState.BetweenRounds || state == Ended)
      requires 0 <= startingPlayerIndex < 4 && 0 <= currentPlayerIndex < 4
      ensures Valid()
    {
    }

    /** Once a round is over, the two team piles hold the whole deck between them, so together
        they are worth 152 points whatever the trump colour. */
    lemma RoundTotal(trump: Suit)
      requires Valid() && (state == GameState.BetweenRounds || state == Ended)
      ensures PointsOf(piles[0].cards, trump) + PointsOf(piles[1].cards, trump) == 152
    {
      forall p | 0 <= p < 4 ensures |players[p].hand| == 8 && AllEmpty(players[p].hand) {
        assert players[p].Valid();
      }
      OnlyPiles();
      OnceEachIsFullDeck(allCards);
      var both := piles[0].cards + piles[1].cards;
      assert multiset(both) == multiset(FullDeck());
      PointsOfPermutation(both, FullDeck(), trump);
      PointsOfAppend(piles[0].cards, piles[1].cards, trump);
      FullDeckPoints(trump);
    }

    /** After a card is laid: a full trick is awarded, and after the eighth the round is
        scored. */
    method Finish()
      requires Wired() && PlayersValid() && Conserved() && Trick() && state == Playing
      requires 0 < |pli.cards| && pliCounter < 8 && 0 <= startingPlayerIndex < 4 && 0 <= currentPlayerIndex < 4
      modifies pli, piles[0], piles[1], teams[0], teams[1],
               this`pliWinnersMemory, this`pliCounter, this`currentPlayerIndex, this`pliLeader, this`state
      ensures Valid()
      ensures |old(pli.cards)| < 4 ==>
        pli.cards == old(pli.cards) && currentPlayerIndex == old(currentPlayerIndex) && state == Playing &&
        pliWinnersMemory == old(pliWinnersMemory) && pliCounter == old(pliCounter) &&
        unchanged(piles[0], piles[1], teams[0], teams[1])
      ensures |old(pli.cards)| == 4 ==>
        Awarded(GetPliInfo(Reverse(old(pli.cards)), bidColor.value, old(currentPlayerIndex)), old(pli.cards), old(pliWinnersMemory), old(pliCounter),
                old(piles[0].cards), old(piles[1].cards))
      ensures state == Playing ==> teams[0].score == old(teams[0].score) && teams[1].score == old(teams[1].score)
      ensures state != Playing ==> pliCounter == 8 && RoundScored(old(teams[0].score), old(teams[1].score))
    {
      if |pli.cards| == 4 {
        Settle();
      } else {
        PlayingIsValid();
      }
    }

    /** A full trick is awarded, and after the eighth the round is scored. */
    method Settle()
      requires Wired() && PlayersValid() && Conserved() && Trick() && state == Playing
      requires |pli.cards| == 4 && pliCounter < 8 && 0 <= startingPlayerIndex < 4
      modifies pli, piles[0], piles[1], teams[0], teams[1],
               this`pliWinnersMemory, this`pliCounter, this`currentPlayerIndex, this`pliLeader, this`state
      ensures Valid()
      ensures Awarded(GetPliInfo(Reverse(old(pli.cards)), bidColor.value, old(currentPlayerIndex)), old(pli.cards), old(pliWinnersMemory), old(pliCounter),
                      old(piles[0].cards), old(piles[1].cards))
      ensures state == Playing ==> teams[0].score == old(teams[0].score) && teams[1].score == old(teams[1].score)
      ensures state != Playing ==> pliCounter == 8 && RoundScored(old(teams[0].score), old(teams[1].score))
    {
      CompleteTrick();
      if pliCounter == 8 {
        EndRound();
      } else {
        PlayingIsValid();
      }
    }

    /** The eighth trick is in: the round is scored and the table is cleared. */
    method EndRound()
      requires Wired() && PlayersValid() && Conserved() && Trick() && state == Playing
      requires pliCounter == 8 && pli.cards == [] && 0 <= startingPlayerIndex < 4
      modifies teams[0], teams[1], this`state
      ensures Valid() && state != Playing && RoundScored(old(teams[0].score), old(teams[1].score))
    {
      HandsSpent();
      ghost var bt := biddingTeam.value;
      assert teams[bt].points == PointsOf(piles[bt].cards, bidColor.value);
      assert teams[1 - bt].points == PointsOf(piles[1 - bt].cards, bidColor.value);
      ScoreRound();
      ClearedIsValid();
    }

    /** One card played by the seat whose turn it is, from the slot list index i refers to. A
        card that breaks the rules of play changes nothing. An accepted one leaves the hand,
        goes on top of the trick and into the play memory, and the turn passes to the next
        seat; the fourth card of a trick has the trick awarded (its winner is recorded and
        leads, its team gains its cards and points), and after the eighth trick the round is
        scored. */
    method Play(i: int) returns (accepted: bool)
      requires Valid() && state == Playing
      requires -8 <= i < 8 && players[currentPlayerIndex].hand[Slot(i)].Some?
      modifies this, pli, piles[0], piles[1], teams[0], teams[1], players[currentPlayerIndex]
      ensures Valid() && bidColor == old(bidColor) && bidValue == old(bidValue) && bidderIndex == old(bidderIndex)
      ensures accepted == CardValid(old(players[currentPlayerIndex].hand), old(players[currentPlayerIndex].hand[Slot(i)].value),
                                    old(pli.cards), bidColor.value, old(currentPlayerIndex))
      ensures !accepted ==> unchanged(this, pli, piles[0], piles[1], teams[0], teams[1]) && unchanged(players[currentPlayerIndex])
      ensures accepted ==> var c, card := old(currentPlayerIndex), old(players[currentPlayerIndex].hand[Slot(i)].value);
        players[c].hand == old(players[c].hand)[Slot(i) := None] &&
        playMemory == old(playMemory) + [PlayRecord(c, card)] &&
        (|old(pli.cards)| < 3 ==>
           pli.cards == [card] + old(pli.cards) && currentPlayerIndex == Next(c) && state == Playing &&
           pliWinnersMemory == old(pliWinnersMemory) && unchanged(piles[0], piles[1], teams[0], teams[1])) &&
        (|old(pli.cards)| == 3 ==>
           Awarded(GetPliInfo(Reverse([card] + old(pli.cards)), bidColor.value, Next(c)), [card] + old(pli.cards), old(pliWinnersMemory), old(pliCounter),
                   old(piles[0].cards), old(piles[1].cards)))
      ensures state == Playing ==> teams[0].score == old(teams[0].score) && teams[1].score == old(teams[1].score)
      ensures state != Playing ==> accepted && pliCounter == 8 && RoundScored(old(teams[0].score), old(teams[1].score))
    {
      var seat := players[currentPlayerIndex];
      accepted := CardValid(seat.hand, seat.hand[Slot(i)].value, pli.cards, bidColor.value, currentPlayerIndex);
      if accepted {
        Move(i);
      }
    }

    /** The accepted card is laid and the trick or round is completed when it is the last. */
    method Move(i: int)
      requires Valid() && state == Playing
      requires -8 <= i < 8 && players[currentPlayerIndex].hand[Slot(i)].Some?
      modifies this`playMemory, this`currentPlayerIndex, this`pliWinnersMemory, this`pliCounter,
               this`pliLeader, this`state, pli, piles[0], piles[1], teams[0], teams[1], players[currentPlayerIndex]
      ensures Valid()
      ensures var c, card := old(currentPlayerIndex), old(players[currentPlayerIndex].hand[Slot(i)].value);
        players[c].hand == old(players[c].hand)[Slot(i) := None] &&
        playMemory == old(playMemory) + [PlayRecord(c, card)] &&
        (|old(pli.cards)| < 3 ==>
           pli.cards == [card] + old(pli.cards) && currentPlayerIndex == Next(c) && state == Playing &&
           pliWinnersMemory == old(pliWinnersMemory) && unchanged(piles[0], piles[1], teams[0], teams[1])) &&
        (|old(pli.cards)| == 3 ==>
           Awarded(GetPliInfo(Reverse([card] + old(pli.cards)), bidColor.value, Next(c)), [card] + old(pli.cards), old(pliWinnersMemory), old(pliCounter),
                   old(piles[0].cards), old(piles[1].cards)))
      ensures state == Playing ==> teams[0].score == old(teams[0].score) && teams[1].score == old(teams[1].score)
      ensures state != Playing ==> pliCounter == 8 && RoundScored(old(teams[0].score), old(teams[1].score))
    {
      var card := Lay(i);
      Finish();
    }
  }
}
