/** Cards of the 32-card Coinche deck, the two point tables, and the strength
    order each table induces (a card's strength is its position in the table). */
module Cards {

  datatype Suit = Hearts | Spades | Clubs | Diamonds

  /** The card values, declared in the order of the source's Value enum. */
  datatype Rank = Seven | Eight | Nine | Jack | Queen | King | Ten | Ace

  datatype Card = Card(color: Suit, value: Rank)

  /** Value enum order and Color enum order: the order in which a fresh deck is built. */
  const Ranks: seq<Rank> := [Seven, Eight, Nine, Jack, Queen, King, Ten, Ace]
  const Suits: seq<Suit> := [Hearts, Spades, Clubs, Diamonds]

  /** Points of a card in a plain suit (the CARD_POINTS table). */
  function PlainPoints(r: Rank): nat {
    match r
    case Seven => 0
    case Eight => 0
    case Nine => 0
    case Jack => 2
    case Queen => 3
    case King => 4
    case Ten => 10
    case Ace => 11
  }

  /** Points of a card in the trump suit (the TRUMP_CARD_POINTS table). */
  function TrumpPoints(r: Rank): nat {
    match r
    case Seven => 0
    case Eight => 0
    case Queen => 3
    case King => 4
    case Ten => 10
    case Ace => 11
    case Nine => 14
    case Jack => 20
  }

  /** Position of a rank among the keys of CARD_POINTS: 7 < 8 < 9 < J < Q < K < 10 < A. */
  function PlainLevel(r: Rank): (l: nat)
    ensures l < 8
  {
    match r
    case Seven => 0
    case Eight => 1
    case Nine => 2
    case Jack => 3
    case Queen => 4
    case King => 5
    case Ten => 6
    case Ace => 7
  }

  /** Position of a rank among the keys of TRUMP_CARD_POINTS: 7 < 8 < Q < K < 10 < A < 9 < J. */
  function TrumpLevel(r: Rank): (l: nat)
    ensures l < 8
  {
    match r
    case Seven => 0
    case Eight => 1
    case Queen => 2
    case King => 3
    case Ten => 4
    case Ace => 5
    case Nine => 6
    case Jack => 7
  }

  /** The text of a Value member: "7", "8", "9", "J", "Q", "K", "10", "A". */
  function RankText(r: Rank): string {
    match r
    case Seven => "7"
    case Eight => "8"
    case Nine => "9"
    case Jack => "J"
    case Queen => "Q"
    case King => "K"
    case Ten => "10"
    case Ace => "A"
  }

  predicate IsTrump(c: Card, trump: Suit) {
    c.color == trump
  }

  /** Strength of a card: the trump table's position for a trump card, the plain one otherwise. */
  function Level(c: Card, trump: Suit): nat {
    if IsTrump(c, trump) then TrumpLevel(c.value) else PlainLevel(c.value)
  }

  /** Points of a card: the trump table for a trump card, the plain one otherwise. */
  function Points(c: Card, trump: Suit): nat {
    if IsTrump(c, trump) then TrumpPoints(c.value) else PlainPoints(c.value)
  }

  /** Total points of a sequence of cards. */
  function PointsOf(s: seq<Card>, trump: Suit): (r: nat)
    ensures r <= 20 * |s|
  {
    if s == [] then 0 else PointsOf(s[..|s| - 1], trump) + Points(s[|s| - 1], trump)
  }

  /** Both tables are listed by increasing points, so a stronger card is never worth less,
      and each table orders the eight ranks strictly (the position is a bijection onto 0..7). */
  lemma LevelsOrderPoints(a: Rank, b: Rank)
    ensures PlainLevel(a) < PlainLevel(b) ==> PlainPoints(a) <= PlainPoints(b)
    ensures TrumpLevel(a) < TrumpLevel(b) ==> TrumpPoints(a) <= TrumpPoints(b)
    ensures PlainLevel(a) == PlainLevel(b) <==> a == b
    ensures TrumpLevel(a) == TrumpLevel(b) <==> a == b
  {
  }

  /** One plain suit is worth 30 points and the trump suit 62. */
  lemma SuitTotals()
    ensures PlainPoints(Seven) + PlainPoints(Eight) + PlainPoints(Nine) + PlainPoints(Jack)
          + PlainPoints(Queen) + PlainPoints(King) + PlainPoints(Ten) + PlainPoints(Ace) == 30
    ensures TrumpPoints(Seven) + TrumpPoints(Eight) + TrumpPoints(Nine) + TrumpPoints(Jack)
          + TrumpPoints(Queen) + TrumpPoints(King) + TrumpPoints(Ten) + TrumpPoints(Ace) == 62
  {
  }

  /** The four cards of one value, in Color enum order. */
  function RankRow(r: Rank): (row: seq<Card>)
    ensures |row| == 4
    ensures forall j :: 0 <= j < 4 ==> row[j] == Card(Suits[j], r)
  {
    [Card(Hearts, r), Card(Spades, r), Card(Clubs, r), Card(Diamonds, r)]
  }

  /** The cards of the given values, value-major: all suits of the first value, then the next. */
  function DeckOf(ranks: seq<Rank>): seq<Card> {
    if ranks == [] then [] else DeckOf(ranks[..|ranks| - 1]) + RankRow(ranks[|ranks| - 1])
  }

  /** The deck a fresh Deck holds before shuffling. */
  function FullDeck(): (d: seq<Card>)
    ensures |d| == 32
  {
    DeckOfLength(Ranks);
    DeckOf(Ranks)
  }

  predicate Distinct<T(==)>(s: seq<T>) {
    forall i, j :: 0 <= i < j < |s| ==> s[i] != s[j]
  }

  /** Four cards per value. */
  lemma {:induction false} DeckOfLength(ranks: seq<Rank>)
    ensures |DeckOf(ranks)| == 4 * |ranks|
  {
    if ranks != [] {
      DeckOfLength(ranks[..|ranks| - 1]);
    }
  }

  /** Card number 4*i + j of DeckOf(ranks) is value ranks[i] in suit Suits[j]. */
  lemma {:induction false} DeckOfAt(ranks: seq<Rank>, i: nat, j: nat)
    requires i < |ranks| && j < 4
    ensures |DeckOf(ranks)| == 4 * |ranks| && DeckOf(ranks)[4 * i + j] == Card(Suits[j], ranks[i])
  {
    var n := |ranks| - 1;
    var init := ranks[..n];
    DeckOfLength(ranks);
    DeckOfLength(init);
    assert DeckOf(ranks) == DeckOf(init) + RankRow(ranks[n]);
    if i < n {
      DeckOfAt(init, i, j);
      assert init[i] == ranks[i];
      assert DeckOf(ranks)[4 * i + j] == DeckOf(init)[4 * i + j];
    } else {
      assert DeckOf(ranks)[4 * i + j] == RankRow(ranks[n])[j];
    }
  }

  /** Card k of a fresh deck is value Ranks[k / 4] in colour Suits[k % 4]. */
  lemma FullDeckAt(k: nat)
    requires k < 32
    ensures |FullDeck()| == 32 && FullDeck()[k] == Card(Suits[k % 4], Ranks[k / 4])
  {
    DeckOfAt(Ranks, k / 4, k % 4);
    assert k == 4 * (k / 4) + k % 4;
  }

  /** The position of a rank in Ranks, read back from the rank. */
  lemma RankIndexOf(i: nat)
    requires i < 8
    ensures RankIndex(Ranks[i]) == i
  {
  }

  /** The position of a colour in Suits, read back from the colour. */
  lemma SuitIndexOf(j: nat)
    requires j < 4
    ensures SuitIndex(Suits[j]) == j
  {
  }

  /** The position of a card in a fresh deck is read back from its value and colour. */
  lemma FullDeckIndex(k: nat)
    requires k < 32
    ensures |FullDeck()| == 32 && 4 * RankIndex(FullDeck()[k].value) + SuitIndex(FullDeck()[k].color) == k
  {
    FullDeckAt(k);
    RankIndexOf(k / 4);
    SuitIndexOf(k % 4);
  }

  /** A fresh deck: 32 pairwise distinct cards, every (value, colour) pair exactly once,
      in value-major order. */
  lemma FullDeckFacts()
    ensures |FullDeck()| == 32
    ensures forall i, j :: 0 <= i < 8 && 0 <= j < 4 ==> FullDeck()[4 * i + j] == Card(Suits[j], Ranks[i])
    ensures Distinct(FullDeck())
    ensures forall c: Card :: c in FullDeck()
  {
    DeckOfLength(Ranks);
    var d := FullDeck();
    forall i, j | 0 <= i < 8 && 0 <= j < 4 ensures d[4 * i + j] == Card(Suits[j], Ranks[i]) {
      DeckOfAt(Ranks, i, j);
    }
    forall k1, k2 | 0 <= k1 < k2 < 32 ensures d[k1] != d[k2] {
      FullDeckIndex(k1);
      FullDeckIndex(k2);
    }
    forall c: Card ensures c in d {
      var i, j := RankIndex(c.value), SuitIndex(c.color);
      assert d[4 * i + j] == c;
    }
  }

  /** Every card of the game exactly once: what a shuffled fresh deck holds. */
  ghost predicate OnceEach(m: multiset<Card>) {
    forall c: Card :: m[c] == 1
  }

  /** A card of a sequence without repeats occurs in it exactly once. */
  lemma {:induction false} DistinctCount(s: seq<Card>, c: Card)
    requires Distinct(s) && c in s
    ensures multiset(s)[c] == 1
  {
    assert s == [s[0]] + s[1..];
    if s[0] == c {
      assert c !in s[1..] by {
        forall k | 0 <= k < |s[1..]| ensures s[1..][k] != c {
          assert s[1..][k] == s[k + 1];
        }
      }
    } else {
      assert Distinct(s[1..]) by {
        forall i, j | 0 <= i < j < |s[1..]| ensures s[1..][i] != s[1..][j] {
          assert s[1..][i] == s[i + 1] && s[1..][j] == s[j + 1];
        }
      }
      DistinctCount(s[1..], c);
    }
  }

  /** Holding every card exactly once is being a shuffled fresh deck, and makes 32 cards. */
  lemma OnceEachIsFullDeck(m: multiset<Card>)
    ensures OnceEach(m) <==> m == multiset(FullDeck())
    ensures OnceEach(m) ==> |m| == 32
  {
    FullDeckFacts();
    forall c: Card ensures multiset(FullDeck())[c] == 1 {
      DistinctCount(FullDeck(), c);
    }
    if OnceEach(m) {
      forall c: Card ensures m[c] == multiset(FullDeck())[c] {
      }
      assert m == multiset(FullDeck());
      assert |m| == |multiset(FullDeck())| == |FullDeck()|;
    }
  }

  /** Where a value sits in Ranks. */
  function RankIndex(r: Rank): (i: nat)
    ensures i < 8 && Ranks[i] == r
  {
    match r
    case Seven => 0
    case Eight => 1
    case Nine => 2
    case Jack => 3
    case Queen => 4
    case King => 5
    case Ten => 6
    case Ace => 7
  }

  /** Where a colour sits in Suits. */
  function SuitIndex(s: Suit): (j: nat)
    ensures j < 4 && Suits[j] == s
  {
    match s
    case Hearts => 0
    case Spades => 1
    case Clubs => 2
    case Diamonds => 3
  }

  /** One more card of a prefix adds that card's points. */
  lemma PointsOfPrefixStep(s: seq<Card>, k: nat, trump: Suit)
    requires k < |s|
    ensures PointsOf(s[..k + 1], trump) == PointsOf(s[..k], trump) + Points(s[k], trump)
  {
    assert s[..k + 1][..k] == s[..k];
  }

  /** Points add up over concatenation. */
  lemma {:induction false} PointsOfAppend(a: seq<Card>, b: seq<Card>, trump: Suit)
    ensures PointsOf(a + b, trump) == PointsOf(a, trump) + PointsOf(b, trump)
  {
    if b != [] {
      var b' := b[..|b| - 1];
      assert (a + b)[..|a + b| - 1] == a + b';
      assert (a + b)[|a + b| - 1] == b[|b| - 1];
      PointsOfAppend(a, b', trump);
      assert PointsOf(a + b, trump) == PointsOf(a + b', trump) + Points(b[|b| - 1], trump);
    } else {
      assert a + b == a;
    }
  }

  /** Taking card k out of a sequence removes it from the multiset and its points from the total. */
  lemma RemoveAt(b: seq<Card>, k: nat, trump: Suit)
    requires k < |b|
    ensures multiset(b) == multiset(b[..k] + b[k + 1..]) + multiset{b[k]}
    ensures PointsOf(b, trump) == PointsOf(b[..k] + b[k + 1..], trump) + Points(b[k], trump)
  {
    assert b == b[..k] + [b[k]] + b[k + 1..];
    PointsOfAppend(b[..k], [b[k]], trump);
    PointsOfAppend(b[..k] + [b[k]], b[k + 1..], trump);
    PointsOfAppend(b[..k], b[k + 1..], trump);
    assert PointsOf([b[k]], trump) == Points(b[k], trump) by { assert [b[k]][..0] == []; }
  }

  /** Points do not depend on the order of the cards. */
  lemma {:induction false} PointsOfPermutation(a: seq<Card>, b: seq<Card>, trump: Suit)
    requires multiset(a) == multiset(b)
    ensures PointsOf(a, trump) == PointsOf(b, trump)
  {
    if a != [] {
      var x := a[|a| - 1];
      var a' := a[..|a| - 1];
      assert a == a' + [x];
      assert x in multiset(b);
      assert x in b;
      var k :| 0 <= k < |b| && b[k] == x;
      var b' := b[..k] + b[k + 1..];
      RemoveAt(b, k, trump);
      assert multiset(a) == multiset(a') + multiset{x};
      forall y ensures multiset(a')[y] == multiset(b')[y] {
        assert multiset(a)[y] == multiset(a')[y] + multiset{x}[y];
        assert multiset(b)[y] == multiset(b')[y] + multiset{x}[y];
      }
      assert multiset(a') == multiset(b');
      PointsOfPermutation(a', b', trump);
      assert PointsOf(a, trump) == PointsOf(a', trump) + Points(x, trump);
    } else {
      assert |b| == |multiset(b)| == 0;
    }
  }

  /** The four cards of a value hold three plain copies of it and one trump copy. */
  lemma RowPoints(r: Rank, trump: Suit)
    ensures PointsOf(RankRow(r), trump) == 3 * PlainPoints(r) + TrumpPoints(r)
  {
    var row := RankRow(r);
    assert PointsOf(row[..1], trump) == Points(row[0], trump) by { assert row[..1][..0] == []; }
    assert PointsOf(row[..2], trump) == PointsOf(row[..1], trump) + Points(row[1], trump) by { assert row[..2][..1] == row[..1]; }
    assert PointsOf(row[..3], trump) == PointsOf(row[..2], trump) + Points(row[2], trump) by { assert row[..3][..2] == row[..2]; }
    assert PointsOf(row, trump) == PointsOf(row[..3], trump) + Points(row[3], trump);
    match trump
    case Hearts =>
    case Spades =>
    case Clubs =>
    case Diamonds =>
  }

  /** Sum of 3 * plain + trump points over the given values. */
  function RowsPoints(ranks: seq<Rank>): nat {
    if ranks == [] then 0 else RowsPoints(ranks[..|ranks| - 1]) + 3 * PlainPoints(ranks[|ranks| - 1]) + TrumpPoints(ranks[|ranks| - 1])
  }

  lemma {:induction false} DeckOfPoints(ranks: seq<Rank>, trump: Suit)
    ensures PointsOf(DeckOf(ranks), trump) == RowsPoints(ranks)
  {
    if ranks != [] {
      var init := ranks[..|ranks| - 1];
      DeckOfPoints(init, trump);
      PointsOfAppend(DeckOf(init), RankRow(ranks[|ranks| - 1]), trump);
      RowPoints(ranks[|ranks| - 1], trump);
    }
  }

  /** The whole deck is worth 152 points whatever the trump suit: three plain suits and one trump suit. */
  lemma FullDeckPoints(trump: Suit)
    ensures PointsOf(FullDeck(), trump) == 152
  {
    DeckOfPoints(Ranks, trump);
    assert RowsPoints(Ranks[..1]) == 0 by { assert Ranks[..1][..0] == []; }
    assert RowsPoints(Ranks[..2]) == 0 by { assert Ranks[..2][..1] == Ranks[..1]; }
    assert RowsPoints(Ranks[..3]) == 14 by { assert Ranks[..3][..2] == Ranks[..2]; }
    assert RowsPoints(Ranks[..4]) == 40 by { assert Ranks[..4][..3] == Ranks[..3]; }
    assert RowsPoints(Ranks[..5]) == 52 by { assert Ranks[..5][..4] == Ranks[..4]; }
    assert RowsPoints(Ranks[..6]) == 68 by { assert Ranks[..6][..5] == Ranks[..5]; }
    assert RowsPoints(Ranks[..7]) == 108 by { assert Ranks[..7][..6] == Ranks[..6]; }
    assert Ranks[..8] == Ranks;
  }
}
