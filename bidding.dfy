/** The bid ledger (one record per bidding action of the round) and the validity
    test each proposed action must pass against the earlier records. */
module Ledger {
  import opened Wrappers
  import opened Cards

  /** One bidding action: who acted, their team, the value and colour proposed
      (both absent for a pass, a coinche or a surcoinche) and the two flags. */
  datatype BidRecord = BidRecord(
    playerIndex: int,
    teamIndex: int,
    value: Option<int>,
    color: Option<Suit>,
    coinched: bool,
    surcoinched: bool)

  /** Python truthiness of a proposed value: absent and 0 both count as "no value". */
  predicate Given(v: Option<int>) {
    v.Some? && v.value != 0
  }

  /** The bid scale: 80, 90, ..., 160, then 250 (capot) and 500 (generale). */
  predicate InScale(v: int) {
    (80 <= v <= 160 && v % 10 == 0) || v == 250 || v == 500
  }

  predicate HasValue(l: seq<BidRecord>) {
    exists i :: 0 <= i < |l| && l[i].value.Some?
  }

  /** The largest value recorded in the ledger, absent when no row has a value
      (the maximum of the bid_value column, which skips missing entries). */
  function MaxBid(l: seq<BidRecord>): (m: Option<int>)
    ensures m.None? <==> !HasValue(l)
    ensures m.Some? ==> forall i :: 0 <= i < |l| && l[i].value.Some? ==> l[i].value.value <= m.value
    ensures m.Some? ==> exists i :: 0 <= i < |l| && l[i].value == m
  {
    if l == [] then None
    else
      var init := l[..|l| - 1];
      var m := MaxBid(init);
      assert forall i :: 0 <= i < |init| ==> init[i] == l[i];
      match l[|l| - 1].value
      case None => m
      case Some(v) => if m.None? || v > m.value then Some(v) else m
  }

  /** The first row at or after `from` whose value is `x`. */
  function FirstWithValue(l: seq<BidRecord>, x: Option<int>, from: nat): (r: nat)
    requires exists i :: from <= i < |l| && l[i].value == x
    ensures from <= r < |l| && l[r].value == x
    ensures forall j :: from <= j < r ==> l[j].value != x
    decreases |l| - from
  {
    if l[from].value == x then from else FirstWithValue(l, x, from + 1)
  }

  /** The row a descending sort on bid_value puts first: the earliest row holding the
      largest value, or the first row when no row has a value. */
  function HighestRow(l: seq<BidRecord>): (r: nat)
    requires |l| > 0
    ensures r < |l|
    ensures MaxBid(l).Some? ==> l[r].value == MaxBid(l)
  {
    if MaxBid(l).None? then 0 else FirstWithValue(l, MaxBid(l), 0)
  }

  function HighestTeam(l: seq<BidRecord>): int
    requires |l| > 0
  {
    l[HighestRow(l)].teamIndex
  }

  function LastTeam(l: seq<BidRecord>): int
    requires |l| > 0
  {
    l[|l| - 1].teamIndex
  }

  predicate AnyCoinche(l: seq<BidRecord>) {
    exists i :: 0 <= i < |l| && l[i].coinched
  }

  predicate AnySurcoinche(l: seq<BidRecord>) {
    exists i :: 0 <= i < |l| && l[i].surcoinched
  }

  /** The validity test of a proposed action, as the source writes it (value 0 is
      treated like an absent value). */
  function BidValid(l: seq<BidRecord>, value: Option<int>, color: Option<Suit>, coinche: bool, surcoinche: bool): (r: bool)
    ensures r && (coinche || surcoinche) ==> !Given(value) && color.None?
    ensures r && Given(value) ==> !coinche && !surcoinche && color.Some? && InScale(value.value)
  {
    if coinche then
      if Given(value) || color.Some? || surcoinche then false
      else if MaxBid(l).None? then false
      else if HighestTeam(l) != LastTeam(l) then false
      else if AnyCoinche(l) then false
      else true
    else if surcoinche then
      if Given(value) || color.Some? then false
      else if !AnyCoinche(l) then false
      else if HighestTeam(l) == LastTeam(l) then false
      else if AnySurcoinche(l) then false
      else true
    else if !Given(value) || color.None? then
      !(Given(value) || color.Some?)
    else if !InScale(value.value) then false
    else if MaxBid(l).Some? && value.value <= MaxBid(l).value then false
    else true
  }

  /** The validity test with a value of 0 rejected instead of read as a pass. */
  function BidAccepted(l: seq<BidRecord>, value: Option<int>, color: Option<Suit>, coinche: bool, surcoinche: bool): (r: bool)
    ensures r ==> BidValid(l, value, color, coinche, surcoinche)
    ensures r && value.Some? ==> !coinche && !surcoinche && color.Some? && InScale(value.value)
  {
    value != Some(0) && BidValid(l, value, color, coinche, surcoinche)
  }

  /** A raise (value and colour both given, no flag) is accepted exactly when its value is on
      the scale and strictly above every earlier value of the ledger. */
  lemma RaiseRule(l: seq<BidRecord>, v: int, c: Suit)
    requires v != 0
    ensures BidValid(l, Some(v), Some(c), false, false) <==>
      InScale(v) && forall i :: 0 <= i < |l| && l[i].value.Some? ==> l[i].value.value < v
  {
    if MaxBid(l).Some? && v <= MaxBid(l).value {
      var i :| 0 <= i < |l| && l[i].value == MaxBid(l);
      assert l[i].value.value >= v;
    }
  }

  /** Only one of value and colour given, no flag: rejected. */
  lemma HalfSpecifiedRejected(l: seq<BidRecord>, value: Option<int>, color: Option<Suit>)
    requires Given(value) != color.Some?
    ensures !BidValid(l, value, color, false, false)
  {
  }

  /** A plain pass is always accepted. */
  lemma PassAccepted(l: seq<BidRecord>)
    ensures BidValid(l, None, None, false, false)
  {
  }

  /** A coinche is accepted exactly when it carries nothing else, some earlier row has a value,
      the highest-bid row's team is the last row's team, and no coinche is recorded. */
  lemma CoincheRule(l: seq<BidRecord>, value: Option<int>, color: Option<Suit>, surcoinche: bool)
    ensures BidValid(l, value, color, true, surcoinche) <==>
      !Given(value) && color.None? && !surcoinche &&
      HasValue(l) && l[HighestRow(l)].teamIndex == l[|l| - 1].teamIndex &&
      forall i :: 0 <= i < |l| ==> !l[i].coinched
  {
  }

  /** A surcoinche is accepted exactly when it carries no value or colour, a coinche is
      recorded, the highest-bid row's team differs from the last row's, and no surcoinche is recorded. */
  lemma SurcoincheRule(l: seq<BidRecord>, value: Option<int>, color: Option<Suit>)
    ensures BidValid(l, value, color, false, true) <==>
      !Given(value) && color.None? &&
      AnyCoinche(l) && l[HighestRow(l)].teamIndex != l[|l| - 1].teamIndex &&
      forall i :: 0 <= i < |l| ==> !l[i].surcoinched
  {
  }

  /** A ledger of two raises: seat 0 bid 80 of spades, seat 1 bid 100 of hearts.
      A raise to 90 or 115 is rejected, 110 is accepted. */
  lemma RaiseExamples()
    ensures var l := [BidRecord(0, 0, Some(80), Some(Spades), false, false),
                      BidRecord(1, 1, Some(100), Some(Hearts), false, false)];
      !BidValid(l, Some(90), Some(Clubs), false, false) &&
      BidValid(l, Some(110), Some(Clubs), false, false) &&
      !BidValid(l, Some(115), Some(Clubs), false, false)
  {
    var l := [BidRecord(0, 0, Some(80), Some(Spades), false, false),
              BidRecord(1, 1, Some(100), Some(Hearts), false, false)];
    RaiseRule(l, 90, Clubs);
    RaiseRule(l, 110, Clubs);
    RaiseRule(l, 115, Clubs);
  }

  /** Coinche and surcoinche on small concrete ledgers. */
  lemma CoincheExamples()
    ensures !BidValid([BidRecord(1, 1, None, None, false, false), BidRecord(2, 0, None, None, false, false)],
                      None, None, true, false)
    ensures BidValid([BidRecord(0, 0, None, None, false, false), BidRecord(1, 1, Some(80), Some(Hearts), false, false)],
                     None, None, true, false)
    ensures !BidValid([BidRecord(0, 0, None, None, false, false), BidRecord(1, 1, None, None, false, false)],
                      None, None, false, true)
    ensures !BidValid([BidRecord(0, 0, None, None, false, false), BidRecord(1, 1, Some(80), Some(Hearts), false, false)],
                      None, None, false, true)
    ensures BidValid([BidRecord(0, 0, Some(80), Some(Hearts), false, false), BidRecord(1, 1, None, None, true, false)],
                     None, None, false, true)
  {
    var l2 := [BidRecord(0, 0, None, None, false, false), BidRecord(1, 1, Some(80), Some(Hearts), false, false)];
    assert HighestRow(l2) == 1 by { assert MaxBid(l2) == Some(80); }
    var l4 := [BidRecord(0, 0, Some(80), Some(Hearts), false, false), BidRecord(1, 1, None, None, true, false)];
    assert HighestRow(l4) == 0 by { assert MaxBid(l4) == Some(80); }
    assert AnyCoinche(l4) by { assert l4[1].coinched; }
  }

  /** As written, a value of 0 with no colour passes as a pass but is recorded with the value 0;
      the next player may then coinche although nobody has raised. */
  lemma ZeroPassAdmitsCoinche()
    ensures BidValid([], Some(0), None, false, false)
    ensures var l := [BidRecord(0, 0, Some(0), None, false, false)];
      BidValid(l, None, None, true, false) && forall i :: 0 <= i < |l| ==> !Given(l[i].value)
  {
    var l := [BidRecord(0, 0, Some(0), None, false, false)];
    assert MaxBid(l) == Some(0);
    assert HighestRow(l) == 0;
  }

  /** No recorded value is 0. */
  predicate ZeroFree(l: seq<BidRecord>) {
    forall i :: 0 <= i < |l| ==> l[i].value != Some(0)
  }

  /** With 0 rejected, a ledger built from accepted actions never holds a 0, so a coinche is
      only accepted after a real raise. */
  lemma AcceptedCoincheFollowsRaise(l: seq<BidRecord>, value: Option<int>, color: Option<Suit>, surcoinche: bool)
    requires ZeroFree(l)
    requires BidAccepted(l, value, color, true, surcoinche)
    ensures exists i :: 0 <= i < |l| && Given(l[i].value)
  {
    var i :| 0 <= i < |l| && l[i].value.Some?;
    assert Given(l[i].value);
  }

  /** The record `bid` appends for the action of seat p. */
  function Record(p: int, value: Option<int>, color: Option<Suit>, coinche: bool, surcoinche: bool): BidRecord {
    BidRecord(p, p % 2, value, color, coinche, surcoinche)
  }

  /** What a ledger of accepted actions looks like: no 0, raises strictly increasing, at most one
      coinche and one surcoinche, a coinche only after a value, a surcoinche only after a coinche. */
  predicate WellFormed(l: seq<BidRecord>) {
    ZeroFree(l) &&
    (forall i, j :: 0 <= i < j < |l| && l[i].value.Some? && l[j].value.Some? ==> l[i].value.value < l[j].value.value) &&
    (forall i, j :: 0 <= i < j < |l| && l[i].coinched ==> !l[j].coinched) &&
    (forall i, j :: 0 <= i < j < |l| && l[i].surcoinched ==> !l[j].surcoinched) &&
    (AnyCoinche(l) ==> HasValue(l)) &&
    (AnySurcoinche(l) ==> AnyCoinche(l))
  }

  /** An accepted action that carries a value is a raise above every earlier value. */
  lemma {:induction false} AcceptedValueIsRaise(l: seq<BidRecord>, value: Option<int>, color: Option<Suit>, coinche: bool, surcoinche: bool)
    requires BidAccepted(l, value, color, coinche, surcoinche) && value.Some?
    ensures !coinche && !surcoinche && color.Some? && InScale(value.value)
    ensures forall i :: 0 <= i < |l| && l[i].value.Some? ==> l[i].value.value < value.value
  {
    RaiseRule(l, value.value, color.value);
  }

  /** After an accepted action the highest value is the action's value when it carries one,
      and is unchanged otherwise. */
  lemma AcceptedMaxBid(l: seq<BidRecord>, p: int, value: Option<int>, color: Option<Suit>, coinche: bool, surcoinche: bool)
    requires BidAccepted(l, value, color, coinche, surcoinche)
    ensures MaxBid(l + [Record(p, value, color, coinche, surcoinche)]) == if value.Some? then value else MaxBid(l)
  {
    assert (l + [Record(p, value, color, coinche, surcoinche)])[..|l|] == l;
    if value.Some? {
      AcceptedValueIsRaise(l, value, color, coinche, surcoinche);
    }
  }

  lemma {:induction false} AppendedFlags(l: seq<BidRecord>, r: BidRecord)
    requires AnyCoinche(l) ==> HasValue(l)
    requires AnySurcoinche(l) ==> AnyCoinche(l)
    requires r.coinched ==> HasValue(l)
    requires r.surcoinched ==> AnyCoinche(l)
    ensures AnyCoinche(l + [r]) ==> HasValue(l + [r])
    ensures AnySurcoinche(l + [r]) ==> AnyCoinche(l + [r])
  {
    var l' := l + [r];
    if AnyCoinche(l') {
      var i :| 0 <= i < |l'| && l'[i].coinched;
      assert i < |l| ==> l[i].coinched;
      var j :| 0 <= j < |l| && l[j].value.Some?;
      assert l'[j].value.Some?;
    }
    if AnySurcoinche(l') {
      var i :| 0 <= i < |l'| && l'[i].surcoinched;
      assert i < |l| ==> l[i].surcoinched;
      var j :| 0 <= j < |l| && l[j].coinched;
      assert l'[j].coinched;
    }
  }

  /** Appending an accepted action keeps the ledger well formed. */
  lemma {:induction false} AcceptedKeepsWellFormed(l: seq<BidRecord>, p: int, value: Option<int>, color: Option<Suit>, coinche: bool, surcoinche: bool)
    requires WellFormed(l)
    requires BidAccepted(l, value, color, coinche, surcoinche)
    ensures WellFormed(l + [Record(p, value, color, coinche, surcoinche)])
  {
    var r := Record(p, value, color, coinche, surcoinche);
    var l' := l + [r];
    assert forall i :: 0 <= i < |l| ==> l'[i] == l[i];
    if value.Some? {
      AcceptedValueIsRaise(l, value, color, coinche, surcoinche);
    }
    assert coinche ==> forall i :: 0 <= i < |l| ==> !l[i].coinched;
    assert surcoinche ==> forall i :: 0 <= i < |l| ==> !l[i].surcoinched;
    AppendedFlags(l, r);
  }

  /** A ledger holds a coinche after one more row exactly when it held one or the row is one. */
  lemma {:induction false} CoincheAppended(l: seq<BidRecord>, r: BidRecord)
    ensures AnyCoinche(l + [r]) <==> AnyCoinche(l) || r.coinched
  {
    var l' := l + [r];
    if AnyCoinche(l) {
      var i :| 0 <= i < |l| && l[i].coinched;
      assert l'[i].coinched;
    }
    if r.coinched {
      assert l'[|l|].coinched;
    }
    if AnyCoinche(l') {
      var i :| 0 <= i < |l'| && l'[i].coinched;
      assert i < |l| ==> l[i].coinched;
    }
  }

  /** An accepted action is a raise (a value on the scale and a colour, no flag), a coinche of a
      standing bid, a surcoinche of a coinche, or a pass. */
  lemma AcceptedShape(l: seq<BidRecord>, value: Option<int>, color: Option<Suit>, coinche: bool, surcoinche: bool)
    requires BidAccepted(l, value, color, coinche, surcoinche)
    ensures value.Some? <==> Given(value)
    ensures Given(value) ==> color.Some? && InScale(value.value) && !coinche && !surcoinche
    ensures coinche ==> !surcoinche && MaxBid(l).Some?
    ensures surcoinche ==> AnyCoinche(l)
  {
    if value.Some? {
      AcceptedValueIsRaise(l, value, color, coinche, surcoinche);
    }
  }

  /** What an accepted action does to a well-formed ledger l, giving l': it stays well formed,
      its highest value becomes the action's value when one is given, and it holds a coinche
      exactly when l did or the action is one. */
  lemma AcceptedStep(l: seq<BidRecord>, l': seq<BidRecord>, p: int, value: Option<int>, color: Option<Suit>, coinche: bool, surcoinche: bool)
    requires WellFormed(l) && BidAccepted(l, value, color, coinche, surcoinche)
    requires l' == l + [Record(p, value, color, coinche, surcoinche)]
    ensures WellFormed(l')
    ensures MaxBid(l') == if Given(value) then value else MaxBid(l)
    ensures AnyCoinche(l') <==> AnyCoinche(l) || coinche
  {
    AcceptedKeepsWellFormed(l, p, value, color, coinche, surcoinche);
    AcceptedMaxBid(l, p, value, color, coinche, surcoinche);
    CoincheAppended(l, Record(p, value, color, coinche, surcoinche));
  }
}
