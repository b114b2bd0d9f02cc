# Coinche engine (robolot) in Dafny

A model of the rules engine of robolot, a four-player, two-team Coinche card game, with
proofs about it. Its parts:

- `cards.dfy`, module `Cards`: the 32 cards, the plain and trump point tables, and the
  strength order each table induces. It also holds the fresh deck and its 152-point total.
- `containers.dfy`, module `Containers`: the passive containers as classes whose fields the
  methods reassign:
  - `Deck`: build, add, shuffle, cut, deal.
  - `Pile`: add, pop_all.
  - `Team`: name, score, round points.
  - `Player`: an eight-slot hand and `top_hand_index`, with `add_cards` and `play_card`.
- `bidding.dfy`, module `Ledger`: the bid ledger and the bid validity check.
  - The ledger is a sequence of records, replacing the data frame.
  - The validity check is written as the source has it.
  - A corrected variant rejects the value 0 (see Findings).
  - Lemmas cover what an accepted action does to the ledger.
- `tricks.dfy`, module `Tricks`:
  - the trick resolver, as a fold and as a method with the source's loop;
  - the card legality check;
  - the belote bonus, as written (never awarded) and as the rules intend (see Findings);
  - the contract check.
- `engine.dfy`, module `Engine`: the class `CoincheEngine`, a state machine over `GameState`,
  with the source's fields and operations:
  - the constructor;
  - `deal`;
  - `start_bidding` and `bid`;
  - `start_playing` and `play`;
  - `between_rounds`.

  Its invariant `Valid()` holds card conservation: the deck, the four hands, the current
  trick and the two team piles together always hold the same 32 distinct cards. `Valid()`
  also holds the facts of each phase:
  - hand sizes;
  - the ledger agreeing with the contract fields;
  - each team's round points being the points of its pile.

The model follows the code as written where it departs from the usual rules of the game:

- In the trick resolver, whether the best card is a trump is fixed by the led card and never
  updated. After a plain lead, every trump takes the lead, even one below a trump already
  played. A later card of the led colour can then overtake a trump.
- The exemption from trumping when the partner is winning applies only to the fourth card. It
  computes the winning team from the seat of the player about to play, not from the leader.
- A coinche moves `bidder_index` to the coinching seat. This changes where bidding closes
  and which seat the generale check looks at.
- Scoring ignores the coinche and surcoinche flags: the winning side gains the bid value.
- Piles and the deck prepend, so a trick stores its newest card first and is walked reversed.

Where the rules of the game and the code disagree, the model follows the code:

- the coinche check compares the highest-bid row's team with the last row's team;
- the generale is judged against a seat, not a team;
- a trump can lose a trick to a later card of the led colour.

Two departures are bugs rather than house rules, and the engine uses the corrected behaviour,
with the as-written behaviour modelled and proved beside it (see Findings):

- a bid value of 0 passes the validity check;
- the belote bonus is never awarded: `_get_belotte_points` compares a card's value, which
  holds the text of a Value member, with the Value members themselves, so the comparison is
  always false and the bonus is always 0. The engine awards the 20 points the rules intend.

## Model

| member | source | states |
|---|---|---|
| Cards.LevelsOrderPoints | robolot/models.py:14-33 | A stronger card is never worth fewer points, in both tables; each table's position orders the eight ranks strictly |
| Cards.SuitTotals | robolot/models.py:14-33 | A plain suit is worth 30 points and the trump suit 62 |
| Cards.FullDeckFacts | robolot/models.py:69-73 | A fresh deck has 32 pairwise distinct cards, every (value, colour) pair once, value-major: card 4i+j is colour j of value i |
| Cards.OnceEachIsFullDeck | robolot/models.py:69-73 | Holding every card exactly once is the same as being a permutation of the fresh deck, and means 32 cards |
| Cards.FullDeck | robolot/models.py:69-73 | The fresh deck has 32 cards |
| Cards.PointsOf | robolot/engine.py:348-352 | A sequence of cards is worth at most 20 points per card |
| Cards.PointsOfPermutation | robolot/engine.py:348-352 | The points of a set of cards do not depend on their order |
| Cards.PointsOfAppend | robolot/engine.py:348-352 | Points add up over concatenation |
| Cards.FullDeckPoints | robolot/models.py:14-33 | The whole deck is worth 152 points whatever the trump colour |
| Containers.Deck.constructor | robolot/models.py:69-73 | The built deck is the fresh deck in enum order |
| Containers.Deck.Add | robolot/models.py:75-76 | The given cards go on top: new deck = given + old deck |
| Containers.Deck.Shuffle | robolot/models.py:78-80 | The deck becomes the supplied order, which must be a permutation of its cards |
| Containers.Deck.Cut | robolot/models.py:82-89 | The deck becomes the rotation cards[pos:] + cards[:pos] for a position in 1..len-1 |
| Containers.RotatedFacts | robolot/models.py:82-89 | Cutting keeps the length and the multiset of cards; card i of the cut deck is old card (i + pos) mod len |
| Containers.Deck.Deal | robolot/models.py:91-98 | With enough cards, returns the first n in order and leaves the rest; otherwise every card is popped and the deal fails |
| Containers.Pile.constructor | robolot/models.py:102-106 | A new pile is empty |
| Containers.Pile.Add | robolot/models.py:108-113 | The given cards go on top: new pile = given + old pile |
| Containers.Pile.PopAll | robolot/models.py:115-121 | Returns every card of the pile and leaves it empty |
| Containers.Team.constructor | robolot/models.py:124-131 | A new team has its name, score 0 and points 0 |
| Containers.Player.constructor | robolot/models.py:135-144 | A new seat has its name, team and human flag, eight empty slots and top index 7 |
| Containers.Player.AddCards | robolot/models.py:146-153 | Each card is written into slot top_hand_index, which then steps down (negative indices wrap as list indices do) |
| Containers.Placed | robolot/models.py:146-153 | Dealing cards into a hand keeps its eight slots |
| Containers.PlacedAt | robolot/models.py:146-153 | Without wrap-around the cards land in slots t, t-1, ..., in order, and no other slot changes |
| Containers.FreshHandPlacement | robolot/models.py:146-153 | Eight cards dealt into a fresh hand fill slots 7 down to 0 in deal order |
| Containers.PlacedKeepsShape | robolot/models.py:146-153 | Dealing into free slots keeps the slots at and below the top index empty |
| Containers.PlacedAddsCards | robolot/models.py:146-153 | Dealing into free slots adds exactly the dealt cards to the hand |
| Containers.Player.PlayCard | robolot/models.py:164-176 | Returns the card of slot i and empties that slot only; the top index goes back to 7 exactly when every slot is empty |
| Containers.TopIsSevenIffEmpty | robolot/models.py:164-176 | In a well-shaped hand, the top index is 7 exactly when every slot is empty |
| Containers.EmptySlot | robolot/models.py:171-172 | Emptying a slot that holds a card takes exactly that card out of the hand |
| Containers.NoCardsIffEmpty | robolot/models.py:174-175 | A hand holds no card exactly when every slot is empty |
| Ledger.BidValid | robolot/engine.py:105-178 | As written: an accepted coinche or surcoinche carries no value and no colour; an accepted non-zero value carries a colour, no flag, and is on the scale |
| Ledger.BidAccepted | robolot/engine.py:158-178 | The corrected check accepts only what the as-written check accepts, and every value it accepts is a raise on the scale with a colour |
| Ledger.MaxBid | robolot/engine.py:159-159 | The highest recorded value: absent exactly when no row has one, at least every value, and held by some row |
| Ledger.HighestRow | robolot/engine.py:124-124 | The row the descending sort puts first holds the highest value |
| Ledger.RaiseRule | robolot/engine.py:158-178 | A raise is accepted exactly when its value is on the scale and above every earlier value |
| Ledger.HalfSpecifiedRejected | robolot/engine.py:161-164 | A value without a colour, or a colour without a value, is rejected |
| Ledger.PassAccepted | robolot/engine.py:161-178 | A plain pass is always accepted |
| Ledger.CoincheRule | robolot/engine.py:113-134 | A coinche is accepted exactly when it carries nothing else, a value is recorded, the highest-bid row's team is the last row's team, and no coinche is recorded |
| Ledger.SurcoincheRule | robolot/engine.py:136-156 | A surcoinche is accepted exactly when it carries no value or colour, a coinche is recorded, the highest-bid row's team differs from the last row's, and no surcoinche is recorded |
| Ledger.RaiseExamples | robolot/engine.py:166-175 | After 80 and 100, a raise to 90 or 115 is rejected and 110 is accepted |
| Ledger.CoincheExamples | robolot/engine.py:113-156 | Coinche and surcoinche on concrete ledgers: coinche without a raise rejected, after an opposing raise accepted; surcoinche without a coinche rejected, after one accepted |
| Ledger.ZeroPassAdmitsCoinche | robolot/engine.py:161-164 | As written, value 0 passes as a pass and is recorded; a coinche is then accepted although no real raise exists |
| Ledger.AcceptedCoincheFollowsRaise | robolot/engine.py:118-121 | With 0 rejected, an accepted coinche always follows a real raise |
| Ledger.AcceptedValueIsRaise | robolot/engine.py:166-175 | An accepted action carrying a value is a plain raise on the scale above every earlier value |
| Ledger.AcceptedMaxBid | robolot/engine.py:224-227 | After an accepted action the highest value is the action's value if it has one, and unchanged otherwise |
| Ledger.AcceptedKeepsWellFormed | robolot/engine.py:213-223 | Appending an accepted action keeps the ledger well formed: no 0, strictly increasing raises, at most one coinche and one surcoinche, coinche after a value, surcoinche after a coinche |
| Ledger.CoincheAppended | robolot/engine.py:236-237 | The ledger holds a coinche after one more row exactly when it did or the row is one |
| Ledger.AcceptedShape | robolot/engine.py:113-178 | An accepted action is a raise, a coinche of a standing bid, a surcoinche of a coinche, or a pass |
| Ledger.AcceptedStep | robolot/engine.py:213-238 | An accepted action keeps the ledger well formed, sets its highest value and updates its coinche flag |
| Tricks.Reverse | robolot/engine.py:324-324 | The trick in play order: card k is the pile's card len-1-k |
| Tricks.BeatsRule | robolot/engine.py:336-347 | A card takes the lead only if it is a trump or of the led colour, and after a trump lead only a trump does |
| Tricks.BestAmong | robolot/engine.py:319-347 | The best card found among the first n cards is one of them |
| Tricks.GetPliInfo | robolot/engine.py:355-357 | The winning seat is in 0..3 and the winning team is that seat mod 2 |
| Tricks.WalkTrick | robolot/engine.py:319-353 | The loop finds the winning position and the trick's points |
| Tricks.ResolveTrick | robolot/engine.py:318-357 | The resolver returns the fold's winner, team and points, counting from the current seat |
| Tricks.TrumpLedHighestTrumpWins | robolot/engine.py:338-347 | When trump is led the winner is a trump and no trump of the trick is stronger |
| Tricks.NoTrumpHighestAskedWins | robolot/engine.py:338-347 | With no trump played the winner has the led colour and no card of that colour is stronger |
| Tricks.OffColourNeverWins | robolot/engine.py:338-347 | Only the led card, a trump or a card of the led colour can hold the lead |
| Tricks.TrumpAfterPlainLeadTakesLead | robolot/engine.py:344-347 | As written: after a plain lead every trump takes the lead when played |
| Tricks.AsWrittenTrumpExamples | robolot/engine.py:336-347 | As written: a lower trump overtakes a higher one after a plain lead, and a later ace of the led colour overtakes the trumps |
| Tricks.PliPointsOrder | robolot/engine.py:348-352 | The trick's points are its cards' table values summed, in any order |
| Tricks.CardValid | robolot/engine.py:359-406 | Following the led colour with a non-trump card the hand holds is always legal |
| Tricks.MaxTrumpLevel | robolot/engine.py:375-379 | The highest trump level among the cards, -1 exactly when there is no trump |
| Tricks.OpeningIsFree | robolot/engine.py:364-364 | Any card may open a trick |
| Tricks.MustFollow | robolot/engine.py:365-372 | Holding the led colour, an off-colour card is illegal |
| Tricks.MustOvertrump | robolot/engine.py:373-390 | A trump below the trick's best trump is illegal while the hand holds a trump above it |
| Tricks.MustTrump | robolot/engine.py:391-405 | Void in the led colour with trump in hand, a plain card is illegal with at most 2 cards in the trick; with 3, exactly when the team counted from the mover is not the mover's |
| Tricks.LegalCardExists | robolot/engine.py:363-406 | A hand holding a card always has a legal card |
| Tricks.BestTrumpSlot | robolot/engine.py:380-384 | A hand holding trump has a slot with its strongest trump |
| Tricks.BelotePointsAsWritten | robolot/engine.py:95-103 | As written, with a card's value compared to the enum members: the bonus is 0 or 20 |
| Tricks.StoredValue | robolot/models.py:69-73 | A card's value field holds the text of its Value member, never the member itself |
| Tricks.BeloteAsWrittenIsZero | robolot/engine.py:95-103 | As written, the belote bonus is 0 for every deal |
| Tricks.BelotePoints | robolot/engine.py:95-103 | Corrected: the bonus is 0 or 20 |
| Tricks.BeloteRule | robolot/engine.py:95-103 | Corrected (see Findings): the bonus is 20 exactly when some seat of the bidding team holds the king and queen of the bid colour |
| Tricks.BeloteFindingExample | robolot/engine.py:95-103 | A bidding-team seat with king and queen of hearts, hearts bid: as written 0, corrected 20; a contract of 80 made with 65 points fails with 0 and is fulfilled with 20 |
| Tricks.Fulfilled | robolot/engine.py:457-468 | When the two piles share the 152 points (as RoundTotal proves they do), a capot is fulfilled exactly when the bidding team holds all 152 |
| Engine.Next | robolot/engine.py:252-255 | The next seat is (i + 1) mod 4 |
| Engine.FitsAfterLay | robolot/engine.py:425-426 | Laying the current seat's card keeps every hand's count matching the trick, one card longer |
| Engine.FitsAfterTrick | robolot/engine.py:445-451 | A full trick counts as finished for every hand, whoever leads next |
| Engine.Received | robolot/engine.py:79-93 | After `step` passes a seat has received at most the cards those passes send it |
| Engine.ReceivedLength | robolot/engine.py:86-93 | After three passes every seat has received 8 cards |
| Engine.DealtCount | robolot/models.py:146-153 | A dealt hand holds exactly the cards it received |
| Engine.CoincheEngine.constructor | robolot/engine.py:20-67 | A new game: two teams and four seats (seat i in team i mod 2), a shuffled full deck dealt, scores 0, state BIDDING_READY, starting seat 0 |
| Engine.CoincheEngine.TakeFromDeck | robolot/engine.py:77-77 | The next n cards leave the deck and no card is lost |
| Engine.CoincheEngine.PlaceCards | robolot/engine.py:77-77 | The seat places the cards into its free slots and the game's cards grow by them |
| Engine.CoincheEngine.DealRound | robolot/engine.py:69-77 | One pass: seats 0..3 in turn take the next n cards from the deck; nothing is lost |
| Engine.CoincheEngine.DealPass | robolot/engine.py:87-93 | Pass `step` gives two cards when it is the method's pass and three otherwise |
| Engine.CoincheEngine.Deal | robolot/engine.py:79-93 | The full deal: each seat's hand holds the cards it received pass by pass, 8 cards each; the deck is empty and no card is lost |
| Engine.CoincheEngine.StartBidding | robolot/engine.py:180-193 | The ledger and contract are cleared, the starting seat speaks, state BIDDING |
| Engine.CoincheEngine.RecordAction | robolot/engine.py:213-238 | One row appended; a raise sets value, colour, teams and bidder; a surcoinche closes bidding; a coinche sets the flag and moves the bidder seat to the coincher |
| Engine.CoincheEngine.TakeAction | robolot/engine.py:213-255 | The action is recorded and the turn passes to the next seat |
| Engine.CoincheEngine.Advance | robolot/engine.py:213-255 | An accepted action is recorded, the turn moves on, and the ledger still agrees with the contract fields |
| Engine.CoincheEngine.CollectHands | robolot/engine.py:261-265 | The four hands are gathered seat by seat and emptied; no card is lost |
| Engine.CoincheEngine.CancelRound | robolot/engine.py:259-266 | The gathered hands go on top of the first team pile |
| Engine.CoincheEngine.VoidRound | robolot/engine.py:256-277 | Nobody bid: bidding closes, every hand goes onto the first pile, state BETWEEN_ROUNDS |
| Engine.CoincheEngine.Close | robolot/engine.py:283-292 | Bidding closes, the corrected belote bonus (Tricks.BelotePoints over the four hands) is stored, state PLAYING_READY |
| Engine.CoincheEngine.CloseIfDone | robolot/engine.py:278-296 | The auction closes exactly when it was closed or the turn reached the bidder seat, and otherwise goes on |
| Engine.CoincheEngine.Conclude | robolot/engine.py:256-296 | Voided exactly when there is no bidder and the turn is back at the starting seat; closed exactly when there is a bidder and the auction was closed or the turn reached it |
| Engine.CoincheEngine.Act | robolot/engine.py:213-296 | An accepted action: recorded, turn passed, round voided, closed or continued |
| Engine.CoincheEngine.Bid | robolot/engine.py:195-296 | Accepted exactly when the (corrected) validity check passes; a rejected action changes nothing; an accepted one appends one row, passes the turn, sets the contract, and voids or closes the round as the source decides, keeping every card |
| Engine.CoincheEngine.OpenTricks | robolot/engine.py:408-413 | The lead seat, trick counter 0, empty play memory, state PLAYING |
| Engine.CoincheEngine.StartPlaying | robolot/engine.py:408-413 | The starting seat leads the first trick; the contract is kept |
| Engine.CoincheEngine.NextRound | robolot/engine.py:302-316 | The starting seat moves to the next, trick winners cleared, state BIDDING_READY |
| Engine.CoincheEngine.Gather | robolot/engine.py:307-310 | Both piles, first then second, become the deck; the piles are empty and no card is lost |
| Engine.CoincheEngine.Redeal | robolot/engine.py:306-314 | The gathered deck is cut and dealt |
| Engine.CoincheEngine.BetweenRounds | robolot/engine.py:298-316 | The starting seat moves on, every pile card goes back into the deck, which is cut and dealt, state BIDDING_READY |
| Engine.CoincheEngine.DrawCard | robolot/engine.py:425-425 | The seat's card leaves its hand and the game's cards are short of exactly it |
| Engine.CoincheEngine.GainTrick | robolot/engine.py:426-426 | The card goes on top of the trick |
| Engine.CoincheEngine.TakePli | robolot/engine.py:449-449 | The trick is emptied and its cards returned |
| Engine.CoincheEngine.GainPile | robolot/engine.py:449-449 | A team pile receives cards on top |
| Engine.CoincheEngine.TakeHand | robolot/engine.py:262-265 | A seat hands over its cards and is left with eight empty slots |
| Engine.CoincheEngine.LayCard | robolot/engine.py:425-426 | The current seat's card moves from its hand onto the trick |
| Engine.CoincheEngine.RecordPlay | robolot/engine.py:428-440 | The card joins the play memory and the turn passes on |
| Engine.CoincheEngine.Shift | robolot/engine.py:425-426 | The card moves onto the trick and the hands still match the trick's length |
| Engine.CoincheEngine.Lay | robolot/engine.py:425-440 | Card laid, recorded, turn passed; cards conserved and trick bookkeeping kept |
| Engine.CoincheEngine.Bank | robolot/engine.py:448-449 | The team gains the points and the trick on top of its pile |
| Engine.CoincheEngine.AwardTrick | robolot/engine.py:445-451 | The winner (counted from the current seat) is recorded and leads; its team gains the trick's points and cards; the other team is untouched |
| Engine.CoincheEngine.CompleteTrick | robolot/engine.py:445-451 | A full trick awarded with the trick bookkeeping restarted from the winner; scores unchanged |
| Engine.CoincheEngine.HandsSpent | robolot/engine.py:456-456 | After the eighth trick every hand is empty with top index 7 |
| Engine.CoincheEngine.RoundTotal | robolot/engine.py:456-510 | Once a round is over the two piles hold the whole deck and are worth 152 together |
| Engine.CoincheEngine.ScoreRound | robolot/engine.py:456-510 | Generale: every trick to the bidder seat; capot: challengers at 0; otherwise points + belote reach the bid. Exactly one team gains the bid value; points reset to 0; ENDED exactly when a score reaches the target, else BETWEEN_ROUNDS |
| Engine.CoincheEngine.EndRound | robolot/engine.py:456-510 | The eighth trick in: the round is scored on the piles' points and the table is cleared |
| Engine.CoincheEngine.Settle | robolot/engine.py:445-510 | A full trick is awarded and after the eighth the round is scored |
| Engine.CoincheEngine.Finish | robolot/engine.py:445-513 | A trick under four cards is left alone; a full one is awarded, and scored after the eighth |
| Engine.CoincheEngine.Move | robolot/engine.py:425-514 | The accepted card is laid and the trick or round completed |
| Engine.CoincheEngine.Play | robolot/engine.py:415-514 | Accepted exactly when the legality check passes for the mover; a rejected card changes nothing; an accepted one leaves the hand for the trick and memory and passes the turn; the fourth card awards the trick; after the eighth the round is scored; every card is kept |

## Left out

- Console and GUI input (the `input()` prompts, robolot/main.py) and robot seat selection: player names, team names and the human flags are constructor parameters.
- Randomness: the shuffle order, the cut position and the deal method are parameters with the source's ranges (a permutation of the deck, 1..31, 1..3).
- The robot and human bid and card choice strategies (`Player.bid`, `try_card`, `Robolot`): the engine receives the action or the slot index as a parameter.
- Parquet export, timestamps, `print` calls and the returned message lists: they have no effect on the game state.
- pandas: the bid and play memories are sequences of records.
- `Card.image` (a pygame image load).
- Team references are indices into `teams`: seat i's team is `teams[i % 2]` by construction, so comparing team objects is comparing indices.
- The has_coinched and has_surcoinched arguments and the is_coinched and is_surcoinched fields are booleans. Integer values other than 0 and 1 are not modelled.
- Engine.CoincheEngine.Play: requires -8 <= i < 8 and the slot to hold a card. Otherwise the source raises: IndexError at robolot/engine.py:419, or AttributeError. The AttributeError comes from the validity check (robolot/engine.py:369 or 374) when the trick is not empty, and from the print (robolot/engine.py:427) after None has been put on an empty trick.
- Containers.Player.AddCards: requires |cards| <= top_hand_index + 9, so the index never goes below -8. Past that the source raises IndexError at robolot/models.py:152; the engine always adds 8 cards to a hand whose top index is 7, so it never reaches that case.
- Engine.CoincheEngine.Bid: requires state BIDDING, as do Play (PLAYING), StartBidding (BIDDING_READY), StartPlaying (PLAYING_READY) and BetweenRounds (BETWEEN_ROUNDS). The source does not check the state; these are the states in which the driver loop calls each operation.
- Engine.CoincheEngine.Bid: the bid colour is one of the four suits. The source accepts any text (robolot/main.py:210); with any other text no card is trump, and a round is worth 120 points.
- Engine.CoincheEngine.Bid: uses the corrected validity check, which rejects the value 0 (see Findings). The as-written check is `Ledger.BidValid`.
- Engine.CoincheEngine.Close: stores the corrected belote bonus, `Tricks.BelotePoints` (20 when a bidding-team seat holds king and queen of the bid colour). The source always stores 0 (see Findings; `Tricks.BeloteAsWrittenIsZero`). Scoring of a standard contract then adds 20 where the source adds 0.
- Engine.CoincheEngine.CloseIfDone: when the auction closes, the corrected belote bonus is stored, as in Close.
- Engine.CoincheEngine.Conclude: when the auction closes, the corrected belote bonus is stored, as in Close.
- Engine.CoincheEngine.Act: when the auction closes, the corrected belote bonus is stored, as in Close.
- Engine.CoincheEngine.Bid: when the auction closes, the corrected belote bonus is stored, as in Close.
- Ledger.HighestRow: among rows tied for the highest value, the earliest is taken. The source's pandas sort is not stable, but ledgers of accepted actions have no ties.
- `pliLeader` (the seat that led the current trick) is ghost state used by the proofs; the source has no such field.

## Findings

| source | as written | input that shows it | evidently intended | confidence | as-written member | corrected member |
|---|---|---|---|---|---|---|
| robolot/engine.py:161-164 | A value of 0 is falsy, so it passes the pass check, yet `bid` records 0 in the ledger. The ledger's maximum is then 0, not missing | bid(0, None, 0, 0) on an empty ledger, then a coinche by the next seat: the coinche is accepted with no raise, and closing the auction then reads the name of a bidding team that was never set | A value of 0 is rejected, so a coinche needs a real raise | medium, not executed | Ledger.ZeroPassAdmitsCoinche | Ledger.AcceptedCoincheFollowsRaise |
| robolot/engine.py:95-103 | `card.value == Value.KING` compares the text stored in a card (models.py:69-73) with an enum member, which is never equal, so the bonus is always 0 | Bid 80 of hearts; a seat of the bidding team was dealt the king and queen of hearts; the bidding team makes 65 points. The source adds 0, 65 < 80, and the challengers score; with the bonus 85 >= 80 and the bidders score | 20 points when a seat of the bidding team holds king and queen of the bid colour | high, not executed | Tricks.BeloteAsWrittenIsZero | Tricks.BeloteRule |
