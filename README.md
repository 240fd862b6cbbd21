# Sheepshead engine in Dafny

A model of the trick-taking core of a Python Schafkopf/Sheepshead engine
and of its deck utilities, with proofs of what the engine promises.

- `cards.dfy` (module `Cards`): suits, faces and cards as value types, the
  enumerations in declaration order, and the face point table as a
  parameter (`ScoreTable`).
- `deck.dfy` (module `Deck`): building and shuffling a deck, dealing the
  32-card deck into four hands of eight, or the 24 cards without SIEBEN and
  ACHT into three hands of eight, and counting the
  points of a list of cards.
- `sheepshead.dfy` (module `Sheepshead`): the `Game` class:
  - each seat's hand, the past tricks ("ticks"), the trick in progress and
    the seat to move;
  - playing a card, with both refusals;
  - rotating the turn and handing a full trick to its winner;
  - the seat and team scores and the game result.
- `seats.dfy` (module `Seats`): the facts about `%` that the seat rotation
  needs.

The rule variant a game is played under is a `Mode` value:
- the legal plays of a hand;
- the index of the card that wins a full trick;
- the teams;
- the payout.

Its rules live in files that are not part of this model. What the engine
relies on from them is the predicate `ModeContract`:
- legal plays come from the hand;
- a non-empty hand has a legal play;
- the winning index lies inside the trick;
- teams name existing seats.

The game keeps the invariant `Game.Valid()` between plays:
- the seat to move is the trick's leader plus the number of cards in the
  trick, modulo the number of seats;
- every past trick holds one card per seat and went to a seat;
- every dealt card is in exactly one hand, in the trick, or in a past
  trick.

The ghost fields `leader`, `trickSeats` and `dealt` record what this
invariant needs: the trick's leader, the seat of each card in the trick,
and the multiset of dealt cards. `Game.Balanced()` is a second, optional
invariant: the seats that have played to the trick hold one card fewer than
the rest. It holds when the hands were dealt equal, and every play keeps it.

## Model

| member | source | states |
|---|---|---|
| Sheepshead.ResolveTickWinner | sheepshead.py:27-30 | the winner is a seat, and stepping n - 1 - pos seats on from it reaches the seat that played the last card |
| Sheepshead.WinnerIsSeatOfPosition | sheepshead.py:27-30 | when the last card was played n - 1 seats after the leader, the winner is the seat that played card `pos`: leader + pos modulo n |
| Sheepshead.LastCardWinnerIsCurrent | sheepshead.py:27-30 | a trick won by its last card goes to the seat that played it |
| Sheepshead.Game.constructor | sheepshead.py:19-25 | the game takes a copy of the hands and their number of seats, has no tricks yet and lets the starting seat move; it satisfies the invariant, and it is balanced when all hands are the same size |
| Sheepshead.AnyNonEmpty | sheepshead.py:37 | true exactly when some hand holds a card |
| Sheepshead.Game.IsFinished | sheepshead.py:36-37 | the game is over exactly when every hand is empty |
| Sheepshead.Game.CardConservation | sheepshead.py:66-78 | the hand sizes, plus the trick in progress, plus n cards per past trick, add up to the number of dealt cards |
| Sheepshead.CardCount | sheepshead.py:66-78 | the same count, stated on the values of the game's fields |
| Sheepshead.Game.GetRound | sheepshead.py:39-40 | the number of completed tricks; `RoundCountsPlayedCards` relates it to the cards played |
| Sheepshead.Game.RoundCountsPlayedCards | sheepshead.py:39-40 | the round is the number of cards played so far divided by the number of seats |
| Sheepshead.Game.GetScoresPerPlayer | sheepshead.py:42-47 | the loop gives each seat the points of exactly the tricks it won, and the seat scores add up to the points of all past tricks |
| Sheepshead.PlayerScoresTotal | sheepshead.py:42-47 | every past trick's points are counted for exactly one seat, so the seat scores sum to the points of all tricks |
| Sheepshead.SumIncrease | sheepshead.py:45 | adding v to one seat's score adds v to the total |
| Sheepshead.TickPointsOfCards | sheepshead.py:45 | the points of the past tricks are the points of the multiset of their cards |
| Sheepshead.Game.GetScoresPerTeam | sheepshead.py:49-53 | one score per team, in the mode's order; each is the sum of its seats' scores; when the teams split the seats, the team scores add up to all points taken |
| Sheepshead.TeamScoresTotal | sheepshead.py:49-53 | when every seat is in exactly one team, the team scores add up to the seat scores |
| Sheepshead.TeamScoresOfDisjoint | sheepshead.py:53 | the scores of teams with no seat in common add up to the score of their union |
| Sheepshead.TeamScoreUnion | sheepshead.py:53 | the score of two disjoint teams taken together is the sum of their scores |
| Sheepshead.TeamScoreEverySeat | sheepshead.py:53 | a team holding every seat scores the sum of all seat scores |
| Sheepshead.Game.PlayCard | sheepshead.py:58-80 | a card not in the mover's hand is refused as not yours; a card in the hand but not allowed by the mode is refused as not allowed; a refused play changes nothing; the play succeeds exactly when the card is allowed. A successful play removes exactly that card from the hand. If the trick is now full, it is recorded with its winner, the seat that played the winning card, and that seat moves next; otherwise the card joins the trick and the turn passes one seat on. The invariant, card conservation and balance are kept |
| Sheepshead.Game.TakeTrick | sheepshead.py:67-78 | the play that fills the trick: the card leaves the hand, the full trick goes to the past tricks with its winner, the trick empties, and the winner leads; the invariant and balance are kept |
| Sheepshead.Game.PassTurn | sheepshead.py:67-68 | the play that leaves the trick short: the card moves from the hand to the end of the trick, the past tricks stay as they were, and the turn passes to (seat + 1) mod n; the invariant and balance are kept |
| Sheepshead.CompleteTrickStep | sheepshead.py:71-78 | on the field values, a full trick keeps the invariant and balance, and the winner is the seat that played the winning card |
| Sheepshead.PassTurnStep | sheepshead.py:79-80 | on the field values, a play that leaves the trick short keeps the invariant and balance |
| Sheepshead.MoveCardToTrick | sheepshead.py:67-68 | moving the card from the hand to the trick keeps the multiset of cards in play and shrinks the hands by one card |
| Sheepshead.CollectTrickCards | sheepshead.py:76-77 | moving the full trick to the past tricks keeps the multiset of cards in play |
| Sheepshead.RotateAfterPass | sheepshead.py:80 | the next seat continues the rotation from the leader and has not played to the trick yet, so the hands stay balanced |
| Sheepshead.NextHasNotPlayed | sheepshead.py:80 | while the trick is not full, the seat after the mover has not yet played to it |
| Sheepshead.RotateAfterTrick | sheepshead.py:71-78 | the n cards of a full trick came from all n seats, so every hand shrank by one and the hands are balanced for whoever leads next |
| Sheepshead.Game.GetCurrentTurn | sheepshead.py:82-84 | the turn reports the round, the seat to move and its hand, and as allowed cards exactly the mode's legal plays of that hand on the current trick, the cards `PlayCard` accepts; they come from the hand and are non-empty when the hand is |
| Sheepshead.Game.GetGameResult | sheepshead.py:86-90 | the result is refused exactly when some hand still holds a card; otherwise it is the mode's payout of the team scores |
| Sheepshead.Game.Progress | sheepshead.py:58-64 | in a balanced game that is not over, the seat to move holds a card and may play one |
| Sheepshead.Game.FinishedTrickEmpty | sheepshead.py:36-37 | a balanced game ends between tricks |
| Sheepshead.Game.FinishedIffAllTricksTaken | sheepshead.py:36-40 | a balanced game is over exactly when n times the round equals the number of dealt cards |
| Sheepshead.Game.FinishedScoresAreDealtPoints | sheepshead.py:42-47 | at the end of a balanced game the seat scores add up to the points of all dealt cards |
| Sheepshead.Game.FinishedFullDealScores | sheepshead.py:42-47 | a balanced game dealt from hands that split the whole 32-card deck ends with seat scores adding up to every face's points once per suit |
| Sheepshead.DealtPoints | deck.py:24-26 | hands that split the whole 32-card deck between them hold every face's points once per suit |
| Sheepshead.HandsMultisetOfDisjoint | sheepshead.py:21 | the cards of pairwise disjoint hands are their union, each card counted once |
| Deck.CreateShuffledDeck | deck.py:15-21 | the deck has four cards per listed face, holds each card as often as its face is listed, is a permutation of the face-by-face, suit-by-suit construction order, and carries four times the points of the listed faces |
| Deck.DeckOrderCount | deck.py:17-19 | the construction order holds each card as often as its face is listed |
| Deck.CardsOfFaceCount | deck.py:18-19 | the inner loop over the suits produces each card of that face once per listed suit |
| Deck.SwapPermutes | deck.py:20 | a swap step of the shuffle keeps the multiset of cards |
| Deck.FacesExcept | deck.py:30 | the comprehension that drops the excluded faces never lengthens the list; `FacesExceptCount` states which faces it keeps and how often, and `ThreePlayerFaces` the resulting list for the three-player deck |
| Deck.FacesExceptCount | deck.py:30 | filtering keeps each face that is not excluded as often as it was listed, and drops the excluded ones |
| Deck.ThreePlayerFaces | deck.py:30 | the three-player faces are NEUN, ZEHN, UNTER, OBER, KOENIG and SAU, in that order |
| Deck.CreateShuffled4PlayerHands | deck.py:24-26 | four hands of eight cards, pairwise disjoint, that together hold every card |
| Deck.FourPlayerDeal | deck.py:26 | a 32-card deck holding each card once, sliced by eights, gives four disjoint hands of eight that cover every card |
| Deck.CreateShuffled3PlayerHands | deck.py:29-31 | three hands of eight cards, pairwise disjoint, that together hold exactly the cards whose face is neither SIEBEN nor ACHT |
| Deck.ThreePlayerDeal | deck.py:30-31 | a 24-card deck of the filtered faces, sliced by eights, gives three disjoint hands of eight that hold exactly the cards without SIEBEN or ACHT |
| Deck.DealPartition | deck.py:26 | cutting a deck of distinct cards into slices of eight gives slices of eight distinct cards, pairwise disjoint, whose union is the deck |
| Deck.CountScore | deck.py:34-35 | the sum of the face points, one term per card; its properties are stated by the lemmas below |
| Deck.CountScoreConcat | deck.py:34-35 | the points of two lists of cards put together are the sum of their points |
| Deck.CountScoreIsMultisetScore | deck.py:34-35 | the points of a list are the points of its multiset of cards |
| Deck.CountScorePermutation | deck.py:34-35 | the points of a list do not depend on the order of its cards |
| Deck.MultisetScoreAdditive | deck.py:34-35 | the points of two multisets of cards taken together add up |
| Deck.CardsOfFaceScore | deck.py:34-35 | the cards of one face, one per suit, carry that face's points once per suit |
| Deck.DeckOrderScore | deck.py:34-35 | the unshuffled deck carries each listed face's points once per suit |
| Deck.FullDeckScore | deck.py:34-35 | a collection holding every card exactly once carries each face's points once per suit |

## Left out

- The rule variants (`Sauspiel`, `BasicTrumpGame` in rules.py) are not part of this model. The game takes them as the `Mode` parameter. Only the four facts in `ModeContract` are assumed about them.
- card_types.py is not part of this model. Only four of the names occur in the modelled source: the suit EICHEL and the face SAU (sheepshead.py:97), and the faces SIEBEN and ACHT (deck.py:30). The other suit and face names, and the order of the suits and faces, are this model's own choice. The point table `CARD_SCORE` is the parameter `score`.
- The module-level random generator and `initialize_seed` (deck.py:7-12) are left out. The shuffle takes its random numbers as the parameter `draw`. Step i swaps position i with position `draw(i) % (i + 1)`, the shape of Python's `random.shuffle`. The exact sequence of positions Python's generator would produce is not modelled.
- Deck.CreateShuffledDeck: promises only a permutation of the construction order. Which permutation comes out depends on the generator's state, which is left out.
- The default arguments `starting_player=0` (sheepshead.py:19) and `faces=Face` (deck.py:15) are required arguments here.
- `create_cards` (deck.py:38-43) writes a Python source file. It is file output and is left out.
- `try_create_game`, `play_random_game`, the timing code and the printing entry point in sheepshead.py are drivers around the engine and are left out.
- `Turn.__str__` formats text for printing and is left out.
- Sheepshead.Game.constructor: requires a starting seat in range. Python would also accept a negative index, which picks a hand counted from the end. Such games are not modelled.
- Sheepshead.Game.PlayCard: the source raises an exception for either refusal. The model returns `Rejected(NotYourCard)` or `Rejected(NotAllowed)` and changes nothing. The messages are not modelled.
- Sheepshead.Game.GetGameResult: the source raises an exception while the game is not over. The model returns `NotOverYet`.
- `deepcopy` of the hands in the constructor is a value copy. Hands are set values, so no aliasing between the caller's hands and the game's is modelled. The hand a `Turn` reports is likewise a value, not the live set the source hands out.
- The in-place `remove` and `append` on the hand and the trick become reassignments of the `playerCards` and `currentTrick` fields.
- The `teams` property (sheepshead.py:32-34) only forwards `mode.teams`. The model reads `mode.teams` directly.
- Python integers are unbounded, as Dafny's are. Seats and winning positions are naturals, and `%` with the positive seat count agrees with Python's.
