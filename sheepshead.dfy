/** The trick-taking engine: a Game holds each seat's hand, the trick in
    progress and the completed tricks ("ticks"), checks and applies one card
    play at a time, rotates the turn, hands each full trick to its winner, and
    scores the tricks per seat and per team. The rule variant (which cards may
    be played, which card wins a trick, the teams, the final payout) is the
    game's Mode, a parameter of the model. */
module Sheepshead {
  import opened Cards
  import opened Deck
  import opened Seats

  /** A completed trick: its cards in play order and the seat that won it. */
  datatype Tick = Tick(cards: seq<Card>, scoringPlayer: nat)

  /** What the seat to move sees: the round number, its seat, its hand and
      the cards of that hand it may play. */
  datatype Turn = Turn(round: nat, player: nat, hand: set<Card>, allowedCards: set<Card>)

  /** The rule variant a game is played under. `allowedCards(trick, hand)`
      is the set of legal plays, `winningPosition(trick)` the index of the
      card that takes a full trick, `teams` the seats of each team, and
      `gameResult` the payout computed from the team scores. */
  datatype Mode = Mode(
    allowedCards: (seq<Card>, set<Card>) -> set<Card>,
    winningPosition: seq<Card> -> nat,
    teams: seq<set<nat>>,
    gameResult: seq<nat> -> seq<int>)

  /** What the engine relies on from a rule variant for n seats: legal plays
      come from the hand, a non-empty hand has a legal play, the winning
      position lies inside the trick, and teams name existing seats. */
  ghost predicate ModeContract(mode: Mode, numPlayers: nat)
  {
    && (forall trick, hand :: mode.allowedCards(trick, hand) <= hand)
    && (forall trick, hand :: hand != {} ==> mode.allowedCards(trick, hand) != {})
    && (forall trick :: trick != [] ==> mode.winningPosition(trick) < |trick|)
    && (forall i, p :: 0 <= i < |mode.teams| && p in mode.teams[i] ==> p < numPlayers)
  }

  /** Why a play is refused. */
  datatype PlayError = NotYourCard | NotAllowed

  datatype PlayOutcome = Played | Rejected(error: PlayError)

  /** The payout of a finished game, or the refusal to compute one early. */
  datatype GameResult = Payout(payout: seq<int>) | NotOverYet

  // ---------------------------------------------------------------------
  // Seat of the trick winner

  /** The seat that takes a full trick whose card at `winningPos` won, when
      `currentPlayer` played the last of the n cards: counting n - 1 - pos
      seats onward from the winner reaches the current player. */
  function ResolveTickWinner(numPlayers: nat, currentPlayer: int, winningPos: int): (r: nat)
    requires numPlayers > 0
    ensures r < numPlayers
    ensures (r + (numPlayers - 1 - winningPos)) % numPlayers == currentPlayer % numPlayers
  {
    var relative := winningPos - (numPlayers - 1);
    var winner := currentPlayer + relative;
    StepsOnward(winner, numPlayers - 1 - winningPos, currentPlayer, numPlayers);
    (winner + numPlayers) % numPlayers
  }

  /** When the current player sits n - 1 seats after the leader (it played
      the last card), the winner is the seat that played card `pos`. */
  lemma WinnerIsSeatOfPosition(numPlayers: nat, leader: nat, pos: nat)
    requires numPlayers > 0
    ensures ResolveTickWinner(numPlayers, (leader + (numPlayers - 1)) % numPlayers, pos)
         == (leader + pos) % numPlayers
  {
    var n := numPlayers;
    ModAddLeft(leader + (n - 1), pos - (n - 1) + n, n);
    ModPlusModulus(leader + pos, n);
  }

  /** A trick won by its last card goes to the player who played it. */
  lemma LastCardWinnerIsCurrent(numPlayers: nat, currentPlayer: nat)
    requires currentPlayer < numPlayers
    ensures ResolveTickWinner(numPlayers, currentPlayer, numPlayers - 1) == currentPlayer
  {
    ModPlusModulus(currentPlayer, numPlayers);
    ModOfSmall(currentPlayer, numPlayers);
  }

  // ---------------------------------------------------------------------
  // Card bookkeeping

  /** All cards of all hands, counted with multiplicity. */
  function HandsMultiset(hands: seq<set<Card>>): multiset<Card>
  {
    if hands == [] then multiset{}
    else HandsMultiset(hands[..|hands| - 1]) + multiset(hands[|hands| - 1])
  }

  /** All cards of all completed tricks. */
  function TicksMultiset(ticks: seq<Tick>): multiset<Card>
  {
    if ticks == [] then multiset{}
    else TicksMultiset(ticks[..|ticks| - 1]) + multiset(ticks[|ticks| - 1].cards)
  }

  function TotalHandSize(hands: seq<set<Card>>): nat
  {
    if hands == [] then 0 else TotalHandSize(hands[..|hands| - 1]) + |hands[|hands| - 1]|
  }

  /** Replacing one hand replaces its cards in the multiset of all hands. */
  lemma {:induction false} HandsMultisetUpdate(hands: seq<set<Card>>, i: nat, h: set<Card>)
    requires i < |hands|
    ensures HandsMultiset(hands[i := h]) + multiset(hands[i]) == HandsMultiset(hands) + multiset(h)
    ensures TotalHandSize(hands[i := h]) + |hands[i]| == TotalHandSize(hands) + |h|
    decreases |hands|
  {
    var last := |hands| - 1;
    var updated := hands[i := h];
    if i == last {
      assert updated[..last] == hands[..last];
    } else {
      var init := hands[..last];
      assert updated[..last] == init[i := h];
      assert init[i] == hands[i];
      HandsMultisetUpdate(init, i, h);
      calc {
        HandsMultiset(updated) + multiset(hands[i]);
        HandsMultiset(init[i := h]) + multiset(hands[last]) + multiset(init[i]);
        HandsMultiset(init[i := h]) + multiset(init[i]) + multiset(hands[last]);
        HandsMultiset(init) + multiset(h) + multiset(hands[last]);
        HandsMultiset(hands) + multiset(h);
      }
    }
  }

  lemma {:induction false} HandsMultisetSize(hands: seq<set<Card>>)
    ensures |HandsMultiset(hands)| == TotalHandSize(hands)
    decreases |hands|
  {
    if hands != [] {
      HandsMultisetSize(hands[..|hands| - 1]);
      SetMultisetSize(hands[|hands| - 1]);
    }
  }

  lemma SetMultisetSize(s: set<Card>)
    ensures |multiset(s)| == |s|
  {
  }

  /** The hands hold no card at all exactly when every hand is empty. */
  lemma {:induction false} TotalHandSizeZero(hands: seq<set<Card>>)
    ensures TotalHandSize(hands) == 0 <==> forall p :: 0 <= p < |hands| ==> hands[p] == {}
    ensures TotalHandSize(hands) == 0 ==> HandsMultiset(hands) == multiset{}
    decreases |hands|
  {
    if hands != [] {
      var init := hands[..|hands| - 1];
      TotalHandSizeZero(init);
      assert forall p :: 0 <= p < |init| ==> init[p] == hands[p];
    }
  }

  lemma {:induction false} TicksMultisetSize(ticks: seq<Tick>, n: nat)
    requires forall k :: 0 <= k < |ticks| ==> |ticks[k].cards| == n
    ensures |TicksMultiset(ticks)| == n * |ticks|
    decreases |ticks|
  {
    if ticks != [] {
      var init := ticks[..|ticks| - 1];
      assert forall k :: 0 <= k < |init| ==> init[k] == ticks[k];
      TicksMultisetSize(init, n);
      assert |TicksMultiset(ticks)| == |TicksMultiset(init)| + n;
      assert |ticks| == |init| + 1;
      MulSucc(n, |init|);
    }
  }

  lemma RemoveFromHand(hand: set<Card>, card: Card)
    requires card in hand
    ensures multiset(hand) == multiset(hand - {card}) + multiset{card}
    ensures |hand - {card}| == |hand| - 1
  {
  }

  // ---------------------------------------------------------------------
  // Scores

  function Sum(xs: seq<nat>): nat
  {
    if xs == [] then 0 else Sum(xs[..|xs| - 1]) + xs[|xs| - 1]
  }

  /** Adding v to one entry adds v to the sum. */
  lemma {:induction false} SumIncrease(xs: seq<nat>, i: nat, v: nat)
    requires i < |xs|
    ensures Sum(xs[i := xs[i] + v]) == Sum(xs) + v
    decreases |xs|
  {
    var last := |xs| - 1;
    var updated := xs[i := xs[i] + v];
    if i == last {
      assert updated[..last] == xs[..last];
    } else {
      assert updated[..last] == xs[..last][i := xs[i] + v];
      SumIncrease(xs[..last], i, v);
    }
  }

  /** Points in all completed tricks. */
  function TickPoints(ticks: seq<Tick>, score: ScoreTable): nat
  {
    if ticks == [] then 0
    else TickPoints(ticks[..|ticks| - 1], score) + CountScore(ticks[|ticks| - 1].cards, score)
  }

  /** Points in the tricks that seat p won. */
  function PointsWonBy(ticks: seq<Tick>, p: nat, score: ScoreTable): nat
  {
    if ticks == [] then 0
    else
      var last := ticks[|ticks| - 1];
      PointsWonBy(ticks[..|ticks| - 1], p, score)
        + (if last.scoringPlayer == p then CountScore(last.cards, score) else 0)
  }

  /** The score of every seat. */
  function PlayerScores(ticks: seq<Tick>, numPlayers: nat, score: ScoreTable): seq<nat>
  {
    seq(numPlayers, p requires 0 <= p => PointsWonBy(ticks, p, score))
  }

  /** Every completed trick's points go to exactly one seat: the seat scores
      add up to all points taken. */
  lemma {:induction false} PlayerScoresTotal(ticks: seq<Tick>, numPlayers: nat, score: ScoreTable)
    requires forall k :: 0 <= k < |ticks| ==> ticks[k].scoringPlayer < numPlayers
    ensures Sum(PlayerScores(ticks, numPlayers, score)) == TickPoints(ticks, score)
    decreases |ticks|
  {
    if ticks == [] {
      ZeroSum(PlayerScores(ticks, numPlayers, score));
    } else {
      var init := ticks[..|ticks| - 1];
      var last := ticks[|ticks| - 1];
      assert forall k :: 0 <= k < |init| ==> init[k] == ticks[k];
      PlayerScoresTotal(init, numPlayers, score);
      var before := PlayerScores(init, numPlayers, score);
      var w := last.scoringPlayer;
      assert PlayerScores(ticks, numPlayers, score) == before[w := before[w] + CountScore(last.cards, score)];
      SumIncrease(before, w, CountScore(last.cards, score));
    }
  }

  lemma {:induction false} ZeroSum(xs: seq<nat>)
    requires forall i :: 0 <= i < |xs| ==> xs[i] == 0
    ensures Sum(xs) == 0
    decreases |xs|
  {
    if xs != [] {
      ZeroSum(xs[..|xs| - 1]);
    }
  }

  /** The points of the completed tricks are the points of their cards. */
  lemma {:induction false} TickPointsOfCards(ticks: seq<Tick>, score: ScoreTable)
    ensures TickPoints(ticks, score) == MultisetScore(TicksMultiset(ticks), score)
    decreases |ticks|
  {
    if ticks == [] {
      CountScoreIsMultisetScore([], score);
    } else {
      var last := ticks[|ticks| - 1];
      TickPointsOfCards(ticks[..|ticks| - 1], score);
      CountScoreIsMultisetScore(last.cards, score);
      MultisetScoreAdditive(TicksMultiset(ticks[..|ticks| - 1]), multiset(last.cards), score);
    }
  }

  /** The points of the seats in `team`. */
  function TeamScore(scores: seq<nat>, team: set<nat>): nat
  {
    if scores == [] then 0
    else TeamScore(scores[..|scores| - 1], team) + (if |scores| - 1 in team then scores[|scores| - 1] else 0)
  }

  /** The points of each team, in the order the teams are listed. */
  function TeamScores(scores: seq<nat>, teams: seq<set<nat>>): (r: seq<nat>)
    ensures |r| == |teams|
  {
    seq(|teams|, i requires 0 <= i < |teams| => TeamScore(scores, teams[i]))
  }

  /** Every seat below n belongs to exactly one team. */
  ghost predicate IsPartition(teams: seq<set<nat>>, n: nat)
  {
    && (forall p :: 0 <= p < n ==> p in UnionOf(teams))
    && (forall i, j, p :: 0 <= i < j < |teams| && p in teams[i] ==> p !in teams[j])
  }

  lemma {:induction false} TeamScoreUnion(scores: seq<nat>, a: set<nat>, b: set<nat>)
    requires a !! b
    ensures TeamScore(scores, a + b) == TeamScore(scores, a) + TeamScore(scores, b)
    decreases |scores|
  {
    if scores != [] {
      TeamScoreUnion(scores[..|scores| - 1], a, b);
    }
  }

  lemma {:induction false} TeamScoreEverySeat(scores: seq<nat>, team: set<nat>)
    requires forall p :: 0 <= p < |scores| ==> p in team
    ensures TeamScore(scores, team) == Sum(scores)
    decreases |scores|
  {
    if scores != [] {
      TeamScoreEverySeat(scores[..|scores| - 1], team);
    }
  }

  lemma {:induction false} TeamScoresOfDisjoint(scores: seq<nat>, teams: seq<set<nat>>)
    requires forall i, j, p :: 0 <= i < j < |teams| && p in teams[i] ==> p !in teams[j]
    ensures Sum(TeamScores(scores, teams)) == TeamScore(scores, UnionOf(teams))
    decreases |teams|
  {
    if teams == [] {
      TeamScoreEmpty(scores);
    } else {
      var init := teams[..|teams| - 1];
      var last := teams[|teams| - 1];
      assert forall i :: 0 <= i < |init| ==> init[i] == teams[i];
      TeamScoresOfDisjoint(scores, init);
      assert TeamScores(scores, teams)[..|teams| - 1] == TeamScores(scores, init);
      assert UnionOf(init) !! last by {
        forall p | p in UnionOf(init)
          ensures p !in last
        {
          var i :| 0 <= i < |init| && p in init[i];
        }
      }
      assert UnionOf(teams) == UnionOf(init) + last;
      TeamScoreUnion(scores, UnionOf(init), last);
    }
  }

  lemma {:induction false} TeamScoreEmpty(scores: seq<nat>)
    ensures TeamScore(scores, {}) == 0
    decreases |scores|
  {
    if scores != [] {
      TeamScoreEmpty(scores[..|scores| - 1]);
    }
  }

  /** When the teams split the seats, the team scores add up to the seat
      scores. */
  lemma TeamScoresTotal(scores: seq<nat>, teams: seq<set<nat>>)
    ensures IsPartition(teams, |scores|) ==> Sum(TeamScores(scores, teams)) == Sum(scores)
  {
    if IsPartition(teams, |scores|) {
      TeamScoresOfDisjoint(scores, teams);
      TeamScoreEverySeat(scores, UnionOf(teams));
    }
  }

  // ---------------------------------------------------------------------
  // Dealt cards

  lemma {:induction false} HandsMultisetOfDisjoint(hands: seq<set<Card>>)
    requires forall i, j :: 0 <= i < j < |hands| ==> hands[i] !! hands[j]
    ensures HandsMultiset(hands) == multiset(UnionOf(hands))
    decreases |hands|
  {
    if hands != [] {
      var init := hands[..|hands| - 1];
      var last := hands[|hands| - 1];
      assert forall i :: 0 <= i < |init| ==> init[i] == hands[i];
      HandsMultisetOfDisjoint(init);
      assert UnionOf(init) !! last by {
        forall c | c in UnionOf(init)
          ensures c !in last
        {
          var i :| 0 <= i < |init| && c in init[i];
        }
      }
      assert UnionOf(hands) == UnionOf(init) + last;
      DisjointUnionMultiset(UnionOf(init), last);
    }
  }

  lemma DisjointUnionMultiset(a: set<Card>, b: set<Card>)
    requires a !! b
    ensures multiset(a + b) == multiset(a) + multiset(b)
  {
  }

  /** Hands that split the whole deck among themselves hold, together, the
      points of the whole deck: every face's points once per suit. */
  lemma DealtPoints(hands: seq<set<Card>>, score: ScoreTable)
    requires forall i, j :: 0 <= i < j < |hands| ==> hands[i] !! hands[j]
    requires forall c: Card :: c in UnionOf(hands)
    ensures MultisetScore(HandsMultiset(hands), score) == |AllSuits| * FaceTotal(AllFaces, score)
  {
    HandsMultisetOfDisjoint(hands);
    FullDeckScore(multiset(UnionOf(hands)), score);
  }

  // ---------------------------------------------------------------------
  // The game

  class Game {
    const mode: Mode
    const numPlayers: nat
    var playerCards: seq<set<Card>>
    var pastTicks: seq<Tick>
    var currentTrick: seq<Card>
    var currentPlayer: nat

    /** The seat that led the trick in progress. */
    ghost var leader: nat
    /** The seats that played the cards of the trick in progress, in order. */
    ghost var trickSeats: seq<nat>
    /** Every card the game was dealt. */
    ghost const dealt: multiset<Card>

    /** The invariant of a game between plays. The turn rotates from the
        leader one seat per card, and no card is created or lost: the dealt
        cards are exactly those in the hands, the trick and the past tricks. */
    ghost predicate Valid()
      reads this
    {
      GameInvariant(mode, numPlayers, playerCards, pastTicks, currentTrick, currentPlayer, leader, trickSeats, dealt)
    }

    /** The seats that played to the trick in progress hold one card fewer
        than the rest: what holds when all hands were dealt the same size. */
    ghost predicate Balanced()
      reads this
    {
      BalancedHands(playerCards, trickSeats, currentPlayer)
    }

    /** A new game on (a copy of) the dealt hands, `startingPlayer` to lead. */
    constructor (mode: Mode, playerCards: seq<set<Card>>, startingPlayer: nat)
      requires startingPlayer < |playerCards|
      requires ModeContract(mode, |playerCards|)
      ensures Valid()
      ensures this.mode == mode && numPlayers == |playerCards|
      ensures this.playerCards == playerCards && pastTicks == [] && currentTrick == []
      ensures currentPlayer == startingPlayer
      ensures dealt == HandsMultiset(playerCards)
      ensures (forall p :: 0 <= p < |playerCards| ==> |playerCards[p]| == |playerCards[startingPlayer]|)
              ==> Balanced()
    {
      this.mode := mode;
      this.playerCards := playerCards;
      numPlayers := |playerCards|;
      pastTicks := [];
      currentTrick := [];
      currentPlayer := startingPlayer;
      leader := startingPlayer;
      trickSeats := [];
      dealt := HandsMultiset(playerCards);
      ModOfSmall(startingPlayer, |playerCards|);
    }

    /** The game is over when no hand holds a card. */
    function IsFinished(): (b: bool)
      reads this
      ensures b <==> forall p :: 0 <= p < |playerCards| ==> playerCards[p] == {}
    {
      !AnyNonEmpty(playerCards)
    }

    /** The number of completed tricks. */
    function GetRound(): (round: nat)
      reads this
    {
      |pastTicks|
    }

    /** The dealt cards are all in the hands, the trick, or n to a past trick. */
    lemma CardConservation()
      requires Valid()
      ensures TotalHandSize(playerCards) + |currentTrick| + numPlayers * |pastTicks| == |dealt|
    {
      CardCount(numPlayers, playerCards, pastTicks, currentTrick, currentPlayer, leader, trickSeats, dealt);
    }

    /** The round is the number of cards played so far, divided by the
        number of seats. */
    lemma RoundCountsPlayedCards()
      requires Valid()
      ensures TotalHandSize(playerCards) <= |dealt|
      ensures GetRound() == (|dealt| - TotalHandSize(playerCards)) / numPlayers
    {
      CardConservation();
      DivModUnique(|dealt| - TotalHandSize(playerCards), numPlayers, |pastTicks|, |currentTrick|);
    }

    /** The seat scores, one entry per seat. */
    method GetScoresPerPlayer(score: ScoreTable) returns (scores: seq<nat>)
      requires Valid()
      ensures scores == PlayerScores(pastTicks, numPlayers, score)
      ensures Sum(scores) == TickPoints(pastTicks, score)
    {
      scores := seq(numPlayers, p => 0);
      for i := 0 to |pastTicks|
        invariant |scores| == numPlayers
        invariant forall p :: 0 <= p < numPlayers ==> scores[p] == PointsWonBy(pastTicks[..i], p, score)
      {
        var tick := pastTicks[i];
        assert pastTicks[..i + 1][..i] == pastTicks[..i];
        scores := scores[tick.scoringPlayer := scores[tick.scoringPlayer] + CountScore(tick.cards, score)];
      }
      assert pastTicks[..|pastTicks|] == pastTicks;
      PlayerScoresTotal(pastTicks, numPlayers, score);
    }

    /** The team scores, one entry per team of the mode. When the teams split
        the seats they share out all points taken. */
    function GetScoresPerTeam(score: ScoreTable): (r: seq<nat>)
      reads this
      requires Valid()
      ensures |r| == |mode.teams|
      ensures forall i :: 0 <= i < |r| ==> r[i] == TeamScore(PlayerScores(pastTicks, numPlayers, score), mode.teams[i])
      ensures IsPartition(mode.teams, numPlayers) ==> Sum(r) == TickPoints(pastTicks, score)
    {
      var scores := PlayerScores(pastTicks, numPlayers, score);
      PlayerScoresTotal(pastTicks, numPlayers, score);
      TeamScoresTotal(scores, mode.teams);
      TeamScores(scores, mode.teams)
    }

    /** Plays `card` for the seat to move. A card not in that hand, or not
        allowed by the mode, is refused and nothing changes. Otherwise the
        card moves from the hand to the trick; a full trick goes to its
        winner, who leads next; otherwise the turn passes one seat on. */
    method PlayCard(card: Card) returns (outcome: PlayOutcome)
      requires Valid()
      modifies this
      ensures Valid()
      ensures card !in old(playerCards[currentPlayer]) ==> outcome == Rejected(NotYourCard)
      ensures card in old(playerCards[currentPlayer])
              && card !in old(mode.allowedCards(currentTrick, playerCards[currentPlayer]))
              ==> outcome == Rejected(NotAllowed)
      ensures outcome == Played <==>
              card in old(mode.allowedCards(currentTrick, playerCards[currentPlayer]))
      ensures outcome.Rejected? ==> unchanged(this)
      ensures outcome == Played ==>
              playerCards == old(playerCards)[old(currentPlayer) := old(playerCards[currentPlayer]) - {card}]
      ensures outcome == Played && old(|currentTrick|) < numPlayers - 1 ==>
              && currentTrick == old(currentTrick) + [card]
              && pastTicks == old(pastTicks)
              && currentPlayer == (old(currentPlayer) + 1) % numPlayers
      ensures outcome == Played && old(|currentTrick|) == numPlayers - 1 ==>
              var trick := old(currentTrick) + [card];
              var winner := ResolveTickWinner(numPlayers, old(currentPlayer), mode.winningPosition(trick));
              && pastTicks == old(pastTicks) + [Tick(trick, winner)]
              && currentTrick == []
              && currentPlayer == winner
              && winner == (old(trickSeats) + [old(currentPlayer)])[mode.winningPosition(trick)]
      ensures TotalHandSize(playerCards) + |currentTrick| + numPlayers * |pastTicks|
              == old(TotalHandSize(playerCards) + |currentTrick| + numPlayers * |pastTicks|)
      ensures old(Balanced()) ==> Balanced()
    {
      var hand := playerCards[currentPlayer];
      if card !in hand {
        return Rejected(NotYourCard);
      }
      if card !in mode.allowedCards(currentTrick, hand) {
        return Rejected(NotAllowed);
      }
      if |currentTrick| + 1 == numPlayers {
        TakeTrick(card);
      } else {
        PassTurn(card);
      }
      outcome := Played;
    }

    /** The play that completes the trick: the card leaves the hand, the full
        trick is recorded with the seat that played its winning card, and
        that seat leads next. */
    method TakeTrick(card: Card)
      requires Valid() && card in playerCards[currentPlayer] && |currentTrick| + 1 == numPlayers
      modifies this
      ensures Valid()
      ensures playerCards == old(playerCards)[old(currentPlayer) := old(playerCards[currentPlayer]) - {card}]
      ensures var trick := old(currentTrick) + [card];
              var winner := ResolveTickWinner(numPlayers, old(currentPlayer), mode.winningPosition(trick));
              && pastTicks == old(pastTicks) + [Tick(trick, winner)]
              && currentTrick == []
              && currentPlayer == winner
              && winner == (old(trickSeats) + [old(currentPlayer)])[mode.winningPosition(trick)]
      ensures TotalHandSize(playerCards) + |currentTrick| + numPlayers * |pastTicks|
              == old(TotalHandSize(playerCards) + |currentTrick| + numPlayers * |pastTicks|)
      ensures old(Balanced()) ==> Balanced()
    {
      CompleteTrickStep(mode, numPlayers, playerCards, pastTicks, currentTrick, currentPlayer, leader, trickSeats, dealt, card);
      playerCards := playerCards[currentPlayer := playerCards[currentPlayer] - {card}];
      currentTrick := currentTrick + [card];
      var winningPos := mode.winningPosition(currentTrick);
      var winningPlayer := ResolveTickWinner(numPlayers, currentPlayer, winningPos);
      pastTicks := pastTicks + [Tick(currentTrick, winningPlayer)];
      currentTrick := [];
      currentPlayer := winningPlayer;
      leader := winningPlayer;
      trickSeats := [];
    }

    /** A play that leaves the trick short of full: the card moves from the
        hand to the trick and the turn passes one seat on. */
    method PassTurn(card: Card)
      requires Valid() && card in playerCards[currentPlayer] && |currentTrick| + 1 < numPlayers
      modifies this
      ensures Valid()
      ensures playerCards == old(playerCards)[old(currentPlayer) := old(playerCards[currentPlayer]) - {card}]
      ensures currentTrick == old(currentTrick) + [card]
      ensures pastTicks == old(pastTicks)
      ensures currentPlayer == (old(currentPlayer) + 1) % numPlayers
      ensures TotalHandSize(playerCards) + |currentTrick| + numPlayers * |pastTicks|
              == old(TotalHandSize(playerCards) + |currentTrick| + numPlayers * |pastTicks|)
      ensures old(Balanced()) ==> Balanced()
    {
      PassTurnStep(mode, numPlayers, playerCards, pastTicks, currentTrick, currentPlayer, leader, trickSeats, dealt, card);
      playerCards := playerCards[currentPlayer := playerCards[currentPlayer] - {card}];
      currentTrick := currentTrick + [card];
      trickSeats := trickSeats + [currentPlayer];
      currentPlayer := (currentPlayer + 1) % numPlayers;
    }

    /** What the seat to move sees. */
    function GetCurrentTurn(): (turn: Turn)
      reads this
      requires Valid()
      ensures turn.round == GetRound() && turn.player == currentPlayer
      ensures turn.hand == playerCards[currentPlayer]
      ensures turn.allowedCards == mode.allowedCards(currentTrick, playerCards[currentPlayer])
      ensures turn.allowedCards <= turn.hand
      ensures turn.hand != {} ==> turn.allowedCards != {}
    {
      var hand := playerCards[currentPlayer];
      Turn(GetRound(), currentPlayer, hand, mode.allowedCards(currentTrick, hand))
    }

    /** The payout of a finished game; refused while any hand holds a card. */
    function GetGameResult(score: ScoreTable): (r: GameResult)
      reads this
      requires Valid()
      ensures r == NotOverYet <==> exists p :: 0 <= p < numPlayers && playerCards[p] != {}
      ensures r.Payout? ==> r.payout == mode.gameResult(GetScoresPerTeam(score))
    {
      if IsFinished() then Payout(mode.gameResult(GetScoresPerTeam(score))) else NotOverYet
    }

    /** A balanced game that is not over can always go on: the seat to move
        holds a card and may play one. */
    lemma Progress()
      requires Valid() && Balanced() && !IsFinished()
      ensures playerCards[currentPlayer] != {}
      ensures GetCurrentTurn().allowedCards != {}
    {
    }

    /** A balanced game ends between tricks. */
    lemma FinishedTrickEmpty()
      requires Valid() && Balanced() && IsFinished()
      ensures currentTrick == []
    {
      SomeoneHasPlayed(playerCards, trickSeats, leader, currentPlayer);
    }

    /** A balanced game is over exactly when every dealt card lies in a
        completed trick. */
    lemma FinishedIffAllTricksTaken()
      requires Valid() && Balanced()
      ensures IsFinished() <==> numPlayers * GetRound() == |dealt|
    {
      CardConservation();
      TotalHandSizeZero(playerCards);
      if IsFinished() {
        FinishedTrickEmpty();
      }
    }

    /** At the end of a balanced game the seat scores add up to the points of
        every dealt card. */
    lemma FinishedScoresAreDealtPoints(score: ScoreTable)
      requires Valid() && Balanced() && IsFinished()
      ensures Sum(PlayerScores(pastTicks, numPlayers, score)) == MultisetScore(dealt, score)
    {
      FinishedTrickEmpty();
      TotalHandSizeZero(playerCards);
      assert TicksMultiset(pastTicks) == dealt;
      PlayerScoresTotal(pastTicks, numPlayers, score);
      TickPointsOfCards(pastTicks, score);
    }

    /** A balanced game dealt from hands that split the whole 32-card deck
        ends with seat scores adding up to every face's points once per suit. */
    lemma FinishedFullDealScores(hands: seq<set<Card>>, score: ScoreTable)
      requires Valid() && Balanced() && IsFinished()
      requires dealt == HandsMultiset(hands)
      requires forall i, j :: 0 <= i < j < |hands| ==> hands[i] !! hands[j]
      requires forall c: Card :: c in UnionOf(hands)
      ensures Sum(PlayerScores(pastTicks, numPlayers, score)) == |AllSuits| * FaceTotal(AllFaces, score)
    {
      FinishedScoresAreDealtPoints(score);
      DealtPoints(hands, score);
    }
  }

  /** Whether some hand holds a card. */
  function AnyNonEmpty(hands: seq<set<Card>>): (b: bool)
    ensures b <==> exists p :: 0 <= p < |hands| && hands[p] != {}
  {
    if hands == [] then false else hands[0] != {} || AnyNonEmpty(hands[1..])
  }

  /** The invariant of a game between plays, on the values of its fields:
      the rule variant keeps its contract, the seating is consistent and
      every dealt card is accounted for. */
  ghost predicate GameInvariant(mode: Mode, n: nat, hands: seq<set<Card>>, ticks: seq<Tick>, trick: seq<Card>,
                                currentPlayer: nat, leader: nat, seats: seq<nat>, dealt: multiset<Card>)
  {
    && ModeContract(mode, n)
    && SeatsValid(n, hands, ticks, trick, currentPlayer, leader, seats)
    && CardsAccounted(hands, trick, ticks, dealt)
  }

  /** The seating between plays: n hands, the seat to move and the leader
      are seats, the trick in progress is not full and was played in
      rotation from the leader, and each past trick holds n cards and went to
      a seat. */
  ghost predicate SeatsValid(n: nat, hands: seq<set<Card>>, ticks: seq<Tick>, trick: seq<Card>,
                             currentPlayer: nat, leader: nat, seats: seq<nat>)
  {
    && |hands| == n
    && currentPlayer < n
    && |trick| < n
    && (forall k :: 0 <= k < |ticks| ==> |ticks[k].cards| == n && ticks[k].scoringPlayer < n)
    && leader < n
    && |seats| == |trick|
    && Rotation(seats, leader, n)
    && currentPlayer == (leader + |trick|) % n
  }

  /** No card is created or lost: the dealt cards are exactly those in the
      hands, the trick in progress and the past tricks. */
  ghost predicate CardsAccounted(hands: seq<set<Card>>, trick: seq<Card>, ticks: seq<Tick>, dealt: multiset<Card>)
  {
    forall c :: InPlay(hands, trick, ticks)[c] == dealt[c]
  }

  /** The cards in the hands, the trick in progress and the past tricks. */
  ghost function InPlay(hands: seq<set<Card>>, trick: seq<Card>, ticks: seq<Tick>): multiset<Card>
  {
    HandsMultiset(hands) + multiset(trick) + TicksMultiset(ticks)
  }

  /** Counting the accounted cards: the hand sizes, the trick and n per past trick. */
  lemma CardCount(n: nat, hands: seq<set<Card>>, ticks: seq<Tick>, trick: seq<Card>,
                  currentPlayer: nat, leader: nat, seats: seq<nat>, dealt: multiset<Card>)
    requires SeatsValid(n, hands, ticks, trick, currentPlayer, leader, seats)
    requires CardsAccounted(hands, trick, ticks, dealt)
    ensures TotalHandSize(hands) + |trick| + n * |ticks| == |dealt|
  {
    assert InPlay(hands, trick, ticks) == dealt;
    HandsMultisetSize(hands);
    TicksMultisetSize(ticks, n);
  }

  /** A play that leaves the trick short of full keeps the invariant and the
      balance of the hands; the turn passes one seat on. */
  lemma PassTurnStep(mode: Mode, n: nat, hands: seq<set<Card>>, ticks: seq<Tick>, trick: seq<Card>,
                     currentPlayer: nat, leader: nat, seats: seq<nat>, dealt: multiset<Card>, card: Card)
    requires GameInvariant(mode, n, hands, ticks, trick, currentPlayer, leader, seats, dealt)
    requires card in hands[currentPlayer] && |trick| + 1 < n
    ensures var after := hands[currentPlayer := hands[currentPlayer] - {card}];
      && GameInvariant(mode, n, after, ticks, trick + [card], (currentPlayer + 1) % n, leader, seats + [currentPlayer], dealt)
      && TotalHandSize(after) + |trick + [card]| + n * |ticks| == TotalHandSize(hands) + |trick| + n * |ticks|
      && (BalancedHands(hands, seats, currentPlayer) ==>
            BalancedHands(after, seats + [currentPlayer], (currentPlayer + 1) % n))
  {
    MoveCardToTrick(hands, currentPlayer, trick, ticks, card);
    RotateAfterPass(hands, seats, leader, card);
  }

  /** The play that fills the trick: the trick goes, as a past tick, to the
      seat that played its winning card, who leads next; the invariant and
      the balance of the hands are kept. */
  lemma CompleteTrickStep(mode: Mode, n: nat, hands: seq<set<Card>>, ticks: seq<Tick>, trick: seq<Card>,
                          currentPlayer: nat, leader: nat, seats: seq<nat>, dealt: multiset<Card>, card: Card)
    requires GameInvariant(mode, n, hands, ticks, trick, currentPlayer, leader, seats, dealt)
    requires card in hands[currentPlayer] && |trick| + 1 == n
    ensures var after := hands[currentPlayer := hands[currentPlayer] - {card}];
      var full := trick + [card];
      var winner := ResolveTickWinner(n, currentPlayer, mode.winningPosition(full));
      && mode.winningPosition(full) < n
      && winner == (seats + [currentPlayer])[mode.winningPosition(full)]
      && GameInvariant(mode, n, after, ticks + [Tick(full, winner)], [], winner, winner, [], dealt)
      && TotalHandSize(after) + 0 + n * |ticks + [Tick(full, winner)]| == TotalHandSize(hands) + |trick| + n * |ticks|
      && (BalancedHands(hands, seats, currentPlayer) ==> BalancedHands(after, [], winner))
  {
    var after := hands[currentPlayer := hands[currentPlayer] - {card}];
    var full := trick + [card];
    var pos := mode.winningPosition(full);
    var winner := ResolveTickWinner(n, currentPlayer, pos);
    WinnerIsSeatOfPosition(n, leader, pos);
    RotateAfterTrick(hands, seats, leader, card, winner);
    TakeTrickCards(hands, currentPlayer, trick, ticks, dealt, card, winner);
    ModOfSmall(winner, n);
    assert |ticks + [Tick(full, winner)]| == |ticks| + 1;
    MulSucc(n, |ticks|);
  }

  /** The full trick leaves the hands and the trick in progress for the past
      ticks: the dealt cards stay accounted for and the hands lose one card. */
  lemma TakeTrickCards(hands: seq<set<Card>>, i: nat, trick: seq<Card>, ticks: seq<Tick>,
                       dealt: multiset<Card>, card: Card, winner: nat)
    requires i < |hands| && card in hands[i]
    requires CardsAccounted(hands, trick, ticks, dealt)
    ensures CardsAccounted(hands[i := hands[i] - {card}], [], ticks + [Tick(trick + [card], winner)], dealt)
    ensures TotalHandSize(hands[i := hands[i] - {card}]) + 1 == TotalHandSize(hands)
  {
    MoveCardToTrick(hands, i, trick, ticks, card);
    CollectTrickCards(hands[i := hands[i] - {card}], trick + [card], ticks, winner);
  }

  /** Card i of the trick in progress was played by the seat i places after
      the leader. */
  ghost predicate Rotation(seats: seq<nat>, leader: nat, n: nat)
  {
    n > 0 && forall i :: 0 <= i < |seats| ==> seats[i] == (leader + i) % n
  }

  /** Every seat that has played to the trick holds one card fewer than the
      seat to move, every other seat as many. */
  ghost predicate BalancedHands(hands: seq<set<Card>>, seats: seq<nat>, currentPlayer: nat)
  {
    && currentPlayer < |hands|
    && forall p :: 0 <= p < |hands| ==>
         |hands[p]| + (if p in seats then 1 else 0) == |hands[currentPlayer]|
  }

  /** Moving a card from a hand to the trick keeps the set of cards in play. */
  lemma MoveCardToTrick(hands: seq<set<Card>>, i: nat, trick: seq<Card>, ticks: seq<Tick>, card: Card)
    requires i < |hands| && card in hands[i]
    ensures InPlay(hands[i := hands[i] - {card}], trick + [card], ticks) == InPlay(hands, trick, ticks)
    ensures TotalHandSize(hands[i := hands[i] - {card}]) + 1 == TotalHandSize(hands)
  {
    var after := hands[i := hands[i] - {card}];
    HandsMultisetUpdate(hands, i, hands[i] - {card});
    RemoveFromHand(hands[i], card);
    assert multiset(trick + [card]) == multiset(trick) + multiset{card};
    forall c: Card | true
      ensures (HandsMultiset(after) + multiset{card})[c] == HandsMultiset(hands)[c]
    {
      assert (HandsMultiset(after) + multiset(hands[i]))[c] == (HandsMultiset(hands) + multiset(hands[i] - {card}))[c];
    }
    assert HandsMultiset(after) + multiset{card} == HandsMultiset(hands);
  }

  /** Recording the full trick as a past tick keeps the set of cards in play. */
  lemma CollectTrickCards(hands: seq<set<Card>>, trick: seq<Card>, ticks: seq<Tick>, winner: nat)
    ensures InPlay(hands, [], ticks + [Tick(trick, winner)]) == InPlay(hands, trick, ticks)
  {
  }

  /** A card played to a trick that is not yet full: the next seat is one on
      in the rotation and has not played yet, and the hands stay balanced. */
  lemma RotateAfterPass(hands: seq<set<Card>>, seats: seq<nat>, leader: nat, card: Card)
    requires |seats| + 1 < |hands| && Rotation(seats, leader, |hands|)
    requires card in hands[(leader + |seats|) % |hands|]
    ensures var n, cp := |hands|, (leader + |seats|) % |hands|;
      && Rotation(seats + [cp], leader, n)
      && (cp + 1) % n == (leader + |seats + [cp]|) % n
      && (BalancedHands(hands, seats, cp) ==>
            BalancedHands(hands[cp := hands[cp] - {card}], seats + [cp], (cp + 1) % n))
  {
    var n, cp := |hands|, (leader + |seats|) % |hands|;
    RotationExtends(seats, leader, n);
    NextHasNotPlayed(seats, leader, n);
    if BalancedHands(hands, seats, cp) {
      BalancedAfterPass(hands, seats, cp, (cp + 1) % n, card);
    }
  }

  /** The seat to move continues the rotation from the leader. */
  lemma RotationExtends(seats: seq<nat>, leader: nat, n: nat)
    requires Rotation(seats, leader, n)
    ensures Rotation(seats + [(leader + |seats|) % n], leader, n)
  {
  }

  /** While the trick is not full, the seat after the one to move is new to
      it: it is one step further on than every seat that has played. */
  lemma NextHasNotPlayed(seats: seq<nat>, leader: nat, n: nat)
    requires |seats| + 1 < n && Rotation(seats, leader, n)
    ensures var cp := (leader + |seats|) % n;
      && (cp + 1) % n == (leader + |seats| + 1) % n
      && forall i :: 0 <= i < |seats + [cp]| ==> (seats + [cp])[i] != (cp + 1) % n
  {
    var t := |seats|;
    var cp := (leader + t) % n;
    ModAddLeft(leader + t, 1, n);
    var played := seats + [cp];
    forall i | 0 <= i < |played|
      ensures played[i] != (cp + 1) % n
    {
      if i < t {
        assert played[i] == seats[i];
      }
      StepsDistinct(n, leader, i, t + 1);
    }
  }

  lemma BalancedAfterPass(hands: seq<set<Card>>, seats: seq<nat>, cp: nat, next: nat, card: Card)
    requires cp < |hands| && next < |hands| && card in hands[cp]
    requires forall i :: 0 <= i < |seats + [cp]| ==> (seats + [cp])[i] != next
    requires BalancedHands(hands, seats, cp)
    ensures BalancedHands(hands[cp := hands[cp] - {card}], seats + [cp], next)
  {
    assert next !in seats + [cp];
    var after := hands[cp := hands[cp] - {card}];
    assert |after[next]| == |hands[cp]|;
    forall p | 0 <= p < |after|
      ensures |after[p]| + (if p in seats + [cp] then 1 else 0) == |after[next]|
    {
      assert (p in seats + [cp]) == (p in seats || p == cp);
    }
  }

  /** While a trick is in progress its leader has played and so the seat to
      move, balanced against it, still holds a card. */
  lemma SomeoneHasPlayed(hands: seq<set<Card>>, seats: seq<nat>, leader: nat, cp: nat)
    requires cp < |hands| && Rotation(seats, leader, |hands|) && BalancedHands(hands, seats, cp)
    ensures seats != [] ==> |hands[cp]| >= 1
  {
    if seats != [] {
      assert seats[0] in seats;
    }
  }

  /** The n-th card of a trick: the n seats from the leader are all seats,
      so every hand is one card shorter than before the trick began and the
      hands are balanced for whoever leads next. */
  lemma RotateAfterTrick(hands: seq<set<Card>>, seats: seq<nat>, leader: nat, card: Card, winner: nat)
    requires |seats| + 1 == |hands| && Rotation(seats, leader, |hands|)
    requires card in hands[(leader + |seats|) % |hands|]
    requires winner < |hands|
    ensures var n, cp := |hands|, (leader + |seats|) % |hands|;
      && Rotation(seats + [cp], leader, n)
      && (BalancedHands(hands, seats, cp) ==> BalancedHands(hands[cp := hands[cp] - {card}], [], winner))
  {
    var n, cp := |hands|, (leader + |seats|) % |hands|;
    forall p | 0 <= p < n
      ensures p == cp || p in seats
    {
      StepsTo(n, leader, p);
      var i := (p - leader) % n;
      if i < |seats| {
        assert seats[i] == p;
      }
    }
  }
}
