/** The state of one dice game and the rules that change it: the turn check,
    a roll, a hold and a reset, each a function from the game before to the
    game after. `GameEngine.GameService` applies them to its map of games. */
module Game {
  import opened Wrappers

  /** The default threshold of `createGame`. */
  const DefaultWinningScore: int := 100

  /** `waiting` is part of the status type but no operation produces it. */
  datatype Status = Waiting | Active | Finished

  /** One seat of a game: `id` is the seat's own identifier, `userId` the
      account that occupies it. */
  datatype Player = Player(id: string, userId: string, username: string)

  datatype GameState = GameState(
    id: string,
    player1: Player,
    player2: Player,
    currentPlayerId: string,
    player1Score: int,
    player2Score: int,
    player1RoundScore: int,
    player2RoundScore: int,
    winningScore: int,
    status: Status,
    winnerId: Option<string>,
    createdAt: int,
    updatedAt: int)

  datatype DiceRoll = DiceRoll(die1: int, die2: int, timestamp: int)

  datatype RollDiceResponse =
    RollDiceResponse(dice: DiceRoll, roundScore: int, isDoubleSix: bool, gameState: GameState)

  /** `winnerId` here is the winner's account, not the winner's seat. */
  datatype HoldResponse = HoldResponse(gameState: GameState, isGameOver: bool, winnerId: Option<string>)

  /** The errors the engine throws: "Game not found", "Game is not active",
      "Not your turn" and "You are not part of this game". */
  datatype GameError = GameNotFound | GameNotActive | NotYourTurn | NotPartOfGame

  // ---------------------------------------------------------------------
  // Seats

  datatype Slot = First | Second

  function Other(s: Slot): Slot
  {
    if s == First then Second else First
  }

  /** The seat whose turn it is: player1 when `currentPlayerId` is player1's
      id, player2 in every other case. */
  function CurrentSlot(g: GameState): Slot
  {
    if g.currentPlayerId == g.player1.id then First else Second
  }

  function PlayerAt(g: GameState, s: Slot): Player
  {
    if s == First then g.player1 else g.player2
  }

  function RoundOf(g: GameState, s: Slot): int
  {
    if s == First then g.player1RoundScore else g.player2RoundScore
  }

  function BankOf(g: GameState, s: Slot): int
  {
    if s == First then g.player1Score else g.player2Score
  }

  predicate IsDie(d: int)
  {
    1 <= d <= 6
  }

  /** The account `userId` occupies one of the two seats. */
  predicate HasUser(g: GameState, userId: string)
  {
    g.player1.userId == userId || g.player2.userId == userId
  }

  // ---------------------------------------------------------------------
  // Invariant

  /** What holds of every game the engine ever stores. */
  predicate ValidGame(g: GameState)
  {
    (g.currentPlayerId == g.player1.id || g.currentPlayerId == g.player2.id) &&
    g.player1Score >= 0 && g.player2Score >= 0 &&
    g.player1RoundScore >= 0 && g.player2RoundScore >= 0 &&
    // only the seat whose turn it is can have an unbanked round score
    RoundOf(g, Other(CurrentSlot(g))) == 0 &&
    g.status != Waiting &&
    (g.winnerId.Some? <==> g.status == Finished) &&
    (g.winnerId.Some? ==> g.winnerId.value == g.player1.id || g.winnerId.value == g.player2.id) &&
    (g.status == Finished ==>
       g.player1RoundScore == 0 && g.player2RoundScore == 0 &&
       (g.player1Score >= g.winningScore || g.player2Score >= g.winningScore))
  }

  /** While the game is active nobody has reached the threshold yet. This
      holds from any creation or reset with a positive threshold on. */
  predicate BelowThreshold(g: GameState)
  {
    g.status == Active ==> g.player1Score < g.winningScore && g.player2Score < g.winningScore
  }

  // ---------------------------------------------------------------------
  // Transitions

  /** The record `createGame` stores. */
  function InitialGame(gameId: string, player1: Player, player2: Player, winningScore: int, now: int): (g: GameState)
    ensures ValidGame(g)
    ensures winningScore > 0 ==> BelowThreshold(g)
    ensures g.id == gameId && g.player1 == player1 && g.player2 == player2
    ensures g.status == Active && g.winnerId == None && CurrentSlot(g) == First
    ensures forall s :: BankOf(g, s) == 0 && RoundOf(g, s) == 0
    ensures g.winningScore == winningScore
  {
    GameState(gameId, player1, player2, player1.id, 0, 0, 0, 0, winningScore, Active, None, now, now)
  }

  /** Why a roll or hold by `userId` is refused, checked in the source's
      order; `None` when it is allowed. */
  function TurnError(g: GameState, userId: string): (e: Option<GameError>)
    ensures e == Some(GameNotActive) <==> g.status != Active
    ensures e == Some(NotYourTurn) <==> g.status == Active && PlayerAt(g, CurrentSlot(g)).userId != userId
    ensures e == None <==> g.status == Active && PlayerAt(g, CurrentSlot(g)).userId == userId
  {
    if g.status != Active then Some(GameNotActive)
    else if PlayerAt(g, CurrentSlot(g)).userId != userId then Some(NotYourTurn)
    else None
  }

  /** The checks that open `rollDice` and `hold`. */
  function CheckTurn(games: map<string, GameState>, gameId: string, userId: string): (r: Result<GameState, GameError>)
    ensures r == Failure(GameNotFound) <==> gameId !in games
    ensures r == Failure(GameNotActive) <==> gameId in games && games[gameId].status != Active
    ensures r == Failure(NotYourTurn) <==>
      gameId in games && games[gameId].status == Active &&
      (if games[gameId].currentPlayerId == games[gameId].player1.id
       then games[gameId].player1 else games[gameId].player2).userId != userId
    ensures r.Success? <==> gameId in games && TurnError(games[gameId], userId) == None
    ensures r.Success? ==> gameId in games && r.value == games[gameId]
  {
    if gameId !in games then Failure(GameNotFound)
    else match TurnError(games[gameId], userId)
      case Some(e) => Failure(e)
      case None => Success(games[gameId])
  }

  /** The check that opens `newGame`: the caller must occupy a seat. */
  function CheckMember(games: map<string, GameState>, gameId: string, userId: string): (r: Result<GameState, GameError>)
    ensures r == Failure(GameNotFound) <==> gameId !in games
    ensures r == Failure(NotPartOfGame) <==> gameId in games && !HasUser(games[gameId], userId)
    ensures r.Success? <==> gameId in games && HasUser(games[gameId], userId)
    ensures r.Success? ==> r.value == games[gameId]
  {
    if gameId !in games then Failure(GameNotFound)
    else if !HasUser(games[gameId], userId) then Failure(NotPartOfGame)
    else Success(games[gameId])
  }

  /** A roll of `die1` and `die2` by the seat whose turn it is. */
  function ApplyRoll(g: GameState, die1: int, die2: int, now: int): (r: RollDiceResponse)
    ensures r.dice == DiceRoll(die1, die2, now)
    ensures r.isDoubleSix <==> die1 == 6 && die2 == 6
    // a double six forfeits the round and passes the turn, yet reports 12
    ensures r.isDoubleSix ==>
      RoundOf(r.gameState, CurrentSlot(g)) == 0 &&
      r.gameState.currentPlayerId == PlayerAt(g, Other(CurrentSlot(g))).id &&
      r.roundScore == 12
    // any other roll adds to the round, keeps the turn and reports the new round score
    ensures !r.isDoubleSix ==>
      RoundOf(r.gameState, CurrentSlot(g)) == RoundOf(g, CurrentSlot(g)) + die1 + die2 &&
      r.gameState.currentPlayerId == g.currentPlayerId &&
      r.roundScore == RoundOf(r.gameState, CurrentSlot(g))
    ensures RoundOf(r.gameState, Other(CurrentSlot(g))) == RoundOf(g, Other(CurrentSlot(g)))
    // nothing but the round scores, the turn and the timestamp changes
    ensures r.gameState == g.(player1RoundScore := r.gameState.player1RoundScore,
                              player2RoundScore := r.gameState.player2RoundScore,
                              currentPlayerId := r.gameState.currentPlayerId,
                              updatedAt := now)
  {
    var dice := DiceRoll(die1, die2, now);
    if die1 == 6 && die2 == 6 then
      var g' := if g.currentPlayerId == g.player1.id
                then g.(player1RoundScore := 0, currentPlayerId := g.player2.id)
                else g.(player2RoundScore := 0, currentPlayerId := g.player1.id);
      RollDiceResponse(dice, die1 + die2, true, g'.(updatedAt := now))
    else if g.currentPlayerId == g.player1.id then
      var g' := g.(player1RoundScore := g.player1RoundScore + die1 + die2, updatedAt := now);
      RollDiceResponse(dice, g'.player1RoundScore, false, g')
    else
      var g' := g.(player2RoundScore := g.player2RoundScore + die1 + die2, updatedAt := now);
      RollDiceResponse(dice, g'.player2RoundScore, false, g')
  }

  /** The first half of `hold`: the current seat banks its round score and
      the turn passes to the other seat. */
  function Bank(g: GameState): (b: GameState)
    ensures BankOf(b, CurrentSlot(g)) == BankOf(g, CurrentSlot(g)) + RoundOf(g, CurrentSlot(g))
    ensures RoundOf(b, CurrentSlot(g)) == 0
    ensures BankOf(b, Other(CurrentSlot(g))) == BankOf(g, Other(CurrentSlot(g)))
    ensures RoundOf(b, Other(CurrentSlot(g))) == RoundOf(g, Other(CurrentSlot(g)))
    ensures b.currentPlayerId == PlayerAt(g, Other(CurrentSlot(g))).id
    ensures b == g.(player1Score := b.player1Score, player2Score := b.player2Score,
                    player1RoundScore := b.player1RoundScore, player2RoundScore := b.player2RoundScore,
                    currentPlayerId := b.currentPlayerId)
  {
    if g.currentPlayerId == g.player1.id then
      g.(player1Score := g.player1Score + g.player1RoundScore, player1RoundScore := 0,
         currentPlayerId := g.player2.id)
    else
      g.(player2Score := g.player2Score + g.player2RoundScore, player2RoundScore := 0,
         currentPlayerId := g.player1.id)
  }

  /** The second half of `hold`, the win check: player1 is tested first and
      player2 only when player1 has not reached the threshold, whoever held. */
  function WinCheck(g: GameState): (r: HoldResponse)
    ensures r.isGameOver <==> g.player1Score >= g.winningScore || g.player2Score >= g.winningScore
    ensures g.player1Score >= g.winningScore ==>
      r.gameState == g.(status := Finished, winnerId := Some(g.player1.id)) && r.winnerId == Some(g.player1.userId)
    ensures g.player1Score < g.winningScore <= g.player2Score ==>
      r.gameState == g.(status := Finished, winnerId := Some(g.player2.id)) && r.winnerId == Some(g.player2.userId)
    ensures !r.isGameOver ==> r.gameState == g && r.winnerId == None
  {
    if g.player1Score >= g.winningScore then
      HoldResponse(g.(status := Finished, winnerId := Some(g.player1.id)), true, Some(g.player1.userId))
    else if g.player2Score >= g.winningScore then
      HoldResponse(g.(status := Finished, winnerId := Some(g.player2.id)), true, Some(g.player2.userId))
    else
      HoldResponse(g, false, None)
  }

  /** A hold by the seat whose turn it is. */
  function ApplyHold(g: GameState, now: int): (r: HoldResponse)
    ensures BankOf(r.gameState, CurrentSlot(g)) == BankOf(g, CurrentSlot(g)) + RoundOf(g, CurrentSlot(g))
    ensures RoundOf(r.gameState, CurrentSlot(g)) == 0
    ensures BankOf(r.gameState, Other(CurrentSlot(g))) == BankOf(g, Other(CurrentSlot(g)))
    ensures RoundOf(r.gameState, Other(CurrentSlot(g))) == RoundOf(g, Other(CurrentSlot(g)))
    ensures r.gameState.currentPlayerId == PlayerAt(g, Other(CurrentSlot(g))).id
    ensures r.isGameOver <==> r.gameState.player1Score >= g.winningScore || r.gameState.player2Score >= g.winningScore
    ensures r.isGameOver ==> r.gameState.status == Finished
    ensures r.gameState.player1Score >= g.winningScore ==>
      r.gameState.winnerId == Some(g.player1.id) && r.winnerId == Some(g.player1.userId)
    ensures r.gameState.player1Score < g.winningScore <= r.gameState.player2Score ==>
      r.gameState.winnerId == Some(g.player2.id) && r.winnerId == Some(g.player2.userId)
    ensures !r.isGameOver ==> r.gameState.status == g.status && r.gameState.winnerId == g.winnerId && r.winnerId == None
    // players, threshold, id and creation time are untouched
    ensures r.gameState == g.(player1Score := r.gameState.player1Score,
                              player2Score := r.gameState.player2Score,
                              player1RoundScore := r.gameState.player1RoundScore,
                              player2RoundScore := r.gameState.player2RoundScore,
                              currentPlayerId := r.gameState.currentPlayerId,
                              status := r.gameState.status,
                              winnerId := r.gameState.winnerId,
                              updatedAt := now)
  {
    var r := WinCheck(Bank(g));
    r.(gameState := r.gameState.(updatedAt := now))
  }

  /** `newGame`'s reset, whatever the state before; the threshold changes only
      when one is supplied, and is not checked to be positive. */
  function ApplyReset(g: GameState, winningScore: Option<int>, now: int): (r: GameState)
    ensures ValidGame(r)
    ensures r.status == Active && r.winnerId == None && r.currentPlayerId == g.player1.id
    ensures forall s :: BankOf(r, s) == 0 && RoundOf(r, s) == 0
    ensures r.winningScore == if winningScore.Some? then winningScore.value else g.winningScore
    ensures r.id == g.id && r.player1 == g.player1 && r.player2 == g.player2
    ensures r.createdAt == g.createdAt && r.updatedAt == now
    ensures r.winningScore > 0 ==> BelowThreshold(r)
  {
    g.(currentPlayerId := g.player1.id,
       player1Score := 0, player2Score := 0,
       player1RoundScore := 0, player2RoundScore := 0,
       status := Active, winnerId := None,
       winningScore := if winningScore.Some? then winningScore.value else g.winningScore,
       updatedAt := now)
  }

  // ---------------------------------------------------------------------
  // One transition at a time

  lemma RollKeepsValid(g: GameState, die1: int, die2: int, now: int)
    requires ValidGame(g) && g.status == Active && IsDie(die1) && IsDie(die2)
    ensures ValidGame(ApplyRoll(g, die1, die2, now).gameState)
    ensures BelowThreshold(g) ==> BelowThreshold(ApplyRoll(g, die1, die2, now).gameState)
  {
  }

  lemma HoldKeepsValid(g: GameState, now: int)
    requires ValidGame(g) && g.status == Active
    ensures ValidGame(ApplyHold(g, now).gameState)
  {
  }

  /** From a game where nobody has reached the threshold, a hold can only
      end the game in favour of the seat that held. */
  lemma HoldCrownsActor(g: GameState, now: int)
    requires g.status == Active && BelowThreshold(g)
    ensures var r := ApplyHold(g, now);
      r.isGameOver ==>
        r.gameState.winnerId == Some(PlayerAt(g, CurrentSlot(g)).id) &&
        r.winnerId == Some(PlayerAt(g, CurrentSlot(g)).userId)
    ensures !ApplyHold(g, now).isGameOver ==> BelowThreshold(ApplyHold(g, now).gameState)
  {
  }

  /** Without that premise the win check can crown the seat that did not
      hold: after a reset to threshold 0, player1 rolls a double six, the
      turn passes, player2 holds an empty round and player1 is the winner. */
  lemma ZeroThresholdCrownsIdlePlayer()
    ensures var p1 := Player("player-a", "a", "alice");
      var p2 := Player("player-b", "b", "bob");
      var g0 := ApplyReset(InitialGame("game", p1, p2, 100, 0), Some(0), 1);
      var g1 := ApplyRoll(g0, 6, 6, 2).gameState;
      var r := ApplyHold(g1, 3);
      TurnError(g1, "b") == None && r.isGameOver && r.winnerId == Some("a")
  {
  }

  // ---------------------------------------------------------------------
  // Any sequence of calls

  /** A call of `rollDice` or `hold` on one game, by account `userId`. */
  datatype Move = RollBy(userId: string, die1: int, die2: int, at: int) | HoldBy(userId: string, at: int)

  predicate LegalMoves(moves: seq<Move>)
  {
    forall i :: 0 <= i < |moves| && moves[i].RollBy? ==> IsDie(moves[i].die1) && IsDie(moves[i].die2)
  }

  /** The game after one call: unchanged when the call is refused. */
  function Step(g: GameState, m: Move): GameState
  {
    if TurnError(g, m.userId).Some? then g
    else match m
      case RollBy(_, die1, die2, at) => ApplyRoll(g, die1, die2, at).gameState
      case HoldBy(_, at) => ApplyHold(g, at).gameState
  }

  function Play(g: GameState, moves: seq<Move>): GameState
    decreases |moves|
  {
    if moves == [] then g else Play(Step(g, moves[0]), moves[1..])
  }

  lemma StepKeepsValid(g: GameState, m: Move)
    requires ValidGame(g)
    requires m.RollBy? ==> IsDie(m.die1) && IsDie(m.die2)
    ensures ValidGame(Step(g, m))
    ensures BelowThreshold(g) && Step(g, m).status == Active ==> BelowThreshold(Step(g, m))
    ensures BankOf(Step(g, m), First) >= BankOf(g, First) && BankOf(Step(g, m), Second) >= BankOf(g, Second)
    ensures Step(g, m).status == Active || Step(g, m).status == Finished
    ensures g.status == Finished ==> Step(g, m) == g
  {
  }

  /** Rolls and holds keep every game valid, never lower a banked score,
      never touch the seats or the threshold, and keep a game below the
      threshold for as long as it stays active. */
  lemma {:induction false} PlayKeepsValid(g: GameState, moves: seq<Move>)
    requires ValidGame(g) && LegalMoves(moves)
    ensures ValidGame(Play(g, moves))
    ensures BankOf(Play(g, moves), First) >= BankOf(g, First)
    ensures BankOf(Play(g, moves), Second) >= BankOf(g, Second)
    ensures Play(g, moves).id == g.id && Play(g, moves).winningScore == g.winningScore
    ensures Play(g, moves).player1 == g.player1 && Play(g, moves).player2 == g.player2
    ensures BelowThreshold(g) && Play(g, moves).status == Active ==> BelowThreshold(Play(g, moves))
    decreases |moves|
  {
    if moves != [] {
      StepKeepsValid(g, moves[0]);
      assert LegalMoves(moves[1..]) by {
        forall i | 0 <= i < |moves[1..]| && moves[1..][i].RollBy?
          ensures IsDie(moves[1..][i].die1) && IsDie(moves[1..][i].die2)
        {
          assert moves[1..][i] == moves[i + 1];
        }
      }
      PlayKeepsValid(Step(g, moves[0]), moves[1..]);
      if Step(g, moves[0]).status == Finished {
        // a finished game stays finished, so the game only ends active if
        // it was still active after the first call
        PlayFromFinished(Step(g, moves[0]), moves[1..]);
      }
    }
  }

  /** A finished game ignores every roll and hold: only `newGame` revives it. */
  lemma {:induction false} PlayFromFinished(g: GameState, moves: seq<Move>)
    requires g.status == Finished
    ensures Play(g, moves) == g
    decreases |moves|
  {
    if moves != [] {
      PlayFromFinished(Step(g, moves[0]), moves[1..]);
    }
  }
}
