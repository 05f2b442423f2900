/** The turn and game state machine (farkle_ai/game/state.py): frozen records whose every
    transition returns a new value or raises. */
module State {
  import opened Wrappers
  import opened Rules

  // ---------------------------------------------------------------------------
  // Python arithmetic
  // ---------------------------------------------------------------------------

  /** Python's `a % n`: the remainder takes the sign of the divisor (floor division). */
  function PyMod(a: int, n: int): (r: int)
    requires n != 0
    ensures n > 0 ==> 0 <= r < n
    ensures n < 0 ==> n < r <= 0
    ensures 0 <= a < n || n < a <= 0 ==> r == a
    ensures a == n ==> r == 0
    ensures (a - r) % n == 0
  {
    RemainderFacts(a, n);
    if n > 0 || a % n == 0 then a % n else a % n + n
  }

  /** Dafny's Euclidean remainder, and that remainder plus `n`, differ from `a` by a multiple
      of `n`; on the ranges where Python's `%` is the identity, so is the chosen one. */
  lemma RemainderFacts(a: int, n: int)
    requires n != 0
    ensures (a - a % n) % n == 0 && (a - (a % n + n)) % n == 0
    ensures 0 <= a < n ==> a % n == a
    ensures n < a < 0 ==> a % n == a - n
  {
    var q := a / n;
    assert a - a % n == q * n;
    MultipleMod(q, n);
    assert a - (a % n + n) == (q - 1) * n;
    MultipleMod(q - 1, n);
  }

  /** A multiple of `n` leaves no remainder. */
  lemma MultipleMod(q: int, n: int)
    requires n != 0
    ensures (q * n) % n == 0
  {
    var a := q * n;
    var d, m := a / n, a % n;
    assert a == d * n + m;
    SubMul(q, d, n);
    var k := q - d;
    assert k * n == m;
    if k >= 1 {
      MulMono(k, n);
    } else if k <= -1 {
      MulMono(-k, n);
      NegMul(k, n);
    }
  }

  /** Multiplication distributes over subtraction. */
  lemma SubMul(q: int, d: int, n: int)
    ensures (q - d) * n == q * n - d * n
  {
  }

  /** Negating a factor negates the product. */
  lemma NegMul(k: int, n: int)
    ensures (-k) * n == -(k * n)
  {
  }

  /** Scaling by a positive whole number moves away from zero. */
  lemma MulMono(k: int, n: int)
    requires k >= 1
    ensures n >= 0 ==> k * n >= n
    ensures n < 0 ==> k * n <= n
  {
  }

  /** The position Python's `xs[i]` reads in a list of length `len`, counting negative
      indices from the end; None when it raises IndexError. */
  function PyIndex(len: nat, i: int): (r: Option<nat>)
    ensures r.Some? <==> 0 <= i + len && i < len
    ensures r.Some? ==> r.value < len && (r.value == i || r.value == i + len)
  {
    if 0 <= i < len then Some(i) else if 0 <= i + len && i < 0 then Some(i + len) else None
  }

  // ---------------------------------------------------------------------------
  // Parameters and TurnState
  // ---------------------------------------------------------------------------

  /** `Parameters`: the settings of one game. */
  datatype Parameters = Parameters(playerCount: int, scoreToWin: int, maxDiceCount: int, maxDieValue: int)

  /** `Parameters()`. */
  const DefaultParameters: Parameters :=
    Parameters(DefaultPlayerCount, DefaultScoreToWin, MaxDiceCount, MaxDieValue)

  /** `TurnState`: the current turn's dice and points. */
  datatype TurnState = TurnState(
    nextRollDiceCount: int,
    score: int,
    rolledDice: seq<int>,
    hasRolled: bool,
    hasEnded: bool)

  /** A turn that has not rolled yet, about to roll `count` dice with no points. */
  function FreshTurn(count: int): TurnState {
    TurnState(count, 0, [], false, false)
  }

  /** `TurnState.select_pattern`: set the pattern's dice aside and bank its points into the
      turn score; the roll stays as it was until the next roll replaces it. */
  function SelectPattern(t: TurnState, sp: ScoringPattern, maxDiceCount: int): (r: Result<TurnState>)
    ensures r.Success? <==> !t.hasEnded && t.hasRolled && multiset(sp.pattern) <= multiset(t.rolledDice)
    ensures t.hasEnded ==> r == Failure(TurnEnded)
    ensures !t.hasEnded && !t.hasRolled ==> r == Failure(NotRolled)
    ensures !t.hasEnded && t.hasRolled && |sp.pattern| > |t.rolledDice| ==> r == Failure(TooManyDice)
    ensures !t.hasEnded && t.hasRolled && |sp.pattern| <= |t.rolledDice| && r.Failure? ==> r.error == NotContained
    ensures r.Success? ==>
      && r.value.score == t.score + sp.score
      && r.value.rolledDice == t.rolledDice
      && !r.value.hasRolled && !r.value.hasEnded
      && (|sp.pattern| < |t.rolledDice| ==> r.value.nextRollDiceCount + |sp.pattern| == |t.rolledDice|)
      && (|sp.pattern| == |t.rolledDice| ==> r.value.nextRollDiceCount == maxDiceCount)
  {
    if t.hasEnded then Failure(TurnEnded)
    else if !t.hasRolled then Failure(NotRolled)
    else if |sp.pattern| > |t.rolledDice| then
      TooManyNotContained(t.rolledDice, sp.pattern);
      Failure(TooManyDice)
    else if !ContainsPattern(t.rolledDice, sp.pattern) then Failure(NotContained)
    else
      ContainedIsShorter(t.rolledDice, sp.pattern);
      var remaining := |t.rolledDice| - |sp.pattern|;
      Success(TurnState(if remaining > 0 then remaining else maxDiceCount, t.score + sp.score, t.rolledDice, false, false))
  }

  /** A pattern longer than the roll is never contained in it. */
  lemma TooManyNotContained(rolled: seq<int>, pattern: seq<int>)
    requires |pattern| > |rolled|
    ensures !ContainsPattern(rolled, pattern)
  {
    if ContainsPattern(rolled, pattern) {
      ContainedIsShorter(rolled, pattern);
    }
  }

  /** How many dice the next roll takes: the pending count, or all dice when it is zero. */
  function RollCount(t: TurnState, maxDiceCount: int): int {
    if t.nextRollDiceCount == 0 then maxDiceCount else t.nextRollDiceCount
  }

  /** Every value is a face of a die with `maxDieValue` faces. */
  predicate AllFaces(dice: seq<int>, maxDieValue: int) {
    forall i :: 0 <= i < |dice| ==> 1 <= dice[i] <= maxDieValue
  }

  /** The random generator's draws can be drawn: the sample size is not negative, and there
      is at least one face unless nothing is drawn. */
  predicate CanDraw(count: int, maxDieValue: int) {
    count >= 0 && (maxDieValue >= 1 || count == 0)
  }

  /** `dice` is an outcome of the draw the roll makes, whenever the roll gets that far. */
  predicate DiceFor(t: TurnState, maxDiceCount: int, maxDieValue: int, dice: seq<int>) {
    !t.hasEnded && !t.hasRolled && CanDraw(RollCount(t, maxDiceCount), maxDieValue) ==>
      |dice| == RollCount(t, maxDiceCount) && AllFaces(dice, maxDieValue)
  }

  /** `TurnState.roll_dice`: draw the pending number of dice (all of them when none are
      pending). The draw is the input `dice`. */
  function RollDice(t: TurnState, maxDiceCount: int, maxDieValue: int, dice: seq<int>): (r: Result<TurnState>)
    requires DiceFor(t, maxDiceCount, maxDieValue, dice)
    ensures r.Success? <==> !t.hasEnded && !t.hasRolled && CanDraw(RollCount(t, maxDiceCount), maxDieValue)
    ensures t.hasEnded ==> r == Failure(TurnEnded)
    ensures !t.hasEnded && t.hasRolled ==> r == Failure(AlreadyRolled)
    ensures r.Success? ==>
      && |r.value.rolledDice| == r.value.nextRollDiceCount
      && (t.nextRollDiceCount != 0 ==> r.value.nextRollDiceCount == t.nextRollDiceCount)
      && (t.nextRollDiceCount == 0 ==> r.value.nextRollDiceCount == maxDiceCount)
      && AllFaces(r.value.rolledDice, maxDieValue)
      && r.value.rolledDice == dice
      && r.value.score == t.score
      && r.value.hasRolled && !r.value.hasEnded
  {
    if t.hasEnded then Failure(TurnEnded)
    else if t.hasRolled then Failure(AlreadyRolled)
    else
      var count := RollCount(t, maxDiceCount);
      if maxDieValue < 1 && count != 0 then Failure(NoDieFaces)
      else if count < 0 then Failure(NegativeDiceCount)
      else Success(TurnState(count, t.score, dice, true, false))
  }

  /** `TurnState.pass_turn`: give up the turn and its points. */
  function PassTurn(t: TurnState): (r: Result<TurnState>)
    ensures r.Success? <==> !t.hasEnded
    ensures r.Failure? ==> r.error == TurnEnded
    ensures r.Success? ==>
      && r.value.hasEnded && r.value.score == 0 && r.value.rolledDice == []
      && !r.value.hasRolled && r.value.nextRollDiceCount == 0
  {
    if t.hasEnded then Failure(TurnEnded) else Success(TurnState(0, 0, [], false, true))
  }

  /** `TurnState.end_turn`: close the turn keeping its points; only possible between a
      selection and the next roll. */
  function EndTurn(t: TurnState): (r: Result<TurnState>)
    ensures r.Success? <==> !t.hasEnded && !t.hasRolled
    ensures t.hasEnded ==> r == Failure(TurnEnded)
    ensures !t.hasEnded && t.hasRolled ==> r == Failure(AlreadyRolled)
    ensures r.Success? ==>
      && r.value.hasEnded && r.value.score == t.score && r.value.rolledDice == []
      && !r.value.hasRolled && r.value.nextRollDiceCount == 0
  {
    if t.hasEnded then Failure(TurnEnded)
    else if t.hasRolled then Failure(AlreadyRolled)
    else Success(TurnState(0, t.score, [], false, true))
  }

  /** Ending a turn right after a successful roll always fails. */
  lemma RollThenEndFails(t: TurnState, maxDiceCount: int, maxDieValue: int, dice: seq<int>)
    requires DiceFor(t, maxDiceCount, maxDieValue, dice)
    requires RollDice(t, maxDiceCount, maxDieValue, dice).Success?
    ensures EndTurn(RollDice(t, maxDiceCount, maxDieValue, dice).value) == Failure(AlreadyRolled)
  {
  }

  /** Selecting a pattern makes the turn ready to roll again: the next roll succeeds on
      any outcome of the draw, and keeps the selected points. */
  lemma SelectThenRoll(t: TurnState, sp: ScoringPattern, maxDieValue: int, dice: seq<int>)
    requires SelectPattern(t, sp, MaxDiceCount).Success? && maxDieValue >= 1
    requires DiceFor(SelectPattern(t, sp, MaxDiceCount).value, MaxDiceCount, maxDieValue, dice)
    ensures RollDice(SelectPattern(t, sp, MaxDiceCount).value, MaxDiceCount, maxDieValue, dice).Success?
    ensures RollDice(SelectPattern(t, sp, MaxDiceCount).value, MaxDiceCount, maxDieValue, dice).value.score == t.score + sp.score
  {
  }

  // ---------------------------------------------------------------------------
  // GameState
  // ---------------------------------------------------------------------------

  /** `GameState`: the settings, the turn in progress and the players' banked scores. */
  datatype GameState = GameState(
    parameters: Parameters,
    turnState: TurnState,
    playerScores: seq<int>,
    currentPlayer: int,
    winner: Option<int>,
    turn: int,
    isQuit: bool)

  /** `GameState(parameters)` with every other argument defaulted. */
  function NewGame(parameters: Parameters): (g: GameState)
    ensures g.parameters == parameters
    ensures g.turnState == FreshTurn(parameters.maxDiceCount)
    ensures parameters.playerCount >= 0 ==> |g.playerScores| == parameters.playerCount
    ensures parameters.playerCount < 0 ==> g.playerScores == []
    ensures forall i :: 0 <= i < |g.playerScores| ==> g.playerScores[i] == 0
    ensures g.currentPlayer == 0 && g.winner == None && g.turn == 0 && !g.isQuit
  {
    var n := if parameters.playerCount > 0 then parameters.playerCount else 0;
    GameState(parameters, TurnState(parameters.maxDiceCount, 0, [], false, false),
              seq(n, _ => 0), 0, None, 0, false)
  }

  /** The game record with a new turn state, everything else carried over and `is_quit`
      back to its default. */
  function WithTurn(g: GameState, t: TurnState): GameState {
    GameState(g.parameters, t, g.playerScores, g.currentPlayer, g.winner, g.turn, false)
  }

  /** `GameState.select_pattern`: the turn's selection, with the module default of six
      dice for hot dice (the game's own `max_dice_count` is not passed on). */
  function GameSelectPattern(g: GameState, sp: ScoringPattern): (r: Result<GameState>)
    ensures r.Success? <==> SelectPattern(g.turnState, sp, MaxDiceCount).Success?
    ensures r.Failure? ==> r.error == SelectPattern(g.turnState, sp, MaxDiceCount).error
    ensures r.Success? ==> r.value == WithTurn(g, SelectPattern(g.turnState, sp, MaxDiceCount).value)
  {
    var t :- SelectPattern(g.turnState, sp, MaxDiceCount);
    Success(WithTurn(g, t))
  }

  /** `GameState.roll_dice` with the game's own dice count and faces. */
  function GameRollDice(g: GameState, dice: seq<int>): (r: Result<GameState>)
    requires DiceFor(g.turnState, g.parameters.maxDiceCount, g.parameters.maxDieValue, dice)
    ensures r.Success? <==> RollDice(g.turnState, g.parameters.maxDiceCount, g.parameters.maxDieValue, dice).Success?
    ensures r.Failure? ==> r.error == RollDice(g.turnState, g.parameters.maxDiceCount, g.parameters.maxDieValue, dice).error
    ensures r.Success? ==> r.value == WithTurn(g, RollDice(g.turnState, g.parameters.maxDiceCount, g.parameters.maxDieValue, dice).value)
  {
    var t :- RollDice(g.turnState, g.parameters.maxDiceCount, g.parameters.maxDieValue, dice);
    Success(WithTurn(g, t))
  }

  /** `GameState.pass_turn`. */
  function GamePassTurn(g: GameState): (r: Result<GameState>)
    ensures r.Success? <==> !g.turnState.hasEnded
    ensures r.Failure? ==> r.error == TurnEnded
    ensures r.Success? ==> r.value == WithTurn(g, PassTurn(g.turnState).value)
  {
    var t :- PassTurn(g.turnState);
    Success(WithTurn(g, t))
  }

  /** `GameState.end_turn`: bank the turn score into the current player's entry (a negative
      player number counts from the end of the list) and recompute the winner from that
      entry alone. The list index is read before the turn is ended. */
  function GameEndTurn(g: GameState): (r: Result<GameState>)
    ensures r.Success? <==> PyIndex(|g.playerScores|, g.currentPlayer).Some? && EndTurn(g.turnState).Success?
    ensures PyIndex(|g.playerScores|, g.currentPlayer).None? ==> r == Failure(IndexOutOfRange)
    ensures PyIndex(|g.playerScores|, g.currentPlayer).Some? && r.Failure? ==> r.error == EndTurn(g.turnState).error
    ensures r.Success? ==>
      var i := PyIndex(|g.playerScores|, g.currentPlayer).value;
      && r.value.turnState == EndTurn(g.turnState).value
      && |r.value.playerScores| == |g.playerScores|
      && r.value.playerScores[i] == g.playerScores[i] + g.turnState.score
      && (forall j :: 0 <= j < |g.playerScores| && j != i ==> r.value.playerScores[j] == g.playerScores[j])
      && (r.value.winner == Some(g.currentPlayer) <==> r.value.playerScores[i] >= g.parameters.scoreToWin)
      && (r.value.winner == None <==> r.value.playerScores[i] < g.parameters.scoreToWin)
      && r.value.parameters == g.parameters && r.value.currentPlayer == g.currentPlayer
      && r.value.turn == g.turn && !r.value.isQuit
  {
    match PyIndex(|g.playerScores|, g.currentPlayer)
    case None => Failure(IndexOutOfRange)
    case Some(i) =>
      var scores := g.playerScores[i := g.playerScores[i] + g.turnState.score];
      var winner := if scores[i] >= g.parameters.scoreToWin then Some(g.currentPlayer) else None;
      var t :- EndTurn(g.turnState);
      Success(GameState(g.parameters, t, scores, g.currentPlayer, winner, g.turn, false))
  }

  /** `GameState.start_turn`: the next player in turn order gets a fresh turn of six dice;
      the round counter advances when play comes back to player 0. */
  function GameStartTurn(g: GameState): (r: Result<GameState>)
    ensures r.Success? <==> g.parameters.playerCount != 0
    ensures r.Failure? ==> r.error == ZeroPlayers
    ensures r.Success? ==>
      && r.value.currentPlayer == PyMod(g.currentPlayer + 1, g.parameters.playerCount)
      && (g.parameters.playerCount > 0 ==> 0 <= r.value.currentPlayer < g.parameters.playerCount)
      && r.value.turn == (if r.value.currentPlayer == 0 then g.turn + 1 else g.turn)
      && r.value.turnState == FreshTurn(MaxDiceCount)
      && r.value.playerScores == g.playerScores && r.value.winner == g.winner
      && r.value.parameters == g.parameters && !r.value.isQuit
  {
    if g.parameters.playerCount == 0 then Failure(ZeroPlayers)
    else
      var next := PyMod(g.currentPlayer + 1, g.parameters.playerCount);
      Success(GameState(g.parameters, FreshTurn(MaxDiceCount), g.playerScores, next, g.winner,
                        if next == 0 then g.turn + 1 else g.turn, false))
  }

  /** Turn order is round robin: from player `p` with `-1 <= p < n - 1` play passes to
      `p + 1`, and from the last player back to player 0, which starts a new round. */
  lemma StartTurnRoundRobin(g: GameState)
    requires g.parameters.playerCount > 0 && -1 <= g.currentPlayer < g.parameters.playerCount
    ensures GameStartTurn(g).Success?
    ensures g.currentPlayer < g.parameters.playerCount - 1 ==>
      GameStartTurn(g).value.currentPlayer == g.currentPlayer + 1 &&
      GameStartTurn(g).value.turn == (if g.currentPlayer == -1 then g.turn + 1 else g.turn)
    ensures g.currentPlayer == g.parameters.playerCount - 1 ==>
      GameStartTurn(g).value.currentPlayer == 0 && GameStartTurn(g).value.turn == g.turn + 1
  {
  }

  /** Every game transition keeps the parameters and drops `is_quit` back to False. */
  lemma TransitionsKeepParameters(g: GameState, sp: ScoringPattern, dice: seq<int>)
    requires DiceFor(g.turnState, g.parameters.maxDiceCount, g.parameters.maxDieValue, dice)
    ensures GameSelectPattern(g, sp).Success? ==>
      GameSelectPattern(g, sp).value.parameters == g.parameters && !GameSelectPattern(g, sp).value.isQuit
    ensures GameRollDice(g, dice).Success? ==>
      GameRollDice(g, dice).value.parameters == g.parameters && !GameRollDice(g, dice).value.isQuit
    ensures GamePassTurn(g).Success? ==>
      GamePassTurn(g).value.parameters == g.parameters && !GamePassTurn(g).value.isQuit
    ensures GameEndTurn(g).Success? ==>
      GameEndTurn(g).value.parameters == g.parameters && !GameEndTurn(g).value.isQuit
    ensures GameStartTurn(g).Success? ==>
      GameStartTurn(g).value.parameters == g.parameters && !GameStartTurn(g).value.isQuit
  {
  }
}
