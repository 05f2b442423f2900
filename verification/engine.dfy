/** The action engine (farkle_ai/game/engine.py) over the actions of
    farkle_ai/game/actions.py: legal actions, applying an action, and the observation. */
module Engine {
  import opened Wrappers
  import opened Rules
  import opened ScoreTable
  import opened Resolver
  import opened State

  /** `ContinueAction`, `BankAction`, `PassTurnAction` and `QuitAction`. */
  datatype Action = Continue(pattern: seq<int>) | Bank(pattern: seq<int>) | Pass | Quit

  // ---------------------------------------------------------------------------
  // actions
  // ---------------------------------------------------------------------------

  /** A Continue and a Bank action for each pattern, in order. */
  function ActionPairs(ps: seq<ScoringPattern>): (r: seq<Action>)
    ensures |r| == 2 * |ps|
    ensures forall k :: 0 <= k < |ps| ==> r[2 * k] == Continue(ps[k].pattern)
    ensures forall k :: 0 <= k < |ps| ==> r[2 * k + 1] == Bank(ps[k].pattern)
  {
    if |ps| == 0 then []
    else ActionPairs(ps[..|ps| - 1]) + [Continue(ps[|ps| - 1].pattern), Bank(ps[|ps| - 1].pattern)]
  }

  /** `FarkleEngine.actions`: passing, then both ways of taking each scorable pattern of the
      current roll, in table order. */
  function Actions(g: GameState): (r: seq<Action>)
    ensures |r| == 1 + 2 * |ScorablePatterns(g.turnState.rolledDice)|
    ensures r[0] == Pass
    ensures var ps := ScorablePatterns(g.turnState.rolledDice);
      forall k :: 0 <= k < |ps| ==> r[1 + 2 * k] == Continue(ps[k].pattern) && r[2 + 2 * k] == Bank(ps[k].pattern)
  {
    [Pass] + ActionPairs(ScorablePatterns(g.turnState.rolledDice))
  }

  /** The pairs list a Continue (or Bank) of `p` exactly when some pattern carries `p`. */
  lemma {:induction false} ActionPairsMembers(ps: seq<ScoringPattern>, p: seq<int>)
    ensures Continue(p) in ActionPairs(ps) <==> exists k :: 0 <= k < |ps| && ps[k].pattern == p
    ensures Bank(p) in ActionPairs(ps) <==> exists k :: 0 <= k < |ps| && ps[k].pattern == p
  {
    if |ps| > 0 {
      var init := ps[..|ps| - 1];
      ActionPairsMembers(init, p);
      var last := ps[|ps| - 1];
      assert ActionPairs(ps) == ActionPairs(init) + [Continue(last.pattern), Bank(last.pattern)];
      assert forall k :: 0 <= k < |init| ==> init[k] == ps[k];
      if exists k :: 0 <= k < |ps| && ps[k].pattern == p {
        var k :| 0 <= k < |ps| && ps[k].pattern == p;
        if k < |init| {
          assert init[k].pattern == p;
        }
      }
    }
  }

  /** The listed Continue actions are exactly the scoring patterns the roll contains, and
      so are the listed Bank actions. */
  lemma ActionsListScoringPatterns(g: GameState, p: seq<int>)
    ensures Continue(p) in Actions(g) <==> PatternScore(p) > 0 && ContainsPattern(g.turnState.rolledDice, p)
    ensures Bank(p) in Actions(g) <==> PatternScore(p) > 0 && ContainsPattern(g.turnState.rolledDice, p)
  {
    var ps := ScorablePatterns(g.turnState.rolledDice);
    ActionPairsMembers(ps, p);
    ScorablePatternsMembers(g.turnState.rolledDice);
    assert Actions(g) == [Pass] + ActionPairs(ps);
    if PatternScore(p) > 0 && ContainsPattern(g.turnState.rolledDice, p) {
      var sp := ScoringPattern(p, PatternScore(p));
      assert sp in ps;
      IndexOf(ps, sp);
    }
    if exists k :: 0 <= k < |ps| && ps[k].pattern == p {
      var k :| 0 <= k < |ps| && ps[k].pattern == p;
      assert ps[k] in ps;
    }
  }

  /** A member of a sequence sits at some index. */
  lemma IndexOf(ps: seq<ScoringPattern>, sp: ScoringPattern)
    requires sp in ps
    ensures exists k :: 0 <= k < |ps| && ps[k].pattern == sp.pattern
  {
    var k :| 0 <= k < |ps| && ps[k] == sp;
    assert ps[k].pattern == sp.pattern;
  }

  // ---------------------------------------------------------------------------
  // apply_action
  // ---------------------------------------------------------------------------

  /** How many dice the roll that ends the action takes: what the selection leaves (six
      when it uses every die) for Continue, a fresh six for Bank and Pass, none for Quit. */
  function RollSize(g: GameState, a: Action): int {
    match a
    case Continue(p) =>
      if |g.turnState.rolledDice| - |p| > 0 then |g.turnState.rolledDice| - |p| else MaxDiceCount
    case Bank(_) => MaxDiceCount
    case Pass => MaxDiceCount
    case Quit => 0
  }

  /** `dice` is an outcome of the action's roll. */
  predicate DiceForAction(g: GameState, a: Action, dice: seq<int>) {
    g.parameters.maxDieValue >= 1 ==> |dice| == RollSize(g, a) && AllFaces(dice, g.parameters.maxDieValue)
  }

  /** The points `apply_action` looks up for the action's pattern. */
  function ActionScore(a: Action): (r: int)
    ensures r >= 0
  {
    if a.Continue? || a.Bank? then PatternScore(a.pattern) else 0
  }

  /** `FarkleEngine.apply_action`: Continue selects and rolls again; Bank selects, banks,
      hands over and rolls for the next player; Pass hands over and rolls; Quit, like any
      other action, leaves the state as it is. The roll's outcome is `dice`. */
  function ApplyAction(g: GameState, a: Action, dice: seq<int>): (r: Result<GameState>)
    requires DiceForAction(g, a, dice)
    ensures (a.Continue? || a.Bank?) && PatternScore(a.pattern) == 0 ==> r == Failure(NotScoring)
    ensures a.Quit? ==> r == Success(g)
    ensures r.Success? && !a.Quit? ==>
      r.value.parameters == g.parameters && r.value.turnState.hasRolled && !r.value.isQuit
  {
    ApplyScored(g, a, ActionScore(a), dice)
  }

  /** `apply_action` once the pattern's points `score` are looked up. */
  function ApplyScored(g: GameState, a: Action, score: int, dice: seq<int>): (r: Result<GameState>)
    requires DiceForAction(g, a, dice)
    ensures (a.Continue? || a.Bank?) && score == 0 ==> r == Failure(NotScoring)
    ensures a.Quit? ==> r == Success(g)
    ensures r.Success? && !a.Quit? ==>
      r.value.parameters == g.parameters && r.value.turnState.hasRolled && !r.value.isQuit
  {
    match a
    case Quit => Success(g)
    case Pass =>
      var passed :- GamePassTurn(g);
      var started :- GameStartTurn(passed);
      GameRollDice(started, dice)
    case Continue(p) =>
      if score == 0 then Failure(NotScoring)
      else
        var selected :- GameSelectPattern(g, ScoringPattern(p, score));
        GameRollDice(selected, dice)
    case Bank(p) =>
      if score == 0 then Failure(NotScoring)
      else
        var selected :- GameSelectPattern(g, ScoringPattern(p, score));
        BankSelected(selected, dice)
  }

  /** The end of a Bank action: bank the turn, hand over, roll for the next player. */
  function BankSelected(selected: GameState, dice: seq<int>): (r: Result<GameState>)
    requires !selected.turnState.hasEnded && !selected.turnState.hasRolled
    requires selected.parameters.maxDieValue >= 1 ==>
      |dice| == MaxDiceCount && AllFaces(dice, selected.parameters.maxDieValue)
    ensures r.Success? <==>
      && PyIndex(|selected.playerScores|, selected.currentPlayer).Some?
      && selected.parameters.playerCount != 0 && selected.parameters.maxDieValue >= 1
    ensures r.Success? ==>
      var i := PyIndex(|selected.playerScores|, selected.currentPlayer).value;
      && |r.value.playerScores| == |selected.playerScores|
      && r.value.playerScores[i] == selected.playerScores[i] + selected.turnState.score
      && (forall j :: 0 <= j < |selected.playerScores| && j != i ==> r.value.playerScores[j] == selected.playerScores[j])
      && (r.value.winner == Some(selected.currentPlayer) <==> r.value.playerScores[i] >= selected.parameters.scoreToWin)
      && (r.value.winner == None <==> r.value.playerScores[i] < selected.parameters.scoreToWin)
      && r.value.currentPlayer == PyMod(selected.currentPlayer + 1, selected.parameters.playerCount)
      && r.value.turn == (if r.value.currentPlayer == 0 then selected.turn + 1 else selected.turn)
      && r.value.parameters == selected.parameters && !r.value.isQuit
      && r.value.turnState == TurnState(MaxDiceCount, 0, dice, true, false)
  {
    var banked :- GameEndTurn(selected);
    var started :- GameStartTurn(banked);
    GameRollDice(started, dice)
  }

  /** Continue keeps the player and the scores, adds the pattern's points to the turn, and
      leaves a fresh roll of the dice the pattern did not use (six for hot dice). */
  lemma ContinueSpec(g: GameState, p: seq<int>, dice: seq<int>)
    requires DiceForAction(g, Continue(p), dice)
    ensures ApplyAction(g, Continue(p), dice).Success? <==>
      && PatternScore(p) > 0 && !g.turnState.hasEnded && g.turnState.hasRolled
      && ContainsPattern(g.turnState.rolledDice, p) && g.parameters.maxDieValue >= 1
    ensures ApplyAction(g, Continue(p), dice).Success? ==>
      var r := ApplyAction(g, Continue(p), dice).value;
      && r.currentPlayer == g.currentPlayer && r.playerScores == g.playerScores
      && r.winner == g.winner && r.turn == g.turn
      && r.turnState == TurnState(|dice|, g.turnState.score + PatternScore(p), dice, true, false)
      && |dice| == (if |p| < |g.turnState.rolledDice| then |g.turnState.rolledDice| - |p| else MaxDiceCount)
  {
    ContinueScored(g, p, PatternScore(p), dice);
  }

  lemma ContinueScored(g: GameState, p: seq<int>, score: int, dice: seq<int>)
    requires DiceForAction(g, Continue(p), dice) && score >= 0
    ensures ApplyScored(g, Continue(p), score, dice).Success? <==>
      && score > 0 && !g.turnState.hasEnded && g.turnState.hasRolled
      && ContainsPattern(g.turnState.rolledDice, p) && g.parameters.maxDieValue >= 1
    ensures ApplyScored(g, Continue(p), score, dice).Success? ==>
      var r := ApplyScored(g, Continue(p), score, dice).value;
      && r.currentPlayer == g.currentPlayer && r.playerScores == g.playerScores
      && r.winner == g.winner && r.turn == g.turn
      && r.turnState == TurnState(|dice|, g.turnState.score + score, dice, true, false)
      && |dice| == (if |p| < |g.turnState.rolledDice| then |g.turnState.rolledDice| - |p| else MaxDiceCount)
  {
    if score != 0 && SelectPattern(g.turnState, ScoringPattern(p, score), MaxDiceCount).Success? {
      ContainedIsShorter(g.turnState.rolledDice, p);
    }
  }

  /** Bank adds the turn's points and the pattern's to the current player's total alone,
      recomputes the winner from that total, and hands a fresh roll of six dice to the next
      player with no turn points. */
  lemma BankSpec(g: GameState, p: seq<int>, dice: seq<int>)
    requires DiceForAction(g, Bank(p), dice)
    ensures ApplyAction(g, Bank(p), dice).Success? <==>
      && PatternScore(p) > 0 && !g.turnState.hasEnded && g.turnState.hasRolled
      && ContainsPattern(g.turnState.rolledDice, p)
      && PyIndex(|g.playerScores|, g.currentPlayer).Some?
      && g.parameters.playerCount != 0 && g.parameters.maxDieValue >= 1
    ensures ApplyAction(g, Bank(p), dice).Success? ==>
      var r := ApplyAction(g, Bank(p), dice).value;
      var i := PyIndex(|g.playerScores|, g.currentPlayer).value;
      && |r.playerScores| == |g.playerScores|
      && r.playerScores[i] == g.playerScores[i] + g.turnState.score + PatternScore(p)
      && (forall j :: 0 <= j < |g.playerScores| && j != i ==> r.playerScores[j] == g.playerScores[j])
      && (r.winner == Some(g.currentPlayer) <==> r.playerScores[i] >= g.parameters.scoreToWin)
      && (r.winner == None <==> r.playerScores[i] < g.parameters.scoreToWin)
      && r.currentPlayer == PyMod(g.currentPlayer + 1, g.parameters.playerCount)
      && r.turn == (if r.currentPlayer == 0 then g.turn + 1 else g.turn)
      && r.turnState == TurnState(MaxDiceCount, 0, dice, true, false)
  {
    BankScored(g, p, PatternScore(p), dice);
  }

  lemma BankScored(g: GameState, p: seq<int>, score: int, dice: seq<int>)
    requires DiceForAction(g, Bank(p), dice) && score >= 0
    ensures ApplyScored(g, Bank(p), score, dice).Success? <==>
      && score > 0 && !g.turnState.hasEnded && g.turnState.hasRolled
      && ContainsPattern(g.turnState.rolledDice, p)
      && PyIndex(|g.playerScores|, g.currentPlayer).Some?
      && g.parameters.playerCount != 0 && g.parameters.maxDieValue >= 1
    ensures ApplyScored(g, Bank(p), score, dice).Success? ==>
      var r := ApplyScored(g, Bank(p), score, dice).value;
      var i := PyIndex(|g.playerScores|, g.currentPlayer).value;
      && |r.playerScores| == |g.playerScores|
      && r.playerScores[i] == g.playerScores[i] + g.turnState.score + score
      && (forall j :: 0 <= j < |g.playerScores| && j != i ==> r.playerScores[j] == g.playerScores[j])
      && (r.winner == Some(g.currentPlayer) <==> r.playerScores[i] >= g.parameters.scoreToWin)
      && (r.winner == None <==> r.playerScores[i] < g.parameters.scoreToWin)
      && r.currentPlayer == PyMod(g.currentPlayer + 1, g.parameters.playerCount)
      && r.turn == (if r.currentPlayer == 0 then g.turn + 1 else g.turn)
      && r.turnState == TurnState(MaxDiceCount, 0, dice, true, false)
  {
    var sp := ScoringPattern(p, score);
    if score != 0 && GameSelectPattern(g, sp).Success? {
      var selected := GameSelectPattern(g, sp).value;
      assert ApplyScored(g, Bank(p), score, dice) == BankSelected(selected, dice);
      assert selected.turnState.score == g.turnState.score + score;
    }
  }

  /** Pass discards the turn's points, leaves every total and the winner alone, and hands a
      fresh roll of six dice to the next player; it fails on a turn that already ended. */
  lemma PassSpec(g: GameState, dice: seq<int>)
    requires DiceForAction(g, Pass, dice)
    ensures g.turnState.hasEnded ==> ApplyAction(g, Pass, dice) == Failure(TurnEnded)
    ensures ApplyAction(g, Pass, dice).Success? <==>
      !g.turnState.hasEnded && g.parameters.playerCount != 0 && g.parameters.maxDieValue >= 1
    ensures ApplyAction(g, Pass, dice).Success? ==>
      var r := ApplyAction(g, Pass, dice).value;
      && r.playerScores == g.playerScores && r.winner == g.winner
      && r.currentPlayer == PyMod(g.currentPlayer + 1, g.parameters.playerCount)
      && r.turn == (if r.currentPlayer == 0 then g.turn + 1 else g.turn)
      && r.turnState == TurnState(MaxDiceCount, 0, dice, true, false)
  {
    assert ApplyAction(g, Pass, dice) == ApplyScored(g, Pass, 0, dice);
    PassScored(g, dice);
  }

  lemma PassScored(g: GameState, dice: seq<int>)
    requires DiceForAction(g, Pass, dice)
    ensures g.turnState.hasEnded ==> ApplyScored(g, Pass, 0, dice) == Failure(TurnEnded)
    ensures ApplyScored(g, Pass, 0, dice).Success? <==>
      !g.turnState.hasEnded && g.parameters.playerCount != 0 && g.parameters.maxDieValue >= 1
    ensures ApplyScored(g, Pass, 0, dice).Success? ==>
      var r := ApplyScored(g, Pass, 0, dice).value;
      && r.playerScores == g.playerScores && r.winner == g.winner
      && r.currentPlayer == PyMod(g.currentPlayer + 1, g.parameters.playerCount)
      && r.turn == (if r.currentPlayer == 0 then g.turn + 1 else g.turn)
      && r.turnState == TurnState(MaxDiceCount, 0, dice, true, false)
  {
  }

  // ---------------------------------------------------------------------------
  // observe
  // ---------------------------------------------------------------------------

  /** The observation dict. */
  datatype Observation = Observation(
    yourRemainingScore: int,
    opponentRemainingScore: int,
    turnScore: int,
    diceCountInRoll: int,
    scoresByPatternLength: seq<int>)

  /** The scores at the first `n` indices other than `player`, in index order. */
  function Others(scores: seq<int>, player: int, n: nat): (r: seq<int>)
    requires n <= |scores|
    ensures |r| == 0 <==> n == 0 || (n == 1 && player == 0)
    ensures forall i :: 0 <= i < n && i != player ==> scores[i] in r
    ensures forall x :: x in r ==> exists i :: 0 <= i < n && i != player && scores[i] == x
  {
    if n == 0 then []
    else Others(scores, player, n - 1) + (if n - 1 != player then [scores[n - 1]] else [])
  }

  /** Python's `max` of a non-empty list. */
  function MaxOf(s: seq<int>): (m: int)
    requires |s| > 0
    ensures m in s
    ensures forall x :: x in s ==> x <= m
  {
    if |s| == 1 then s[0]
    else
      var rest := MaxOf(s[1..]);
      assert forall x :: x in s ==> x == s[0] || x in s[1..];
      if s[0] >= rest then s[0] else rest
  }

  /** `FarkleEngine.observe`: how far the player and their best opponent are from winning,
      and, for the player whose turn it is, the turn's points, dice and best score per slot
      of `scorable_patterns_by_length`. A player number that is out of range, a game with
      no opponent, and a roll holding a six-dice scoring pattern raise. */
  function Observe(g: GameState, player: int): (r: Result<Observation>)
    ensures PyIndex(|g.playerScores|, player).None? ==> r == Failure(IndexOutOfRange)
    ensures r.Success? <==>
      && PyIndex(|g.playerScores|, player).Some?
      && !(|g.playerScores| == 0 || (|g.playerScores| == 1 && player == 0))
      && (g.currentPlayer == player ==> ByLength(g.turnState.rolledDice).Success?)
  {
    ObserveSlots(g, player, ByLength(g.turnState.rolledDice))
  }

  /** `observe` with the roll's by-length query `slots`, which it reads only for the
      player whose turn it is. */
  function ObserveSlots(g: GameState, player: int, slots: Result<seq<ScoringPattern>>): (r: Result<Observation>)
    requires slots.Success? ==> |slots.value| == MaxDiceCount
    ensures PyIndex(|g.playerScores|, player).None? ==> r == Failure(IndexOutOfRange)
    ensures r.Success? <==>
      && PyIndex(|g.playerScores|, player).Some?
      && !(|g.playerScores| == 0 || (|g.playerScores| == 1 && player == 0))
      && (g.currentPlayer == player ==> slots.Success?)
    ensures r.Success? ==>
      var o := r.value;
      && o.yourRemainingScore == g.parameters.scoreToWin - g.playerScores[PyIndex(|g.playerScores|, player).value]
      && (forall i :: 0 <= i < |g.playerScores| && i != player ==>
            o.opponentRemainingScore <= g.parameters.scoreToWin - g.playerScores[i])
      && (exists i :: 0 <= i < |g.playerScores| && i != player &&
            o.opponentRemainingScore == g.parameters.scoreToWin - g.playerScores[i])
      && |o.scoresByPatternLength| == MaxDiceCount
      && (g.currentPlayer == player ==>
            && o.turnScore == g.turnState.score
            && o.diceCountInRoll == |g.turnState.rolledDice|
            && forall s :: 0 <= s < MaxDiceCount ==> o.scoresByPatternLength[s] == slots.value[s].score)
      && (g.currentPlayer != player ==>
            && o.turnScore == 0 && o.diceCountInRoll == 0
            && forall s :: 0 <= s < MaxDiceCount ==> o.scoresByPatternLength[s] == 0)
  {
    match PyIndex(|g.playerScores|, player)
    case None => Failure(IndexOutOfRange)
    case Some(own) =>
      var others := Others(g.playerScores, player, |g.playerScores|);
      if |others| == 0 then Failure(EmptyMax)
      else
        var your := g.parameters.scoreToWin - g.playerScores[own];
        var opponent := g.parameters.scoreToWin - MaxOf(others);
        if g.currentPlayer == player then
          var bySlots :- slots;
          Success(Observation(your, opponent, g.turnState.score, |g.turnState.rolledDice|,
                              seq(|bySlots|, s requires 0 <= s < |bySlots| => bySlots[s].score)))
        else
          Success(Observation(your, opponent, 0, 0, seq(MaxDiceCount, _ => 0)))
  }
}
