/** The abstract action space of the learning environment
    (farkle_ai/environment/actions.py): twelve actions, "continue" or "bank" holding one to
    six dice, and the mask of those a state allows. */
module AbstractActions {
  import opened Wrappers
  import opened Rules
  import opened ScoreTable
  import opened Resolver
  import opened State

  /** An `AbstractAction` member by its value: CONTINUE_1..CONTINUE_6 are 0..5, BANK_1..BANK_6
      are 6..11. */
  newtype AbstractAction = v: int | 0 <= v < 12

  /** The number of abstract actions, `len(AbstractAction)`. */
  const ActionCount: nat := 12

  /** The two kinds of abstract action. */
  datatype Kind = ContinueKind | BankKind

  /** `AbstractAction.type`. */
  function TypeOf(a: AbstractAction): Kind {
    if a <= 5 then ContinueKind else BankKind
  }

  /** `AbstractAction.dice_count`. */
  function DiceCount(a: AbstractAction): (k: int)
    ensures 1 <= k <= MaxDiceCount
  {
    if TypeOf(a) == ContinueKind then a as int + 1 else a as int - 6 + 1
  }

  /** The member named CONTINUE_k or BANK_k, the lookup `action_mask` makes by name. */
  function Named(kind: Kind, k: int): (a: AbstractAction)
    requires 1 <= k <= MaxDiceCount
  {
    if kind == ContinueKind then (k - 1) as AbstractAction else (k + 5) as AbstractAction
  }

  /** Decoding a member gives back the kind and dice count it is named by, and a member is
      the one named by its decoding; so CONTINUE_k and BANK_k both hold k dice, and the
      continue members are exactly the values 0..5. */
  lemma NamesRoundTrip(kind: Kind, k: int, a: AbstractAction)
    requires 1 <= k <= MaxDiceCount
    ensures TypeOf(Named(kind, k)) == kind && DiceCount(Named(kind, k)) == k
    ensures Named(TypeOf(a), DiceCount(a)) == a
    ensures TypeOf(a) == ContinueKind <==> a as int <= 5
  {
  }

  // ---------------------------------------------------------------------------
  // action_mask
  // ---------------------------------------------------------------------------

  /** A slot's pattern enables the actions for `count` dice: it scores and has that many
      dice. */
  predicate Available(sp: ScoringPattern, count: int) {
    sp.score > 0 && |sp.pattern| == count
  }

  /** The mask after the first `n` iterations of the loop over the slots. */
  function MaskLoop(slots: seq<ScoringPattern>, n: nat): (mask: seq<int>)
    requires |slots| == MaxDiceCount && n <= MaxDiceCount
    ensures |mask| == ActionCount
    ensures forall j :: 0 <= j < ActionCount ==> mask[j] == 0 || mask[j] == 1
    ensures forall i :: 0 <= i < MaxDiceCount ==> mask[i] == mask[i + 6]
    ensures forall i :: 0 <= i < MaxDiceCount ==> (mask[i] == 1 <==> i < n && Available(slots[i], i + 1))
  {
    if n == 0 then seq(ActionCount, _ => 0)
    else
      var mask := MaskLoop(slots, n - 1);
      var count := n;
      if Available(slots[n - 1], count) then
        mask[Named(ContinueKind, count) as int := 1][Named(BankKind, count) as int := 1]
      else mask
  }

  /** `action_mask` on the slots of a by-length query. */
  function MaskOf(slots: seq<ScoringPattern>): (mask: seq<int>)
    requires |slots| == MaxDiceCount
    ensures |mask| == ActionCount
    ensures forall j :: 0 <= j < ActionCount ==> mask[j] == 0 || mask[j] == 1
    ensures forall k :: 1 <= k <= MaxDiceCount ==>
      mask[Named(ContinueKind, k) as int] == mask[Named(BankKind, k) as int]
    ensures forall k :: 1 <= k <= MaxDiceCount ==>
      (mask[Named(ContinueKind, k) as int] == 1 <==> Available(slots[k - 1], k))
  {
    MaskLoop(slots, MaxDiceCount)
  }

  /** `action_mask` as written: it reads slot `k - 1` of `scorable_patterns_by_length` for
      the actions holding `k` dice, and raises when that query does. */
  function ActionMask(g: GameState): (r: Result<seq<int>>)
    ensures r.Failure? <==> ByLength(g.turnState.rolledDice).Failure?
    ensures r.Success? ==> |r.value| == ActionCount
  {
    var slots :- ByLength(g.turnState.rolledDice);
    Success(MaskOf(slots))
  }

  /** Because the query keeps patterns of `i` dice in slot `i`, slot `k - 1` never holds a
      pattern of `k` dice, and every mask `action_mask` returns is all zeros. */
  lemma ActionMaskAlwaysEmpty(g: GameState)
    requires ActionMask(g).Success?
    ensures forall j :: 0 <= j < ActionCount ==> ActionMask(g).value[j] == 0
  {
    var dice := g.turnState.rolledDice;
    ByLengthSlots(dice);
    MaskOfLengthSlots(ScorablePatterns(dice), ByLength(dice).value);
  }

  /** Slots that keep patterns of `i` dice in slot `i` give an all-zero mask. */
  lemma MaskOfLengthSlots(ps: seq<ScoringPattern>, slots: seq<ScoringPattern>)
    requires |slots| == MaxDiceCount
    requires forall i :: 0 <= i < MaxDiceCount ==> BestInSlot(ps, |ps|, 0, slots, i)
    ensures forall j :: 0 <= j < ActionCount ==> MaskOf(slots)[j] == 0
  {
    forall i | 0 <= i < MaxDiceCount
      ensures !Available(slots[i], i + 1)
    {
      SlotNotAvailable(ps, slots, i);
    }
    var mask := MaskOf(slots);
    forall j | 0 <= j < ActionCount
      ensures mask[j] == 0
    {
      var k := if j < 6 then j + 1 else j - 5;
      assert mask[Named(ContinueKind, k) as int] != 1;
    }
  }

  /** A slot of the as-written query holds no scoring pattern of one die more than its
      index. */
  lemma SlotNotAvailable(ps: seq<ScoringPattern>, slots: seq<ScoringPattern>, i: int)
    requires 0 <= i < |slots| && BestInSlot(ps, |ps|, 0, slots, i)
    ensures !Available(slots[i], i + 1)
  {
    if slots[i] != NoPattern {
      var k :| 0 <= k < |ps| && ps[k] == slots[i] && SlotOf(ps[k], 0) == i && slots[i].score > 0 &&
        forall l :: 0 <= l < k && SlotOf(ps[l], 0) == i ==> ps[l].score < slots[i].score;
      assert |slots[i].pattern| == i;
    }
  }

  /** The mask the consumers evidently intend: built the same way from the query that keeps
      patterns of `k` dice in slot `k - 1`. */
  function CorrectedActionMask(g: GameState): (mask: seq<int>)
    ensures |mask| == ActionCount
  {
    MaskOf(ByLengthCorrected(g.turnState.rolledDice))
  }

  /** The corrected mask allows CONTINUE_k and BANK_k exactly when the roll contains a
      scoring pattern of `k` dice. */
  lemma CorrectedMaskSpec(g: GameState, k: int)
    requires 1 <= k <= MaxDiceCount
    ensures CorrectedActionMask(g)[Named(ContinueKind, k) as int] == 1 <==>
      exists p :: PatternScore(p) > 0 && |p| == k && ContainsPattern(g.turnState.rolledDice, p)
    ensures CorrectedActionMask(g)[Named(BankKind, k) as int] == CorrectedActionMask(g)[Named(ContinueKind, k) as int]
  {
    var dice := g.turnState.rolledDice;
    ByLengthCorrectedSlots(dice);
    ByLengthCorrectedEmpty(dice, k - 1);
    CorrectedMaskAt(ScorablePatterns(dice), ByLengthCorrected(dice), k);
  }

  /** With slots that keep patterns of `k` dice in slot `k - 1`, the mask allows the actions
      for `k` dice exactly when that slot is not empty. */
  lemma CorrectedMaskAt(ps: seq<ScoringPattern>, slots: seq<ScoringPattern>, k: int)
    requires |slots| == MaxDiceCount && 1 <= k <= MaxDiceCount
    requires forall i :: 0 <= i < MaxDiceCount ==> BestInSlot(ps, |ps|, 1, slots, i)
    ensures MaskOf(slots)[Named(ContinueKind, k) as int] == 1 <==> slots[k - 1] != NoPattern
  {
    CorrectedSlotAvailable(ps, slots, k - 1);
  }

  /** A slot of the corrected query is available exactly when it is not empty. */
  lemma CorrectedSlotAvailable(ps: seq<ScoringPattern>, slots: seq<ScoringPattern>, i: int)
    requires 0 <= i < |slots| && BestInSlot(ps, |ps|, 1, slots, i)
    ensures Available(slots[i], i + 1) <==> slots[i] != NoPattern
  {
    if slots[i] != NoPattern {
      var k :| 0 <= k < |ps| && ps[k] == slots[i] && SlotOf(ps[k], 1) == i && slots[i].score > 0 &&
        forall l :: 0 <= l < k && SlotOf(ps[l], 1) == i ==> ps[l].score < slots[i].score;
      assert |slots[i].pattern| == i + 1;
    }
  }

  /** A roll of a single 1: the corrected mask allows CONTINUE_1 and BANK_1, while the
      as-written mask allows nothing. */
  lemma SingleOneMasks(g: GameState)
    requires g.turnState.rolledDice == [1]
    ensures CorrectedActionMask(g)[0] == 1 && CorrectedActionMask(g)[6] == 1
    ensures ActionMask(g).Success? && ActionMask(g).value[0] == 0
  {
    SingleDieScore(1);
    assert ContainsPattern([1], [1]);
    CorrectedMaskSpec(g, 1);
    ByLengthFails([1]);
    forall p | PatternScore(p) > 0 && |p| == MaxDiceCount
      ensures !ContainsPattern([1], p)
    {
      if ContainsPattern([1], p) {
        ContainedIsShorter([1], p);
      }
    }
    ActionMaskAlwaysEmpty(g);
  }
}
