/** The per-roll queries on the score table: which table patterns a roll contains, and the
    best one per slot (farkle_ai/game/rules.py, `scorable_patterns` and
    `scorable_patterns_by_length`). */
module Resolver {
  import opened Wrappers
  import opened Sorting
  import opened Rules
  import opened ScoreTable

  // ---------------------------------------------------------------------------
  // scorable_patterns
  // ---------------------------------------------------------------------------

  /** `scorable_patterns_table().items()`, as a list in table order. */
  function Items(t: Dict): (r: seq<ScoringPattern>)
    ensures |r| == |t.keys|
  {
    seq(|t.keys|, i requires 0 <= i < |t.keys| => Item(t, i))
  }

  /** The list comprehension over the first `n` items, keeping the patterns that `dice`
      contains. */
  function Scorable(items: seq<ScoringPattern>, dice: seq<int>, n: nat): seq<ScoringPattern>
    requires n <= |items|
  {
    if n == 0 then [] else Scorable(items, dice, n - 1) + Kept(items[n - 1], dice)
  }

  /** `[sp]` when `dice` contains its pattern, and `[]` otherwise. */
  function Kept(sp: ScoringPattern, dice: seq<int>): seq<ScoringPattern> {
    if ContainsPattern(dice, sp.pattern) then [sp] else []
  }

  /** The comprehension keeps exactly the contained items. */
  lemma {:induction false} ScorableMembers(items: seq<ScoringPattern>, dice: seq<int>, n: nat)
    requires n <= |items|
    ensures forall sp :: sp in Scorable(items, dice, n) <==> sp in items[..n] && ContainsPattern(dice, sp.pattern)
  {
    if n > 0 {
      ScorableMembers(items, dice, n - 1);
      assert items[..n] == items[..n - 1] + [items[n - 1]];
    }
  }

  /** The comprehension keeps the items' relative order: it is `items[..n]` with the
      uncontained items deleted. */
  lemma {:induction false} ScorableKeepsOrder(items: seq<ScoringPattern>, dice: seq<int>, n: nat)
    requires n <= |items|
    ensures Scorable(items, dice, n) == Deleting(items[..n], dice)
  {
    if n > 0 {
      ScorableKeepsOrder(items, dice, n - 1);
      assert items[..n] == items[..n - 1] + [items[n - 1]];
      DeletingConcat(items[..n - 1], [items[n - 1]], dice);
      DeletingOne(items[n - 1], dice);
    }
  }

  /** The items of `s` that `dice` contains, in order: an independent left-to-right
      definition of the filter. */
  function Deleting(s: seq<ScoringPattern>, dice: seq<int>): (r: seq<ScoringPattern>)
    ensures |r| <= |s|
  {
    if |s| == 0 then []
    else if ContainsPattern(dice, s[0].pattern) then [s[0]] + Deleting(s[1..], dice)
    else Deleting(s[1..], dice)
  }

  lemma DeletingOne(sp: ScoringPattern, dice: seq<int>)
    ensures Deleting([sp], dice) == Kept(sp, dice)
  {
    assert [sp][1..] == [];
  }

  lemma {:induction false} DeletingConcat(a: seq<ScoringPattern>, b: seq<ScoringPattern>, dice: seq<int>)
    ensures Deleting(a + b, dice) == Deleting(a, dice) + Deleting(b, dice)
  {
    if |a| > 0 {
      DeletingConcat(a[1..], b, dice);
      assert (a + b)[1..] == a[1..] + b;
    } else {
      assert a + b == b;
    }
  }

  /** The comprehension depends on the roll only through its multiset of dice. */
  lemma {:induction false} ScorableIgnoresOrder(items: seq<ScoringPattern>, dice: seq<int>, dice': seq<int>, n: nat)
    requires n <= |items| && multiset(dice) == multiset(dice')
    ensures Scorable(items, dice, n) == Scorable(items, dice', n)
  {
    if n > 0 {
      ScorableIgnoresOrder(items, dice, dice', n - 1);
      ContainsIgnoresOrder(dice, dice', items[n - 1].pattern, items[n - 1].pattern);
      assert Kept(items[n - 1], dice) == Kept(items[n - 1], dice');
    }
  }

  /** The items of a well-formed dict are exactly its key-value pairs. */
  lemma ItemsMembers(t: Dict, sp: ScoringPattern)
    requires DictWF(t)
    ensures sp in Items(t) <==> sp.pattern in t.values && sp.score == t.values[sp.pattern]
  {
    if sp in Items(t) {
      var i :| 0 <= i < |t.keys| && Items(t)[i] == sp;
      assert sp == Item(t, i);
    }
    if sp.pattern in t.values && sp.score == t.values[sp.pattern] {
      var i :| 0 <= i < |t.keys| && t.keys[i] == sp.pattern;
      assert Items(t)[i] == sp;
    }
  }

  /** The table's items are exactly the patterns with a positive score, each with its score. */
  lemma TableItems(sp: ScoringPattern)
    ensures sp in Items(Table()) <==> PatternScore(sp.pattern) > 0 && sp.score == PatternScore(sp.pattern)
  {
    TableEntries(sp.pattern);
    TableGet(sp.pattern);
    ItemsMembers(Table(), sp);
  }

  /** Every item is a legal table entry: a sorted pattern of one to six dice worth a
      positive score. */
  ghost predicate AllLegal(ps: seq<ScoringPattern>) {
    forall k :: 0 <= k < |ps| ==> LegalEntry(ps[k], |ps[k].pattern|)
  }

  lemma TableItemsLegal()
    ensures AllLegal(Items(Table()))
  {
    var t := Table();
    TableGet([]);
    forall p | p in t.values ensures LegalEntry(ScoringPattern(p, t.values[p]), |p|) {
      TableEntries(p);
    }
    ItemsLegal(t);
  }

  lemma ItemsLegal(t: Dict)
    requires DictWF(t)
    requires forall p :: p in t.values ==> LegalEntry(ScoringPattern(p, t.values[p]), |p|)
    ensures AllLegal(Items(t))
  {
    forall k | 0 <= k < |t.keys| ensures LegalEntry(Items(t)[k], |t.keys[k]|) {
      assert t.keys[k] in t.values;
    }
  }

  lemma {:induction false} ScorableLegal(items: seq<ScoringPattern>, dice: seq<int>, n: nat)
    requires n <= |items| && AllLegal(items)
    ensures AllLegal(Scorable(items, dice, n))
  {
    if n > 0 {
      ScorableLegal(items, dice, n - 1);
    }
  }

  /** `scorable_patterns(dice)`: the table items whose pattern the roll contains, in table
      order; each is a legal table entry. */
  function ScorablePatterns(dice: seq<int>): (r: seq<ScoringPattern>)
    ensures AllLegal(r)
  {
    var items := Items(Table());
    TableItemsLegal();
    ScorableLegal(items, dice, |items|);
    Scorable(items, dice, |items|)
  }

  /** The scorable patterns are exactly the scoring patterns the roll contains, each with
      its score. */
  lemma ScorablePatternsMembers(dice: seq<int>)
    ensures forall sp :: sp in ScorablePatterns(dice) <==>
      PatternScore(sp.pattern) > 0 && sp.score == PatternScore(sp.pattern) && ContainsPattern(dice, sp.pattern)
  {
    var items := Items(Table());
    ScorableMembers(items, dice, |items|);
    assert items[..|items|] == items;
    forall sp ensures sp in items <==> PatternScore(sp.pattern) > 0 && sp.score == PatternScore(sp.pattern) {
      TableItems(sp);
    }
  }

  /** The scorable patterns are the table's items with the uncontained ones deleted. */
  lemma ScorablePatternsInTableOrder(dice: seq<int>)
    ensures ScorablePatterns(dice) == Deleting(Items(Table()), dice)
  {
    var items := Items(Table());
    ScorableKeepsOrder(items, dice, |items|);
    assert items[..|items|] == items;
  }

  /** Permuting the roll leaves the scorable patterns, and their order, unchanged. */
  lemma ScorablePatternsIgnoreOrder(dice: seq<int>, dice': seq<int>)
    requires multiset(dice) == multiset(dice')
    ensures ScorablePatterns(dice) == ScorablePatterns(dice')
  {
    var items := Items(Table());
    ScorableIgnoresOrder(items, dice, dice', |items|);
  }

  /** An empty roll contains no scoring pattern. */
  lemma ScorablePatternsOfNoDice()
    ensures ScorablePatterns([]) == []
  {
    var r := ScorablePatterns([]);
    if |r| > 0 {
      ScorablePatternsMembers([]);
      assert r[0] in r;
      ContainedIsShorter([], r[0].pattern);
      assert false;
    }
  }

  // ---------------------------------------------------------------------------
  // scorable_patterns_by_length
  // ---------------------------------------------------------------------------

  /** The best-per-slot loop over the first `n` patterns of `ps`: a pattern goes to slot
      `len(pattern) - shift` when it scores strictly more than the slot's current holder.
      `scorable_patterns_by_length` uses `shift == 0`, where writing slot `6` of the six slots
      raises IndexError. */
  function BestSlots(ps: seq<ScoringPattern>, n: nat, shift: int): (r: Result<seq<ScoringPattern>>)
    requires n <= |ps| && (shift == 0 || shift == 1)
    requires forall k :: 0 <= k < |ps| ==> 1 <= |ps[k].pattern|
    ensures r.Success? ==> |r.value| == MaxDiceCount
    ensures r.Failure? <==> exists k :: 0 <= k < n && |ps[k].pattern| - shift >= MaxDiceCount
    ensures r.Failure? ==> r.error == IndexOutOfRange
  {
    if n == 0 then Success(seq(MaxDiceCount, _ => NoPattern))
    else
      var prev :- BestSlots(ps, n - 1, shift);
      var sp := ps[n - 1];
      var slot := |sp.pattern| - shift;
      if slot >= MaxDiceCount then Failure(IndexOutOfRange)
      else if sp.score > prev[slot].score then Success(prev[slot := sp])
      else Success(prev)
  }

  /** Which slot a pattern belongs to. */
  function SlotOf(sp: ScoringPattern, shift: int): int {
    |sp.pattern| - shift
  }

  /** What a successful run leaves in slot `s`: nothing, or the first pattern of that slot
      whose score no other pattern of the slot exceeds. */
  ghost predicate BestInSlot(ps: seq<ScoringPattern>, n: nat, shift: int, slots: seq<ScoringPattern>, s: int)
    requires n <= |ps| && 0 <= s < |slots|
  {
    && (forall k :: 0 <= k < n && SlotOf(ps[k], shift) == s ==> ps[k].score <= slots[s].score)
    && (slots[s] == NoPattern ||
        exists k :: 0 <= k < n && ps[k] == slots[s] && SlotOf(ps[k], shift) == s && slots[s].score > 0 &&
          forall l :: 0 <= l < k && SlotOf(ps[l], shift) == s ==> ps[l].score < slots[s].score)
  }

  lemma {:induction false} BestSlotsSpec(ps: seq<ScoringPattern>, n: nat, shift: int)
    requires n <= |ps| && (shift == 0 || shift == 1)
    requires forall k :: 0 <= k < |ps| ==> 1 <= |ps[k].pattern|
    requires BestSlots(ps, n, shift).Success?
    ensures forall s :: 0 <= s < MaxDiceCount ==> BestInSlot(ps, n, shift, BestSlots(ps, n, shift).value, s)
  {
    var r := BestSlots(ps, n, shift).value;
    if n > 0 {
      BestSlotsSpec(ps, n - 1, shift);
      var prev := BestSlots(ps, n - 1, shift).value;
      forall s | 0 <= s < MaxDiceCount ensures BestInSlot(ps, n, shift, r, s) {
        BestSlotsStep(ps, n, shift, prev, r, s);
      }
    }
  }

  lemma BestSlotsStep(ps: seq<ScoringPattern>, n: nat, shift: int, prev: seq<ScoringPattern>, r: seq<ScoringPattern>, s: int)
    requires 0 < n <= |ps| && (shift == 0 || shift == 1)
    requires forall k :: 0 <= k < |ps| ==> 1 <= |ps[k].pattern|
    requires BestSlots(ps, n - 1, shift) == Success(prev) && BestSlots(ps, n, shift) == Success(r)
    requires 0 <= s < MaxDiceCount && BestInSlot(ps, n - 1, shift, prev, s)
    ensures BestInSlot(ps, n, shift, r, s)
  {
    var sp := ps[n - 1];
    if SlotOf(sp, shift) == s && sp.score > prev[s].score {
      assert r[s] == sp;
      assert sp.score > 0 by {
        if prev[s] != NoPattern {
          var k :| 0 <= k < n - 1 && ps[k] == prev[s] && SlotOf(ps[k], shift) == s && prev[s].score > 0 &&
            forall l :: 0 <= l < k && SlotOf(ps[l], shift) == s ==> ps[l].score < prev[s].score;
        }
      }
    } else {
      assert r[s] == prev[s];
      if r[s] != NoPattern {
        var k :| 0 <= k < n - 1 && ps[k] == prev[s] && SlotOf(ps[k], shift) == s && prev[s].score > 0 &&
          forall l :: 0 <= l < k && SlotOf(ps[l], shift) == s ==> ps[l].score < prev[s].score;
        assert 0 <= k < n;
      }
    }
  }

  /** `scorable_patterns_by_length(dice)` as written: six slots indexed by pattern length,
      so a contained pattern of six dice indexes past the end. */
  function ByLength(dice: seq<int>): (r: Result<seq<ScoringPattern>>)
    ensures r.Success? ==> |r.value| == MaxDiceCount
    ensures r.Failure? <==> exists sp :: sp in ScorablePatterns(dice) && |sp.pattern| == MaxDiceCount
  {
    var ps := ScorablePatterns(dice);
    var r := BestSlots(ps, |ps|, 0);
    assert r.Failure? ==> exists sp :: sp in ps && |sp.pattern| == MaxDiceCount by {
      if r.Failure? {
        var k :| 0 <= k < |ps| && |ps[k].pattern| >= MaxDiceCount;
        assert ps[k] in ps;
      }
    }
    r
  }

  /** A roll fails the as-written query exactly when it contains a scoring pattern of six
      dice. */
  lemma ByLengthFails(dice: seq<int>)
    ensures ByLength(dice).Failure? <==>
      exists p :: PatternScore(p) > 0 && |p| == MaxDiceCount && ContainsPattern(dice, p)
  {
    if exists p :: PatternScore(p) > 0 && |p| == MaxDiceCount && ContainsPattern(dice, p) {
      var p :| PatternScore(p) > 0 && |p| == MaxDiceCount && ContainsPattern(dice, p);
      ScorablePatternsMembers(dice);
      assert ScoringPattern(p, PatternScore(p)) in ScorablePatterns(dice);
    }
    if ByLength(dice).Failure? {
      var sp :| sp in ScorablePatterns(dice) && |sp.pattern| == MaxDiceCount;
      ScorablePatternsMembers(dice);
      assert PatternScore(sp.pattern) > 0 && ContainsPattern(dice, sp.pattern);
    }
  }

  /** A successful as-written query keeps slot 0 empty, and slot `i` in 1..5 holds the first
      contained pattern of `i` dice whose score no other one of that length exceeds. */
  lemma ByLengthSlots(dice: seq<int>)
    requires ByLength(dice).Success?
    ensures ByLength(dice).value[0] == NoPattern
    ensures forall i :: 0 <= i < MaxDiceCount ==>
      BestInSlot(ScorablePatterns(dice), |ScorablePatterns(dice)|, 0, ByLength(dice).value, i)
  {
    var ps := ScorablePatterns(dice);
    BestSlotsSpec(ps, |ps|, 0);
    var r := ByLength(dice).value;
    assert BestInSlot(ps, |ps|, 0, r, 0);
  }

  /** The evidently intended query: slot `k - 1` holds the best contained pattern of `k`
      dice, for `k` in 1..6; it never fails. */
  function ByLengthCorrected(dice: seq<int>): (r: seq<ScoringPattern>)
    ensures |r| == MaxDiceCount
  {
    var ps := ScorablePatterns(dice);
    var res := BestSlots(ps, |ps|, 1);
    if res.Success? then res.value else assert false; []
  }

  /** Slot `k - 1` of the corrected query holds the first contained pattern of `k` dice
      whose score no other contained pattern of that length exceeds. */
  lemma ByLengthCorrectedSlots(dice: seq<int>)
    ensures forall s :: 0 <= s < MaxDiceCount ==>
      BestInSlot(ScorablePatterns(dice), |ScorablePatterns(dice)|, 1, ByLengthCorrected(dice), s)
  {
    var ps := ScorablePatterns(dice);
    BestSlotsSpec(ps, |ps|, 1);
  }

  /** A slot is left empty exactly when no pattern of that slot scores. */
  lemma BestSlotEmpty(ps: seq<ScoringPattern>, n: nat, shift: int, s: int)
    requires n <= |ps| && (shift == 0 || shift == 1)
    requires forall k :: 0 <= k < |ps| ==> 1 <= |ps[k].pattern|
    requires BestSlots(ps, n, shift).Success? && 0 <= s < MaxDiceCount
    ensures BestSlots(ps, n, shift).value[s] == NoPattern <==>
      forall k :: 0 <= k < n && SlotOf(ps[k], shift) == s ==> ps[k].score <= 0
  {
    BestSlotsSpec(ps, n, shift);
    assert BestInSlot(ps, n, shift, BestSlots(ps, n, shift).value, s);
  }

  lemma ByLengthCorrectedIs(dice: seq<int>)
    ensures BestSlots(ScorablePatterns(dice), |ScorablePatterns(dice)|, 1).Success?
    ensures ByLengthCorrected(dice) == BestSlots(ScorablePatterns(dice), |ScorablePatterns(dice)|, 1).value
  {
  }

  /** Slot `k - 1` of the corrected query is empty exactly when the roll contains no scoring
      pattern of `k` dice. */
  lemma ByLengthCorrectedEmpty(dice: seq<int>, s: int)
    requires 0 <= s < MaxDiceCount
    ensures ByLengthCorrected(dice)[s] == NoPattern <==>
      forall p :: PatternScore(p) > 0 && |p| == s + 1 ==> !ContainsPattern(dice, p)
  {
    var ps := ScorablePatterns(dice);
    ByLengthCorrectedIs(dice);
    BestSlotEmpty(ps, |ps|, 1, s);
    NoneOfLength(dice, s);
  }

  /** No scorable pattern belongs to slot `s` of the corrected query exactly when the roll
      contains no scoring pattern of `s + 1` dice. */
  lemma NoneOfLength(dice: seq<int>, s: int)
    ensures (forall k :: 0 <= k < |ScorablePatterns(dice)| && SlotOf(ScorablePatterns(dice)[k], 1) == s ==>
              ScorablePatterns(dice)[k].score <= 0) <==>
            (forall p :: PatternScore(p) > 0 && |p| == s + 1 ==> !ContainsPattern(dice, p))
  {
    var ps := ScorablePatterns(dice);
    if exists p :: PatternScore(p) > 0 && |p| == s + 1 && ContainsPattern(dice, p) {
      var p :| PatternScore(p) > 0 && |p| == s + 1 && ContainsPattern(dice, p);
      var k := SlotWitness(dice, p);
      assert SlotOf(ps[k], 1) == s && ps[k].score > 0;
    }
    if exists k :: 0 <= k < |ps| && SlotOf(ps[k], 1) == s && ps[k].score > 0 {
      var k :| 0 <= k < |ps| && SlotOf(ps[k], 1) == s && ps[k].score > 0;
      PatternWitness(dice, k);
    }
  }

  /** A contained scoring pattern is listed among the scorable patterns. */
  lemma SlotWitness(dice: seq<int>, p: seq<int>) returns (k: int)
    requires PatternScore(p) > 0 && ContainsPattern(dice, p)
    ensures 0 <= k < |ScorablePatterns(dice)| && ScorablePatterns(dice)[k] == ScoringPattern(p, PatternScore(p))
  {
    ScorablePatternsMembers(dice);
    assert ScoringPattern(p, PatternScore(p)) in ScorablePatterns(dice);
    k :| 0 <= k < |ScorablePatterns(dice)| && ScorablePatterns(dice)[k] == ScoringPattern(p, PatternScore(p));
  }

  /** A listed scorable pattern is a contained scoring pattern. */
  lemma PatternWitness(dice: seq<int>, k: int)
    requires 0 <= k < |ScorablePatterns(dice)|
    ensures PatternScore(ScorablePatterns(dice)[k].pattern) > 0
    ensures ContainsPattern(dice, ScorablePatterns(dice)[k].pattern)
  {
    ScorablePatternsMembers(dice);
    assert ScorablePatterns(dice)[k] in ScorablePatterns(dice);
  }

  /** Six ones are a scoring pattern of six dice, so the as-written query fails on them,
      while the corrected one puts them in the last slot. */
  lemma SixOnesOverflow()
    ensures ByLength([1, 1, 1, 1, 1, 1]).Failure?
    ensures ByLengthCorrected([1, 1, 1, 1, 1, 1])[5] != NoPattern
  {
    var six := [1, 1, 1, 1, 1, 1];
    SixOnesScore();
    assert ContainsPattern(six, six);
    ByLengthFails(six);
    ByLengthCorrectedEmpty(six, 5);
  }

  lemma SixOnesScore()
    ensures PatternScore([1, 1, 1, 1, 1, 1]) >= 8000
  {
    CatalogBound(0);
    assert BasePatterns[0] == ScoringPattern([1, 1, 1, 1, 1, 1], 8000);
  }
}
