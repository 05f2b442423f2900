/** Scoring rules of Farkle: the scoring-pattern value type, the base catalog and
    multiset containment of dice patterns (farkle_ai/game/rules.py). */
module Rules {
  import opened Sorting

  // Default game settings
  const DefaultScoreToWin: int := 5000
  const MaxDiceCount: int := 6
  const MaxDieValue: int := 6
  const DefaultPlayerCount: int := 2

  /** A dice pattern (a tuple of die values) together with the points it is worth. */
  datatype ScoringPattern = ScoringPattern(pattern: seq<int>, score: int)

  /** The empty pattern worth nothing: the initial content of every by-length slot. */
  const NoPattern: ScoringPattern := ScoringPattern([], 0)

  /** Every element is a face of a six-sided die. */
  predicate AllDice(s: seq<int>) {
    forall v :: v in s ==> 1 <= v <= MaxDieValue
  }

  /** `a + b`: the sorted multiset union of the two patterns, worth the sum of their scores. */
  function Add(a: ScoringPattern, b: ScoringPattern): (r: ScoringPattern)
    ensures Sorted(r.pattern)
    ensures multiset(r.pattern) == multiset(a.pattern) + multiset(b.pattern)
    ensures r.score == a.score + b.score
  {
    // Counter(a) + Counter(b) of two tuples is their multiset union, and
    // sorted(elements()) lists it in ascending order.
    SortSpec(a.pattern + b.pattern);
    ScoringPattern(Sort(a.pattern + b.pattern), a.score + b.score)
  }

  /** Adding patterns is commutative. */
  lemma AddCommutes(a: ScoringPattern, b: ScoringPattern)
    ensures Add(a, b) == Add(b, a)
  {
    SortedUnique(Add(a, b).pattern, Add(b, a).pattern);
  }

  /** Adding patterns is associative. */
  lemma AddAssociates(a: ScoringPattern, b: ScoringPattern, c: ScoringPattern)
    ensures Add(Add(a, b), c) == Add(a, Add(b, c))
  {
    var left := Add(Add(a, b), c);
    var right := Add(a, Add(b, c));
    assert multiset(left.pattern) == multiset(a.pattern) + multiset(b.pattern) + multiset(c.pattern);
    assert multiset(right.pattern) == multiset(a.pattern) + multiset(b.pattern) + multiset(c.pattern);
    SortedUnique(left.pattern, right.pattern);
  }

  /** The base scoring patterns, in declaration order. */
  const BasePatterns: seq<ScoringPattern> := [
    // Six of a kind
    ScoringPattern([1, 1, 1, 1, 1, 1], 8000),
    ScoringPattern([2, 2, 2, 2, 2, 2], 1600),
    ScoringPattern([3, 3, 3, 3, 3, 3], 2400),
    ScoringPattern([4, 4, 4, 4, 4, 4], 3200),
    ScoringPattern([5, 5, 5, 5, 5, 5], 4000),
    ScoringPattern([6, 6, 6, 6, 6, 6], 4800),
    // Five of a kind
    ScoringPattern([1, 1, 1, 1, 1], 4000),
    ScoringPattern([2, 2, 2, 2, 2], 800),
    ScoringPattern([3, 3, 3, 3, 3], 1200),
    ScoringPattern([4, 4, 4, 4, 4], 1600),
    ScoringPattern([5, 5, 5, 5, 5], 2000),
    ScoringPattern([6, 6, 6, 6, 6], 2400),
    // Four of a kind
    ScoringPattern([1, 1, 1, 1], 2000),
    ScoringPattern([2, 2, 2, 2], 400),
    ScoringPattern([3, 3, 3, 3], 600),
    ScoringPattern([4, 4, 4, 4], 800),
    ScoringPattern([5, 5, 5, 5], 1000),
    ScoringPattern([6, 6, 6, 6], 1200),
    // Straights
    ScoringPattern([1, 2, 3, 4, 5, 6], 1500),
    ScoringPattern([1, 2, 3, 4, 5], 500),
    ScoringPattern([2, 3, 4, 5, 6], 750),
    // Three of a kind
    ScoringPattern([1, 1, 1], 1000),
    ScoringPattern([2, 2, 2], 200),
    ScoringPattern([3, 3, 3], 300),
    ScoringPattern([4, 4, 4], 400),
    ScoringPattern([5, 5, 5], 500),
    ScoringPattern([6, 6, 6], 600),
    // Single dice
    ScoringPattern([1], 100),
    ScoringPattern([5], 50)
  ]

  /** A rank of a sorted non-empty pattern. The catalog lists its patterns in strictly
      decreasing rank, which is how its entries are shown to be pairwise distinct. */
  function Rank(p: seq<int>): int {
    if |p| == 0 then 0
    else if p[0] == p[|p| - 1] then 1000 * |p| - p[0]
    else 3000 + 100 * |p| - 10 * p[0]
  }

  /** Every catalog pattern is sorted. */
  lemma CatalogSorted(i: int)
    requires 0 <= i < |BasePatterns|
    ensures Sorted(BasePatterns[i].pattern)
  {
    if i < 12 {
      CatalogSortedLong(i);
    } else if i < 21 {
      CatalogSortedMid(i);
    } else {
      CatalogSortedShort(i);
    }
  }

  /** Every catalog entry is 1..6 dice worth a positive score; only the two single-die
      entries at the end have length 1, and none has length 2. */
  lemma CatalogShape(i: int)
    requires 0 <= i < |BasePatterns|
    ensures 1 <= |BasePatterns[i].pattern| <= MaxDiceCount
    ensures AllDice(BasePatterns[i].pattern)
    ensures BasePatterns[i].score > 0
    ensures |BasePatterns[i].pattern| == 1 <==> i >= 27
    ensures |BasePatterns[i].pattern| != 2
  {
    if i < 12 {
      CatalogShapeLong(i);
    } else if i < 21 {
      CatalogShapeMid(i);
    } else {
      CatalogShapeShort(i);
    }
  }

  // The catalog entries one by one, in three slices: each case is checked on the literal entry.

  /** Entries 0..11, six and five of a kind, are sorted. */
  lemma CatalogSortedLong(i: int)
    requires 0 <= i < 12
    ensures Sorted(BasePatterns[i].pattern)
  {
    assert || i == 0 || i == 1 || i == 2 || i == 3 || i == 4 || i == 5 || i == 6 || i == 7
           || i == 8 || i == 9 || i == 10 || i == 11;
  }

  /** Entries 12..20, four of a kind and the straights, are sorted. */
  lemma CatalogSortedMid(i: int)
    requires 12 <= i < 21
    ensures Sorted(BasePatterns[i].pattern)
  {
    assert || i == 12 || i == 13 || i == 14 || i == 15 || i == 16 || i == 17 || i == 18 || i == 19
           || i == 20;
  }

  /** Entries 21..28, three of a kind and the single dice, are sorted. */
  lemma CatalogSortedShort(i: int)
    requires 21 <= i < 29
    ensures Sorted(BasePatterns[i].pattern)
  {
    assert || i == 21 || i == 22 || i == 23 || i == 24 || i == 25 || i == 26 || i == 27 || i == 28;
  }

  /** The shape of entries 0..11, six and five of a kind. */
  lemma CatalogShapeLong(i: int)
    requires 0 <= i < 12
    ensures 1 <= |BasePatterns[i].pattern| <= MaxDiceCount
    ensures AllDice(BasePatterns[i].pattern)
    ensures BasePatterns[i].score > 0
    ensures |BasePatterns[i].pattern| == 1 <==> i >= 27
    ensures |BasePatterns[i].pattern| != 2
  {
    assert || i == 0 || i == 1 || i == 2 || i == 3 || i == 4 || i == 5 || i == 6 || i == 7
           || i == 8 || i == 9 || i == 10 || i == 11;
  }

  /** The shape of entries 12..20, four of a kind and the straights. */
  lemma CatalogShapeMid(i: int)
    requires 12 <= i < 21
    ensures 1 <= |BasePatterns[i].pattern| <= MaxDiceCount
    ensures AllDice(BasePatterns[i].pattern)
    ensures BasePatterns[i].score > 0
    ensures |BasePatterns[i].pattern| == 1 <==> i >= 27
    ensures |BasePatterns[i].pattern| != 2
  {
    assert || i == 12 || i == 13 || i == 14 || i == 15 || i == 16 || i == 17 || i == 18 || i == 19
           || i == 20;
  }

  /** The shape of entries 21..28, three of a kind and the single dice. */
  lemma CatalogShapeShort(i: int)
    requires 21 <= i < 29
    ensures 1 <= |BasePatterns[i].pattern| <= MaxDiceCount
    ensures AllDice(BasePatterns[i].pattern)
    ensures BasePatterns[i].score > 0
    ensures |BasePatterns[i].pattern| == 1 <==> i >= 27
    ensures |BasePatterns[i].pattern| != 2
  {
    assert || i == 21 || i == 22 || i == 23 || i == 24 || i == 25 || i == 26 || i == 27 || i == 28;
  }

  /** The rank of each catalog pattern. */
  lemma CatalogRankAt(i: int)
    requires 0 <= i < |BasePatterns|
    ensures Rank(BasePatterns[i].pattern) == CatalogRank(i)
  {
    // The catalog entries one by one: each case is checked on the literal entry.
    assert || i == 0 || i == 1 || i == 2 || i == 3 || i == 4 || i == 5 || i == 6 || i == 7
           || i == 8 || i == 9 || i == 10 || i == 11 || i == 12 || i == 13 || i == 14
           || i == 15 || i == 16 || i == 17 || i == 18 || i == 19 || i == 20 || i == 21
           || i == 22 || i == 23 || i == 24 || i == 25 || i == 26 || i == 27 || i == 28;
  }

  /** What every catalog entry satisfies: a sorted pattern of 1..6 dice worth a positive score. */
  lemma CatalogEntry(i: int)
    requires 0 <= i < |BasePatterns|
    ensures Sorted(BasePatterns[i].pattern)
    ensures 1 <= |BasePatterns[i].pattern| <= MaxDiceCount
    ensures AllDice(BasePatterns[i].pattern)
    ensures BasePatterns[i].score > 0
    ensures |BasePatterns[i].pattern| == 1 <==> i >= 27
    ensures |BasePatterns[i].pattern| != 2
  {
    CatalogSorted(i);
    CatalogShape(i);
  }

  /** The rank of catalog entry `i`, decreasing in `i`. */
  function CatalogRank(i: int): int {
    if i < 6 then 6000 - (i + 1)
    else if i < 12 then 5000 - (i - 5)
    else if i < 18 then 4000 - (i - 11)
    else if i == 18 then 3590
    else if i == 19 then 3490
    else if i == 20 then 3480
    else if i < 27 then 3000 - (i - 20)
    else if i == 27 then 999
    else 995
  }

  /** Each catalog entry has a strictly higher rank than the next one. */
  lemma CatalogRankStep(i: int)
    requires 0 <= i < |BasePatterns| - 1
    ensures Rank(BasePatterns[i].pattern) > Rank(BasePatterns[i + 1].pattern)
  {
    CatalogRankAt(i);
    CatalogRankAt(i + 1);
  }

  lemma {:induction false} CatalogRankDecreases(i: int, j: int)
    requires 0 <= i < j < |BasePatterns|
    ensures Rank(BasePatterns[i].pattern) > Rank(BasePatterns[j].pattern)
    decreases j - i
  {
    CatalogRankStep(i);
    if j > i + 1 {
      CatalogRankDecreases(i + 1, j);
    }
  }

  /** No pattern appears twice in the catalog. */
  lemma CatalogDistinct(i: int, j: int)
    requires 0 <= i < |BasePatterns| && 0 <= j < |BasePatterns| && i != j
    ensures BasePatterns[i].pattern != BasePatterns[j].pattern
  {
    if i < j {
      CatalogRankDecreases(i, j);
    } else {
      CatalogRankDecreases(j, i);
    }
  }

  /** The number of dice showing `v`. */
  function Count(s: seq<int>, v: int): nat {
    multiset(s)[v]
  }

  /** `Counter(s)`: each value of `s` mapped to the number of times it occurs. */
  function CounterOf(s: seq<int>): map<int, int> {
    if |s| == 0 then map[]
    else
      var c := CounterOf(s[..|s| - 1]);
      var x := s[|s| - 1];
      c[x := (if x in c then c[x] else 0) + 1]
  }

  /** `c.subtract(b)`: one is taken from the count of each element of `b`, a missing key
      counting as zero, so counts may become negative. */
  function SubtractAll(c: map<int, int>, b: seq<int>): map<int, int> {
    if |b| == 0 then c
    else
      var d := SubtractAll(c, b[..|b| - 1]);
      var x := b[|b| - 1];
      d[x := (if x in d then d[x] else 0) - 1]
  }

  lemma {:induction false} CounterOfSpec(s: seq<int>)
    ensures forall v :: v in CounterOf(s) <==> v in s
    ensures forall v :: v in CounterOf(s) ==> CounterOf(s)[v] == Count(s, v)
  {
    if |s| > 0 {
      CounterOfSpec(s[..|s| - 1]);
      assert s == s[..|s| - 1] + [s[|s| - 1]];
    }
  }

  lemma {:induction false} SubtractAllSpec(c: map<int, int>, b: seq<int>)
    ensures forall v :: v in SubtractAll(c, b) <==> v in c || v in b
    ensures forall v :: v in SubtractAll(c, b) ==>
      SubtractAll(c, b)[v] == (if v in c then c[v] else 0) - Count(b, v)
  {
    if |b| > 0 {
      SubtractAllSpec(c, b[..|b| - 1]);
      assert b == b[..|b| - 1] + [b[|b| - 1]];
    }
  }

  /** `subtract_patterns`: a Counter of the rolled dice minus the pattern's dice. */
  function SubtractPatterns(rolled: seq<int>, pattern: seq<int>): map<int, int> {
    SubtractAll(CounterOf(rolled), pattern)
  }

  /** The difference has a key for every value in either tuple, holding the count in
      `rolled` minus the count in `pattern`. */
  lemma SubtractPatternsSpec(rolled: seq<int>, pattern: seq<int>)
    ensures forall v :: v in SubtractPatterns(rolled, pattern) <==> v in rolled || v in pattern
    ensures forall v :: v in SubtractPatterns(rolled, pattern) ==>
      SubtractPatterns(rolled, pattern)[v] + Count(pattern, v) == Count(rolled, v)
  {
    CounterOfSpec(rolled);
    SubtractAllSpec(CounterOf(rolled), pattern);
  }

  /** `are_dice_valid`: no count of the Counter is negative. */
  predicate AreDiceValid(c: map<int, int>) {
    forall v :: v in c ==> c[v] >= 0
  }

  /** The Counter difference has no negative count exactly when `pattern` is a
      sub-multiset of `rolled`. */
  lemma ValidDifferenceIsContainment(rolled: seq<int>, pattern: seq<int>)
    ensures AreDiceValid(SubtractPatterns(rolled, pattern)) <==> multiset(pattern) <= multiset(rolled)
  {
    var c := SubtractPatterns(rolled, pattern);
    SubtractPatternsSpec(rolled, pattern);
    if AreDiceValid(c) {
      forall v ensures multiset(pattern)[v] <= multiset(rolled)[v] {
        if v in pattern {
          assert v in c;
        }
      }
    } else {
      var v :| v in c && c[v] < 0;
      assert multiset(pattern)[v] > multiset(rolled)[v];
    }
  }

  /** `contains_pattern(a, b)`: holds exactly when every value occurs in `b` at most as often
      as in `a`, that is, `b` is a sub-multiset of `a`. */
  function ContainsPattern(a: seq<int>, b: seq<int>): (r: bool)
    ensures r <==> multiset(b) <= multiset(a)
  {
    ValidDifferenceIsContainment(a, b);
    AreDiceValid(SubtractPatterns(a, b))
  }

  /** Containment ignores the order of either tuple. */
  lemma ContainsIgnoresOrder(a: seq<int>, a': seq<int>, b: seq<int>, b': seq<int>)
    requires multiset(a) == multiset(a') && multiset(b) == multiset(b')
    ensures ContainsPattern(a, b) == ContainsPattern(a', b')
  {
  }

  /** A contained pattern never has more dice than the roll. */
  lemma ContainedIsShorter(a: seq<int>, b: seq<int>)
    requires ContainsPattern(a, b)
    ensures |b| <= |a|
  {
    assert |multiset(b)| <= |multiset(a)| by {
      assert multiset(b) <= multiset(a);
      assert multiset(a) == multiset(b) + (multiset(a) - multiset(b));
    }
  }
}
