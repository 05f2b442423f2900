/** The score table of farkle_ai/game/rules.py: a dynamic program that closes the base
    catalog under additive combination up to six dice, and the lookup `pattern_score`. */
module ScoreTable {
  import opened Sorting
  import opened Rules

  // ---------------------------------------------------------------------------
  // Insertion-ordered dicts
  // ---------------------------------------------------------------------------

  /** A Python dict from pattern to score: its keys in insertion order, and the mapping. */
  datatype Dict = Dict(keys: seq<seq<int>>, values: map<seq<int>, int>)

  const EmptyDict: Dict := Dict([], map[])

  /** Every key is listed once, and the listed keys are exactly the mapped ones. */
  predicate DictWF(d: Dict) {
    && (forall i, j :: 0 <= i < j < |d.keys| ==> d.keys[i] != d.keys[j])
    && (forall k :: k in d.values ==> k in d.keys)
    && (forall i :: 0 <= i < |d.keys| ==> d.keys[i] in d.values)
  }

  /** `d.get(k, 0)`. */
  function Get(d: Dict, k: seq<int>): int {
    if k in d.values then d.values[k] else 0
  }

  /** `d[k] = v`: a new key goes to the end of the iteration order, a present key keeps
      its place. */
  function Put(d: Dict, k: seq<int>, v: int): Dict {
    Dict(if k in d.values then d.keys else d.keys + [k], d.values[k := v])
  }

  /** After `d[k] = v`, `k` maps to `v`, every other key keeps its value, the old keys keep
      their positions, and a well-formed dict stays well-formed. */
  lemma PutSpec(d: Dict, k: seq<int>, v: int)
    ensures Get(Put(d, k, v), k) == v
    ensures forall k' :: k' != k ==> Get(Put(d, k, v), k') == Get(d, k')
    ensures |d.keys| <= |Put(d, k, v).keys| <= |d.keys| + 1
    ensures forall i :: 0 <= i < |d.keys| ==> Put(d, k, v).keys[i] == d.keys[i]
    ensures DictWF(d) ==> DictWF(Put(d, k, v))
    ensures forall k' :: k' in Put(d, k, v).values <==> k' == k || k' in d.values
  {
  }

  /** The `i`-th item of `d.items()`. */
  function Item(d: Dict, i: int): ScoringPattern
    requires 0 <= i < |d.keys|
  {
    ScoringPattern(d.keys[i], Get(d, d.keys[i]))
  }

  // ---------------------------------------------------------------------------
  // The dynamic program
  // ---------------------------------------------------------------------------

  /** The `defaultdict` of dicts keyed by pattern length: `layers[k]` is `dp[k]` (empty until
      written), and `order` lists the lengths in the order they were first accessed, which is
      the order in which `dp.values()` later yields them. */
  datatype Dp = Dp(layers: seq<Dict>, order: seq<int>)

  const EmptyDp: Dp := Dp([EmptyDict, EmptyDict, EmptyDict, EmptyDict, EmptyDict, EmptyDict, EmptyDict], [])

  /** Accessing `dp[k]`: a first access creates the key. */
  function Touch(dp: Dp, k: int): Dp {
    if k in dp.order then dp else dp.(order := dp.order + [k])
  }

  /** `dp[k][p] = s`. */
  function PutInLayer(dp: Dp, k: int, p: seq<int>, s: int): Dp
    requires 0 <= k < |dp.layers|
  {
    dp.(layers := dp.layers[k := Put(dp.layers[k], p, s)])
  }

  /** One seeding step: `dp[len(pattern)][pattern] = score`. */
  function SeedStep(dp: Dp, b: ScoringPattern): Dp
    requires |dp.layers| == MaxDiceCount + 1 && |b.pattern| <= MaxDiceCount
  {
    var count := |b.pattern|;
    PutInLayer(Touch(dp, count), count, b.pattern, b.score)
  }

  /** Every entry of the catalog has at most six dice. */
  predicate ShortEntries(cat: seq<ScoringPattern>) {
    forall i :: 0 <= i < |cat| ==> |cat[i].pattern| <= MaxDiceCount
  }

  /** The seeding loop over the first `n` entries of a catalog, starting from `start`. */
  function Seed(start: Dp, cat: seq<ScoringPattern>, n: nat): (dp: Dp)
    requires |start.layers| == MaxDiceCount + 1 && n <= |cat| && ShortEntries(cat)
    ensures |dp.layers| == MaxDiceCount + 1
  {
    if n == 0 then start
    else SeedStep(Seed(start, cat, n - 1), cat[n - 1])
  }

  /** One iteration of the innermost loop: the sum of `a` and `b` replaces the entry for
      their sorted union in `dp[count]` only when it is larger. */
  function PairStep(dp: Dp, count: int, a: ScoringPattern, b: ScoringPattern): Dp
    requires |dp.layers| == MaxDiceCount + 1 && 0 <= count <= MaxDiceCount
  {
    var d := Touch(dp, count);
    var pattern := Sort(a.pattern + b.pattern);
    var score := a.score + b.score;
    if score > Get(d.layers[count], pattern) then PutInLayer(d, count, pattern, score)
    else d
  }

  /** The innermost loop: `pattern_a` (with its score) against the first `n` items of
      `dp[count_b]`. */
  function PairB(dp: Dp, count: int, a: ScoringPattern, lb: Dict, n: nat): (r: Dp)
    requires |dp.layers| == MaxDiceCount + 1 && 0 <= count <= MaxDiceCount && n <= |lb.keys|
    ensures |r.layers| == |dp.layers|
  {
    if n == 0 then dp else PairStep(PairB(dp, count, a, lb, n - 1), count, a, Item(lb, n - 1))
  }

  /** The loop over the first `n` items of `dp[count_a]`; each iteration reads `dp[count_b]`. */
  function PairA(dp: Dp, count: int, countB: int, la: Dict, n: nat): (r: Dp)
    requires |dp.layers| == MaxDiceCount + 1 && 0 <= count <= MaxDiceCount
    requires 0 <= countB <= MaxDiceCount && n <= |la.keys|
    ensures |r.layers| == |dp.layers|
  {
    if n == 0 then dp
    else
      var d := Touch(PairA(dp, count, countB, la, n - 1), countB);
      PairB(d, count, Item(la, n - 1), d.layers[countB], |d.layers[countB].keys|)
  }

  /** The loop `for count_a in range(1, n + 1)` for one target length `count`. */
  function Split(dp: Dp, count: int, n: nat): (r: Dp)
    requires |dp.layers| == MaxDiceCount + 1 && 0 <= count <= MaxDiceCount && n <= count
    ensures |r.layers| == |dp.layers|
  {
    if n == 0 then dp
    else
      var d := Touch(Split(dp, count, n - 1), n);
      PairA(d, count, count - n, d.layers[n], |d.layers[n].keys|)
  }

  /** The loop `for count in range(1, n + 1)`, each count split as `count_a <= count // 2`. */
  function Grow(dp: Dp, n: nat): (r: Dp)
    requires |dp.layers| == MaxDiceCount + 1 && n <= MaxDiceCount
    ensures |r.layers| == |dp.layers|
  {
    if n == 0 then dp else Split(Grow(dp, n - 1), n, n / 2)
  }

  /** The state after the seeding loop over the catalog. */
  function Seeded(): (dp: Dp)
    ensures |dp.layers| == MaxDiceCount + 1
  {
    CatalogShort();
    Seed(EmptyDp, BasePatterns, |BasePatterns|)
  }

  /** The dynamic program's final state. */
  function BuildDp(): Dp {
    Grow(Seeded(), MaxDiceCount)
  }

  /** Copies the first `n` items of `d` into `acc`. */
  function PutAll(acc: Dict, d: Dict, n: nat): Dict
    requires n <= |d.keys|
  {
    if n == 0 then acc else Put(PutAll(acc, d, n - 1), d.keys[n - 1], Get(d, d.keys[n - 1]))
  }

  /** `{pattern: score for scores in dp.values() for pattern, score in scores.items()}`:
      the layers in first-access order, each in its own insertion order. */
  function Collect(layers: seq<Dict>, order: seq<int>): Dict
    requires forall i :: 0 <= i < |order| ==> 0 <= order[i] < |layers|
  {
    if |order| == 0 then EmptyDict
    else
      var last := layers[order[|order| - 1]];
      PutAll(Collect(layers, order[..|order| - 1]), last, |last.keys|)
  }

  /** `scorable_patterns_table()`: every pattern the dynamic program reached, with its score. */
  function Table(): Dict {
    BuildDpWF();
    Collect(BuildDp().layers, BuildDp().order)
  }

  /** `pattern_score(dice)`: the table's score for exactly this tuple of dice, 0 when absent.
      Only sorted tuples of one to six die faces can score. */
  function PatternScore(dice: seq<int>): (r: int)
    ensures r >= 0
    ensures r > 0 <==> dice in Table().values
    ensures r > 0 ==> 1 <= |dice| <= MaxDiceCount && Sorted(dice) && AllDice(dice)
  {
    TableEntries(dice);
    Get(Table(), dice)
  }

  // ---------------------------------------------------------------------------
  // Invariants of the dynamic program
  // ---------------------------------------------------------------------------

  /** What an item of `dp[k]` looks like: a sorted pattern of `k` dice, `1 <= k <= 6`,
      worth a positive score. */
  predicate LegalEntry(e: ScoringPattern, k: int) {
    && |e.pattern| == k && 1 <= k <= MaxDiceCount
    && Sorted(e.pattern) && AllDice(e.pattern) && e.score > 0
  }

  /** Every layer is a well-formed dict of legal items of its own length. */
  ghost predicate LayersWF(layers: seq<Dict>) {
    && |layers| == MaxDiceCount + 1
    && (forall k :: 0 <= k < |layers| ==> DictWF(layers[k]))
    && (forall k, p :: 0 <= k < |layers| && p in layers[k].values ==>
          LegalEntry(ScoringPattern(p, layers[k].values[p]), k))
  }

  /** The access order lists distinct lengths 1 to 6, including every non-empty layer. */
  ghost predicate OrderWF(dp: Dp) {
    && (forall i :: 0 <= i < |dp.order| ==> 1 <= dp.order[i] <= MaxDiceCount)
    && (forall i, j :: 0 <= i < j < |dp.order| ==> dp.order[i] != dp.order[j])
    && (forall k :: 0 <= k < |dp.layers| && |dp.layers[k].keys| > 0 ==> k in dp.order)
  }

  ghost predicate WF(dp: Dp) {
    LayersWF(dp.layers) && OrderWF(dp)
  }

  /** No recorded score decreases from `dp` to `r`. */
  ghost predicate Grows(dp: Dp, r: Dp) {
    && |dp.layers| == |r.layers|
    && forall k, p :: 0 <= k < |dp.layers| ==> Get(dp.layers[k], p) <= Get(r.layers[k], p)
  }

  /** No score recorded in layer `count` decreases from `dp` to `r`. */
  ghost predicate LayerGrows(dp: Dp, r: Dp, count: int)
    requires 0 <= count < |dp.layers| && 0 <= count < |r.layers|
  {
    forall p :: Get(dp.layers[count], p) <= Get(r.layers[count], p)
  }

  /** `r` differs from `dp` at most in layer `count`. */
  ghost predicate SameOutside(dp: Dp, r: Dp, count: int) {
    && |dp.layers| == |r.layers|
    && forall k :: 0 <= k < |dp.layers| && k != count ==> r.layers[k] == dp.layers[k]
  }

  /** The sum of `a` and `b` is recorded (or beaten) under their sorted union in `dp[count]`. */
  predicate Covered(dp: Dp, count: int, a: ScoringPattern, b: ScoringPattern)
    requires 0 <= count < |dp.layers|
  {
    Get(dp.layers[count], Sort(a.pattern + b.pattern)) >= a.score + b.score
  }

  /** Every pair of an item of `dp[x]` with an item of `dp[y]` is covered in `dp[x + y]`. */
  ghost predicate SplitCovered(dp: Dp, x: int, y: int)
    requires |dp.layers| == MaxDiceCount + 1 && 0 <= x && 0 <= y && x + y <= MaxDiceCount
  {
    forall i, j :: 0 <= i < |dp.layers[x].keys| && 0 <= j < |dp.layers[y].keys| ==>
      Covered(dp, x + y, Item(dp.layers[x], i), Item(dp.layers[y], j))
  }

  lemma GrowsTransitive(a: Dp, b: Dp, c: Dp)
    requires Grows(a, b) && Grows(b, c)
    ensures Grows(a, c)
  {
  }

  /** Growth in one layer and nothing else changed is growth. */
  lemma LayerGrowsIsGrowth(dp: Dp, r: Dp, count: int)
    requires 0 <= count < |dp.layers| && SameOutside(dp, r, count) && LayerGrows(dp, r, count)
    ensures Grows(dp, r)
  {
    forall k, p | 0 <= k < |dp.layers| ensures Get(dp.layers[k], p) <= Get(r.layers[k], p) {
      if k != count {
        assert r.layers[k] == dp.layers[k];
      }
    }
  }

  lemma GrowsKeepsCovered(dp: Dp, r: Dp, count: int, a: ScoringPattern, b: ScoringPattern)
    requires 0 <= count < |dp.layers| && 0 <= count < |r.layers| && LayerGrows(dp, r, count)
    requires Covered(dp, count, a, b)
    ensures Covered(r, count, a, b)
  {
    var p := Sort(a.pattern + b.pattern);
    assert Get(dp.layers[count], p) <= Get(r.layers[count], p);
  }

  /** Coverage of `a` with the first `m` items of `lb` survives growth. */
  lemma CoveredKept(dp: Dp, r: Dp, count: int, a: ScoringPattern, lb: Dict, m: nat)
    requires 0 <= count < |dp.layers| && 0 <= count < |r.layers| && LayerGrows(dp, r, count)
    requires m <= |lb.keys|
    requires forall y :: 0 <= y < m ==> Covered(dp, count, a, Item(lb, y))
    ensures forall y :: 0 <= y < m ==> Covered(r, count, a, Item(lb, y))
  {
    forall y | 0 <= y < m ensures Covered(r, count, a, Item(lb, y)) {
      GrowsKeepsCovered(dp, r, count, a, Item(lb, y));
    }
  }

  /** Both layers of a split are untouched from `dp` to `r`, so their coverage survives. */
  lemma SplitCoveredKept(dp: Dp, r: Dp, x: int, y: int)
    requires |dp.layers| == MaxDiceCount + 1 && 0 <= x && 0 <= y && x + y <= MaxDiceCount
    requires |r.layers| == |dp.layers| && LayerGrows(dp, r, x + y)
    requires r.layers[x] == dp.layers[x] && r.layers[y] == dp.layers[y]
    requires SplitCovered(dp, x, y)
    ensures SplitCovered(r, x, y)
  {
    forall i, j | 0 <= i < |r.layers[x].keys| && 0 <= j < |r.layers[y].keys|
      ensures Covered(r, x + y, Item(r.layers[x], i), Item(r.layers[y], j))
    {
      GrowsKeepsCovered(dp, r, x + y, Item(dp.layers[x], i), Item(dp.layers[y], j));
    }
  }

  lemma TouchKeepsWF(dp: Dp, k: int)
    requires WF(dp) && 1 <= k <= MaxDiceCount
    ensures WF(Touch(dp, k)) && Touch(dp, k).layers == dp.layers && k in Touch(dp, k).order
  {
  }

  /** Writing a legal item into a touched layer of a well-formed `dp` keeps it well-formed. */
  lemma PutKeepsWF(dp: Dp, k: int, p: seq<int>, s: int)
    requires WF(dp) && k in dp.order && LegalEntry(ScoringPattern(p, s), k)
    ensures WF(PutInLayer(dp, k, p, s))
  {
    var r := PutInLayer(dp, k, p, s);
    forall k', q | 0 <= k' < |r.layers| && q in r.layers[k'].values
      ensures LegalEntry(ScoringPattern(q, r.layers[k'].values[q]), k')
    {
      if k' == k && q != p {
        assert r.layers[k].values[q] == dp.layers[k].values[q];
      }
    }
  }

  /** Sorting the concatenation of two runs of die faces leaves only die faces. */
  lemma AllDiceUnion(a: seq<int>, b: seq<int>)
    requires AllDice(a) && AllDice(b)
    ensures AllDice(Sort(a + b))
  {
    var u := Sort(a + b);
    SortSpec(a + b);
    forall v | v in u ensures 1 <= v <= MaxDieValue {
      assert v in multiset(u);
      assert v in multiset(a + b);
      assert v in a + b;
    }
  }

  /** The sorted union of two legal patterns is a legal pattern of the summed length. */
  lemma UnionIsLegal(a: ScoringPattern, b: ScoringPattern, count: int)
    requires LegalEntry(a, |a.pattern|) && LegalEntry(b, count - |a.pattern|) && count <= MaxDiceCount
    ensures LegalEntry(ScoringPattern(Sort(a.pattern + b.pattern), a.score + b.score), count)
  {
    AllDiceUnion(a.pattern, b.pattern);
    SortSpec(a.pattern + b.pattern);
    assert |Sort(a.pattern + b.pattern)| == count;
  }

  // ---------------------------------------------------------------------------
  // Seeding
  // ---------------------------------------------------------------------------

  lemma CatalogShort()
    ensures ShortEntries(BasePatterns)
  {
    forall i | 0 <= i < |BasePatterns| ensures |BasePatterns[i].pattern| <= MaxDiceCount {
      CatalogShape(i);
    }
  }

  /** Every catalog entry is a legal item of the layer of its length. */
  ghost predicate LegalCatalog(cat: seq<ScoringPattern>) {
    forall i :: 0 <= i < |cat| ==> LegalAt(cat, i)
  }

  /** Entry `i` of the catalog is a legal item of the layer of its length. */
  ghost predicate LegalAt(cat: seq<ScoringPattern>, i: int)
    requires 0 <= i < |cat|
  {
    LegalEntry(cat[i], |cat[i].pattern|)
  }

  /** No pattern appears twice in the catalog. */
  predicate DistinctPatterns(cat: seq<ScoringPattern>) {
    forall i, j :: 0 <= i < j < |cat| ==> cat[i].pattern != cat[j].pattern
  }

  lemma BaseCatalogLegal()
    ensures LegalCatalog(BasePatterns) && DistinctPatterns(BasePatterns)
  {
    forall i | 0 <= i < |BasePatterns| ensures LegalAt(BasePatterns, i) {
      CatalogEntry(i);
    }
    forall i, j | 0 <= i < j < |BasePatterns| ensures BasePatterns[i].pattern != BasePatterns[j].pattern {
      CatalogDistinct(i, j);
    }
  }

  /** One seeding step keeps `dp` well-formed. */
  lemma SeedStepWF(dp: Dp, b: ScoringPattern)
    ensures WF(dp) && LegalEntry(b, |b.pattern|) ==> WF(SeedStep(dp, b))
  {
    if WF(dp) && LegalEntry(b, |b.pattern|) {
      var count := |b.pattern|;
      TouchKeepsWF(dp, count);
      PutKeepsWF(Touch(dp, count), count, b.pattern, b.score);
    }
  }

  /** One seeding step leaves the score of any other pattern as it was. */
  lemma SeedStepOther(dp: Dp, b: ScoringPattern, k: int, p: seq<int>)
    requires |dp.layers| == MaxDiceCount + 1 && |b.pattern| <= MaxDiceCount
    requires 0 <= k < |dp.layers| && p != b.pattern
    ensures Get(SeedStep(dp, b).layers[k], p) == Get(dp.layers[k], p)
  {
    var count := |b.pattern|;
    if k == count {
      PutSpec(Touch(dp, count).layers[count], b.pattern, b.score);
    }
  }

  lemma EmptyDpWF()
    ensures WF(EmptyDp)
  {
    assert forall k :: 0 <= k < |EmptyDp.layers| ==> EmptyDp.layers[k] == EmptyDict;
  }

  /** Seeding a catalog of legal entries with distinct patterns records each entry exactly. */
  lemma SeedSpec(cat: seq<ScoringPattern>, n: nat)
    requires n <= |cat| && LegalCatalog(cat) && DistinctPatterns(cat)
    ensures ShortEntries(cat) && WF(Seed(EmptyDp, cat, n))
    ensures forall x :: 0 <= x < n ==> Get(Seed(EmptyDp, cat, n).layers[|cat[x].pattern|], cat[x].pattern) == cat[x].score
  {
    LegalIsShort(cat);
    EmptyDpWF();
    SeedWF(EmptyDp, cat, n);
    SeedValues(EmptyDp, cat, n);
  }

  lemma {:induction false} SeedWF(start: Dp, cat: seq<ScoringPattern>, n: nat)
    requires n <= |cat| && ShortEntries(cat) && LegalCatalog(cat) && WF(start)
    ensures WF(Seed(start, cat, n))
  {
    if n > 0 {
      SeedWF(start, cat, n - 1);
      SeedPrefixWF(start, cat, n);
    }
  }

  lemma SeedPrefixWF(start: Dp, cat: seq<ScoringPattern>, n: nat)
    requires |start.layers| == MaxDiceCount + 1 && 0 < n <= |cat| && ShortEntries(cat)
    requires WF(Seed(start, cat, n - 1)) && LegalAt(cat, n - 1)
    ensures WF(Seed(start, cat, n))
  {
    SeedStepWF(Seed(start, cat, n - 1), cat[n - 1]);
  }

  lemma LegalIsShort(cat: seq<ScoringPattern>)
    requires LegalCatalog(cat)
    ensures ShortEntries(cat)
  {
    forall i | 0 <= i < |cat| ensures |cat[i].pattern| <= MaxDiceCount {
      assert LegalAt(cat, i);
    }
  }

  lemma SeedValues(start: Dp, cat: seq<ScoringPattern>, n: nat)
    requires |start.layers| == MaxDiceCount + 1 && n <= |cat| && ShortEntries(cat) && DistinctPatterns(cat)
    ensures forall x :: 0 <= x < n ==> Get(Seed(start, cat, n).layers[|cat[x].pattern|], cat[x].pattern) == cat[x].score
  {
    forall x | 0 <= x < n
      ensures Get(Seed(start, cat, n).layers[|cat[x].pattern|], cat[x].pattern) == cat[x].score
    {
      SeedValueAt(start, cat, n, x);
    }
  }

  /** After the first `n` seeding steps, entry `x < n` is recorded with its score: a later
      step writes another pattern, since the catalog's patterns are distinct. */
  lemma {:induction false} SeedValueAt(start: Dp, cat: seq<ScoringPattern>, n: nat, x: int)
    requires |start.layers| == MaxDiceCount + 1 && n <= |cat| && ShortEntries(cat) && DistinctPatterns(cat)
    requires 0 <= x < n
    ensures Get(Seed(start, cat, n).layers[|cat[x].pattern|], cat[x].pattern) == cat[x].score
  {
    if x == n - 1 {
      SeedLastValue(start, cat, n);
    } else {
      SeedValueAt(start, cat, n - 1, x);
      SeedKeepsEarlier(start, cat, n, x);
    }
  }

  /** Seeding step `n` keeps the score recorded for an earlier entry. */
  lemma SeedKeepsEarlier(start: Dp, cat: seq<ScoringPattern>, n: nat, x: int)
    requires |start.layers| == MaxDiceCount + 1 && 0 < n <= |cat| && ShortEntries(cat) && DistinctPatterns(cat)
    requires 0 <= x < n - 1
    requires Get(Seed(start, cat, n - 1).layers[|cat[x].pattern|], cat[x].pattern) == cat[x].score
    ensures Get(Seed(start, cat, n).layers[|cat[x].pattern|], cat[x].pattern) == cat[x].score
  {
    assert cat[x].pattern != cat[n - 1].pattern;
    SeedLaterOther(start, cat, n, |cat[x].pattern|, cat[x].pattern);
  }

  /** Seeding step `n` records entry `n - 1`. */
  lemma SeedLastValue(start: Dp, cat: seq<ScoringPattern>, n: nat)
    requires |start.layers| == MaxDiceCount + 1 && 0 < n <= |cat| && ShortEntries(cat)
    ensures Get(Seed(start, cat, n).layers[|cat[n - 1].pattern|], cat[n - 1].pattern) == cat[n - 1].score
  {
    var prev, b := Seed(start, cat, n - 1), cat[n - 1];
    PutSpec(Touch(prev, |b.pattern|).layers[|b.pattern|], b.pattern, b.score);
  }

  /** Seeding step `n` leaves the score of any other pattern as it was. */
  lemma SeedLaterOther(start: Dp, cat: seq<ScoringPattern>, n: nat, k: int, p: seq<int>)
    requires |start.layers| == MaxDiceCount + 1 && 0 < n <= |cat| && ShortEntries(cat)
    requires 0 <= k <= MaxDiceCount && p != cat[n - 1].pattern
    ensures Get(Seed(start, cat, n).layers[k], p) == Get(Seed(start, cat, n - 1).layers[k], p)
  {
    SeedStepOther(Seed(start, cat, n - 1), cat[n - 1], k, p);
  }

  // ---------------------------------------------------------------------------
  // Combination loops
  // ---------------------------------------------------------------------------

  // One iteration of the innermost loop ...

  /** ... lowers no score, touches only `dp[count]`, and leaves the pair covered; */
  lemma PairStepGrows(dp: Dp, count: int, a: ScoringPattern, b: ScoringPattern)
    requires |dp.layers| == MaxDiceCount + 1 && 0 <= count <= MaxDiceCount
    ensures LayerGrows(dp, PairStep(dp, count, a, b), count) && SameOutside(dp, PairStep(dp, count, a, b), count)
    ensures Covered(PairStep(dp, count, a, b), count, a, b)
  {
  }

  /** ... and keeps `dp` well-formed when both items are legal. */
  lemma PairStepWF(dp: Dp, count: int, a: ScoringPattern, b: ScoringPattern)
    requires WF(dp)
    requires LegalEntry(a, |a.pattern|) && LegalEntry(b, count - |a.pattern|) && count <= MaxDiceCount
    ensures WF(PairStep(dp, count, a, b))
  {
    TouchKeepsWF(dp, count);
    var d := Touch(dp, count);
    var pattern := Sort(a.pattern + b.pattern);
    var score := a.score + b.score;
    if score > Get(d.layers[count], pattern) {
      UnionIsLegal(a, b, count);
      PutKeepsWF(d, count, pattern, score);
      assert PairStep(dp, count, a, b) == PutInLayer(d, count, pattern, score);
    } else {
      assert PairStep(dp, count, a, b) == d;
    }
  }

  lemma {:induction false} PairBGrows(dp: Dp, count: int, a: ScoringPattern, lb: Dict, n: nat)
    requires |dp.layers| == MaxDiceCount + 1 && 0 <= count <= MaxDiceCount && n <= |lb.keys|
    ensures LayerGrows(dp, PairB(dp, count, a, lb, n), count) && SameOutside(dp, PairB(dp, count, a, lb, n), count)
  {
    if n > 0 {
      PairBGrows(dp, count, a, lb, n - 1);
      PairStepGrows(PairB(dp, count, a, lb, n - 1), count, a, Item(lb, n - 1));
    }
  }

  lemma {:induction false} PairBCovers(dp: Dp, count: int, a: ScoringPattern, lb: Dict, n: nat)
    requires |dp.layers| == MaxDiceCount + 1 && 0 <= count <= MaxDiceCount && n <= |lb.keys|
    ensures forall y :: 0 <= y < n ==> Covered(PairB(dp, count, a, lb, n), count, a, Item(lb, y))
  {
    if n > 0 {
      PairBCovers(dp, count, a, lb, n - 1);
      var prev := PairB(dp, count, a, lb, n - 1);
      PairStepGrows(prev, count, a, Item(lb, n - 1));
      CoveredKept(prev, PairB(dp, count, a, lb, n), count, a, lb, n - 1);
    }
  }

  /** The items of a well-formed layer `k` are legal entries of length `k`. */
  lemma LayerItemsLegal(dp: Dp, k: int)
    requires WF(dp) && 0 <= k < |dp.layers|
    ensures forall i :: 0 <= i < |dp.layers[k].keys| ==> LegalEntry(Item(dp.layers[k], i), k)
  {
    forall i | 0 <= i < |dp.layers[k].keys| ensures LegalEntry(Item(dp.layers[k], i), k) {
      assert dp.layers[k].keys[i] in dp.layers[k].values;
    }
  }

  lemma {:induction false} PairBWF(dp: Dp, count: int, a: ScoringPattern, lb: Dict, n: nat)
    requires WF(dp)
    requires LegalEntry(a, |a.pattern|) && |a.pattern| < count <= MaxDiceCount
    requires forall i :: 0 <= i < |lb.keys| ==> LegalEntry(Item(lb, i), count - |a.pattern|)
    requires n <= |lb.keys|
    ensures WF(PairB(dp, count, a, lb, n))
  {
    if n > 0 {
      PairBWF(dp, count, a, lb, n - 1);
      PairStepWF(PairB(dp, count, a, lb, n - 1), count, a, Item(lb, n - 1));
    }
  }

  lemma {:induction false} PairAGrows(dp: Dp, count: int, countB: int, la: Dict, n: nat)
    requires |dp.layers| == MaxDiceCount + 1 && 0 <= countB < count <= MaxDiceCount && n <= |la.keys|
    ensures LayerGrows(dp, PairA(dp, count, countB, la, n), count)
    ensures SameOutside(dp, PairA(dp, count, countB, la, n), count)
  {
    if n > 0 {
      PairAGrows(dp, count, countB, la, n - 1);
      var d := Touch(PairA(dp, count, countB, la, n - 1), countB);
      PairBGrows(d, count, Item(la, n - 1), d.layers[countB], |d.layers[countB].keys|);
    }
  }

  /** Coverage of the first `m` items of `la` with all of `lb` survives growth. */
  lemma CoveredKept2(dp: Dp, r: Dp, count: int, la: Dict, lb: Dict, m: nat)
    requires 0 <= count < |dp.layers| && 0 <= count < |r.layers| && LayerGrows(dp, r, count)
    requires m <= |la.keys|
    requires forall i, j :: 0 <= i < m && 0 <= j < |lb.keys| ==> Covered(dp, count, Item(la, i), Item(lb, j))
    ensures forall i, j :: 0 <= i < m && 0 <= j < |lb.keys| ==> Covered(r, count, Item(la, i), Item(lb, j))
  {
    forall i, j | 0 <= i < m && 0 <= j < |lb.keys| ensures Covered(r, count, Item(la, i), Item(lb, j)) {
      GrowsKeepsCovered(dp, r, count, Item(la, i), Item(lb, j));
    }
  }

  lemma {:induction false} PairACovers(dp: Dp, count: int, countB: int, la: Dict, n: nat)
    requires |dp.layers| == MaxDiceCount + 1 && 0 <= countB < count <= MaxDiceCount && n <= |la.keys|
    ensures forall i, j :: 0 <= i < n && 0 <= j < |dp.layers[countB].keys| ==>
      Covered(PairA(dp, count, countB, la, n), count, Item(la, i), Item(dp.layers[countB], j))
  {
    if n > 0 {
      PairACovers(dp, count, countB, la, n - 1);
      PairACoversKept(dp, count, countB, la, n);
      PairACoversLast(dp, count, countB, la, n);
    }
  }

  /** The last outer iteration covers its item with every item of `dp[count_b]`. */
  lemma PairACoversLast(dp: Dp, count: int, countB: int, la: Dict, n: nat)
    requires |dp.layers| == MaxDiceCount + 1 && 0 <= countB < count <= MaxDiceCount && 0 < n <= |la.keys|
    ensures forall j :: 0 <= j < |dp.layers[countB].keys| ==>
      Covered(PairA(dp, count, countB, la, n), count, Item(la, n - 1), Item(dp.layers[countB], j))
  {
    PairAGrows(dp, count, countB, la, n - 1);
    var d := Touch(PairA(dp, count, countB, la, n - 1), countB);
    PairBCovers(d, count, Item(la, n - 1), d.layers[countB], |d.layers[countB].keys|);
  }

  /** The last outer iteration keeps what the earlier ones covered. */
  lemma PairACoversKept(dp: Dp, count: int, countB: int, la: Dict, n: nat)
    requires |dp.layers| == MaxDiceCount + 1 && 0 <= countB < count <= MaxDiceCount && 0 < n <= |la.keys|
    requires forall i, j :: 0 <= i < n - 1 && 0 <= j < |dp.layers[countB].keys| ==>
      Covered(PairA(dp, count, countB, la, n - 1), count, Item(la, i), Item(dp.layers[countB], j))
    ensures forall i, j :: 0 <= i < n - 1 && 0 <= j < |dp.layers[countB].keys| ==>
      Covered(PairA(dp, count, countB, la, n), count, Item(la, i), Item(dp.layers[countB], j))
  {
    var prev := PairA(dp, count, countB, la, n - 1);
    var d := Touch(prev, countB);
    PairBGrows(d, count, Item(la, n - 1), d.layers[countB], |d.layers[countB].keys|);
    CoveredKept2(prev, PairA(dp, count, countB, la, n), count, la, dp.layers[countB], n - 1);
  }

  lemma {:induction false} PairAWF(dp: Dp, count: int, countB: int, la: Dict, n: nat)
    requires WF(dp)
    requires 1 <= countB < count <= MaxDiceCount
    requires forall i :: 0 <= i < |la.keys| ==> LegalEntry(Item(la, i), count - countB)
    requires n <= |la.keys|
    ensures WF(PairA(dp, count, countB, la, n))
  {
    if n > 0 {
      PairAWF(dp, count, countB, la, n - 1);
      PairAPrefixWF(dp, count, countB, la, n);
    }
  }

  /** One more outer iteration keeps the table well formed. */
  lemma PairAPrefixWF(dp: Dp, count: int, countB: int, la: Dict, n: nat)
    requires |dp.layers| == MaxDiceCount + 1 && 1 <= countB < count <= MaxDiceCount
    requires forall i :: 0 <= i < |la.keys| ==> LegalEntry(Item(la, i), count - countB)
    requires 0 < n <= |la.keys| && WF(PairA(dp, count, countB, la, n - 1))
    ensures WF(PairA(dp, count, countB, la, n))
  {
    var prev := PairA(dp, count, countB, la, n - 1);
    TouchKeepsWF(prev, countB);
    var d := Touch(prev, countB);
    LayerItemsLegal(d, countB);
    PairBWF(d, count, Item(la, n - 1), d.layers[countB], |d.layers[countB].keys|);
  }

  lemma {:induction false} SplitGrows(dp: Dp, count: int, n: nat)
    requires |dp.layers| == MaxDiceCount + 1 && 1 <= count <= MaxDiceCount && n <= count / 2
    ensures LayerGrows(dp, Split(dp, count, n), count) && SameOutside(dp, Split(dp, count, n), count)
  {
    if n > 0 {
      SplitGrows(dp, count, n - 1);
      var d := Touch(Split(dp, count, n - 1), n);
      PairAGrows(d, count, count - n, d.layers[n], |d.layers[n].keys|);
    }
  }

  /** One split step raises no score of `dp[count]` and leaves the other layers alone. */
  lemma SplitStepGrows(dp: Dp, count: int, n: nat)
    requires |dp.layers| == MaxDiceCount + 1 && 1 <= count <= MaxDiceCount && 0 < n <= count / 2
    ensures LayerGrows(Split(dp, count, n - 1), Split(dp, count, n), count)
    ensures SameOutside(Split(dp, count, n - 1), Split(dp, count, n), count)
  {
    var d := Touch(Split(dp, count, n - 1), n);
    PairAGrows(d, count, count - n, d.layers[n], |d.layers[n].keys|);
  }

  lemma {:induction false} SplitCovers(dp: Dp, count: int, n: nat)
    requires |dp.layers| == MaxDiceCount + 1 && 1 <= count <= MaxDiceCount && n <= count / 2
    ensures forall x, y :: 1 <= x <= n && x + y == count ==> SplitCovered(Split(dp, count, n), x, y)
  {
    if n > 0 {
      SplitCovers(dp, count, n - 1);
      SplitCoversKept(dp, count, n, Split(dp, count, n - 1), Split(dp, count, n));
      SplitCoversLast(dp, count, n);
    }
  }

  /** The last split `count_a == n` covers all its pairs. */
  lemma SplitCoversLast(dp: Dp, count: int, n: nat)
    requires |dp.layers| == MaxDiceCount + 1 && 1 <= count <= MaxDiceCount && 0 < n <= count / 2
    ensures SplitCovered(Split(dp, count, n), n, count - n)
  {
    var d := Touch(Split(dp, count, n - 1), n);
    var la := d.layers[n];
    PairAGrows(d, count, count - n, la, |la.keys|);
    PairACovers(d, count, count - n, la, |la.keys|);
  }

  /** The last split keeps the pairs of the earlier splits covered. */
  lemma SplitCoversKept(dp: Dp, count: int, n: nat, prev: Dp, r: Dp)
    requires |dp.layers| == MaxDiceCount + 1 && 1 <= count <= MaxDiceCount && 0 < n <= count / 2
    requires prev == Split(dp, count, n - 1) && r == Split(dp, count, n)
    requires forall x, y :: 1 <= x < n && x + y == count ==> SplitCovered(prev, x, y)
    ensures forall x, y :: 1 <= x < n && x + y == count ==> SplitCovered(r, x, y)
  {
    SplitStepGrows(dp, count, n);
    forall x, y | 1 <= x < n && x + y == count ensures SplitCovered(r, x, y) {
      SplitCoveredKept(prev, r, x, y);
    }
  }

  lemma {:induction false} SplitWF(dp: Dp, count: int, n: nat)
    requires WF(dp) && 1 <= count <= MaxDiceCount && n <= count / 2
    ensures WF(Split(dp, count, n))
  {
    if n > 0 {
      SplitWF(dp, count, n - 1);
      SplitPrefixWF(dp, count, n);
    }
  }

  /** One more split step keeps the table well formed. */
  lemma SplitPrefixWF(dp: Dp, count: int, n: nat)
    requires |dp.layers| == MaxDiceCount + 1 && 1 <= count <= MaxDiceCount && 0 < n <= count / 2
    requires WF(Split(dp, count, n - 1))
    ensures WF(Split(dp, count, n))
  {
    var prev := Split(dp, count, n - 1);
    TouchKeepsWF(prev, n);
    var d := Touch(prev, n);
    LayerItemsLegal(d, n);
    PairAWF(d, count, count - n, d.layers[n], |d.layers[n].keys|);
  }

  lemma {:induction false} GrowGrows(dp: Dp, n: nat)
    requires |dp.layers| == MaxDiceCount + 1 && n <= MaxDiceCount
    ensures Grows(dp, Grow(dp, n))
    ensures forall k :: n < k < |dp.layers| ==> Grow(dp, n).layers[k] == dp.layers[k]
  {
    if n > 0 {
      GrowGrows(dp, n - 1);
      var prev := Grow(dp, n - 1);
      SplitGrows(prev, n, n / 2);
      LayerGrowsIsGrowth(prev, Grow(dp, n), n);
      GrowsTransitive(dp, prev, Grow(dp, n));
    }
  }

  lemma {:induction false} GrowCovers(dp: Dp, n: nat)
    requires |dp.layers| == MaxDiceCount + 1 && n <= MaxDiceCount
    ensures forall x, y :: 1 <= x <= y && x + y <= n ==> SplitCovered(Grow(dp, n), x, y)
  {
    if n > 0 {
      GrowCovers(dp, n - 1);
      var prev := Grow(dp, n - 1);
      SplitGrows(prev, n, n / 2);
      SplitCovers(prev, n, n / 2);
      GrowCoversKept(prev, Grow(dp, n), n);
    }
  }

  /** Splitting `count == n` keeps every pair of smaller total covered. */
  lemma GrowCoversKept(prev: Dp, r: Dp, n: int)
    requires |prev.layers| == |r.layers| == MaxDiceCount + 1 && 1 <= n <= MaxDiceCount
    requires LayerGrows(prev, r, n) && SameOutside(prev, r, n)
    requires forall x, y :: 1 <= x <= y && x + y <= n - 1 ==> SplitCovered(prev, x, y)
    ensures forall x, y :: 1 <= x <= y && x + y < n ==> SplitCovered(r, x, y)
  {
    forall x, y | 1 <= x <= y && x + y < n ensures SplitCovered(r, x, y) {
      SplitCoveredKept(prev, r, x, y);
    }
  }

  lemma {:induction false} GrowWF(dp: Dp, n: nat)
    requires WF(dp) && n <= MaxDiceCount
    ensures WF(Grow(dp, n))
  {
    if n > 0 {
      GrowWF(dp, n - 1);
      SplitWF(Grow(dp, n - 1), n, n / 2);
    }
  }

  lemma BuildDpWF()
    ensures WF(BuildDp())
  {
    BaseCatalogLegal();
    SeedSpec(BasePatterns, |BasePatterns|);
    GrowWF(Seeded(), MaxDiceCount);
  }

  // ---------------------------------------------------------------------------
  // Flattening into the table
  // ---------------------------------------------------------------------------

  lemma {:induction false} PutAllGet(acc: Dict, d: Dict, n: nat, p: seq<int>)
    requires n <= |d.keys|
    ensures Get(PutAll(acc, d, n), p) == if p in d.keys[..n] then Get(d, p) else Get(acc, p)
    ensures DictWF(acc) ==> DictWF(PutAll(acc, d, n))
  {
    if n > 0 {
      var k := d.keys[n - 1];
      PutAllGet(acc, d, n - 1, p);
      PutSpec(PutAll(acc, d, n - 1), k, Get(d, k));
      InDropLast(d.keys[..n], p);
      assert d.keys[..n][..n - 1] == d.keys[..n - 1];
    }
  }

  lemma {:induction false} PutAllHas(acc: Dict, d: Dict, n: nat, p: seq<int>)
    requires n <= |d.keys|
    ensures (p in PutAll(acc, d, n).values) == (p in d.keys[..n] || p in acc.values)
  {
    if n > 0 {
      PutAllHas(acc, d, n - 1, p);
      PutSpec(PutAll(acc, d, n - 1), d.keys[n - 1], Get(d, d.keys[n - 1]));
      InDropLast(d.keys[..n], p);
      assert d.keys[..n][..n - 1] == d.keys[..n - 1];
    }
  }

  /** Membership in a non-empty sequence: in all but the last element, or the last one. */
  lemma InDropLast<T>(s: seq<T>, x: T)
    requires |s| > 0
    ensures (x in s) == (x in s[..|s| - 1] || x == s[|s| - 1])
  {
    assert s == s[..|s| - 1] + [s[|s| - 1]];
  }

  /** The layers' keys all have the layer's length. */
  ghost predicate KeysHaveLayerLength(layers: seq<Dict>) {
    forall k, p :: 0 <= k < |layers| && p in layers[k].values ==> |p| == k
  }

  lemma {:induction false} CollectGet(layers: seq<Dict>, order: seq<int>, p: seq<int>)
    requires forall i :: 0 <= i < |order| ==> 0 <= order[i] < |layers|
    requires forall k :: 0 <= k < |layers| ==> DictWF(layers[k])
    requires KeysHaveLayerLength(layers)
    ensures Get(Collect(layers, order), p) == if |p| in order then Get(layers[|p|], p) else 0
    ensures DictWF(Collect(layers, order))
  {
    if |order| > 0 {
      var init := order[..|order| - 1];
      var k := order[|order| - 1];
      var last := layers[k];
      var acc := Collect(layers, init);
      CollectGet(layers, init, p);
      assert Collect(layers, order) == PutAll(acc, last, |last.keys|);
      PutAllGet(acc, last, |last.keys|, p);
      assert last.keys[..|last.keys|] == last.keys;
      InDropLast(order, |p|);
      var g := Get(Collect(layers, order), p);
      if p in last.keys {
        assert p in last.values && |p| == k;
        assert g == Get(last, p);
      } else {
        assert g == Get(acc, p);
        if |p| == k {
          assert DictWF(last);
          assert p !in last.values;
        }
      }
    }
  }

  lemma {:induction false} CollectHas(layers: seq<Dict>, order: seq<int>, p: seq<int>)
    requires forall i :: 0 <= i < |order| ==> 0 <= order[i] < |layers|
    requires forall k :: 0 <= k < |layers| ==> DictWF(layers[k])
    requires KeysHaveLayerLength(layers)
    ensures (p in Collect(layers, order).values) == (|p| in order && p in layers[|p|].values)
  {
    if |order| > 0 {
      var init := order[..|order| - 1];
      var k := order[|order| - 1];
      var last := layers[k];
      var acc := Collect(layers, init);
      CollectHas(layers, init, p);
      assert Collect(layers, order) == PutAll(acc, last, |last.keys|);
      PutAllHas(acc, last, |last.keys|, p);
      assert last.keys[..|last.keys|] == last.keys;
      InDropLast(order, |p|);
      if p in last.keys {
        assert p in last.values && |p| == k;
      } else if |p| == k {
        assert DictWF(last);
        assert p !in last.values;
      }
    }
  }

  /** The table holds exactly what the dynamic program's layer of the same length holds. */
  lemma TableGet(p: seq<int>)
    ensures Get(Table(), p) == if |p| <= MaxDiceCount then Get(BuildDp().layers[|p|], p) else 0
    ensures DictWF(Table())
  {
    var dp := BuildDp();
    BuildDpWF();
    CollectGet(dp.layers, dp.order, p);
    if |p| <= MaxDiceCount && |p| !in dp.order {
      assert |dp.layers[|p|].keys| == 0;
      assert p !in dp.layers[|p|].values;
    }
  }

  /** The table's keys are exactly the keys of the dynamic program's layers. */
  lemma TableHas(p: seq<int>)
    ensures p in Table().values <==> |p| <= MaxDiceCount && p in BuildDp().layers[|p|].values
  {
    var dp := BuildDp();
    BuildDpWF();
    CollectHas(dp.layers, dp.order, p);
    if |p| <= MaxDiceCount && |p| !in dp.order {
      assert |dp.layers[|p|].keys| == 0;
      assert p !in dp.layers[|p|].values;
    }
  }

  /** The table's keys are exactly the patterns with a positive score, and each is a sorted
      pattern of one to six dice. */
  lemma TableEntries(p: seq<int>)
    ensures Get(Table(), p) >= 0
    ensures p in Table().values <==> Get(Table(), p) > 0
    ensures p in Table().values ==> LegalEntry(ScoringPattern(p, Get(Table(), p)), |p|)
  {
    TableGet(p);
    TableHas(p);
    if |p| <= MaxDiceCount {
      var layer := BuildDp().layers[|p|];
      BuildDpWF();
      assert p in layer.values ==> LegalEntry(ScoringPattern(p, layer.values[p]), |p|);
      assert Get(Table(), p) == Get(layer, p);
    }
  }

  // ---------------------------------------------------------------------------
  // Properties of the finished table
  // ---------------------------------------------------------------------------

  /** Every catalog pattern scores at least its catalog score: a seeded score is only ever
      replaced by a strictly larger sum. */
  lemma CatalogBound(i: int)
    requires 0 <= i < |BasePatterns|
    ensures PatternScore(BasePatterns[i].pattern) >= BasePatterns[i].score
  {
    var b := BasePatterns[i];
    BaseCatalogLegal();
    SeedSpec(BasePatterns, |BasePatterns|);
    GrowGrows(Seeded(), MaxDiceCount);
    CatalogShape(i);
    TableGet(b.pattern);
  }

  /** The table is superadditive: two scoring patterns of at most six dice together score at
      least the sum of their scores. */
  lemma Superadditive(p: seq<int>, q: seq<int>)
    requires PatternScore(p) > 0 && PatternScore(q) > 0 && |p| + |q| <= MaxDiceCount
    ensures PatternScore(Sort(p + q)) >= PatternScore(p) + PatternScore(q)
  {
    if |p| <= |q| {
      SuperadditiveOrdered(p, q);
    } else {
      SuperadditiveOrdered(q, p);
      SortConcatCommutes(p, q);
    }
  }

  lemma SuperadditiveOrdered(p: seq<int>, q: seq<int>)
    requires PatternScore(p) > 0 && PatternScore(q) > 0 && |p| <= |q| && |p| + |q| <= MaxDiceCount
    ensures PatternScore(Sort(p + q)) >= PatternScore(p) + PatternScore(q)
  {
    FinalCoveredPatterns(p, q);
    TableGet(Sort(p + q));
  }

  lemma FinalCoveredPatterns(p: seq<int>, q: seq<int>)
    requires PatternScore(p) > 0 && PatternScore(q) > 0 && |p| <= |q| && |p| + |q| <= MaxDiceCount
    ensures Get(BuildDp().layers[|p| + |q|], Sort(p + q)) >= PatternScore(p) + PatternScore(q)
  {
    var i := KeyPosition(p);
    var j := KeyPosition(q);
    FinalCovered(|p|, |q|, i, j);
  }

  /** In the final state, every item of `dp[x]` combined with every item of `dp[y]` is
      covered in `dp[x + y]`. */
  lemma FinalCovered(x: int, y: int, i: int, j: int)
    requires 1 <= x <= y && x + y <= MaxDiceCount
    requires 0 <= i < |BuildDp().layers[x].keys| && 0 <= j < |BuildDp().layers[y].keys|
    ensures Covered(BuildDp(), x + y, Item(BuildDp().layers[x], i), Item(BuildDp().layers[y], j))
  {
    GrowCovers(Seeded(), MaxDiceCount);
    assert SplitCovered(BuildDp(), x, y);
  }

  /** Where a scoring pattern sits among the keys of its layer, with the layer's score
      being the table's. */
  lemma KeyPosition(p: seq<int>) returns (i: int)
    requires PatternScore(p) > 0
    ensures 1 <= |p| <= MaxDiceCount
    ensures 0 <= i < |BuildDp().layers[|p|].keys| && BuildDp().layers[|p|].keys[i] == p
    ensures Get(BuildDp().layers[|p|], p) == PatternScore(p)
  {
    TableGet(p);
    BuildDpWF();
    var d := BuildDp().layers[|p|];
    assert DictWF(d);
    i := KeyIndex(d, p);
  }

  /** A key with a positive value in a well-formed dict is listed somewhere. */
  lemma KeyIndex(d: Dict, p: seq<int>) returns (i: int)
    requires DictWF(d) && Get(d, p) > 0
    ensures 0 <= i < |d.keys| && d.keys[i] == p
  {
    i :| 0 <= i < |d.keys| && d.keys[i] == p;
  }

  /** The combination loops never write the layer of single dice. */
  lemma {:induction false} GrowKeepsSingles(dp: Dp, n: nat)
    requires |dp.layers| == MaxDiceCount + 1 && n <= MaxDiceCount
    ensures Grow(dp, n).layers[1] == dp.layers[1]
  {
    if n > 1 {
      GrowKeepsSingles(dp, n - 1);
      SplitGrows(Grow(dp, n - 1), n, n / 2);
    }
  }

  /** Seeding writes only the catalog's own patterns. */
  lemma {:induction false} SeedOnlyCatalog(start: Dp, cat: seq<ScoringPattern>, n: nat, k: int, p: seq<int>)
    requires |start.layers| == MaxDiceCount + 1 && n <= |cat| && ShortEntries(cat) && 0 <= k <= MaxDiceCount
    requires forall x :: 0 <= x < n ==> cat[x].pattern != p
    ensures Get(Seed(start, cat, n).layers[k], p) == Get(start.layers[k], p)
  {
    if n > 0 {
      var prev := Seed(start, cat, n - 1);
      SeedOnlyCatalog(start, cat, n - 1, k, p);
      assert cat[n - 1].pattern != p;
      SeedStepOther(prev, cat[n - 1], k, p);
    }
  }

  /** Two scoring single dice written in sorted order are a key worth at least the sum of
      their single values: (1, 1) at least 200, (1, 5) at least 150, (5, 5) at least 100. */
  lemma PairOfSingles(x: int, y: int)
    requires x <= y && (x == 1 || x == 5) && (y == 1 || y == 5)
    ensures PatternScore([x, y]) >= SingleValue(x) + SingleValue(y)
  {
    SingleDieScore(x);
    SingleDieScore(y);
    Superadditive([x], [y]);
    SortPair(x, y);
  }

  /** The catalog value of a single die. */
  function SingleValue(v: int): int {
    if v == 1 then 100 else if v == 5 then 50 else 0
  }

  /** A tuple out of sorted order is never a key: (5, 1) scores nothing. */
  lemma UnsortedScoresNothing(p: seq<int>, i: int)
    requires 0 <= i < |p| - 1 && p[i] > p[i + 1]
    ensures PatternScore(p) == 0
  {
  }

  /** A single die scores exactly its catalog value: 100 for a one, 50 for a five, nothing
      for any other face. */
  lemma SingleDieScore(v: int)
    ensures PatternScore([v]) == SingleValue(v)
  {
    GrowKeepsSingles(Seeded(), MaxDiceCount);
    TableGet([v]);
    SeededSingles(v);
  }

  /** The seeded layer of single dice holds exactly the catalog's two singles. */
  lemma SeededSingles(v: int)
    ensures Get(Seeded().layers[1], [v]) == if v == 1 then 100 else if v == 5 then 50 else 0
  {
    if v == 1 || v == 5 {
      BaseCatalogLegal();
      SeedSpec(BasePatterns, |BasePatterns|);
      assert BasePatterns[27].pattern == [1] && BasePatterns[28].pattern == [5];
    } else {
      CatalogShort();
      forall x | 0 <= x < |BasePatterns| ensures BasePatterns[x].pattern != [v] {
        NotASingle(x, v);
      }
      SeedOnlyCatalog(EmptyDp, BasePatterns, |BasePatterns|, 1, [v]);
      assert EmptyDp.layers[1] == EmptyDict;
    }
  }

  lemma NotASingle(x: int, v: int)
    requires 0 <= x < |BasePatterns| && v != 1 && v != 5
    ensures BasePatterns[x].pattern != [v]
  {
    CatalogShape(x);
    if x >= 27 {
      assert x == 27 || x == 28;
    }
  }
}
