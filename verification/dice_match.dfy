/** `_find_indices_for_pattern` (main.py): which positions of a roll a selected pattern
    takes, matching each needed value to the first position not taken yet. */
module DiceMatch {
  import opened Sorting

  /** Every index is a position of a sequence of length `n`. */
  predicate InRange(idx: seq<int>, n: int) {
    forall k :: 0 <= k < |idx| ==> 0 <= idx[k] < n
  }

  /** The dice at the positions `idx`, in that order. */
  function DiceAt(rolled: seq<int>, idx: seq<int>): (r: seq<int>)
    requires InRange(idx, |rolled|)
    ensures |r| == |idx|
  {
    seq(|idx|, k requires 0 <= k < |idx| => rolled[idx[k]])
  }

  /** Strictly increasing: sorted with no index twice. */
  predicate Increasing(s: seq<int>) {
    forall i, j :: 0 <= i < j < |s| ==> s[i] < s[j]
  }

  /** The dice at the positions the availability list still offers (those not set to -1). */
  function Unused(rolled: seq<int>, avail: seq<int>, n: nat): multiset<int>
    requires n <= |rolled| && |avail| == |rolled|
  {
    if n == 0 then multiset{}
    else Unused(rolled, avail, n - 1) + (if avail[n - 1] != -1 then multiset{rolled[n - 1]} else multiset{})
  }

  lemma {:induction false} UnusedAll(rolled: seq<int>, avail: seq<int>, n: nat)
    requires n <= |rolled| && |avail| == |rolled|
    requires forall i :: 0 <= i < n ==> avail[i] != -1
    ensures Unused(rolled, avail, n) == multiset(rolled[..n])
  {
    if n > 0 {
      UnusedAll(rolled, avail, n - 1);
      assert rolled[..n] == rolled[..n - 1] + [rolled[n - 1]];
    }
  }

  /** Taking position `i` removes its die from the unused ones. */
  lemma {:induction false} UnusedMark(rolled: seq<int>, avail: seq<int>, n: nat, i: int)
    requires n <= |rolled| && |avail| == |rolled| && 0 <= i < |avail| && avail[i] != -1
    ensures i < n ==> Unused(rolled, avail, n) == Unused(rolled, avail[i := -1], n) + multiset{rolled[i]}
    ensures i >= n ==> Unused(rolled, avail, n) == Unused(rolled, avail[i := -1], n)
  {
    if n > 0 {
      UnusedMark(rolled, avail, n - 1, i);
    }
  }

  /** When no unused position holds `p`, no unused die is a `p`. */
  lemma {:induction false} UnusedNone(rolled: seq<int>, avail: seq<int>, n: nat, p: int)
    requires n <= |rolled| && |avail| == |rolled|
    requires forall i :: 0 <= i < n ==> avail[i] == -1 || rolled[i] != p
    ensures Unused(rolled, avail, n)[p] == 0
  {
    if n > 0 {
      UnusedNone(rolled, avail, n - 1, p);
    }
  }

  lemma DiceAtConcat(rolled: seq<int>, a: seq<int>, b: seq<int>)
    requires InRange(a, |rolled|) && InRange(b, |rolled|)
    ensures InRange(a + b, |rolled|)
    ensures DiceAt(rolled, a + b) == DiceAt(rolled, a) + DiceAt(rolled, b)
  {
    assert InRange(a + b, |rolled|) by {
      forall k | 0 <= k < |a + b| ensures 0 <= (a + b)[k] < |rolled| {
        if k >= |a| {
          assert (a + b)[k] == b[k - |a|];
        }
      }
    }
  }

  /** Cutting position `i` out of a sequence of positions removes its die. */
  lemma DiceAtCut(rolled: seq<int>, b: seq<int>, i: int)
    requires InRange(b, |rolled|) && 0 <= i < |b|
    ensures InRange(b[..i] + b[i + 1..], |rolled|)
    ensures multiset(b) == multiset(b[..i] + b[i + 1..]) + multiset{b[i]}
    ensures multiset(DiceAt(rolled, b)) == multiset(DiceAt(rolled, b[..i] + b[i + 1..])) + multiset{rolled[b[i]]}
  {
    var b1, b2 := b[..i], b[i + 1..];
    assert b == b1 + [b[i]] + b2;
    assert InRange(b1, |rolled|) && InRange(b2, |rolled|) by {
      forall k | 0 <= k < |b1| ensures 0 <= b1[k] < |rolled| { assert b1[k] == b[k]; }
      forall k | 0 <= k < |b2| ensures 0 <= b2[k] < |rolled| { assert b2[k] == b[i + 1 + k]; }
    }
    DiceAtConcat(rolled, b1, b2);
    DiceAtConcat(rolled, b1, [b[i]]);
    DiceAtConcat(rolled, b1 + [b[i]], b2);
  }

  /** Reordering the positions reorders the dice: the same positions give the same dice. */
  lemma {:induction false} DiceAtPermutation(rolled: seq<int>, a: seq<int>, b: seq<int>)
    requires InRange(a, |rolled|) && InRange(b, |rolled|) && multiset(a) == multiset(b)
    ensures multiset(DiceAt(rolled, a)) == multiset(DiceAt(rolled, b))
    decreases |a|
  {
    if |a| == 0 {
      assert |b| == |multiset(b)| == 0;
    } else {
      var x := a[|a| - 1];
      assert x in multiset(b);
      var i :| 0 <= i < |b| && b[i] == x;
      var a', b' := a[..|a| - 1] + a[|a|..], b[..i] + b[i + 1..];
      DiceAtCut(rolled, a, |a| - 1);
      DiceAtCut(rolled, b, i);
      assert multiset(a') == multiset(b') by {
        assert multiset(a') + multiset{x} == multiset(b') + multiset{x};
        forall y ensures multiset(a')[y] == multiset(b')[y] {
          assert (multiset(a') + multiset{x})[y] == (multiset(b') + multiset{x})[y];
        }
      }
      DiceAtPermutation(rolled, a', b');
    }
  }

  /** A value at two positions occurs twice. */
  lemma OccursTwice(s: seq<int>, i: int, j: int)
    requires 0 <= i < j < |s|
    ensures s[i] == s[j] ==> multiset(s)[s[i]] >= 2
  {
    assert s == s[..j] + s[j..];
    assert s[..j][i] == s[i] && s[j..][0] == s[j];
    assert s[i] in multiset(s[..j]);
    assert s[j] in multiset(s[j..]);
  }

  /** A sorted sequence in which nothing occurs twice is strictly increasing. */
  lemma SortedDistinct(s: seq<int>)
    requires Sorted(s)
    requires forall x :: multiset(s)[x] <= 1
    ensures Increasing(s)
  {
    forall i, j | 0 <= i < j < |s|
      ensures s[i] < s[j]
    {
      OccursTwice(s, i, j);
    }
  }

  /** The loop's state after matching the first `j` values of the pattern: `found` holds
      their positions in order, each once, the availability list has -1 exactly at those
      positions and the position itself elsewhere, and the dice not taken are the roll less
      the matched values. */
  ghost predicate Matched(rolled: seq<int>, pattern: seq<int>, j: int, found: seq<int>, avail: seq<int>) {
    && 0 <= j <= |pattern|
    && |avail| == |rolled|
    && (forall i :: 0 <= i < |avail| ==> avail[i] == i || avail[i] == -1)
    && |found| == j && InRange(found, |rolled|)
    && DiceAt(rolled, found) == pattern[..j]
    && (forall x :: multiset(found)[x] <= 1)
    && (forall i :: 0 <= i < |avail| ==> (avail[i] == -1 <==> i in found))
    && Unused(rolled, avail, |rolled|) + multiset(pattern[..j]) == multiset(rolled)
  }

  lemma MatchedInitially(rolled: seq<int>, pattern: seq<int>)
    ensures Matched(rolled, pattern, 0, [], seq(|rolled|, i => i))
  {
    UnusedAll(rolled, seq(|rolled|, i => i), |rolled|);
    assert rolled[..|rolled|] == rolled;
  }

  /** Taking the free position `at` for the next value keeps the loop's state. */
  lemma MatchStep(rolled: seq<int>, pattern: seq<int>, j: int, found: seq<int>, avail: seq<int>, at: int)
    requires Matched(rolled, pattern, j, found, avail) && j < |pattern|
    requires 0 <= at < |avail| && avail[at] != -1 && rolled[avail[at]] == pattern[j]
    ensures Matched(rolled, pattern, j + 1, found + [at], avail[at := -1])
  {
    assert avail[at] == at && at !in found;
    assert pattern[..j + 1] == pattern[..j] + [pattern[j]];
    UnusedMark(rolled, avail, |rolled|, at);
    DiceAtConcat(rolled, found, [at]);
  }

  /** When no free position holds the next value, the pattern is not contained. */
  lemma MatchFails(rolled: seq<int>, pattern: seq<int>, j: int, found: seq<int>, avail: seq<int>)
    requires Matched(rolled, pattern, j, found, avail) && j < |pattern|
    requires forall k :: 0 <= k < |avail| ==> avail[k] == -1 || rolled[avail[k]] != pattern[j]
    ensures !(multiset(pattern) <= multiset(rolled))
  {
    var p := pattern[j];
    forall k | 0 <= k < |rolled| ensures avail[k] == -1 || rolled[k] != p {
      assert avail[k] == -1 || rolled[avail[k]] != p;
    }
    UnusedNone(rolled, avail, |rolled|, p);
    assert pattern[..j + 1] == pattern[..j] + [p];
    assert pattern == pattern[..j + 1] + pattern[j + 1..];
    assert multiset(pattern)[p] > multiset(rolled)[p];
  }

  /** Each taken position comes before every free position holding the same value: the
      loop always takes the first free match. */
  ghost predicate TakesFirst(rolled: seq<int>, found: seq<int>, avail: seq<int>) {
    forall i, k ::
      (0 <= i < |found| && 0 <= found[i] < |rolled| && 0 <= k < |avail| <= |rolled| &&
       avail[k] != -1 && rolled[k] == rolled[found[i]]) ==> found[i] < k
  }

  /** Taking the first free position `at` that holds the next value keeps `TakesFirst`. */
  lemma TakesFirstStep(rolled: seq<int>, pattern: seq<int>, j: int, found: seq<int>, avail: seq<int>, at: int)
    requires Matched(rolled, pattern, j, found, avail) && TakesFirst(rolled, found, avail) && j < |pattern|
    requires 0 <= at < |avail| && avail[at] != -1 && rolled[avail[at]] == pattern[j]
    requires forall k :: 0 <= k < at ==> avail[k] == -1 || rolled[avail[k]] != pattern[j]
    ensures TakesFirst(rolled, found + [at], avail[at := -1])
  {
    var found', avail' := found + [at], avail[at := -1];
    forall i, k | 0 <= i < |found'| && 0 <= found'[i] < |rolled| && 0 <= k < |avail'| <= |rolled| &&
      avail'[k] != -1 && rolled[k] == rolled[found'[i]]
      ensures found'[i] < k
    {
      if i == |found| {
        assert avail[k] == k && k != at;
      } else {
        assert found'[i] == found[i];
      }
    }
  }

  /** The sorted positions of a complete match still take the first free matches: no
      untaken position with the same value comes before a taken one. */
  lemma TakesFirstDone(rolled: seq<int>, pattern: seq<int>, found: seq<int>, avail: seq<int>)
    requires Matched(rolled, pattern, |pattern|, found, avail) && TakesFirst(rolled, found, avail)
    ensures InRange(Sort(found), |rolled|)
    ensures forall i, k ::
      (0 <= i < |Sort(found)| && 0 <= k < |rolled| && k !in Sort(found) &&
       rolled[k] == rolled[Sort(found)[i]]) ==> Sort(found)[i] < k
  {
    MatchDone(rolled, pattern, found, avail);
    var r := Sort(found);
    SortSpec(found);
    forall i, k | 0 <= i < |r| && 0 <= k < |rolled| && k !in r && rolled[k] == rolled[r[i]]
      ensures r[i] < k
    {
      assert r[i] in multiset(found);
      var m :| 0 <= m < |found| && found[m] == r[i];
      assert k !in multiset(r);
      assert k !in found;
      assert avail[k] != -1;
    }
  }

  /** Sorting the positions of a complete match gives strictly increasing positions whose
      dice are the pattern's, and the pattern is contained. */
  lemma MatchDone(rolled: seq<int>, pattern: seq<int>, found: seq<int>, avail: seq<int>)
    requires Matched(rolled, pattern, |pattern|, found, avail)
    ensures multiset(pattern) <= multiset(rolled)
    ensures |Sort(found)| == |pattern| && Increasing(Sort(found)) && InRange(Sort(found), |rolled|)
    ensures multiset(DiceAt(rolled, Sort(found))) == multiset(pattern)
  {
    assert pattern[..|pattern|] == pattern;
    var r := Sort(found);
    SortSpec(found);
    assert InRange(r, |rolled|) by {
      forall k | 0 <= k < |r| ensures 0 <= r[k] < |rolled| {
        assert r[k] in multiset(found);
      }
    }
    SortedDistinct(r);
    DiceAtPermutation(rolled, r, found);
  }

  /** `_find_indices_for_pattern`: the positions of the roll a pattern takes, sorted, or the
      empty list when the pattern is empty or some value finds no free position. Each value
      takes its earliest positions in the roll. */
  method FindIndicesForPattern(rolled: seq<int>, pattern: seq<int>) returns (r: seq<int>)
    ensures |pattern| == 0 ==> r == []
    ensures !(multiset(pattern) <= multiset(rolled)) ==> r == []
    ensures multiset(pattern) <= multiset(rolled) ==>
      && |r| == |pattern|
      && Increasing(r)
      && InRange(r, |rolled|)
      && multiset(DiceAt(rolled, r)) == multiset(pattern)
      && (forall i, k :: 0 <= i < |r| && 0 <= k < |rolled| && k !in r && rolled[k] == rolled[r[i]] ==> r[i] < k)
  {
    if |pattern| == 0 {
      return [];
    }
    var found: seq<int> := [];
    var avail: seq<int> := seq(|rolled|, i => i);
    MatchedInitially(rolled, pattern);
    var j := 0;
    while j < |pattern|
      invariant Matched(rolled, pattern, j, found, avail)
      invariant TakesFirst(rolled, found, avail)
    {
      var p := pattern[j];
      var at := -1;
      var i := 0;
      while i < |avail|
        invariant 0 <= i <= |avail| && at == -1
        invariant forall k :: 0 <= k < i ==> avail[k] == -1 || rolled[avail[k]] != p
      {
        if avail[i] != -1 && rolled[avail[i]] == p {
          at := i;
          break;
        }
        i := i + 1;
      }
      if at == -1 {
        MatchFails(rolled, pattern, j, found, avail);
        return [];
      }
      MatchStep(rolled, pattern, j, found, avail, at);
      TakesFirstStep(rolled, pattern, j, found, avail, at);
      found := found + [avail[at]];
      avail := avail[at := -1];
      j := j + 1;
    }
    MatchDone(rolled, pattern, found, avail);
    TakesFirstDone(rolled, pattern, found, avail);
    r := Sort(found);
  }
}
