/** Python's `sorted` on sequences of integers: the canonical form of a dice multiset. */
module Sorting {

  predicate Sorted(s: seq<int>) {
    forall i, j :: 0 <= i < j < |s| ==> s[i] <= s[j]
  }

  /** Inserts `x` before the first element not below it. */
  function Insert(x: int, s: seq<int>): (r: seq<int>)
    ensures |r| == |s| + 1
  {
    if |s| == 0 || x <= s[0] then [x] + s else [s[0]] + Insert(x, s[1..])
  }

  /** No element of `s` is below `b`. */
  predicate Above(b: int, s: seq<int>) {
    forall i :: 0 <= i < |s| ==> b <= s[i]
  }

  lemma {:induction false} InsertAbove(b: int, x: int, s: seq<int>)
    requires b <= x && Above(b, s)
    ensures Above(b, Insert(x, s))
  {
    if |s| > 0 && x > s[0] {
      InsertAbove(b, x, s[1..]);
      var t := Insert(x, s);
      forall i | 0 <= i < |t| ensures b <= t[i] {
        if i > 0 {
          assert t[i] == Insert(x, s[1..])[i - 1];
        }
      }
    }
  }

  /** Inserting into a sorted sequence keeps it sorted and adds exactly `x`. */
  lemma {:induction false} InsertSpec(x: int, s: seq<int>)
    requires Sorted(s)
    ensures Sorted(Insert(x, s))
    ensures multiset(Insert(x, s)) == multiset(s) + multiset{x}
  {
    if |s| > 0 && x > s[0] {
      var rest := Insert(x, s[1..]);
      InsertSpec(x, s[1..]);
      InsertAbove(s[0], x, s[1..]);
      ConsSorted(s[0], rest);
      assert multiset(Insert(x, s)) == multiset{s[0]} + multiset(rest);
      assert multiset(s) == multiset{s[0]} + multiset(s[1..]) by {
        assert s == [s[0]] + s[1..];
      }
    } else {
      assert Above(x, s) by {
        forall i | 0 <= i < |s| ensures x <= s[i] {
          assert s[0] <= s[i];
        }
      }
      ConsSorted(x, s);
    }
  }

  lemma ConsSorted(b: int, s: seq<int>)
    requires Above(b, s) && Sorted(s)
    ensures Sorted([b] + s)
  {
    var t := [b] + s;
    forall i, j | 0 <= i < j < |t| ensures t[i] <= t[j] {
      assert t[j] == s[j - 1];
      if i > 0 {
        assert t[i] == s[i - 1];
      }
    }
  }

  /** `sorted(s)`: insertion sort. */
  function Sort(s: seq<int>): (r: seq<int>)
    ensures |r| == |s|
  {
    if |s| == 0 then [] else Insert(s[0], Sort(s[1..]))
  }

  /** `sorted(s)` is an ascending permutation of `s`. */
  lemma {:induction false} SortSpec(s: seq<int>)
    ensures Sorted(Sort(s))
    ensures multiset(Sort(s)) == multiset(s)
  {
    if |s| > 0 {
      SortSpec(s[1..]);
      InsertSpec(s[0], Sort(s[1..]));
      assert s == [s[0]] + s[1..];
    }
  }

  /** A sorted sequence is determined by its multiset of elements. */
  lemma {:induction false} SortedUnique(a: seq<int>, b: seq<int>)
    requires Sorted(a) && Sorted(b)
    requires multiset(a) == multiset(b)
    ensures a == b
  {
    assert |a| == |multiset(a)| == |multiset(b)| == |b|;
    if |a| > 0 {
      SortedHead(a, b[0]);
      SortedHead(b, a[0]);
      var x := a[0];
      assert b[0] == x;
      var a', b' := SortedTail(a), SortedTail(b);
      ConsMultiset(x, a');
      ConsMultiset(x, b');
      assert multiset(a') == multiset(b') by {
        forall y ensures multiset(a')[y] == multiset(b')[y] {
          assert (multiset{x} + multiset(a'))[y] == (multiset{x} + multiset(b'))[y];
        }
      }
      SortedUnique(a', b');
    }
  }

  lemma ConsMultiset(x: int, s: seq<int>)
    ensures multiset([x] + s) == multiset{x} + multiset(s)
  {
  }

  /** The first element of a sorted sequence is at most any of its elements. */
  lemma SortedHead(a: seq<int>, x: int)
    requires Sorted(a) && x in multiset(a)
    ensures 0 < |a| && a[0] <= x
  {
    var i :| 0 <= i < |a| && a[i] == x;
  }

  /** What remains of a sorted sequence after its first element, itself sorted. */
  function SortedTail(a: seq<int>): (r: seq<int>)
    requires Sorted(a) && 0 < |a|
    ensures Sorted(r) && a == [a[0]] + r
  {
    assert forall i, j :: 0 <= i < j < |a| - 1 ==> a[1..][i] == a[i + 1] && a[1..][j] == a[j + 1];
    a[1..]
  }

  /** Sorting depends only on the multiset of the input: permuting it changes nothing. */
  lemma SortCanonical(a: seq<int>, b: seq<int>)
    requires multiset(a) == multiset(b)
    ensures Sort(a) == Sort(b)
  {
    SortSpec(a);
    SortSpec(b);
    SortedUnique(Sort(a), Sort(b));
  }

  /** Sorting a sorted sequence returns it unchanged, so sorting is idempotent. */
  lemma SortSorted(s: seq<int>)
    requires Sorted(s)
    ensures Sort(s) == s
  {
    SortSpec(s);
    SortedUnique(Sort(s), s);
  }

  /** Sorting a concatenation does not depend on the order of the parts. */
  lemma SortConcatCommutes(a: seq<int>, b: seq<int>)
    ensures Sort(a + b) == Sort(b + a)
  {
    assert multiset(a + b) == multiset(b + a);
    SortCanonical(a + b, b + a);
  }

  /** Two values already in order sort to themselves. */
  lemma SortPair(x: int, y: int)
    requires x <= y
    ensures Sort([x] + [y]) == [x, y]
  {
    assert [x] + [y] == [x, y];
    assert Sorted([x, y]) by { assert [x, y][0] <= [x, y][1]; }
    SortSorted([x, y]);
  }
}
