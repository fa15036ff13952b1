/**
 * What it means to hold "the K largest": the specification both top-K
 * strategies of the program are proved against.
 */
module TopK {
  import opened Ord

  function Min(a: int, b: int): int {
    if a <= b then a else b
  }

  /**
   * `kept` is a top-`k` selection from `seen` by metric: it is drawn from
   * `seen`, has `min(k, |seen|)` elements, and no element left out has a
   * larger metric than any element kept. Ties at the boundary may go either way.
   */
  ghost predicate IsTopK<T>(key: T -> u64, kept: multiset<T>, seen: multiset<T>, k: nat) {
    && kept <= seen
    && |kept| == Min(k, |seen|)
    && forall x, y :: x in kept && y in seen - kept ==> key(x) >= key(y)
  }

  /** Nothing seen: nothing kept. */
  lemma TopKOfNothing<T>(key: T -> u64, k: nat)
    ensures IsTopK(key, multiset{}, multiset{}, k)
  {
  }

  /** A sub-multiset as large as the whole is the whole. */
  lemma {:induction false} SubMultisetOfSameSize<T>(a: multiset<T>, b: multiset<T>)
    requires a <= b && |a| == |b|
    ensures a == b
  {
    assert |b - a| + |a| == |b| by {
      assert b == (b - a) + a;
    }
    assert b - a == multiset{};
    forall x ensures a[x] == b[x] {
      assert (b - a)[x] == 0;
    }
  }

  /**
   * The boundary cases: with `k == 0` nothing is kept, and once `k` reaches
   * the number of items seen everything is kept.
   */
  lemma TopKBoundaries<T>(key: T -> u64, kept: multiset<T>, seen: multiset<T>, k: nat)
    requires IsTopK(key, kept, seen, k)
    ensures k == 0 ==> kept == multiset{}
    ensures k >= |seen| ==> kept == seen
  {
    if k >= |seen| {
      SubMultisetOfSameSize(kept, seen);
    }
  }

  /**
   * `heap.push(x)` while fewer than `k` are held: the collector still holds a
   * top-`k` of everything seen, now including `x`.
   */
  lemma PushKeepsTopK<T>(key: T -> u64, kept: multiset<T>, seen: multiset<T>, k: nat, x: T)
    requires IsTopK(key, kept, seen, k)
    requires |kept| < k
    ensures IsTopK(key, kept + multiset{x}, seen + multiset{x}, k)
  {
    SubMultisetOfSameSize(kept, seen);
    assert (seen + multiset{x}) - (kept + multiset{x}) == multiset{};
  }

  /**
   * `heap.push(x)` followed by `heap.pop()` once `k` are held: the pop removes
   * a greatest element under the reversed order, one of smallest metric among
   * those held, so what is left is again a top-`k` of everything seen.
   */
  lemma PushPopKeepsTopK<T>(key: T -> u64, kept: multiset<T>, seen: multiset<T>, k: nat, x: T, m: T)
    requires IsTopK(key, kept, seen, k)
    requires |kept| == k
    requires IsGreatest(key, m, kept + multiset{x})
    ensures IsTopK(key, kept + multiset{x} - multiset{m}, seen + multiset{x}, k)
  {
    var held := kept + multiset{x};
    var kept' := held - multiset{m};
    var seen' := seen + multiset{x};
    assert |kept'| == k;
    assert kept' <= seen';
    assert seen' - kept' == (seen - kept) + multiset{m} by {
      forall z ensures (seen' - kept')[z] == ((seen - kept) + multiset{m})[z] {
        assert kept[z] <= seen[z];
      }
    }
    forall a, b | a in kept' && b in seen' - kept' ensures key(a) >= key(b) {
      assert a in held;
      if b == m {
        assert ReversedCmp(key, a, m) != Greater;
      } else {
        assert b in seen - kept;
        if a in kept {
        } else {
          // `a` is the pushed item and survived the pop, so what was popped came from `kept`
          assert a == x && m != x;
          assert m in kept;
          assert ReversedCmp(key, x, m) != Greater;
        }
      }
    }
  }

  /**
   * Sorting everything and truncating to `k` keeps a top-`k`: the first
   * `min(k, |s|)` elements of a sequence ascending under the reversed order.
   */
  lemma SortedPrefixIsTopK<T>(key: T -> u64, s: seq<T>, k: nat)
    requires Ascending(key, s)
    ensures IsTopK(key, multiset(s[..Min(k, |s|)]), multiset(s), k)
  {
    var n := Min(k, |s|);
    assert s == s[..n] + s[n..];
    assert multiset(s) - multiset(s[..n]) == multiset(s[n..]);
    forall x, y | x in multiset(s[..n]) && y in multiset(s) - multiset(s[..n])
      ensures key(x) >= key(y)
    {
      var i :| 0 <= i < n && s[..n][i] == x;
      var j :| 0 <= j < |s| - n && s[n..][j] == y;
      assert s[i] == x && s[n + j] == y;
    }
  }

  /**
   * Two top-`k` selections from the same items differ only by tie-breaking:
   * they leave out equally many items, and everything one keeps that the
   * other does not has the same metric as everything the other keeps that
   * the one does not.
   */
  lemma TopKUniqueUpToTies<T>(key: T -> u64, a: multiset<T>, b: multiset<T>, seen: multiset<T>, k: nat)
    requires IsTopK(key, a, seen, k) && IsTopK(key, b, seen, k)
    ensures |a - b| == |b - a|
    ensures forall x, y :: x in a - b && y in b - a ==> key(x) == key(y)
  {
    var common := a * b;
    assert a == common + (a - b) by {
      forall z ensures a[z] == (common + (a - b))[z] {}
    }
    assert b == common + (b - a) by {
      forall z ensures b[z] == (common + (b - a))[z] {}
    }
    forall x, y | x in a - b && y in b - a ensures key(x) == key(y) {
      assert x in seen - b;
      assert y in seen - a;
    }
  }
}
