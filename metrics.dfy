/**
 * The metric profile of a ranked sequence: the metrics alone, with the
 * records they belong to forgotten. Ties make top-K selections and sorted
 * orders non-unique as sequences of records; their metric profiles are unique.
 */
module Metrics {
  import opened Ord
  import opened TopK

  /** The metrics of `s`, position by position. */
  function Keys<T>(key: T -> u64, s: seq<T>): seq<u64> {
    seq(|s|, i requires 0 <= i < |s| => key(s[i]))
  }

  /** The identity metric, to rank bare metrics. */
  function Id(x: u64): u64 {
    x
  }

  /** A sequence of metrics that never increases left to right: ascending under the reversed order. */
  ghost predicate NonIncreasing(s: seq<u64>) {
    Ascending(Id, s)
  }

  /** The multiset of metrics of the records in `m`. */
  ghost function Image<T>(key: T -> u64, m: multiset<T>): multiset<u64>
    decreases |m|
  {
    if m == multiset{} then multiset{}
    else
      var x :| x in m;
      multiset{key(x)} + Image(key, m - multiset{x})
  }

  /** Removing two occurrences in either order leaves the same multiset. */
  lemma RemovalsCommute<T>(m: multiset<T>, x: T, z: T)
    ensures m - multiset{z} - multiset{x} == m - multiset{x} - multiset{z}
  {
  }

  /** Two single-element additions commute. */
  lemma SwapSingletons(a: multiset<u64>, b: multiset<u64>, c: multiset<u64>)
    ensures a + (b + c) == b + (a + c)
  {
  }

  /** A non-empty multiset's image starts with the metric of some element of it. */
  lemma ImageUnfold<T>(key: T -> u64, m: multiset<T>)
    requires m != multiset{}
    ensures exists x :: x in m && Image(key, m) == multiset{key(x)} + Image(key, m - multiset{x})
  {
  }

  /** The image does not depend on which element is taken first. */
  lemma {:induction false} ImagePick<T>(key: T -> u64, m: multiset<T>, z: T)
    requires z in m
    ensures Image(key, m) == multiset{key(z)} + Image(key, m - multiset{z})
    decreases |m|
  {
    ImageUnfold(key, m);
    var x :| x in m && Image(key, m) == multiset{key(x)} + Image(key, m - multiset{x});
    if x != z {
      var mx := m - multiset{x};
      var mz := m - multiset{z};
      var rest := mx - multiset{z};
      RemovalsCommute(m, x, z);
      ImagePick(key, mx, z);
      ImagePick(key, mz, x);
      var ir := Image(key, rest);
      assert Image(key, m) == multiset{key(x)} + (multiset{key(z)} + ir);
      assert Image(key, mz) == multiset{key(x)} + ir;
      SwapSingletons(multiset{key(x)}, multiset{key(z)}, ir);
    }
  }

  /** Taking `x` first from `(a - {x}) + b + {x}`. */
  lemma ImagePickFromUnion<T>(key: T -> u64, ax: multiset<T>, b: multiset<T>, x: T)
    ensures Image(key, ax + multiset{x} + b) == multiset{key(x)} + Image(key, ax + b)
  {
    ImagePick(key, ax + multiset{x} + b, x);
    assert ax + multiset{x} + b - multiset{x} == ax + b;
  }

  /** The image of a union is the union of the images. */
  lemma {:induction false} ImageUnion<T>(key: T -> u64, a: multiset<T>, b: multiset<T>)
    ensures Image(key, a + b) == Image(key, a) + Image(key, b)
    decreases |a|
  {
    if a != multiset{} {
      var x :| x in a;
      var ax := a - multiset{x};
      assert ax + multiset{x} == a;
      ImagePick(key, a, x);
      ImagePickFromUnion(key, ax, b, x);
      ImageUnion(key, ax, b);
      var ia, ib := Image(key, ax), Image(key, b);
      assert Image(key, a + b) == multiset{key(x)} + (ia + ib);
      assert Image(key, a) == multiset{key(x)} + ia;
    } else {
      assert a + b == b;
    }
  }

  /** Every metric in the image belongs to some record, and the image is as large as the multiset. */
  lemma {:induction false} ImageMembers<T>(key: T -> u64, m: multiset<T>)
    ensures |Image(key, m)| == |m|
    ensures forall u :: u in Image(key, m) ==> exists x :: x in m && key(x) == u
    decreases |m|
  {
    if m != multiset{} {
      var x :| x in m;
      ImagePick(key, m, x);
      ImageMembers(key, m - multiset{x});
    }
  }

  /** The image of a sequence's multiset is the multiset of its metrics. */
  lemma {:induction false} ImageOfSeq<T>(key: T -> u64, s: seq<T>)
    ensures Image(key, multiset(s)) == multiset(Keys(key, s))
    decreases |s|
  {
    if s != [] {
      var init := s[..|s| - 1];
      var last := s[|s| - 1];
      assert s == init + [last];
      assert Keys(key, s) == Keys(key, init) + [key(last)];
      ImagePick(key, multiset(s), last);
      assert multiset(s) - multiset{last} == multiset(init);
      ImageOfSeq(key, init);
    }
  }

  /** The head of a non-increasing sequence is at least every metric of another with the same multiset. */
  lemma HeadIsLargest(x: seq<u64>, y: seq<u64>)
    requires NonIncreasing(y) && x != [] && multiset(x) == multiset(y)
    ensures y != [] && x[0] <= y[0]
  {
    assert x[0] in multiset(y);
    var j :| 0 <= j < |y| && y[j] == x[0];
  }

  /** Dropping the head drops one occurrence of it from the multiset. */
  lemma TailMultiset(x: seq<u64>)
    requires x != []
    ensures multiset(x[1..]) == multiset(x) - multiset{x[0]}
  {
    assert x == [x[0]] + x[1..];
  }

  /** Two non-increasing sequences of metrics with the same multiset are equal. */
  lemma {:induction false} NonIncreasingUnique(x: seq<u64>, y: seq<u64>)
    requires NonIncreasing(x) && NonIncreasing(y)
    requires multiset(x) == multiset(y)
    ensures x == y
    decreases |x|
  {
    assert |x| == |multiset(x)| == |multiset(y)| == |y|;
    if x != [] {
      HeadIsLargest(x, y);
      HeadIsLargest(y, x);
      TailMultiset(x);
      TailMultiset(y);
      NonIncreasingUnique(x[1..], y[1..]);
    }
  }

  /** An ascending sequence of records has a non-increasing metric profile. */
  lemma AscendingKeys<T>(key: T -> u64, s: seq<T>)
    requires Ascending(key, s)
    ensures NonIncreasing(Keys(key, s))
  {
  }

  /** The image of what is left out is what is left out of the image. */
  lemma ImageDifference<T>(key: T -> u64, kept: multiset<T>, seen: multiset<T>)
    requires kept <= seen
    ensures Image(key, kept) <= Image(key, seen)
    ensures Image(key, seen) - Image(key, kept) == Image(key, seen - kept)
  {
    assert seen == kept + (seen - kept);
    ImageUnion(key, kept, seen - kept);
  }

  /** A top-`k` selection of records carries over to a top-`k` selection of their metrics. */
  lemma ImageKeepsTopK<T>(key: T -> u64, kept: multiset<T>, seen: multiset<T>, k: nat)
    requires IsTopK(key, kept, seen, k)
    ensures IsTopK(Id, Image(key, kept), Image(key, seen), k)
  {
    ImageDifference(key, kept, seen);
    ImageMembers(key, kept);
    ImageMembers(key, seen);
    ImageMembers(key, seen - kept);
    forall u, v | u in Image(key, kept) && v in Image(key, seen - kept) ensures u >= v {
      var x :| x in kept && key(x) == u;
      var y :| y in seen - kept && key(y) == v;
    }
  }

  /** Among bare metrics a top-`k` selection is unique: ties between metrics are no choice at all. */
  lemma MetricTopKUnique(a: multiset<u64>, b: multiset<u64>, seen: multiset<u64>, k: nat)
    requires IsTopK(Id, a, seen, k) && IsTopK(Id, b, seen, k)
    ensures a == b
  {
    TopKUniqueUpToTies(Id, a, b, seen, k);
    var d1, d2 := a - b, b - a;
    assert forall z :: d1[z] == 0 || d2[z] == 0;
    assert d1 == multiset{};
    assert d2 == multiset{};
    forall z ensures a[z] == b[z] {
      assert d1[z] == 0 && d2[z] == 0;
    }
  }

  /**
   * Any two sorted top-`k` selections from the same records have the same
   * metric profile. The bounded collector and the collect-sort-truncate
   * variant therefore report the same metrics in the same order, whichever
   * records they keep among equals.
   */
  lemma SortedTopKKeysUnique<T>(key: T -> u64, a: seq<T>, b: seq<T>, seen: multiset<T>, k: nat)
    requires Ascending(key, a) && IsTopK(key, multiset(a), seen, k)
    requires Ascending(key, b) && IsTopK(key, multiset(b), seen, k)
    ensures Keys(key, a) == Keys(key, b)
  {
    ImageKeepsTopK(key, multiset(a), seen, k);
    ImageKeepsTopK(key, multiset(b), seen, k);
    MetricTopKUnique(Image(key, multiset(a)), Image(key, multiset(b)), Image(key, seen), k);
    ImageOfSeq(key, a);
    ImageOfSeq(key, b);
    AscendingKeys(key, a);
    AscendingKeys(key, b);
    NonIncreasingUnique(Keys(key, a), Keys(key, b));
  }

  /**
   * Sorting is idempotent on metrics: any two ascending arrangements of the
   * same records, such as a sorted input and the result of sorting it again,
   * have the same metric profile. (Records of equal metric may trade places.)
   */
  lemma SortedKeysUnique<T>(key: T -> u64, a: seq<T>, b: seq<T>)
    requires Ascending(key, a) && Ascending(key, b)
    requires multiset(a) == multiset(b)
    ensures Keys(key, a) == Keys(key, b)
  {
    ImageOfSeq(key, a);
    ImageOfSeq(key, b);
    AscendingKeys(key, a);
    AscendingKeys(key, b);
    NonIncreasingUnique(Keys(key, a), Keys(key, b));
  }
}
