/**
 * `quicksort`, `_quicksort` and `partition` of `src/utils.rs`: an in-place
 * partition-exchange sort that takes the last element of each sub-range as
 * its pivot and scans towards it from both ends.
 *
 * The sort is generic in the element type. Its `Ord` is the reversed order on
 * a `u64` metric `key` (`ReversedCmp`), the only kind of `Ord` the program
 * gives it, so "ascending" is "non-increasing by metric". Indices are Rust
 * `isize` values; a slice of the program's records never holds more than
 * `isize::MAX` elements, so every index computed here is in range and they are modelled as `int`.
 */
module Quicksort {
  import opened Results
  import opened Ord

  /** Width of `usize` on the 64-bit targets the program is built for. */
  const USIZE_MODULUS: int := 0x1_0000_0000_0000_0000

  /** `isize::MAX`. */
  const ISIZE_MAX: int := 0x7fff_ffff_ffff_ffff

  /** `x as isize` for a `usize` value `x`: two's-complement reinterpretation. */
  function AsIsize(x: nat): int
    requires x < USIZE_MODULUS
  {
    if x <= ISIZE_MAX then x else x - USIZE_MODULUS
  }

  /**
   * `(len - 1) as isize`, the initial `high` of `quicksort`. The subtraction
   * is on `usize`: with overflow checks on, `0 - 1` panics (`None`); without
   * them it wraps to `usize::MAX`, which `as isize` turns into -1.
   */
  function InitialHigh(len: nat, overflowChecks: bool): (h: Option<int>)
    requires len <= ISIZE_MAX
    ensures h == None <==> len == 0 && overflowChecks
    ensures h.Some? ==> h.value == len - 1
  {
    if len == 0 && overflowChecks then None
    else Some(AsIsize((len + USIZE_MODULUS - 1) % USIZE_MODULUS))
  }

  /** The empty slice is the one input on which `quicksort` panics in a build with overflow checks. */
  lemma EmptySlicePanics(overflowChecks: bool)
    ensures InitialHigh(0, overflowChecks) == if overflowChecks then None else Some(-1)
    ensures forall len :: 0 < len <= ISIZE_MAX ==> InitialHigh(len, overflowChecks) == Some(len - 1)
  {
  }

  /** `arr.swap(i, j)`. */
  method Swap<T>(a: array<T>, i: int, j: int)
    requires 0 <= i < a.Length && 0 <= j < a.Length
    modifies a
    ensures a[i] == old(a[j]) && a[j] == old(a[i])
    ensures forall k :: 0 <= k < a.Length && k != i && k != j ==> a[k] == old(a[k])
    ensures multiset(a[..]) == old(multiset(a[..]))
  {
    a[i], a[j] := a[j], a[i];
  }

  /**
   * The forward scan of `partition`: `i += 1` then `while arr[i] < arr[pivot]
   * { i += 1 }`. It has no bound check and needs none: the pivot is not
   * `Less` than itself, so the scan stops at `pivot` at the latest. Every
   * element passed over has a larger metric than the pivot; the one it stops
   * at has a metric no larger.
   */
  method ScanUp<T>(a: array<T>, key: T -> u64, start: int, pivot: int) returns (i: int)
    requires 0 <= start <= pivot < a.Length
    ensures start <= i <= pivot
    ensures forall k :: start <= k < i ==> key(a[k]) > key(a[pivot])
    ensures key(a[i]) <= key(a[pivot])
  {
    i := start;
    while ReversedCmp(key, a[i], a[pivot]) == Less
      invariant start <= i <= pivot
      invariant forall k :: start <= k < i ==> key(a[k]) > key(a[pivot])
      decreases pivot - i
    {
      i := i + 1;
    }
  }

  /**
   * The backward scan of `partition`: `j -= 1` then `while j >= 0 &&
   * arr[j] > arr[pivot] { j -= 1 }`. Its only bound is `j >= 0`, so it may
   * run below the sub-range down to -1. Every element passed over has a
   * smaller metric than the pivot; the one it stops at, if any, has a metric
   * no smaller.
   */
  method ScanDown<T>(a: array<T>, key: T -> u64, start: int, pivot: int) returns (j: int)
    requires -1 <= start < pivot < a.Length
    ensures -1 <= j <= start
    ensures forall k :: j < k <= start ==> key(a[k]) < key(a[pivot])
    ensures j >= 0 ==> key(a[j]) >= key(a[pivot])
  {
    j := start;
    while j >= 0 && ReversedCmp(key, a[j], a[pivot]) == Greater
      invariant -1 <= j <= start
      invariant forall k :: j < k <= start ==> key(a[k]) < key(a[pivot])
      decreases j
    {
      j := j - 1;
    }
  }

  /**
   * The `loop` of `partition(arr, low, high)`, from `i = low - 1` and
   * `j = high` to its `break`. The pivot `a[hi]` stays in place because every
   * swap is at `i < j < hi`. The `j` scan may run below `lo` (down to -1);
   * then `i >= j` ends the loop with no swap, so nothing outside `[lo, hi)`
   * is ever written. When the loop ends, `a[i]` has a metric no larger than
   * the pivot's, everything before it in the sub-range has a metric at least
   * the pivot's and everything between it and the pivot a metric at most the
   * pivot's.
   */
  method PartitionLoop<T>(a: array<T>, key: T -> u64, lo: int, hi: int) returns (i: int)
    requires 0 <= lo <= hi < a.Length
    modifies a
    ensures lo <= i <= hi
    ensures a[hi] == old(a[hi])
    ensures forall k :: lo <= k < i ==> key(a[k]) >= key(a[hi])
    ensures forall k :: i <= k < hi ==> key(a[k]) <= key(a[hi])
    ensures forall k :: 0 <= k < a.Length && !(lo <= k < hi) ==> a[k] == old(a[k])
    ensures multiset(a[..]) == old(multiset(a[..]))
  {
    var pivot := hi;
    i := lo - 1;
    var j := hi;
    ghost var pk := key(a[pivot]);
    while true
      invariant lo - 1 <= i < j <= hi
      invariant a[pivot] == old(a[hi]) && key(a[pivot]) == pk
      invariant forall k :: lo <= k <= i ==> key(a[k]) >= pk
      invariant forall k :: j <= k < hi ==> key(a[k]) <= pk
      invariant forall k :: 0 <= k < a.Length && !(lo <= k < hi) ==> a[k] == old(a[k])
      invariant multiset(a[..]) == old(multiset(a[..]))
      decreases j - i
    {
      i := ScanUp(a, key, i + 1, pivot);
      j := ScanDown(a, key, j - 1, pivot);
      if i >= j {
        break;
      }
      Swap(a, i, j);
    }
  }

  /**
   * `partition(arr, low, high)`: the scanning loop, then the pivot swapped
   * into the meeting point `i`, which is returned. Everything in `[lo, p)` is
   * `<= a[p]` under `Ord` (metric at least the pivot's), everything in
   * `(p, hi]` is `>= a[p]` (metric at most the pivot's), and the array is the
   * old one with `[lo, hi]` rearranged.
   */
  method Partition<T>(a: array<T>, key: T -> u64, lo: int, hi: int) returns (p: int)
    requires 0 <= lo <= hi < a.Length
    modifies a
    ensures lo <= p <= hi
    ensures forall k :: lo <= k < p ==> key(a[k]) >= key(a[p])
    ensures forall k :: p < k <= hi ==> key(a[k]) <= key(a[p])
    ensures forall k :: 0 <= k < a.Length && !(lo <= k <= hi) ==> a[k] == old(a[k])
    ensures multiset(a[..]) == old(multiset(a[..]))
  {
    var pivot := hi;
    var i := PartitionLoop(a, key, lo, hi);
    Swap(a, i, pivot);
    p := i;
  }

  /**
   * `_quicksort(arr, low, high)`: sorts `a[lo..=hi]` in place and leaves the
   * rest of the array alone. Callers pass `0 <= lo` and `hi < a.Length`, with
   * `lo` at most one past `hi` (an empty sub-range, where nothing happens).
   */
  method QuicksortRange<T>(a: array<T>, key: T -> u64, lo: int, hi: int)
    requires 0 <= lo <= hi + 1 <= a.Length
    modifies a
    ensures forall x, y :: lo <= x < y <= hi ==> key(a[x]) >= key(a[y])
    ensures forall k :: 0 <= k < a.Length && !(lo <= k <= hi) ==> a[k] == old(a[k])
    ensures multiset(a[..]) == old(multiset(a[..]))
    decreases hi - lo
  {
    if lo < hi {
      var p := Partition(a, key, lo, hi);
      ghost var a1 := a[..];
      QuicksortRange(a, key, lo, p - 1);
      ghost var a2 := a[..];
      QuicksortRange(a, key, p + 1, hi);
      SortedAroundPivot(key, a1, a2, a[..], lo, p, hi);
    }
  }

  /**
   * `quicksort(arr)` as written: `_quicksort(arr, 0, (len - 1) as isize)`.
   * On an empty slice the `usize` subtraction panics in a build with
   * overflow checks (`panicked`); otherwise the slice ends ascending under
   * `Ord` and holds the same elements.
   */
  method Quicksort<T>(a: array<T>, key: T -> u64, overflowChecks: bool) returns (panicked: bool)
    requires a.Length <= ISIZE_MAX
    modifies a
    ensures panicked <==> a.Length == 0 && overflowChecks
    ensures Ascending(key, a[..])
    ensures multiset(a[..]) == old(multiset(a[..]))
  {
    var high := InitialHigh(a.Length, overflowChecks);
    match high
    case None =>
      panicked := true;
    case Some(h) =>
      panicked := false;
      QuicksortRange(a, key, 0, h);
  }

  /**
   * `quicksort` with its evident intent: an empty slice is already sorted and
   * is left alone instead of computing `0 - 1` on `usize`. The slice ends
   * ascending under `Ord` (non-increasing metric) and holds the same elements.
   */
  method Sort<T>(a: array<T>, key: T -> u64)
    modifies a
    ensures Ascending(key, a[..])
    ensures multiset(a[..]) == old(multiset(a[..]))
  {
    if a.Length > 0 {
      QuicksortRange(a, key, 0, a.Length - 1);
    }
  }

  /**
   * The step that makes `_quicksort` correct. `mid` is `parted` with its left
   * part `[lo, p)` sorted, `done` is `mid` with its right part `(p, hi]`
   * sorted; each sort only rearranges its own part, so the left part keeps
   * metrics at least the pivot's and the right part metrics at most, and
   * `done` is sorted on all of `[lo, hi]`.
   */
  lemma SortedAroundPivot<T>(key: T -> u64, parted: seq<T>, mid: seq<T>, done: seq<T>, lo: int, p: int, hi: int)
    requires 0 <= lo <= p <= hi < |parted| == |mid| == |done|
    requires forall k :: lo <= k < p ==> key(parted[k]) >= key(parted[p])
    requires forall k :: p < k <= hi ==> key(parted[k]) <= key(parted[p])
    requires multiset(mid) == multiset(parted)
    requires forall k :: 0 <= k < |mid| && !(lo <= k <= p - 1) ==> mid[k] == parted[k]
    requires forall x, y :: lo <= x < y <= p - 1 ==> key(mid[x]) >= key(mid[y])
    requires multiset(done) == multiset(mid)
    requires forall k :: 0 <= k < |done| && !(p + 1 <= k <= hi) ==> done[k] == mid[k]
    requires forall x, y :: p + 1 <= x < y <= hi ==> key(done[x]) >= key(done[y])
    ensures forall x, y :: lo <= x < y <= hi ==> key(done[x]) >= key(done[y])
  {
    MultisetOfSlice(mid, parted, lo, p);
    MultisetKeepsBounds(key, parted[lo..p], mid[lo..p], parted[p], true);
    MultisetOfSlice(done, mid, p + 1, hi + 1);
    MultisetKeepsBounds(key, mid[p + 1..hi + 1], done[p + 1..hi + 1], parted[p], false);
    forall x, y | lo <= x < y <= hi ensures key(done[x]) >= key(done[y]) {
      if x < p {
        assert done[x] == mid[x] == mid[lo..p][x - lo];
      }
      if p < y {
        assert done[y] == done[p + 1..hi + 1][y - p - 1];
      }
    }
  }

  /**
   * Two sequences that hold the same elements and agree outside `[lo, hi)`
   * hold the same elements inside it.
   */
  lemma MultisetOfSlice<T>(s: seq<T>, t: seq<T>, lo: int, hi: int)
    requires 0 <= lo <= hi <= |s| == |t|
    requires multiset(s) == multiset(t)
    requires forall k :: 0 <= k < |s| && !(lo <= k < hi) ==> s[k] == t[k]
    ensures multiset(s[lo..hi]) == multiset(t[lo..hi])
  {
    MiddleMultiset(s, lo, hi);
    MiddleMultiset(t, lo, hi);
    assert s[..lo] == t[..lo];
    assert s[hi..] == t[hi..];
  }

  /** The middle of a sequence holds what is left once its two ends are taken away. */
  lemma MiddleMultiset<T>(s: seq<T>, lo: int, hi: int)
    requires 0 <= lo <= hi <= |s|
    ensures multiset(s[lo..hi]) == multiset(s) - multiset(s[..lo]) - multiset(s[hi..])
  {
    assert s == s[..lo] + s[lo..hi] + s[hi..];
  }

  /**
   * A rearrangement keeps a bound on the metric: if every element of `s` has
   * metric at least (`atLeast`) or at most (`!atLeast`) that of `b`, so does
   * every element of a sequence with the same elements.
   */
  lemma MultisetKeepsBounds<T>(key: T -> u64, s: seq<T>, t: seq<T>, b: T, atLeast: bool)
    requires multiset(s) == multiset(t)
    requires forall k :: 0 <= k < |s| ==> if atLeast then key(s[k]) >= key(b) else key(s[k]) <= key(b)
    ensures forall k :: 0 <= k < |t| ==> if atLeast then key(t[k]) >= key(b) else key(t[k]) <= key(b)
  {
    forall k | 0 <= k < |t|
      ensures if atLeast then key(t[k]) >= key(b) else key(t[k]) <= key(b)
    {
      assert t[k] in multiset(s);
      var m :| 0 <= m < |s| && s[m] == t[k];
    }
  }
}
