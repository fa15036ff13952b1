/**
 * Concrete rankings: what any sorted top-`k` result, and so what
 * `FindLargestFiles` and `Processes` return, must report on small inputs.
 */
module Scenarios {
  import opened Results
  import opened Ord
  import opened Records
  import opened TopK
  import opened Metrics
  import opened Utils

  /** The metric profile of two records. */
  lemma KeysOfTwo<T>(key: T -> u64, x: T, y: T)
    ensures Keys(key, [x, y]) == [key(x), key(y)]
  {
  }

  /** The metric profile of three records. */
  lemma KeysOfThree<T>(key: T -> u64, x: T, y: T, z: T)
    ensures Keys(key, [x, y, z]) == [key(x), key(y), key(z)]
  {
  }

  /** The multiset of a five-element sequence, and of its first three. */
  lemma MultisetOfFive<T>(v: T, w: T, x: T, y: T, z: T)
    ensures multiset([v, w, x, y, z]) == multiset{v, w, x, y, z}
    ensures multiset([v, w, x, y, z][..3]) == multiset{v, w, x}
  {
    assert [v, w, x, y, z][..3] == [v, w, x];
  }

  /** Three records in non-increasing metric order are ascending. */
  lemma AscendingThree<T>(key: T -> u64, x: T, y: T, z: T)
    requires key(x) >= key(y) >= key(z)
    ensures Ascending(key, [x, y, z])
  {
    AdjacentOrderSuffices(key, [x, y, z]);
  }

  /** Five records in non-increasing metric order are ascending. */
  lemma AscendingFive<T>(key: T -> u64, v: T, w: T, x: T, y: T, z: T)
    requires key(v) >= key(w) >= key(x) >= key(y) >= key(z)
    ensures Ascending(key, [v, w, x, y, z])
  {
    AdjacentOrderSuffices(key, [v, w, x, y, z]);
  }

  /** Five records in non-increasing metric order: the first three are a top three. */
  lemma SortedFive<T>(key: T -> u64, v: T, w: T, x: T, y: T, z: T)
    requires key(v) >= key(w) >= key(x) >= key(y) >= key(z)
    ensures IsTopK(key, multiset{v, w, x}, multiset{v, w, x, y, z}, 3)
  {
    AscendingFive(key, v, w, x, y, z);
    SortedPrefixIsTopK(key, [v, w, x, y, z], 3);
    MultisetOfFive(v, w, x, y, z);
  }

  /** Three records in ascending order: the first two are a top two. */
  lemma SortedThree<T>(key: T -> u64, x: T, y: T, z: T)
    requires Ascending(key, [x, y, z])
    ensures IsTopK(key, multiset{x, y}, multiset{x, y, z}, 2)
  {
    var s := [x, y, z];
    SortedPrefixIsTopK(key, s, 2);
    assert s[..2] == [x, y];
  }

  /** With metrics ordered `a, e, c, b, d`, the sequence `[a, e, c]` is a sorted top three of all five. */
  lemma TopThreeWitness<T>(key: T -> u64, a: T, b: T, c: T, d: T, e: T)
    requires key(a) >= key(e) >= key(c) >= key(b) >= key(d)
    ensures Ascending(key, [a, e, c])
    ensures IsTopK(key, multiset([a, e, c]), multiset{a, b, c, d, e}, 3)
  {
    SortedFive(key, a, e, c, b, d);
    ReorderFive(a, b, c, d, e);
    AscendingThree(key, a, e, c);
    assert multiset([a, e, c]) == multiset{a, e, c};
  }

  /** Listing five records in another order gives the same multiset. */
  lemma ReorderFive<T>(a: T, b: T, c: T, d: T, e: T)
    ensures multiset{a, e, c, b, d} == multiset{a, b, c, d, e}
  {
  }

  /**
   * Files of sizes 10, 3, 7, 1 and 9 bytes, whatever their paths: any sorted
   * top three of them, such as what `FindLargestFiles` returns for `n == 3`,
   * has sizes 10, 9 and 7, in that order.
   */
  lemma TopThreeOfFive(a: FileInfo, b: FileInfo, c: FileInfo, d: FileInfo, e: FileInfo)
    requires a.size == 10 && b.size == 3 && c.size == 7 && d.size == 1 && e.size == 9
    ensures forall r :: Ascending(Size, r) && IsTopK(Size, multiset(r), multiset{a, b, c, d, e}, 3) ==>
              Keys(Size, r) == [10, 9, 7]
  {
    TopThreeWitness(Size, a, b, c, d, e);
    KeysOfThree(Size, a, e, c);
    forall r | Ascending(Size, r) && IsTopK(Size, multiset(r), multiset{a, b, c, d, e}, 3)
      ensures Keys(Size, r) == [10, 9, 7]
    {
      SortedTopKKeysUnique(Size, r, [a, e, c], multiset{a, b, c, d, e}, 3);
    }
  }

  /**
   * Processes using 5, 5 and 3 bytes of memory: any sorted top two, such as
   * what `Processes` returns for `n == 2`, has memories 5 and 5, whichever of
   * the tied pair comes first.
   */
  lemma TopTwoWithTies(p: ProcessInfo, q: ProcessInfo, s: ProcessInfo)
    requires p.memory == 5 && q.memory == 5 && s.memory == 3
    ensures forall r :: Ascending(Memory, r) && IsTopK(Memory, multiset(r), multiset{p, q, s}, 2) ==>
              Keys(Memory, r) == [5, 5]
  {
    AscendingThree(Memory, p, q, s);
    SortedThree(Memory, p, q, s);
    assert multiset([p, q]) == multiset{p, q};
    AdjacentOrderSuffices(Memory, [p, q]);
    KeysOfTwo(Memory, p, q);
    forall r | Ascending(Memory, r) && IsTopK(Memory, multiset(r), multiset{p, q, s}, 2)
      ensures Keys(Memory, r) == [5, 5]
    {
      SortedTopKKeysUnique(Memory, r, [p, q], multiset{p, q, s}, 2);
    }
  }

  /** A walk of five files in which the third file cannot be read. */
  function WalkWithOneFailure(): seq<WalkItem> {
    [ Ok(DirEntry("a", true, Ok(10))), Err(WalkError("loop")), Ok(DirEntry("dir", false, Ok(0)))
    , Ok(DirEntry("b", true, Ok(3))), Ok(DirEntry("c", true, Err(IoError("denied"))))
    , Ok(DirEntry("d", true, Ok(7))), Ok(DirEntry("e", true, Ok(1)))]
  }

  /**
   * One unreadable file among five fails the whole call with its error, so
   * `FindLargestFiles` returns `Err(IoError("denied"))` rather than ranking
   * the other four; the walk error and the directory alone would be skipped.
   */
  lemma OneUnreadableFileFailsTheCall()
    ensures FirstMetadataError(WalkWithOneFailure()) == Some(IoError("denied"))
    ensures FirstMetadataError(WalkWithOneFailure()[..4]) == None
    ensures |RegularFiles(WalkWithOneFailure())| == 4
  {
  }
}
