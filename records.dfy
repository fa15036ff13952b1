/**
 * The two ranked records of `src/utils.rs`. Each one's `PartialEq` and `Ord`
 * look at a single metric and ignore every other field, and its `Ord` is the
 * metric's natural order reversed, so "ascending" means "largest first".
 */
module Records {
  import opened Ord

  /** `FileInfo`: a path and its size in bytes. */
  datatype FileInfo = FileInfo(path: string, size: u64) {
    /** `PartialEq::eq`: compares sizes only. */
    predicate Eq(other: FileInfo) {
      size == other.size
    }

    /** `Ord::cmp`: `self.size.cmp(&other.size).reverse()`. */
    function Cmp(other: FileInfo): (r: Ordering)
      ensures r == Less <==> size > other.size
      ensures r == Equal <==> Eq(other)
      ensures r == Greater <==> size < other.size
    {
      CmpU64(size, other.size).Reverse()
    }

    /** `<` through `PartialOrd::partial_cmp`, which is `Some(self.cmp(other))`. */
    predicate Lt(other: FileInfo) {
      Cmp(other) == Less
    }

    /** `>` through `PartialOrd::partial_cmp`. */
    predicate Gt(other: FileInfo) {
      Cmp(other) == Greater
    }
  }

  /** The metric `FileInfo` is ranked by. */
  function Size(f: FileInfo): u64 {
    f.size
  }

  /** `ProcessInfo`: a process's name, disk counters, resident memory and status. */
  datatype ProcessInfo = ProcessInfo(
    name: string,
    readBytes: u64,
    writtenBytes: u64,
    memory: u64,
    status: string)
  {
    /** `PartialEq::eq`: compares memory only. */
    predicate Eq(other: ProcessInfo) {
      memory == other.memory
    }

    /** `Ord::cmp`: `self.memory.cmp(&other.memory).reverse()`. */
    function Cmp(other: ProcessInfo): (r: Ordering)
      ensures r == Less <==> memory > other.memory
      ensures r == Equal <==> Eq(other)
      ensures r == Greater <==> memory < other.memory
    {
      CmpU64(memory, other.memory).Reverse()
    }

    /** `<` through `PartialOrd::partial_cmp`. */
    predicate Lt(other: ProcessInfo) {
      Cmp(other) == Less
    }

    /** `>` through `PartialOrd::partial_cmp`. */
    predicate Gt(other: ProcessInfo) {
      Cmp(other) == Greater
    }
  }

  /** The metric `ProcessInfo` is ranked by. */
  function Memory(p: ProcessInfo): u64 {
    p.memory
  }

  /**
   * The ordering contract of `FileInfo`: `a < b` exactly when `a` is larger,
   * equality is equal size whatever the paths, `Eq` agrees with `Cmp` as
   * Rust's `Eq`/`Ord` pair requires, and the order is the reversed-metric
   * order on `Size` that the sort and the heap are modelled with.
   */
  lemma FileInfoOrder(a: FileInfo, b: FileInfo)
    ensures a.Lt(b) <==> a.size > b.size
    ensures a.Gt(b) <==> a.size < b.size
    ensures a.Eq(b) <==> a.size == b.size
    ensures a.Eq(b) <==> a.Cmp(b) == Equal
    ensures a.Cmp(b) == ReversedCmp(Size, a, b)
    ensures forall p, q :: FileInfo(p, a.size).Cmp(FileInfo(q, b.size)) == a.Cmp(b)
  {
  }

  /** The same contract for `ProcessInfo`: memory alone decides, name, counters and status never do. */
  lemma ProcessInfoOrder(a: ProcessInfo, b: ProcessInfo)
    ensures a.Lt(b) <==> a.memory > b.memory
    ensures a.Gt(b) <==> a.memory < b.memory
    ensures a.Eq(b) <==> a.memory == b.memory
    ensures a.Eq(b) <==> a.Cmp(b) == Equal
    ensures a.Cmp(b) == ReversedCmp(Memory, a, b)
    ensures forall n, r, w, s ::
              ProcessInfo(n, r, w, a.memory, s).Cmp(b) == a.Cmp(b)
  {
  }
}
