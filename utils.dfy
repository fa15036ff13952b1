/**
 * The two top-K call sites of `src/utils.rs`: `find_largest_files`, which
 * caps its heap at `n` while it walks a directory tree, and `processes`,
 * which heaps every process, sorts them all and then truncates to `n`.
 *
 * The directory walk and the process table come from other libraries; here
 * they are sequences given as input. A walk item is either an error, which
 * `filter_map(|e| e.ok())` drops, or a directory entry.
 */
module Utils {
  import opened Results
  import opened Ord
  import opened Records
  import opened Quicksort
  import opened Heap
  import opened TopK

  /** An `io::Error`, as produced by `entry.metadata()` and propagated by `?`. */
  datatype IoError = IoError(message: string)

  /** A `walkdir::Error` yielded by the walk itself. */
  datatype WalkError = WalkError(message: string)

  /**
   * A `walkdir::DirEntry`: its path, whether `file_type().is_file()`, and
   * what `metadata()` would return (`Ok` with the length in bytes, or an error).
   */
  datatype DirEntry = DirEntry(path: string, isFile: bool, metadata: Result<u64, IoError>)

  /** One item of `WalkDir::new(start_dir).into_iter()`. */
  type WalkItem = Result<DirEntry, WalkError>

  /** A regular file whose metadata can be read. */
  predicate IsReadableFile(item: WalkItem) {
    item.Ok? && item.value.isFile && item.value.metadata.Ok?
  }

  /** A regular file whose `metadata()` fails. */
  predicate IsFailingFile(item: WalkItem) {
    item.Ok? && item.value.isFile && item.value.metadata.Err?
  }

  /** The record one walk item contributes: one for a readable regular file, none otherwise. */
  function FilesOf(item: WalkItem): seq<FileInfo> {
    if IsReadableFile(item) then [FileInfo(item.value.path, item.value.metadata.value)] else []
  }

  /** The regular files among the walk items, in walk order, with their sizes. */
  function RegularFiles(items: seq<WalkItem>): seq<FileInfo> {
    if items == [] then [] else FilesOf(items[0]) + RegularFiles(items[1..])
  }

  /** The error of the first regular file whose `metadata()` fails, if any. */
  function FirstMetadataError(items: seq<WalkItem>): Option<IoError> {
    if items == [] then None
    else if IsFailingFile(items[0]) then Some(items[0].value.metadata.error)
    else FirstMetadataError(items[1..])
  }

  /**
   * `RegularFiles` keeps exactly the readable regular files: a record is in
   * it if and only if some walk item is a regular file with that path and a
   * readable size. Walk errors and directories contribute nothing.
   */
  lemma {:induction false} RegularFilesMembers(items: seq<WalkItem>)
    ensures |RegularFiles(items)| <= |items|
    ensures forall f :: f in RegularFiles(items) <==>
              exists k :: 0 <= k < |items| && items[k] == Ok(DirEntry(f.path, true, Ok(f.size)))
  {
    if items != [] {
      RegularFilesMembers(items[1..]);
      forall f ensures f in RegularFiles(items) <==>
                       exists k :: 0 <= k < |items| && items[k] == Ok(DirEntry(f.path, true, Ok(f.size)))
      {
        if exists k :: 0 <= k < |items| && items[k] == Ok(DirEntry(f.path, true, Ok(f.size))) {
          var k :| 0 <= k < |items| && items[k] == Ok(DirEntry(f.path, true, Ok(f.size)));
          if k > 0 {
            assert items[1..][k - 1] == items[k];
          }
        }
        if f in RegularFiles(items[1..]) {
          var k :| 0 <= k < |items[1..]| && items[1..][k] == Ok(DirEntry(f.path, true, Ok(f.size)));
          assert items[k + 1] == items[1..][k];
        }
      }
    }
  }

  /**
   * `FirstMetadataError` is `None` exactly when no regular file's metadata
   * fails, and otherwise the error of the first regular file whose does.
   */
  lemma {:induction false} FirstMetadataErrorIsFirst(items: seq<WalkItem>)
    ensures FirstMetadataError(items).None? <==> forall k :: 0 <= k < |items| ==> !IsFailingFile(items[k])
    ensures FirstMetadataError(items).Some? ==>
              exists k :: && 0 <= k < |items|
                          && IsFailingFile(items[k])
                          && items[k].value.metadata.error == FirstMetadataError(items).value
                          && forall j :: 0 <= j < k ==> !IsFailingFile(items[j])
  {
    if items != [] {
      FirstMetadataErrorIsFirst(items[1..]);
      if IsFailingFile(items[0]) {
        assert FirstMetadataError(items) == Some(items[0].value.metadata.error);
      } else {
        assert FirstMetadataError(items) == FirstMetadataError(items[1..]);
        forall k | 1 <= k < |items| ensures items[k] == items[1..][k - 1] {}
        if FirstMetadataError(items).Some? {
          var k :| && 0 <= k < |items[1..]|
                   && IsFailingFile(items[1..][k])
                   && items[1..][k].value.metadata.error == FirstMetadataError(items).value
                   && forall j :: 0 <= j < k ==> !IsFailingFile(items[1..][j]);
          assert IsFailingFile(items[k + 1]);
        }
      }
    }
  }

  /** How the walk filters consume one item. */
  lemma WalkStep(items: seq<WalkItem>, i: nat)
    requires i < |items|
    ensures FirstMetadataError(items[i..]) ==
              if IsFailingFile(items[i]) then Some(items[i].value.metadata.error)
              else FirstMetadataError(items[i + 1..])
    ensures RegularFiles(items[i..]) == FilesOf(items[i]) + RegularFiles(items[i + 1..])
  {
    assert items[i..][1..] == items[i + 1..];
  }

  /**
   * One item of the walk loop: a regular file whose metadata fails yields its
   * error and leaves the heap alone; a readable regular file is offered to
   * the heap; anything else is skipped.
   */
  method Visit(heap: BinaryHeap<FileInfo>, item: WalkItem, n: u8, ghost seen: multiset<FileInfo>)
    returns (err: Option<IoError>)
    requires heap.key == Size && heap.Len() <= n as int
    requires IsTopK(Size, heap.elems, seen, n as int)
    modifies heap
    ensures IsFailingFile(item) ==> err == Some(item.value.metadata.error)
    ensures !IsFailingFile(item) ==> err == None
    ensures heap.Len() <= n as int
    ensures err.None? ==> IsTopK(Size, heap.elems, seen + multiset(FilesOf(item)), n as int)
  {
    err := None;
    if item.Ok? && item.value.isFile {
      var entry := item.value;
      if entry.metadata.Err? {
        return Some(entry.metadata.error);
      }
      var file := FileInfo(entry.path, entry.metadata.value);
      Offer(heap, file, n, seen);
    } else {
      assert seen + multiset(FilesOf(item)) == seen;
    }
  }

  /**
   * One file through the bounded collector: `heap.push(file)`, then
   * `heap.pop()` when the heap holds more than `n`. The heap never holds more
   * than `n` afterwards and is again a top-`n` of everything seen.
   */
  method Offer(heap: BinaryHeap<FileInfo>, file: FileInfo, n: u8, ghost seen: multiset<FileInfo>)
    requires heap.key == Size && heap.Len() <= n as int
    requires IsTopK(Size, heap.elems, seen, n as int)
    modifies heap
    ensures heap.Len() <= n as int
    ensures IsTopK(Size, heap.elems, seen + multiset{file}, n as int)
  {
    ghost var kept := heap.elems;
    heap.Push(file);
    if heap.Len() > n as int {
      var popped := heap.Pop();
      PushPopKeepsTopK(Size, kept, seen, n as int, file, popped.value);
    } else {
      PushKeepsTopK(Size, kept, seen, n as int, file);
    }
  }

  /**
   * The walk loop of `find_largest_files`: offers every readable regular file
   * to a heap capped at `n`, skipping walk errors and non-files, and stops at
   * the first regular file whose metadata fails, returning its error.
   * Without an error, the heap holds a top-`n` of all regular files by size.
   */
  method CollectLargest(items: seq<WalkItem>, n: u8) returns (heap: BinaryHeap<FileInfo>, err: Option<IoError>)
    ensures fresh(heap) && heap.key == Size
    ensures err == FirstMetadataError(items)
    ensures err.None? ==> IsTopK(Size, heap.elems, multiset(RegularFiles(items)), n as int)
  {
    heap := new BinaryHeap(Size);
    ghost var seen: seq<FileInfo> := [];
    TopKOfNothing(Size, n as int);
    var i := 0;
    while i < |items|
      invariant 0 <= i <= |items|
      invariant FirstMetadataError(items) == FirstMetadataError(items[i..])
      invariant RegularFiles(items) == seen + RegularFiles(items[i..])
      invariant fresh(heap) && heap.key == Size
      invariant heap.Len() <= n as int
      invariant IsTopK(Size, heap.elems, multiset(seen), n as int)
    {
      WalkStep(items, i);
      var e := Visit(heap, items[i], n, multiset(seen));
      if e.Some? {
        return heap, e;
      }
      seen := seen + FilesOf(items[i]);
      i := i + 1;
    }
    assert items[i..] == [];
    err := None;
  }

  /**
   * `find_largest_files(start_dir, n)`, with the evident intent of
   * `quicksort` on an empty vector (see `Quicksort.Sort`).
   *
   * Walk errors and entries that are not regular files are skipped. The first
   * regular file whose metadata cannot be read ends the whole call with that
   * error. Otherwise the result holds `min(n, number of files)` of the regular
   * files, a top-`n` by size, largest first.
   */
  method FindLargestFiles(items: seq<WalkItem>, n: u8) returns (r: Result<seq<FileInfo>, IoError>)
    ensures r.Err? <==> FirstMetadataError(items).Some?
    ensures r.Err? ==> r.error == FirstMetadataError(items).value
    ensures r.Ok? ==> |r.value| == Min(n as int, |RegularFiles(items)|)
    ensures r.Ok? ==> Ascending(Size, r.value)
    ensures r.Ok? ==> IsTopK(Size, multiset(r.value), multiset(RegularFiles(items)), n as int)
  {
    var heap, err := CollectLargest(items, n);
    if err.Some? {
      return Err(err.value);
    }
    var vec := heap.IntoVec();
    Sort(vec, Size);
    r := Ok(vec[..]);
  }

  /**
   * `find_largest_files(start_dir, n)` as written: the vector goes through
   * `quicksort`, whose `len - 1` underflows when the vector is empty. With
   * overflow checks on, the call panics exactly when no metadata error stops
   * the walk first and the heap ends empty, that is when `n == 0` (every push
   * is popped again) or the walk holds no readable regular file. Without a
   * panic the result is that of `FindLargestFiles`.
   */
  method FindLargestFilesAsWritten(items: seq<WalkItem>, n: u8, overflowChecks: bool)
    returns (r: Result<seq<FileInfo>, IoError>, panicked: bool)
    ensures panicked <==> overflowChecks && FirstMetadataError(items).None? && (n == 0 || |RegularFiles(items)| == 0)
    ensures !panicked ==> (r.Err? <==> FirstMetadataError(items).Some?)
    ensures !panicked && r.Err? ==> r.error == FirstMetadataError(items).value
    ensures !panicked && r.Ok? ==> |r.value| == Min(n as int, |RegularFiles(items)|)
    ensures !panicked && r.Ok? ==> Ascending(Size, r.value)
    ensures !panicked && r.Ok? ==> IsTopK(Size, multiset(r.value), multiset(RegularFiles(items)), n as int)
  {
    var heap, err := CollectLargest(items, n);
    if err.Some? {
      return Err(err.value), false;
    }
    assert |multiset(RegularFiles(items))| == |RegularFiles(items)|;
    var vec := heap.IntoVec();
    panicked := Quicksort.Quicksort(vec, Size, overflowChecks);
    r := Ok(vec[..]);
  }

  /**
   * The ranking half of `processes(n)`: every process goes into an uncapped
   * heap, the heap's vector is sorted whole, then truncated to `n`. The result
   * is the first `min(n, number of processes)` records of a largest-first
   * arrangement of all of them, and so a top-`n` by resident memory.
   */
  method Processes(procs: seq<ProcessInfo>, n: u8) returns (top: seq<ProcessInfo>)
    ensures |top| == Min(n as int, |procs|)
    ensures Ascending(Memory, top)
    ensures exists all: seq<ProcessInfo> ::
              multiset(all) == multiset(procs) && Ascending(Memory, all) && |top| <= |all| && top == all[..|top|]
    ensures IsTopK(Memory, multiset(top), multiset(procs), n as int)
  {
    var heap := new BinaryHeap(Memory);
    for i := 0 to |procs|
      invariant heap.elems == multiset(procs[..i])
    {
      assert procs[..i + 1] == procs[..i] + [procs[i]];
      heap.Push(procs[i]);
    }
    assert procs[..|procs|] == procs;
    var vec := heap.IntoVec();
    Sort(vec, Memory);
    ghost var all := vec[..];
    assert multiset(all) == multiset(procs) && Ascending(Memory, all);
    top := vec[..Min(n as int, vec.Length)];
    assert |top| <= |all| && top == all[..|top|];
    SortedPrefixIsTopK(Memory, all, n as int);
  }

  /**
   * `processes(n)` as written: the vector of every process goes through
   * `quicksort`, whose `len - 1` underflows when the process table is empty.
   * With overflow checks on, the call panics exactly then. Without a panic
   * the result is that of `Processes`.
   */
  method ProcessesAsWritten(procs: seq<ProcessInfo>, n: u8, overflowChecks: bool)
    returns (top: seq<ProcessInfo>, panicked: bool)
    requires |procs| <= ISIZE_MAX
    ensures panicked <==> overflowChecks && |procs| == 0
    ensures !panicked ==> |top| == Min(n as int, |procs|)
    ensures !panicked ==> Ascending(Memory, top)
    ensures !panicked ==> IsTopK(Memory, multiset(top), multiset(procs), n as int)
  {
    var heap := new BinaryHeap(Memory);
    for i := 0 to |procs|
      invariant heap.elems == multiset(procs[..i])
    {
      assert procs[..i + 1] == procs[..i] + [procs[i]];
      heap.Push(procs[i]);
    }
    assert procs[..|procs|] == procs;
    var vec := heap.IntoVec();
    assert vec.Length == |multiset(vec[..])| == |procs|;
    panicked := Quicksort.Quicksort(vec, Memory, overflowChecks);
    top := vec[..Min(n as int, vec.Length)];
    if !panicked {
      SortedPrefixIsTopK(Memory, vec[..], n as int);
    }
  }
}
