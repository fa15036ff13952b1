# sysquery top-K ranking, modelled in Dafny

`sysquery` is a command-line tool. It reports, among other things, the largest files under a
directory and the processes using the most memory. Both reports are built by one small ranking
engine in `src/utils.rs`:

- **A reversed order.** `FileInfo` compares by `size` only, and `ProcessInfo` by `memory` only.
  In both, `cmp` is the natural `u64` order reversed. "Ascending" therefore means largest first,
  and the top of a max-heap is the record with the *smallest* metric.
- **An in-place quicksort.** `quicksort`, `_quicksort` and `partition` take the last element of
  each sub-range as the pivot and scan towards it from both ends.
- **A bounded collector.** `find_largest_files` pushes each regular file onto a `BinaryHeap`. It
  pops whenever the heap holds more than `n`, then sorts what is left.
- **Collect, sort, truncate.** `processes` heaps every process, sorts them all, and truncates to `n`.

The model, module by module:

| module | file | what it holds |
|---|---|---|
| `Results` | `ord.dfy` | `Option`, `Result` |
| `Ord` | `ord.dfy` | `u8`, `u64`, `Ordering`, the reversed comparison `ReversedCmp`, "ascending", "greatest element" |
| `Records` | `records.dfy` | `FileInfo` and `ProcessInfo` with their `PartialEq`/`Ord` |
| `Quicksort` | `quicksort.dfy` | `partition` and `_quicksort` as array methods; `quicksort` as written and as intended |
| `Heap` | `binary_heap.dfy` | the `BinaryHeap` operations the program uses, as a class over a multiset |
| `TopK` | `top_k.dfy` | `IsTopK`, what "the `k` largest" means, and how `push`/`pop`/truncate preserve it |
| `Metrics` | `metrics.dfy` | metric profiles (`Keys`): ties aside, sorted top-`k` results are unique |
| `Utils` | `utils.dfy` | `find_largest_files` and the ranking half of `processes` |
| `Scenarios` | `scenarios.dfy` | small worked inputs |

The sort is generic in the element type. Its order is given as `ReversedCmp(key, ·, ·)` for a
`u64` metric `key`, which is the only kind of `Ord` the program passes to it; `Records.FileInfoOrder`
and `Records.ProcessInfoOrder` prove that the records' own `cmp` is exactly that order.

The directory walk is a sequence of `WalkItem`s. Each item is a walk error, or an entry with a
"regular file" flag and the outcome of `metadata()`. The process table is a sequence of `ProcessInfo`.

## Model

| member | source | states |
|---|---|---|
| `Ord.ReversedCmp` | src/utils.rs:90-94 | a record ranked by a metric is `Less` exactly when its metric is larger, `Equal` exactly when the metrics are equal, `Greater` exactly when its metric is smaller |
| `Ord.Ordering.Reverse` | src/utils.rs:92 | `reverse` swaps `Less` and `Greater` and keeps `Equal` |
| `Ord.ReverseInvolutive` | src/utils.rs:92 | reversing an ordering twice gives it back |
| `Ord.ReversedCmpIsTotalOrder` | src/utils.rs:63-67 | the records' `cmp` is antisymmetric, transitive and reflexive, as `Ord` requires |
| `Ord.AscendingMeansNoInversion` | src/utils.rs:9-20 | ascending under `Ord` (no element `Greater` than a later one) is the same as a non-increasing metric |
| `Ord.GreatestExists` | src/utils.rs:113-115 | every non-empty heap has a greatest element under `Ord`, so `pop` on it always has something to return |
| `Records.FileInfo.Cmp` | src/utils.rs:90-94 | `FileInfo::cmp` is `Less` iff the size is larger, `Equal` iff `eq`, `Greater` iff the size is smaller |
| `Records.ProcessInfo.Cmp` | src/utils.rs:63-67 | `ProcessInfo::cmp` is `Less` iff the memory is larger, `Equal` iff `eq`, `Greater` iff the memory is smaller |
| `Records.FileInfoOrder` | src/utils.rs:84-100 | `a < b` iff `a.size > b.size`, and `a == b` iff the sizes are equal, whatever the paths; `eq` agrees with `cmp`; the order is `ReversedCmp` on `Size` |
| `Records.ProcessInfoOrder` | src/utils.rs:55-73 | the same on `memory`, with name, disk counters and status never deciding |
| `Quicksort.InitialHigh` | src/utils.rs:10-11 | `(len - 1) as isize` panics exactly on an empty slice with overflow checks on; otherwise it is `len - 1`, which is -1 on an empty slice |
| `Quicksort.EmptySlicePanics` | src/utils.rs:9-12 | the empty slice panics with overflow checks and gets `high == -1` without them; every non-empty slice gets `high == len - 1` |
| `Quicksort.Swap` | src/utils.rs:39 | `arr.swap(i, j)` exchanges two slots, changes nothing else, and keeps the elements |
| `Quicksort.ScanUp` | src/utils.rs:28-31 | the unguarded `i` scan stops at the pivot at the latest; the slots it passes have metric larger than the pivot's, and the one it stops at has metric at most the pivot's |
| `Quicksort.ScanDown` | src/utils.rs:32-35 | the `j` scan, guarded only by `j >= 0`, stays in `[-1, start]`; the slots it passes have metric smaller than the pivot's, and the one it stops at has metric at least the pivot's |
| `Quicksort.PartitionLoop` | src/utils.rs:27-41 | the scan-and-swap loop ends with `lo <= i <= hi` and the pivot slot untouched; everything left of `i` has metric at least the pivot's and everything from `i` up to the pivot at most; nothing outside the sub-range changes; only swaps happen |
| `Quicksort.Partition` | src/utils.rs:22-44 | `partition` returns `p` in `[low, high]`; `arr[low..p]` are `<= arr[p]` under `Ord` and `arr[p+1..=high]` are `>= arr[p]`; slots outside `[low, high]` are unchanged; it is a permutation |
| `Quicksort.QuicksortRange` | src/utils.rs:14-20 | `_quicksort(arr, low, high)` leaves `arr[low..=high]` ascending under `Ord`, changes nothing outside it, and permutes |
| `Quicksort.SortedAroundPivot` | src/utils.rs:16-18 | sorting both sides of a partition in place sorts the whole sub-range |
| `Quicksort.Quicksort` | src/utils.rs:9-12 | `quicksort` as written: it panics iff the slice is empty and overflow checks are on; otherwise the slice ends ascending (non-increasing metric) and is a permutation of the input |
| `Quicksort.Sort` | src/utils.rs:9-12 | `quicksort` as intended: every slice, empty included, ends ascending and is a permutation of the input |
| `Heap.BinaryHeap.constructor` | src/utils.rs:103 | `BinaryHeap::new()` is empty |
| `Heap.BinaryHeap.Push` | src/utils.rs:108-111 | `push` adds exactly one occurrence of the record |
| `Heap.BinaryHeap.Pop` | src/utils.rs:113-115 | `pop` returns `None` on an empty heap and changes nothing; otherwise it removes and returns one greatest element under `Ord`, that is, one with the smallest metric |
| `Heap.BinaryHeap.IntoVec` | src/utils.rs:119 | `into_vec` returns a new vector holding exactly the heap's records |
| `TopK.TopKOfNothing` | src/utils.rs:103 | an empty collector is a top-`k` of nothing seen |
| `TopK.TopKBoundaries` | src/utils.rs:113-115 | with `n == 0` nothing is kept; once `n` reaches the number of files, every file is kept |
| `TopK.PushKeepsTopK` | src/utils.rs:108-111 | a push onto a heap holding fewer than `n` keeps it a top-`n` of everything seen |
| `TopK.PushPopKeepsTopK` | src/utils.rs:108-115 | a push and then a `pop` of a greatest element, on a heap holding `n`, keeps it a top-`n` of everything seen |
| `TopK.SortedPrefixIsTopK` | src/utils.rs:223-225 | truncating an ascending vector to `n` keeps a top-`n` of all its records |
| `TopK.TopKUniqueUpToTies` | src/utils.rs:113-115 | two top-`n` selections from the same records differ only in records of equal metric, equally many on each side |
| `Metrics.SortedTopKKeysUnique` | src/utils.rs:119-120 | any two sorted top-`n` results from the same records report the same metrics in the same order; so the bounded collector and collect-sort-truncate agree, ties aside |
| `Metrics.SortedKeysUnique` | src/utils.rs:9-20 | sorting is idempotent on metrics: two ascending arrangements of the same records have the same metric sequence |
| `Utils.RegularFilesMembers` | src/utils.rs:105-107 | a record is among the ranked files iff some walk item is a regular file with that path and a readable size; walk errors and non-files contribute nothing |
| `Utils.FirstMetadataErrorIsFirst` | src/utils.rs:105-107 | the call's error is `None` iff no regular file's metadata fails; otherwise it is the error of the first regular file whose metadata fails |
| `Utils.Offer` | src/utils.rs:108-115 | one file through the collector: afterwards the heap holds at most `n` records and is a top-`n` of everything seen |
| `Utils.Visit` | src/utils.rs:106-116 | one walk item: a failing regular file yields its error; otherwise no error, and the heap is a top-`n` of everything seen plus this item's file, if it has one |
| `Utils.CollectLargest` | src/utils.rs:103-117 | the walk loop stops with the first metadata error, if there is one; otherwise the heap is a top-`n` of all regular files |
| `Utils.FindLargestFiles` | src/utils.rs:102-124 | `Err` iff some regular file's metadata fails, carrying the first such error; otherwise `min(n, number of files)` regular files, a top-`n` by size, largest first |
| `Utils.FindLargestFilesAsWritten` | src/utils.rs:102-124 | with overflow checks the call panics exactly when no metadata error comes first and `n == 0` or the walk has no readable regular file (the empty vector reaching `quicksort`); without a panic, the same result as `Utils.FindLargestFiles` |
| `Utils.Processes` | src/utils.rs:210-225 | `min(n, count)` records with non-increasing memory, a top-`n` by memory, and a prefix of a sorted arrangement of all processes |
| `Utils.ProcessesAsWritten` | src/utils.rs:210-225 | with overflow checks the call panics exactly when the process table is empty (the empty vector reaching `quicksort`); without a panic, `min(n, count)` records with non-increasing memory, a top-`n` by memory |
| `Scenarios.TopThreeOfFive` | src/utils.rs:113-120 | files of sizes 10, 3, 7, 1 and 9 with `n == 3` give sizes `[10, 9, 7]` in that order |
| `Scenarios.TopTwoWithTies` | src/utils.rs:223-225 | memories 5, 5 and 3 with `n == 2` give memories `[5, 5]`, whichever tied process comes first |
| `Scenarios.OneUnreadableFileFailsTheCall` | src/utils.rs:107 | in a walk of five files, one unreadable file makes the call fail with that file's error; a walk error and a directory are skipped |

## Left out

- `digest` and `network` (src/utils.rs:126-205): `sysinfo` queries, `f64` conversions and coloured printing. No ranking happens there.
- The printing half of `processes` (src/utils.rs:227-236): float division and colour formatting.
- `WalkDir`, `entry.file_type()` and `entry.metadata()`: filesystem calls. Their outcomes are input data (`WalkItem`).
- `System::new_all()` and `refresh_all()`: the process table is an input sequence.
- `target/package/sysquery-0.8.0/src/main.rs` is not part of this model. It holds argument parsing and output.
- Utils.FindLargestFiles: sorts with the corrected `Quicksort.Sort`, so it models a build without overflow checks. There an empty vector is left alone and the call returns `Ok([])` for `n == 0` or a walk with no readable regular file. With overflow checks the source panics on that input instead; `Utils.FindLargestFilesAsWritten` models that build.
- Heap.BinaryHeap.IntoVec: returns the records in an order the model leaves open. The real order depends on the library heap's internal layout, which is not modelled.
- Heap.BinaryHeap.Pop: among several greatest elements, which one is removed is left open, for the same reason.
- Utils.Processes: sorts with the corrected `Quicksort.Sort`, so it models a build without overflow checks, where an empty process table gives `[]`; with overflow checks the source panics on that input instead, and `Utils.ProcessesAsWritten` models that build. It also says nothing about which of several equal-memory processes survive the truncation, or in what order. That depends on the heap layout.
- Running time, and the recursion depth of the last-element pivot: these are performance properties, not functional ones.
- Indices are `isize` in the source and `int` here. A slice of the program's records never holds more than `isize::MAX` elements, so no index arithmetic in `_quicksort` or `partition` can overflow. `Quicksort.InitialHigh` models the one `usize` subtraction that can.
- A failing `metadata()` aborts the whole call: the code propagates the error with `?` (src/utils.rs:107), and the model does the same (`Utils.FindLargestFiles`, `Scenarios.OneUnreadableFileFailsTheCall`).
- The sort is idempotent on metrics only, not on records. `_quicksort` swaps two distinct records of equal metric (`[a(5), b(5)]` becomes `[b(5), a(5)]`). Only Rust's size-only `==` makes that "unchanged".

## Findings

| source | as written | input that shows it | evidently intended | confidence | as-written member | corrected member |
|---|---|---|---|---|---|---|
| src/utils.rs:10-11 | `quicksort` computes `(len - 1) as isize` on `usize`, which underflows for an empty slice: a panic in a build with overflow checks | an empty vector. `find_largest_files` with `n == 0` always produces one (each push is popped again), and so does a tree with no regular files. See `Quicksort.EmptySlicePanics`, and `Utils.FindLargestFilesAsWritten` for the whole call. `processes` with an empty process table reaches it too (`Utils.ProcessesAsWritten`) | an empty slice is already sorted and is left alone | not executed | Quicksort.Quicksort | Quicksort.Sort |
