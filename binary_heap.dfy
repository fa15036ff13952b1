/**
 * The part of `std::collections::BinaryHeap` the program uses, specified by
 * what it holds rather than how: a max-heap under the element type's `Ord`.
 * With the reversed order of the ranked records, its "maximum" is the record
 * with the SMALLEST metric. How the heap arranges its elements, and so the
 * order in which `into_vec` hands them back, is not modelled.
 */
module Heap {
  import opened Results
  import opened Ord

  class BinaryHeap<T(==)> {
    /** The element type's `Ord` is `ReversedCmp(key, ·, ·)`. */
    const key: T -> u64
    /** The elements the heap holds. */
    var elems: multiset<T>

    /** `BinaryHeap::new()`. */
    constructor (key: T -> u64)
      ensures this.key == key
      ensures elems == multiset{}
    {
      this.key := key;
      elems := multiset{};
    }

    /** `heap.len()`. */
    function Len(): nat
      reads this
    {
      |elems|
    }

    /** `heap.push(x)`. */
    method Push(x: T)
      modifies this
      ensures elems == old(elems) + multiset{x}
    {
      elems := elems + multiset{x};
    }

    /**
     * `heap.pop()`: `None` on an empty heap; otherwise removes and returns a
     * greatest element under `Ord` (one with the smallest metric), which one
     * among equals being up to the heap.
     */
    method Pop() returns (r: Option<T>)
      modifies this
      ensures old(elems) == multiset{} ==> r == None && elems == old(elems)
      ensures old(elems) != multiset{} ==>
                && r.Some?
                && IsGreatest(key, r.value, old(elems))
                && elems == old(elems) - multiset{r.value}
    {
      if elems == multiset{} {
        r := None;
      } else {
        GreatestExists(key, elems);
        var x :| IsGreatest(key, x, elems);
        elems := elems - multiset{x};
        r := Some(x);
      }
    }

    /** `heap.into_vec()`: every element, in an order the model leaves open. */
    method IntoVec() returns (v: array<T>)
      ensures fresh(v)
      ensures multiset(v[..]) == elems
    {
      var rest := elems;
      var s: seq<T> := [];
      while rest != multiset{}
        invariant multiset(s) + rest == elems
        decreases |rest|
      {
        var x :| x in rest;
        s := s + [x];
        rest := rest - multiset{x};
      }
      v := new T[|s|](k requires 0 <= k < |s| => s[k]);
      assert v[..] == s;
    }
  }
}
