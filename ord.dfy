/** Option and Result, the two failure-carrying types the program uses. */
module Results {
  datatype Option<T> = None | Some(value: T)

  datatype Result<T, E> = Ok(value: T) | Err(error: E)
}

/**
 * Rust's `u64` and `std::cmp::Ordering`, and the one ordering the program
 * gives its records: the natural order of a `u64` metric, reversed.
 */
module Ord {
  newtype u8 = x: int | 0 <= x < 0x100

  newtype u64 = x: int | 0 <= x < 0x1_0000_0000_0000_0000

  datatype Ordering = Less | Equal | Greater {
    /** `Ordering::reverse`: swaps `Less` and `Greater`, keeps `Equal`. */
    function Reverse(): (r: Ordering)
      ensures r == Equal <==> this == Equal
      ensures r == Less <==> this == Greater
    {
      match this
      case Less => Greater
      case Equal => Equal
      case Greater => Less
    }
  }

  /** `Ord::cmp` on `u64`. */
  function CmpU64(x: u64, y: u64): Ordering {
    if x < y then Less else if x == y then Equal else Greater
  }

  /**
   * `key(x).cmp(&key(y)).reverse()`: the `Ord` of a record ranked by the
   * metric `key`. A record with a LARGER metric is the SMALLER one.
   */
  function ReversedCmp<T>(key: T -> u64, x: T, y: T): (r: Ordering)
    ensures r == Less <==> key(x) > key(y)
    ensures r == Equal <==> key(x) == key(y)
    ensures r == Greater <==> key(x) < key(y)
  {
    CmpU64(key(x), key(y)).Reverse()
  }

  /** Reversing twice gives back the original ordering. */
  lemma ReverseInvolutive(o: Ordering)
    ensures o.Reverse().Reverse() == o
  {
  }

  /** `ReversedCmp` is a total order on the metric: antisymmetric, transitive, reflexive. */
  lemma ReversedCmpIsTotalOrder<T>(key: T -> u64, x: T, y: T, z: T)
    ensures ReversedCmp(key, x, y) == ReversedCmp(key, y, x).Reverse()
    ensures ReversedCmp(key, x, y) != Greater && ReversedCmp(key, y, z) != Greater
            ==> ReversedCmp(key, x, z) != Greater
    ensures ReversedCmp(key, x, x) == Equal
  {
    ReverseInvolutive(CmpU64(key(y), key(x)));
  }

  /**
   * `s` is ascending under the reversed order: no element is `Greater` than
   * one to its right, that is, the metric never increases left to right.
   */
  ghost predicate Ascending<T>(key: T -> u64, s: seq<T>) {
    forall i, j :: 0 <= i < j < |s| ==> key(s[i]) >= key(s[j])
  }

  /** It is enough for each element to be no smaller in metric than the next. */
  lemma {:induction false} AdjacentOrderSuffices<T>(key: T -> u64, s: seq<T>)
    requires forall i :: 0 <= i < |s| - 1 ==> key(s[i]) >= key(s[i + 1])
    ensures Ascending(key, s)
    decreases |s|
  {
    if |s| > 1 {
      var tail := s[1..];
      AdjacentOrderSuffices(key, tail);
      forall i, j | 0 <= i < j < |s| ensures key(s[i]) >= key(s[j]) {
        if 0 < i {
          assert s[i] == tail[i - 1] && s[j] == tail[j - 1];
        } else if 1 < j {
          assert s[1] == tail[0] && s[j] == tail[j - 1];
        }
      }
    }
  }

  /** Ascending, as stated through the comparison itself. */
  lemma AscendingMeansNoInversion<T>(key: T -> u64, s: seq<T>)
    ensures Ascending(key, s) <==>
            forall i, j :: 0 <= i < j < |s| ==> ReversedCmp(key, s[i], s[j]) != Greater
  {
  }

  /**
   * `x` is a greatest element of `m` under the reversed order: no element of
   * `m` compares `Greater` than `x`, so `x` has the smallest metric in `m`.
   */
  predicate IsGreatest<T(==)>(key: T -> u64, x: T, m: multiset<T>) {
    x in m && forall y :: y in m ==> ReversedCmp(key, y, x) != Greater
  }

  /** A non-empty multiset has a greatest element (what `BinaryHeap::pop` relies on). */
  lemma {:induction false} GreatestExists<T>(key: T -> u64, m: multiset<T>)
    requires m != multiset{}
    ensures exists x :: IsGreatest(key, x, m)
    decreases |m|
  {
    var y :| y in m;
    var rest := m - multiset{y};
    if rest == multiset{} {
      assert m == multiset{y};
      assert IsGreatest(key, y, m);
    } else {
      GreatestExists(key, rest);
      var x :| IsGreatest(key, x, rest);
      forall z | z in m ensures z == y || z in rest {
        if z != y { assert rest[z] == m[z]; }
      }
      if key(y) < key(x) {
        assert IsGreatest(key, y, m);
      } else {
        assert IsGreatest(key, x, m);
      }
    }
  }
}
