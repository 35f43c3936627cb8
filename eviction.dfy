/** The eviction sweep shared by both caches: walk the candidates in order (least recently used
    first), stop as soon as enough bytes are freed, and remove each candidate that can be removed,
    counting its size. A candidate that cannot be removed is skipped without counting. */
module Eviction {

  /** Bytes freed after considering the first `n` candidates, when `need` bytes must go. */
  function Freed<T>(items: seq<T>, n: nat, need: int, removable: T -> bool, size: T -> nat): nat
    requires n <= |items|
  {
    if n == 0 then 0
    else
      var before := Freed(items, n - 1, need, removable, size);
      if before < need && removable(items[n - 1]) then before + size(items[n - 1]) else before
  }

  /** Candidate `j` is removed: the sweep had not yet freed enough when it reached it, and the
      removal succeeded. */
  predicate Evicted<T>(items: seq<T>, j: nat, need: int, removable: T -> bool, size: T -> nat)
    requires j < |items|
  {
    Freed(items, j, need, removable, size) < need && removable(items[j])
  }

  lemma {:induction false} FreedMonotone<T>(items: seq<T>, m: nat, n: nat, need: int,
                                              removable: T -> bool, size: T -> nat)
    requires m <= n <= |items|
    ensures Freed(items, m, need, removable, size) <= Freed(items, n, need, removable, size)
  {
    if m < n {
      FreedMonotone(items, m, n - 1, need, removable, size);
    }
  }

  /** Once enough is freed nothing more is removed. */
  lemma {:induction false} FreedStops<T>(items: seq<T>, m: nat, n: nat, need: int,
                                           removable: T -> bool, size: T -> nat)
    requires m <= n <= |items|
    requires Freed(items, m, need, removable, size) >= need
    ensures Freed(items, n, need, removable, size) == Freed(items, m, need, removable, size)
    ensures forall j :: m <= j < n ==> !Evicted(items, j, need, removable, size)
  {
    if m < n {
      FreedStops(items, m, n - 1, need, removable, size);
    }
  }

  /** Removal follows the order: a removable candidate that was kept comes after every
      candidate that was removed. */
  lemma EvictedBeforeKept<T>(items: seq<T>, j: nat, k: nat, need: int,
                             removable: T -> bool, size: T -> nat)
    requires j < |items| && k < |items|
    requires Evicted(items, j, need, removable, size)
    requires removable(items[k]) && !Evicted(items, k, need, removable, size)
    ensures j < k
  {
    if k < j {
      FreedMonotone(items, k, j, need, removable, size);
    }
  }

  /** The sweep frees at least `need` bytes unless it removed every removable candidate. */
  lemma {:induction false} FreedEnoughOrAll<T>(items: seq<T>, n: nat, need: int,
                                                 removable: T -> bool, size: T -> nat)
    requires n <= |items|
    ensures Freed(items, n, need, removable, size) >= need
            || forall j :: 0 <= j < n && removable(items[j]) ==> Evicted(items, j, need, removable, size)
  {
    if n > 0 {
      FreedEnoughOrAll(items, n - 1, need, removable, size);
      if Freed(items, n - 1, need, removable, size) >= need {
        FreedStops(items, n - 1, n, need, removable, size);
      }
    }
  }

  /** The sweep never frees more than it needs by a whole candidate: everything it removed
      was needed when removed, so dropping the last removal leaves it short. */
  lemma LastEvictionNeeded<T>(items: seq<T>, j: nat, need: int, removable: T -> bool, size: T -> nat)
    requires j < |items| && Evicted(items, j, need, removable, size)
    ensures Freed(items, j + 1, need, removable, size) - size(items[j]) < need
  {
  }

  /** The positions of the candidates removed among the first `n`, in increasing order. */
  function EvictedIndices<T>(items: seq<T>, n: nat, need: int, removable: T -> bool, size: T -> nat): (r: seq<nat>)
    requires n <= |items|
    ensures forall k :: 0 <= k < |r| ==> r[k] < n
  {
    if n == 0 then []
    else
      var before := EvictedIndices(items, n - 1, need, removable, size);
      if Evicted(items, n - 1, need, removable, size) then before + [n - 1] else before
  }

  /** Every listed position is a removed candidate... */
  lemma {:induction false} EvictedIndicesEvicted<T>(items: seq<T>, n: nat, need: int, removable: T -> bool, size: T -> nat)
    requires n <= |items|
    ensures forall k :: 0 <= k < |EvictedIndices(items, n, need, removable, size)|
              ==> Evicted(items, EvictedIndices(items, n, need, removable, size)[k], need, removable, size)
  {
    if n > 0 {
      EvictedIndicesEvicted(items, n - 1, need, removable, size);
      var before := EvictedIndices(items, n - 1, need, removable, size);
      var r := EvictedIndices(items, n, need, removable, size);
      if Evicted(items, n - 1, need, removable, size) {
        assert r == before + [n - 1];
        assert forall k :: 0 <= k < |before| ==> r[k] == before[k];
      } else {
        assert r == before;
      }
    }
  }

  /** ... every removed candidate is listed... */
  lemma {:induction false} EvictedIndicesComplete<T>(items: seq<T>, n: nat, need: int, removable: T -> bool, size: T -> nat)
    requires n <= |items|
    ensures forall j :: 0 <= j < n && Evicted(items, j, need, removable, size)
              ==> j in EvictedIndices(items, n, need, removable, size)
  {
    if n > 0 {
      EvictedIndicesComplete(items, n - 1, need, removable, size);
    }
  }

  /** ... and once, in increasing order. */
  lemma {:induction false} EvictedIndicesIncreasing<T>(items: seq<T>, n: nat, need: int, removable: T -> bool, size: T -> nat)
    requires n <= |items|
    ensures forall k, l :: 0 <= k < l < |EvictedIndices(items, n, need, removable, size)|
              ==> EvictedIndices(items, n, need, removable, size)[k] < EvictedIndices(items, n, need, removable, size)[l]
  {
    if n > 0 {
      EvictedIndicesIncreasing(items, n - 1, need, removable, size);
      var before := EvictedIndices(items, n - 1, need, removable, size);
      var r := EvictedIndices(items, n, need, removable, size);
      if Evicted(items, n - 1, need, removable, size) {
        assert r == before + [n - 1];
        assert forall k :: 0 <= k < |before| ==> r[k] == before[k];
      } else {
        assert r == before;
      }
    }
  }

  /** The sizes of the candidates at `indices`, added up. */
  function SizeAt<T>(items: seq<T>, indices: seq<nat>, size: T -> nat): nat
    requires forall k :: 0 <= k < |indices| ==> indices[k] < |items|
  {
    if indices == [] then 0
    else SizeAt(items, indices[..|indices| - 1], size) + size(items[indices[|indices| - 1]])
  }

  /** The running count of freed bytes is the total size of the removed candidates. */
  lemma {:induction false} FreedIsEvictedSize<T>(items: seq<T>, n: nat, need: int,
                                                   removable: T -> bool, size: T -> nat)
    requires n <= |items|
    ensures Freed(items, n, need, removable, size)
            == SizeAt(items, EvictedIndices(items, n, need, removable, size), size)
  {
    if n > 0 {
      FreedIsEvictedSize(items, n - 1, need, removable, size);
      var before := EvictedIndices(items, n - 1, need, removable, size);
      if Evicted(items, n - 1, need, removable, size) {
        assert (before + [n - 1])[..|before|] == before;
      }
    }
  }

  /** Nothing needs freeing: nothing is removed. */
  lemma NothingNeeded<T>(items: seq<T>, need: int, removable: T -> bool, size: T -> nat)
    requires need <= 0
    ensures forall j :: 0 <= j < |items| ==> !Evicted(items, j, need, removable, size)
  {
    FreedStops(items, 0, |items|, need, removable, size);
  }
}
