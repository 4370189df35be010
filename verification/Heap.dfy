/** The indexed heap of common/heap.go with the algorithms of Go's container/heap that drive it. */
module Heap {

  /**
    The order behind a Less function, strict or not: `a` may stand above `b`. For a strict Less this is
    "not b before a", for a non-strict one it is Less itself.
   */
  predicate Le<T(!new)>(less: (T, T) -> bool, a: T, b: T) {
    less(a, b) || !less(b, a)
  }

  ghost predicate Transitive<T(!new)>(less: (T, T) -> bool) {
    forall a, b, c {:trigger Via(a, b, c)} :: Via(a, b, c) && Le(less, a, b) && Le(less, b, c) ==> Le(less, a, c)
  }

  /** Always true: names the three items for which transitivity is used. */
  predicate Via<T>(a: T, b: T, c: T) {
    true
  }

  lemma Through<T(!new)>(less: (T, T) -> bool, a: T, b: T, c: T)
    requires Transitive(less) && Le(less, a, b) && Le(less, b, c)
    ensures Le(less, a, c)
  {
    assert Via(a, b, c);
  }

  function Parent(i: nat): (p: nat)
    requires i > 0
    ensures p < i
  {
    (i - 1) / 2
  }

  /** Every one of the first `n` items stands below its parent. */
  ghost predicate Heaped<T(!new)>(less: (T, T) -> bool, data: seq<T>, n: nat)
    requires n <= |data|
  {
    forall i {:trigger Parent(i)} :: 0 < i < n ==> Le(less, data[Parent(i)], data[i])
  }

  /** The first `n` items are in order but for the one at `k`, whose parent stands above its children. */
  ghost predicate HeapedBut<T(!new)>(less: (T, T) -> bool, data: seq<T>, n: nat, k: nat)
    requires n <= |data|
  {
    && (forall i {:trigger Parent(i)} :: 0 < i < n && i != k && Parent(i) != k ==> Le(less, data[Parent(i)], data[i]))
    && (forall i {:trigger Parent(i)} :: 0 < i < n && Parent(i) == k && k > 0 ==> Le(less, data[Parent(k)], data[i]))
  }

  /** In order except that the item at `k` may belong further up. */
  ghost predicate HeapedUp<T(!new)>(less: (T, T) -> bool, data: seq<T>, n: nat, k: nat)
    requires n <= |data|
  {
    && (forall i {:trigger Parent(i)} :: 0 < i < n && i != k ==> Le(less, data[Parent(i)], data[i]))
    && (forall i {:trigger Parent(i)} :: 0 < i < n && Parent(i) == k && k > 0 ==> Le(less, data[Parent(k)], data[i]))
  }

  /** In order except that the item at `k` may belong further down. */
  ghost predicate HeapedDown<T(!new)>(less: (T, T) -> bool, data: seq<T>, n: nat, k: nat)
    requires n <= |data|
  {
    && (forall i {:trigger Parent(i)} :: 0 < i < n && Parent(i) != k ==> Le(less, data[Parent(i)], data[i]))
    && (forall i {:trigger Parent(i)} :: 0 < i < n && Parent(i) == k && k > 0 ==> Le(less, data[Parent(k)], data[i]))
  }

  /** The root stands above every item. */
  lemma {:induction false} RootFirst<T(!new)>(less: (T, T) -> bool, data: seq<T>, i: nat)
    requires Heaped(less, data, |data|) && Transitive(less) && i < |data|
    ensures Le(less, data[0], data[i])
    decreases i
  {
    if i > 0 {
      RootFirst(less, data, Parent(i));
      Through(less, data[0], data[Parent(i)], data[i]);
    }
  }

  /** The items that a change of one item's rank leaves in order. */
  lemma Reranked<T(!new)>(less: (T, T) -> bool, less': (T, T) -> bool, data: seq<T>, k: nat)
    requires k < |data| && Heaped(less, data, |data|) && Transitive(less)
    requires forall i, j :: 0 <= i < |data| && 0 <= j < |data| && i != k && j != k ==>
      less'(data[i], data[j]) == less(data[i], data[j])
    ensures HeapedBut(less', data, |data|, k)
  {
    forall i | 0 < i < |data| && Parent(i) == k && k > 0 ensures Le(less', data[Parent(k)], data[i]) {
      Through(less, data[Parent(k)], data[k], data[i]);
    }
  }

  function Swapped<T>(data: seq<T>, i: nat, j: nat): seq<T>
    requires i < |data| && j < |data|
  {
    data[i := data[j]][j := data[i]]
  }

  /** `j` is a child of `i` among the first `n` items that stands above the other child. */
  ghost predicate BestChild<T(!new)>(less: (T, T) -> bool, data: seq<T>, n: nat, i: nat, j: nat)
    requires n <= |data|
  {
    0 < j < n && Parent(j) == i && forall k {:trigger Parent(k)} :: 0 < k < n && Parent(k) == i ==>
      Le(less, data[j], data[k])
  }

  lemma PickChild<T(!new)>(less: (T, T) -> bool, data: seq<T>, n: nat, i: nat, j: nat)
    requires n <= |data| && 2 * i + 1 < n
    requires j == if 2 * i + 2 < n && less(data[2 * i + 2], data[2 * i + 1]) then 2 * i + 2 else 2 * i + 1
    ensures BestChild(less, data, n, i, j)
  {
    assert forall k {:trigger Parent(k)} :: 0 < k < n && Parent(k) == i ==> k == 2 * i + 1 || k == 2 * i + 2;
  }

  /** Moving an item below its best child. */
  lemma DownStep<T(!new)>(less: (T, T) -> bool, data: seq<T>, n: nat, i: nat, j: nat)
    requires n <= |data| && i < n && BestChild(less, data, n, i, j) && less(data[j], data[i])
    requires HeapedBut(less, data, n, i)
    ensures HeapedDown(less, Swapped(data, i, j), n, j)
  {
    var data' := Swapped(data, i, j);
    forall k | 0 < k < n && Parent(k) != j ensures Le(less, data'[Parent(k)], data'[k]) {
      assert k != i && Parent(k) != i ==> Le(less, data[Parent(k)], data[k]);
    }
    assert forall k {:trigger Parent(k)} :: 0 < k < n && Parent(k) == j ==> Le(less, data[j], data[k]);
  }

  /** An item that stands above its children is in place, but for its parent. */
  lemma DownStop<T(!new)>(less: (T, T) -> bool, data: seq<T>, n: nat, i: nat)
    requires n <= |data| && Transitive(less)
    requires 2 * i + 1 < n ==> exists j: nat :: BestChild(less, data, n, i, j) && !less(data[j], data[i])
    ensures HeapedBut(less, data, n, i) ==> HeapedUp(less, data, n, i)
    ensures HeapedDown(less, data, n, i) ==> Heaped(less, data, n)
  {
    if 2 * i + 1 < n {
      var j: nat :| BestChild(less, data, n, i, j) && !less(data[j], data[i]);
      forall k | 0 < k < n && Parent(k) == i ensures Le(less, data[i], data[k]) {
        Through(less, data[i], data[j], data[k]);
      }
    }
  }

  /** Moving an item `p` off its place above `x`, which belongs above it. */
  lemma UpStep<T(!new)>(less: (T, T) -> bool, data: seq<T>, n: nat, j: nat)
    requires n <= |data| && 0 < j < n && Transitive(less) && less(data[j], data[Parent(j)])
    requires HeapedUp(less, data, n, j)
    ensures HeapedUp(less, Swapped(data, Parent(j), j), n, Parent(j))
  {
    var i := Parent(j);
    var data' := Swapped(data, i, j);
    forall k | 0 < k < n && k != i ensures Le(less, data'[Parent(k)], data'[k]) {
      if Parent(k) == i && k != j {
        Through(less, data[j], data[i], data[k]);
      }
    }
    forall k | 0 < k < n && Parent(k) == i && i > 0 ensures Le(less, data'[Parent(i)], data'[k]) {
      if k != j {
        Through(less, data[Parent(i)], data[i], data[k]);
      }
    }
  }

  /** The last item takes the place of the one at `i`. */
  lemma SwapLast<T(!new)>(less: (T, T) -> bool, data: seq<T>, i: nat)
    requires i < |data| - 1 && HeapedBut(less, data, |data|, i)
    ensures HeapedBut(less, Swapped(data, i, |data| - 1), |data| - 1, i)
  {
  }

  /** The items from `n` on are the same. */
  ghost predicate SameTail<T>(data: seq<T>, data': seq<T>, n: nat) {
    |data| == |data'| && forall k :: n <= k < |data| ==> data[k] == data'[k]
  }

  lemma FrontHeaped<T(!new)>(less: (T, T) -> bool, data: seq<T>, n: nat)
    requires n <= |data| && Heaped(less, data, n)
    ensures Heaped(less, data[..n], n)
  {
  }

  class Heap<T(!new, ==)> {
    var data: seq<T>
    /** The heapIndex field of each item. */
    var index: map<T, nat>

    ghost predicate Indexed()
      reads this
    {
      && (forall i :: 0 <= i < |data| ==> data[i] in index && index[data[i]] == i)
      && (forall x :: x in index ==> index[x] < |data| && data[index[x]] == x)
    }

    constructor ()
      ensures Indexed() && data == [] && index == map[]
    {
      data, index := [], map[];
    }

    method Swap(i: nat, j: nat)
      requires Indexed() && i < |data| && j < |data|
      modifies this
      ensures Indexed() && index.Keys == old(index.Keys)
      ensures data == Swapped(old(data), i, j)
    {
      data := data[i := data[j]][j := data[i]];
      index := index[data[i] := i];
      index := index[data[j] := j];
    }

    /** container/heap up; only the first `n` items take part. */
    method Up(j0: nat, less: (T, T) -> bool, ghost n: nat)
      requires Indexed() && Transitive(less) && j0 < n <= |data|
      requires HeapedUp(less, data, n, j0)
      modifies this
      ensures Indexed() && index.Keys == old(index.Keys) && |data| == old(|data|) && SameTail(data, old(data), n)
      ensures Heaped(less, data, n)
    {
      var j: nat := j0;
      while j > 0
        invariant Indexed() && index.Keys == old(index.Keys) && |data| == old(|data|) && SameTail(data, old(data), n)
        invariant j < n && HeapedUp(less, data, n, j)
        decreases j
      {
        var i := Parent(j);
        if !less(data[j], data[i]) {
          break;
        }
        UpStep(less, data, n, j);
        Swap(i, j);
        j := i;
      }
    }

    /** The child of `i` that comes first. */
    method Smaller(i: nat, n: nat, less: (T, T) -> bool) returns (j: nat)
      requires n <= |data| && 2 * i + 1 < n
      ensures BestChild(less, data, n, i, j) && i < j < n
    {
      j := 2 * i + 1;
      if j + 1 < n && less(data[j + 1], data[j]) {
        j := j + 1;
      }
      PickChild(less, data, n, i, j);
    }

    /** An item changes places with its first child. */
    method SwapDown(i: nat, j: nat, n: nat, less: (T, T) -> bool)
      requires Indexed() && Transitive(less) && i < j < n <= |data| && BestChild(less, data, n, i, j)
      requires less(data[j], data[i])
      requires HeapedBut(less, data, n, i) || HeapedDown(less, data, n, i)
      modifies this
      ensures Indexed() && index.Keys == old(index.Keys) && |data| == old(|data|) && SameTail(data, old(data), n)
      ensures HeapedDown(less, data, n, j)
    {
      DownStep(less, data, n, i, j);
      Swap(i, j);
    }

    /** container/heap down on the first `n` items; tells whether the item moved. */
    method Down(i0: nat, n: nat, less: (T, T) -> bool) returns (moved: bool)
      requires Indexed() && Transitive(less) && i0 < n <= |data|
      requires HeapedBut(less, data, n, i0)
      modifies this
      ensures Indexed() && index.Keys == old(index.Keys) && |data| == old(|data|) && SameTail(data, old(data), n)
      ensures if moved then Heaped(less, data, n) else HeapedUp(less, data, n, i0)
    {
      var i: nat := i0;
      while true
        invariant Indexed() && index.Keys == old(index.Keys) && |data| == old(|data|) && SameTail(data, old(data), n)
        invariant i0 <= i < n && if i == i0 then HeapedBut(less, data, n, i) else HeapedDown(less, data, n, i)
        decreases n - i
      {
        var j1 := 2 * i + 1;
        if j1 >= n {
          break;
        }
        var j := Smaller(i, n, less);
        if !less(data[j], data[i]) {
          break;
        }
        SwapDown(i, j, n, less);
        i := j;
      }
      DownStop(less, data, n, i);
      moved := i > i0;
    }

    /** Down, and up when that did not move anything. */
    method Sift(i: nat, n: nat, less: (T, T) -> bool)
      requires Indexed() && Transitive(less) && i < n <= |data| && HeapedBut(less, data, n, i)
      modifies this
      ensures Indexed() && index.Keys == old(index.Keys) && |data| == old(|data|) && SameTail(data, old(data), n)
      ensures Heaped(less, data, n)
    {
      var moved := Down(i, n, less);
      if !moved {
        Up(i, less, n);
      }
    }

    /** container/heap Fix, after the rank of the item at `i` has changed. */
    method Fix(i: nat, less: (T, T) -> bool)
      requires Indexed() && Transitive(less) && i < |data|
      requires HeapedBut(less, data, |data|, i)
      modifies this
      ensures Indexed() && index.Keys == old(index.Keys)
      ensures Heaped(less, data, |data|)
    {
      Sift(i, |data|, less);
    }

    /** container/heap Push of an item that is not in the heap. */
    method Push(x: T, less: (T, T) -> bool)
      requires Indexed() && Transitive(less) && x !in index
      requires Heaped(less, data, |data|)
      modifies this
      ensures Indexed() && index.Keys == old(index.Keys) + {x}
      ensures Heaped(less, data, |data|)
    {
      index := index[x := |data|];
      data := data + [x];
      Up(|data| - 1, less, |data|);
    }

    /** Heap.Pop: take the last item off the slice. */
    method TakeLast() returns (x: T)
      requires Indexed() && data != []
      modifies this
      ensures Indexed() && data == old(data)[..|old(data)| - 1] && index.Keys == old(index.Keys) - {x}
      ensures x == old(data)[|old(data)| - 1]
    {
      x := data[|data| - 1];
      data := data[..|data| - 1];
      index := index - {x};
    }

    /** container/heap Remove: the other items stay in order whatever the rank of the removed one has become. */
    method Remove(i: nat, less: (T, T) -> bool) returns (x: T)
      requires Indexed() && Transitive(less) && i < |data|
      requires HeapedBut(less, data, |data|, i)
      modifies this
      ensures x == old(data)[i]
      ensures Indexed() && index.Keys == old(index.Keys) - {x}
      ensures Heaped(less, data, |data|)
    {
      var n := |data| - 1;
      if n != i {
        SwapLast(less, data, i);
        Swap(i, n);
        Sift(i, n, less);
      }
      FrontHeaped(less, data, n);
      x := TakeLast();
    }

    /** container/heap Pop. */
    method Pop(less: (T, T) -> bool) returns (x: T)
      requires Indexed() && Transitive(less) && data != []
      requires HeapedBut(less, data, |data|, 0)
      modifies this
      ensures x == old(data)[0]
      ensures Indexed() && index.Keys == old(index.Keys) - {x}
      ensures Heaped(less, data, |data|)
    {
      var n := |data| - 1;
      Swap(0, n);
      if n > 0 {
        var _ := Down(0, n, less);
      }
      x := TakeLast();
    }
  }
}
