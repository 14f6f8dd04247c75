/**
 Binary heaps in the first cells of an array (src/tqgraph.c:219-307 and src/tqhybrid.c:752-795): sift up
 and down in place, push, pop, and replace the root. The items are distinct because their node ids are.
 */
module BinaryHeap {
  import opened Orders

  // ---------------------------------------------------------------------------------------
  // Sifting
  // ---------------------------------------------------------------------------------------

  function Parent(i: nat): nat
    requires i > 0
  {
    (i - 1) / 2
  }

  ghost predicate InOrder<T>(s: seq<T>, before: (T, T) -> bool, i: nat)
    requires i < |s|
  {
    i > 0 ==> !before(s[i], s[Parent(i)])
  }

  ghost predicate IsHeap<T(!new)>(s: seq<T>, before: (T, T) -> bool) {
    forall i {:trigger InOrder(s, before, i)} | 0 <= i < |s| :: InOrder(s, before, i)
  }

  /** A heap but for the item at k, which may belong further up. */
  ghost predicate HeapButUp<T(!new)>(s: seq<T>, before: (T, T) -> bool, k: nat) {
    && (forall i {:trigger InOrder(s, before, i)} | 0 <= i < |s| && i != k :: InOrder(s, before, i))
    && (forall i {:trigger s[i]} | 0 < i < |s| && Parent(i) == k && 0 < k :: !before(s[i], s[Parent(k)]))
  }

  /** A heap but for the item at k, which may belong further down. */
  ghost predicate HeapButDown<T(!new)>(s: seq<T>, before: (T, T) -> bool, k: nat) {
    && (forall i {:trigger InOrder(s, before, i)} | 0 <= i < |s| && (i == 0 || Parent(i) != k) :: InOrder(s, before, i))
    && (forall i {:trigger s[i]} | 0 < i < |s| && Parent(i) == k && 0 < k :: !before(s[i], s[Parent(k)]))
  }

  lemma SwapUp<T(!new)>(s: seq<T>, before: (T, T) -> bool, k: nat)
    requires WeakOrder(before) && 0 < k < |s| && HeapButUp(s, before, k) && before(s[k], s[Parent(k)])
    ensures HeapButUp(Swapped(s, k, Parent(k)), before, Parent(k))
  {
    var p := Parent(k);
    var r := Swapped(s, k, p);
    assert InOrder(s, before, p);
    forall i | 0 <= i < |r| && i != p ensures InOrder(r, before, i) {
      assert InOrder(s, before, i) || i == k;
    }
    forall i | 0 < i < |r| && Parent(i) == p && 0 < p ensures !before(r[i], r[Parent(p)]) {
      assert InOrder(s, before, i) || i == k;
    }
  }

  lemma SwapDown<T(!new)>(s: seq<T>, before: (T, T) -> bool, k: nat, best: nat)
    requires WeakOrder(before) && 0 < best < |s| && Parent(best) == k && HeapButDown(s, before, k)
    requires forall i | 0 < i < |s| && Parent(i) == k :: !before(s[i], s[best])
    requires before(s[best], s[k])
    ensures HeapButDown(Swapped(s, k, best), before, best)
  {
    var r := Swapped(s, k, best);
    forall i | 0 <= i < |r| && (i == 0 || Parent(i) != best) ensures InOrder(r, before, i) {
      assert InOrder(s, before, i) || Parent(i) == k;
    }
    forall i | 0 < i < |r| && Parent(i) == best ensures !before(r[i], r[Parent(best)]) {
      assert InOrder(s, before, i);
    }
  }

  method SiftUp<T(!new)>(heap: array<T>, count: nat, start: nat, before: (T, T) -> bool)
    requires WeakOrder(before) && start < count <= heap.Length && HeapButUp(heap[..count], before, start)
    modifies heap
    ensures IsHeap(heap[..count], before) && multiset(heap[..count]) == old(multiset(heap[..count]))
  {
    var idx := start;
    while idx > 0
      invariant 0 <= idx < count && HeapButUp(heap[..count], before, idx)
      invariant multiset(heap[..count]) == old(multiset(heap[..count]))
    {
      var parent := (idx - 1) / 2;
      if !before(heap[idx], heap[parent]) { break; }
      ghost var s := heap[..count];
      SwapUp(s, before, idx);
      SwappedKeepsItems(s, idx, parent);
      heap[idx], heap[parent] := heap[parent], heap[idx];
      assert heap[..count] == Swapped(s, idx, parent);
      idx := parent;
    }
    assert InOrder(heap[..count], before, idx);
  }

  /** The child of idx that must come above it, or idx itself. */
  method BestOf<T(!new)>(heap: array<T>, count: nat, idx: nat, before: (T, T) -> bool) returns (best: nat)
    requires WeakOrder(before) && idx < count <= heap.Length && HeapButDown(heap[..count], before, idx)
    ensures best < count &&
            (forall i | 0 < i < count && Parent(i) == idx :: !before(heap[..count][i], heap[..count][best]))
    ensures if best == idx then IsHeap(heap[..count], before)
            else best > 0 && Parent(best) == idx && before(heap[..count][best], heap[..count][idx])
  {
    var left := idx * 2 + 1;
    var right := left + 1;
    best := idx;
    if left < count && before(heap[left], heap[best]) { best := left; }
    if right < count && before(heap[right], heap[best]) { best := right; }
    BestChild(heap[..count], before, idx, best);
  }

  method SiftDown<T(!new)>(heap: array<T>, count: nat, start: nat, before: (T, T) -> bool)
    requires WeakOrder(before) && start < count <= heap.Length && HeapButDown(heap[..count], before, start)
    modifies heap
    ensures IsHeap(heap[..count], before) && multiset(heap[..count]) == old(multiset(heap[..count]))
  {
    var idx := start;
    while true
      invariant 0 <= idx < count && HeapButDown(heap[..count], before, idx)
      invariant multiset(heap[..count]) == old(multiset(heap[..count]))
      decreases count - idx
    {
      var best := BestOf(heap, count, idx, before);
      if best == idx { break; }
      ghost var s := heap[..count];
      SwapDown(s, before, idx, best);
      SwappedKeepsItems(s, idx, best);
      heap[idx], heap[best] := heap[best], heap[idx];
      assert heap[..count] == Swapped(s, idx, best);
      idx := best;
    }
  }

  lemma BestChild<T(!new)>(s: seq<T>, before: (T, T) -> bool, k: nat, best: nat)
    requires WeakOrder(before) && k < |s| && HeapButDown(s, before, k)
    requires best == k || best == 2 * k + 1 || best == 2 * k + 2
    requires best < |s| && (best != k ==> before(s[best], s[k]))
    requires 2 * k + 1 < |s| ==> !before(s[2 * k + 1], s[best])
    requires 2 * k + 2 < |s| ==> !before(s[2 * k + 2], s[best])
    ensures forall i | 0 < i < |s| && Parent(i) == k :: !before(s[i], s[best])
    ensures best == k ==> IsHeap(s, before)
    ensures best != k ==> Parent(best) == k
  {
    forall i | 0 < i < |s| && Parent(i) == k ensures !before(s[i], s[best]) {
      assert i == 2 * k + 1 || i == 2 * k + 2;
    }
  }

  /** The root comes before everything else. */
  lemma {:induction false} RootIsFirst<T(!new)>(s: seq<T>, before: (T, T) -> bool, i: nat)
    requires WeakOrder(before) && i < |s| && IsHeap(s, before)
    ensures !before(s[i], s[0])
    decreases i
  {
    if i > 0 {
      assert InOrder(s, before, i);
      RootIsFirst(s, before, Parent(i));
    }
  }

  // ---------------------------------------------------------------------------------------
  // Heaps of distinct items
  // ---------------------------------------------------------------------------------------

  /** The cells s are a heap with exactly the given items, each once. */
  ghost predicate HeapOf<T(!new)>(s: seq<T>, items: set<T>, before: (T, T) -> bool) {
    IsHeap(s, before) && multiset(s) == multiset(items)
  }

  ghost predicate IsFirst<T(!new)>(item: T, items: set<T>, before: (T, T) -> bool) {
    item in items && forall x | x in items :: !before(x, item)
  }

  lemma RootOf<T(!new)>(s: seq<T>, items: set<T>, before: (T, T) -> bool)
    requires WeakOrder(before) && HeapOf(s, items, before)
    ensures |s| == |items|
    ensures s != [] ==> IsFirst(s[0], items, before)
  {
    assert |multiset(s)| == |s|;
    if s != [] {
      assert s[0] in multiset(s);
      forall x | x in items ensures !before(x, s[0]) {
        assert x in multiset(s);
        var i :| 0 <= i < |s| && s[i] == x;
        RootIsFirst(s, before, i);
      }
    }
  }

  method HeapPush<T(!new)>(heap: array<T>, count: nat, item: T, before: (T, T) -> bool, ghost items: set<T>)
    returns (count': nat)
    requires WeakOrder(before) && count < heap.Length && HeapOf(heap[..count], items, before) && item !in items
    modifies heap
    ensures count' == count + 1 && HeapOf(heap[..count'], items + {item}, before)
  {
    ghost var s := heap[..count];
    heap[count] := item;
    count' := count + 1;
    assert heap[..count'] == s + [item];
    Extended(s, before, item);
    SiftUp(heap, count', count' - 1, before);
    assert multiset(items + {item}) == multiset(items) + multiset{item};
  }

  lemma Extended<T(!new)>(s: seq<T>, before: (T, T) -> bool, item: T)
    requires IsHeap(s, before)
    ensures HeapButUp(s + [item], before, |s|)
  {
    forall i | 0 <= i < |s| ensures InOrder(s + [item], before, i) {
      assert InOrder(s, before, i);
    }
    assert forall i: nat | 0 < i :: Parent(i) < i;
  }

  lemma RootReplaced<T(!new)>(s: seq<T>, before: (T, T) -> bool, item: T, n: nat)
    requires IsHeap(s, before) && 0 < n <= |s|
    ensures HeapButDown(s[0 := item][..n], before, 0)
  {
    var r := s[0 := item][..n];
    forall i | 0 <= i < |r| && (i == 0 || Parent(i) != 0) ensures InOrder(r, before, i) {
      assert InOrder(s, before, i);
    }
  }

  method HeapReplaceRoot<T(!new)>(heap: array<T>, count: nat, item: T, before: (T, T) -> bool, ghost items: set<T>)
    requires WeakOrder(before) && 0 < count <= heap.Length && HeapOf(heap[..count], items, before) && item !in items
    modifies heap
    ensures HeapOf(heap[..count], items - {old(heap[0])} + {item}, before)
  {
    ghost var s := heap[..count];
    RootOf(s, items, before);
    RootReplaced(s, before, item, count);
    heap[0] := item;
    assert heap[..count] == s[0 := item] == s[0 := item][..count];
    assert multiset(s[0 := item]) == multiset(s) - multiset{s[0]} + multiset{item};
    SiftDown(heap, count, 0, before);
    assert multiset(items - {s[0]} + {item}) == multiset(items) - multiset{s[0]} + multiset{item};
  }

  method HeapPop<T(!new)>(heap: array<T>, count: nat, before: (T, T) -> bool, ghost items: set<T>)
    returns (item: T, count': nat)
    requires WeakOrder(before) && 0 < count <= heap.Length && HeapOf(heap[..count], items, before)
    modifies heap
    ensures IsFirst(item, items, before) && count' == count - 1
    ensures HeapOf(heap[..count'], items - {item}, before)
  {
    ghost var s := heap[..count];
    RootOf(s, items, before);
    item, count' := heap[0], count - 1;
    assert multiset(items - {item}) == multiset(items) - multiset{item};
    if count' > 0 {
      RootReplaced(s, before, s[count'], count');
      LastToRoot(s);
      heap[0] := heap[count'];
      assert heap[..count'] == s[0 := s[count']][..count'];
      SiftDown(heap, count', 0, before);
    } else {
      assert s == [item];
    }
  }

  lemma LastToRoot<T>(s: seq<T>)
    requires |s| > 1
    ensures multiset(s[0 := s[|s| - 1]][..|s| - 1]) == multiset(s) - multiset{s[0]}
  {
    var n := |s| - 1;
    assert s == [s[0]] + s[1..n] + [s[n]];
    assert s[0 := s[n]][..n] == [s[n]] + s[1..n];
  }
}
