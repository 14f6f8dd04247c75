/**
 The frontier and result heaps of the native graph (src/tqgraph.c:201-340): the order of their items,
 growth up to a maximum capacity, and the bounded list of the nearest nodes.
 */
module FrontierHeap {
  import opened Orders
  import opened BinaryHeap

  datatype Item = Item(distance: real, nodeId: nat)

  predicate Less(a: Item, b: Item) {
    if a.distance != b.distance then a.distance < b.distance else a.nodeId < b.nodeId
  }

  predicate Greater(a: Item, b: Item) {
    if a.distance != b.distance then a.distance > b.distance else a.nodeId > b.nodeId
  }

  /** Less orders the frontier, with the nearest at the root, and Greater the nearest nodes, with the furthest there. */
  lemma OrdersAreWeak()
    ensures WeakOrder(Less) && WeakOrder(Greater)
  {
  }

  /** Less and Greater are the two directions of one total order: by distance, then by node. */
  lemma OneTotalOrder(a: Item, b: Item, c: Item)
    ensures Less(a, b) <==> Greater(b, a)
    ensures a == b || Less(a, b) || Less(b, a)
    ensures !(Less(a, b) && Less(b, a))
    ensures Less(a, b) && Less(b, c) ==> Less(a, c)
    ensures a.distance < b.distance ==> Less(a, b)
    ensures a.distance == b.distance && a.nodeId < b.nodeId ==> Less(a, b)
  {
  }

  // ---------------------------------------------------------------------------------------
  // Growth, and the bounded heap of nearest nodes
  // ---------------------------------------------------------------------------------------

  datatype Pushed = Ok(heap: array<Item>, count: nat, capacity: nat) | CapacityExceeded

  /** Fails exactly when the heap holds maxCapacity items. */
  method HeapPushGrowing(heap: array<Item>, count: nat, capacity: nat, maxCapacity: nat, item: Item,
                         before: (Item, Item) -> bool, ghost items: set<Item>)
    returns (r: Pushed)
    requires WeakOrder(before) && count <= capacity == heap.Length <= maxCapacity
    requires HeapOf(heap[..count], items, before) && item !in items
    modifies heap
    ensures r.CapacityExceeded? <==> count == maxCapacity
    ensures r.Ok? ==> r.count == count + 1 <= r.capacity == r.heap.Length <= maxCapacity
    ensures r.Ok? && count < capacity ==> r.capacity == capacity
    ensures r.Ok? && count == capacity ==>
              r.capacity == maxCapacity || (r.capacity == (if capacity < 4 then 8 else 2 * capacity) < maxCapacity)
    ensures r.Ok? ==> HeapOf(r.heap[..r.count], items + {item}, before) && (r.heap == heap || fresh(r.heap))
  {
    var h, c := heap, capacity;
    if count >= capacity {
      if capacity >= maxCapacity { return CapacityExceeded; }
      var newCapacity := if capacity * 2 < 8 then 8 else capacity * 2;
      if newCapacity < capacity || newCapacity > maxCapacity { newCapacity := maxCapacity; }
      h := new Item[newCapacity](_ => item);
      for i := 0 to count
        invariant h[..i] == heap[..i] && heap[..count] == old(heap[..count])
      {
        h[i] := heap[i];
      }
      assert h[..count] == heap[..count];
      c := newCapacity;
    }
    var n := HeapPush(h, count, item, before, items);
    r := Ok(h, n, c);
  }

  /** The items kept once x is offered to a list of at most capacity nearest ones. */
  ghost function Offered(items: set<Item>, capacity: nat, x: Item, furthest: Item): set<Item> {
    if capacity == 0 then items
    else if |items| < capacity then items + {x}
    else if Less(x, furthest) then items - {furthest} + {x}
    else items
  }

  method OfferNearest(heap: array<Item>, capacity: nat, count: nat, x: Item, ghost items: set<Item>)
    returns (added: bool, count': nat)
    requires count <= capacity <= heap.Length && HeapOf(heap[..count], items, Greater) && x !in items
    modifies heap
    ensures count' <= capacity &&
            HeapOf(heap[..count'], Offered(items, capacity, x, old(if heap.Length > 0 then heap[0] else x)), Greater)
    ensures 0 < count ==> IsFirst(old(heap[0]), items, Greater)
    ensures added <==> 0 < capacity && (|items| < capacity || Less(x, old(heap[0])))
  {
    OrdersAreWeak();
    RootOf(heap[..count], items, Greater);
    count' := count;
    if capacity <= 0 { return false, count; }
    if count < capacity {
      count' := HeapPush(heap, count, x, Greater, items);
      return true, count';
    }
    if Less(x, heap[0]) {
      HeapReplaceRoot(heap, count, x, Greater, items);
      return true, count';
    }
    return false, count';
  }
}
