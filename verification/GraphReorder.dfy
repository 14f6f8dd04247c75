/**
 Renumbering the nodes of a finished native graph in breadth-first order from its entry node
 (src/tqgraph.c:1076-1174).
 */
module GraphReorder {
  import opened Orders
  import opened GraphSearch
  import R = Reachability

  const UINT_MAX: nat := 0xffff_ffff

  /** The first count nodes of the new order: a numbered node and its number determine each other. */
  ghost predicate Numbering(oldToNew: seq<nat>, order: seq<nat>) {
    && NoRepeats(order)
    && (forall k | 0 <= k < |order| :: order[k] < |oldToNew| && oldToNew[order[k]] == k)
    && (forall x | 0 <= x < |oldToNew| && oldToNew[x] != UINT_MAX :: oldToNew[x] < |order| && order[oldToNew[x]] == x)
  }

  lemma NumberingGrows(oldToNew: seq<nat>, order: seq<nat>, x: nat)
    requires Numbering(oldToNew, order) && |oldToNew| < UINT_MAX && x < |oldToNew| && oldToNew[x] == UINT_MAX
    ensures Numbering(oldToNew[x := |order|], order + [x]) && |order| < |oldToNew|
  {
    AtMost(order, |oldToNew|);
    forall k | 0 <= k < |order| ensures order[k] != x { assert oldToNew[order[k]] == k < |order|; }
    AtMost(order + [x], |oldToNew|);
  }

  /** The macro that numbers a node unless it has a number, and queues it. */
  method Enqueue(oldToNew: array<nat>, newToOld: array<nat>, queue: array<nat>, count: nat, x: nat)
    returns (count': nat)
    requires oldToNew.Length == newToOld.Length == queue.Length < UINT_MAX && count <= oldToNew.Length
    requires oldToNew != newToOld && oldToNew != queue && newToOld != queue
    requires Numbering(oldToNew[..], newToOld[..count]) && queue[..count] == newToOld[..count]
    modifies oldToNew, newToOld, queue
    ensures count <= count' <= oldToNew.Length && newToOld[..count] == old(newToOld[..count])
    ensures old(newToOld[..count]) <= newToOld[..count']
    ensures Numbering(oldToNew[..], newToOld[..count']) && queue[..count'] == newToOld[..count']
    ensures x < oldToNew.Length ==> x in newToOld[..count']
    ensures newToOld[..count'] == old(newToOld[..count]) ||
            (newToOld[..count'] == old(newToOld[..count]) + [x] && x !in old(newToOld[..count]) && x < oldToNew.Length)
  {
    count' := count;
    if x < oldToNew.Length {
      if oldToNew[x] == UINT_MAX {
        ghost var o, n := oldToNew[..], newToOld[..count];
        NumberingGrows(o, n, x);
        oldToNew[x] := count;
        newToOld[count] := x;
        queue[count] := x;
        count' := count + 1;
        assert oldToNew[..] == o[x := count] && newToOld[..count'] == n + [x] && queue[..count'] == n + [x];
      } else {
        assert newToOld[..count][oldToNew[..][x]] == x;
      }
    }
  }

  /** The neighbours at level 0 that are nodes. */
  function Local(nodes: seq<Node>): nat -> set<nat> {
    (x: nat) => if x < |nodes| && 0 < |nodes[x].neighbors|
                then set y: nat | y in nodes[x].neighbors[0] && y < |nodes| else {}
  }

  /** All queued nodes can be reached, and those taken from the queue have had their neighbours queued. */
  ghost predicate Spreading(nodes: seq<Node>, entry: nat, order: seq<nat>, head: nat) {
    && entry in order && head <= |order| &&
       (forall x | x in order :: x < |nodes| && R.Reachable(Local(nodes), entry, x))
    && (forall k | 0 <= k < head :: AllIn(Local(nodes)(order[k]), order))
    && order[0] == entry && Layered(Local(nodes), entry, order) && Frontier(Local(nodes), entry, order, head)
  }

  /** Later nodes in the order are no nearer to the entry, counted in steps. */
  ghost predicate Layered(next: nat -> set<nat>, entry: nat, order: seq<nat>) {
    forall i, j, n: nat {:trigger R.Within(next, entry, n, order[j]), order[i]} |
      0 <= i < j < |order| && R.Within(next, entry, n, order[j]) :: R.Within(next, entry, n, order[i])
  }

  /** No node in the order is more than one step further than the head of the queue. */
  ghost predicate Frontier(next: nat -> set<nat>, entry: nat, order: seq<nat>, head: nat) {
    head < |order| ==>
      forall i, n: nat {:trigger R.Within(next, entry, n, order[head]), order[i]} |
        0 <= i < |order| && R.Within(next, entry, n, order[head]) :: R.Within(next, entry, n + 1, order[i])
  }

  /** The nodes before the head have had their neighbours queued. */
  ghost predicate Expanded(next: nat -> set<nat>, order: seq<nat>, head: nat) {
    head <= |order| && forall k | 0 <= k < head :: AllIn(next(order[k]), order)
  }

  lemma NotExpanded(next: nat -> set<nat>, order: seq<nat>, head: nat, x: nat, y: nat)
    requires Expanded(next, order, head) && y in next(x) && y !in order
    ensures x !in order[..head]
  {
    forall k | 0 <= k < head
      ensures order[k] != x
    {
      assert AllIn(next(order[k]), order);
    }
  }

  /** Whatever is reached in n steps and was not expanded lies behind something in the queue. */
  lemma {:induction false} QueueIsNearer(next: nat -> set<nat>, entry: nat, order: seq<nat>, head: nat, n: nat, z: nat)
    returns (i: nat)
    requires order != [] && order[0] == entry && Expanded(next, order, head)
    requires R.Within(next, entry, n, z) && z !in order[..head]
    ensures head <= i < |order| && R.Within(next, entry, n, order[i])
    decreases n
  {
    if z in order {
      i :| 0 <= i < |order| && order[i] == z;
      assert forall k | 0 <= k < head :: order[k] in order[..head];
    } else {
      var p := R.LastStep(next, entry, n, z);
      NotExpanded(next, order, head, p, z);
      i := QueueIsNearer(next, entry, order, head, n - 1, p);
      R.WithinMore(next, entry, n - 1, order[i], order[i]);
    }
  }

  /** A new neighbour of the head is no nearer than anything queued before, and one step further than the head. */
  lemma NewIsFurther(next: nat -> set<nat>, entry: nat, order: seq<nat>, head: nat, n: nat, y: nat, i: nat)
    requires order != [] && order[0] == entry && Expanded(next, order, head) && head < |order|
    requires Layered(next, entry, order) && Frontier(next, entry, order, head)
    requires y !in order && R.Within(next, entry, n, y) && i < |order|
    ensures R.Within(next, entry, n, order[i])
  {
    assert order[0] in order;
    var p := R.LastStep(next, entry, n, y);
    NotExpanded(next, order, head, p, y);
    var q := QueueIsNearer(next, entry, order, head, n - 1, p);
    assert R.Within(next, entry, n - 1, order[head]);
    assert R.Within(next, entry, n - 1 + 1, order[i]);
  }

  lemma LayersGrow(next: nat -> set<nat>, entry: nat, order: seq<nat>, head: nat, y: nat)
    requires order != [] && order[0] == entry && Expanded(next, order, head) && head < |order|
    requires Layered(next, entry, order) && Frontier(next, entry, order, head)
    requires y !in order && y in next(order[head])
    ensures Layered(next, entry, order + [y]) && Frontier(next, entry, order + [y], head)
  {
    var order' := order + [y];
    forall i, j, n: nat | 0 <= i < j < |order'| && R.Within(next, entry, n, order'[j])
      ensures R.Within(next, entry, n, order'[i])
    {
      if j == |order| {
        NewIsFurther(next, entry, order, head, n, y, i);
      } else {
        assert R.Within(next, entry, n, order[j]) && order[i] == order'[i];
      }
    }
    forall i, n: nat | 0 <= i < |order'| && R.Within(next, entry, n, order'[head])
      ensures R.Within(next, entry, n + 1, order'[i])
    {
      if i == |order| {
        R.WithinMore(next, entry, n, order[head], y);
      } else {
        assert R.Within(next, entry, n, order[head]) && order[i] == order'[i];
      }
    }
  }

  /** The next in the queue is no nearer than the head was. */
  lemma FrontierMoves(next: nat -> set<nat>, entry: nat, order: seq<nat>, head: nat)
    requires Layered(next, entry, order) && Frontier(next, entry, order, head) && head < |order|
    ensures Frontier(next, entry, order, head + 1)
  {
    if head + 1 < |order| {
      var x := order[head + 1];
      forall i, n: nat {:trigger R.Within(next, entry, n, x), order[i]} | 0 <= i < |order| &&
        R.Within(next, entry, n, x)
        ensures R.Within(next, entry, n + 1, order[i])
      {
        assert R.Within(next, entry, n, order[head]);
      }
    }
  }

  lemma FirstLayer(next: nat -> set<nat>, entry: nat)
    ensures Layered(next, entry, [entry]) && Frontier(next, entry, [entry], 0)
  {
    forall n: nat {:trigger R.Within(next, entry, n, entry)} | R.Within(next, entry, n, entry)
      ensures R.Within(next, entry, n + 1, entry)
    {
      R.WithinMore(next, entry, n, entry, entry);
    }
  }

  ghost predicate AllIn(s: set<nat>, order: seq<nat>) {
    forall y | y in s :: y in order
  }

  /** A prefix of the new order holds exactly the nodes that can be reached from the entry. */
  ghost predicate ReachableFirst(nodes: seq<Node>, entry: nat, order: seq<nat>, count: nat) {
    count <= |order| && forall x: nat :: x in order[..count] <==> R.Reachable(Local(nodes), entry, x)
  }

  lemma SpreadIsComplete(nodes: seq<Node>, entry: nat, order: seq<nat>)
    requires Spreading(nodes, entry, order, |order|)
    ensures forall x: nat :: x in order <==> R.Reachable(Local(nodes), entry, x)
  {
    var all := set x | x in order;
    forall y | y in all ensures Local(nodes)(y) <= all {
      var k :| 0 <= k < |order| && order[k] == y;
      assert AllIn(Local(nodes)(order[k]), order);
    }
    forall x: nat | R.Reachable(Local(nodes), entry, x) ensures x in order {
      R.ClosedHoldsReachable(Local(nodes), entry, all, x);
    }
  }

  /** The queue grows by a neighbour of its head, or not at all. */
  lemma SpreadGrows(nodes: seq<Node>, entry: nat, order: seq<nat>, order': seq<nat>, head: nat, y: nat)
    requires Spreading(nodes, entry, order, head) && head < |order|
    requires order' == order || (order' == order + [y] && y !in order && y in Local(nodes)(order[head]))
    ensures Spreading(nodes, entry, order', head)
  {
    if order' != order {
      assert order[head] in order;
      forall z | z in order' ensures z < |nodes| && R.Reachable(Local(nodes), entry, z) {
        if z !in order { R.NextIsReachable(Local(nodes), entry, order[head], z); }
      }
      forall k | 0 <= k < head ensures AllIn(Local(nodes)(order'[k]), order') {
        assert AllIn(Local(nodes)(order[k]), order);
      }
      LayersGrow(Local(nodes), entry, order, head, y);
    }
  }

  lemma HeadMoves(nodes: seq<Node>, entry: nat, order: seq<nat>, head: nat)
    requires Spreading(nodes, entry, order, head) && head < |order| && AllIn(Local(nodes)(order[head]), order)
    ensures Spreading(nodes, entry, order, head + 1)
  {
    FrontierMoves(Local(nodes), entry, order, head);
  }

  /** Numbers everything that can be reached from the entry at level 0, then all other nodes. */
  method NumberNodes(nodes: seq<Node>, entry: nat, oldToNew: array<nat>, newToOld: array<nat>)
    returns (ghost reached: nat)
    requires oldToNew.Length == newToOld.Length == |nodes| < UINT_MAX && oldToNew != newToOld && entry < |nodes|
    requires forall x | 0 <= x < |nodes| :: |nodes[x].neighbors| == nodes[x].level + 1
    modifies oldToNew, newToOld
    ensures Numbering(oldToNew[..], newToOld[..])
    ensures ReachableFirst(nodes, entry, newToOld[..], reached)
    ensures Layered(Local(nodes), entry, newToOld[..reached])
  {
    var n := |nodes|;
    var queue := new nat[n];
    for i := 0 to n
      invariant forall k | 0 <= k < i :: oldToNew[k] == UINT_MAX
    {
      oldToNew[i] := UINT_MAX;
    }
    assert newToOld[..0] == [] && queue[..0] == [];
    var head, tail: nat := 0, 0;
    tail := Enqueue(oldToNew, newToOld, queue, tail, entry);
    R.StartIsReachable(Local(nodes), entry);
    FirstLayer(Local(nodes), entry);
    assert newToOld[..tail] == [entry];
    while head < tail
      invariant head <= tail <= n && Numbering(oldToNew[..], newToOld[..tail]) && queue[..tail] == newToOld[..tail]
      invariant Spreading(nodes, entry, newToOld[..tail], head)
      decreases n - head
    {
      assert queue[..tail][head] == newToOld[..tail][head];
      var x := queue[head];
      tail := EnqueueAll(nodes, entry, oldToNew, newToOld, queue, head, tail, x);
      head := head + 1;
    }
    SpreadIsComplete(nodes, entry, newToOld[..tail]);
    reached := tail;
    NumberRest(oldToNew, newToOld, queue, tail);
  }

  /** Nodes that cannot be reached are numbered last. */
  method NumberRest(oldToNew: array<nat>, newToOld: array<nat>, queue: array<nat>, count: nat)
    requires oldToNew.Length == newToOld.Length == queue.Length < UINT_MAX && count <= oldToNew.Length
    requires oldToNew != newToOld && oldToNew != queue && newToOld != queue
    requires Numbering(oldToNew[..], newToOld[..count]) && queue[..count] == newToOld[..count]
    modifies oldToNew, newToOld, queue
    ensures Numbering(oldToNew[..], newToOld[..]) && newToOld[..count] == old(newToOld[..count])
  {
    var tail := count;
    for i := 0 to oldToNew.Length
      invariant count <= tail <= oldToNew.Length && newToOld[..count] == old(newToOld[..count])
      invariant Numbering(oldToNew[..], newToOld[..tail]) && queue[..tail] == newToOld[..tail]
      invariant forall x: nat | x < i :: x in newToOld[..tail]
    {
      ghost var before := newToOld[..tail];
      tail := Enqueue(oldToNew, newToOld, queue, tail, i);
      PrefixKeeps(before, newToOld[..tail], count);
    }
    AllNumbered(newToOld[..tail], oldToNew.Length);
    assert newToOld[..tail] == newToOld[..];
  }

  lemma PrefixKeeps(s: seq<nat>, t: seq<nat>, count: nat)
    requires s <= t && count <= |s|
    ensures (forall x | x in s :: x in t) && t[..count] == s[..count]
  {
    forall x | x in s ensures x in t {
      var k :| 0 <= k < |s| && s[k] == x;
      assert t[k] == x;
    }
  }

  method EnqueueNeighbor(nodes: seq<Node>, ghost entry: nat, oldToNew: array<nat>, newToOld: array<nat>,
                         queue: array<nat>, ghost head: nat, count: nat, ghost x: nat, y: nat) returns (tail: nat)
    requires oldToNew.Length == newToOld.Length == queue.Length == |nodes| < UINT_MAX
    requires oldToNew != newToOld && oldToNew != queue && newToOld != queue
    requires head < count <= |nodes| && Numbering(oldToNew[..], newToOld[..count]) &&
             queue[..count] == newToOld[..count]
    requires Spreading(nodes, entry, newToOld[..count], head) && x == newToOld[..count][head]
    requires y < |nodes| ==> y in Local(nodes)(x)
    modifies oldToNew, newToOld, queue
    ensures count <= tail <= |nodes| && Numbering(oldToNew[..], newToOld[..tail]) && queue[..tail] == newToOld[..tail]
    ensures Spreading(nodes, entry, newToOld[..tail], head) && old(newToOld[..count]) <= newToOld[..tail]
    ensures y < |nodes| ==> y in newToOld[..tail]
  {
    ghost var before := newToOld[..count];
    assert x in before;
    tail := Enqueue(oldToNew, newToOld, queue, count, y);
    SpreadGrows(nodes, entry, before, newToOld[..tail], head, y);
  }

  /** The loop over the neighbours of the node x at the head of the queue. */
  method EnqueueAll(nodes: seq<Node>, ghost entry: nat, oldToNew: array<nat>, newToOld: array<nat>, queue: array<nat>,
                    ghost head: nat, count: nat, x: nat) returns (tail: nat)
    requires oldToNew.Length == newToOld.Length == queue.Length == |nodes| < UINT_MAX
    requires oldToNew != newToOld && oldToNew != queue && newToOld != queue
    requires forall y | 0 <= y < |nodes| :: |nodes[y].neighbors| == nodes[y].level + 1
    requires head < count <= |nodes| && Numbering(oldToNew[..], newToOld[..count]) &&
             queue[..count] == newToOld[..count]
    requires Spreading(nodes, entry, newToOld[..count], head) && x == newToOld[..count][head]
    modifies oldToNew, newToOld, queue
    ensures count <= tail <= |nodes| && Numbering(oldToNew[..], newToOld[..tail]) && queue[..tail] == newToOld[..tail]
    ensures Spreading(nodes, entry, newToOld[..tail], head + 1)
  {
    tail := count;
    assert x in newToOld[..tail];
    var list := nodes[x].neighbors[0];
    for i := 0 to |list|
      invariant count <= tail <= |nodes| && Numbering(oldToNew[..], newToOld[..tail]) &&
                queue[..tail] == newToOld[..tail]
      invariant Spreading(nodes, entry, newToOld[..tail], head) && x == newToOld[..tail][head]
      invariant forall k | 0 <= k < i && list[k] < |nodes| :: list[k] in newToOld[..tail]
    {
      tail := EnqueueNeighbor(nodes, entry, oldToNew, newToOld, queue, head, tail, x, list[i]);
    }
    assert AllIn(Local(nodes)(x), newToOld[..tail]);
    HeadMoves(nodes, entry, newToOld[..tail], head);
  }

  lemma AllNumbered(order: seq<nat>, n: nat)
    requires |order| <= n && forall x: nat | x < n :: x in order
    ensures |order| == n
  {
    PigeonHole(seq(n, (i: nat) => i), order);
  }

  // ---------------------------------------------------------------------------------------
  // Rewriting the nodes
  // ---------------------------------------------------------------------------------------

  /** A number for every node; ids that are not nodes stay as they are. */
  function Renamed(oldToNew: seq<nat>, x: nat): nat {
    if x < |oldToNew| then oldToNew[x] else x
  }

  function RenamedList(oldToNew: seq<nat>, list: seq<nat>): (r: seq<nat>)
    ensures |r| == |list| && forall i | 0 <= i < |list| :: r[i] == Renamed(oldToNew, list[i])
  {
    seq(|list|, i requires 0 <= i < |list| => Renamed(oldToNew, list[i]))
  }

  function RenamedNode(oldToNew: seq<nat>, node: Node): (r: Node)
    ensures r.data == node.data && r.level == node.level && |r.neighbors| == |node.neighbors|
    ensures forall l | 0 <= l < |node.neighbors| :: r.neighbors[l] == RenamedList(oldToNew, node.neighbors[l])
  {
    node.(neighbors :=
          seq(|node.neighbors|, l requires 0 <= l < |node.neighbors| => RenamedList(oldToNew, node.neighbors[l])))
  }

  /** newToOld undoes oldToNew, and the other way around. */
  ghost predicate Inverse(oldToNew: seq<nat>, newToOld: seq<nat>) {
    && |oldToNew| == |newToOld|
    && (forall x | 0 <= x < |oldToNew| :: oldToNew[x] < |newToOld| && newToOld[oldToNew[x]] == x)
    && (forall k | 0 <= k < |newToOld| :: newToOld[k] < |oldToNew| && oldToNew[newToOld[k]] == k)
  }

  /** The new graph is the old one under the renaming: every node with its data and all its edges. */
  ghost predicate Isomorphic(oldToNew: seq<nat>, nodes: seq<Node>, nodes': seq<Node>) {
    && |oldToNew| == |nodes| == |nodes'|
    && forall x | 0 <= x < |nodes| :: oldToNew[x] < |nodes'| && nodes'[oldToNew[x]] == RenamedNode(oldToNew, nodes[x])
  }

  lemma IdentityIsIsomorphic(nodes: seq<Node>)
    ensures Inverse(Identity(|nodes|), Identity(|nodes|)) && Isomorphic(Identity(|nodes|), nodes, nodes)
  {
    forall x | 0 <= x < |nodes| ensures nodes[x] == RenamedNode(Identity(|nodes|), nodes[x]) {
      var lists := nodes[x].neighbors;
      forall l | 0 <= l < |lists| ensures RenamedList(Identity(|nodes|), lists[l]) == lists[l] { }
      assert RenamedNode(Identity(|nodes|), nodes[x]).neighbors == lists;
    }
  }

  /** TqGraphReorderBuildNodesForLocality. */
  method ReorderForLocality(reorder: bool, nodes: seq<Node>, entry: nat)
    returns (nodes': seq<Node>, entry': nat, oldToNew: seq<nat>, newToOld: seq<nat>, ghost reached: nat)
    requires |nodes| < UINT_MAX
    requires forall x | 0 <= x < |nodes| :: |nodes[x].neighbors| == nodes[x].level + 1
    ensures Inverse(oldToNew, newToOld) && Isomorphic(oldToNew, nodes, nodes')
    ensures entry' == Renamed(oldToNew, entry)
    ensures reorder && |nodes| > 1 && entry < |nodes| ==> ReachableFirst(nodes, entry, newToOld, reached)
  {
    nodes', entry', oldToNew, newToOld, reached := nodes, entry, Identity(|nodes|), Identity(|nodes|), 0;
    IdentityIsIsomorphic(nodes);
    if !reorder || |nodes| < 2 || entry >= |nodes| { return; }
    var n := |nodes|;
    var numbers, order := new nat[n], new nat[n];
    reached := NumberNodes(nodes, entry, numbers, order);
    NumberingIsInverse(numbers[..], order[..]);
    var identity := true;
    for i := 0 to n
      invariant identity ==> forall k | 0 <= k < i :: order[k] == k
    {
      if order[i] != i {
        identity := false;
        break;
      }
    }
    if identity {
      assert order[..] == newToOld;
      return;
    }
    oldToNew, newToOld := numbers[..], order[..];
    nodes', entry' := [], numbers[entry];
    for k := 0 to n
      invariant |nodes'| == k && forall i | 0 <= i < k :: nodes'[i] == RenamedNode(numbers[..], nodes[order[i]])
    {
      nodes' := nodes' + [RenamedNode(numbers[..], nodes[order[k]])];
    }
  }

  lemma NumberingIsInverse(numbers: seq<nat>, order: seq<nat>)
    requires Numbering(numbers, order) && |numbers| == |order| < UINT_MAX
    ensures Inverse(numbers, order)
  {
    forall x | 0 <= x < |numbers| ensures numbers[x] < |order| && order[numbers[x]] == x {
      EveryOneIsIn(order, |numbers|, x);
      var k :| 0 <= k < |order| && order[k] == x;
    }
  }

  lemma EveryOneIsIn(order: seq<nat>, n: nat, x: nat)
    requires NoRepeats(order) && |order| == n && x < n && forall k | 0 <= k < n :: order[k] < n
    ensures x in order
  {
    if x !in order { AtMost(order + [x], n); }
  }

  // ---------------------------------------------------------------------------------------
  // What an isomorphism carries over
  // ---------------------------------------------------------------------------------------

  /** Edges of one level, in either numbering. */
  function Edges(nodes: seq<Node>, level: nat): nat -> set<nat> {
    (x: nat) => if x < |nodes| && level < |nodes[x].neighbors| then set y | y in nodes[x].neighbors[level] else {}
  }

  lemma EdgesCarryOver(oldToNew: seq<nat>, newToOld: seq<nat>, nodes: seq<Node>, nodes': seq<Node>, level: nat, x: nat,
                       y: nat)
    requires Inverse(oldToNew, newToOld) && Isomorphic(oldToNew, nodes, nodes') && x < |nodes| && y < |nodes|
    requires Shaped(nodes)
    ensures y in Edges(nodes, level)(x) <==> oldToNew[y] in Edges(nodes', level)(oldToNew[x])
  {
    if level < |nodes[x].neighbors| {
      var list, list' := nodes[x].neighbors[level], nodes'[oldToNew[x]].neighbors[level];
      assert list' == RenamedList(oldToNew, list);
      if y in list {
        var i :| 0 <= i < |list| && list[i] == y;
        assert list'[i] == oldToNew[y];
      }
      if oldToNew[y] in list' {
        var i :| 0 <= i < |list'| && list'[i] == oldToNew[y];
        assert list[i] < |nodes|;
        assert newToOld[oldToNew[list[i]]] == newToOld[oldToNew[y]];
      }
    }
  }
}
