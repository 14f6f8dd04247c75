/**
 Building the edges of the native graph (src/tqgraph.c:718-1074): selecting neighbours, adding one with
 a spare slot and pruning it away, the greedy descent, and the insertion of every node in build order.
 */
module GraphEdges {
  import opened Orders
  import opened BinaryHeap
  import opened FrontierHeap
  import opened GraphSearch
  import R = Reachability

  type Distance = (nat, nat) -> real

  function LevelM(m: nat, level: nat): nat {
    if level == 0 then 2 * m else m
  }

  // ---------------------------------------------------------------------------------------
  // TqGraphSelectNeighbors
  // ---------------------------------------------------------------------------------------

  /** A candidate is passed over when it is nearer to a node already selected than to the source. */
  predicate Blocked(dist: Distance, selected: seq<nat>, c: Item) {
    exists s | s in selected :: dist(c.nodeId, s) < c.distance
  }

  /** The candidates that spread around the source, nearest first. */
  function Picked(dist: Distance, src: nat, cands: seq<Item>, max: nat): seq<nat> {
    if cands == [] then []
    else
      var c, before := cands[|cands| - 1], Picked(dist, src, cands[..|cands| - 1], max);
      if |before| < max && c.nodeId != src && !Blocked(dist, before, c) then before + [c.nodeId] else before
  }

  /** The nearest candidates that are not yet selected fill what room is left. */
  function Filled(src: nat, selected: seq<nat>, cands: seq<Item>, max: nat): seq<nat> {
    if cands == [] then selected
    else
      var c, before := cands[|cands| - 1], Filled(src, selected, cands[..|cands| - 1], max);
      if |before| < max && c.nodeId !in before && c.nodeId != src then before + [c.nodeId] else before
  }

  function Selected(dist: Distance, src: nat, cands: seq<Item>, max: nat): seq<nat> {
    Filled(src, Picked(dist, src, Sorted(cands, Less), max), Sorted(cands, Less), max)
  }

  /** Every item occurs once and no two items share an id. */
  ghost predicate DistinctIds(cands: seq<Item>) {
    && (forall c | c in cands :: multiset(cands)[c] == 1)
    && (forall c, d | c in cands && d in cands && c.nodeId == d.nodeId :: c == d)
  }

  lemma DistinctInit(cands: seq<Item>)
    requires cands != [] && DistinctIds(cands)
    ensures DistinctIds(cands[..|cands| - 1])
    ensures forall c | c in cands[..|cands| - 1] :: c in cands && c.nodeId != cands[|cands| - 1].nodeId
  {
    var init, last := cands[..|cands| - 1], cands[|cands| - 1];
    assert cands == init + [last];
    assert multiset(cands) == multiset(init) + multiset{last};
    forall c | c in init ensures c in cands && c != last && multiset(init)[c] == 1 {
      assert c in cands && c in multiset(init);
      assert multiset(cands)[c] == multiset(init)[c] + multiset{last}[c];
    }
    assert last in cands;
  }

  lemma SortedKeepsIds(cands: seq<Item>)
    requires DistinctIds(cands)
    ensures DistinctIds(Sorted(cands, Less)) && forall c :: c in Sorted(cands, Less) <==> c in cands
  {
    forall c ensures c in Sorted(cands, Less) <==> c in cands {
      assert c in multiset(Sorted(cands, Less)) <==> c in multiset(cands);
    }
    forall c | c in Sorted(cands, Less) ensures multiset(Sorted(cands, Less))[c] == 1 {
      assert c in cands;
      assert multiset(Sorted(cands, Less)) == multiset(cands);
    }
  }

  ghost predicate IsId(cands: seq<Item>, y: nat) {
    exists c :: c in cands && c.nodeId == y
  }

  /** Without repeats, only candidates other than the source. */
  ghost predicate Proper(src: nat, cands: seq<Item>, selected: seq<nat>, max: nat) {
    NoRepeats(selected) && |selected| <= max && forall y | y in selected :: y != src && IsId(cands, y)
  }

  lemma {:induction false} PickedIsProper(dist: Distance, src: nat, cands: seq<Item>, max: nat)
    requires DistinctIds(cands)
    ensures Proper(src, cands, Picked(dist, src, cands, max), max)
  {
    if cands != [] {
      var n := |cands| - 1;
      DistinctInit(cands);
      PickedIsProper(dist, src, cands[..n], max);
      assert cands[n] in cands;
      var before := Picked(dist, src, cands[..n], max);
      forall i | 0 <= i < |before| ensures before[i] != cands[n].nodeId && IsId(cands, before[i]) {
        assert before[i] in before && IsId(cands[..n], before[i]);
      }
    }
  }

  lemma {:induction false} FilledIsProper(src: nat, cands: seq<Item>, all: seq<Item>, selected: seq<nat>, max: nat)
    requires Proper(src, all, selected, max) && forall c | c in cands :: c in all
    ensures Proper(src, all, Filled(src, selected, cands, max), max)
    ensures forall y | y in selected :: y in Filled(src, selected, cands, max)
    ensures |Filled(src, selected, cands, max)| < max ==>
              forall c | c in cands && c.nodeId != src :: c.nodeId in Filled(src, selected, cands, max)
  {
    if cands != [] {
      var n := |cands| - 1;
      FilledIsProper(src, cands[..n], all, selected, max);
      assert cands == cands[..n] + [cands[n]];
    }
  }

  /** At most max distinct candidates, never the source, and every other candidate unless max is reached. */
  lemma SelectedIsProper(dist: Distance, src: nat, cands: seq<Item>, max: nat)
    requires DistinctIds(cands)
    ensures Proper(src, cands, Selected(dist, src, cands, max), max)
    ensures |Selected(dist, src, cands, max)| < max ==>
              forall c | c in cands && c.nodeId != src :: c.nodeId in Selected(dist, src, cands, max)
  {
    SortedKeepsIds(cands);
    PickedIsProper(dist, src, Sorted(cands, Less), max);
    FilledIsProper(src, Sorted(cands, Less), Sorted(cands, Less), Picked(dist, src, Sorted(cands, Less), max), max);
  }

  /** What was picked spreads around the source; what was not is blocked by a nearer pick. */
  lemma {:induction false} PicksSpread(dist: Distance, src: nat, cands: seq<Item>, max: nat, k: nat)
    requires DistinctIds(cands) && k < |cands|
    ensures cands[k].nodeId in Picked(dist, src, cands, max) <==>
              cands[k].nodeId != src && |Picked(dist, src, cands[..k], max)| < max
              && forall y | y in Picked(dist, src, cands[..k], max) :: dist(cands[k].nodeId, y) >= cands[k].distance
    ensures Picked(dist, src, cands[..k], max) <= Picked(dist, src, cands, max)
  {
    var n := |cands| - 1;
    DistinctInit(cands);
    PickedIsProper(dist, src, cands[..n], max);
    var before := Picked(dist, src, cands[..n], max);
    if k < n {
      assert cands[..n][..k] == cands[..k];
      PicksSpread(dist, src, cands[..n], max, k);
      assert cands[k] in cands[..n];
    } else {
      forall i | 0 <= i < |before| ensures before[i] != cands[n].nodeId {
        assert before[i] in before && IsId(cands[..n], before[i]);
      }
    }
  }

  /** The places left by the picks go to the nearest others. */
  lemma {:induction false} FilledNearestFirst(src: nat, selected: seq<nat>, cands: seq<Item>, max: nat, i: nat, j: nat)
    requires DistinctIds(cands) && i < j < |cands| && cands[i].nodeId != src
    requires cands[j].nodeId !in selected && cands[j].nodeId in Filled(src, selected, cands, max)
    ensures cands[i].nodeId in Filled(src, selected, cands, max)
    ensures selected <= Filled(src, selected, cands, max)
  {
    var n := |cands| - 1;
    var init := cands[..n];
    var r := Filled(src, selected, init, max);
    DistinctInit(cands);
    FilledExtends(src, selected, cands, max);
    if j < n {
      assert init[j] == cands[j] && init[j] in init;
      FilledNearestFirst(src, selected, init, max, i, j);
    } else {
      assert init[i] == cands[i] && init[i] in init;
      if cands[n].nodeId in r { FilledFrom(src, selected, init, max, cands[n].nodeId); }
      FilledIsComplete(src, selected, init, max, i);
    }
  }

  lemma {:induction false} FilledExtends(src: nat, selected: seq<nat>, cands: seq<Item>, max: nat)
    ensures selected <= Filled(src, selected, cands, max)
  {
    if cands != [] { FilledExtends(src, selected, cands[..|cands| - 1], max); }
  }

  lemma {:induction false} FilledFrom(src: nat, selected: seq<nat>, cands: seq<Item>, max: nat, y: nat)
    requires y in Filled(src, selected, cands, max) && y !in selected
    ensures IsId(cands, y)
  {
    var n := |cands| - 1;
    if y in Filled(src, selected, cands[..n], max) {
      FilledFrom(src, selected, cands[..n], max, y);
      var c :| c in cands[..n] && c.nodeId == y;
      assert c in cands;
    } else {
      assert cands[n] in cands;
    }
  }

  lemma {:induction false} FilledIsComplete(src: nat, selected: seq<nat>, cands: seq<Item>, max: nat, i: nat)
    requires i < |cands| && cands[i].nodeId != src && |Filled(src, selected, cands, max)| < max
    ensures cands[i].nodeId in Filled(src, selected, cands, max)
  {
    var n := |cands| - 1;
    if i < n {
      FilledIsComplete(src, selected, cands[..n], max, i);
    }
  }

  method Spreads(dist: Distance, selected: seq<nat>, c: Item) returns (good: bool)
    ensures good <==> !Blocked(dist, selected, c)
  {
    for j := 0 to |selected|
      invariant forall k | 0 <= k < j :: dist(c.nodeId, selected[k]) >= c.distance
    {
      if dist(c.nodeId, selected[j]) < c.distance { return false; }
    }
    return true;
  }

  method Pick(dist: Distance, src: nat, cands: seq<Item>, max: nat) returns (selected: seq<nat>)
    ensures selected == Picked(dist, src, cands, max)
  {
    selected := [];
    var i := 0;
    while i < |cands| && |selected| < max
      invariant i <= |cands| && selected == Picked(dist, src, cands[..i], max)
    {
      assert cands[..i + 1][..i] == cands[..i];
      if cands[i].nodeId != src {
        var good := Spreads(dist, selected, cands[i]);
        if good { selected := selected + [cands[i].nodeId]; }
      }
      i := i + 1;
    }
    PickedIsFull(dist, src, cands, max, i);
  }

  method Fill(src: nat, picked: seq<nat>, cands: seq<Item>, max: nat) returns (selected: seq<nat>)
    ensures selected == Filled(src, picked, cands, max)
  {
    selected := picked;
    var i := 0;
    while i < |cands| && |selected| < max
      invariant i <= |cands| && selected == Filled(src, picked, cands[..i], max)
    {
      assert cands[..i + 1][..i] == cands[..i];
      if cands[i].nodeId !in selected && cands[i].nodeId != src { selected := selected + [cands[i].nodeId]; }
      i := i + 1;
    }
    FilledIsFull(src, picked, cands, max, i);
  }

  /** TqGraphSelectNeighbors: sorts the candidates, picks the ones that spread, and fills up with the nearest others. */
  method SelectNeighbors(dist: Distance, src: nat, candidates: seq<Item>, max: nat) returns (selected: seq<nat>)
    ensures selected == Selected(dist, src, candidates, max)
  {
    var cands := Sort(candidates, Less);
    selected := Pick(dist, src, cands, max);
    selected := Fill(src, selected, cands, max);
  }

  lemma {:induction false} PickedIsFull(dist: Distance, src: nat, cands: seq<Item>, max: nat, i: nat)
    requires i <= |cands| && (i == |cands| || |Picked(dist, src, cands[..i], max)| >= max)
    ensures Picked(dist, src, cands, max) == Picked(dist, src, cands[..i], max)
  {
    var n := |cands| - 1;
    if i == |cands| {
      assert cands[..i] == cands;
    } else {
      assert cands[..n][..i] == cands[..i];
      PickedIsFull(dist, src, cands[..n], max, i);
    }
  }

  lemma {:induction false} FilledIsFull(src: nat, selected: seq<nat>, cands: seq<Item>, max: nat, i: nat)
    requires i <= |cands| && (i == |cands| || |Filled(src, selected, cands[..i], max)| >= max)
    ensures Filled(src, selected, cands, max) == Filled(src, selected, cands[..i], max)
  {
    var n := |cands| - 1;
    if i == |cands| {
      assert cands[..i] == cands;
    } else {
      assert cands[..n][..i] == cands[..i];
      FilledIsFull(src, selected, cands[..n], max, i);
    }
  }

  // ---------------------------------------------------------------------------------------
  // Neighbour lists
  // ---------------------------------------------------------------------------------------

  function ItemsOf(dist: Distance, src: nat, list: seq<nat>): (r: seq<Item>)
    ensures |r| == |list| && forall i | 0 <= i < |r| :: r[i] == Item(dist(src, list[i]), list[i])
  {
    seq(|list|, i requires 0 <= i < |list| => Item(dist(src, list[i]), list[i]))
  }

  /** A list that exceeds max is replaced by a selection from it. */
  function PrunedList(dist: Distance, src: nat, list: seq<nat>, max: nat): seq<nat> {
    if |list| <= max then list else Selected(dist, src, ItemsOf(dist, src, list), max)
  }

  function AddedList(dist: Distance, src: nat, dst: nat, list: seq<nat>, max: nat): seq<nat> {
    if dst in list then list else PrunedList(dist, src, list + [dst], max)
  }

  lemma {:induction false} ItemsAreDistinct(dist: Distance, src: nat, list: seq<nat>)
    requires NoRepeats(list)
    ensures DistinctIds(ItemsOf(dist, src, list))
  {
    if list != [] {
      var n := |list| - 1;
      var items, init := ItemsOf(dist, src, list), ItemsOf(dist, src, list[..n]);
      assert items == init + [Item(dist(src, list[n]), list[n])];
      ItemsAreDistinct(dist, src, list[..n]);
    }
  }

  /** A selection from a list takes members of the list, and all of them unless it is full. */
  lemma SelectedFromList(dist: Distance, src: nat, list: seq<nat>, max: nat)
    requires NoRepeats(list) && src !in list
    ensures var r := Selected(dist, src, ItemsOf(dist, src, list), max);
      NoRepeats(r) && |r| <= max && (forall y | y in r :: y in list) && (|r| < max ==> forall y | y in list :: y in r)
  {
    var items := ItemsOf(dist, src, list);
    var r := Selected(dist, src, items, max);
    ItemsAreDistinct(dist, src, list);
    SelectedIsProper(dist, src, items, max);
    forall y | y in r ensures y in list {
      assert IsId(items, y);
    }
    if |r| < max {
      forall i | 0 <= i < |list| ensures list[i] in r { assert items[i] in items; }
    }
  }

  ghost predicate OneLess(list: seq<nat>, r: seq<nat>, x: nat) {
    x in list && x !in r && forall y :: y in list <==> y in r || y == x
  }

  /** A prune removes exactly one neighbour from a list with one too many. */
  lemma PruneRemovesOne(dist: Distance, src: nat, list: seq<nat>, max: nat)
    requires NoRepeats(list) && src !in list && |list| == max + 1
    ensures var r := PrunedList(dist, src, list, max); |r| == max && NoRepeats(r) && exists x :: OneLess(list, r, x)
  {
    var r := PrunedList(dist, src, list, max);
    SelectedFromList(dist, src, list, max);
    if |r| < max {
      AtMostMembers(list, Members(r));
      SizeOfMembers(r);
    }
    OneMissing(list, r);
  }

  /**
   The one removed is the furthest that was not picked: blocked by a nearer pick, or the furthest of
   all if all others were picked.
   */
  lemma PruneRemovesFurthest(dist: Distance, src: nat, list: seq<nat>, max: nat) returns (q: nat)
    requires NoRepeats(list) && src !in list && |list| == max + 1
    ensures var s := Sorted(ItemsOf(dist, src, list), Less);
            && q < |s| && OneLess(list, PrunedList(dist, src, list, max), s[q].nodeId)
            && (forall j | q < j < |s| :: s[j].nodeId in Picked(dist, src, s, max))
            && (Blocked(dist, Picked(dist, src, s[..q], max), s[q]) ||
                (q == max && |Picked(dist, src, s[..q], max)| == max))
  {
    var items := ItemsOf(dist, src, list);
    var s := Sorted(items, Less);
    var picks, r := Picked(dist, src, s, max), PrunedList(dist, src, list, max);
    PruneRemovesOne(dist, src, list, max);
    var x :| OneLess(list, r, x);
    ItemsAreDistinct(dist, src, list);
    SortedKeepsIds(items);
    q := PlaceOfNode(dist, src, list, s, x);
    FilledExtends(src, picks, s, max);
    forall j | q < j < |s|
      ensures s[j].nodeId in picks
    {
      NodesOfSorted(dist, src, list, s, j);
      assert s[j].nodeId != x;
      if s[j].nodeId !in picks { FilledNearestFirst(src, picks, s, max, q, j); }
    }
    assert x !in picks;
    PicksSpread(dist, src, s, max, q);
    PickedIsShort(dist, src, s[..q], max);
  }

  lemma {:induction false} PickedIsShort(dist: Distance, src: nat, cands: seq<Item>, max: nat)
    ensures |Picked(dist, src, cands, max)| <= |cands| && |Picked(dist, src, cands, max)| <= max
  {
    if cands != [] { PickedIsShort(dist, src, cands[..|cands| - 1], max); }
  }

  lemma PlaceOfNode(dist: Distance, src: nat, list: seq<nat>, s: seq<Item>, x: nat) returns (q: nat)
    requires x in list && forall c :: c in s <==> c in ItemsOf(dist, src, list)
    ensures q < |s| && s[q].nodeId == x
  {
    var i :| 0 <= i < |list| && list[i] == x;
    assert ItemsOf(dist, src, list)[i] in ItemsOf(dist, src, list);
    q :| 0 <= q < |s| && s[q] == ItemsOf(dist, src, list)[i];
  }

  lemma NodesOfSorted(dist: Distance, src: nat, list: seq<nat>, s: seq<Item>, j: nat)
    requires j < |s| && (forall c :: c in s <==> c in ItemsOf(dist, src, list)) && DistinctIds(s)
    ensures s[j].nodeId in list && forall i | 0 <= i < |s| && i != j :: s[i].nodeId != s[j].nodeId
  {
    assert s[j] in s;
    var i :| 0 <= i < |list| && ItemsOf(dist, src, list)[i] == s[j];
    OnceEachMeansNoRepeats(s);
    forall i | 0 <= i < |s| && i != j
      ensures s[i].nodeId != s[j].nodeId
    {
      assert s[i] in s && s[i] != s[j];
    }
  }

  lemma OneMissing(list: seq<nat>, r: seq<nat>)
    requires NoRepeats(list) && NoRepeats(r) && |list| == |r| + 1 && forall y | y in r :: y in list
    ensures exists x :: OneLess(list, r, x)
  {
    SizeOfMembers(list);
    SizeOfMembers(r);
    var rest := Members(list) - Members(r);
    assert Members(r) <= Members(list) && |rest| == 1;
    var x :| x in rest;
    assert |rest - {x}| == 0;
    assert rest == {x};
    forall y ensures y in list <==> y in r || y == x {
      assert y in list && y !in r <==> y in rest;
    }
    assert OneLess(list, r, x);
  }

  // ---------------------------------------------------------------------------------------
  // Adjacency
  // ---------------------------------------------------------------------------------------

  /** No self loop, no duplicate, only nodes of who that reach the level, and at most LevelM of them. */
  ghost predicate ListOk(nodes: seq<Node>, who: set<nat>, m: nat, x: nat, level: nat, list: seq<nat>) {
    NoRepeats(list) && x !in list && |list| <= LevelM(m, level) &&
      forall y | y in list :: y in who && HasLevel(nodes, y, level)
  }

  ghost predicate ListsOk(nodes: seq<Node>, who: set<nat>, m: nat, x: nat)
    requires x < |nodes| && |nodes[x].neighbors| == nodes[x].level + 1
  {
    forall level | 0 <= level <= nodes[x].level :: ListOk(nodes, who, m, x, level, nodes[x].neighbors[level])
  }

  ghost predicate Adjacency(nodes: seq<Node>, who: set<nat>, m: nat) {
    forall x {:trigger nodes[x]} | 0 <= x < |nodes| ::
      |nodes[x].neighbors| == nodes[x].level + 1 && ListsOk(nodes, who, m, x)
  }

  lemma AdjacencyIsShaped(nodes: seq<Node>, who: set<nat>, m: nat)
    requires Adjacency(nodes, who, m)
    ensures Shaped(nodes)
  {
    forall x, l, i | 0 <= x < |nodes| && 0 <= l < |nodes[x].neighbors| && 0 <= i < |nodes[x].neighbors[l]|
      ensures nodes[x].neighbors[l][i] < |nodes|
    {
      assert ListOk(nodes, who, m, x, l, nodes[x].neighbors[l]);
      assert nodes[x].neighbors[l][i] in nodes[x].neighbors[l];
    }
  }

  lemma AdjacencyGrows(nodes: seq<Node>, who: set<nat>, who': set<nat>, m: nat)
    requires Adjacency(nodes, who, m) && who <= who'
    ensures Adjacency(nodes, who', m)
  {
    forall x | 0 <= x < |nodes| ensures |nodes[x].neighbors| == nodes[x].level + 1 && ListsOk(nodes, who', m, x) {
      assert ListsOk(nodes, who, m, x);
      forall level | 0 <= level <= nodes[x].level ensures ListOk(nodes, who', m, x, level, nodes[x].neighbors[level]) {
        assert ListOk(nodes, who, m, x, level, nodes[x].neighbors[level]);
      }
    }
  }

  ghost predicate SameLevels(nodes: seq<Node>, nodes': seq<Node>) {
    |nodes| == |nodes'| && forall x | 0 <= x < |nodes| :: nodes[x].level == nodes'[x].level
  }

  function SetList(nodes: seq<Node>, x: nat, level: nat, list: seq<nat>): (r: seq<Node>)
    requires x < |nodes| && level < |nodes[x].neighbors|
    ensures SameLevels(nodes, r)
  {
    nodes[x := nodes[x].(neighbors := nodes[x].neighbors[level := list])]
  }

  lemma SetToSame(nodes: seq<Node>, x: nat, level: nat)
    requires x < |nodes| && level < |nodes[x].neighbors|
    ensures SetList(nodes, x, level, nodes[x].neighbors[level]) == nodes
  {
    var lists := nodes[x].neighbors;
    assert lists[level := lists[level]] == lists;
    assert nodes[x].(neighbors := lists) == nodes[x];
  }

  lemma SetTwice(nodes: seq<Node>, x: nat, level: nat, a: seq<nat>, b: seq<nat>)
    requires x < |nodes| && level < |nodes[x].neighbors|
    ensures SetList(SetList(nodes, x, level, a), x, level, b) == SetList(nodes, x, level, b)
  {
    var lists := nodes[x].neighbors;
    assert lists[level := a][level := b] == lists[level := b];
  }

  lemma SetListKeepsAdjacency(nodes: seq<Node>, who: set<nat>, m: nat, x: nat, level: nat, list: seq<nat>)
    requires Adjacency(nodes, who, m) && HasLevel(nodes, x, level) && ListOk(nodes, who, m, x, level, list)
    ensures Adjacency(SetList(nodes, x, level, list), who, m)
  {
    var r := SetList(nodes, x, level, list);
    forall y, l | 0 <= y < |r| && 0 <= l <= r[y].level ensures ListOk(r, who, m, y, l, r[y].neighbors[l]) {
      assert ListOk(nodes, who, m, y, l, nodes[y].neighbors[l]);
    }
  }

  ghost predicate FullLevels(nodes: seq<Node>) {
    forall x | 0 <= x < |nodes| :: |nodes[x].neighbors| == nodes[x].level + 1
  }

  /** The nodes after TqGraphAddNeighbor. */
  ghost function WithNeighbor(nodes: seq<Node>, dist: Distance, m: nat, src: nat, dst: nat, level: nat): (r: seq<Node>)
    requires FullLevels(nodes)
    ensures FullLevels(r) && SameLevels(nodes, r)
    ensures forall x | 0 <= x < |nodes| && x != src :: r[x] == nodes[x]
  {
    if src == dst || !HasLevel(nodes, src, level) || !HasLevel(nodes, dst, level) then nodes
    else SetList(nodes, src, level, AddedList(dist, src, dst, nodes[src].neighbors[level], LevelM(m, level)))
  }

  lemma AddKeepsAdjacency(nodes: seq<Node>, who: set<nat>, dist: Distance, m: nat, src: nat, dst: nat, level: nat)
    requires Adjacency(nodes, who, m) && dst in who
    ensures Adjacency(WithNeighbor(nodes, dist, m, src, dst, level), who, m)
    ensures SameLevels(nodes, WithNeighbor(nodes, dist, m, src, dst, level))
  {
    if src != dst && HasLevel(nodes, src, level) && HasLevel(nodes, dst, level) {
      var list := nodes[src].neighbors[level];
      assert ListOk(nodes, who, m, src, level, list);
      if dst !in list {
        if |list| == LevelM(m, level) { PruneRemovesOne(dist, src, list + [dst], LevelM(m, level)); }
        var x :| |list| == LevelM(m, level) ==>
          OneLess(list + [dst], AddedList(dist, src, dst, list, LevelM(m, level)), x);
      }
      SetListKeepsAdjacency(nodes, who, m, src, level, AddedList(dist, src, dst, list, LevelM(m, level)));
    }
  }

  /** The nodes after i was added to the lists of all selected nodes. */
  ghost function LinkedBack(nodes: seq<Node>, dist: Distance, m: nat, selected: seq<nat>, i: nat,
                            level: nat): (r: seq<Node>)
    requires FullLevels(nodes)
    ensures FullLevels(r) && SameLevels(nodes, r)
  {
    if selected == [] then nodes
    else
      var n := |selected| - 1;
      WithNeighbor(LinkedBack(nodes, dist, m, selected[..n], i, level), dist, m, selected[n], i, level)
  }

  lemma {:induction false} LinkedBackLeaves(nodes: seq<Node>, dist: Distance, m: nat, selected: seq<nat>, i: nat,
                                            level: nat, x: nat)
    requires FullLevels(nodes) && x < |nodes| && x !in selected
    ensures LinkedBack(nodes, dist, m, selected, i, level)[x] == nodes[x]
  {
    if selected != [] {
      assert selected == selected[..|selected| - 1] + [selected[|selected| - 1]];
      LinkedBackLeaves(nodes, dist, m, selected[..|selected| - 1], i, level, x);
    }
  }

  /** A neighbour is appended while there is room; in a full list the furthest that is not picked makes way. */
  lemma AddedListIs(dist: Distance, src: nat, dst: nat, list: seq<nat>, max: nat) returns (q: nat)
    requires NoRepeats(list) && src !in list && src != dst && |list| <= max
    ensures dst in list ==> AddedList(dist, src, dst, list, max) == list
    ensures dst !in list && |list| < max ==> AddedList(dist, src, dst, list, max) == list + [dst]
    ensures dst !in list && |list| == max ==>
              var s := Sorted(ItemsOf(dist, src, list + [dst]), Less);
              && q < |s| && OneLess(list + [dst], AddedList(dist, src, dst, list, max), s[q].nodeId)
              && (forall j | q < j < |s| :: s[j].nodeId in Picked(dist, src, s, max))
              && (Blocked(dist, Picked(dist, src, s[..q], max), s[q]) || q == max)
  {
    q := 0;
    if dst !in list && |list| == max { q := PruneRemovesFurthest(dist, src, list + [dst], max); }
  }

  /** An addition sees the list of the node that it changes and no other. */
  lemma AddIsLocal(nodes: seq<Node>, nodes': seq<Node>, dist: Distance, m: nat, src: nat, dst: nat, level: nat)
    requires FullLevels(nodes) && FullLevels(nodes') && SameLevels(nodes, nodes')
    requires src < |nodes| && nodes[src] == nodes'[src] && src != dst && HasLevel(nodes, src, level)
    requires HasLevel(nodes, dst, level)
    ensures WithNeighbor(nodes', dist, m, src, dst, level)[src] ==
            SetList(nodes, src, level, AddedList(dist, src, dst, nodes[src].neighbors[level], LevelM(m, level)))[src]
    ensures forall x | 0 <= x < |nodes| && x != src :: WithNeighbor(nodes', dist, m, src, dst, level)[x] == nodes'[x]
  {
  }

  /**
   Every selected node has got i into its list at that level, as far as the list has room for it;
   nothing else changes.
   */
  lemma {:induction false} LinkedBackIs(nodes: seq<Node>, dist: Distance, m: nat, selected: seq<nat>, i: nat,
                                        level: nat, s: nat)
    requires FullLevels(nodes) && NoRepeats(selected) && s in selected && s != i
    requires HasLevel(nodes, s, level) && HasLevel(nodes, i, level)
    ensures LinkedBack(nodes, dist, m, selected, i, level)[s] ==
            SetList(nodes, s, level, AddedList(dist, s, i, nodes[s].neighbors[level], LevelM(m, level)))[s]
    ensures i !in nodes[s].neighbors[level] && |nodes[s].neighbors[level]| < (if level == 0 then 2 * m else m) ==>
            LinkedBack(nodes, dist, m, selected, i, level)[s].neighbors[level] == nodes[s].neighbors[level] + [i]
  {
    var n := |selected| - 1;
    var before := LinkedBack(nodes, dist, m, selected[..n], i, level);
    var last := selected[n];
    if s == last {
      LinkedBackLeaves(nodes, dist, m, selected[..n], i, level, s);
      AddIsLocal(nodes, before, dist, m, s, i, level);
    } else {
      LinkedBackIs(nodes, dist, m, selected[..n], i, level, s);
      assert WithNeighbor(before, dist, m, last, i, level)[s] == before[s];
    }
  }

  // ---------------------------------------------------------------------------------------
  // What an insertion does, level by level
  // ---------------------------------------------------------------------------------------

  /**
   The link step of one level: the nodes and the entry before, what the search found, the nodes and the
   entry after.
   */
  datatype Link = Link(level: nat, before: seq<Node>, entry: Item, cells: seq<Item>, near: set<Item>,
                       visited: seq<nat>, turns: seq<Turn>, after: seq<Node>, next: Item)

  /** Node i selects from what a search of the level finds and is linked back by all that it selects. */
  ghost predicate IsLink(inserted: seq<bool>, dist: Distance, m: nat, ef: nat, i: nat, link: Link) {
    && FullLevels(link.before) && HasLevel(link.before, i, link.level)
    && var l := QueryLayer(link.before, inserted, link.level, dist, i);
    && l.Valid() && HeapOf(link.cells, link.near, Greater)
    && Found(l, ef, link.entry.nodeId, link.near, link.visited) && IsFirst(link.next, link.near, Less)
    && IsSearch(l, ef, link.entry.nodeId, link.near, link.visited, link.turns)
    && var selected := Selected(dist, i, link.cells, LevelM(m, link.level));
       link.after == LinkedBack(SetList(link.before, i, link.level, selected), dist, m, selected, i, link.level)
  }

  /** The links so far start from the given nodes and entry and have led to nodes' and entry'. */
  ghost predicate LeadTo(links: seq<Link>, nodes: seq<Node>, entry: Item, nodes': seq<Node>, entry': Item) {
    && (links == [] ==> nodes' == nodes && entry' == entry)
    && (links != [] ==> links[0].before == nodes && links[0].entry == entry)
    && (links != [] ==> nodes' == links[|links| - 1].after && entry' == links[|links| - 1].next)
    && forall k | 0 < k < |links| :: links[k].before == links[k - 1].after && links[k].entry == links[k - 1].next
  }

  /** One link step for every level from top down. */
  ghost predicate AreLinks(inserted: seq<bool>, dist: Distance, m: nat, ef: nat, i: nat, top: nat, links: seq<Link>) {
    && |links| <= top + 1
    && forall k {:trigger LinkAt(inserted, dist, m, ef, i, top, links, k)} | 0 <= k < |links| ::
         LinkAt(inserted, dist, m, ef, i, top, links, k)
  }

  ghost predicate LinkAt(inserted: seq<bool>, dist: Distance, m: nat, ef: nat, i: nat, top: nat, links: seq<Link>,
                         k: nat)
    requires k < |links| <= top + 1
  {
    links[k].level == top - k && IsLink(inserted, dist, m, ef, i, links[k])
  }

  lemma OneMoreLink(inserted: seq<bool>, dist: Distance, m: nat, ef: nat, i: nat, top: nat, links: seq<Link>,
                    link: Link)
    requires AreLinks(inserted, dist, m, ef, i, top, links) && |links| + link.level == top
    requires IsLink(inserted, dist, m, ef, i, link)
    ensures AreLinks(inserted, dist, m, ef, i, top, links + [link])
  {
    forall k | 0 <= k < |links| + 1
      ensures LinkAt(inserted, dist, m, ef, i, top, links + [link], k)
    {
      if k < |links| { assert LinkAt(inserted, dist, m, ef, i, top, links, k); }
    }
  }

  /** The links made so far for one node, with the nodes and the entry that they started from. */
  datatype LinkRun = LinkRun(first: seq<Node>, entry: Item, links: seq<Link>)

  ghost predicate SameStart(run: LinkRun, run': LinkRun) {
    run'.first == run.first && run'.entry == run.entry
  }

  /** Node i has got its lists from level top down to the one above the given level. */
  ghost predicate Linking(nodes: seq<Node>, dist: Distance, m: nat, ef: nat, i: nat, top: nat, level: int,
                          levelEntry: Item, inserted: seq<bool>, who: set<nat>, run: LinkRun)
  {
    && -1 <= level <= top && FullLevels(nodes) && i < |nodes| && top <= nodes[i].level &&
       NeverEmptied(run.first, nodes, i)
    && levelEntry.nodeId in who && levelEntry == Item(dist(i, levelEntry.nodeId), levelEntry.nodeId)
    && (level >= 0 ==> HasLevel(nodes, levelEntry.nodeId, level))
    && (forall l | level < l <= top :: nodes[i].neighbors[l] != [])
    && AreLinks(inserted, dist, m, ef, i, top, run.links) && |run.links| == top - level
    && LeadTo(run.links, run.first, run.entry, nodes, levelEntry)
  }

  lemma OneMoreLevel(nodes: seq<Node>, nodes': seq<Node>, dist: Distance, m: nat, ef: nat, i: nat, top: nat,
                     level: nat, inserted: seq<bool>, who: set<nat>, run: LinkRun, link: Link)
    returns (run': LinkRun)
    requires Linking(nodes, dist, m, ef, i, top, level, link.entry, inserted, who, run)
    requires AreLinks(inserted, dist, m, ef, i, top, run.links + [link]) && link.before == nodes && link.after == nodes'
    requires SameLevels(nodes, nodes') && FullLevels(nodes') && NeverEmptied(nodes, nodes', i)
    requires link.next.nodeId in who && link.next == Item(dist(i, link.next.nodeId), link.next.nodeId)
    requires HasLevel(nodes', link.next.nodeId, level) && nodes'[i].neighbors[level] != []
    requires forall l | level < l <= nodes'[i].level :: nodes'[i].neighbors[l] == nodes[i].neighbors[l]
    ensures Linking(nodes', dist, m, ef, i, top, level - 1, link.next, inserted, who, run') && SameStart(run, run')
  {
    NeverEmptiedAgain(run.first, nodes, nodes', i);
    run' := run.(links := run.links + [link]);
  }

  /** A greedy search of one level after another, from the given one down. */
  ghost predicate IsDescent(nodes: seq<Node>, inserted: seq<bool>, dist: Distance, i: nat, from: nat, path: seq<Item>) {
    && 0 < |path| <= from + 1
    && forall k {:trigger DescentAt(nodes, inserted, dist, i, from, path, k)} | 0 <= k < |path| - 1 ::
         DescentAt(nodes, inserted, dist, i, from, path, k)
  }

  ghost predicate DescentAt(nodes: seq<Node>, inserted: seq<bool>, dist: Distance, i: nat, from: nat, path: seq<Item>,
                            k: nat)
    requires k < |path| - 1 <= from
  {
    var l := QueryLayer(nodes, inserted, from - k, dist, i);
    l.Valid() && Standing(l, path[k], path[k + 1]) && LocalMinimum(l, path[k + 1].nodeId)
  }

  lemma OneMoreDescent(nodes: seq<Node>, inserted: seq<bool>, dist: Distance, i: nat, from: nat, path: seq<Item>,
                       x: Item)
    requires IsDescent(nodes, inserted, dist, i, from, path) && |path| <= from
    requires var l := QueryLayer(nodes, inserted, from - (|path| - 1), dist, i);
             l.Valid() && Standing(l, path[|path| - 1], x) && LocalMinimum(l, x.nodeId)
    ensures IsDescent(nodes, inserted, dist, i, from, path + [x])
  {
    forall k | 0 <= k < |path|
      ensures DescentAt(nodes, inserted, dist, i, from, path + [x], k)
    {
      if k < |path| - 1 { assert DescentAt(nodes, inserted, dist, i, from, path, k); }
    }
  }

  function Lower(a: nat, b: nat): nat { if a <= b then a else b }

  /** The descent from the entry at the top level to that of node i, and then the links from there down. */
  ghost predicate IsInsertion(nodes: seq<Node>, nodes': seq<Node>, entry: nat, maxLevel: nat, inserted: seq<bool>,
                              dist: Distance, m: nat, ef: nat, i: nat, path: seq<Item>, links: seq<Link>)
  {
    && i < |nodes| && path != [] && path[0] == Item(dist(i, entry), entry)
    && IsDescent(nodes, inserted, dist, i, maxLevel, path) && |path| - 1 == maxLevel - Lower(nodes[i].level, maxLevel)
    && AreLinks(inserted, dist, m, ef, i, Lower(nodes[i].level, maxLevel), links)
    && |links| == Lower(nodes[i].level, maxLevel) + 1
    && LeadTo(links, nodes, path[|path| - 1], nodes', links[|links| - 1].next)
  }

  /** The graph once one more node is inserted, and how that went. */
  datatype Stage = Stage(nodes: seq<Node>, entry: nat, maxLevel: nat, inserted: seq<bool>, path: seq<Item>,
                         links: seq<Link>)

  function Wider(a: nat, b: nat): nat { if a < b then b else a }

  /** Each stage is the one before with the next node of the order inserted, which becomes the entry if it is higher. */
  ghost predicate IsHistory(order: seq<nat>, dist: Distance, m: nat, ef: nat, history: seq<Stage>) {
    && |history| <= |order|
    && forall k {:trigger StageAt(order, dist, m, ef, history, k)} | 0 < k < |history| ::
         StageAt(order, dist, m, ef, history, k)
  }

  ghost predicate StageAt(order: seq<nat>, dist: Distance, m: nat, ef: nat, history: seq<Stage>, k: nat)
    requires 0 < k < |history| <= |order|
  {
    Marked(history[k].inserted, Members(order[..k])) && IsStage(dist, m, ef, history[k - 1], history[k], order[k])
  }

  ghost predicate IsStage(dist: Distance, m: nat, ef: nat, a: Stage, b: Stage, i: nat) {
    && IsInsertion(a.nodes, b.nodes, a.entry, a.maxLevel, b.inserted, dist, m, ef, i, b.path, b.links)
    && b.maxLevel == Wider(a.maxLevel, a.nodes[i].level)
    && b.entry == if a.nodes[i].level > a.maxLevel then i else a.entry
  }

  lemma OneMoreStage(order: seq<nat>, dist: Distance, m: nat, ef: nat, history: seq<Stage>, stage: Stage)
    requires IsHistory(order, dist, m, ef, history) && 0 < |history| < |order|
    requires Marked(stage.inserted, Members(order[..|history|]))
    requires IsStage(dist, m, ef, history[|history| - 1], stage, order[|history|])
    ensures IsHistory(order, dist, m, ef, history + [stage])
  {
    forall k | 0 < k < |history| + 1
      ensures StageAt(order, dist, m, ef, history + [stage], k)
    {
      if k < |history| { assert StageAt(order, dist, m, ef, history, k); }
    }
  }

  /** A node has neighbours at every level up to top. */
  ghost predicate LinkedUpTo(nodes: seq<Node>, x: nat, top: int)
    requires FullLevels(nodes) && x < |nodes|
  {
    forall l | 0 <= l <= top && l <= nodes[x].level :: nodes[x].neighbors[l] != []
  }

  /** No list becomes empty by adding a neighbour somewhere. */
  lemma AddKeepsLinked(nodes: seq<Node>, who: set<nat>, dist: Distance, m: nat, src: nat, dst: nat, level: nat, x: nat,
                       l: nat)
    requires Adjacency(nodes, who, m) && m > 0 && x < |nodes| && l <= nodes[x].level && nodes[x].neighbors[l] != []
    ensures WithNeighbor(nodes, dist, m, src, dst, level)[x].neighbors[l] != []
  {
    if x == src && l == level && src != dst && HasLevel(nodes, dst, level) {
      var list := nodes[src].neighbors[level];
      assert ListOk(nodes, who, m, src, level, list);
      if dst !in list && |list| == LevelM(m, level) { PruneRemovesOne(dist, src, list + [dst], LevelM(m, level)); }
    }
  }

  // ---------------------------------------------------------------------------------------
  // TqGraphBuildGreedySearch
  // ---------------------------------------------------------------------------------------

  ghost function Nearer(l: Layer, d: real): set<nat> {
    set x: nat | x < |l.nodes| && l.dist(x) < d
  }

  /** No eligible neighbour is nearer. */
  ghost predicate LocalMinimum(l: Layer, x: nat)
    requires l.Valid()
  {
    forall y | y in l.Next()(x) :: l.dist(x) <= l.dist(y)
  }

  /** The node the search stands on: the entry itself or an eligible node that is nearer. */
  ghost predicate Standing(l: Layer, entry: Item, current: Item)
    requires l.Valid()
  {
    && current.nodeId < |l.nodes| && current == l.ItemOf(current.nodeId)
    && (current == entry || (l.Eligible(current.nodeId) && current.distance < entry.distance))
  }

  method GreedySearch(l: Layer, entry: Item) returns (current: Item)
    requires l.Valid() && entry.nodeId < |l.nodes| && entry == l.ItemOf(entry.nodeId)
    ensures Standing(l, entry, current) && LocalMinimum(l, current.nodeId)
  {
    current := entry;
    var changed := true;
    while changed
      invariant Standing(l, entry, current)
      invariant !changed ==> LocalMinimum(l, current.nodeId)
      decreases changed, |Nearer(l, current.distance)|
    {
      ghost var before := current;
      current, changed := GreedyPass(l, current);
      if changed { NearerShrinks(l, before.distance, current); }
    }
  }

  lemma NearerShrinks(l: Layer, d: real, x: Item)
    requires x.nodeId < |l.nodes| && x == l.ItemOf(x.nodeId) && x.distance < d
    ensures |Nearer(l, x.distance)| < |Nearer(l, d)|
  {
    assert x.nodeId in Nearer(l, d) && x.nodeId !in Nearer(l, x.distance);
    Larger(Nearer(l, x.distance), Nearer(l, d), x.nodeId);
  }

  /** One pass over the neighbours of the node it starts from, moving to any that is nearer than the last. */
  method GreedyPass(l: Layer, start: Item) returns (current: Item, changed: bool)
    requires l.Valid() && start.nodeId < |l.nodes| && start == l.ItemOf(start.nodeId)
    ensures Standing(l, start, current) && (changed <==> current != start)
    ensures !changed ==> LocalMinimum(l, start.nodeId)
  {
    current, changed := start, false;
    if !HasLevel(l.nodes, start.nodeId, l.level) { return; }
    var list := l.List(start.nodeId);
    for i := 0 to |list|
      invariant Standing(l, start, current) && (changed <==> current != start)
      invariant !changed ==>
                forall k | 0 <= k < i && list[k] < |l.nodes| && l.Eligible(list[k]) :: start.distance <= l.dist(list[k])
    {
      ListInRange(l, start.nodeId, i);
      var y := list[i];
      if l.inserted[y] && HasLevel(l.nodes, y, l.level) && l.dist(y) < current.distance {
        current, changed := Item(l.dist(y), y), true;
      }
    }
  }

  // ---------------------------------------------------------------------------------------
  // TqGraphBuildEdges
  // ---------------------------------------------------------------------------------------

  /** Everything a search visits is its entry or eligible. */
  lemma VisitedAreEligible(l: Layer, entry: nat, v: nat)
    requires l.Valid() && R.Reachable(l.Next(), entry, v)
    ensures v == entry || (v < |l.nodes| && l.Eligible(v))
  {
    var p :| R.IsPath(l.Next(), p, entry, v);
  }

  lemma FoundAreEligible(l: Layer, ef: nat, entry: nat, near: set<Item>, visited: seq<nat>, cells: seq<Item>)
    requires l.Valid() && entry < |l.nodes| && l.Eligible(entry) && Found(l, ef, entry, near, visited)
    requires HeapOf(cells, near, Greater)
    ensures DistinctIds(cells)
    ensures forall c | c in cells :: c.nodeId < |l.nodes| && l.Eligible(c.nodeId) && c == l.ItemOf(c.nodeId)
  {
    forall c | c in cells ensures c in near && multiset(cells)[c] == 1 {
      assert c in multiset(cells);
    }
    forall c | c in near ensures c.nodeId < |l.nodes| && l.Eligible(c.nodeId) {
      VisitedAreEligible(l, entry, c.nodeId);
    }
  }

  /** The nodes that are marked as inserted. */
  ghost predicate Marked(inserted: seq<bool>, who: set<nat>) {
    forall x: nat :: x in who <==> x < |inserted| && inserted[x]
  }

  lemma SelectionIsOk(l: Layer, who: set<nat>, dist: Distance, m: nat, i: nat, cells: seq<Item>)
    requires l.Valid() && DistinctIds(cells) && Marked(l.inserted, who)
    requires forall c | c in cells :: c.nodeId < |l.nodes| && l.Eligible(c.nodeId)
    ensures ListOk(l.nodes, who + {i}, m, i, l.level, Selected(dist, i, cells, LevelM(m, l.level)))
  {
    SelectedIsProper(dist, i, cells, LevelM(m, l.level));
    forall y | y in Selected(dist, i, cells, LevelM(m, l.level)) ensures y in who && HasLevel(l.nodes, y, l.level) {
      assert IsId(cells, y);
    }
  }

  /** What a search for node i sees at a level. */
  function QueryLayer(nodes: seq<Node>, inserted: seq<bool>, level: nat, dist: Distance, i: nat): Layer {
    Layer(nodes, inserted, level, (y: nat) => dist(i, y))
  }

  /** Lists that had members still have some; node i is not considered. */
  ghost predicate NeverEmptied(nodes: seq<Node>, nodes': seq<Node>, i: nat) {
    && SameLevels(nodes, nodes') && FullLevels(nodes) && FullLevels(nodes')
    && forall x | 0 <= x < |nodes| && x != i :: StaysLinked(nodes[x], nodes'[x])
  }

  ghost predicate StaysLinked(a: Node, b: Node) {
    |a.neighbors| == |b.neighbors| && forall l | 0 <= l < |a.neighbors| && a.neighbors[l] != [] :: b.neighbors[l] != []
  }

  lemma NeverEmptiedAgain(a: seq<Node>, b: seq<Node>, c: seq<Node>, i: nat)
    requires NeverEmptied(a, b, i) && NeverEmptied(b, c, i)
    ensures NeverEmptied(a, c, i)
  {
    forall x | 0 <= x < |a| && x != i ensures StaysLinked(a[x], c[x]) {
      assert StaysLinked(a[x], b[x]) && StaysLinked(b[x], c[x]);
    }
  }

  lemma NeverEmptiedAtFirst(nodes: seq<Node>, who: set<nat>, m: nat, i: nat)
    requires Adjacency(nodes, who, m)
    ensures NeverEmptied(nodes, nodes, i)
  {
  }

  lemma AddNeverEmpties(nodes: seq<Node>, who: set<nat>, dist: Distance, m: nat, src: nat, dst: nat, level: nat, i: nat)
    requires Adjacency(nodes, who, m) && m > 0
    ensures FullLevels(nodes) && NeverEmptied(nodes, WithNeighbor(nodes, dist, m, src, dst, level), i)
  {
    var r := WithNeighbor(nodes, dist, m, src, dst, level);
    forall x | 0 <= x < |nodes| && x != i ensures StaysLinked(nodes[x], r[x]) {
      forall l | 0 <= l < |nodes[x].neighbors| && nodes[x].neighbors[l] != [] ensures r[x].neighbors[l] != [] {
        AddKeepsLinked(nodes, who, dist, m, src, dst, level, x, l);
      }
    }
  }

  /** A search finds something, and node i selects something from it. */
  lemma FindsAndSelects(l: Layer, ef: nat, entry: nat, near: set<Item>, visited: seq<nat>, cells: seq<Item>,
                        dist: Distance, i: nat, max: nat)
    requires l.Valid() && ef > 0 && Found(l, ef, entry, near, visited) && HeapOf(cells, near, Greater) &&
             DistinctIds(cells)
    requires max > 0 && forall c | c in cells :: c.nodeId != i
    ensures cells != [] && Selected(dist, i, cells, max) != []
  {
    RootOf(cells, near, Greater);
    SelectedIsProper(dist, i, cells, max);
    assert |near| == |cells| && (l.ItemOf(entry) in near || |near| == ef);
    assert forall k | 0 <= k < |cells| :: cells[k] in cells;
  }

  /** An inserted node that reaches the level, at its distance from i. */
  ghost predicate IsCandidate(nodes: seq<Node>, who: set<nat>, dist: Distance, i: nat, level: nat, c: Item) {
    c.nodeId in who && HasLevel(nodes, c.nodeId, level) && c == Item(dist(i, c.nodeId), c.nodeId)
  }

  lemma SetNeverEmpties(nodes: seq<Node>, who: set<nat>, m: nat, i: nat, level: nat, list: seq<nat>)
    requires Adjacency(nodes, who, m) && HasLevel(nodes, i, level)
    ensures NeverEmptied(nodes, SetList(nodes, i, level, list), i)
  {
  }

  /** The first item of the sorted list is the nearest. */
  lemma NearestIsFirst(cells: seq<Item>, near: set<Item>)
    requires HeapOf(cells, near, Greater) && cells != []
    ensures IsFirst(Sorted(cells, Less)[0], near, Less) && Sorted(cells, Less)[0] in cells
  {
    OrdersAreWeak();
    SortedIsAscending(cells, Less);
    var s := Sorted(cells, Less);
    assert s[0] in multiset(s);
    forall x | x in near ensures !Less(x, s[0]) {
      assert x in multiset(cells) && x in multiset(s);
      var k :| 0 <= k < |s| && s[k] == x;
      assert k > 0 || x == s[0];
    }
  }

  /** All these nodes have neighbours at level 0. */
  ghost predicate HaveNeighbors(nodes: seq<Node>, xs: seq<nat>) {
    forall k | 0 <= k < |xs| :: xs[k] < |nodes| && |nodes[xs[k]].neighbors| > 0 && nodes[xs[k]].neighbors[0] != []
  }

  lemma OneMoreHasNeighbors(before: seq<Node>, nodes: seq<Node>, order: seq<nat>, k: nat, top: nat)
    requires 1 <= k < |order| && HaveNeighbors(before, order[1..k]) && order[k] < |nodes| && NoRepeats(order)
    requires NeverEmptied(before, nodes, order[k]) && LinkedUpTo(nodes, order[k], top)
    ensures HaveNeighbors(nodes, order[1..k + 1])
  {
    var xs := order[1..k + 1];
    forall j | 0 <= j < |xs|
      ensures xs[j] < |nodes| && |nodes[xs[j]].neighbors| > 0 && nodes[xs[j]].neighbors[0] != []
    {
      if j < k - 1 {
        assert order[1..k][j] == xs[j] && xs[j] != order[k];
        assert StaysLinked(before[xs[j]], nodes[xs[j]]);
      }
    }
  }

  class TqGraphBuildState {
    const m: nat
    const efConstruction: nat
    const dist: Distance
    var nodes: seq<Node>
    const buildVisitedGeneration: array<nat>
    var buildVisitGeneration: nat
    var entryNodeId: nat
    var maxLevel: nat

    ghost predicate Valid(who: set<nat>)
      reads this, buildVisitedGeneration
    {
      && m > 0 && Adjacency(nodes, who, m)
      && buildVisitedGeneration.Length == |nodes| && MarksValid(buildVisitedGeneration[..], buildVisitGeneration)
    }

    method PruneNeighbors(src: nat, level: nat)
      requires src < |nodes| && level < |nodes[src].neighbors|
      modifies this`nodes
      ensures nodes == if HasLevel(old(nodes), src, level)
                then SetList(old(nodes), src, level,
                             PrunedList(dist, src, old(nodes)[src].neighbors[level], LevelM(m, level)))
                else old(nodes)
    {
      if !HasLevel(nodes, src, level) { return; }
      var list := nodes[src].neighbors[level];
      if |list| > LevelM(m, level) {
        var selected := SelectNeighbors(dist, src, ItemsOf(dist, src, list), LevelM(m, level));
        nodes := SetList(nodes, src, level, selected);
      } else {
        SetToSame(nodes, src, level);
      }
    }

    method AddNeighbor(src: nat, dst: nat, level: nat)
      requires FullLevels(nodes)
      modifies this`nodes
      ensures nodes == WithNeighbor(old(nodes), dist, m, src, dst, level)
    {
      if src == dst || !HasLevel(nodes, src, level) || !HasLevel(nodes, dst, level) { return; }
      var list := nodes[src].neighbors[level];
      if dst in list {
        SetToSame(nodes, src, level);
        return;
      }
      ghost var before := nodes;
      nodes := SetList(nodes, src, level, list + [dst]);
      if |list| >= LevelM(m, level) {
        PruneNeighbors(src, level);
        SetTwice(before, src, level, list + [dst], nodes[src].neighbors[level]);
      }
    }

    /**
     Searches the level from levelEntry, links i to what it selects there and back, and returns the
     nearest node found.
     */
    method LinkLevel(i: nat, level: nat, levelEntry: Item, ef: nat, nearest: array<Item>, inserted: seq<bool>,
                     ghost who: set<nat>)
      returns (next: Item, ghost link: Link)
      requires Valid(who + {i}) && Marked(inserted, who) && |inserted| == |nodes| && HasLevel(nodes, i, level) &&
               i !in who
      requires 0 < ef <= nearest.Length
      requires levelEntry.nodeId in who && HasLevel(nodes, levelEntry.nodeId, level)
      requires levelEntry == Item(dist(i, levelEntry.nodeId), levelEntry.nodeId)
      modifies this`nodes, this`buildVisitGeneration, buildVisitedGeneration, nearest
      ensures Valid(who + {i}) && SameLevels(old(nodes), nodes)
      ensures IsLink(inserted, dist, m, ef, i, link) && link.level == level && link.before == old(nodes) &&
              link.entry == levelEntry &&
              link.after == nodes && link.next == next
      ensures FullLevels(nodes) && i !in Selected(dist, i, link.cells, LevelM(m, level)) &&
              Selected(dist, i, link.cells, LevelM(m, level)) != []
      ensures next.nodeId in who && next == Item(dist(i, next.nodeId), next.nodeId)
      ensures HasLevel(nodes, next.nodeId, level) && NeverEmptied(old(nodes), nodes, i)
    {
      var found;
      ghost var near, visited, turns;
      found, near, visited, turns := FindCandidates(i, level, levelEntry, ef, nearest, inserted, who);
      var selected := SelectNeighbors(dist, i, found, LevelM(m, level));
      SetListKeepsAdjacency(nodes, who + {i}, m, i, level, selected);
      AdjacencyIsShaped(nodes, who + {i}, m);
      SetNeverEmpties(nodes, who + {i}, m, i, level, selected);
      ghost var before, own := nodes, SetList(nodes, i, level, selected);
      nodes := SetList(nodes, i, level, selected);
      LinkBack(selected, i, level, who + {i});
      NeverEmptiedAgain(before, own, nodes, i);
      var sorted := Sort(found, Less);
      next := sorted[0];
      link := Link(level, before, levelEntry, found, near, visited, turns, nodes, next);
    }

    /** The search of a level for node i, and what the selection and the next level need to know about its result. */
    method FindCandidates(i: nat, level: nat, levelEntry: Item, ef: nat, nearest: array<Item>, inserted: seq<bool>,
                          ghost who: set<nat>)
      returns (found: seq<Item>, ghost near: set<Item>, ghost visited: seq<nat>, ghost turns: seq<Turn>)
      requires Valid(who + {i}) && Marked(inserted, who) && |inserted| == |nodes| && HasLevel(nodes, i, level) &&
               i !in who
      requires 0 < ef <= nearest.Length
      requires levelEntry.nodeId in who && HasLevel(nodes, levelEntry.nodeId, level)
      requires levelEntry == Item(dist(i, levelEntry.nodeId), levelEntry.nodeId)
      modifies this`buildVisitGeneration, buildVisitedGeneration, nearest
      ensures Valid(who + {i})
      ensures var l := QueryLayer(nodes, inserted, level, dist, i);
        && l.Valid() && HeapOf(found, near, Greater) && Found(l, ef, levelEntry.nodeId, near, visited)
        && IsSearch(l, ef, levelEntry.nodeId, near, visited, turns)
      ensures found != [] && IsCandidate(nodes, who, dist, i, level, Sorted(found, Less)[0]) &&
              IsFirst(Sorted(found, Less)[0], near, Less)
      ensures var selected := Selected(dist, i, found, LevelM(m, level));
        ListOk(nodes, who + {i}, m, i, level, selected) && selected != []
    {
      AdjacencyIsShaped(nodes, who + {i}, m);
      var l := QueryLayer(nodes, inserted, level, dist, i);
      var count;
      count, buildVisitGeneration, near, visited, turns :=
        SearchLayer(l, levelEntry, ef, LevelM(m, level), nearest, buildVisitedGeneration, buildVisitGeneration);
      found := nearest[..count];
      FoundAreEligible(l, ef, levelEntry.nodeId, near, visited, found);
      SelectionIsOk(l, who, dist, m, i, found);
      FindsAndSelects(l, ef, levelEntry.nodeId, near, visited, found, dist, i, LevelM(m, level));
      NearestIsFirst(found, near);
    }

    method LinkBack(selected: seq<nat>, i: nat, level: nat, ghost who: set<nat>)
      requires Valid(who) && i in who
      modifies this`nodes
      ensures Valid(who) && FullLevels(old(nodes)) && NeverEmptied(old(nodes), nodes, i)
      ensures nodes == LinkedBack(old(nodes), dist, m, selected, i, level)
    {
      for j := 0 to |selected|
        invariant Valid(who) && FullLevels(old(nodes)) && NeverEmptied(old(nodes), nodes, i)
        invariant nodes == LinkedBack(old(nodes), dist, m, selected[..j], i, level)
      {
        assert selected[..j + 1][..j] == selected[..j];
        AddKeepsAdjacency(nodes, who, dist, m, selected[j], i, level);
        AddNeverEmpties(nodes, who, dist, m, selected[j], i, level, i);
        NeverEmptiedAgain(old(nodes), nodes, WithNeighbor(nodes, dist, m, selected[j], i, level), i);
        AddNeighbor(selected[j], i, level);
      }
      assert selected[..|selected|] == selected;
    }

    /**
     Inserts node i: the descent to its level, then one link step for every level it shares with the entry.
     At each of those levels it gets neighbours.
     */
    method InsertNode(i: nat, ef: nat, nearest: array<Item>, inserted: seq<bool>, ghost who: set<nat>)
      returns (ghost path: seq<Item>, ghost links: seq<Link>)
      requires Valid(who) && Marked(inserted, who) && |inserted| == |nodes| && i < |nodes| && i !in who
      requires 0 < ef <= nearest.Length
      requires entryNodeId in who && nodes[entryNodeId].level == maxLevel &&
               forall x | x in who :: nodes[x].level <= maxLevel
      modifies this, buildVisitedGeneration, nearest
      ensures Valid(who + {i}) && SameLevels(old(nodes), nodes)
      ensures entryNodeId in who + {i} && nodes[entryNodeId].level == maxLevel
      ensures maxLevel == Wider(old(maxLevel), old(nodes)[i].level)
      ensures forall x | x in who + {i} :: nodes[x].level <= maxLevel
      ensures NeverEmptied(old(nodes), nodes, i) && LinkedUpTo(nodes, i, old(maxLevel))
      ensures IsInsertion(old(nodes), nodes, old(entryNodeId), old(maxLevel), inserted, dist, m, ef, i, path, links)
      ensures entryNodeId == if old(nodes)[i].level > old(maxLevel) then i else old(entryNodeId)
    {
      var levelEntry := Item(dist(i, entryNodeId), entryNodeId);
      var nodeLevel := nodes[i].level;
      AdjacencyIsShaped(nodes, who, m);
      levelEntry, path := Descend(i, nodeLevel, levelEntry, inserted, who);
      AdjacencyGrows(nodes, who, who + {i}, m);
      links := LinkLevels(i, if nodeLevel <= maxLevel then nodeLevel
                          else maxLevel, levelEntry, ef, nearest, inserted, who);
      if nodeLevel > maxLevel {
        entryNodeId, maxLevel := i, nodeLevel;
      }
    }

    /** One level more; i gets a list there and keeps its other ones. */
    method LinkNext(i: nat, level: nat, levelEntry: Item, ef: nat, nearest: array<Item>, inserted: seq<bool>,
                    ghost who: set<nat>, ghost top: nat, ghost run: LinkRun)
      returns (next: Item, ghost run': LinkRun)
      requires Valid(who + {i}) && Marked(inserted, who) && |inserted| == |nodes| && i !in who &&
               0 < ef <= nearest.Length
      requires i < |nodes| && top <= nodes[i].level
      requires Linking(nodes, dist, m, ef, i, top, level, levelEntry, inserted, who, run)
      modifies this`nodes, this`buildVisitGeneration, buildVisitedGeneration, nearest
      ensures Valid(who + {i}) && SameLevels(old(nodes), nodes)
      ensures Linking(nodes, dist, m, ef, i, top, level - 1, next, inserted, who, run') && SameStart(run, run')
    {
      ghost var before := nodes;
      ghost var link;
      next, link := LinkLevel(i, level, levelEntry, ef, nearest, inserted, who);
      ghost var selected := Selected(dist, i, link.cells, LevelM(m, level));
      LinkedBackLeaves(SetList(before, i, level, selected), dist, m, selected, i, level, i);
      OneMoreLink(inserted, dist, m, ef, i, top, run.links, link);
      run' := OneMoreLevel(before, nodes, dist, m, ef, i, top, level, inserted, who, run, link);
    }

    method LinkLevels(i: nat, top: nat, entry: Item, ef: nat, nearest: array<Item>, inserted: seq<bool>,
                      ghost who: set<nat>)
      returns (ghost links: seq<Link>)
      requires Valid(who + {i}) && Marked(inserted, who) && |inserted| == |nodes| && i < |nodes| && i !in who
      requires 0 < ef <= nearest.Length && top <= nodes[i].level
      requires entry.nodeId in who && entry == Item(dist(i, entry.nodeId), entry.nodeId) &&
               HasLevel(nodes, entry.nodeId, top)
      modifies this`nodes, this`buildVisitGeneration, buildVisitedGeneration, nearest
      ensures Valid(who + {i}) && NeverEmptied(old(nodes), nodes, i) && LinkedUpTo(nodes, i, top)
      ensures AreLinks(inserted, dist, m, ef, i, top, links) && |links| == top + 1
      ensures LeadTo(links, old(nodes), entry, nodes, links[top].next)
    {
      var levelEntry := entry;
      var level: int := top;
      NeverEmptiedAtFirst(nodes, who + {i}, m, i);
      ghost var first := LinkRun(nodes, entry, []);
      ghost var run := first;
      while level >= 0
        invariant Valid(who + {i}) && SameLevels(old(nodes), nodes)
        invariant Linking(nodes, dist, m, ef, i, top, level, levelEntry, inserted, who, run) && SameStart(first, run)
      {
        if HasLevel(nodes, levelEntry.nodeId, level) {
          levelEntry, run := LinkNext(i, level, levelEntry, ef, nearest, inserted, who, top, run);
        }
        level := level - 1;
      }
      links := run.links;
    }

    method Descend(i: nat, nodeLevel: nat, entry: Item, inserted: seq<bool>, ghost who: set<nat>)
      returns (levelEntry: Item, ghost path: seq<Item>)
      requires Shaped(nodes) && Marked(inserted, who) && |inserted| == |nodes| &&
               HasLevel(nodes, entry.nodeId, maxLevel)
      requires entry.nodeId in who && entry == Item(dist(i, entry.nodeId), entry.nodeId)
      ensures levelEntry.nodeId in who && levelEntry == Item(dist(i, levelEntry.nodeId), levelEntry.nodeId)
      ensures levelEntry.distance <= entry.distance
      ensures HasLevel(nodes, levelEntry.nodeId, Lower(nodeLevel, maxLevel))
      ensures IsDescent(nodes, inserted, dist, i, maxLevel, path) && |path| - 1 == maxLevel - Lower(nodeLevel, maxLevel)
      ensures path[0] == entry && path[|path| - 1] == levelEntry
    {
      levelEntry := entry;
      path := [entry];
      var level: nat := maxLevel;
      while level > nodeLevel
        invariant levelEntry.nodeId in who && levelEntry == Item(dist(i, levelEntry.nodeId), levelEntry.nodeId)
        invariant levelEntry.distance <= entry.distance
        invariant level <= maxLevel && HasLevel(nodes, levelEntry.nodeId, level) && Lower(nodeLevel, maxLevel) <= level
        invariant IsDescent(nodes, inserted, dist, i, maxLevel, path) && |path| - 1 == maxLevel - level
        invariant path[0] == entry && path[|path| - 1] == levelEntry
      {
        if HasLevel(nodes, levelEntry.nodeId, level) {
          var l := QueryLayer(nodes, inserted, level, dist, i);
          levelEntry := GreedySearch(l, levelEntry);
          OneMoreDescent(nodes, inserted, dist, i, maxLevel, path, levelEntry);
          path := path + [levelEntry];
        }
        level := level - 1;
      }
    }

    /** The first k nodes of the build order are inserted. */
    ghost predicate Built(order: seq<nat>, k: nat, inserted: seq<bool>, who: set<nat>)
      reads this, buildVisitedGeneration
    {
      && Valid(who) && 0 < k <= |order| && who == Members(order[..k]) && |inserted| == |nodes| && Marked(inserted, who)
      && entryNodeId in who && entryNodeId < |nodes| && nodes[entryNodeId].level == maxLevel
      && (forall x | x in who :: x < |nodes| && nodes[x].level <= maxLevel)
      && HaveNeighbors(nodes, order[1..k])
    }

    /** The entry and the nodes once the first k nodes of the order are inserted. */
    ghost predicate Recorded(order: seq<nat>, k: nat, ef: nat, history: seq<Stage>)
      reads this
    {
      && |history| == k && k > 0 && history[k - 1].nodes == nodes
      && history[k - 1].entry == entryNodeId && history[k - 1].maxLevel == maxLevel
      && IsHistory(order, dist, m, ef, history)
    }

    ghost predicate IsOrder(order: seq<nat>, n: nat) {
      NoRepeats(order) && forall x: nat :: x in order <==> x < n
    }

    /** The first node of the order becomes the entry. */
    method InsertFirst(order: seq<nat>) returns (inserted: seq<bool>)
      requires Valid({}) && IsOrder(order, |nodes|) && order != []
      modifies this`buildVisitGeneration, this`entryNodeId, this`maxLevel, buildVisitedGeneration
      ensures Built(order, 1, inserted, {order[0]}) && entryNodeId == order[0]
    {
      buildVisitGeneration := 0;
      for x := 0 to buildVisitedGeneration.Length
        invariant buildVisitGeneration == 0 && forall y | 0 <= y < x :: buildVisitedGeneration[y] == 0
      {
        buildVisitedGeneration[x] := 0;
      }
      assert order[0] in order && order[..1] == [order[0]];
      entryNodeId, maxLevel := order[0], nodes[order[0]].level;
      inserted := seq(|nodes|, _ => false)[order[0] := true];
      AdjacencyGrows(nodes, {}, {order[0]}, m);
    }

    method InsertNext(order: seq<nat>, k: nat, ef: nat, nearest: array<Item>, inserted: seq<bool>, ghost who: set<nat>,
                      ghost history: seq<Stage>)
      returns (inserted': seq<bool>, ghost who': set<nat>, ghost history': seq<Stage>)
      requires Built(order, k, inserted, who) && IsOrder(order, |nodes|) && k < |order| && 0 < ef <= nearest.Length
      requires Recorded(order, k, ef, history)
      modifies this, buildVisitedGeneration, nearest
      ensures Built(order, k + 1, inserted', who') && SameLevels(old(nodes), nodes)
      ensures Recorded(order, k + 1, ef, history') && history'[0] == history[0]
    {
      var i := order[k];
      assert order[..k + 1] == order[..k] + [i];
      assert i in order && i !in order[..k];
      ghost var before, top := nodes, maxLevel;
      ghost var path, links := InsertNode(i, ef, nearest, inserted, who);
      OneMoreHasNeighbors(before, nodes, order, k, top);
      inserted', who' := inserted[i := true], who + {i};
      ghost var stage := Stage(nodes, entryNodeId, maxLevel, inserted, path, links);
      OneMoreStage(order, dist, m, ef, history, stage);
      history' := history + [stage];
    }

    lemma BuildIsDone(order: seq<nat>, inserted: seq<bool>, who: set<nat>)
      requires Built(order, |order|, inserted, who) && IsOrder(order, |nodes|)
      ensures Adjacency(nodes, Members(order), m) && entryNodeId < |nodes| && nodes[entryNodeId].level == maxLevel
      ensures (forall x | 0 <= x < |nodes| :: nodes[x].level <= maxLevel) && HaveNeighbors(nodes, order[1..])
    {
      assert order[..|order|] == order && order[1..|order|] == order[1..];
    }

    /** TqGraphBuildEdges. The build order is any order of all nodes; the source sorts them by a mixed key. */
    method BuildEdges(order: seq<nat>) returns (ghost history: seq<Stage>)
      requires Valid({}) && IsOrder(order, |nodes|)
      modifies this, buildVisitedGeneration
      ensures SameLevels(old(nodes), nodes) && Adjacency(nodes, Members(order), m)
      ensures forall x, l | x in order && 0 <= l < |nodes[x].neighbors| ::
                |nodes[x].neighbors[l]| <= if l == 0 then 2 * m else m
      ensures order != [] ==> entryNodeId < |nodes| && nodes[entryNodeId].level == maxLevel
      ensures order != [] ==> forall x | 0 <= x < |nodes| :: nodes[x].level <= maxLevel
      ensures order != [] ==> HaveNeighbors(nodes, order[1..])
      ensures |history| == |order| && (order != [] ==> history[0].nodes == old(nodes) && history[0].entry == order[0])
      ensures order != [] ==> Recorded(order, |order|, Wider(efConstruction, LevelM(m, 0)), history)
    {
      history := [];
      if order == [] { return; }
      var ef := if efConstruction < LevelM(m, 0) then LevelM(m, 0) else efConstruction;
      var nearest := new Item[ef](_ => Item(0.0, 0));
      ghost var who := {order[0]};
      var inserted := InsertFirst(order);
      history := [Stage(nodes, entryNodeId, maxLevel, inserted, [], [])];
      ghost var first := history[0];
      for k := 1 to |order|
        invariant Built(order, k, inserted, who) && SameLevels(old(nodes), nodes)
        invariant Recorded(order, k, ef, history) && history[0] == first
      {
        inserted, who, history := InsertNext(order, k, ef, nearest, inserted, who, history);
      }
      BuildIsDone(order, inserted, who);
    }
  }
}
