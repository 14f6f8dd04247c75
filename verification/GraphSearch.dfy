/**
 The best-first search of one level during a native graph build (src/tqgraph.c:904-970), over the
 array heaps of FrontierHeap and visited marks that are stamped with a 32-bit generation number.
 */
module GraphSearch {
  import opened Orders
  import opened BinaryHeap
  import opened FrontierHeap
  import R = Reachability

  /** neighbors[level] is the list of the node at that level; data stands for its vector, code and heap TID. */
  datatype Node = Node(data: nat, level: nat, neighbors: seq<seq<nat>>)

  predicate HasLevel(nodes: seq<Node>, x: nat, level: nat) {
    x < |nodes| && level <= nodes[x].level
  }

  ghost predicate Shaped(nodes: seq<Node>) {
    forall x | 0 <= x < |nodes| :: |nodes[x].neighbors| == nodes[x].level + 1 && InRange(nodes[x].neighbors, |nodes|)
  }

  ghost predicate InRange(lists: seq<seq<nat>>, n: nat) {
    forall l, i | 0 <= l < |lists| && 0 <= i < |lists[l]| :: lists[l][i] < n
  }

  /** What one search sees: the nodes, which of them were inserted, the level, and the query's distances. */
  datatype Layer = Layer(nodes: seq<Node>, inserted: seq<bool>, level: nat, dist: nat -> real) {
    ghost predicate Valid() {
      Shaped(nodes) && |inserted| == |nodes|
    }

    function List(x: nat): seq<nat>
      requires Valid() && x < |nodes|
    {
      if HasLevel(nodes, x, level) then nodes[x].neighbors[level] else []
    }

    predicate Eligible(y: nat)
      requires Valid() && y < |nodes|
    {
      inserted[y] && HasLevel(nodes, y, level)
    }

    /** The neighbours the search may move to. */
    function Next(): nat -> set<nat>
      requires Valid()
    {
      (x: nat) => if x < |nodes| then set y: nat | y in List(x) && y < |nodes| && Eligible(y) else {}
    }

    function ItemOf(x: nat): Item { Item(dist(x), x) }
  }

  // ---------------------------------------------------------------------------------------
  // The visited marks
  // ---------------------------------------------------------------------------------------

  const GENERATIONS: nat := 0x1_0000_0000

  /** No node carries a generation that is still to come. */
  ghost predicate MarksValid(marks: seq<nat>, generation: nat) {
    generation < GENERATIONS && forall x | 0 <= x < |marks| :: marks[x] <= generation
  }

  /** The marked nodes are exactly the visited ones. */
  ghost predicate MarksAre(marks: seq<nat>, generation: nat, visited: seq<nat>) {
    forall x | 0 <= x < |marks| :: marks[x] == generation <==> x in visited
  }

  /** A new generation, with which no node is marked even when the number wraps around. */
  method NextGeneration(marks: array<nat>, generation: nat) returns (generation': nat)
    requires MarksValid(marks[..], generation)
    modifies marks
    ensures MarksValid(marks[..], generation') && MarksAre(marks[..], generation', [])
    ensures if generation < 0xffff_ffff then generation' == generation + 1 && marks[..] == old(marks[..])
            else generation' == 1 && forall x | 0 <= x < marks.Length :: marks[x] == 0
  {
    generation' := (generation + 1) % GENERATIONS;
    if generation' == 0 {
      for i := 0 to marks.Length
        invariant forall x | 0 <= x < i :: marks[x] == 0
      {
        marks[i] := 0;
      }
      generation' := (generation' + 1) % GENERATIONS;
    }
  }

  lemma {:induction false} AtMost(s: seq<nat>, n: nat)
    requires NoRepeats(s) && forall x | x in s :: x < n
    ensures |s| <= n
  {
    AtMostMembers(s, UpTo(n));
  }

  ghost function UpTo(n: nat): (s: set<nat>)
    ensures |s| == n && forall x: nat :: x in s <==> x < n
  {
    if n == 0 then {} else UpTo(n - 1) + {n - 1}
  }

  // ---------------------------------------------------------------------------------------
  // What the search keeps
  // ---------------------------------------------------------------------------------------

  /** near holds the best ef of the visited nodes: it is full once a visited node is missing, and that one is worse. */
  ghost predicate Kept(l: Layer, near: set<Item>, visited: seq<nat>, ef: nat) {
    && |near| <= ef
    && (forall k | k in near :: k.nodeId in visited && k == l.ItemOf(k.nodeId))
    && (forall v | v in visited && l.ItemOf(v) !in near :: |near| == ef && WorseThanAll(l.ItemOf(v), near))
  }

  ghost predicate WorseThanAll(x: Item, near: set<Item>) {
    forall k | k in near :: Less(k, x)
  }

  lemma OfferKeeps(l: Layer, near: set<Item>, visited: seq<nat>, ef: nat, y: nat, furthest: Item)
    requires Kept(l, near, visited, ef) && y !in visited && ef > 0
    requires near != {} ==> IsFirst(furthest, near, Greater)
    ensures Kept(l, Offered(near, ef, l.ItemOf(y), furthest), visited + [y], ef)
  {
    var x := l.ItemOf(y);
    var near' := Offered(near, ef, x, furthest);
    if |near| < ef {
      assert |near + {x}| == |near| + 1;
    } else if Less(x, furthest) {
      SwapSize(near, furthest, x);
      forall v | v in visited + [y] && l.ItemOf(v) !in near' ensures WorseThanAll(l.ItemOf(v), near') {
        forall k | k in near' ensures Less(k, l.ItemOf(v)) {
          OneTotalOrder(k, furthest, l.ItemOf(v));
          OneTotalOrder(furthest, k, k);
        }
      }
    } else {
      forall k | k in near ensures Less(k, x) {
        OneTotalOrder(k, furthest, x);
        OneTotalOrder(furthest, x, k);
      }
    }
  }

  lemma SwapSize(s: set<Item>, out: Item, x: Item)
    requires out in s && x !in s
    ensures |s - {out} + {x}| == |s|
  {
  }

  /** Only nodes that can be reached from the entry are visited, each once, and only visited ones wait. */
  ghost predicate Sound(next: nat -> set<nat>, n: nat, entry: nat, front: set<Item>, visited: seq<nat>) {
    && NoRepeats(visited) && entry in visited
    && (forall v | v in visited :: v < n && R.Reachable(next, entry, v))
    && (forall k | k in front :: k.nodeId in visited)
  }

  /** A kept node either waits, is being expanded, or has had all its neighbours visited. */
  ghost predicate Progress(next: nat -> set<nat>, near: set<Item>, front: set<Item>, visited: seq<nat>,
                           expanding: set<nat>) {
    forall k | k in near && k !in front && k.nodeId !in expanding :: Expanded(next, k.nodeId, visited)
  }

  ghost predicate Expanded(next: nat -> set<nat>, x: nat, visited: seq<nat>) {
    forall y | y in next(x) :: y in visited
  }

  /** The frontier after y was offered. */
  ghost function Grown(front: set<Item>, near: set<Item>, ef: nat, x: Item, furthest: Item): set<Item> {
    if |near| < ef || Less(x, furthest) then front + {x} else front
  }

  lemma VisitKeepsSound(next: nat -> set<nat>, n: nat, entry: nat, front: set<Item>, visited: seq<nat>, c: nat,
                        x: Item, grow: bool)
    requires Sound(next, n, entry, front, visited) && c in visited
    requires x.nodeId in next(c) && x.nodeId !in visited && x.nodeId < n
    ensures Sound(next, n, entry, if grow then front + {x} else front, visited + [x.nodeId])
    ensures x !in front && |visited| < n
  {
    R.NextIsReachable(next, entry, c, x.nodeId);
    AtMost(visited + [x.nodeId], n);
  }

  lemma VisitKeepsProgress(next: nat -> set<nat>, near: set<Item>, front: set<Item>, visited: seq<nat>, ef: nat,
                           expanding: set<nat>, x: Item, furthest: Item)
    requires Progress(next, near, front, visited, expanding) && ef > 0
    ensures Progress(next, Offered(near, ef, x, furthest), Grown(front, near, ef, x, furthest), visited + [x.nodeId],
                     expanding)
  {
    forall k | k in Offered(near, ef, x, furthest) && k !in Grown(front, near, ef, x, furthest) &&
      k.nodeId !in expanding
      ensures Expanded(next, k.nodeId, visited + [x.nodeId])
    {
      assert k in near && k !in front;
    }
  }

  lemma NothingBetterWaits(l: Layer, near: set<Item>, front: set<Item>, item: Item, furthest: Item)
    requires IsFirst(item, front, Less) && IsFirst(furthest, near, Greater) && Greater(item, furthest)
    ensures near !! front
  {
    forall k | k in near ensures k !in front {
      OneTotalOrder(furthest, k, item);
      OneTotalOrder(k, furthest, item);
      OneTotalOrder(item, k, item);
    }
  }

  // ---------------------------------------------------------------------------------------
  // The turns of a search
  // ---------------------------------------------------------------------------------------

  /**
   x is expanded when the nodes of done were before; near are the best and seen all visited then, after
   those since.
   */
  datatype Turn = Turn(x: Item, near: set<Item>, done: set<nat>, seen: seq<nat>, after: seq<nat>)

  /** x is the nearest of the best ef visited nodes not expanded yet; what is visited next are its neighbours. */
  ghost predicate IsTurn(l: Layer, ef: nat, t: Turn)
    requires l.Valid()
  {
    && Kept(l, t.near, t.seen, ef) && t.x in t.near && t.x.nodeId !in t.done
    && (forall k | k in t.near && k.nodeId !in t.done :: !Less(k, t.x))
    && Brings(l.Next()(t.x.nodeId), t.seen, t.after)
  }

  ghost predicate Brings(nbrs: set<nat>, seen: seq<nat>, after: seq<nat>) {
    seen <= after && NewAre(nbrs, seen, after) && forall y | y in nbrs :: y in after
  }

  ghost predicate NewAre(nbrs: set<nat>, seen: seq<nat>, after: seq<nat>) {
    forall i | |seen| <= i < |after| :: after[i] in nbrs
  }

  /** The turns of a search from entry, one after another, and what is visited and expanded after the last one. */
  ghost predicate TurnsTo(turns: seq<Turn>, entry: nat, visited: seq<nat>, done: set<nat>) {
    && (turns == [] ==> visited == [entry] && done == {})
    && (turns != [] ==> turns[0].seen == [entry] && turns[0].done == {})
    && (turns != [] ==>
        turns[|turns| - 1].after == visited && turns[|turns| - 1].done + {turns[|turns| - 1].x.nodeId} == done)
    && forall k | 0 < k < |turns| ::
         turns[k].seen == turns[k - 1].after && turns[k].done == turns[k - 1].done + {turns[k - 1].x.nodeId}
  }

  ghost predicate AreTurns(l: Layer, ef: nat, turns: seq<Turn>)
    requires l.Valid()
  {
    forall k | 0 <= k < |turns| :: IsTurn(l, ef, turns[k])
  }

  /** A best-first search: it ends when all of the best nodes have had their turns. */
  ghost predicate IsSearch(l: Layer, ef: nat, entry: nat, near: set<Item>, visited: seq<nat>, turns: seq<Turn>)
    requires l.Valid()
  {
    AreTurns(l, ef, turns) && exists done :: TurnsTo(turns, entry, visited, done) && AllIn(near, done)
  }

  ghost predicate AllIn(near: set<Item>, done: set<nat>) {
    forall k | k in near :: k.nodeId in done
  }

  /** A best node waits until it is expanded. */
  ghost predicate Waits(l: Layer, near: set<Item>, front: set<Item>, visited: seq<nat>, done: set<nat>) {
    && (forall k | k in near && k !in front :: k.nodeId in done)
    && (forall k | k in front :: k.nodeId !in done && k == l.ItemOf(k.nodeId))
    && forall x | x in done :: x in visited
  }

  /** Newly visited nodes may become best ones and wait then. */
  ghost predicate Follows(l: Layer, near: set<Item>, front: set<Item>, visited: seq<nat>, near': set<Item>,
                          front': set<Item>, visited': seq<nat>) {
    && visited <= visited' && (forall k | k in near' && k !in front' :: k in near && k !in front)
    && forall k | k in front' && k !in front :: k.nodeId !in visited && k == l.ItemOf(k.nodeId)
  }

  lemma VisitFollows(l: Layer, near: set<Item>, front: set<Item>, visited: seq<nat>, ef: nat, y: nat, furthest: Item)
    requires y !in visited && ef > 0
    ensures Follows(l, near, front, visited, Offered(near, ef, l.ItemOf(y), furthest),
                    Grown(front, near, ef, l.ItemOf(y), furthest), visited + [y])
  {
  }

  lemma FollowsOn(l: Layer, near: set<Item>, front: set<Item>, visited: seq<nat>, near1: set<Item>, front1: set<Item>,
                  visited1: seq<nat>, near2: set<Item>, front2: set<Item>, visited2: seq<nat>)
    requires Follows(l, near, front, visited, near1, front1, visited1)
    requires Follows(l, near1, front1, visited1, near2, front2, visited2)
    ensures Follows(l, near, front, visited, near2, front2, visited2)
  {
  }

  /** What waits and is not further than all of the best nodes is one of them. */
  lemma BestWaits(l: Layer, ef: nat, near: set<Item>, visited: seq<nat>, x: Item, furthest: Item)
    requires Kept(l, near, visited, ef) && x.nodeId in visited && x == l.ItemOf(x.nodeId)
    requires near != {} && IsFirst(furthest, near, Greater) && !(|near| >= ef && Greater(x, furthest))
    ensures x in near
  {
    OneTotalOrder(furthest, x, x);
  }

  lemma WaitsOn(l: Layer, near: set<Item>, front: set<Item>, visited: seq<nat>, done: set<nat>, x: Item,
                near': set<Item>, front': set<Item>, visited': seq<nat>)
    requires Waits(l, near, front, visited, done) && x in front && x.nodeId in visited
    requires Follows(l, near, front - {x}, visited, near', front', visited')
    ensures Waits(l, near', front', visited', done + {x.nodeId})
  {
    forall k | k in front'
      ensures k.nodeId !in done + {x.nodeId} && k == l.ItemOf(k.nodeId)
    {
      assert k in front - {x} || k.nodeId !in visited;
    }
  }

  /** The search so far: its turns, and who waits. */
  ghost predicate Searching(l: Layer, ef: nat, entry: nat, near: set<Item>, front: set<Item>, visited: seq<nat>,
                            done: set<nat>, turns: seq<Turn>)
    requires l.Valid()
  {
    AreTurns(l, ef, turns) && TurnsTo(turns, entry, visited, done) && Waits(l, near, front, visited, done)
  }

  lemma OneMoreTurn(l: Layer, ef: nat, turns: seq<Turn>, turn: Turn)
    requires l.Valid() && AreTurns(l, ef, turns) && IsTurn(l, ef, turn)
    ensures AreTurns(l, ef, turns + [turn])
  {
    forall k | 0 <= k < |turns| + 1 ensures IsTurn(l, ef, (turns + [turn])[k]) {
      if k < |turns| {
        assert IsTurn(l, ef, turns[k]);
        assert (turns + [turn])[k] == turns[k];
      }
    }
  }

  lemma LeadsOn(turns: seq<Turn>, entry: nat, visited: seq<nat>, done: set<nat>, turn: Turn)
    requires TurnsTo(turns, entry, visited, done) && turn.seen == visited && turn.done == done
    ensures TurnsTo(turns + [turn], entry, turn.after, done + {turn.x.nodeId})
  {
  }

  lemma TurnTaken(l: Layer, ef: nat, entry: nat, near: set<Item>, front: set<Item>, visited: seq<nat>, done: set<nat>,
                  turns: seq<Turn>, x: Item, near': set<Item>, front': set<Item>, visited': seq<nat>)
    returns (turns': seq<Turn>)
    requires l.Valid() && Searching(l, ef, entry, near, front, visited, done, turns) && x.nodeId in visited
    requires Kept(l, near, visited, ef) && x in near && IsFirst(x, front, Less)
    requires Follows(l, near, front - {x}, visited, near', front', visited')
    requires Brings(l.Next()(x.nodeId), visited, visited')
    ensures Searching(l, ef, entry, near', front', visited', done + {x.nodeId}, turns')
  {
    var turn := Turn(x, near, done, visited, visited');
    OneMoreTurn(l, ef, turns, turn);
    LeadsOn(turns, entry, visited, done, turn);
    WaitsOn(l, near, front, visited, done, x, near', front', visited');
    turns' := turns + [turn];
  }

  lemma SearchIsOver(l: Layer, ef: nat, entry: nat, near: set<Item>, front: set<Item>, visited: seq<nat>,
                     done: set<nat>, turns: seq<Turn>)
    requires l.Valid() && Searching(l, ef, entry, near, front, visited, done, turns) && near !! front
    ensures IsSearch(l, ef, entry, near, visited, turns)
  {
    assert AllIn(near, done);
  }

  // ---------------------------------------------------------------------------------------
  // TqGraphBuildSearchLayer
  // ---------------------------------------------------------------------------------------

  ghost predicate State(l: Layer, ef: nat, entry: nat, expanding: set<nat>, nearCells: seq<Item>, near: set<Item>,
                        frontCells: seq<Item>, front: set<Item>, marks: seq<nat>, generation: nat, visited: seq<nat>)
    requires l.Valid()
  {
    && HeapOf(nearCells, near, Greater) && HeapOf(frontCells, front, Less) && |frontCells| <= |visited|
    && Kept(l, near, visited, ef) && Sound(l.Next(), |l.nodes|, entry, front, visited)
    && Progress(l.Next(), near, front, visited, expanding)
    && |marks| == |l.nodes| && MarksValid(marks, generation) && MarksAre(marks, generation, visited)
  }

  lemma RoomToVisit(l: Layer, ef: nat, entry: nat, c: nat, nearCells: seq<Item>, near: set<Item>,
                    frontCells: seq<Item>, front: set<Item>, marks: seq<nat>, generation: nat, visited: seq<nat>,
                    y: nat)
    requires l.Valid() && State(l, ef, entry, {c}, nearCells, near, frontCells, front, marks, generation, visited)
    requires c in visited && y in l.Next()(c) && y !in visited
    ensures l.ItemOf(y) !in near && l.ItemOf(y) !in front && |frontCells| < |l.nodes| && y < |l.nodes|
  {
    VisitKeepsSound(l.Next(), |l.nodes|, entry, front, visited, c, l.ItemOf(y), false);
  }

  lemma VisitKeepsState(l: Layer, ef: nat, entry: nat, c: nat, nearCells: seq<Item>, near: set<Item>,
                        frontCells: seq<Item>, front: set<Item>, marks: seq<nat>, generation: nat, visited: seq<nat>,
                        y: nat, furthest: Item, nearCells': seq<Item>, frontCells': seq<Item>)
    requires l.Valid() && State(l, ef, entry, {c}, nearCells, near, frontCells, front, marks, generation, visited)
    requires c in visited && y in l.Next()(c) && y !in visited && y < |l.nodes| && ef > 0
    requires near != {} ==> IsFirst(furthest, near, Greater)
    requires HeapOf(nearCells', Offered(near, ef, l.ItemOf(y), furthest), Greater)
    requires HeapOf(frontCells', Grown(front, near, ef, l.ItemOf(y), furthest), Less) &&
             |frontCells'| <= |frontCells| + 1
    ensures State(l, ef, entry, {c}, nearCells', Offered(near, ef, l.ItemOf(y), furthest),
                  frontCells', Grown(front, near, ef, l.ItemOf(y), furthest), marks[y := generation], generation,
                  visited + [y])
  {
    OfferKeeps(l, near, visited, ef, y, furthest);
    VisitKeepsProgress(l.Next(), near, front, visited, ef, {c}, l.ItemOf(y), furthest);
    VisitKeepsSound(l.Next(), |l.nodes|, entry, front, visited, c, l.ItemOf(y),
                    |near| < ef || Less(l.ItemOf(y), furthest));
  }

  /** Marks y, offers it to the nearest nodes and, if it is one of them, lets it wait to be expanded. */
  method Visit(l: Layer, y: nat, ef: nat, nearest: array<Item>, count: nat, frontier: array<Item>, frontCount: nat,
               marks: array<nat>, generation: nat, ghost entry: nat, ghost c: nat, ghost near: set<Item>,
               ghost front: set<Item>, ghost visited: seq<nat>)
    returns (count': nat, frontier': array<Item>, frontCount': nat, ghost near': set<Item>, ghost front': set<Item>)
    requires l.Valid() && 0 < ef <= nearest.Length && count <= ef && frontCount <= frontier.Length <= |l.nodes|
    requires State(l, ef, entry, {c}, nearest[..count], near, frontier[..frontCount], front, marks[..], generation,
                   visited)
    requires c in visited && y in l.Next()(c) && y !in visited && nearest != frontier
    modifies nearest, frontier, marks
    ensures count' <= ef && frontCount' <= frontier'.Length <= |l.nodes| && (frontier' == frontier || fresh(frontier'))
    ensures State(l, ef, entry, {c}, nearest[..count'], near', frontier'[..frontCount'], front', marks[..], generation,
                  visited + [y])
    ensures Follows(l, near, front, visited, near', front', visited + [y])
  {
    OrdersAreWeak();
    RootOf(nearest[..count], near, Greater);
    RoomToVisit(l, ef, entry, c, nearest[..count], near, frontier[..frontCount], front, marks[..], generation, visited,
                y);
    var x := Item(l.dist(y), y);
    ghost var furthest := if count > 0 then nearest[0] else x;
    near', front' := Offered(near, ef, x, furthest), Grown(front, near, ef, x, furthest);
    ghost var nearCells, frontCells, stamps := nearest[..count], frontier[..frontCount], marks[..];
    VisitFollows(l, near, front, visited, ef, y, furthest);
    marks[y] := generation;
    var added;
    added, count' := OfferNearest(nearest, ef, count, x, near);
    frontier', frontCount' := frontier, frontCount;
    if added {
      var r := HeapPushGrowing(frontier, frontCount, frontier.Length, |l.nodes|, x, Less, front);
      match r {
        case CapacityExceeded => assert false;
        case Ok(h, n, _) => frontier', frontCount' := h, n;
      }
    }
    VisitKeepsState(l, ef, entry, c, nearCells, near, frontCells, front, stamps, generation, visited, y, furthest,
                    nearest[..count'], frontier'[..frontCount']);
    assert marks[..] == stamps[y := generation];
  }

  /** The loop over the neighbours of c. */
  method ExpandNode(l: Layer, c: nat, ef: nat, nearest: array<Item>, count: nat, frontier: array<Item>,
                    frontCount: nat, marks: array<nat>, generation: nat, ghost entry: nat, ghost near: set<Item>,
                    ghost front: set<Item>, ghost visited: seq<nat>)
    returns (count': nat, frontier': array<Item>, frontCount': nat, ghost near': set<Item>, ghost front': set<Item>,
             ghost visited': seq<nat>)
    requires l.Valid() && 0 < ef <= nearest.Length && count <= ef && frontCount <= frontier.Length <= |l.nodes|
    requires State(l, ef, entry, {c}, nearest[..count], near, frontier[..frontCount], front, marks[..], generation,
                   visited)
    requires c in visited && c < |l.nodes| && nearest != frontier
    modifies nearest, frontier, marks
    ensures count' <= ef && frontCount' <= frontier'.Length <= |l.nodes| && (frontier' == frontier || fresh(frontier'))
    ensures State(l, ef, entry, {}, nearest[..count'], near', frontier'[..frontCount'], front', marks[..], generation,
                  visited')
    ensures |visited| < |visited'| || (visited' == visited && frontCount' == frontCount)
    ensures Follows(l, near, front, visited, near', front', visited') && Brings(l.Next()(c), visited, visited')
  {
    count', frontier', frontCount', near', front', visited' := count, frontier, frontCount, near, front, visited;
    var list := l.List(c);
    for i := 0 to |list|
      invariant count' <= ef && frontCount' <= frontier'.Length <= |l.nodes| &&
                (frontier' == frontier || fresh(frontier'))
      invariant State(l, ef, entry, {c}, nearest[..count'], near', frontier'[..frontCount'], front', marks[..],
                      generation, visited')
      invariant |visited| < |visited'| || (visited' == visited && frontCount' == frontCount)
      invariant c in visited' && Seen(l, list[..i], visited')
      invariant Follows(l, near, front, visited, near', front', visited') && NewAre(l.Next()(c), visited, visited')
    {
      var y := list[i];
      ListInRange(l, c, i);
      ghost var before, near1, front1 := visited', near', front';
      if l.inserted[y] && marks[y] != generation && HasLevel(l.nodes, y, l.level) {
        count', frontier', frontCount', near', front' :=
          Visit(l, y, ef, nearest, count', frontier', frontCount', marks, generation, entry, c, near', front',
                visited');
        visited' := visited' + [y];
        FollowsOn(l, near, front, visited, near1, front1, before, near', front', visited');
      }
      SeenOneMore(l, list, i, before, visited');
    }
    assert list[..|list|] == list;
    AllSeen(l, c, near', front', visited');
  }

  ghost predicate Seen(l: Layer, list: seq<nat>, visited: seq<nat>)
    requires l.Valid()
  {
    forall y | y in list && y < |l.nodes| && l.Eligible(y) :: y in visited
  }

  lemma SeenOneMore(l: Layer, list: seq<nat>, i: nat, visited: seq<nat>, visited': seq<nat>)
    requires l.Valid() && i < |list| && Seen(l, list[..i], visited) && visited <= visited'
    requires list[i] < |l.nodes| && l.Eligible(list[i]) ==> list[i] in visited'
    ensures Seen(l, list[..i + 1], visited')
  {
    assert list[..i + 1] == list[..i] + [list[i]];
  }

  lemma ListInRange(l: Layer, c: nat, i: nat)
    requires l.Valid() && c < |l.nodes| && i < |l.List(c)|
    ensures l.List(c)[i] < |l.nodes|
    ensures l.Eligible(l.List(c)[i]) ==> l.List(c)[i] in l.Next()(c)
  {
  }

  lemma AllSeen(l: Layer, c: nat, near: set<Item>, front: set<Item>, visited: seq<nat>)
    requires l.Valid() && c < |l.nodes| && Seen(l, l.List(c), visited) && Progress(l.Next(), near, front, visited, {c})
    ensures Progress(l.Next(), near, front, visited, {}) && Expanded(l.Next(), c, visited)
  {
    assert Expanded(l.Next(), c, visited);
  }

  /** What a finished search has found. */
  ghost predicate Found(l: Layer, ef: nat, entry: nat, near: set<Item>, visited: seq<nat>)
    requires l.Valid()
  {
    && Kept(l, near, visited, ef) && Sound(l.Next(), |l.nodes|, entry, {}, visited)
    && Progress(l.Next(), near, {}, visited, {})
  }

  lemma StartState(l: Layer, ef: nat, entry: nat, nearCells: seq<Item>, frontCells: seq<Item>, marks: seq<nat>,
                   generation: nat)
    requires l.Valid() && entry < |l.nodes| && ef > 0
    requires HeapOf(nearCells, {l.ItemOf(entry)}, Greater) && HeapOf(frontCells, {l.ItemOf(entry)}, Less) &&
             |frontCells| == 1
    requires |marks| == |l.nodes| && MarksValid(marks, generation) && MarksAre(marks, generation, [])
    ensures State(l, ef, entry, {}, nearCells, {l.ItemOf(entry)}, frontCells, {l.ItemOf(entry)},
                  marks[entry := generation], generation, [entry])
  {
    R.StartIsReachable(l.Next(), entry);
  }

  /** c was taken from the frontier and is about to be expanded. */
  lemma TakenState(l: Layer, ef: nat, entry: nat, nearCells: seq<Item>, near: set<Item>, frontCells: seq<Item>,
                   front: set<Item>, marks: seq<nat>, generation: nat, visited: seq<nat>, c: Item,
                   frontCells': seq<Item>)
    requires l.Valid() && State(l, ef, entry, {}, nearCells, near, frontCells, front, marks, generation, visited)
    requires c in front && HeapOf(frontCells', front - {c}, Less) && |frontCells'| <= |frontCells|
    ensures State(l, ef, entry, {c.nodeId}, nearCells, near, frontCells', front - {c}, marks, generation, visited)
    ensures c.nodeId in visited && c.nodeId < |l.nodes| && |visited| <= |l.nodes|
  {
    AtMost(visited, |l.nodes|);
  }

  lemma NoNeighbors(l: Layer, c: nat, near: set<Item>, front: set<Item>, visited: seq<nat>)
    requires l.Valid() && c < |l.nodes| && !HasLevel(l.nodes, c, l.level) &&
             Progress(l.Next(), near, front, visited, {c})
    ensures Progress(l.Next(), near, front, visited, {})
  {
  }

  lemma Finished(l: Layer, ef: nat, entry: nat, nearCells: seq<Item>, near: set<Item>, frontCells: seq<Item>,
                 front: set<Item>, marks: seq<nat>, generation: nat, visited: seq<nat>)
    requires l.Valid() && State(l, ef, entry, {}, nearCells, near, frontCells, front, marks, generation, visited)
    requires near !! front
    ensures Found(l, ef, entry, near, visited)
  {
  }

  function InitialFrontierCapacity(nodeCount: nat, ef: nat, entryCount: nat, maxNeighbors: nat): (capacity: nat)
    ensures capacity <= nodeCount && (nodeCount > 0 && entryCount > 0 ==> capacity > 0)
    ensures capacity < nodeCount ==> capacity >= 8 && capacity >= ef + entryCount + maxNeighbors
    ensures capacity < nodeCount ==> capacity >= ef * 2 + entryCount
    ensures capacity in {nodeCount, 8, ef + entryCount + maxNeighbors, ef * 2 + entryCount}
  {
    var a := if ef + entryCount + maxNeighbors < 8 then 8 else ef + entryCount + maxNeighbors;
    var b := if a < ef * 2 + entryCount then ef * 2 + entryCount else a;
    if b > nodeCount then nodeCount else b
  }

  /** A new generation, with only the entry visited, kept and waiting. */
  method StartSearch(l: Layer, entry: Item, ef: nat, maxNeighbors: nat, nearest: array<Item>, marks: array<nat>,
                     generation: nat)
    returns (count: nat, frontier: array<Item>, frontCount: nat, generation': nat)
    requires l.Valid() && entry.nodeId < |l.nodes| && entry == l.ItemOf(entry.nodeId)
    requires 0 < ef <= nearest.Length && marks.Length == |l.nodes| && MarksValid(marks[..], generation)
    modifies nearest, marks
    ensures count <= ef && frontCount <= frontier.Length <= |l.nodes| && fresh(frontier)
    ensures State(l, ef, entry.nodeId, {}, nearest[..count], {entry}, frontier[..frontCount], {entry}, marks[..],
                  generation', [entry.nodeId])
  {
    generation' := NextGeneration(marks, generation);
    var capacity := InitialFrontierCapacity(|l.nodes|, ef, 1, maxNeighbors);
    frontier := new Item[capacity](_ => entry);
    ghost var stamps := marks[..];
    marks[entry.nodeId] := generation';
    assert marks[..] == stamps[entry.nodeId := generation'];
    OrdersAreWeak();
    var added;
    added, count := OfferNearest(nearest, ef, 0, entry, {});
    frontCount := HeapPush(frontier, 0, entry, Less, {});
    assert Offered({}, ef, entry, entry) == {entry} == {} + {entry};
    StartState(l, ef, entry.nodeId, nearest[..count], frontier[..frontCount], stamps, generation');
  }

  /** The state of the search and its turns. */
  ghost predicate Running(l: Layer, ef: nat, entry: nat, nearCells: seq<Item>, near: set<Item>, frontCells: seq<Item>,
                          front: set<Item>, marks: seq<nat>, generation: nat, visited: seq<nat>, done: set<nat>,
                          turns: seq<Turn>)
    requires l.Valid()
  {
    && State(l, ef, entry, {}, nearCells, near, frontCells, front, marks, generation, visited) && near != {}
    && Searching(l, ef, entry, near, front, visited, done, turns)
  }

  /** The nearest waiting node is taken and, unless nothing better can come, expanded. */
  method TakeTurn(l: Layer, entry: nat, ef: nat, nearest: array<Item>, count: nat, frontier: array<Item>,
                  frontCount: nat, marks: array<nat>, generation: nat, ghost near: set<Item>, ghost front: set<Item>,
                  ghost visited: seq<nat>, ghost done: set<nat>, ghost turns: seq<Turn>)
    returns (stop: bool, count': nat, frontier': array<Item>, frontCount': nat, ghost near': set<Item>,
             ghost front': set<Item>, ghost visited': seq<nat>, ghost done': set<nat>, ghost turns': seq<Turn>)
    requires l.Valid() && 0 < ef <= nearest.Length && count <= ef && 0 < frontCount <= frontier.Length <= |l.nodes|
    requires Running(l, ef, entry, nearest[..count], near, frontier[..frontCount], front, marks[..], generation,
                     visited,
                     done, turns)
    requires nearest != frontier
    modifies nearest, frontier, marks
    ensures count' <= ef && frontCount' <= frontier'.Length <= |l.nodes| && (frontier' == frontier || fresh(frontier'))
    ensures stop ==> Found(l, ef, entry, near', visited') && IsSearch(l, ef, entry, near', visited', turns')
    ensures stop ==> HeapOf(nearest[..count'], near', Greater) && MarksValid(marks[..], generation)
    ensures !stop ==> Running(l, ef, entry, nearest[..count'], near', frontier'[..frontCount'], front', marks[..],
                              generation, visited', done', turns')
    ensures !stop ==> |visited| < |visited'| || (visited' == visited && frontCount' < frontCount)
  {
    OrdersAreWeak();
    count', frontier', near', front', visited', done', turns' := count, frontier, near, front, visited, done, turns;
    ghost var frontCells := frontier[..frontCount];
    RootOf(nearest[..count], near, Greater);
    var item;
    item, frontCount' := HeapPop(frontier, frontCount, Less, front);
    stop := count >= ef && Greater(item, nearest[0]);
    if stop {
      NothingBetterWaits(l, near, front, item, nearest[0]);
      Finished(l, ef, entry, nearest[..count], near, frontCells, front, marks[..], generation, visited);
      SearchIsOver(l, ef, entry, near, front, visited, done, turns);
      return;
    }
    BestWaits(l, ef, near, visited, item, nearest[0]);
    TakenState(l, ef, entry, nearest[..count], near, frontCells, front, marks[..], generation, visited, item,
               frontier[..frontCount']);
    front' := front - {item};
    if HasLevel(l.nodes, item.nodeId, l.level) {
      count', frontier', frontCount', near', front', visited' :=
        ExpandNode(l, item.nodeId, ef, nearest, count, frontier, frontCount', marks, generation, entry, near, front',
                   visited);
    } else {
      NoNeighbors(l, item.nodeId, near, front', visited);
    }
    turns' := TurnTaken(l, ef, entry, near, front, visited, done, turns, item, near', front', visited');
    done' := done + {item.nodeId};
  }

  /** TqGraphBuildSearchLayer. The frontier never overflows, and generations that wrap around do not matter. */
  method SearchLayer(l: Layer, entry: Item, ef: nat, maxNeighbors: nat, nearest: array<Item>, marks: array<nat>,
                     generation: nat)
    returns (count: nat, generation': nat, ghost near: set<Item>, ghost visited: seq<nat>, ghost turns: seq<Turn>)
    requires l.Valid() && entry.nodeId < |l.nodes| && entry == l.ItemOf(entry.nodeId)
    requires 0 < ef <= nearest.Length && marks.Length == |l.nodes| && MarksValid(marks[..], generation)
    modifies nearest, marks
    ensures count <= ef && HeapOf(nearest[..count], near, Greater) && Found(l, ef, entry.nodeId, near, visited)
    ensures IsSearch(l, ef, entry.nodeId, near, visited, turns)
    ensures MarksValid(marks[..], generation')
  {
    var frontier, frontCount: nat;
    count, frontier, frontCount, generation' := StartSearch(l, entry, ef, maxNeighbors, nearest, marks, generation);
    near, visited, turns := {entry}, [entry.nodeId], [];
    ghost var front, done: set<nat> := {entry}, {};
    VisitedFit(l, entry.nodeId, front, visited);
    while frontCount > 0
      invariant count <= ef && frontCount <= frontier.Length <= |l.nodes| && nearest != frontier && fresh(frontier)
      invariant Running(l, ef, entry.nodeId, nearest[..count], near, frontier[..frontCount], front, marks[..],
                        generation', visited, done, turns)
      invariant |visited| <= |l.nodes|
      decreases |l.nodes| - |visited|, frontCount
    {
      var stop;
      stop, count, frontier, frontCount, near, front, visited, done, turns :=
        TakeTurn(l, entry.nodeId, ef, nearest, count, frontier, frontCount, marks, generation', near, front, visited,
                 done,
                 turns);
      if stop { return; }
      VisitedFit(l, entry.nodeId, front, visited);
    }
    RootOf(frontier[..frontCount], front, Less);
    Finished(l, ef, entry.nodeId, nearest[..count], near, frontier[..frontCount], front, marks[..], generation',
             visited);
    SearchIsOver(l, ef, entry.nodeId, near, front, visited, done, turns);
  }

  lemma VisitedFit(l: Layer, entry: nat, front: set<Item>, visited: seq<nat>)
    requires l.Valid() && Sound(l.Next(), |l.nodes|, entry, front, visited)
    ensures |visited| <= |l.nodes|
  {
    AtMost(visited, |l.nodes|);
  }

  // ---------------------------------------------------------------------------------------
  // What that means
  // ---------------------------------------------------------------------------------------

  /** Every eligible neighbour of a kept node is kept or is worse than all ef kept nodes. */
  lemma LocalClosure(l: Layer, ef: nat, entry: nat, near: set<Item>, visited: seq<nat>, k: Item, y: nat)
    requires l.Valid() && Found(l, ef, entry, near, visited) && k in near && y in l.Next()(k.nodeId)
    ensures l.ItemOf(y) in near || (|near| == ef && WorseThanAll(l.ItemOf(y), near))
  {
    assert Expanded(l.Next(), k.nodeId, visited);
  }

  /** A search that is wide enough keeps exactly the reachable nodes. */
  lemma WideSearchIsComplete(l: Layer, ef: nat, entry: nat, near: set<Item>, visited: seq<nat>, reachable: set<nat>)
    requires l.Valid() && Found(l, ef, entry, near, visited)
    requires (forall x :: x in reachable <==> R.Reachable(l.Next(), entry, x)) && |reachable| <= ef
    ensures near == set x | x in reachable :: l.ItemOf(x)
  {
    var all := set x | x in visited;
    if v :| v in visited && l.ItemOf(v) !in near {
      var ids := set k | k in near :: k.nodeId;
      SameSize(l, near, ids);
      assert v !in ids && ids <= reachable;
      Larger(ids, reachable, v);
      assert false;
    }
    forall x | x in reachable ensures x in all {
      forall y | y in all ensures l.Next()(y) <= all {
        assert Expanded(l.Next(), y, visited) by { assert l.ItemOf(y) in near; }
      }
      R.ClosedHoldsReachable(l.Next(), entry, all, x);
    }
  }

  lemma {:induction false} SameSize(l: Layer, near: set<Item>, ids: set<nat>)
    requires (forall k | k in near :: k == l.ItemOf(k.nodeId)) && ids == set k | k in near :: k.nodeId
    ensures |ids| == |near|
    decreases |near|
  {
    if k :| k in near {
      SameSize(l, near - {k}, ids - {k.nodeId});
    }
  }
}
