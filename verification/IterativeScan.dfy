/**
 The layer-0 search of an HNSW scan with its pool of discarded candidates (src/hnswutils.c:2741-2921),
 and what the iterative scan that resumes from that pool and hands out heap TIDs keeps (src/hnswscan.c).

 The graph does not change. A pairing heap is a set of elements from which a nearest or a furthest
 one is taken; ties are broken in any way.
 */
module IterativeScan {
  import opened Options
  import opened Orders
  import R = Reachability

  /** heaptids(x) counts the heap TIDs of x; they are named (x, 0), (x, 1), ... */
  datatype Graph = Graph(nodes: set<nat>, nbrs: nat -> seq<nat>, dist: nat -> real, heaptids: nat -> nat) {
    function Next(): nat -> set<nat> { x => Members(nbrs(x)) }

    ghost predicate Closed() {
      forall x | x in nodes :: Members(nbrs(x)) <= nodes
    }
  }

  ghost predicate Reachable(g: Graph, start: nat, x: nat) {
    R.Reachable(g.Next(), start, x)
  }

  /** Every member of s has all its neighbours in t. */
  ghost predicate Expanded(g: Graph, s: set<nat>, t: set<nat>) {
    forall x | x in s :: Members(g.nbrs(x)) <= t
  }

  // ---------------------------------------------------------------------------------------
  // Pairing heaps
  // ---------------------------------------------------------------------------------------

  lemma {:induction false} NearestExists(g: Graph, s: set<nat>) returns (c: nat)
    requires s != {}
    ensures c in s && forall x | x in s :: g.dist(c) <= g.dist(x)
    decreases |s|
  {
    var a :| a in s;
    c := a;
    if s != {a} {
      assert s - {a} != {};
      var b := NearestExists(g, s - {a});
      if g.dist(b) < g.dist(a) { c := b; }
      assert s == s - {a} + {a};
    }
  }

  lemma {:induction false} FurthestExists(g: Graph, s: set<nat>) returns (c: nat)
    requires s != {}
    ensures c in s && forall x | x in s :: g.dist(x) <= g.dist(c)
    decreases |s|
  {
    var a :| a in s;
    c := a;
    if s != {a} {
      assert s - {a} != {};
      var b := FurthestExists(g, s - {a});
      if g.dist(a) < g.dist(b) { c := b; }
      assert s == s - {a} + {a};
    }
  }

  method RemoveNearest(g: Graph, heap: set<nat>) returns (c: nat, rest: set<nat>)
    requires heap != {}
    ensures c in heap && rest == heap - {c} && forall x | x in heap :: g.dist(c) <= g.dist(x)
  {
    ghost var nearest := NearestExists(g, heap);
    c :| c in heap && forall x | x in heap :: g.dist(c) <= g.dist(x);
    rest := heap - {c};
  }

  method Furthest(g: Graph, heap: set<nat>) returns (f: nat)
    requires heap != {}
    ensures f in heap && forall x | x in heap :: g.dist(x) <= g.dist(f)
  {
    ghost var furthest := FurthestExists(g, heap);
    f :| f in heap && forall x | x in heap :: g.dist(x) <= g.dist(f);
  }

  // ---------------------------------------------------------------------------------------
  // HnswSearchLayer
  // ---------------------------------------------------------------------------------------

  /** HnswLoadUnvisitedFromDisk: the neighbours of c that were not visited, now marked as visited. */
  method LoadUnvisited(g: Graph, c: nat, visited: set<nat>) returns (unvisited: seq<nat>, visited': set<nat>)
    ensures visited' == visited + Members(g.nbrs(c))
    ensures Members(unvisited) == visited' - visited && NoRepeats(unvisited)
  {
    unvisited, visited' := [], visited;
    var nbrs := g.nbrs(c);
    for i := 0 to |nbrs|
      invariant visited' == visited + Members(nbrs[..i])
      invariant Members(unvisited) == visited' - visited && NoRepeats(unvisited)
    {
      assert Members(nbrs[..i + 1]) == Members(nbrs[..i]) + {nbrs[i]};
      if nbrs[i] !in visited' {
        assert Members(unvisited + [nbrs[i]]) == Members(unvisited) + {nbrs[i]};
        assert nbrs[i] !in Members(unvisited);
        unvisited, visited' := unvisited + [nbrs[i]], visited' + {nbrs[i]};
      }
    }
    assert nbrs[..|nbrs|] == nbrs;
  }

  /** The visited elements are exactly those handed out before, those in W, the discarded and the rest. */
  ghost predicate Parts(visited: set<nat>, done: set<nat>, w: set<nat>, discarded: set<nat>, rest: set<nat>) {
    && visited == done + w + discarded + rest
    && done !! w !! discarded !! rest
  }

  /** W holds the nearest elements met by this search, and is full once anything was left over. */
  ghost predicate Best(g: Graph, w: set<nat>, leftOver: set<nat>, ef: nat) {
    && (leftOver != {} ==> |w| == ef)
    && forall x, d | x in w && d in leftOver :: g.dist(x) <= g.dist(d)
  }

  /** The same of the list of W. */
  ghost predicate BestList(g: Graph, w: seq<nat>, leftOver: set<nat>, ef: nat) {
    && (leftOver != {} ==> |w| == ef)
    && forall x, d | x in w && d in leftOver :: g.dist(x) <= g.dist(d)
  }

  /** What one Offer leaves behind. */
  ghost predicate Offered(g: Graph, e: nat, ef: nat, before: set<nat>, w: set<nat>, discarded: set<nat>, w': set<nat>,
                          wlen': nat, discarded': set<nat>) {
    && w' != {} && w' !! discarded' && |w'| == (if wlen' <= ef then wlen' else ef)
    && w' + discarded' == w + discarded + {e} && before <= discarded'
    && Best(g, w', discarded' - before, ef)
  }

  lemma NotAddedIsOffered(g: Graph, e: nat, ef: nat, before: set<nat>, w: set<nat>, wlen: nat, discarded: set<nat>,
                          f: nat)
    requires w != {} && w !! discarded && e !in w && e !in discarded && before <= discarded
    requires Best(g, w, discarded - before, ef) && |w| == ef <= wlen && g.dist(f) <= g.dist(e)
    requires forall x | x in w :: g.dist(x) <= g.dist(f)
    ensures Offered(g, e, ef, before, w, discarded, w, wlen, discarded + {e})
  {
    assert discarded + {e} - before == discarded - before + {e};
  }

  lemma AddedIsOffered(g: Graph, e: nat, ef: nat, before: set<nat>, w: set<nat>, wlen: nat, discarded: set<nat>)
    requires w != {} && w !! discarded && e !in w && e !in discarded && before <= discarded
    requires Best(g, w, discarded - before, ef) && |w| == wlen < ef
    ensures Offered(g, e, ef, before, w, discarded, w + {e}, wlen + 1, discarded)
  {
    assert discarded - before == {};
    assert |w + {e}| == |w| + 1;
  }

  lemma SwapKeepsSize(w: set<nat>, e: nat, d: nat)
    requires e !in w && d in w + {e}
    ensures |w + {e} - {d}| == |w|
  {
    assert |w + {e}| == |w| + 1;
  }

  lemma EvictionIsOffered(g: Graph, e: nat, ef: nat, before: set<nat>, w: set<nat>, wlen: nat, discarded: set<nat>,
                          f: nat, d: nat)
    requires w != {} && w !! discarded && e !in w && e !in discarded && before <= discarded
    requires Best(g, w, discarded - before, ef) && |w| == ef <= wlen && f in w && g.dist(e) < g.dist(f)
    requires d in w + {e} && forall x | x in w + {e} :: g.dist(x) <= g.dist(d)
    ensures Offered(g, e, ef, before, w, discarded, w + {e} - {d}, wlen + 1, discarded + {d}) && d != e
  {
    SwapKeepsSize(w, e, d);
    EvictionKeepsBest(g, w, discarded - before, ef, e, f, d);
    EvictionKeepsParts(e, before, w, discarded, d);
  }

  lemma EvictionKeepsBest(g: Graph, w: set<nat>, leftOver: set<nat>, ef: nat, e: nat, f: nat, d: nat)
    requires Best(g, w, leftOver, ef) && |w + {e} - {d}| == ef && f in w && e !in w && g.dist(e) < g.dist(f)
    requires d in w + {e} && forall x | x in w + {e} :: g.dist(x) <= g.dist(d)
    ensures Best(g, w + {e} - {d}, leftOver + {d}, ef) && e in w + {e} - {d}
  {
  }

  lemma EvictionKeepsParts(e: nat, before: set<nat>, w: set<nat>, discarded: set<nat>, d: nat)
    requires w !! discarded && e !in w && e !in discarded && before <= discarded && d in w + {e}
    ensures discarded + {d} - before == discarded - before + {d} && before <= discarded + {d}
    ensures w + {e} - {d} !! discarded + {d} && w + {e} - {d} + (discarded + {d}) == w + discarded + {e}
  {
  }

  /** One unvisited neighbour: it goes to C and W, maybe pushing the furthest out, or is discarded. */
  method Offer(g: Graph, e: nat, ef: nat, c: set<nat>, w: set<nat>, wlen: nat, discarded: set<nat>,
               ghost before: set<nat>)
    returns (c': set<nat>, w': set<nat>, wlen': nat, discarded': set<nat>)
    requires w != {} && w !! discarded && e !in w && e !in discarded && before <= discarded
    requires |w| == (if wlen <= ef then wlen else ef)
    requires Best(g, w, discarded - before, ef)
    ensures Offered(g, e, ef, before, w, discarded, w', wlen', discarded')
    ensures c <= c' <= c + {e} && w' - c' <= w - c
  {
    var alwaysAdd := wlen < ef;
    var f := Furthest(g, w);
    c', w', wlen', discarded' := c, w, wlen, discarded;
    if !(g.dist(e) < g.dist(f) || alwaysAdd) {
      discarded' := discarded + {e};
      NotAddedIsOffered(g, e, ef, before, w, wlen, discarded, f);
      return;
    }
    c', w', wlen' := c + {e}, w + {e}, wlen + 1;
    if wlen' > ef {
      var d := Furthest(g, w');
      w', discarded' := w' - {d}, discarded + {d};
      EvictionIsOffered(g, e, ef, before, w, wlen, discarded, f, d);
    } else {
      AddedIsOffered(g, e, ef, before, w, wlen, discarded);
    }
  }

  /** What the search knows while rest is still to be offered; done is what was handed out before it. */
  ghost predicate SearchState(g: Graph, start: nat, done: set<nat>, before: set<nat>, ef: nat, visited: set<nat>,
                              rest: set<nat>, w: set<nat>, wlen: nat, discarded: set<nat>) {
    && Parts(visited, done, w, discarded, rest)
    && Known(g, start, visited)
    && before <= discarded && w != {}
    && |w| == (if wlen <= ef then wlen else ef)
    && Best(g, w, discarded - before, ef)
  }

  ghost predicate Known(g: Graph, start: nat, visited: set<nat>) {
    visited <= g.nodes && forall x {:trigger Reachable(g, start, x)} | x in visited :: Reachable(g, start, x)
  }

  lemma RestShrinks(s: seq<nat>, i: nat)
    requires NoRepeats(s) && i < |s|
    ensures Members(s[i..]) == Members(s[i + 1..]) + {s[i]} && s[i] !in Members(s[i + 1..])
  {
  }

  lemma OfferedKeepsParts(visited: set<nat>, done: set<nat>, w: set<nat>, discarded: set<nat>, e: nat, rest: set<nat>,
                          w': set<nat>, discarded': set<nat>)
    requires Parts(visited, done, w, discarded, rest + {e}) && e !in rest
    requires w' !! discarded' && w' + discarded' == w + discarded + {e}
    ensures Parts(visited, done, w', discarded', rest)
  {
    var both := w + discarded + {e};
    assert done !! both && both !! rest;
    assert visited == done + both + rest;
    assert w' <= both && discarded' <= both;
  }

  lemma OfferedKeepsState(g: Graph, start: nat, done: set<nat>, before: set<nat>, ef: nat, visited: set<nat>, e: nat,
                          rest: set<nat>, w: set<nat>, discarded: set<nat>, w': set<nat>, wlen': nat,
                          discarded': set<nat>)
    requires Parts(visited, done, w, discarded, rest + {e}) && e !in rest && Known(g, start, visited)
    requires Offered(g, e, ef, before, w, discarded, w', wlen', discarded')
    ensures SearchState(g, start, done, before, ef, visited, rest, w', wlen', discarded')
  {
    OfferedKeepsParts(visited, done, w, discarded, e, rest, w', discarded');
  }

  /** The inner loop of HnswSearchLayer over the unvisited neighbours. */
  method OfferAll(g: Graph, unvisited: seq<nat>, ef: nat, c: set<nat>, w: set<nat>, wlen: nat, discarded: set<nat>,
                  ghost start: nat, ghost done: set<nat>, ghost before: set<nat>, ghost visited: set<nat>)
    returns (c': set<nat>, w': set<nat>, wlen': nat, discarded': set<nat>)
    requires NoRepeats(unvisited)
    requires SearchState(g, start, done, before, ef, visited, Members(unvisited), w, wlen, discarded)
    ensures SearchState(g, start, done, before, ef, visited, {}, w', wlen', discarded')
    ensures w' - c' <= w - c && c <= c' <= c + Members(unvisited)
  {
    c', w', wlen', discarded' := c, w, wlen, discarded;
    for i := 0 to |unvisited|
      invariant SearchState(g, start, done, before, ef, visited, Members(unvisited[i..]), w', wlen', discarded')
      invariant w' - c' <= w - c && c <= c' <= c + Members(unvisited)
    {
      var e := unvisited[i];
      RestShrinks(unvisited, i);
      ghost var wOld, discardedOld := w', discarded';
      c', w', wlen', discarded' := Offer(g, e, ef, c', w', wlen', discarded', before);
      OfferedKeepsState(g, start, done, before, ef, visited, e, Members(unvisited[i + 1..]), wOld, discardedOld, w',
                        wlen', discarded');
    }
    assert Members(unvisited[|unvisited|..]) == {};
  }

  lemma LoadKeepsKnown(g: Graph, start: nat, visited: set<nat>, n: nat)
    requires Known(g, start, visited) && g.Closed() && n in visited
    ensures Known(g, start, visited + Members(g.nbrs(n)))
  {
    assert Reachable(g, start, n);
    forall x | x in visited + Members(g.nbrs(n)) ensures Reachable(g, start, x) {
      if x !in visited { R.NextIsReachable(g.Next(), start, n, x); }
    }
  }

  lemma LoadKeepsState(g: Graph, start: nat, done: set<nat>, before: set<nat>, ef: nat, visited: set<nat>, n: nat,
                       visited': set<nat>, w: set<nat>, wlen: nat, discarded: set<nat>)
    requires SearchState(g, start, done, before, ef, visited, {}, w, wlen, discarded) && g.Closed()
    requires n in visited && visited' == visited + Members(g.nbrs(n))
    ensures SearchState(g, start, done, before, ef, visited', visited' - visited, w, wlen, discarded)
  {
    LoadKeepsKnown(g, start, visited, n);
    LoadKeepsParts(visited, visited', done, w, discarded);
  }

  lemma LoadKeepsParts(visited: set<nat>, visited': set<nat>, done: set<nat>, w: set<nat>, discarded: set<nat>)
    requires Parts(visited, done, w, discarded, {}) && visited <= visited'
    ensures Parts(visited', done, w, discarded, visited' - visited)
  {
    assert visited == done + w + discarded;
    assert visited' == visited + (visited' - visited);
  }

  /** Once every waiting candidate is further than all of W, nothing in W is waiting. */
  lemma NothingWaits(g: Graph, expanded: set<nat>, visited: set<nat>, c: set<nat>, w: set<nat>, n: nat, f: nat)
    requires Expanded(g, expanded + (w - c), visited)
    requires forall x | x in c :: g.dist(n) <= g.dist(x)
    requires forall x | x in w :: g.dist(x) <= g.dist(f)
    requires g.dist(n) > g.dist(f)
    ensures Expanded(g, expanded + w, visited)
  {
    assert w - c == w;
  }

  lemma StartsSettled(g: Graph, expanded: set<nat>, visited: set<nat>, ep: set<nat>)
    requires Expanded(g, expanded, visited)
    ensures Expanded(g, expanded + (ep - ep), visited)
  {
  }

  lemma EndsSettled(g: Graph, expanded: set<nat>, visited: set<nat>, c: set<nat>, w: set<nat>)
    requires Expanded(g, expanded + (w - c), visited) && c == {}
    ensures Expanded(g, expanded + w, visited)
  {
    assert w - c == w;
  }

  lemma SettledAfter(g: Graph, n: nat, expanded: set<nat>, visited: set<nat>, visited': set<nat>, c: set<nat>,
                     w: set<nat>, c': set<nat>, w': set<nat>)
    requires Expanded(g, expanded + (w - c), visited) && visited' == visited + Members(g.nbrs(n))
    requires w' - c' <= w - (c - {n})
    ensures Expanded(g, expanded + (w' - c'), visited')
  {
    forall x | x in expanded + (w' - c') ensures Members(g.nbrs(x)) <= visited' {
      assert x == n || x in expanded + (w - c);
    }
  }

  lemma SearchAdvances(nodes: set<nat>, visited: set<nat>, visited': set<nat>, c: set<nat>, c': set<nat>, n: nat)
    requires visited <= visited' <= nodes && n in c && c' <= c - {n} + (visited' - visited)
    ensures (visited == visited' && |c'| < |c|) || |nodes - visited'| < |nodes - visited|
  {
    if y :| y in visited' && y !in visited {
      Larger(nodes - visited', nodes - visited, y);
    } else {
      assert visited == visited';
      Larger(c', c, n);
    }
  }

  ghost predicate SearchLoop(g: Graph, start: nat, done: set<nat>, before: set<nat>, ef: nat, expanded: set<nat>,
                             visited: set<nat>, c: set<nat>, w: set<nat>, wlen: nat, discarded: set<nat>) {
    && SearchState(g, start, done, before, ef, visited, {}, w, wlen, discarded)
    && Expanded(g, expanded + (w - c), visited) && c <= visited
  }

  /** n is expanded when those of turned were; w are then the best of what the search has met, besides leftOver. */
  datatype Turn = Turn(n: nat, w: set<nat>, leftOver: set<nat>, turned: set<nat>, seen: set<nat>, after: set<nat>)

  /**
   n is as near as the best that have not had a turn, and no further than all of the best. The search has met
   ep and what was visited since it began.
   */
  ghost predicate IsTurn(g: Graph, ef: nat, ep: set<nat>, visited0: set<nat>, t: Turn) {
    && t.w + t.leftOver == ep + (t.seen - visited0) && |t.w| <= ef && Best(g, t.w, t.leftOver, ef)
    && t.n in t.w + t.leftOver && t.n !in t.turned
    && (exists x :: x in t.w && g.dist(t.n) <= g.dist(x))
    && (forall x | x in t.w && x !in t.turned :: g.dist(t.n) <= g.dist(x))
    && t.after == t.seen + Members(g.nbrs(t.n))
  }

  ghost predicate AreTurns(g: Graph, ef: nat, ep: set<nat>, visited0: set<nat>, turns: seq<Turn>) {
    forall k | 0 <= k < |turns| :: IsTurn(g, ef, ep, visited0, turns[k])
  }

  /** The turns come one after another; visited and turned are the sets after the last one. */
  ghost predicate TurnsTo(turns: seq<Turn>, visited0: set<nat>, visited: set<nat>, turned: set<nat>) {
    && (turns == [] ==> visited == visited0 && turned == {})
    && (turns != [] ==> turns[0].seen == visited0 && turns[0].turned == {})
    && (turns != [] ==>
        turns[|turns| - 1].after == visited && turns[|turns| - 1].turned + {turns[|turns| - 1].n} == turned)
    && forall k | 0 < k < |turns| ::
         turns[k].seen == turns[k - 1].after && turns[k].turned == turns[k - 1].turned + {turns[k - 1].n}
  }

  /** A best-first search from ep: it ends when all of W have had their turns. */
  ghost predicate IsSearch(g: Graph, ef: nat, ep: set<nat>, visited0: set<nat>, w: set<nat>, visited: set<nat>,
                           turns: seq<Turn>) {
    AreTurns(g, ef, ep, visited0, turns) && exists turned :: TurnsTo(turns, visited0, visited, turned) && w <= turned
  }

  /** The elements of C have been met and have had no turn; those of W that are not in C have had one. */
  ghost predicate Waiting(c: set<nat>, w: set<nat>, ep: set<nat>, visited0: set<nat>, visited: set<nat>,
                          turned: set<nat>) {
    c <= ep + (visited - visited0) && w - c <= turned && c !! turned && turned <= visited
  }

  lemma WaitingOn(c: set<nat>, w: set<nat>, ep: set<nat>, visited0: set<nat>, visited: set<nat>, turned: set<nat>,
                  n: nat, c': set<nat>, w': set<nat>, visited': set<nat>)
    requires Waiting(c, w, ep, visited0, visited, turned) && n in c && n in visited && visited0 <= visited <= visited'
    requires c' <= c - {n} + (visited' - visited) && w' - c' <= w - (c - {n})
    ensures Waiting(c', w', ep, visited0, visited', turned + {n})
  {
  }

  lemma OneMoreTurn(g: Graph, ef: nat, ep: set<nat>, visited0: set<nat>, turns: seq<Turn>, turn: Turn)
    requires AreTurns(g, ef, ep, visited0, turns) && IsTurn(g, ef, ep, visited0, turn)
    ensures AreTurns(g, ef, ep, visited0, turns + [turn])
  {
    forall k | 0 <= k < |turns| + 1 ensures IsTurn(g, ef, ep, visited0, (turns + [turn])[k]) {
      if k < |turns| {
        assert IsTurn(g, ef, ep, visited0, turns[k]);
        assert (turns + [turn])[k] == turns[k];
      }
    }
  }

  lemma LeadsOn(turns: seq<Turn>, visited0: set<nat>, visited: set<nat>, turned: set<nat>, turn: Turn)
    requires TurnsTo(turns, visited0, visited, turned) && turn.seen == visited && turn.turned == turned
    ensures TurnsTo(turns + [turn], visited0, turn.after, turned + {turn.n})
  {
  }

  /** What a search has met is in W or left over. */
  lemma MetIs(done: set<nat>, ep: set<nat>, before: set<nat>, visited0: set<nat>, w: set<nat>, discarded: set<nat>,
              visited: set<nat>)
    requires Parts(visited0, done, ep, before, {}) && Parts(visited, done, w, discarded, {})
    requires visited0 <= visited && before <= discarded
    ensures w + (discarded - before) == ep + (visited - visited0)
  {
  }

  ghost predicate Searching(g: Graph, ef: nat, ep: set<nat>, visited0: set<nat>, c: set<nat>, w: set<nat>,
                            visited: set<nat>, turned: set<nat>, turns: seq<Turn>) {
    && AreTurns(g, ef, ep, visited0, turns) && TurnsTo(turns, visited0, visited, turned)
    && Waiting(c, w, ep, visited0, visited, turned)
  }

  lemma TurnTaken(g: Graph, ef: nat, ep: set<nat>, visited0: set<nat>, c: set<nat>, w: set<nat>, leftOver: set<nat>,
                  visited: set<nat>, turned: set<nat>, turns: seq<Turn>, n: nat, f: nat, c': set<nat>, w': set<nat>,
                  visited': set<nat>)
    returns (turns': seq<Turn>)
    requires Searching(g, ef, ep, visited0, c, w, visited, turned, turns) && visited0 <= visited && n in visited
    requires |w| <= ef && Best(g, w, leftOver, ef) && w + leftOver == ep + (visited - visited0)
    requires n in c && f in w && g.dist(n) <= g.dist(f) && forall x | x in c :: g.dist(n) <= g.dist(x)
    requires c' <= c - {n} + (visited' - visited) && w' - c' <= w - (c - {n})
    requires visited' == visited + Members(g.nbrs(n))
    ensures Searching(g, ef, ep, visited0, c', w', visited', turned + {n}, turns')
  {
    var turn := Turn(n, w, leftOver, turned, visited, visited');
    forall x | x in w && x !in turned ensures g.dist(n) <= g.dist(x) {
      assert x in c;
    }
    assert IsTurn(g, ef, ep, visited0, turn);
    OneMoreTurn(g, ef, ep, visited0, turns, turn);
    LeadsOn(turns, visited0, visited, turned, turn);
    WaitingOn(c, w, ep, visited0, visited, turned, n, c', w', visited');
    turns' := turns + [turn];
  }

  lemma SearchIsOver(g: Graph, ef: nat, ep: set<nat>, visited0: set<nat>, c: set<nat>, w: set<nat>, visited: set<nat>,
                     turned: set<nat>, turns: seq<Turn>)
    requires Searching(g, ef, ep, visited0, c, w, visited, turned, turns) && c !! w
    ensures IsSearch(g, ef, ep, visited0, w, visited, turns)
  {
    assert w - c == w;
  }

  /** Loads the unvisited neighbours of n and offers each of them. */
  method ExpandOne(g: Graph, ef: nat, n: nat, c: set<nat>, w: set<nat>, wlen: nat, visited: set<nat>,
                   discarded: set<nat>, ghost start: nat, ghost done: set<nat>, ghost before: set<nat>,
                   ghost expanded: set<nat>)
    returns (c': set<nat>, w': set<nat>, wlen': nat, visited': set<nat>, discarded': set<nat>)
    requires g.Closed() && SearchLoop(g, start, done, before, ef, expanded, visited, c, w, wlen, discarded) && n in c
    ensures SearchLoop(g, start, done, before, ef, expanded, visited', c', w', wlen', discarded')
    ensures visited <= visited' <= g.nodes && c' <= c - {n} + (visited' - visited)
    ensures visited' == visited + Members(g.nbrs(n)) && w' - c' <= w - (c - {n})
  {
    var unvisited;
    unvisited, visited' := LoadUnvisited(g, n, visited);
    LoadKeepsState(g, start, done, before, ef, visited, n, visited', w, wlen, discarded);
    c', w', wlen', discarded' := OfferAll(g, unvisited, ef, c - {n}, w, wlen, discarded, start, done, before, visited');
    SettledAfter(g, n, expanded, visited, visited', c, w, c', w');
  }

  /** The main loop of HnswSearchLayer: expand the nearest waiting candidate until it is further than all of W. */
  method Expand(g: Graph, ef: nat, ep: set<nat>, visited: set<nat>, discarded: set<nat>, ghost start: nat,
                ghost done: set<nat>, ghost expanded: set<nat>)
    returns (w: set<nat>, visited': set<nat>, discarded': set<nat>, ghost turns: seq<Turn>)
    requires g.Closed() && SearchState(g, start, done, discarded, ef, visited, {}, ep, |ep|, discarded)
    requires Expanded(g, expanded, visited)
    ensures Parts(visited', done, w, discarded', {}) && Known(g, start, visited') && w != {} && |w| <= ef
    ensures Expanded(g, expanded + w, visited') && visited <= visited' && discarded <= discarded'
    ensures Best(g, w, discarded' - discarded, ef) && IsSearch(g, ef, ep, visited, w, visited', turns)
  {
    var c, wlen: nat := ep, |ep|;
    w, visited', discarded', turns := ep, visited, discarded, [];
    ghost var turned: set<nat> := {};
    StartsSettled(g, expanded, visited, ep);
    while c != {}
      invariant SearchLoop(g, start, done, discarded, ef, expanded, visited', c, w, wlen, discarded')
      invariant visited <= visited' && Searching(g, ef, ep, visited, c, w, visited', turned, turns)
      decreases |g.nodes - visited'|, |c|
    {
      var n, waiting := RemoveNearest(g, c);
      var f := Furthest(g, w);
      if g.dist(n) > g.dist(f) {
        NothingWaits(g, expanded, visited', c, w, n, f);
        SearchIsOver(g, ef, ep, visited, c, w, visited', turned, turns);
        return;
      }
      ghost var cOld, wOld, visitedOld, leftOver := c, w, visited', discarded' - discarded;
      MetIs(done, ep, discarded, visited, w, discarded', visited');
      c, w, wlen, visited', discarded' :=
        ExpandOne(g, ef, n, c, w, wlen, visited', discarded', start, done, discarded, expanded);
      turns := TurnTaken(g, ef, ep, visited, cOld, wOld, leftOver, visitedOld, turned, turns, n, f, c, w, visited');
      turned := turned + {n};
      SearchAdvances(g.nodes, visitedOld, visited', cOld, c, n);
    }
    EndsSettled(g, expanded, visited', c, w);
    SearchIsOver(g, ef, ep, visited, c, w, visited', turned, turns);
  }

  // ---------------------------------------------------------------------------------------
  // The result list and its heap TIDs
  // ---------------------------------------------------------------------------------------

  /** Furthest first, so that the last entry is a nearest one. */
  ghost predicate Descending(g: Graph, w: seq<nat>) {
    forall i, j | 0 <= i < j < |w| :: g.dist(w[j]) <= g.dist(w[i])
  }

  /** The closing loop of HnswSearchLayer empties W, furthest first. */
  method Drain(g: Graph, heap: set<nat>) returns (w: seq<nat>)
    ensures Members(w) == heap && NoRepeats(w) && Descending(g, w)
  {
    var rest := heap;
    w := [];
    while rest != {}
      invariant rest <= heap && Members(w) == heap - rest && NoRepeats(w) && Descending(g, w)
      invariant forall x, y | x in Members(w) && y in rest :: g.dist(y) <= g.dist(x)
      decreases |rest|
    {
      var f := Furthest(g, rest);
      assert f !in Members(w);
      assert Members(w + [f]) == Members(w) + {f};
      assert forall i | 0 <= i < |w| :: w[i] in Members(w);
      w, rest := w + [f], rest - {f};
    }
  }

  /** HnswSearchLayer: the ef nearest of what this search met, furthest first, and a pool of all the others. */
  method SearchLayer(g: Graph, ef: nat, ep: set<nat>, visited: set<nat>, discarded: set<nat>, ghost start: nat,
                     ghost done: set<nat>, ghost expanded: set<nat>)
    returns (w: seq<nat>, visited': set<nat>, discarded': set<nat>, ghost turns: seq<Turn>)
    requires g.Closed() && SearchState(g, start, done, discarded, ef, visited, {}, ep, |ep|, discarded)
    requires Expanded(g, expanded, visited)
    ensures Parts(visited', done, Members(w), discarded', {}) && Known(g, start, visited')
    ensures w != [] && |w| <= ef && NoRepeats(w) && Descending(g, w)
    ensures Expanded(g, expanded + Members(w), visited') && visited <= visited' && discarded <= discarded'
    ensures BestList(g, w, discarded' - discarded, ef) && IsSearch(g, ef, ep, visited, Members(w), visited', turns)
  {
    var heap;
    heap, visited', discarded', turns := Expand(g, ef, ep, visited, discarded, start, done, expanded);
    w := Drain(g, heap);
    SizeOfMembers(w);
  }

  /** A layer above: the same elements and distances, other neighbour lists. */
  ghost predicate IsLayer(h: Graph, g: Graph) {
    h.nodes == g.nodes && h.dist == g.dist && h.Closed()
  }

  /** No neighbour of x in this layer is nearer than x. */
  ghost predicate LocalMinimum(h: Graph, x: nat) {
    forall y | y in h.nbrs(x) :: h.dist(x) <= h.dist(y)
  }

  /** A search with ef 1 in an upper layer, without a pool. */
  method DescendOne(h: Graph, from: nat) returns (x: nat)
    requires h.Closed() && from in h.nodes
    ensures x in h.nodes && DescendsTo(h, from, x)
  {
    StartOfSearch(h, from, 1);
    var w, visited, discarded, turns := SearchLayer(h, 1, {from}, {from}, {}, from, {}, {});
    OnlyOneKept(h, w, from, visited, discarded);
    x := w[0];
  }

  lemma OnlyOneKept(h: Graph, w: seq<nat>, from: nat, visited: set<nat>, discarded: set<nat>)
    requires Parts(visited, {}, Members(w), discarded, {}) && {from} <= visited && Known(h, from, visited)
    requires w != [] && |w| <= 1 && Expanded(h, {} + Members(w), visited) && BestList(h, w, discarded - {}, 1)
    ensures w[0] in h.nodes && DescendsTo(h, from, w[0])
  {
    var x := w[0];
    assert w == [x] && Members(w) == {x} && x in {} + Members(w);
    assert x in visited && from in visited && Reachable(h, from, x);
    forall y | y in visited ensures h.dist(x) <= h.dist(y) {
      assert y == x || y in discarded - {};
    }
    assert Members(h.nbrs(x)) <= visited;
  }

  /** From x the search of layer h ends in y. */
  ghost predicate DescendsTo(h: Graph, x: nat, y: nat) {
    Reachable(h, x, y) && h.dist(y) <= h.dist(x) && LocalMinimum(h, y)
  }

  /** From entry one layer after another is searched, each from where the one above ended, the last one in start. */
  ghost predicate IsDescent(layers: seq<Graph>, entry: nat, start: nat, path: seq<nat>) {
    && path != [] && path[0] == entry && path[|path| - 1] == start && |path| <= |layers| + 1
    && forall i | 0 < i < |path| :: DescendsTo(layers[i - 1], path[i - 1], path[i])
  }

  /** The descent from the entry point through the upper layers, the top one first. */
  method Descend(g: Graph, layers: seq<Graph>, entry: nat) returns (start: nat, ghost path: seq<nat>)
    requires entry in g.nodes && forall h | h in layers :: IsLayer(h, g)
    ensures start in g.nodes && g.dist(start) <= g.dist(entry)
    ensures IsDescent(layers, entry, start, path) && |path| == |layers| + 1
  {
    start, path := entry, [entry];
    for i := 0 to |layers|
      invariant start in g.nodes && g.dist(start) <= g.dist(entry)
      invariant IsDescent(layers, entry, start, path) && |path| == i + 1
    {
      assert IsLayer(layers[i], g);
      start := DescendOne(layers[i], start);
      path := path + [start];
    }
  }

  datatype Tid = Tid(element: nat, slot: nat)
  datatype Mode = Off | Relaxed | Strict
  datatype Distance = MinusInfinity | Finite(value: real)

  /** The heap TIDs that the scan's copy of x still holds; left has only the counts that changed. */
  function Left(g: Graph, left: map<nat, nat>, x: nat): nat {
    if x in left then left[x] else g.heaptids(x)
  }

  /** All elements handed out, waiting in w and discarded together are the visited ones. */
  ghost predicate Pool(g: Graph, start: nat, visited: set<nat>, done: set<nat>, w: seq<nat>, discarded: set<nat>,
                       expanded: set<nat>, limitHit: bool) {
    && Parts(visited, done, Members(w), discarded, {}) && Known(g, start, visited)
    && NoRepeats(w) && Descending(g, w) && Expanded(g, expanded, visited)
    && (!limitHit ==> done + Members(w) <= expanded)
  }

  /** Only handed out elements and the last of w have given up TIDs; handed out elements have none left. */
  ghost predicate Counted(g: Graph, done: set<nat>, w: seq<nat>, left: map<nat, nat>) {
    && (forall x | x in done :: Left(g, left, x) == 0)
    && (forall x | x in left :: left[x] <= g.heaptids(x) && (x in done || (w != [] && x == w[|w| - 1])))
  }

  /** The TIDs taken so far are exactly the counted ones: each was emitted once or skipped once. */
  ghost predicate Logged(g: Graph, left: map<nat, nat>, emitted: seq<Tid>, skipped: set<Tid>) {
    && (forall t | t in emitted :: t !in skipped)
    && NoRepeats(emitted)
    && (forall t: Tid :: t in emitted || t in skipped <==>
        t.element in left && left[t.element] <= t.slot < g.heaptids(t.element))
  }

  /** The distances emitted never decrease, and none exceeds the previous distance; skipped ones were nearer than it. */
  ghost predicate Ordered(g: Graph, emitted: seq<Tid>, skipped: set<Tid>, previous: Distance) {
    && (forall i, j | 0 <= i < j < |emitted| :: g.dist(emitted[i].element) <= g.dist(emitted[j].element))
    && (forall t | t in emitted :: previous.Finite? && g.dist(t.element) <= previous.value)
    && (forall t | t in skipped :: previous.Finite? && g.dist(t.element) < previous.value)
  }

  ghost predicate Accounted(g: Graph, mode: Mode, left: map<nat, nat>, emitted: seq<Tid>, skipped: set<Tid>,
                            previous: Distance) {
    && Logged(g, left, emitted, skipped)
    && (if mode == Strict then Ordered(g, emitted, skipped, previous) else skipped == {})
  }

  /** Every heap TID of every element that can be reached from start was taken. */
  ghost predicate AllTaken(g: Graph, start: nat, emitted: seq<Tid>, skipped: set<Tid>) {
    forall t: Tid :: t in emitted || t in skipped <==> Reachable(g, start, t.element) && t.slot < g.heaptids(t.element)
  }

  lemma TakeIsLogged(g: Graph, left: map<nat, nat>, emitted: seq<Tid>, skipped: set<Tid>, x: nat, n: nat)
    requires Logged(g, left, emitted, skipped) && Left(g, left, x) == n + 1
    requires x in left ==> left[x] <= g.heaptids(x)
    ensures Logged(g, left[x := n], emitted + [Tid(x, n)], skipped)
    ensures Logged(g, left[x := n], emitted, skipped + {Tid(x, n)})
  {
    var t := Tid(x, n);
    assert t !in emitted && t !in skipped;
    forall u: Tid
      ensures u in emitted + [t] || u in skipped <==>
              u.element in left[x := n] && left[x := n][u.element] <= u.slot < g.heaptids(u.element)
      ensures u in emitted || u in skipped + {t} <==>
              u.element in left[x := n] && left[x := n][u.element] <= u.slot < g.heaptids(u.element)
    {
      assert (u in emitted || u in skipped) <==>
             (u.element in left && left[u.element] <= u.slot < g.heaptids(u.element));
    }
  }

  lemma EmitIsAccounted(g: Graph, mode: Mode, left: map<nat, nat>, emitted: seq<Tid>, skipped: set<Tid>,
                        previous: Distance, x: nat, n: nat, previous': Distance)
    requires Accounted(g, mode, left, emitted, skipped, previous) && Left(g, left, x) == n + 1
    requires x in left ==> left[x] <= g.heaptids(x)
    requires mode == Strict ==> previous' == Finite(g.dist(x)) && (previous.Finite? ==> previous.value <= g.dist(x))
    ensures Accounted(g, mode, left[x := n], emitted + [Tid(x, n)], skipped, previous')
  {
    TakeIsLogged(g, left, emitted, skipped, x, n);
    if mode == Strict {
      forall i | 0 <= i < |emitted| ensures g.dist(emitted[i].element) <= g.dist(x) {
        assert emitted[i] in emitted;
      }
    }
  }

  lemma SkipIsAccounted(g: Graph, left: map<nat, nat>, emitted: seq<Tid>, skipped: set<Tid>, previous: Distance,
                        x: nat, n: nat)
    requires Accounted(g, Strict, left, emitted, skipped, previous) && Left(g, left, x) == n + 1
    requires x in left ==> left[x] <= g.heaptids(x)
    requires previous.Finite? && g.dist(x) < previous.value
    ensures Accounted(g, Strict, left[x := n], emitted, skipped + {Tid(x, n)}, previous)
  {
    TakeIsLogged(g, left, emitted, skipped, x, n);
  }

  lemma TakeKeepsCounted(g: Graph, done: set<nat>, w: seq<nat>, left: map<nat, nat>, n: nat)
    requires Counted(g, done, w, left) && w != [] && w[|w| - 1] !in done && Left(g, left, w[|w| - 1]) == n + 1
    ensures Counted(g, done, w, left[w[|w| - 1] := n])
  {
    forall x | x in done ensures Left(g, left[w[|w| - 1] := n], x) == 0 {
      assert Left(g, left, x) == 0;
    }
  }

  lemma LastIsNew(g: Graph, start: nat, visited: set<nat>, done: set<nat>, w: seq<nat>, discarded: set<nat>,
                  expanded: set<nat>, limitHit: bool)
    requires w != [] && Pool(g, start, visited, done, w, discarded, expanded, limitHit)
    ensures w[|w| - 1] !in done && Descending(g, w)
  {
    assert w[|w| - 1] in Members(w);
  }

  lemma DropKeepsPool(g: Graph, start: nat, visited: set<nat>, done: seq<nat>, w: seq<nat>, discarded: set<nat>,
                      expanded: set<nat>, limitHit: bool)
    requires w != [] && NoRepeats(done) && Pool(g, start, visited, Members(done), w, discarded, expanded, limitHit)
    ensures Pool(g, start, visited, Members(done + [w[|w| - 1]]), w[..|w| - 1], discarded, expanded, limitHit)
    ensures NoRepeats(done + [w[|w| - 1]]) && |done| < |g.nodes|
  {
    LastPart(w);
    var x := w[|w| - 1];
    Appended(done, x);
    assert x in Members(w) && forall i | 0 <= i < |done| :: done[i] in Members(done);
    assert visited == Members(done) + {x} + Members(w[..|w| - 1]) + discarded + {};
    AtMostMembers(done + [x], g.nodes);
  }

  lemma Appended(s: seq<nat>, x: nat)
    ensures Members(s + [x]) == Members(s) + {x}
  {
  }

  lemma LastPart(w: seq<nat>)
    requires w != [] && NoRepeats(w)
    ensures Members(w) == Members(w[..|w| - 1]) + {w[|w| - 1]} && w[|w| - 1] !in Members(w[..|w| - 1])
  {
    assert w == w[..|w| - 1] + [w[|w| - 1]];
  }

  lemma DropKeepsCounted(g: Graph, done: seq<nat>, w: seq<nat>, left: map<nat, nat>)
    requires w != [] && Counted(g, Members(done), w, left) && Left(g, left, w[|w| - 1]) == 0
    ensures Counted(g, Members(done + [w[|w| - 1]]), w[..|w| - 1], left)
  {
    Appended(done, w[|w| - 1]);
  }

  /** The TIDs taken are those of the given elements. */
  ghost predicate TidsOf(g: Graph, elements: set<nat>, emitted: seq<Tid>, skipped: set<Tid>) {
    forall t: Tid :: t in emitted || t in skipped <==> t.element in elements && t.slot < g.heaptids(t.element)
  }

  /** Once the list is empty, exactly the TIDs of the elements handed out were taken. */
  lemma DoneWereTaken(g: Graph, done: set<nat>, left: map<nat, nat>, emitted: seq<Tid>, skipped: set<Tid>)
    requires Counted(g, done, [], left) && Logged(g, left, emitted, skipped)
    ensures TidsOf(g, done, emitted, skipped)
  {
    forall t: Tid
      ensures t in emitted || t in skipped <==> t.element in done && t.slot < g.heaptids(t.element)
    {
      assert (t in emitted || t in skipped) <==>
             (t.element in left && left[t.element] <= t.slot < g.heaptids(t.element));
      assert t.element in done ==> Left(g, left, t.element) == 0;
    }
  }

  lemma EverythingWasTaken(g: Graph, start: nat, visited: set<nat>, done: set<nat>, left: map<nat, nat>,
                           discarded: set<nat>, expanded: set<nat>, emitted: seq<Tid>, skipped: set<Tid>)
    requires Pool(g, start, visited, done, [], discarded, expanded, false) && discarded == {} && start in visited
    requires Counted(g, done, [], left) && Logged(g, left, emitted, skipped)
    ensures AllTaken(g, start, emitted, skipped)
  {
    assert visited == done;
    assert Expanded(g, visited, visited);
    DoneWereTaken(g, done, left, emitted, skipped);
    forall t: Tid
      ensures t.element in done <==> Reachable(g, start, t.element)
    {
      if Reachable(g, start, t.element) {
        R.ClosedHoldsReachable(g.Next(), start, visited, t.element);
      }
    }
  }

  /** ep lists n of the nearest elements of the pool, or all of them. */
  ghost predicate NearestOf(g: Graph, pool: set<nat>, ep: seq<nat>, rest: set<nat>, n: nat) {
    && Members(ep) + rest == pool && Members(ep) !! rest && NoRepeats(ep) && |ep| <= n
    && (rest != {} ==> |ep| == n)
    && forall x, y | x in ep && y in rest :: g.dist(x) <= g.dist(y)
  }

  method TakeNearest(g: Graph, pool: set<nat>, n: nat) returns (ep: seq<nat>, rest: set<nat>)
    ensures NearestOf(g, pool, ep, rest, n) && (n > 0 && pool != {} ==> ep != [])
  {
    ep, rest := [], pool;
    for i := 0 to n
      invariant NearestOf(g, pool, ep, rest, i)
      invariant i > 0 && pool != {} ==> ep != []
    {
      if rest == {} { break; }
      var c, others := RemoveNearest(g, rest);
      TakenOne(g, pool, ep, rest, i, c);
      ep, rest := ep + [c], others;
    }
  }

  lemma TakenOne(g: Graph, pool: set<nat>, ep: seq<nat>, rest: set<nat>, n: nat, c: nat)
    requires NearestOf(g, pool, ep, rest, n) && c in rest && forall x | x in rest :: g.dist(c) <= g.dist(x)
    ensures NearestOf(g, pool, ep + [c], rest - {c}, n + 1)
  {
    Appended(ep, c);
    assert c !in Members(ep);
    assert Members(ep) + {c} + (rest - {c}) == Members(ep) + rest;
  }

  lemma StartOfSearch(g: Graph, start: nat, ef: nat)
    requires start in g.nodes && ef > 0
    ensures SearchState(g, start, {}, {}, ef, {start}, {}, {start}, |{start}|, {})
  {
    R.StartIsReachable(g.Next(), start);
  }

  lemma ResumedParts(visited: set<nat>, done: set<nat>, pool: set<nat>, ep: set<nat>, rest: set<nat>)
    requires Parts(visited, done, Members([]), pool, {}) && ep + rest == pool && ep !! rest
    ensures Parts(visited, done, ep, rest, {})
  {
  }

  lemma StartOfResume(g: Graph, start: nat, done: set<nat>, ef: nat, visited: set<nat>, pool: set<nat>, ep: set<nat>,
                      rest: set<nat>, expanded: set<nat>, limitHit: bool)
    requires Pool(g, start, visited, done, [], pool, expanded, limitHit)
    requires ep + rest == pool && ep !! rest && |ep| <= ef && ep != {}
    ensures SearchState(g, start, done, rest, ef, visited, {}, ep, |ep|, rest)
  {
    ResumedParts(visited, done, pool, ep, rest);
    assert rest - rest == {};
  }

  lemma PopKeepsPool(g: Graph, start: nat, visited: set<nat>, done: set<nat>, pool: set<nat>, x: nat,
                     expanded: set<nat>, limitHit: bool)
    requires Pool(g, start, visited, done, [], pool, expanded, limitHit) && x in pool
    ensures Pool(g, start, visited, done, [x], pool - {x}, expanded, true)
  {
    assert Members([x]) == {x};
    assert visited == done + {x} + (pool - {x}) + {};
  }

  /** Takes the last heap TID of the last of w; a strict scan skips it when it is nearer than the previous one. */
  method TakeFrom(g: Graph, mode: Mode, w: seq<nat>, left: map<nat, nat>, previous: Distance, ghost done: set<nat>,
                  ghost emitted: seq<Tid>, ghost skipped: set<Tid>)
    returns (r: Option<Tid>, left': map<nat, nat>, previous': Distance, ghost emitted': seq<Tid>,
             ghost skipped': set<Tid>)
    requires Counted(g, done, w, left) && Accounted(g, mode, left, emitted, skipped, previous)
    requires w != [] && w[|w| - 1] !in done && Left(g, left, w[|w| - 1]) > 0
    ensures Counted(g, done, w, left') && Accounted(g, mode, left', emitted', skipped', previous')
    ensures var x, n := w[|w| - 1], Left(g, left, w[|w| - 1]) - 1;
      && left' == left[x := n] && Left(g, left', x) == n
      && r == (if mode == Strict && previous.Finite? && g.dist(x) < previous.value then None else Some(Tid(x, n)))
    ensures emitted' == (if r.Some? then emitted + [r.value] else emitted)
  {
    var x := w[|w| - 1];
    var n: nat := Left(g, left, x) - 1;
    left' := left[x := n];
    TakeKeepsCounted(g, done, w, left, n);
    if mode == Strict {
      if previous.Finite? && g.dist(x) < previous.value {
        SkipIsAccounted(g, left, emitted, skipped, previous, x, n);
        return None, left', previous, emitted, skipped + {Tid(x, n)};
      }
      previous' := Finite(g.dist(x));
    } else {
      previous' := previous;
    }
    EmitIsAccounted(g, mode, left, emitted, skipped, previous, x, n, previous');
    r, emitted', skipped' := Some(Tid(x, n)), emitted + [Tid(x, n)], skipped;
  }

  /** The source counts an element when it is first visited. */
  /** s has n elements. */
  ghost predicate IsCount(n: nat, s: set<nat>) {
    exists list: seq<nat> :: NoRepeats(list) && Members(list) == s && |list| == n
  }

  lemma CountIsSize(n: nat, s: set<nat>)
    requires IsCount(n, s)
    ensures n == |s|
  {
    var list: seq<nat> :| NoRepeats(list) && Members(list) == s && |list| == n;
    SizeOfMembers(list);
  }

  lemma {:induction false} SizeIsCount(s: set<nat>) returns (list: seq<nat>)
    ensures NoRepeats(list) && Members(list) == s && |list| == |s|
  {
    if s == {} {
      list := [];
    } else {
      var x :| x in s;
      var rest := SizeIsCount(s - {x});
      assert x !in Members(rest);
      Appended(rest, x);
      list := rest + [x];
    }
  }

  lemma CountIsAtMost(n: nat, s: set<nat>, t: set<nat>)
    requires IsCount(n, s) && s <= t
    ensures n <= |t|
  {
    CountIsSize(n, s);
    SubsetSize(s, t);
  }

  method CountVisited(visited: set<nat>) returns (n: nat)
    ensures n == |visited| && IsCount(n, visited)
  {
    n := |visited|;
    ghost var list := SizeIsCount(visited);
  }

  lemma NoElements(s: seq<nat>)
    ensures Members(s) == {} <==> s == []
  {
    if s != [] { assert s[0] in Members(s); }
  }

  lemma NothingHandedOut(g: Graph, done: seq<nat>, w: seq<nat>, discarded: set<nat>, left: map<nat, nat>)
    requires Parts({}, Members(done), Members(w), discarded, {}) && Counted(g, Members(done), w, left)
    ensures done == [] && w == [] && discarded == {} && left == map[]
  {
    NoElements(done);
    NoElements(w);
    assert left.Keys == {};
  }

  lemma SearchKeepsPool(g: Graph, start: nat, visited: set<nat>, done: set<nat>, w: seq<nat>, discarded: set<nat>,
                        expanded: set<nat>, expanded': set<nat>, limitHit: bool)
    requires Parts(visited, done, Members(w), discarded, {}) && Known(g, start, visited)
    requires w != [] && NoRepeats(w) && Descending(g, w)
    requires expanded' == expanded + Members(w) && Expanded(g, expanded', visited) && (!limitHit ==> done <= expanded)
    ensures Pool(g, start, visited, done, w, discarded, expanded', limitHit)
  {
  }

  // The first batch

  /** The nearest ef of the elements met so far, furthest first; all their neighbours were met too. */
  ghost predicate FirstBatch(g: Graph, start: nat, ef: nat, batch: seq<nat>, met: set<nat>) {
    && batch != [] && |batch| <= ef && NoRepeats(batch) && Descending(g, batch)
    && Members(batch) <= met && start in met && Known(g, start, met)
    && BestList(g, batch, met - Members(batch), ef) && Expanded(g, Members(batch), met)
  }

  /** w is what is left of the batch, and the rest has been handed out. */
  ghost predicate LeftOf(batch: seq<nat>, done: set<nat>, w: seq<nat>) {
    w <= batch && done == Members(batch[|w|..])
  }

  /** Distances never decrease, and nothing that is left is nearer than what was emitted. */
  ghost predicate InOrder(g: Graph, emitted: seq<Tid>, w: seq<nat>) {
    && (forall i, j | 0 <= i < j < |emitted| :: g.dist(emitted[i].element) <= g.dist(emitted[j].element))
    && forall t, x | t in emitted && x in w :: g.dist(t.element) <= g.dist(x)
  }

  lemma BatchStarts(g: Graph, start: nat, ef: nat, w: seq<nat>, visited: set<nat>, discarded: set<nat>)
    requires Parts(visited, {}, Members(w), discarded, {}) && Known(g, start, visited) && start in visited
    requires w != [] && |w| <= ef && NoRepeats(w) && Descending(g, w)
    requires BestList(g, w, discarded - {}, ef) && Expanded(g, {} + Members(w), visited)
    ensures FirstBatch(g, start, ef, w, visited) && LeftOf(w, {}, w)
    ensures Pool(g, start, visited, {}, w, discarded, {} + Members(w), false)
  {
    assert visited - Members(w) == discarded && discarded - {} == discarded && {} + Members(w) == Members(w);
    assert w[|w|..] == [];
  }

  lemma DropKeepsLeft(batch: seq<nat>, done: seq<nat>, w: seq<nat>)
    requires LeftOf(batch, Members(done), w) && w != []
    ensures LeftOf(batch, Members(done + [w[|w| - 1]]), w[..|w| - 1])
  {
    var n := |w| - 1;
    assert batch[n..] == [batch[n]] + batch[n + 1..];
    assert Members(batch[n..]) == Members(batch[n + 1..]) + {batch[n]};
    assert Members(done + [w[n]]) == Members(done) + {w[n]};
  }

  lemma EmitKeepsOrder(g: Graph, emitted: seq<Tid>, w: seq<nat>, t: Tid)
    requires InOrder(g, emitted, w) && Descending(g, w) && w != [] && t.element == w[|w| - 1]
    ensures InOrder(g, emitted + [t], w)
  {
    forall x | x in w
      ensures g.dist(t.element) <= g.dist(x)
    {
      var i :| 0 <= i < |w| && w[i] == x;
      assert i < |w| - 1 ==> g.dist(w[|w| - 1]) <= g.dist(w[i]);
    }
  }

  method SearchFromStart(g: Graph, start: nat, ef: nat)
    returns (w: seq<nat>, visited: set<nat>, discarded: set<nat>, tuples: nat, ghost expanded: set<nat>,
             ghost turns: seq<Turn>)
    requires g.Closed() && start in g.nodes && ef > 0
    ensures Pool(g, start, visited, {}, w, discarded, expanded, false) && start in visited
    ensures FirstBatch(g, start, ef, w, visited) && LeftOf(w, {}, w) && IsCount(tuples, visited)
    ensures IsSearch(g, ef, {start}, {start}, Members(w), visited, turns)
  {
    StartOfSearch(g, start, ef);
    w, visited, discarded, turns := SearchLayer(g, ef, {start}, {start}, {}, start, {}, {});
    tuples := CountVisited(visited);
    expanded := {} + Members(w);
    BatchStarts(g, start, ef, w, visited, discarded);
  }

  /** The search goes on from the nearest ef discarded elements and keeps the nearest ef of them and what it met. */
  ghost predicate ResumedFrom(g: Graph, pool: set<nat>, ep: seq<nat>, rest: set<nat>, ef: nat, w: seq<nat>,
                              pool': set<nat>) {
    NearestOf(g, pool, ep, rest, ef) && rest <= pool' && |w| <= ef && BestList(g, w, pool' - rest, ef)
  }

  method SearchFromPool(g: Graph, start: nat, ef: nat, visited: set<nat>, discarded: set<nat>, ghost done: set<nat>,
                        ghost expanded: set<nat>, ghost limitHit: bool)
    returns (w: seq<nat>, visited': set<nat>, discarded': set<nat>, tuples: nat, ghost expanded': set<nat>,
             ghost ep: seq<nat>, ghost rest: set<nat>)
    requires g.Closed() && ef > 0 && discarded != {} && Pool(g, start, visited, done, [], discarded, expanded, limitHit)
    ensures Pool(g, start, visited', done, w, discarded', expanded', limitHit) && w != []
    ensures visited <= visited' && IsCount(tuples, visited')
    ensures ResumedFrom(g, discarded, ep, rest, ef, w, discarded')
  {
    var from, others := TakeNearest(g, discarded, ef);
    ep, rest := from, others;
    SizeOfMembers(from);
    assert from[0] in Members(from);
    StartOfResume(g, start, done, ef, visited, discarded, Members(from), others, expanded, limitHit);
    ghost var turns;
    w, visited', discarded', turns := SearchLayer(g, ef, Members(from), visited, others, start, done, expanded);
    tuples := CountVisited(visited');
    expanded' := expanded + Members(w);
    SearchKeepsPool(g, start, visited', done, w, discarded', expanded, expanded', limitHit);
  }

  // ---------------------------------------------------------------------------------------
  // What a scan keeps
  // ---------------------------------------------------------------------------------------

  /** The account of elements. */
  ghost predicate SearchOk(g: Graph, hasEntry: bool, start: nat, first: bool, w: seq<nat>, visited: set<nat>,
                           discarded: set<nat>, tuples: nat, done: seq<nat>, expanded: set<nat>, limitHit: bool) {
    && g.Closed() && (hasEntry ==> start in g.nodes)
    && Pool(g, start, visited, Members(done), w, discarded, expanded, limitHit)
    && (if first || !hasEntry then visited == {} else start in visited)
    && IsCount(tuples, visited) && NoRepeats(done) && |done| <= |g.nodes|
  }

  /** The account of TIDs. */
  ghost predicate LogOk(g: Graph, mode: Mode, w: seq<nat>, left: map<nat, nat>, previous: Distance, done: seq<nat>,
                        emitted: seq<Tid>, skipped: set<Tid>) {
    Counted(g, Members(done), w, left) && Accounted(g, mode, left, emitted, skipped, previous)
  }

  /** Until the list is refilled, the first batch is handed out, nearest first; with mode Off it is never refilled. */
  ghost predicate BatchOk(g: Graph, mode: Mode, w: seq<nat>, done: seq<nat>, emitted: seq<Tid>, batch: seq<nat>,
                          resumed: bool) {
    && (mode == Off ==> !resumed)
    && if resumed then Members(batch) <= Members(done)
       else LeftOf(batch, Members(done), w) && InOrder(g, emitted, w)
  }

  lemma FillKeepsLog(g: Graph, mode: Mode, w: seq<nat>, left: map<nat, nat>, previous: Distance, done: seq<nat>,
                     emitted: seq<Tid>, skipped: set<Tid>)
    requires LogOk(g, mode, [], left, previous, done, emitted, skipped)
    ensures LogOk(g, mode, w, left, previous, done, emitted, skipped)
  {
  }

  lemma FillKeepsBatch(g: Graph, mode: Mode, w: seq<nat>, done: seq<nat>, emitted: seq<Tid>, batch: seq<nat>,
                       resumed: bool)
    requires BatchOk(g, mode, [], done, emitted, batch, resumed) && mode != Off
    ensures BatchOk(g, mode, w, done, emitted, batch, true)
  {
    if !resumed { assert batch[0..] == batch; }
  }

  method FirstSearch(g: Graph, hasEntry: bool, start: nat, mode: Mode, ef: nat, ghost visited: set<nat>,
                     ghost tuples: nat, ghost done: seq<nat>, ghost expanded: set<nat>, ghost limitHit: bool)
    returns (w': seq<nat>, visited': set<nat>, discarded': set<nat>, tuples': nat, ghost expanded': set<nat>)
    requires SearchOk(g, hasEntry, start, true, [], visited, {}, tuples, done, expanded, limitHit) && ef > 0 &&
             done == []
    ensures SearchOk(g, hasEntry, start, false, w', visited', discarded', tuples', done, expanded', limitHit)
    ensures if hasEntry then FirstBatch(g, start, ef, w', visited') else w' == []
    ensures BatchOk(g, mode, w', done, [], w', false)
  {
    assert visited == {};
    w', visited', discarded', tuples', expanded' := [], {}, {}, 0, expanded;
    if hasEntry {
      ghost var turns;
      w', visited', discarded', tuples', expanded', turns := SearchFromStart(g, start, ef);
    } else {
      assert IsCount(tuples, {});
      CountIsSize(tuples, {});
    }
    assert w'[|w'|..] == [];
  }

  method NextSearch(g: Graph, hasEntry: bool, start: nat, ef: nat, visited: set<nat>, discarded: set<nat>,
                    ghost tuples: nat, ghost done: seq<nat>, ghost expanded: set<nat>, ghost limitHit: bool)
    returns (w': seq<nat>, visited': set<nat>, discarded': set<nat>, tuples': nat, ghost expanded': set<nat>,
             ghost ep: seq<nat>, ghost rest: set<nat>)
    requires SearchOk(g, hasEntry, start, false, [], visited, discarded, tuples, done, expanded, limitHit) && ef > 0
    requires hasEntry && discarded != {}
    ensures SearchOk(g, hasEntry, start, false, w', visited', discarded', tuples', done, expanded', limitHit)
    ensures w' != [] && visited <= visited' && ResumedFrom(g, discarded, ep, rest, ef, w', discarded')
  {
    w', visited', discarded', tuples', expanded', ep, rest :=
      SearchFromPool(g, start, ef, visited, discarded, Members(done), expanded, limitHit);
  }

  lemma PopKeepsSearch(g: Graph, hasEntry: bool, start: nat, visited: set<nat>, discarded: set<nat>, tuples: nat,
                       done: seq<nat>, expanded: set<nat>, limitHit: bool, x: nat)
    requires SearchOk(g, hasEntry, start, false, [], visited, discarded, tuples, done, expanded, limitHit)
    requires x in discarded
    ensures SearchOk(g, hasEntry, start, false, [x], visited, discarded - {x}, tuples, done, expanded, true)
  {
    PopKeepsPool(g, start, visited, Members(done), discarded, x, expanded, limitHit);
  }

  lemma DropKeepsSearch(g: Graph, hasEntry: bool, start: nat, w: seq<nat>, visited: set<nat>, discarded: set<nat>,
                        tuples: nat, done: seq<nat>, expanded: set<nat>, limitHit: bool)
    requires SearchOk(g, hasEntry, start, false, w, visited, discarded, tuples, done, expanded, limitHit) && w != []
    ensures SearchOk(g, hasEntry, start, false, w[..|w| - 1], visited, discarded, tuples, done + [w[|w| - 1]], expanded,
                     limitHit)
  {
    DropKeepsPool(g, start, visited, done, w, discarded, expanded, limitHit);
  }

  lemma DropKeepsLog(g: Graph, mode: Mode, w: seq<nat>, left: map<nat, nat>, previous: Distance, done: seq<nat>,
                     emitted: seq<Tid>, skipped: set<Tid>, batch: seq<nat>, resumed: bool)
    requires LogOk(g, mode, w, left, previous, done, emitted, skipped) && w != [] && Left(g, left, w[|w| - 1]) == 0
    requires BatchOk(g, mode, w, done, emitted, batch, resumed)
    ensures LogOk(g, mode, w[..|w| - 1], left, previous, done + [w[|w| - 1]], emitted, skipped)
    ensures BatchOk(g, mode, w[..|w| - 1], done + [w[|w| - 1]], emitted, batch, resumed)
  {
    DropKeepsCounted(g, done, w, left);
    if resumed { Appended(done, w[|w| - 1]); } else { DropKeepsLeft(batch, done, w); }
  }

  lemma TakeKeepsBatch(g: Graph, mode: Mode, w: seq<nat>, done: seq<nat>, emitted: seq<Tid>, batch: seq<nat>,
                       resumed: bool, r: Option<Tid>)
    requires BatchOk(g, mode, w, done, emitted, batch, resumed) && Descending(g, w) && w != []
    requires r.Some? ==> r.value.element == w[|w| - 1]
    ensures BatchOk(g, mode, w, done, if r.Some? then emitted + [r.value] else emitted, batch, resumed)
  {
    if r.Some? && !resumed { EmitKeepsOrder(g, emitted, w, r.value); }
  }

  /** TakeFrom, with what the scan keeps. */
  method TakeLast(g: Graph, mode: Mode, w: seq<nat>, left: map<nat, nat>, previous: Distance, ghost done: seq<nat>,
                  ghost emitted: seq<Tid>, ghost skipped: set<Tid>, ghost batch: seq<nat>, ghost resumed: bool)
    returns (r: Option<Tid>, left': map<nat, nat>, previous': Distance, ghost emitted': seq<Tid>,
             ghost skipped': set<Tid>)
    requires LogOk(g, mode, w, left, previous, done, emitted, skipped)
    requires BatchOk(g, mode, w, done, emitted, batch, resumed) && Descending(g, w)
    requires w != [] && w[|w| - 1] !in Members(done) && Left(g, left, w[|w| - 1]) > 0
    ensures LogOk(g, mode, w, left', previous', done, emitted', skipped')
    ensures BatchOk(g, mode, w, done, emitted', batch, resumed)
    ensures emitted' == (if r.Some? then emitted + [r.value] else emitted)
    ensures Left(g, left', w[|w| - 1]) == Left(g, left, w[|w| - 1]) - 1
  {
    r, left', previous', emitted', skipped' := TakeFrom(g, mode, w, left, previous, Members(done), emitted, skipped);
    TakeKeepsBatch(g, mode, w, done, emitted, batch, resumed, r);
  }

  /** Nothing is left of the list, so everything handed out was taken. */
  lemma ListIsUsedUp(g: Graph, mode: Mode, left: map<nat, nat>, previous: Distance, done: seq<nat>, emitted: seq<Tid>,
                     skipped: set<Tid>, batch: seq<nat>, resumed: bool)
    requires LogOk(g, mode, [], left, previous, done, emitted, skipped)
    requires BatchOk(g, mode, [], done, emitted, batch, resumed)
    ensures TidsOf(g, Members(done), emitted, skipped) && (!resumed ==> Members(done) == Members(batch))
    ensures mode != Strict ==> skipped == {}
  {
    DoneWereTaken(g, Members(done), left, emitted, skipped);
    assert batch[0..] == batch;
  }
}
