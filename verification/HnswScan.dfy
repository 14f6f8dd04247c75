/**
 The iterative scan of src/hnswscan.c: the fields of HnswScanOpaque, the methods that update them, and
 whole scans. What they keep is stated in IterativeScan.
 */
module HnswScans {
  import opened Options
  import opened Orders
  import opened IterativeScan

  /**
   HnswScanOpaque. With mode Off the source has no pool of discarded candidates; here that pool is then
   never read.
   */
  class HnswScan {
    const g: Graph
    const hasEntry: bool
    /** Where the descent through the upper levels ended. */
    const start: nat
    const mode: Mode
    const initialEf: nat
    const efSearch: nat
    const maxTuples: nat

    var first: bool
    var w: seq<nat>
    var visited: set<nat>
    var discarded: set<nat>
    var left: map<nat, nat>
    var tuples: nat
    var previousDistance: Distance

    ghost var done: seq<nat>
    ghost var expanded: set<nat>
    ghost var emitted: seq<Tid>
    ghost var skipped: set<Tid>
    /** A discarded element was handed out without being expanded. */
    ghost var limitHit: bool
    /** What the first search returned, what it had met, and whether the list was refilled since. */
    ghost var batch: seq<nat>
    ghost var met: set<nat>
    ghost var resumed: bool

    ghost predicate Valid()
      reads this
    {
      initialEf > 0 && efSearch > 0 && (first ==> emitted == [] && !resumed) && Searched() && Logged()
    }

    ghost predicate Searched()
      reads this`first, this`w, this`visited, this`discarded, this`tuples, this`done, this`expanded, this`limitHit
    {
      SearchOk(g, hasEntry, start, first, w, visited, discarded, tuples, done, expanded, limitHit)
    }

    ghost predicate Logged()
      reads this`first, this`w, this`left, this`previousDistance, this`done, this`emitted, this`skipped,
            this`batch, this`resumed
    {
      && LogOk(g, mode, w, left, previousDistance, done, emitted, skipped)
      && (!first ==> BatchOk(g, mode, w, done, emitted, batch, resumed))
    }

    constructor (g: Graph, hasEntry: bool, start: nat, mode: Mode, initialEf: nat, efSearch: nat, maxTuples: nat)
      requires g.Closed() && initialEf > 0 && efSearch > 0 && (hasEntry ==> start in g.nodes)
      ensures Valid() && first && emitted == [] && skipped == {} && !limitHit && !resumed
      ensures this.g == g && this.hasEntry == hasEntry && this.start == start && this.mode == mode &&
              this.initialEf == initialEf && this.efSearch == efSearch && this.maxTuples == maxTuples
    {
      this.g, this.hasEntry, this.start, this.mode := g, hasEntry, start, mode;
      this.initialEf, this.efSearch, this.maxTuples := initialEf, efSearch, maxTuples;
      first, w, visited, discarded, left, tuples, previousDistance := true, [], {}, {}, map[], 0, MinusInfinity;
      done, expanded, emitted, skipped, limitHit := [], {}, [], {}, false;
      batch, met, resumed := [], {}, false;
    }

    /** GetScanItems at layer 0. */
    method GetScanItems()
      requires Valid() && first
      modifies this`first, this`w, this`visited, this`discarded, this`expanded, this`tuples, this`batch, this`met
      ensures Valid() && !first && w == batch
      ensures if hasEntry then FirstBatch(g, start, initialEf, batch, met) else batch == []
    {
      NothingHandedOut(g, done, w, discarded, left);
      SearchEntry();
      FillKeepsLog(g, mode, w, left, previousDistance, done, emitted, skipped);
    }

    method SearchEntry()
      requires Searched() && first && initialEf > 0 && done == [] && w == [] && discarded == {}
      modifies this`first, this`w, this`visited, this`discarded, this`expanded, this`tuples, this`batch, this`met
      ensures Searched() && !first && w == batch && BatchOk(g, mode, w, done, [], batch, false)
      ensures if hasEntry then FirstBatch(g, start, initialEf, batch, met) else batch == []
    {
      first := false;
      w, visited, discarded, tuples, expanded :=
        FirstSearch(g, hasEntry, start, mode, initialEf, visited, tuples, done, expanded, limitHit);
      batch, met := w, visited;
    }

    /** ResumeScanItems: the nearest discarded elements start another search that keeps the visited marks. */
    method ResumeScanItems() returns (ghost ep: seq<nat>, ghost rest: set<nat>)
      requires Valid() && !first && hasEntry && w == [] && mode != Off
      modifies this`w, this`visited, this`discarded, this`expanded, this`tuples, this`resumed
      ensures Valid()
      ensures if old(discarded) == {} then w == [] && discarded == {}
              else w != [] && ResumedFrom(g, old(discarded), ep, rest, efSearch, w, discarded)
    {
      ep, rest := [], {};
      if discarded != {} { ep, rest := SearchPool(); }
    }

    method SearchPool() returns (ghost ep: seq<nat>, ghost rest: set<nat>)
      requires Valid() && !first && hasEntry && w == [] && mode != Off && discarded != {}
      modifies this`w, this`visited, this`discarded, this`expanded, this`tuples, this`resumed
      ensures Valid() && w != [] && ResumedFrom(g, old(discarded), ep, rest, efSearch, w, discarded)
    {
      ep, rest := SearchOn();
      FillKeepsLog(g, mode, w, left, previousDistance, done, emitted, skipped);
      FillKeepsBatch(g, mode, w, done, emitted, batch, resumed);
      resumed := true;
    }

    method SearchOn() returns (ghost ep: seq<nat>, ghost rest: set<nat>)
      requires Searched() && !first && efSearch > 0 && hasEntry && w == [] && discarded != {}
      modifies this`w, this`visited, this`discarded, this`expanded, this`tuples
      ensures Searched() && w != [] && ResumedFrom(g, old(discarded), ep, rest, efSearch, w, discarded)
    {
      w, visited, discarded, tuples, expanded, ep, rest :=
        NextSearch(g, hasEntry, start, efSearch, visited, discarded, tuples, done, expanded, limitHit);
    }

    /** Past a limit, the nearest discarded element is handed out without being expanded. */
    method PopDiscarded()
      requires Valid() && !first && w == [] && discarded != {} && mode != Off
      modifies this`w, this`discarded, this`limitHit, this`resumed
      ensures Valid() && |w| == 1 && limitHit
      ensures w[0] in old(discarded) && forall x | x in old(discarded) :: g.dist(w[0]) <= g.dist(x)
    {
      var x, rest := RemoveNearest(g, discarded);
      PopKeepsSearch(g, hasEntry, start, visited, discarded, tuples, done, expanded, limitHit, x);
      FillKeepsLog(g, mode, [x], left, previousDistance, done, emitted, skipped);
      FillKeepsBatch(g, mode, [x], done, emitted, batch, resumed);
      w, discarded, limitHit, resumed := [x], rest, true, true;
    }

    method DropLast()
      requires Valid() && !first && w != [] && Left(g, left, w[|w| - 1]) == 0
      modifies this`w, this`done
      ensures Valid() && |old(done)| < |done|
    {
      var rest := w[..|w| - 1];
      ghost var done' := done + [w[|w| - 1]];
      DropKeepsSearch(g, hasEntry, start, w, visited, discarded, tuples, done, expanded, limitHit);
      DropKeepsLog(g, mode, w, left, previousDistance, done, emitted, skipped, batch, resumed);
      w, done := rest, done';
    }

    method TakeTid() returns (r: Option<Tid>)
      requires Logged() && !first && Descending(g, w) && w != [] && w[|w| - 1] !in Members(done) && LastLeft() > 0
      modifies this`left, this`previousDistance, this`emitted, this`skipped
      ensures Logged() && emitted == (if r.Some? then old(emitted) + [r.value] else old(emitted))
      ensures LastLeft() == old(LastLeft()) - 1
    {
      var counts, d;
      ghost var log, past;
      r, counts, d, log, past := TakeLast(g, mode, w, left, previousDistance, done, emitted, skipped, batch, resumed);
      left, previousDistance, emitted, skipped := counts, d, log, past;
    }

    method TakeLastTid() returns (r: Option<Tid>)
      requires Valid() && !first && w != [] && LastLeft() > 0
      modifies this`left, this`previousDistance, this`emitted, this`skipped
      ensures Valid() && emitted == (if r.Some? then old(emitted) + [r.value] else old(emitted))
      ensures LastLeft() == old(LastLeft()) - 1
    {
      LastIsNew(g, start, visited, Members(done), w, discarded, expanded, limitHit);
      r := TakeTid();
    }

    /** Brings elements back into the empty list w, if there are any. */
    method Refill(memoryFull: bool)
      requires Valid() && !first && w == []
      modifies this`w, this`visited, this`discarded, this`expanded, this`tuples, this`limitHit, this`resumed
      ensures Valid() && (old(limitHit) ==> limitHit) && (old(tuples) >= maxTuples ==> tuples == old(tuples))
      ensures limitHit && !old(limitHit) ==> memoryFull || tuples >= maxTuples
      ensures w == [] && hasEntry ==> AtEnd()
    {
      ListIsUsedUp(g, mode, left, previousDistance, done, emitted, skipped, batch, resumed);
      if mode == Off || !hasEntry { return; }
      if tuples >= maxTuples || memoryFull {
        if discarded != {} {
          PopDiscarded();
          return;
        }
      } else {
        ghost var ep, rest := ResumeScanItems();
      }
      if w == [] { NothingIsLeft(); }
    }

    lemma NothingIsLeft()
      requires Valid() && !first && w == [] && discarded == {} && hasEntry
      ensures visited == Members(done)
      ensures !limitHit ==> AllTaken(g, start, emitted, skipped)
    {
      if !limitHit {
        EverythingWasTaken(g, start, visited, Members(done), left, discarded, expanded, emitted, skipped);
      }
    }

    /** Removes the last element if it has no heap TIDs left, and takes one of them otherwise. */
    method TakeOrDrop() returns (r: Option<Tid>)
      requires Valid() && !first && w != []
      modifies this`w, this`done, this`left, this`previousDistance, this`emitted, this`skipped
      ensures Valid() && emitted == (if r.Some? then old(emitted) + [r.value] else old(emitted))
      ensures |old(done)| < |done| || (done == old(done) && w == old(w) && LastLeft() < old(LastLeft()))
    {
      if Left(g, left, w[|w| - 1]) == 0 {
        DropLast();
        r := None;
      } else {
        r := TakeLastTid();
      }
    }

    function LastLeft(): nat
      reads this
    {
      if w == [] then 0 else Left(g, left, w[|w| - 1])
    }

    /**
     hnswgettuple. When the iterative scan is off, the end is reached once the first batch is used
     up; else once everything that was met has been handed out.
     */
    method GetTuple(memoryFull: bool) returns (r: Option<Tid>)
      requires Valid()
      modifies this
      ensures Valid() && !first
      ensures emitted == (if r.Some? then old(emitted) + [r.value] else old(emitted))
      ensures (old(limitHit) ==> limitHit) && (limitHit && !old(limitHit) ==> memoryFull || tuples >= maxTuples)
      ensures if !old(first) then batch == old(batch) && met == old(met)
              else if hasEntry then FirstBatch(g, start, initialEf, batch, met)
              else batch == []
      ensures r.None? && hasEntry && mode == Off ==> TidsOf(g, Members(batch), emitted, skipped)
      ensures r.None? && hasEntry && mode != Off ==> TidsOf(g, visited, emitted, skipped)
      ensures r.None? && hasEntry && mode != Off && !limitHit ==> AllTaken(g, start, emitted, skipped)
    {
      if first { GetScanItems(); }
      r := NextTuple(memoryFull);
    }

    lemma EmittedFit()
      requires Valid()
      ensures |emitted| <= |AllTids(g)|
    {
      EmittedAtMostAll(g, start, visited, Members(done), w, discarded, left, emitted, skipped);
    }

    /** What the end of a scan means. */
    ghost predicate AtEnd()
      reads this
    {
      && (mode == Off ==> TidsOf(g, Members(batch), emitted, skipped))
      && (mode != Off ==> TidsOf(g, visited, emitted, skipped))
      && (mode != Off && !limitHit ==> AllTaken(g, start, emitted, skipped))
    }

    method NextTuple(memoryFull: bool) returns (r: Option<Tid>)
      requires Valid() && !first
      modifies this`w, this`visited, this`discarded, this`left, this`tuples, this`previousDistance, this`done,
               this`expanded, this`emitted, this`skipped, this`limitHit, this`resumed
      ensures Valid() && emitted == (if r.Some? then old(emitted) + [r.value] else old(emitted))
      ensures (old(limitHit) ==> limitHit) && (limitHit && !old(limitHit) ==> memoryFull || tuples >= maxTuples)
      ensures r.None? && hasEntry ==> AtEnd()
    {
      r := None;
      var end := false;
      while r.None? && !end
        invariant Valid() && emitted == (if r.Some? then old(emitted) + [r.value] else old(emitted))
        invariant (old(limitHit) ==> limitHit) && (limitHit && !old(limitHit) ==> memoryFull || tuples >= maxTuples)
        invariant |done| <= |g.nodes| && (end && hasEntry ==> AtEnd())
        decreases |g.nodes| - |done|, w == [], LastLeft(), !end
      {
        r, end := Advance(memoryFull);
      }
    }

    /** One turn of the loop: refills the list if it is empty, and takes or drops its last element. */
    method Advance(memoryFull: bool) returns (r: Option<Tid>, end: bool)
      requires Valid() && !first
      modifies this`w, this`visited, this`discarded, this`left, this`tuples, this`previousDistance, this`done,
               this`expanded, this`emitted, this`skipped, this`limitHit, this`resumed
      ensures Valid() && emitted == (if r.Some? then old(emitted) + [r.value] else old(emitted))
      ensures (old(limitHit) ==> limitHit) && (limitHit && !old(limitHit) ==> memoryFull || tuples >= maxTuples)
      ensures old(tuples) >= maxTuples ==> tuples == old(tuples)
      ensures |old(done)| <= |done| <= |g.nodes|
      ensures end ==> r.None? && w == [] && old(w) == [] && done == old(done) && (hasEntry ==> AtEnd())
      ensures !end && |done| == |old(done)| ==> w != [] && (old(w) != [] ==> LastLeft() < old(LastLeft()))
    {
      if w == [] {
        Refill(memoryFull);
        if w == [] { return None, true; }
      }
      r := TakeOrDrop();
      end := false;
    }
  }

  function AllTids(g: Graph): set<Tid> {
    set x | x in g.nodes, i | 0 <= i < g.heaptids(x) :: Tid(x, i)
  }

  lemma EmittedAtMostAll(g: Graph, start: nat, visited: set<nat>, done: set<nat>, w: seq<nat>, discarded: set<nat>,
                         left: map<nat, nat>, emitted: seq<Tid>, skipped: set<Tid>)
    requires Parts(visited, done, Members(w), discarded, {}) && Known(g, start, visited)
    requires Counted(g, done, w, left) && Logged(g, left, emitted, skipped)
    ensures |emitted| <= |AllTids(g)|
  {
    forall t | t in emitted ensures t in AllTids(g) {
      assert t.element in left && t.slot < g.heaptids(t.element);
      assert w != [] ==> w[|w| - 1] in Members(w);
      assert t.element in visited;
    }
    AtMostMembers(emitted, AllTids(g));
  }

  /**
   A relaxed scan without limits, called until it has no more, gives every heap TID that can be
   reached from the end of the descent exactly once.
   */
  method ScanToTheEnd(g: Graph, layers: seq<Graph>, entry: nat, initialEf: nat, efSearch: nat)
    returns (out: seq<Tid>, start: nat, ghost path: seq<nat>)
    requires g.Closed() && entry in g.nodes && initialEf > 0 && efSearch > 0 && forall h | h in layers :: IsLayer(h, g)
    ensures IsDescent(layers, entry, start, path) && |path| == |layers| + 1
    ensures start in g.nodes && g.dist(start) <= g.dist(entry) && NoRepeats(out)
    ensures forall t: Tid :: t in out <==> Reachable(g, start, t.element) && t.slot < g.heaptids(t.element)
  {
    start, path := Descend(g, layers, entry);
    var scan := new HnswScan(g, true, start, Relaxed, initialEf, efSearch, |g.nodes| + 1);
    out := [];
    while true
      invariant scan.Valid() && scan.emitted == out && !scan.limitHit && fresh(scan)
      invariant |out| <= |AllTids(g)|
      decreases |AllTids(g)| - |out|
    {
      var r := scan.GetTuple(false);
      CountIsAtMost(scan.tuples, scan.visited, g.nodes);
      if r.None? { return; }
      out := out + [r.value];
      scan.EmittedFit();
    }
  }

  /**
   With the iterative scan off, a scan returns the TIDs of one batch, each once and nearest first:
   the nearest of what the one search met, initialEf of them unless it met no more.
   */
  method ScanBatch(g: Graph, layers: seq<Graph>, entry: nat, initialEf: nat)
    returns (out: seq<Tid>, start: nat, ghost path: seq<nat>, ghost batch: seq<nat>, ghost met: set<nat>)
    requires g.Closed() && entry in g.nodes && initialEf > 0 && forall h | h in layers :: IsLayer(h, g)
    ensures IsDescent(layers, entry, start, path) && |path| == |layers| + 1
    ensures start in g.nodes && g.dist(start) <= g.dist(entry) && FirstBatch(g, start, initialEf, batch, met)
    ensures NoRepeats(out) && forall t: Tid :: t in out <==> t.element in batch && t.slot < g.heaptids(t.element)
    ensures forall i, j | 0 <= i < j < |out| :: g.dist(out[i].element) <= g.dist(out[j].element)
  {
    start, path := Descend(g, layers, entry);
    var scan := new HnswScan(g, true, start, Off, initialEf, initialEf, 0);
    out, batch, met := [], [], {};
    while true
      invariant scan.Valid() && scan.emitted == out && fresh(scan)
      invariant !scan.first ==> FirstBatch(g, start, initialEf, scan.batch, scan.met)
      invariant |out| <= |AllTids(g)|
      decreases |AllTids(g)| - |out|
    {
      var r := scan.GetTuple(false);
      if r.None? {
        batch, met := scan.batch, scan.met;
        BatchIsOut(g, batch, out, scan.skipped, scan.w);
        return;
      }
      out := out + [r.value];
      scan.EmittedFit();
    }
  }

  lemma BatchIsOut(g: Graph, batch: seq<nat>, out: seq<Tid>, skipped: set<Tid>, w: seq<nat>)
    requires TidsOf(g, Members(batch), out, skipped) && skipped == {} && InOrder(g, out, w)
    ensures forall t: Tid :: t in out <==> t.element in batch && t.slot < g.heaptids(t.element)
    ensures forall i, j | 0 <= i < j < |out| :: g.dist(out[i].element) <= g.dist(out[j].element)
  {
    forall t: Tid
      ensures t in out <==> t.element in batch && t.slot < g.heaptids(t.element)
    {
      assert t in out || t in skipped <==> t.element in Members(batch) && t.slot < g.heaptids(t.element);
    }
  }
}
