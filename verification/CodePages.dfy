/**
 Code pages of the native graph: how build and append pack tuples into a chain of pages
 (src/tqgraph.c:1313-1362, src/tqgraph_storage.c:156-272, src/tqgraph_insert.c:656-727), and the
 in-order load that guesses block numbers (src/tqgraph_scan_cache.c:94-193 and 537-539).
 */
module CodePages {
  import opened Options

  /** The tuple of one node; body stands for everything but the node id. */
  datatype Tuple = Tuple(nodeId: nat, body: nat)
  datatype Page = Code(tuples: seq<Tuple>, next: Option<nat>) | Other

  // ---------------------------------------------------------------------------------------
  // Arithmetic of page numbers
  // ---------------------------------------------------------------------------------------

  lemma MulMono(a: nat, b: nat, t: nat)
    requires a <= b
    ensures a * t <= b * t
  {
    assert (b - a) * t >= 0;
    assert b * t == a * t + (b - a) * t;
  }

  lemma DivIs(k: nat, t: nat, a: nat)
    requires k * t <= a < k * t + t
    ensures a / t == k
  {
    var q := a / t;
    assert a == t * q + a % t;
    if q < k {
      MulMono(q + 1, k, t);
    } else if k < q {
      MulMono(k + 1, q, t);
    }
  }

  const ITEM_ID: nat := 4

  /** TqGraphTuplesPerPage. */
  function TuplesPerPage(usable: nat, tupleSize: nat): (n: nat)
    ensures n > 0
  {
    var n := usable / (tupleSize + ITEM_ID);
    if n < 1 then 1 else n
  }

  /** PageGetFreeSpace of a page with count tuples. */
  function FreeSpace(usable: nat, tupleSize: nat, count: nat): int {
    var space := usable - count * (tupleSize + ITEM_ID);
    if space < ITEM_ID then 0 else space - ITEM_ID
  }

  /** A page takes exactly as many tuples as TuplesPerPage says. */
  lemma RoomUntilFull(usable: nat, tupleSize: nat, count: nat)
    requires 0 < tupleSize && tupleSize + ITEM_ID <= usable && count <= TuplesPerPage(usable, tupleSize)
    ensures FreeSpace(usable, tupleSize, count) >= tupleSize <==> count < TuplesPerPage(usable, tupleSize)
  {
    var t := tupleSize + ITEM_ID;
    var q := usable / t;
    assert usable == t * q + usable % t;
    if count < q { MulMono(count + 1, q, t); }
  }

  /** TqGraphPageCount. */
  function PageCount(nodeCount: nat, tpp: nat): nat
    requires tpp > 0
  {
    if nodeCount == 0 then 0 else (nodeCount + tpp - 1) / tpp
  }

  /** Page k is one of the counted pages exactly when its first node exists. */
  lemma PageCountMeans(nodeCount: nat, tpp: nat, k: nat)
    requires tpp > 0
    ensures k < PageCount(nodeCount, tpp) <==> k * tpp < nodeCount
  {
    var c := PageCount(nodeCount, tpp);
    if nodeCount > 0 {
      assert nodeCount + tpp - 1 == tpp * c + (nodeCount + tpp - 1) % tpp;
      if k < c { MulMono(k + 1, c, tpp); } else { MulMono(c, k, tpp); }
    }
  }

  // ---------------------------------------------------------------------------------------
  // The chain
  // ---------------------------------------------------------------------------------------

  /** Block numbers grow along the chain, and only its last page has room. */
  ghost predicate LinkOk(pages: seq<Page>, chain: seq<nat>, tpp: nat, k: nat)
    requires k < |chain| && chain[k] < |pages| && pages[chain[k]].Code?
  {
    && |pages[chain[k]].tuples| <= tpp
    && if k + 1 < |chain| then
         pages[chain[k]].next == Some(chain[k + 1]) && |pages[chain[k]].tuples| == tpp && chain[k] < chain[k + 1]
       else pages[chain[k]].next.None?
  }

  /** Every code page of the relation is in the chain. */
  ghost predicate Chained(pages: seq<Page>, chain: seq<nat>, tpp: nat) {
    && (forall k | 0 <= k < |chain| :: chain[k] < |pages| && pages[chain[k]].Code?)
    && (forall k {:trigger LinkOk(pages, chain, tpp, k)} | 0 <= k < |chain| :: LinkOk(pages, chain, tpp, k))
    && (forall b | 0 <= b < |pages| && pages[b].Code? :: b in chain)
  }

  /** Page k holds the tuples of the nodes from k * tpp on. */
  ghost predicate PageHolds(pages: seq<Page>, chain: seq<nat>, tpp: nat, log: seq<Tuple>, k: nat)
    requires k < |chain| && chain[k] < |pages| && pages[chain[k]].Code?
  {
    var tuples := pages[chain[k]].tuples;
    k * tpp + |tuples| <= |log| && tuples == log[k * tpp..k * tpp + |tuples|]
  }

  /** log lists the tuples of all nodes by node id, and the chain packs them. */
  ghost predicate Packed(pages: seq<Page>, chain: seq<nat>, tpp: nat, log: seq<Tuple>) {
    && tpp > 0 && Chained(pages, chain, tpp)
    && (forall i | 0 <= i < |log| :: log[i].nodeId == i)
    && (forall k {:trigger PageHolds(pages, chain, tpp, log, k)} | 0 <= k < |chain| ::
        PageHolds(pages, chain, tpp, log, k))
    && |log| == if chain == [] then 0 else (|chain| - 1) * tpp + |pages[chain[|chain| - 1]].tuples|
  }

  lemma {:induction false} ChainGrows(pages: seq<Page>, chain: seq<nat>, tpp: nat, k: nat, l: nat)
    requires Chained(pages, chain, tpp) && k <= l < |chain|
    ensures chain[k] + (l - k) <= chain[l]
    decreases l
  {
    if k < l {
      assert LinkOk(pages, chain, tpp, l - 1);
      ChainGrows(pages, chain, tpp, k, l - 1);
    }
  }

  predicate IsCode(pages: seq<Page>, b: nat) {
    b < |pages| && pages[b].Code?
  }

  /** As long as no guess has met another kind of page, guessing is right. */
  lemma {:induction false} GuessIsRight(pages: seq<Page>, chain: seq<nat>, tpp: nat, p: nat)
    requires Chained(pages, chain, tpp) && p < |chain|
    requires forall b | chain[0] <= b <= chain[0] + p :: IsCode(pages, b)
    ensures chain[p] == chain[0] + p
  {
    if p > 0 {
      GuessIsRight(pages, chain, tpp, p - 1);
      var guess := chain[0] + p;
      assert IsCode(pages, guess);
      var q :| 0 <= q < |chain| && chain[q] == guess;
      ChainGrows(pages, chain, tpp, p - 1, p);
      if q < p { ChainGrows(pages, chain, tpp, q, p - 1); } else { ChainGrows(pages, chain, tpp, p, q); }
    }
  }

  /** The page of every node is among the counted ones. */
  lemma NodeIsOnPage(pages: seq<Page>, chain: seq<nat>, tpp: nat, log: seq<Tuple>, i: nat)
    requires Packed(pages, chain, tpp, log) && i < |log|
    ensures i / tpp < |chain| && log[i] in pages[chain[i / tpp]].tuples
  {
    var k, n := i / tpp, |chain| - 1;
    assert chain != [] && LinkOk(pages, chain, tpp, n);
    PageOf(i, tpp, n, |pages[chain[n]].tuples|);
    assert PageHolds(pages, chain, tpp, log, k) && LinkOk(pages, chain, tpp, k);
    var tuples := pages[chain[k]].tuples;
    assert tuples[i - k * tpp] == log[k * tpp..k * tpp + |tuples|][i - k * tpp];
  }

  /** Which page, and which place on it, node i has when pages before n are full and page n holds last tuples. */
  lemma PageOf(i: nat, tpp: nat, n: nat, last: nat)
    requires tpp > 0 && last <= tpp && i < n * tpp + last
    ensures i / tpp <= n && (i / tpp) * tpp <= i < (i / tpp) * tpp + if i / tpp < n then tpp else last
  {
    var k := i / tpp;
    assert i == tpp * k + i % tpp && tpp * k == k * tpp;
    if n < k { MulMono(n + 1, k, tpp); }
  }

  lemma AddKeepsPacked(pages: seq<Page>, chain: seq<nat>, tpp: nat, log: seq<Tuple>, body: nat)
    requires Packed(pages, chain, tpp, log) && chain != [] && |pages[chain[|chain| - 1]].tuples| < tpp
    ensures var last := chain[|chain| - 1];
      var t := Tuple(|log|, body);
      Packed(pages[last := Code(pages[last].tuples + [t], None)], chain, tpp, log + [t])
  {
    var n := |chain| - 1;
    var last := chain[n];
    var t := Tuple(|log|, body);
    var pages' := pages[last := Code(pages[last].tuples + [t], None)];
    forall k | 0 <= k < |chain| ensures LinkOk(pages', chain, tpp, k) && PageHolds(pages', chain, tpp, log + [t], k) {
      assert LinkOk(pages, chain, tpp, k) && PageHolds(pages, chain, tpp, log, k);
      if k < n {
        ChainGrows(pages, chain, tpp, k, n);
        var tuples := pages[chain[k]].tuples;
        assert (log + [t])[k * tpp..k * tpp + |tuples|] == log[k * tpp..k * tpp + |tuples|];
      }
    }
  }

  /** The pages with one more, empty page linked to the last one of the chain. */
  function WithNewPage(pages: seq<Page>, chain: seq<nat>): (r: seq<Page>)
    requires chain != [] ==> chain[|chain| - 1] < |pages| && pages[chain[|chain| - 1]].Code?
    ensures |r| == |pages| + 1
  {
    var linked := if chain == [] then pages
                  else pages[chain[|chain| - 1] := Code(pages[chain[|chain| - 1]].tuples, Some(|pages|))];
    linked + [Code([], None)]
  }

  lemma LinkKeepsPage(pages: seq<Page>, chain: seq<nat>, tpp: nat, log: seq<Tuple>, k: nat)
    requires Packed(pages, chain, tpp, log) && k < |chain| && |pages[chain[|chain| - 1]].tuples| == tpp
    ensures var pages', chain' := WithNewPage(pages, chain), chain + [|pages|];
            pages'[chain[k]].Code? && LinkOk(pages', chain', tpp, k) && PageHolds(pages', chain', tpp, log, k)
  {
    assert LinkOk(pages, chain, tpp, k) && PageHolds(pages, chain, tpp, log, k);
    ChainGrows(pages, chain, tpp, k, |chain| - 1);
  }

  lemma LinkKeepsPacked(pages: seq<Page>, chain: seq<nat>, tpp: nat, log: seq<Tuple>)
    requires Packed(pages, chain, tpp, log) && (chain != [] ==> |pages[chain[|chain| - 1]].tuples| == tpp)
    ensures Packed(WithNewPage(pages, chain), chain + [|pages|], tpp, log)
  {
    var pages', chain' := WithNewPage(pages, chain), chain + [|pages|];
    NextProduct(|chain| - 1, tpp);
    forall k | 0 <= k < |chain'|
      ensures chain'[k] < |pages'| && pages'[chain'[k]].Code?
      ensures LinkOk(pages', chain', tpp, k) && PageHolds(pages', chain', tpp, log, k)
    {
      if k < |chain| { LinkKeepsPage(pages, chain, tpp, log, k); }
    }
    forall b | 0 <= b < |pages'| && pages'[b].Code? ensures b in chain' {
      if b < |pages| { assert pages[b].Code? && b in chain; } else { assert chain'[|chain|] == b; }
    }
  }

  // ---------------------------------------------------------------------------------------
  // Build and append
  // ---------------------------------------------------------------------------------------

  class CodeStore {
    const usable: nat
    const tupleSize: nat
    var pages: seq<Page>
    var codeStart: Option<nat>
    var nodeCount: nat
    /** The append cursor of this relation. */
    var cursorStart: Option<nat>
    var cursorTail: Option<nat>

    ghost var chain: seq<nat>
    ghost var log: seq<Tuple>

    function Tpp(): nat { TuplesPerPage(usable, tupleSize) }

    ghost predicate Linked()
      reads this
    {
      && 0 < tupleSize && tupleSize + ITEM_ID <= usable
      && Packed(pages, chain, Tpp(), log) && nodeCount == |log|
      && codeStart == if chain == [] then None else Some(chain[0])
    }

    ghost predicate Valid()
      reads this
    {
      Linked() && (cursorTail.Some? && cursorStart == codeStart ==> cursorTail.value in chain)
    }

    constructor (usable: nat, tupleSize: nat)
      requires 0 < tupleSize && tupleSize + ITEM_ID <= usable
      ensures Valid() && chain == [] && log == [] && cursorTail.None?
    {
      this.usable, this.tupleSize := usable, tupleSize;
      pages, codeStart, nodeCount, cursorStart, cursorTail := [], None, 0, None, None;
      chain, log := [], [];
    }

    /** Another part of the index extends the relation. */
    method AddOtherPage()
      requires Valid()
      modifies this`pages
      ensures Valid() && pages == old(pages) + [Other]
    {
      OtherKeepsPacked(pages, chain, Tpp(), log);
      pages := pages + [Other];
    }

    /** The last page of the chain from one of its pages. */
    method Tail(from: nat) returns (tail: nat)
      requires Linked() && from in chain
      ensures chain != [] && tail == chain[|chain| - 1]
    {
      tail := from;
      ghost var p :| 0 <= p < |chain| && chain[p] == from;
      assert LinkOk(pages, chain, Tpp(), p);
      while pages[tail].next.Some?
        invariant 0 <= p < |chain| && chain[p] == tail && LinkOk(pages, chain, Tpp(), p)
        decreases |chain| - p
      {
        tail, p := pages[tail].next.value, p + 1;
        assert LinkOk(pages, chain, Tpp(), p);
      }
    }

    /** Puts the tuple of the next node on the last page, or on a new one if it does not fit there. */
    method AddTuple(last: Option<nat>, body: nat) returns (block: nat)
      requires Linked() && last == if chain == [] then None else Some(chain[|chain| - 1])
      modifies this`pages, this`codeStart, this`nodeCount, this`chain, this`log
      ensures Linked() && log == old(log) + [Tuple(|old(log)|, body)]
      ensures chain != [] && block == chain[|chain| - 1]
      ensures old(codeStart).Some? ==> codeStart == old(codeStart)
    {
      if last.Some? {
        block := last.value;
        assert LinkOk(pages, chain, Tpp(), |chain| - 1);
        RoomUntilFull(usable, tupleSize, |pages[block].tuples|);
      }
      if last.None? || FreeSpace(usable, tupleSize, |pages[block].tuples|) < tupleSize {
        LinkKeepsPacked(pages, chain, Tpp(), log);
        if last.Some? { pages := pages[block := Code(pages[block].tuples, Some(|pages|))]; }
        block := |pages|;
        if codeStart.None? { codeStart := Some(block); }
        pages, chain := pages + [Code([], None)], chain + [block];
      }
      AddKeepsPacked(pages, chain, Tpp(), log, body);
      var t := Tuple(nodeCount, body);
      pages, nodeCount, log := pages[block := Code(pages[block].tuples + [t], None)], nodeCount + 1, log + [t];
    }

    /** TqGraphWriteCodePages. */
    method WriteCodePages(bodies: seq<nat>)
      requires Valid() && chain == [] && log == [] && cursorTail.None?
      modifies this`pages, this`codeStart, this`nodeCount, this`chain, this`log
      ensures Valid() && |log| == |bodies| && forall i | 0 <= i < |bodies| :: log[i] == Tuple(i, bodies[i])
    {
      var buf: Option<nat> := None;
      for i := 0 to |bodies|
        invariant Linked() && buf == if chain == [] then None else Some(chain[|chain| - 1])
        invariant |log| == i && forall k | 0 <= k < i :: log[k] == Tuple(k, bodies[k])
      {
        var block := AddTuple(buf, bodies[i]);
        buf := Some(block);
      }
    }

    /** TqGraphAppendInsertedCode: the new node's id is the number of nodes so far. */
    method AppendInsertedCode(body: nat)
      requires Valid()
      modifies this
      ensures Valid() && log == old(log) + [Tuple(|old(log)|, body)]
    {
      var from := if cursorTail.Some? && cursorStart == codeStart then cursorTail else codeStart;
      var last: Option<nat> := None;
      if from.Some? {
        assert chain != [] ==> chain[0] in chain;
        var tail := Tail(from.value);
        last := Some(tail);
      }
      var block := AddTuple(last, body);
      cursorStart, cursorTail := codeStart, Some(block);
    }
  }

  lemma OtherKeepsPacked(pages: seq<Page>, chain: seq<nat>, tpp: nat, log: seq<Tuple>)
    requires Packed(pages, chain, tpp, log)
    ensures Packed(pages + [Other], chain, tpp, log)
  {
    var pages' := pages + [Other];
    forall k | 0 <= k < |chain| ensures LinkOk(pages', chain, tpp, k) && PageHolds(pages', chain, tpp, log, k) {
      assert LinkOk(pages, chain, tpp, k) && PageHolds(pages, chain, tpp, log, k);
    }
    forall b | 0 <= b < |pages'| && pages'[b].Code? ensures b in chain {
      assert pages[b].Code?;
    }
  }

  // ---------------------------------------------------------------------------------------
  // Loading
  // ---------------------------------------------------------------------------------------

  /** The block map is filled all at once. */
  ghost predicate MapOk(blknos: seq<Option<nat>>, chain: seq<nat>) {
    && |blknos| <= |chain|
    && ((forall p | 0 <= p < |blknos| :: blknos[p].None?) || IsMapped(blknos, chain))
  }

  ghost predicate IsMapped(blknos: seq<Option<nat>>, chain: seq<nat>) {
    |blknos| <= |chain| && forall p | 0 <= p < |blknos| :: blknos[p] == Some(chain[p])
  }

  /** A load that has met no other page kind so far, or has mapped the chain. */
  ghost predicate GuessOk(pages: seq<Page>, chain: seq<nat>, blknos: seq<Option<nat>>, pageNo: nat) {
    && chain != [] && MapOk(blknos, chain)
    && (IsMapped(blknos, chain) || forall b | chain[0] <= b < chain[0] + pageNo :: IsCode(pages, b))
  }

  /** TqGraphEnsureBlockMap. */
  method EnsureBlockMap(pages: seq<Page>, start: nat, blknos: array<Option<nat>>, ghost chain: seq<nat>, ghost tpp: nat)
    returns (ok: bool)
    requires Chained(pages, chain, tpp) && chain != [] && start == chain[0] && MapOk(blknos[..], chain)
    modifies blknos
    ensures ok && IsMapped(blknos[..], chain)
  {
    if blknos.Length == 0 || blknos[blknos.Length - 1].Some? {
      assert blknos.Length > 0 ==> blknos[..][blknos.Length - 1].Some?;
      return true;
    }
    assert blknos[..][blknos.Length - 1].None?;
    assert forall i | 0 <= i < blknos.Length :: blknos[..][i].None?;
    var blkno: Option<nat> := Some(start);
    for pageNo := 0 to blknos.Length
      invariant forall i | 0 <= i < pageNo :: blknos[i] == Some(chain[i])
      invariant forall i | pageNo <= i < blknos.Length :: blknos[i].None?
      invariant pageNo < |chain| ==> blkno == Some(chain[pageNo])
    {
      if blknos[pageNo].Some? {
        blkno := blknos[pageNo];
        continue;
      }
      if blkno.None? { return false; }
      if pages[blkno.value].Other? { return false; }
      blknos[pageNo] := blkno;
      assert LinkOk(pages, chain, tpp, pageNo);
      blkno := pages[blkno.value].next;
    }
    return true;
  }

  /** Every tuple of page k that belongs to one of the known nodes is loaded. */
  ghost predicate PageLoaded(nodes: seq<Option<Tuple>>, tuples: seq<Tuple>) {
    forall t | t in tuples && t.nodeId < |nodes| :: nodes[t.nodeId] == Some(t)
  }

  /** Only own tuples are loaded. */
  ghost predicate OwnTuples(nodes: seq<Option<Tuple>>, log: seq<Tuple>) {
    |nodes| <= |log| && forall i | 0 <= i < |nodes| && nodes[i].Some? :: nodes[i].value == log[i]
  }

  method StoreTuples(tuples: seq<Tuple>, nodes: array<Option<Tuple>>, ghost log: seq<Tuple>)
    requires OwnTuples(nodes[..], log) && forall t | t in tuples :: t.nodeId < |log| && log[t.nodeId] == t
    modifies nodes
    ensures OwnTuples(nodes[..], log) && PageLoaded(nodes[..], tuples)
    ensures forall i | 0 <= i < nodes.Length && old(nodes[i]).Some? :: nodes[i] == old(nodes[i])
  {
    for offno := 0 to |tuples|
      invariant OwnTuples(nodes[..], log)
      invariant forall k | 0 <= k < offno && tuples[k].nodeId < nodes.Length ::
                nodes[tuples[k].nodeId] == Some(tuples[k])
      invariant forall i | 0 <= i < nodes.Length && old(nodes[i]).Some? :: nodes[i] == old(nodes[i])
    {
      var t := tuples[offno];
      if t.nodeId >= nodes.Length { continue; }
      assert t in tuples && (nodes[t.nodeId].Some? ==> nodes[..][t.nodeId].Some?);
      nodes[t.nodeId] := Some(t);
    }
  }

  /** What the flags of loaded pages promise. */
  ghost predicate FlagsOk(pages: seq<Page>, chain: seq<nat>, nodes: seq<Option<Tuple>>, loaded: seq<bool>)
    requires forall k | 0 <= k < |chain| :: chain[k] < |pages| && pages[chain[k]].Code?
  {
    |loaded| <= |chain| && forall p | 0 <= p < |loaded| && loaded[p] :: PageLoaded(nodes, pages[chain[p]].tuples)
  }

  lemma CountedPagesExist(pages: seq<Page>, chain: seq<nat>, tpp: nat, log: seq<Tuple>, n: nat)
    requires Packed(pages, chain, tpp, log) && n <= |log|
    ensures PageCount(n, tpp) <= |chain|
  {
    PageCountMeans(n, tpp, |chain|);
    if chain != [] {
      assert LinkOk(pages, chain, tpp, |chain| - 1);
      assert (|chain| - 1) * tpp + tpp == |chain| * tpp;
    }
  }

  lemma TuplesAreOwn(pages: seq<Page>, chain: seq<nat>, tpp: nat, log: seq<Tuple>, k: nat)
    requires Packed(pages, chain, tpp, log) && k < |chain|
    ensures forall t | t in pages[chain[k]].tuples :: t.nodeId < |log| && log[t.nodeId] == t
  {
    assert PageHolds(pages, chain, tpp, log, k);
    forall t | t in pages[chain[k]].tuples ensures t.nodeId < |log| && log[t.nodeId] == t {
      var j :| 0 <= j < |pages[chain[k]].tuples| && pages[chain[k]].tuples[j] == t;
      assert t == log[k * tpp + j];
    }
  }

  /** The block to read for a page that a guess or the map gives, or the fallback finds. */
  method FindBlock(pages: seq<Page>, start: nat, pageNo: nat, blknos: array<Option<nat>>, ghost chain: seq<nat>,
                   ghost tpp: nat)
    returns (blkno: nat)
    requires Chained(pages, chain, tpp) && chain != [] && start == chain[0] && pageNo < blknos.Length
    requires GuessOk(pages, chain, blknos[..], pageNo)
    modifies blknos
    ensures blkno == chain[pageNo] && GuessOk(pages, chain, blknos[..], pageNo + 1)
  {
    blkno := if blknos[pageNo].Some? then blknos[pageNo].value else start + pageNo;
    assert blknos[..][pageNo] == blknos[pageNo];
    ChainGrows(pages, chain, tpp, 0, pageNo);
    if pages[blkno].Other? {
      var ok := EnsureBlockMap(pages, start, blknos, chain, tpp);
      assert blknos[..][pageNo] == Some(chain[pageNo]);
      blkno := blknos[pageNo].value;
    } else if blknos[pageNo].None? {
      assert IsCode(pages, blkno);
      GuessIsRight(pages, chain, tpp, pageNo);
    }
  }

  /** TqGraphLoadCodePage for the first node of a page, in page order. */
  method LoadCodePage(pages: seq<Page>, start: nat, tpp: nat, nodeId: nat, nodes: array<Option<Tuple>>,
                      loaded: array<bool>, blknos: array<Option<nat>>, ghost chain: seq<nat>,
                      ghost log: seq<Tuple>) returns (ok: bool)
    requires Packed(pages, chain, tpp, log) && chain != [] && start == chain[0] && nodeId < nodes.Length <= |log|
    requires loaded.Length == blknos.Length == PageCount(nodes.Length, tpp) && nodeId / tpp < loaded.Length
    requires GuessOk(pages, chain, blknos[..], nodeId / tpp)
    requires OwnTuples(nodes[..], log) && FlagsOk(pages, chain, nodes[..], loaded[..])
    modifies nodes, loaded, blknos
    ensures GuessOk(pages, chain, blknos[..], nodeId / tpp + 1)
    ensures OwnTuples(nodes[..], log) && FlagsOk(pages, chain, nodes[..], loaded[..])
    ensures loaded[nodeId / tpp] && ok == nodes[nodeId].Some?
    ensures forall p | 0 <= p < loaded.Length && old(loaded[p]) :: loaded[p]
  {
    var pageNo := nodeId / tpp;
    var blkno := FindBlock(pages, start, pageNo, blknos, chain, tpp);
    TuplesAreOwn(pages, chain, tpp, log, pageNo);
    ghost var before := nodes[..];
    StoreTuples(pages[blkno].tuples, nodes, log);
    StaysLoaded(pages, chain, tpp, log, before, nodes[..], loaded[..]);
    loaded[pageNo] := true;
    ok := nodes[nodeId].Some?;
  }

  lemma StaysLoaded(pages: seq<Page>, chain: seq<nat>, tpp: nat, log: seq<Tuple>, nodes: seq<Option<Tuple>>,
                    nodes': seq<Option<Tuple>>, loaded: seq<bool>)
    requires Packed(pages, chain, tpp, log) && FlagsOk(pages, chain, nodes, loaded) && |nodes| == |nodes'|
    requires forall i | 0 <= i < |nodes| && nodes[i].Some? :: nodes'[i] == nodes[i]
    ensures FlagsOk(pages, chain, nodes', loaded)
  {
    forall p | 0 <= p < |loaded| && loaded[p] ensures PageLoaded(nodes', pages[chain[p]].tuples) {
      assert PageLoaded(nodes, pages[chain[p]].tuples);
    }
  }

  /** The load loop of TqGraphBuildCache: every known node ends up with its own tuple. */
  method BuildCache(pages: seq<Page>, start: nat, tpp: nat, nodeCount: nat, ghost chain: seq<nat>,
                    ghost log: seq<Tuple>)
    returns (nodes: array<Option<Tuple>>)
    requires Packed(pages, chain, tpp, log) && chain != [] && start == chain[0] && nodeCount <= |log|
    ensures nodes.Length == nodeCount && forall i | 0 <= i < nodeCount :: nodes[i] == Some(log[i])
  {
    CountedPagesExist(pages, chain, tpp, log, nodeCount);
    nodes := new Option<Tuple>[nodeCount](_ => None);
    var loaded := new bool[PageCount(nodeCount, tpp)](_ => false);
    var blknos := new Option<nat>[PageCount(nodeCount, tpp)](_ => None);
    var nodeId := 0;
    ghost var p: nat := 0;
    while nodeId < nodeCount
      invariant nodeId == p * tpp
      invariant GuessOk(pages, chain, blknos[..], p)
      invariant OwnTuples(nodes[..], log) && FlagsOk(pages, chain, nodes[..], loaded[..])
      invariant forall q | 0 <= q < p && q < loaded.Length :: loaded[q]
      decreases nodeCount - nodeId
    {
      PageTurns(nodeCount, tpp, nodeId, p);
      var ok := LoadCodePage(pages, start, tpp, nodeId, nodes, loaded, blknos, chain, log);
      nodeId, p := nodeId + tpp, p + 1;
    }
    PageTurns(nodeCount, tpp, nodeId, p);
    AllNodesLoaded(pages, chain, tpp, log, nodes[..], loaded[..]);
    assert forall i | 0 <= i < nodeCount :: nodes[i] == nodes[..][i];
  }

  lemma AllNodesLoaded(pages: seq<Page>, chain: seq<nat>, tpp: nat, log: seq<Tuple>, nodes: seq<Option<Tuple>>,
                       loaded: seq<bool>)
    requires Packed(pages, chain, tpp, log) && |nodes| <= |log|
    requires FlagsOk(pages, chain, nodes, loaded) && |loaded| == PageCount(|nodes|, tpp) &&
             forall p | 0 <= p < |loaded| :: loaded[p]
    ensures forall i | 0 <= i < |nodes| :: nodes[i] == Some(log[i])
  {
    forall i | 0 <= i < |nodes| ensures nodes[i] == Some(log[i]) {
      NodeIsOnPage(pages, chain, tpp, log, i);
      assert i == tpp * (i / tpp) + i % tpp;
      PageCountMeans(|nodes|, tpp, i / tpp);
      assert loaded[i / tpp] && PageLoaded(nodes, pages[chain[i / tpp]].tuples);
    }
  }

  lemma PageTurns(nodeCount: nat, tpp: nat, nodeId: nat, p: nat)
    requires tpp > 0 && nodeId == p * tpp
    ensures (p < PageCount(nodeCount, tpp) <==> nodeId < nodeCount) && nodeId / tpp == p &&
            nodeId + tpp == (p + 1) * tpp
  {
    DivIs(p, tpp, nodeId);
    PageCountMeans(nodeCount, tpp, p);
    NextProduct(p, tpp);
  }

  lemma NextProduct(p: int, t: nat)
    ensures (p + 1) * t == p * t + t
  {
  }
}
