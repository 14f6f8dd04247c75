/**
 Exact vectors as byte runs in a chain of slab pages (src/tqgraph_exact.c:57-416): the bulk writer, the
 appender with its cached tail, and the reader. A vector may span several pages.

 Block numbers index the pages of the relation; pages of other kinds may lie between the slab pages.
 */
module ExactSlab {
  import opened Options

  type Byte = b: int | 0 <= b < 256
  /** data holds the bytes below the used mark of a slab page. */
  datatype Page = Slab(data: seq<Byte>, next: Option<nat>) | Other

  /** Offsets on a page count from one. */
  datatype Stored = Stored(block: nat, offset: nat, bytes: seq<Byte>)

  /** The place that a node records. */
  predicate IsAt(s: Stored, block: Option<nat>, offset: nat) {
    block == Some(s.block) && offset == s.offset
  }

  // ---------------------------------------------------------------------------------------
  // The bytes of a chain
  // ---------------------------------------------------------------------------------------

  function Flat(slabs: seq<seq<Byte>>): seq<Byte> {
    if slabs == [] then [] else slabs[0] + Flat(slabs[1..])
  }

  lemma {:induction false} FlatOfParts(a: seq<seq<Byte>>, b: seq<seq<Byte>>)
    ensures Flat(a + b) == Flat(a) + Flat(b)
  {
    if a == [] {
      assert a + b == b;
    } else {
      assert (a + b)[0] == a[0] && (a + b)[1..] == a[1..] + b;
      FlatOfParts(a[1..], b);
    }
  }

  /** The bytes from offset o of slab k on, of which the first is in that slab. */
  ghost predicate BytesAt(slabs: seq<seq<Byte>>, k: nat, o: nat, bytes: seq<Byte>) {
    && k < |slabs| && o < |slabs[k]| && o + |bytes| <= |Flat(slabs[k..])|
    && Flat(slabs[k..])[o..o + |bytes|] == bytes
  }

  /** Slabs that differ only by more bytes at the very end. */
  ghost predicate Extends(slabs: seq<seq<Byte>>, slabs': seq<seq<Byte>>, bytes: seq<Byte>) {
    && |slabs| <= |slabs'|
    && forall k | 0 <= k < |slabs| :: slabs[k] <= slabs'[k] && Flat(slabs'[k..]) == Flat(slabs[k..]) + bytes
  }

  /** Bytes written at the end leave earlier bytes where they are. */
  lemma ExtensionKeepsBytes(slabs: seq<seq<Byte>>, slabs': seq<seq<Byte>>, more: seq<Byte>, k: nat, o: nat,
                            bytes: seq<Byte>)
    requires Extends(slabs, slabs', more) && BytesAt(slabs, k, o, bytes)
    ensures BytesAt(slabs', k, o, bytes)
  {
  }

  /** Bytes at the end grow by what is written there. */
  lemma ExtensionGrowsBytes(slabs: seq<seq<Byte>>, slabs': seq<seq<Byte>>, more: seq<Byte>, k: nat, o: nat,
                            bytes: seq<Byte>)
    requires Extends(slabs, slabs', more) && BytesAt(slabs, k, o, bytes) && o + |bytes| == |Flat(slabs[k..])|
    ensures BytesAt(slabs', k, o, bytes + more) && o + |bytes + more| == |Flat(slabs'[k..])|
  {
  }

  lemma GrowLast(slabs: seq<seq<Byte>>, bytes: seq<Byte>)
    requires slabs != []
    ensures Extends(slabs, slabs[|slabs| - 1 := slabs[|slabs| - 1] + bytes], bytes)
  {
    var n := |slabs| - 1;
    var slabs' := slabs[n := slabs[n] + bytes];
    forall k | 0 <= k < |slabs| ensures slabs[k] <= slabs'[k] && Flat(slabs'[k..]) == Flat(slabs[k..]) + bytes {
      assert slabs[k..] == slabs[k..n] + [slabs[n]] && slabs'[k..] == slabs[k..n] + [slabs[n] + bytes];
      FlatOfParts(slabs[k..n], [slabs[n]]);
      FlatOfParts(slabs[k..n], [slabs[n] + bytes]);
      assert Flat([slabs[n]]) == slabs[n] && Flat([slabs[n] + bytes]) == slabs[n] + bytes;
    }
  }

  lemma AddEmpty(slabs: seq<seq<Byte>>)
    ensures Extends(slabs, slabs + [[]], [])
  {
    forall k | 0 <= k < |slabs| ensures Flat((slabs + [[]])[k..]) == Flat(slabs[k..]) + [] {
      assert (slabs + [[]])[k..] == slabs[k..] + [[]];
      FlatOfParts(slabs[k..], [[]]);
      assert Flat([[]]) == [];
    }
  }

  // ---------------------------------------------------------------------------------------
  // Pages
  // ---------------------------------------------------------------------------------------

  /** The chain visits distinct slab pages, each linked to the next. */
  ghost predicate Chained(pages: seq<Page>, chain: seq<nat>, capacity: nat) {
    && (forall k | 0 <= k < |chain| ::
        chain[k] < |pages| && pages[chain[k]].Slab? && |pages[chain[k]].data| <= capacity)
    && (forall k {:trigger LinkOk(pages, chain, capacity, k)} | 0 <= k < |chain| :: LinkOk(pages, chain, capacity, k))
    && (forall k, l | 0 <= k < l < |chain| :: chain[k] != chain[l])
  }

  /** Only the last page of a chain has room. */
  ghost predicate LinkOk(pages: seq<Page>, chain: seq<nat>, capacity: nat, k: nat)
    requires k < |chain| && chain[k] < |pages| && pages[chain[k]].Slab?
  {
    if k + 1 < |chain| then pages[chain[k]].next == Some(chain[k + 1]) && |pages[chain[k]].data| == capacity
    else pages[chain[k]].next.None?
  }

  ghost function Slabs(pages: seq<Page>, chain: seq<nat>): (r: seq<seq<Byte>>)
    requires forall k | 0 <= k < |chain| :: chain[k] < |pages| && pages[chain[k]].Slab?
    ensures |r| == |chain| && forall k | 0 <= k < |r| :: r[k] == pages[chain[k]].data
  {
    seq(|chain|, k requires 0 <= k < |chain| => pages[chain[k]].data)
  }

  /** Writing into the last page. */
  lemma WriteKeepsChain(pages: seq<Page>, chain: seq<nat>, capacity: nat, bytes: seq<Byte>)
    requires chain != [] && Chained(pages, chain, capacity)
    requires |pages[chain[|chain| - 1]].data| + |bytes| <= capacity
    ensures var last := chain[|chain| - 1];
      var pages' := pages[last := Slab(pages[last].data + bytes, None)];
      Chained(pages', chain, capacity) && Extends(Slabs(pages, chain), Slabs(pages', chain), bytes)
  {
    var last := chain[|chain| - 1];
    var pages' := pages[last := Slab(pages[last].data + bytes, None)];
    var slabs := Slabs(pages, chain);
    forall k | 0 <= k < |chain| ensures LinkOk(pages', chain, capacity, k) { assert LinkOk(pages, chain, capacity, k); }
    assert Slabs(pages', chain) == slabs[|chain| - 1 := slabs[|chain| - 1] + bytes];
    GrowLast(slabs, bytes);
  }

  /** Linking a new page to the last one. */
  lemma LinkKeepsChain(pages: seq<Page>, chain: seq<nat>, capacity: nat)
    requires Chained(pages, chain, capacity) && (chain != [] ==> |pages[chain[|chain| - 1]].data| == capacity)
    ensures var linked := if chain == [] then pages
                          else pages[chain[|chain| - 1] := Slab(pages[chain[|chain| - 1]].data, Some(|pages|))];
      var pages' := linked + [Slab([], None)];
      Chained(pages', chain + [|pages|], capacity) && Extends(Slabs(pages, chain), Slabs(pages', chain + [|pages|]), [])
  {
    var linked := if chain == [] then pages
                  else pages[chain[|chain| - 1] := Slab(pages[chain[|chain| - 1]].data, Some(|pages|))];
    var pages' := linked + [Slab([], None)];
    forall k | 0 <= k <= |chain| ensures LinkOk(pages', chain + [|pages|], capacity, k) {
      assert k < |chain| ==> LinkOk(pages, chain, capacity, k);
    }
    var slabs, slabs' := Slabs(pages, chain), Slabs(pages', chain + [|pages|]);
    forall k | 0 <= k <= |chain| ensures slabs'[k] == (slabs + [[]])[k] {
      assert k < |chain| ==> LinkOk(pages, chain, capacity, k);
    }
    assert slabs' == slabs + [[]];
    AddEmpty(Slabs(pages, chain));
  }

  /** The recorded block and offset of a vector lead to its bytes. */
  ghost predicate StoredOk(pages: seq<Page>, chain: seq<nat>, s: Stored)
    requires forall k | 0 <= k < |chain| :: chain[k] < |pages| && pages[chain[k]].Slab?
  {
    s.offset > 0 &&
      exists k :: 0 <= k < |chain| && chain[k] == s.block && BytesAt(Slabs(pages, chain), k, s.offset - 1, s.bytes)
  }

  ghost predicate AllStored(pages: seq<Page>, chain: seq<nat>, stored: seq<Stored>)
    requires forall k | 0 <= k < |chain| :: chain[k] < |pages| && pages[chain[k]].Slab?
  {
    forall i | 0 <= i < |stored| :: StoredOk(pages, chain, stored[i])
  }

  /** The chain grows only at its end, in links and in bytes. */
  ghost predicate Grown(pages: seq<Page>, chain: seq<nat>, pages': seq<Page>, chain': seq<nat>, bytes: seq<Byte>,
                        capacity: nat) {
    && Chained(pages, chain, capacity) && Chained(pages', chain', capacity)
    && chain <= chain' && Extends(Slabs(pages, chain), Slabs(pages', chain'), bytes)
  }

  lemma GrowthKeepsStored(pages: seq<Page>, chain: seq<nat>, pages': seq<Page>, chain': seq<nat>, bytes: seq<Byte>,
                          capacity: nat, stored: seq<Stored>)
    requires Grown(pages, chain, pages', chain', bytes, capacity) && AllStored(pages, chain, stored)
    ensures AllStored(pages', chain', stored)
  {
    forall i | 0 <= i < |stored| ensures StoredOk(pages', chain', stored[i]) {
      var s := stored[i];
      assert StoredOk(pages, chain, s);
      var k :| 0 <= k < |chain| && chain[k] == s.block && BytesAt(Slabs(pages, chain), k, s.offset - 1, s.bytes);
      ExtensionKeepsBytes(Slabs(pages, chain), Slabs(pages', chain'), bytes, k, s.offset - 1, s.bytes);
      assert chain'[k] == s.block;
    }
  }

  lemma OtherPageGrows(pages: seq<Page>, chain: seq<nat>, capacity: nat)
    requires Chained(pages, chain, capacity)
    ensures Grown(pages, chain, pages + [Other], chain, [], capacity)
  {
    forall k | 0 <= k < |chain| ensures LinkOk(pages + [Other], chain, capacity, k) {
      assert LinkOk(pages, chain, capacity, k);
    }
    assert Slabs(pages + [Other], chain) == Slabs(pages, chain);
  }

  /** The bytes written so far of the vector in progress: they are the last bytes of the chain. */
  ghost predicate InProgress(pages: seq<Page>, chain: seq<nat>, s: Stored)
    requires forall k | 0 <= k < |chain| :: chain[k] < |pages| && pages[chain[k]].Slab?
  {
    s.offset > 0 &&
      exists k :: 0 <= k < |chain| && chain[k] == s.block && EndsWith(Slabs(pages, chain), k, s.offset - 1, s.bytes)
  }

  ghost predicate EndsWith(slabs: seq<seq<Byte>>, k: nat, o: nat, bytes: seq<Byte>) {
    BytesAt(slabs, k, o, bytes) && o + |bytes| == |Flat(slabs[k..])|
  }

  lemma EndGrows(slabs: seq<seq<Byte>>, slabs': seq<seq<Byte>>, more: seq<Byte>, k: nat, o: nat, bytes: seq<Byte>)
    requires Extends(slabs, slabs', more) && EndsWith(slabs, k, o, bytes)
    ensures EndsWith(slabs', k, o, bytes + more)
  {
    ExtensionGrowsBytes(slabs, slabs', more, k, o, bytes);
  }

  lemma GrowthExtendsProgress(pages: seq<Page>, chain: seq<nat>, pages': seq<Page>, chain': seq<nat>, bytes: seq<Byte>,
                              capacity: nat, s: Stored)
    requires Grown(pages, chain, pages', chain', bytes, capacity) && InProgress(pages, chain, s)
    ensures InProgress(pages', chain', s.(bytes := s.bytes + bytes))
  {
    var k :| 0 <= k < |chain| && chain[k] == s.block && EndsWith(Slabs(pages, chain), k, s.offset - 1, s.bytes);
    var slabs' := Slabs(pages', chain');
    EndGrows(Slabs(pages, chain), slabs', bytes, k, s.offset - 1, s.bytes);
    assert chain'[k] == s.block && EndsWith(slabs', k, s.offset - 1, s.bytes + bytes);
  }

  /** The first chunk of a vector starts where the last page ended. */
  lemma StartsAtEnd(pages: seq<Page>, chain: seq<nat>, capacity: nat, block: nat, bytes: seq<Byte>)
    requires chain != [] && block == chain[|chain| - 1] && Chained(pages, chain, capacity) && bytes != []
    requires Chained(pages[block := Slab(pages[block].data + bytes, None)], chain, capacity)
    ensures InProgress(pages[block := Slab(pages[block].data + bytes, None)], chain,
                       Stored(block, |pages[block].data| + 1, bytes))
  {
    var n := |chain| - 1;
    var slabs := Slabs(pages[block := Slab(pages[block].data + bytes, None)], chain);
    assert slabs[n..] == [slabs[n]] && Flat([slabs[n]]) == slabs[n];
    assert EndsWith(slabs, n, |pages[block].data|, bytes);
  }

  /** Vectors stored earlier are in place, and the bytes written of the next one, if any, are at the end. */
  ghost predicate Writing(pages: seq<Page>, chain: seq<nat>, capacity: nat, places: seq<Stored>, first: Option<Stored>,
                          written: seq<Byte>) {
    && Chained(pages, chain, capacity) && AllStored(pages, chain, places)
    && (if first.Some? then InProgress(pages, chain, first.value.(bytes := written)) else written == [])
  }

  lemma WritingGrows(pages: seq<Page>, chain: seq<nat>, pages': seq<Page>, chain': seq<nat>, bytes: seq<Byte>,
                     capacity: nat, places: seq<Stored>, first: Option<Stored>, written: seq<Byte>)
    requires Writing(pages, chain, capacity, places, first, written) &&
             Grown(pages, chain, pages', chain', bytes, capacity)
    requires first.None? ==> bytes == []
    ensures Writing(pages', chain', capacity, places, first, written + bytes)
  {
    GrowthKeepsStored(pages, chain, pages', chain', bytes, capacity, places);
    if first.Some? {
      GrowthExtendsProgress(pages, chain, pages', chain', bytes, capacity, first.value.(bytes := written));
    }
  }

  lemma WritingStarts(pages: seq<Page>, chain: seq<nat>, capacity: nat, places: seq<Stored>, block: nat,
                      bytes: seq<Byte>)
    requires Writing(pages, chain, capacity, places, None, []) && chain != [] && block == chain[|chain| - 1] &&
             bytes != []
    requires |pages[block].data| + |bytes| <= capacity
    ensures var pages' := pages[block := Slab(pages[block].data + bytes, None)];
      Writing(pages', chain, capacity, places, Some(Stored(block, |pages[block].data| + 1, [])), bytes)
  {
    WriteKeepsChain(pages, chain, capacity, bytes);
    var pages' := pages[block := Slab(pages[block].data + bytes, None)];
    GrowthKeepsStored(pages, chain, pages', chain, bytes, capacity, places);
    StartsAtEnd(pages, chain, capacity, block, bytes);
  }

  /** Writing the bytes from done to done' on the last page. */
  lemma SomeWritten(pages: seq<Page>, chain: seq<nat>, capacity: nat, places: seq<Stored>, first: Option<Stored>,
                    block: nat, src: seq<Byte>, done: nat, done': nat)
    requires done < done' <= |src| && Writing(pages, chain, capacity, places, first, src[..done])
    requires chain != [] && block == chain[|chain| - 1] && |pages[block].data| + (done' - done) <= capacity
    ensures var first' := if first.Some? then first.value else Stored(block, |pages[block].data| + 1, []);
      Writing(pages[block := Slab(pages[block].data + src[done..done'], None)], chain, capacity, places, Some(first'),
              src[..done'])
  {
    var bytes := src[done..done'];
    assert src[..done'] == src[..done] + bytes;
    if first.None? {
      assert src[..done] == [];
      WritingStarts(pages, chain, capacity, places, block, bytes);
    } else {
      WriteKeepsChain(pages, chain, capacity, bytes);
      WritingGrows(pages, chain, pages[block := Slab(pages[block].data + bytes, None)], chain, bytes, capacity, places,
                   first, src[..done]);
    }
  }

  lemma WritingEnds(pages: seq<Page>, chain: seq<nat>, capacity: nat, places: seq<Stored>, first: Stored,
                    written: seq<Byte>)
    requires Writing(pages, chain, capacity, places, Some(first), written)
    ensures Writing(pages, chain, capacity, places + [first.(bytes := written)], None, [])
  {
    var s := first.(bytes := written);
    var k :| 0 <= k < |chain| && chain[k] == s.block && EndsWith(Slabs(pages, chain), k, s.offset - 1, s.bytes);
    assert StoredOk(pages, chain, s);
    forall i | 0 <= i < |places + [s]| ensures StoredOk(pages, chain, (places + [s])[i]) {
      if i < |places| { assert StoredOk(pages, chain, places[i]); }
    }
  }

  /** The last block of a chain, if it has one. */
  predicate IsLast(chain: seq<nat>, block: Option<nat>) {
    if |chain| == 0 then block.None? else block == Some(chain[|chain| - 1])
  }

  // ---------------------------------------------------------------------------------------
  // The store
  // ---------------------------------------------------------------------------------------

  class ExactStore {
    const capacity: nat
    const vectorSize: nat
    var pages: seq<Page>
    var exactStart: Option<nat>
    /** The start and the tail that the last append remembered. */
    var appendStart: Option<nat>
    var appendTail: Option<nat>

    ghost var chain: seq<nat>
    ghost var stored: seq<Stored>

    ghost predicate Linked()
      reads this
    {
      && capacity > 0 && vectorSize > 0 && Chained(pages, chain, capacity)
      && exactStart == if chain == [] then None else Some(chain[0])
    }

    ghost predicate Valid()
      reads this
    {
      && Linked() && AllStored(pages, chain, stored)
      && (forall i | 0 <= i < |stored| :: |stored[i].bytes| == vectorSize)
      && (appendTail.Some? && appendStart == exactStart ==> appendTail.value in chain)
    }

    constructor (capacity: nat, vectorSize: nat)
      requires capacity > 0 && vectorSize > 0
      ensures Valid() && chain == [] && stored == [] && this.vectorSize == vectorSize
    {
      this.capacity, this.vectorSize := capacity, vectorSize;
      pages, exactStart, appendStart, appendTail := [], None, None, None;
      chain, stored := [], [];
    }

    /** Another part of the index extends the relation. */
    method AddOtherPage()
      requires Valid()
      modifies this`pages
      ensures Valid() && pages == old(pages) + [Other]
    {
      OtherPageGrows(pages, chain, capacity);
      GrowthKeepsStored(pages, chain, pages + [Other], chain, [], capacity, stored);
      pages := pages + [Other];
    }

    method LinkPage() returns (block: nat)
      requires Linked() && (chain != [] ==> |pages[chain[|chain| - 1]].data| == capacity)
      modifies this`pages, this`exactStart, this`chain
      ensures Linked() && chain == old(chain) + [block] && block < |pages| && pages[block] == Slab([], None)
      ensures Grown(old(pages), old(chain), pages, chain, [], capacity)
    {
      LinkKeepsChain(pages, chain, capacity);
      block := |pages|;
      ghost var last := if chain == [] then 0 else chain[|chain| - 1];
      if exactStart.None? {
        exactStart := Some(block);
      } else {
        var tail := Tail(exactStart.value, 0);
        pages := pages[tail := Slab(pages[tail].data, Some(block))];
      }
      pages, chain := pages + [Slab([], None)], chain + [block];
    }

    /** Follows the links from a page of the chain to the last one. */
    method Tail(from: nat, ghost position: nat) returns (tail: nat)
      requires Linked() && position < |chain| && chain[position] == from
      ensures tail == chain[|chain| - 1]
    {
      tail := from;
      ghost var p: nat := position;
      assert LinkOk(pages, chain, capacity, p);
      while pages[tail].next.Some?
        invariant p < |chain| && chain[p] == tail && LinkOk(pages, chain, capacity, p)
        decreases |chain| - p
      {
        tail, p := pages[tail].next.value, p + 1;
        assert LinkOk(pages, chain, capacity, p);
      }
    }

    method WriteChunk(block: nat, bytes: seq<Byte>)
      requires Linked() && chain != [] && block == chain[|chain| - 1]
      requires |pages[block].data| + |bytes| <= capacity
      modifies this`pages
      ensures Linked() && pages == old(pages)[block := Slab(old(pages)[block].data + bytes, None)]
      ensures Grown(old(pages), chain, pages, chain, bytes, capacity)
    {
      WriteKeepsChain(pages, chain, capacity, bytes);
      pages := pages[block := Slab(pages[block].data + bytes, None)];
    }

    /** Writes what fits on the last page, which is not full. */
    method WriteSome(block: nat, src: seq<Byte>, done: nat, first: Option<Stored>, ghost places: seq<Stored>)
      returns (done': nat, first': Stored)
      requires Linked() && chain != [] && block == chain[|chain| - 1] && |pages[block].data| < capacity
      requires done < |src| && Writing(pages, chain, capacity, places, first, src[..done])
      modifies this`pages
      ensures Linked() && done < done' <= |src|
      ensures Writing(pages, chain, capacity, places, Some(first'), src[..done'])
      ensures IsLast(chain, Some(block))
    {
      var available := capacity - |pages[block].data|;
      var chunk := if |src| - done < available then |src| - done else available;
      done' := done + chunk;
      first' := if first.Some? then first.value else Stored(block, |pages[block].data| + 1, []);
      SomeWritten(pages, chain, capacity, places, first, block, src, done, done');
      WriteChunk(block, src[done..done']);
    }

    /** Links a new page unless the last one has room. */
    method MakeRoom(buf: Option<nat>, ghost places: seq<Stored>, ghost first: Option<Stored>, ghost written: seq<Byte>)
      returns (block: nat)
      requires Linked() && Writing(pages, chain, capacity, places, first, written)
      requires IsLast(chain, buf)
      modifies this`pages, this`exactStart, this`chain
      ensures Linked() && Writing(pages, chain, capacity, places, first, written)
      ensures chain != [] && block == chain[|chain| - 1] && |pages[block].data| < capacity
      ensures old(chain) <= chain && (old(exactStart).Some? ==> exactStart == old(exactStart))
    {
      if buf.Some? && |pages[buf.value].data| < capacity { return buf.value; }
      ghost var pages0, chain0 := pages, chain;
      block := LinkPage();
      WritingGrows(pages0, chain0, pages, chain, [], capacity, places, first, written);
      assert written + [] == written;
    }

    /** TqGraphWriteExactPages: the exact vectors of all nodes of a new graph. */
    method WriteExactPages(vectors: seq<seq<Byte>>) returns (places: seq<Stored>)
      requires Valid() && chain == [] && stored == [] && appendTail.None? &&
               forall i | 0 <= i < |vectors| :: |vectors[i]| == vectorSize
      modifies this`pages, this`exactStart, this`chain, this`stored
      ensures Valid() && stored == places && |places| == |vectors|
      ensures forall i | 0 <= i < |places| :: places[i].bytes == vectors[i]
    {
      places := WriteVectors(vectors);
      stored := places;
    }

    method WriteVectors(vectors: seq<seq<Byte>>) returns (places: seq<Stored>)
      requires Linked() && chain == [] && forall i | 0 <= i < |vectors| :: |vectors[i]| == vectorSize
      modifies this`pages, this`exactStart, this`chain
      ensures Linked() && AllStored(pages, chain, places) && |places| == |vectors|
      ensures forall i | 0 <= i < |places| :: places[i].bytes == vectors[i]
    {
      places := [];
      var buf: Option<nat> := None;
      for i := 0 to |vectors|
        invariant Linked() && Writing(pages, chain, capacity, places, None, []) && |places| == i
        invariant forall k | 0 <= k < i :: places[k].bytes == vectors[k]
        invariant IsLast(chain, buf)
      {
        var place;
        buf, place := WriteVector(vectors[i], buf, places);
        places := places + [place];
      }
    }

    method WriteVector(src: seq<Byte>, buf0: Option<nat>, ghost places: seq<Stored>)
      returns (buf: Option<nat>, place: Stored)
      requires Linked() && Writing(pages, chain, capacity, places, None, []) && |src| == vectorSize
      requires IsLast(chain, buf0)
      modifies this`pages, this`exactStart, this`chain
      ensures Linked() && Writing(pages, chain, capacity, places + [place], None, []) && place.bytes == src
      ensures chain != [] && buf == Some(chain[|chain| - 1])
    {
      buf := buf0;
      var done := 0;
      var first: Option<Stored> := None;
      ghost var written: seq<Byte> := [];
      while done < |src|
        invariant Linked() && done <= |src| && (done > 0 ==> first.Some?)
        invariant IsLast(chain, buf)
        invariant written == src[..done] && Writing(pages, chain, capacity, places, first, written)
      {
        var block := MakeRoom(buf, places, first, written);
        var place1;
        done, place1 := WriteSome(block, src, done, first, places);
        first, buf, written := Some(place1), Some(block), src[..done];
      }
      assert src[..done] == src;
      WritingEnds(pages, chain, capacity, places, first.value, src);
      place := first.value.(bytes := src);
    }

    /** TqGraphAppendInsertedExact, from the remembered tail if it belongs to this chain. */
    method AppendInsertedExact(src: seq<Byte>) returns (place: Stored)
      requires Valid() && |src| == vectorSize
      modifies this
      ensures Valid() && stored == old(stored) + [place] && place.bytes == src
    {
      var blkno := if appendTail.Some? && appendStart == exactStart then appendTail else exactStart;
      blkno, place := AppendBytes(blkno, src, stored);
      stored := stored + [place];
      appendStart, appendTail := exactStart, blkno;
    }

    method AppendBytes(from: Option<nat>, src: seq<Byte>, ghost places: seq<Stored>)
      returns (blkno: Option<nat>, place: Stored)
      requires Linked() && Writing(pages, chain, capacity, places, None, []) && |src| == vectorSize
      requires if chain == [] then from == None else from.Some? && from.value in chain
      modifies this`pages, this`exactStart, this`chain
      ensures Linked() && Writing(pages, chain, capacity, places + [place], None, []) && place.bytes == src
      ensures blkno.Some? && blkno.value in chain
    {
      blkno := from;
      var done := 0;
      var first: Option<Stored> := None;
      assert src[..done] == [];
      while done < |src|
        invariant Linked() && done <= |src| && (done > 0 ==> first.Some?)
        invariant if chain == [] then blkno == None else blkno.Some? && blkno.value in chain
        invariant Writing(pages, chain, capacity, places, first, src[..done])
      {
        var last: Option<nat> := None;
        if blkno.Some? {
          ghost var p :| 0 <= p < |chain| && chain[p] == blkno.value;
          var tail := Tail(blkno.value, p);
          last := Some(tail);
        }
        var block := MakeRoom(last, places, first, src[..done]);
        var place1;
        done, place1 := WriteSome(block, src, done, first, places);
        first, blkno := Some(place1), Some(block);
      }
      assert src[..done] == src;
      WritingEnds(pages, chain, capacity, places, first.value, src);
      place := first.value.(bytes := src);
    }

    /** TqGraphReadExactVectorInto. */
    method ReadExactVector(block: Option<nat>, offset: nat) returns (r: Option<seq<Byte>>)
      requires Valid()
      ensures forall i | 0 <= i < |stored| && IsAt(stored[i], block, offset) :: r == Some(stored[i].bytes)
    {
      assert forall i | 0 <= i < |stored| :: StoredOk(pages, chain, stored[i]);
      if block.None? || offset == 0 { return None; }
      var blkno, from: nat := block, offset - 1;
      var copied: seq<Byte> := [];
      forall i | 0 <= i < |stored| && IsAt(stored[i], block, offset)
        ensures Reading(pages, chain, stored[i].bytes, copied, blkno, from)
      {
        assert StoredOk(pages, chain, stored[i]) && stored[i].bytes[0..] == stored[i].bytes;
      }
      while |copied| < vectorSize
        invariant |copied| <= vectorSize
        invariant forall i | 0 <= i < |stored| && IsAt(stored[i], block, offset) ::
                    Reading(pages, chain, stored[i].bytes, copied, blkno, from)
        decreases vectorSize - |copied|
      {
        forall i | 0 <= i < |stored| && IsAt(stored[i], block, offset)
          ensures blkno.Some? && blkno.value < |pages| && pages[blkno.value].Slab? && from < |pages[blkno.value].data|
        {
          ReadHere(pages, chain, capacity, stored[i].bytes, copied, blkno, from);
        }
        if blkno.None? { return None; }
        if blkno.value >= |pages| || pages[blkno.value].Other? { return None; }
        var data := pages[blkno.value].data;
        if from >= |data| { return None; }
        var available := |data| - from;
        var chunk := Least(vectorSize - |copied|, available);
        forall i | 0 <= i < |stored| && IsAt(stored[i], block, offset)
          ensures Reading(pages, chain, stored[i].bytes, copied + data[from..from + chunk], pages[blkno.value].next, 0)
        {
          ReadStep(pages, chain, capacity, stored[i].bytes, copied, blkno.value, from, chunk);
        }
        copied := copied + data[from..from + chunk];
        blkno, from := pages[blkno.value].next, 0;
      }
      forall i | 0 <= i < |stored| && IsAt(stored[i], block, offset)
        ensures copied == stored[i].bytes
      {
        assert Reading(pages, chain, stored[i].bytes, copied, blkno, from);
        assert stored[i].bytes[..|copied|] == stored[i].bytes;
      }
      r := Some(copied);
    }
  }

  /** The bytes not yet copied start at offset from of the page that is read next. */
  ghost predicate Reading(pages: seq<Page>, chain: seq<nat>, bytes: seq<Byte>, copied: seq<Byte>, blkno: Option<nat>,
                          from: nat)
    requires forall k | 0 <= k < |chain| :: chain[k] < |pages| && pages[chain[k]].Slab?
  {
    && |copied| <= |bytes| && copied == bytes[..|copied|]
    && (|copied| < |bytes| ==>
        exists k :: 0 <= k < |chain| && blkno == Some(chain[k]) &&
          BytesAt(Slabs(pages, chain), k, from, bytes[|copied|..]))
  }

  function Least(a: int, b: int): int { if a < b then a else b }

  lemma LastSlab(slabs: seq<seq<Byte>>, k: nat)
    requires k <= |slabs|
    ensures k == |slabs| ==> Flat(slabs[k..]) == []
    ensures k + 1 == |slabs| ==> Flat(slabs[k..]) == slabs[k]
  {
    if k + 1 == |slabs| { assert slabs[k..] == [slabs[k]] && Flat([slabs[k]]) == slabs[k]; }
  }

  /** While bytes are missing, the page to read next is a slab page with some of them. */
  lemma ReadHere(pages: seq<Page>, chain: seq<nat>, capacity: nat, bytes: seq<Byte>, copied: seq<Byte>,
                 blkno: Option<nat>, from: nat)
    requires Chained(pages, chain, capacity) && |copied| < |bytes| && Reading(pages, chain, bytes, copied, blkno, from)
    ensures blkno.Some? && blkno.value < |pages| && pages[blkno.value].Slab? && from < |pages[blkno.value].data|
  {
  }

  lemma TakeChunk(data: seq<Byte>, rest: seq<Byte>, todo: seq<Byte>, from: nat, chunk: nat)
    requires from < |data| && from + |todo| <= |data + rest| && todo == (data + rest)[from..from + |todo|]
    requires chunk == Least(|todo|, |data| - from)
    ensures data[from..from + chunk] == todo[..chunk]
    ensures chunk < |todo| ==> |todo| - chunk <= |rest| && todo[chunk..] == rest[..|todo| - chunk]
  {
  }

  lemma CopyMore(bytes: seq<Byte>, copied: seq<Byte>, chunk: nat)
    requires |copied| + chunk <= |bytes| && copied == bytes[..|copied|]
    ensures var copied' := copied + bytes[|copied|..][..chunk];
      copied' == bytes[..|copied'|] && bytes[|copied'|..] == bytes[|copied|..][chunk..]
  {
  }

  lemma ReadStep(pages: seq<Page>, chain: seq<nat>, capacity: nat, bytes: seq<Byte>, copied: seq<Byte>, block: nat,
                 from: nat, chunk: nat)
    requires capacity > 0 && Chained(pages, chain, capacity) && |copied| < |bytes| &&
             Reading(pages, chain, bytes, copied, Some(block), from)
    requires block < |pages| && pages[block].Slab? && from < |pages[block].data|
    requires chunk == Least(|bytes| - |copied|, |pages[block].data| - from)
    ensures Reading(pages, chain, bytes, copied + pages[block].data[from..from + chunk], pages[block].next, 0)
  {
    var slabs := Slabs(pages, chain);
    var todo := bytes[|copied|..];
    var k :| 0 <= k < |chain| && block == chain[k] && BytesAt(slabs, k, from, todo);
    NextBytes(slabs, k, from, todo, chunk);
    CopyMore(bytes, copied, chunk);
    if chunk < |todo| {
      assert LinkOk(pages, chain, capacity, k);
      assert k + 2 < |chain| ==> LinkOk(pages, chain, capacity, k + 1);
      assert BytesAt(slabs, k + 1, 0, todo[chunk..]);
    }
  }

  lemma NextBytes(slabs: seq<seq<Byte>>, k: nat, from: nat, todo: seq<Byte>, chunk: nat)
    requires BytesAt(slabs, k, from, todo) && chunk == Least(|todo|, |slabs[k]| - from)
    ensures slabs[k][from..from + chunk] == todo[..chunk]
    ensures chunk < |todo| ==> k + 1 < |slabs|
    ensures chunk < |todo| && (k + 2 < |slabs| ==> slabs[k + 1] != []) ==> BytesAt(slabs, k + 1, 0, todo[chunk..])
  {
    var data, rest := slabs[k], Flat(slabs[k + 1..]);
    assert slabs[k..][0] == data && slabs[k..][1..] == slabs[k + 1..];
    TakeChunk(data, rest, todo, from, chunk);
    LastSlab(slabs, k + 1);
  }
}
