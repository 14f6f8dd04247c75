/**
 Merging dense and BM25 candidates of a hybrid scan (src/tqhybrid.c:556-622, 752-956 and 992-1120):
 the hash table with a bounded heap and the sort-and-merge give the same list.

 A result either has a dense part or not, and a BM25 part or not; heap TIDs are opaque numbers.
 */
module HybridFusion {
  import opened Options
  import opened Orders
  import opened BinaryHeap
  import opened Powers
  import opened Vectors

  const INT_MAX: int := 0x7fff_ffff

  type Rank = r: int | 0 < r <= INT_MAX witness 1

  datatype DensePart = DensePart(distance: real, similarity: real, rank: Rank, exactScored: bool)
  datatype Bm25Part = Bm25Part(score: real, rank: Rank)

  datatype Dense = Dense(nodeId: nat, heaptid: nat, part: DensePart)
  datatype Bm25 = Bm25(nodeId: nat, heaptid: nat, part: Bm25Part)

  datatype Item = Item(nodeId: nat, heaptid: nat, dense: Option<DensePart>, bm25: Option<Bm25Part>, fusedScore: real)

  // ---------------------------------------------------------------------------------------
  // TqHybridScoreCompare
  // ---------------------------------------------------------------------------------------

  function DenseRank(a: Item): int { if a.dense.Some? then a.dense.value.rank else INT_MAX }
  function Bm25Rank(a: Item): int { if a.bm25.Some? then a.bm25.value.rank else INT_MAX }
  function Both(a: Item): int { if a.dense.Some? && a.bm25.Some? then 1 else 0 }

  function ScoreCompare(a: Item, b: Item): int {
    if a.fusedScore > b.fusedScore then -1
    else if a.fusedScore < b.fusedScore then 1
    else if Both(a) != Both(b) then Both(b) - Both(a)
    else if DenseRank(a) != DenseRank(b) then (if DenseRank(a) > DenseRank(b) then 1 else -1)
    else if Bm25Rank(a) != Bm25Rank(b) then (if Bm25Rank(a) > Bm25Rank(b) then 1 else -1)
    else if a.nodeId > b.nodeId then 1
    else if a.nodeId < b.nodeId then -1
    else 0
  }

  predicate Better(a: Item, b: Item) { ScoreCompare(a, b) < 0 }
  predicate Worse(a: Item, b: Item) { ScoreCompare(a, b) > 0 }

  /** The comparison is a weak order in either direction, and ties only items of one node. */
  lemma ScoreCompareIsAnOrder()
    ensures WeakOrder(Better) && WeakOrder(Worse)
    ensures forall a, b {:trigger ScoreCompare(a, b)} :: ScoreCompare(a, b) == 0 ==> a.nodeId == b.nodeId
    ensures forall a, b {:trigger Worse(a, b)} :: Worse(a, b) <==> Better(b, a)
  {
  }

  // ---------------------------------------------------------------------------------------
  // What is merged
  // ---------------------------------------------------------------------------------------

  function DenseOf(d: seq<Dense>, id: nat): (r: Option<Dense>)
    ensures r.Some? ==> r.value in d && r.value.nodeId == id
    ensures r.None? ==> forall x | x in d :: x.nodeId != id
  {
    if d == [] then None
    else if d[|d| - 1].nodeId == id then Some(d[|d| - 1])
    else assert d == d[..|d| - 1] + [d[|d| - 1]]; DenseOf(d[..|d| - 1], id)
  }

  function Bm25Of(b: seq<Bm25>, id: nat): (r: Option<Bm25>)
    ensures r.Some? ==> r.value in b && r.value.nodeId == id
    ensures r.None? ==> forall x | x in b :: x.nodeId != id
  {
    if b == [] then None
    else if b[|b| - 1].nodeId == id then Some(b[|b| - 1])
    else assert b == b[..|b| - 1] + [b[|b| - 1]]; Bm25Of(b[..|b| - 1], id)
  }

  ghost predicate DistinctInputs(d: seq<Dense>, b: seq<Bm25>) {
    && (forall i, j | 0 <= i < j < |d| :: d[i].nodeId != d[j].nodeId)
    && (forall i, j | 0 <= i < j < |b| :: b[i].nodeId != b[j].nodeId)
  }

  /** The one item of a node: its dense part and its BM25 part, with the dense heap TID if there is one. */
  ghost predicate IsItemOf(d: seq<Dense>, b: seq<Bm25>, item: Item) {
    var x, y := DenseOf(d, item.nodeId), Bm25Of(b, item.nodeId);
    && (x.Some? || y.Some?) && item.fusedScore == 0.0
    && item.dense == (if x.Some? then Some(x.value.part) else None)
    && item.bm25 == (if y.Some? then Some(y.value.part) else None)
    && item.heaptid == if x.Some? then x.value.heaptid else y.value.heaptid
  }

  ghost predicate DistinctNodes(items: seq<Item>) {
    forall i, j | 0 <= i < j < |items| :: items[i].nodeId != items[j].nodeId
  }

  /** One item for every node of either input, or for every node with a BM25 match. */
  ghost predicate IsMerge(d: seq<Dense>, b: seq<Bm25>, requireBm25: bool, items: seq<Item>) {
    && DistinctNodes(items)
    && forall item :: item in items <==> IsItemOf(d, b, item) && (requireBm25 ==> item.bm25.Some?)
  }

  // ---------------------------------------------------------------------------------------
  // The hash table
  // ---------------------------------------------------------------------------------------

  type Slots = seq<Option<Item>>

  const UINT32: nat := 0x1_0000_0000

  /** The slot where probing for a node starts; the mask keeps the low bits, and the slot count is a power of two. */
  function Home(id: nat, n: nat): (h: nat)
    requires n > 0
    ensures h < n
  {
    (id * 2654435761) % UINT32 % n
  }

  /** The slot that is i steps after h, around the end. */
  function Slot(h: nat, i: nat, n: nat): (p: nat)
    requires h < n && i < n
    ensures p < n
  {
    if h + i < n then h + i else h + i - n
  }

  function Steps(h: nat, p: nat, n: nat): (i: nat)
    requires h < n && p < n
    ensures i < n && Slot(h, i, n) == p
  {
    if h <= p then p - h else p + n - h
  }

  ghost predicate PathUsed(slots: Slots, h: nat, p: nat)
    requires h < |slots| && p < |slots|
  {
    forall i {:trigger Slot(h, i, |slots|)} | 0 <= i < Steps(h, p, |slots|) :: slots[Slot(h, i, |slots|)].Some?
  }

  /** Each node has one slot, and no slot on the way to it is unused. */
  ghost predicate TableOk(slots: Slots) {
    && |slots| > 0
    && (forall p | 0 <= p < |slots| && slots[p].Some? :: PathUsed(slots, Home(slots[p].value.nodeId, |slots|), p))
    && (forall p, q | 0 <= p < q < |slots| && slots[p].Some? && slots[q].Some? ::
        slots[p].value.nodeId != slots[q].value.nodeId)
  }

  ghost predicate HasNode(slots: Slots, id: nat) {
    exists p :: 0 <= p < |slots| && slots[p].Some? && slots[p].value.nodeId == id
  }

  /** A slot that may take the item of node id: its own, or the first unused one on the way if it has none. */
  ghost predicate SlotFor(slots: Slots, id: nat, p: nat) {
    && p < |slots|
    && (slots[p].Some? ==> slots[p].value.nodeId == id)
    && (slots[p].None? ==> !HasNode(slots, id) && PathUsed(slots, Home(id, |slots|), p))
  }

  lemma PutKeepsTable(slots: Slots, p: nat, item: Item)
    requires TableOk(slots) && SlotFor(slots, item.nodeId, p)
    ensures TableOk(slots[p := Some(item)])
  {
    var r := slots[p := Some(item)];
    forall q | 0 <= q < |r| && r[q].Some? ensures PathUsed(r, Home(r[q].value.nodeId, |r|), q) {
      assert PathUsed(slots, Home(r[q].value.nodeId, |r|), q);
    }
  }

  lemma UnusedEndsTheSearch(slots: Slots, id: nat, t: nat)
    requires TableOk(slots) && t < |slots|
    requires slots[Slot(Home(id, |slots|), t, |slots|)].None?
    requires forall i {:trigger Slot(Home(id, |slots|), i, |slots|)} | 0 <= i < t ::
               slots[Slot(Home(id, |slots|), i, |slots|)].Some? &&
                 slots[Slot(Home(id, |slots|), i, |slots|)].value.nodeId != id
    ensures SlotFor(slots, id, Slot(Home(id, |slots|), t, |slots|))
  {
    var h := Home(id, |slots|);
    forall q | 0 <= q < |slots| && slots[q].Some? ensures slots[q].value.nodeId != id {
      var i := Steps(h, q, |slots|);
      assert PathUsed(slots, Home(slots[q].value.nodeId, |slots|), q);
      assert Slot(h, i, |slots|) == q && Slot(h, t, |slots|) != q;
    }
    assert Steps(h, Slot(h, t, |slots|), |slots|) == t;
  }

  lemma NextSlot(p: nat, n: nat)
    requires p < n
    ensures (p + 1) % n == if p + 1 < n then p + 1 else 0
  {
  }

  /** TqHybridFindMergeSlot: probing ends because some slot is unused. */
  method FindMergeSlot(slots: array<Option<Item>>, id: nat) returns (p: nat)
    requires TableOk(slots[..]) && exists e :: 0 <= e < slots.Length && slots[e].None?
    ensures SlotFor(slots[..], id, p)
  {
    ghost var e :| 0 <= e < slots.Length && slots[e].None?;
    var n := slots.Length;
    ghost var h := Home(id, n);
    ghost var t := 0;
    p := Home(id, n);
    while true
      invariant p < n && 0 <= t <= Steps(h, e, n) && p == Slot(h, t, n)
      invariant forall i {:trigger Slot(h, i, n)} | 0 <= i < t ::
                slots[Slot(h, i, n)].Some? && slots[Slot(h, i, n)].value.nodeId != id
      decreases Steps(h, e, n) - t
    {
      if slots[p].None? {
        UnusedEndsTheSearch(slots[..], id, t);
        return;
      }
      if slots[p].value.nodeId == id { return; }
      NextSlot(p, n);
      p := (p + 1) % n;
      t := t + 1;
    }
  }

  /** The 32-bit result after k shifts. */
  function Shifted(k: nat): nat { Pow2(k) % UINT32 }

  lemma {:induction false} ShiftedOut(k: nat)
    ensures k >= 32 ==> Shifted(k) == 0
    ensures k < 32 ==> Shifted(k) <= UINT32 / 2
  {
    TopBit();
    if k < 32 {
      Pow2Grows(k, 31);
    } else if k > 32 {
      ShiftedOut(k - 1);
    }
  }

  /**
   Shifting ever reaches a 32-bit value exactly when the value is at most half of the range; else the
   loop never ends.
   */
  lemma ShiftReaches(value: nat)
    requires value < UINT32
    ensures (exists k :: Shifted(k) >= value) <==> value <= UINT32 / 2
  {
    TopBit();
    if value <= UINT32 / 2 {
      assert Shifted(31) == UINT32 / 2;
    } else {
      forall k ensures Shifted(k) < value { ShiftedOut(k); }
    }
  }

  /** A 32-bit shift: larger values would wrap around to zero and never reach the value. */
  method NextPowerOfTwo(value: nat) returns (result: nat)
    requires value <= UINT32 / 2
    ensures result >= value && IsPowerOfTwo(result) && result < UINT32
  {
    result := 1;
    ghost var k := 0;
    TopBit();
    while result < value
      invariant result == Pow2(k) == Shifted(k) && 0 <= k <= 31 && 0 < result <= UINT32 / 2
      decreases UINT32 - result
    {
      Pow2Grows(k + 1, 31);
      k := k + 1;
      result := result * 2 % UINT32;
    }
  }

  // ---------------------------------------------------------------------------------------
  // Merging through the hash table
  // ---------------------------------------------------------------------------------------

  ghost predicate Stored(slots: Slots, item: Item) {
    exists p :: 0 <= p < |slots| && slots[p] == Some(item)
  }

  /** The table stores exactly the items of the candidates added so far. */
  ghost predicate Holds(slots: Slots, d: seq<Dense>, b: seq<Bm25>) {
    TableOk(slots) && forall item :: Stored(slots, item) <==> IsItemOf(d, b, item)
  }

  lemma PutKeepsHolds(slots: Slots, d: seq<Dense>, b: seq<Bm25>, d': seq<Dense>, b': seq<Bm25>, p: nat, item: Item)
    requires Holds(slots, d, b) && SlotFor(slots, item.nodeId, p) && IsItemOf(d', b', item)
    requires forall x: Item | x.nodeId != item.nodeId :: IsItemOf(d, b, x) <==> IsItemOf(d', b', x)
    ensures Holds(slots[p := Some(item)], d', b')
  {
    var r := slots[p := Some(item)];
    PutKeepsTable(slots, p, item);
    forall x ensures Stored(r, x) <==> IsItemOf(d', b', x) {
      if x.nodeId == item.nodeId {
        assert r[p] == Some(item);
        if Stored(r, x) {
          var q :| 0 <= q < |r| && r[q] == Some(x);
          assert q == p;
        }
      } else {
        assert Stored(slots, x) <==> IsItemOf(d, b, x);
        if q :| 0 <= q < |slots| && slots[q] == Some(x) { assert r[q] == Some(x); }
        if q :| 0 <= q < |r| && r[q] == Some(x) { assert slots[q] == Some(x); }
      }
    }
  }

  function Fresh(id: nat): Item { Item(id, 0, None, None, 0.0) }

  /** TqHybridAddDenseCandidate on an item. */
  function AddDense(item: Item, c: Dense): Item {
    item.(nodeId := c.nodeId, heaptid := c.heaptid, dense := Some(c.part))
  }

  /** TqHybridAddBm25Candidate on an item; the dense heap TID wins. */
  function AddBm25(item: Item, c: Bm25): Item {
    item.(nodeId := c.nodeId, heaptid := if item.dense.Some? then item.heaptid else c.heaptid, bm25 := Some(c.part))
  }

  /** The item of a node that either input mentions. */
  function ItemFor(d: seq<Dense>, b: seq<Bm25>, id: nat): (item: Item)
    ensures item.nodeId == id
    ensures DenseOf(d, id).Some? || Bm25Of(b, id).Some? ==> IsItemOf(d, b, item)
  {
    var x, y := DenseOf(d, id), Bm25Of(b, id);
    var i := if x.Some? then AddDense(Fresh(id), x.value) else Fresh(id);
    if y.Some? then AddBm25(i, y.value) else i
  }

  lemma DenseStep(slots: Slots, d: seq<Dense>, c: Dense, p: nat)
    requires Holds(slots, d, []) && SlotFor(slots, c.nodeId, p) && forall x | x in d :: x.nodeId != c.nodeId
    ensures var base := if slots[p].Some? then slots[p].value else Fresh(c.nodeId);
      Holds(slots[p := Some(AddDense(base, c))], d + [c], [])
  {
    assert (d + [c])[..|d|] == d;
    assert DenseOf(d, c.nodeId).None?;
    if slots[p].Some? { assert Stored(slots, slots[p].value); }
    PutKeepsHolds(slots, d, [], d + [c], [], p, AddDense(Fresh(c.nodeId), c));
  }

  lemma Bm25Step(slots: Slots, d: seq<Dense>, b: seq<Bm25>, c: Bm25, p: nat)
    requires Holds(slots, d, b) && SlotFor(slots, c.nodeId, p) && forall x | x in b :: x.nodeId != c.nodeId
    ensures var base := if slots[p].Some? then slots[p].value else Fresh(c.nodeId);
      Holds(slots[p := Some(AddBm25(base, c))], d, b + [c])
  {
    assert (b + [c])[..|b|] == b;
    assert Bm25Of(b, c.nodeId).None?;
    var base := if slots[p].Some? then slots[p].value else Fresh(c.nodeId);
    if slots[p].Some? {
      assert Stored(slots, base);
    } else {
      var own := ItemFor(d, b, c.nodeId);
      assert Stored(slots, own) ==> HasNode(slots, c.nodeId);
    }
    PutKeepsHolds(slots, d, b, d, b + [c], p, AddBm25(base, c));
  }

  lemma RoomLeft(slots: Slots, d: seq<Dense>, b: seq<Bm25>)
    requires Holds(slots, d, b) && |d| + |b| < |slots|
    ensures exists e :: 0 <= e < |slots| && slots[e].None?
  {
    if forall e | 0 <= e < |slots| :: slots[e].Some? {
      var ids := seq(|slots|, p requires 0 <= p < |slots| => slots[p].value.nodeId);
      var known := seq(|d|, i requires 0 <= i < |d| => d[i].nodeId) + seq(|b|, i requires 0 <= i < |b| => b[i].nodeId);
      forall x | x in ids ensures x in known {
        var p :| 0 <= p < |slots| && ids[p] == x;
        assert Stored(slots, slots[p].value);
        if DenseOf(d, x).Some? {
          var i :| 0 <= i < |d| && d[i] == DenseOf(d, x).value;
          assert known[i] == x;
        } else {
          var i :| 0 <= i < |b| && b[i] == Bm25Of(b, x).value;
          assert known[|d| + i] == x;
        }
      }
      PigeonHole(ids, known);
    }
  }

  /** Fills the table, whose size is a power of two and at least twice the number of candidates. */
  method FillTable(d: seq<Dense>, b: seq<Bm25>) returns (slots: array<Option<Item>>)
    requires DistinctInputs(d, b) && (|d| + |b|) * 2 <= UINT32 / 2
    ensures Holds(slots[..], d, b) && fresh(slots)
    ensures IsPowerOfTwo(slots.Length) && slots.Length >= 2 * (|d| + |b|)
  {
    var seen := |d| + |b|;
    var slotCount := NextPowerOfTwo(if seen * 2 < 16 then 16 else seen * 2);
    slots := new Option<Item>[slotCount](_ => None);
    assert d[..0] == [] && b[..0] == [];
    for i := 0 to |d|
      invariant Holds(slots[..], d[..i], [])
    {
      RoomLeft(slots[..], d[..i], []);
      var p := FindMergeSlot(slots, d[i].nodeId);
      ghost var before := slots[..];
      var base := if slots[p].Some? then slots[p].value else Fresh(d[i].nodeId);
      slots[p] := Some(AddDense(base, d[i]));
      DenseStep(before, d[..i], d[i], p);
      assert d[..i + 1] == d[..i] + [d[i]] && slots[..] == before[p := Some(AddDense(base, d[i]))];
    }
    assert d[..|d|] == d;
    for i := 0 to |b|
      invariant Holds(slots[..], d, b[..i])
    {
      RoomLeft(slots[..], d, b[..i]);
      var p := FindMergeSlot(slots, b[i].nodeId);
      ghost var before := slots[..];
      var base := if slots[p].Some? then slots[p].value else Fresh(b[i].nodeId);
      slots[p] := Some(AddBm25(base, b[i]));
      Bm25Step(before, d, b[..i], b[i], p);
      assert b[..i + 1] == b[..i] + [b[i]] && slots[..] == before[p := Some(AddBm25(base, b[i]))];
    }
    assert b[..|b|] == b;
  }

  method HashMerge(d: seq<Dense>, b: seq<Bm25>, requireBm25: bool) returns (merged: seq<Item>)
    requires DistinctInputs(d, b) && (|d| + |b|) * 2 <= UINT32 / 2
    ensures IsMerge(d, b, requireBm25, merged)
  {
    var table := FillTable(d, b);
    var slots := table[..];
    merged := [];
    for i := 0 to |slots|
      invariant DistinctNodes(merged)
      invariant forall x :: x in merged <==> Stored(slots[..i], x) && (requireBm25 ==> x.bm25.Some?)
    {
      StoredOneMore(slots, i);
      if slots[i].None? { continue; }
      if requireBm25 && slots[i].value.bm25.None? { continue; }
      merged := merged + [slots[i].value];
    }
    assert slots[..|slots|] == slots;
  }

  lemma StoredOneMore(slots: Slots, i: nat)
    requires i < |slots| && TableOk(slots)
    ensures forall x :: Stored(slots[..i + 1], x) <==> Stored(slots[..i], x) || slots[i] == Some(x)
    ensures slots[i].Some? ==> forall x | Stored(slots[..i], x) :: x.nodeId != slots[i].value.nodeId
  {
    assert slots[..i + 1] == slots[..i] + [slots[i]];
    forall x ensures Stored(slots[..i + 1], x) <==> Stored(slots[..i], x) || slots[i] == Some(x) {
      if q :| 0 <= q < |slots[..i]| && slots[..i][q] == Some(x) { assert slots[..i + 1][q] == Some(x); }
      if slots[i] == Some(x) { assert slots[..i + 1][i] == Some(x); }
    }
  }

  // ---------------------------------------------------------------------------------------
  // Merging by sorting
  // ---------------------------------------------------------------------------------------

  predicate NodeBefore(a: Item, b: Item) { a.nodeId < b.nodeId }

  /** x is what one candidate of either input becomes. */
  ghost predicate IsEntry(d: seq<Dense>, b: seq<Bm25>, x: Item) {
    || (DenseOf(d, x.nodeId).Some? && x == AddDense(Fresh(x.nodeId), DenseOf(d, x.nodeId).value))
    || (Bm25Of(b, x.nodeId).Some? && x == AddBm25(Fresh(x.nodeId), Bm25Of(b, x.nodeId).value))
  }

  ghost predicate Lists(d: seq<Dense>, b: seq<Bm25>, items: seq<Item>) {
    forall x :: x in items <==> IsEntry(d, b, x)
  }

  lemma OfIsTheOne(d: seq<Dense>, b: seq<Bm25>)
    requires DistinctInputs(d, b)
    ensures forall c | c in d :: DenseOf(d, c.nodeId) == Some(c)
    ensures forall c | c in b :: Bm25Of(b, c.nodeId) == Some(c)
  {
  }

  method ListEntries(d: seq<Dense>, b: seq<Bm25>) returns (items: seq<Item>)
    requires DistinctInputs(d, b)
    ensures Lists(d, b, items)
  {
    items := [];
    for i := 0 to |d|
      invariant |items| == i && forall k | 0 <= k < i :: items[k] == AddDense(Fresh(d[k].nodeId), d[k])
    {
      items := items + [AddDense(Fresh(d[i].nodeId), d[i])];
    }
    for i := 0 to |b|
      invariant |items| == |d| + i && forall k | 0 <= k < |d| :: items[k] == AddDense(Fresh(d[k].nodeId), d[k])
      invariant forall k | |d| <= k < |d| + i :: items[k] == AddBm25(Fresh(b[k - |d|].nodeId), b[k - |d|])
    {
      items := items + [AddBm25(Fresh(b[i].nodeId), b[i])];
    }
    EntriesAreListed(d, b, items);
  }

  lemma EntriesAreListed(d: seq<Dense>, b: seq<Bm25>, items: seq<Item>)
    requires DistinctInputs(d, b) && |items| == |d| + |b|
    requires forall k | 0 <= k < |d| :: items[k] == AddDense(Fresh(d[k].nodeId), d[k])
    requires forall k | |d| <= k < |d| + |b| :: items[k] == AddBm25(Fresh(b[k - |d|].nodeId), b[k - |d|])
    ensures Lists(d, b, items)
  {
    OfIsTheOne(d, b);
    forall x ensures x in items <==> IsEntry(d, b, x) {
      if x in items {
        var k :| 0 <= k < |items| && items[k] == x;
        if k < |d| { assert d[k] in d; } else { assert b[k - |d|] in b; }
      }
      if DenseOf(d, x.nodeId).Some? && x == AddDense(Fresh(x.nodeId), DenseOf(d, x.nodeId).value) {
        var k :| 0 <= k < |d| && d[k] == DenseOf(d, x.nodeId).value;
        assert items[k] == x;
      } else if IsEntry(d, b, x) {
        var k :| 0 <= k < |b| && b[k] == Bm25Of(b, x.nodeId).value;
        assert items[|d| + k] == x;
      }
    }
  }

  /** qsort with TqHybridNodeCompare may leave the items of one node in either order. */
  method SortByNode(items: seq<Item>) returns (r: seq<Item>)
    ensures SameMembers(items, r) && Ascending(r, NodeBefore)
  {
    r := Sort(items, NodeBefore);
    SortedIsAscending(items, NodeBefore);
    SortedKeepsMembers(items, NodeBefore);
  }

  /** The inner loop of the sort merge: x is another item of the same node. */
  function Absorb(item: Item, x: Item): Item {
    var a := if x.dense.Some? then item.(dense := x.dense, heaptid := x.heaptid) else item;
    if x.bm25.Some? then a.(bm25 := x.bm25, heaptid := if a.dense.Some? then a.heaptid else x.heaptid) else a
  }

  /** item joins the entries that are at positions lo to hi, all of its node. */
  ghost predicate Joins(d: seq<Dense>, b: seq<Bm25>, items: seq<Item>, lo: nat, hi: nat, item: Item) {
    var x, y := DenseOf(d, item.nodeId), Bm25Of(b, item.nodeId);
    && lo < hi <= |items| && item.fusedScore == 0.0
    && (forall t | lo <= t < hi :: items[t].nodeId == item.nodeId)
    && (item.dense.Some? ==> x.Some? && item.dense == Some(x.value.part) && item.heaptid == x.value.heaptid)
    && (item.bm25.Some? ==> y.Some? && item.bm25 == Some(y.value.part))
    && (item.dense.None? ==> y.Some? && item.bm25.Some? && item.heaptid == y.value.heaptid)
    && (item.dense.None? ==> forall t | lo <= t < hi :: items[t].dense.None?)
    && (item.bm25.None? ==> forall t | lo <= t < hi :: items[t].bm25.None?)
  }

  lemma AbsorbJoins(d: seq<Dense>, b: seq<Bm25>, items: seq<Item>, lo: nat, hi: nat, item: Item)
    requires Joins(d, b, items, lo, hi, item) && hi < |items| && items[hi].nodeId == item.nodeId &&
             IsEntry(d, b, items[hi])
    ensures Joins(d, b, items, lo, hi + 1, Absorb(item, items[hi]))
  {
  }

  /** A whole group joins to the item of its node. */
  lemma GroupIsItem(d: seq<Dense>, b: seq<Bm25>, items: seq<Item>, lo: nat, hi: nat, item: Item)
    requires Lists(d, b, items) && Ascending(items, NodeBefore) && Joins(d, b, items, lo, hi, item)
    requires lo > 0 ==> items[lo - 1].nodeId != item.nodeId
    requires hi < |items| ==> items[hi].nodeId != item.nodeId
    ensures IsItemOf(d, b, item)
  {
    var x, y := DenseOf(d, item.nodeId), Bm25Of(b, item.nodeId);
    if x.Some? {
      var e := AddDense(Fresh(item.nodeId), x.value);
      assert IsEntry(d, b, e);
      InsideGroup(items, lo, hi, e);
    }
    if y.Some? {
      var e := AddBm25(Fresh(item.nodeId), y.value);
      assert IsEntry(d, b, e);
      InsideGroup(items, lo, hi, e);
    }
  }

  lemma InsideGroup(items: seq<Item>, lo: nat, hi: nat, e: Item)
    requires e in items && Ascending(items, NodeBefore) && lo < hi <= |items| && items[lo].nodeId == e.nodeId
    requires lo > 0 ==> items[lo - 1].nodeId != e.nodeId
    requires hi < |items| ==> items[hi].nodeId != e.nodeId
    ensures exists t :: lo <= t < hi && items[t] == e
  {
    var t :| 0 <= t < |items| && items[t] == e;
    assert forall i, j | 0 <= i < j < |items| :: items[i].nodeId <= items[j].nodeId;
  }

  ghost predicate NodeIn(items: seq<Item>, hi: nat, id: nat)
    requires hi <= |items|
  {
    exists t :: 0 <= t < hi && items[t].nodeId == id
  }

  method SortMerge(d: seq<Dense>, b: seq<Bm25>, requireBm25: bool) returns (merged: seq<Item>)
    requires DistinctInputs(d, b)
    ensures IsMerge(d, b, requireBm25, merged)
  {
    var entries := ListEntries(d, b);
    var items := SortByNode(entries);
    merged := [];
    var i := 0;
    while i < |items|
      invariant 0 <= i <= |items| && DistinctNodes(merged)
      invariant 0 < i < |items| ==> items[i - 1].nodeId != items[i].nodeId
      invariant forall x :: x in merged <==>
                IsItemOf(d, b, x) && (requireBm25 ==> x.bm25.Some?) && NodeIn(items, i, x.nodeId)
    {
      var item := items[i];
      ghost var lo := i;
      assert IsEntry(d, b, items[lo]);
      i := i + 1;
      while i < |items| && items[i].nodeId == item.nodeId
        invariant lo < i <= |items| && item.nodeId == items[lo].nodeId && Joins(d, b, items, lo, i, item)
      {
        assert IsEntry(d, b, items[i]);
        AbsorbJoins(d, b, items, lo, i, item);
        item := Absorb(item, items[i]);
        i := i + 1;
      }
      GroupIsItem(d, b, items, lo, i, item);
      NodeInGrows(d, b, items, lo, i, item);
      if requireBm25 && item.bm25.None? { continue; }
      merged := merged + [item];
    }
    AllNodesIn(d, b, items);
  }

  lemma NodeInGrows(d: seq<Dense>, b: seq<Bm25>, items: seq<Item>, lo: nat, hi: nat, item: Item)
    requires Ascending(items, NodeBefore) && lo < hi <= |items| &&
             (forall t | lo <= t < hi :: items[t].nodeId == item.nodeId)
    requires lo > 0 ==> items[lo - 1].nodeId != item.nodeId
    ensures forall id :: NodeIn(items, hi, id) <==> NodeIn(items, lo, id) || id == item.nodeId
    ensures !NodeIn(items, lo, item.nodeId)
  {
    forall t | 0 <= t < lo ensures items[t].nodeId != item.nodeId {
      assert !NodeBefore(items[lo - 1], items[t]) || t == lo - 1;
      assert !NodeBefore(items[lo], items[lo - 1]);
    }
    assert items[lo].nodeId == item.nodeId;
  }

  lemma AllNodesIn(d: seq<Dense>, b: seq<Bm25>, items: seq<Item>)
    requires Lists(d, b, items)
    ensures forall x | IsItemOf(d, b, x) :: NodeIn(items, |items|, x.nodeId)
  {
    forall x | IsItemOf(d, b, x) ensures NodeIn(items, |items|, x.nodeId) {
      var e := if DenseOf(d, x.nodeId).Some? then AddDense(Fresh(x.nodeId), DenseOf(d, x.nodeId).value)
        else AddBm25(Fresh(x.nodeId), Bm25Of(b, x.nodeId).value);
      assert IsEntry(d, b, e);
      var t :| 0 <= t < |items| && items[t] == e;
    }
  }

  // ---------------------------------------------------------------------------------------
  // TqHybridScoreResults
  // ---------------------------------------------------------------------------------------

  /** exactRescore stands for the setting together with a query vector; finalK is the limit if one is set. */
  datatype Query = Query(weighted: bool, alpha: Option<real>, denseWeight: real, bm25Weight: real, rrfK: nat,
                         requireBm25: bool, exactRescore: bool, maxUnion: nat, finalK: Option<nat>)

  datatype Range = Empty | Range(min: real, max: real)

  function Widen(r: Range, v: real): Range {
    if r.Empty? then Range(v, v) else Range(if v < r.min then v else r.min, if v > r.max then v else r.max)
  }

  function DenseRange(items: seq<Item>): Range {
    if items == [] then Empty
    else
      var r, x := DenseRange(items[..|items| - 1]), items[|items| - 1];
      if x.dense.Some? then Widen(r, x.dense.value.similarity) else r
  }

  function Bm25Range(items: seq<Item>): Range {
    if items == [] then Empty
    else
      var r, x := Bm25Range(items[..|items| - 1]), items[|items| - 1];
      if x.bm25.Some? then Widen(r, x.bm25.value.score) else r
  }

  /** The smallest and the largest of the values that the items have. */
  ghost predicate IsRange(r: Range, items: seq<Item>, has: Item -> bool, value: Item -> real) {
    && (r.Empty? <==> forall x | x in items :: !has(x))
    && (r.Range? ==> (forall x | x in items && has(x) :: r.min <= value(x) <= r.max)
                     && (exists x :: x in items && has(x) && value(x) == r.min)
                     && (exists x :: x in items && has(x) && value(x) == r.max))
  }

  const HAS_DENSE: Item -> bool := (x: Item) => x.dense.Some?
  const SIMILARITY: Item -> real := (x: Item) => if x.dense.Some? then x.dense.value.similarity else 0.0
  const HAS_BM25: Item -> bool := (x: Item) => x.bm25.Some?
  const BM25_SCORE: Item -> real := (x: Item) => if x.bm25.Some? then x.bm25.value.score else 0.0

  lemma WidenKeepsRange(r: Range, items: seq<Item>, x: Item, has: Item -> bool, value: Item -> real)
    requires IsRange(r, items, has, value)
    ensures IsRange(if has(x) then Widen(r, value(x)) else r, items + [x], has, value)
  {
    var r' := if has(x) then Widen(r, value(x)) else r;
    if r'.Range? {
      if r.Range? {
        var lo :| lo in items && has(lo) && value(lo) == r.min;
        var hi :| hi in items && has(hi) && value(hi) == r.max;
        assert lo in items + [x] && hi in items + [x];
      }
      assert x in items + [x];
    } else {
      assert !has(x);
    }
  }

  lemma {:induction false} RangesAreRanges(items: seq<Item>)
    ensures IsRange(DenseRange(items), items, HAS_DENSE, SIMILARITY)
    ensures IsRange(Bm25Range(items), items, HAS_BM25, BM25_SCORE)
  {
    if items != [] {
      var n := |items| - 1;
      RangesAreRanges(items[..n]);
      assert items == items[..n] + [items[n]];
      WidenKeepsRange(DenseRange(items[..n]), items[..n], items[n], HAS_DENSE, SIMILARITY);
      WidenKeepsRange(Bm25Range(items[..n]), items[..n], items[n], HAS_BM25, BM25_SCORE);
    }
  }

  lemma RangesByMembers(s: seq<Item>, t: seq<Item>)
    requires SameMembers(s, t)
    ensures DenseRange(s) == DenseRange(t) && Bm25Range(s) == Bm25Range(t)
  {
    RangesAreRanges(s);
    RangesAreRanges(t);
    OneRange(DenseRange(s), DenseRange(t), s, t, HAS_DENSE, SIMILARITY);
    OneRange(Bm25Range(s), Bm25Range(t), s, t, HAS_BM25, BM25_SCORE);
  }

  lemma OneRange(a: Range, b: Range, s: seq<Item>, t: seq<Item>, has: Item -> bool, value: Item -> real)
    requires SameMembers(s, t) && IsRange(a, s, has, value) && IsRange(b, t, has, value)
    ensures a == b
  {
  }

  function Normalize(value: real, min: real, max: real): real {
    if max <= min then (if value > 0.0 then 1.0 else 0.0) else (value - min) / (max - min)
  }

  function NormalizeIn(value: real, r: Range): real {
    if r.Range? then Normalize(value, r.min, r.max) else 0.0
  }

  function DenseShare(q: Query, x: Item, dense: Range): real {
    if x.dense.None? then 0.0
    else if q.weighted then NormalizeIn(x.dense.value.similarity, dense)
    else 1.0 / (q.rrfK + x.dense.value.rank) as real
  }

  function Bm25Share(q: Query, x: Item, bm25: Range): real {
    if x.bm25.None? then 0.0
    else if q.weighted then NormalizeIn(x.bm25.value.score, bm25)
    else 1.0 / (q.rrfK + x.bm25.value.rank) as real
  }

  function Alpha(q: Query): real { if q.alpha.Some? then q.alpha.value else 0.5 }

  function FusedScore(q: Query, x: Item, dense: Range, bm25: Range): real {
    if q.weighted then Times(Alpha(q), DenseShare(q, x, dense)) + Times(1.0 - Alpha(q), Bm25Share(q, x, bm25))
    else Times(q.denseWeight, DenseShare(q, x, dense)) + Times(q.bm25Weight, Bm25Share(q, x, bm25))
  }

  function ScoredItem(q: Query, x: Item, items: seq<Item>): Item {
    x.(fusedScore := FusedScore(q, x, DenseRange(items), Bm25Range(items)))
  }

  function Scored(q: Query, items: seq<Item>): (r: seq<Item>)
    ensures |r| == |items| && forall i | 0 <= i < |r| :: r[i] == ScoredItem(q, items[i], items)
  {
    seq(|items|, i requires 0 <= i < |items| => ScoredItem(q, items[i], items))
  }

  method ScoreResults(q: Query, items: seq<Item>) returns (r: seq<Item>)
    ensures r == Scored(q, items)
  {
    var dense, bm25 := Empty, Empty;
    for i := 0 to |items|
      invariant dense == DenseRange(items[..i]) && bm25 == Bm25Range(items[..i])
    {
      assert items[..i + 1][..i] == items[..i];
      if items[i].dense.Some? { dense := Widen(dense, items[i].dense.value.similarity); }
      if items[i].bm25.Some? { bm25 := Widen(bm25, items[i].bm25.value.score); }
    }
    assert items[..|items|] == items;
    r := [];
    for i := 0 to |items|
      invariant |r| == i && forall k | 0 <= k < i :: r[k] == ScoredItem(q, items[k], items)
    {
      r := r + [items[i].(fusedScore := FusedScore(q, items[i], dense, bm25))];
    }
  }

  /** Scoring depends on the members only, and keeps the nodes distinct. */
  lemma ScoredByMembers(q: Query, s: seq<Item>, t: seq<Item>)
    requires SameMembers(s, t) && DistinctNodes(s) && DistinctNodes(t)
    ensures SameMembers(Scored(q, s), Scored(q, t)) && DistinctNodes(Scored(q, s)) && DistinctNodes(Scored(q, t))
  {
    RangesByMembers(s, t);
    ScoredIncludes(q, s, t);
    ScoredIncludes(q, t, s);
  }

  lemma ScoredIncludes(q: Query, s: seq<Item>, t: seq<Item>)
    requires SameMembers(s, t) && DenseRange(s) == DenseRange(t) && Bm25Range(s) == Bm25Range(t)
    ensures forall x | x in Scored(q, s) :: x in Scored(q, t)
  {
    forall x | x in Scored(q, s) ensures x in Scored(q, t) {
      var i :| 0 <= i < |s| && Scored(q, s)[i] == x;
      assert s[i] in t;
      var j :| 0 <= j < |t| && t[j] == s[i];
      assert Scored(q, t)[j] == x;
    }
  }

  // ---------------------------------------------------------------------------------------
  // TqHybridSelectTopN
  // ---------------------------------------------------------------------------------------

  lemma DistinctNodesNeverTie(items: seq<Item>)
    requires DistinctNodes(items)
    ensures NoTies(items, Better) && NoRepeats(items)
  {
    ScoreCompareIsAnOrder();
    forall x, y | x in items && y in items && x != y ensures Better(x, y) || Better(y, x) {
      var i :| 0 <= i < |items| && items[i] == x;
      var j :| 0 <= j < |items| && items[j] == y;
      assert ScoreCompare(x, y) == 0 ==> x.nodeId == y.nodeId;
      assert Worse(x, y) <==> Better(y, x);
    }
  }

  /** TqHybridSelectTopN: a heap with the worst at its root holds the best target items. */
  method SelectTopN(items: seq<Item>, target: nat) returns (top: seq<Item>)
    requires DistinctNodes(items)
    ensures top == Sorted(items, Better)[..if target < |items| then target else |items|]
  {
    if target == 0 || items == [] { return []; }
    ScoreCompareIsAnOrder();
    DistinctNodesNeverTie(items);
    var heap := new Item[target](_ => Fresh(0));
    var count := 0;
    ghost var kept: set<Item> := {};
    for i := 0 to |items|
      invariant 0 <= count <= target && HeapOf(heap[..count], kept, Worse) && IsTop(kept, items[..i], target, Better)
    {
      count, kept := OfferItem(heap, count, items, i, kept);
    }
    assert items[..|items|] == items;
    TopIsPrefix(kept, heap[..count], items, target, Better);
    top := Sort(heap[..count], Better);
  }

  method OfferItem(heap: array<Item>, count: nat, items: seq<Item>, i: nat, ghost kept: set<Item>)
    returns (count': nat, ghost kept': set<Item>)
    requires 0 < heap.Length && count <= heap.Length && i < |items| && DistinctNodes(items)
    requires HeapOf(heap[..count], kept, Worse) && IsTop(kept, items[..i], heap.Length, Better)
    modifies heap
    ensures count' <= heap.Length && HeapOf(heap[..count'], kept', Worse) &&
            IsTop(kept', items[..i + 1], heap.Length, Better)
  {
    var x := items[i];
    ghost var worst := if count > 0 then heap[0] else x;
    ScoreCompareIsAnOrder();
    RootOf(heap[..count], kept, Worse);
    TopStep(kept, items, i, heap.Length, worst);
    kept' := TopWith(kept, heap.Length, x, worst, Better);
    count' := count;
    if count < heap.Length {
      count' := HeapPush(heap, count, x, Worse, kept);
    } else if ScoreCompare(x, heap[0]) < 0 {
      HeapReplaceRoot(heap, count, x, Worse, kept);
    }
  }

  lemma TopStep(kept: set<Item>, items: seq<Item>, i: nat, n: nat, worst: Item)
    requires i < |items| && DistinctNodes(items) && n > 0 && IsTop(kept, items[..i], n, Better)
    requires kept != {} ==> IsFirst(worst, kept, Worse)
    ensures IsTop(TopWith(kept, n, items[i], worst, Better), items[..i + 1], n, Better) && items[i] !in kept
  {
    ScoreCompareIsAnOrder();
    DistinctNodesNeverTie(items);
    NoTiesBefore(items, i);
    assert items[..i + 1] == items[..i] + [items[i]];
    assert forall k | k in kept :: !Better(worst, k);
    OfferKeepsTop(kept, items[..i], n, items[i], worst, Better);
  }

  lemma NoTiesBefore(items: seq<Item>, i: nat)
    requires i < |items| && NoTies(items, Better) && NoRepeats(items)
    ensures NoTies(items[..i] + [items[i]], Better) && items[i] !in items[..i]
  {
    assert items[..i] + [items[i]] == items[..i + 1];
  }

  // ---------------------------------------------------------------------------------------
  // TqHybridCollectScanResults
  // ---------------------------------------------------------------------------------------

  function FinalTarget(q: Query, n: nat): nat {
    var a := if q.maxUnion > 0 && q.maxUnion < n then q.maxUnion else n;
    if q.finalK.Some? && q.finalK.value < a then q.finalK.value else a
  }

  datatype Outcome = Results(items: seq<Item>) | Bm25OnlyRescoreUnsupported

  predicate NeedsRescore(q: Query, merged: seq<Item>) {
    q.exactRescore && exists x :: x in merged && x.bm25.Some? && x.dense.None?
  }

  /** What a merge leads to: an error, or the best of its items by fused score. */
  function OutcomeOf(q: Query, merged: seq<Item>): Outcome {
    if NeedsRescore(q, merged) then Bm25OnlyRescoreUnsupported
    else Results(Sorted(Scored(q, merged), Better)[..FinalTarget(q, |merged|)])
  }

  /** Every merge of the same inputs has the same outcome. */
  lemma MergesAgree(d: seq<Dense>, b: seq<Bm25>, q: Query, m1: seq<Item>, m2: seq<Item>)
    requires IsMerge(d, b, q.requireBm25, m1) && IsMerge(d, b, q.requireBm25, m2)
    ensures OutcomeOf(q, m1) == OutcomeOf(q, m2)
  {
    assert SameMembers(m1, m2);
    ScoredByMembers(q, m1, m2);
    ScoreCompareIsAnOrder();
    DistinctNodesNeverTie(Scored(q, m1));
    DistinctNodesNeverTie(Scored(q, m2));
    SameMembersSortAlike(Scored(q, m1), Scored(q, m2), Better);
  }

  // ---------------------------------------------------------------------------------------
  // What the ranking means
  // ---------------------------------------------------------------------------------------

  /** An absent rank counts as the largest one. */
  predicate RankAtMost<T>(a: Option<T>, b: Option<T>, rank: T -> Rank) {
    b.None? || (if a.Some? then rank(a.value) <= rank(b.value) else rank(b.value) == 2147483647)
  }

  predicate DenseAtMost(a: Item, b: Item) { RankAtMost(a.dense, b.dense, (x: DensePart) => x.rank) }
  predicate Bm25AtMost(a: Item, b: Item) { RankAtMost(a.bm25, b.bm25, (x: Bm25Part) => x.rank) }

  /**
   The order of results: scores never increase; among equal scores those with both parts come first,
   then smaller dense ranks, then smaller BM25 ranks, then smaller nodes.
   */
  predicate RanksBefore(a: Item, b: Item) {
    && a.fusedScore >= b.fusedScore
    && (a.fusedScore == b.fusedScore ==>
          && (b.dense.Some? && b.bm25.Some? ==> a.dense.Some? && a.bm25.Some?)
          && ((a.dense.Some? && a.bm25.Some? ==> b.dense.Some? && b.bm25.Some?) ==>
                && DenseAtMost(a, b)
                && (DenseAtMost(b, a) ==> Bm25AtMost(a, b) && (Bm25AtMost(b, a) ==> a.nodeId < b.nodeId))))
  }

  lemma BetterRanksBefore(a: Item, b: Item)
    requires a.nodeId != b.nodeId && !Better(b, a)
    ensures RanksBefore(a, b)
  {
  }

  /** n is the smallest of the counts that apply. */
  predicate IsLimit(q: Query, merged: nat, n: nat) {
    && n <= merged && (q.maxUnion > 0 ==> n <= q.maxUnion) && (q.finalK.Some? ==> n <= q.finalK.value)
    && (n == merged || (q.maxUnion > 0 && n == q.maxUnion) || q.finalK == Some(n))
  }

  /** Only the score of a merged item is set. */
  predicate SameBut(scored: Item, merged: Item) {
    && scored.nodeId == merged.nodeId && scored.heaptid == merged.heaptid
    && scored.dense == merged.dense && scored.bm25 == merged.bm25
  }

  /** The merged items with their scores. */
  ghost predicate AreScored(q: Query, merged: seq<Item>, scored: seq<Item>) {
    && |scored| == |merged|
    && forall i | 0 <= i < |scored| :: SameBut(scored[i], merged[i]) && HasItsScore(q, scored[i], merged)
  }

  /** In the order of results, and before all that are left out. */
  ghost predicate RankFirst(items: seq<Item>, scored: seq<Item>) {
    && (forall i, j | 0 <= i < j < |items| :: RanksBefore(items[i], items[j]))
    && (forall x | x in items :: x in scored)
    && forall x, y | x in items && y in scored && y !in items :: RanksBefore(x, y)
  }

  /** The items are the first of all merged ones, with their scores, in the order of results. */
  ghost predicate IsRanking(q: Query, merged: seq<Item>, items: seq<Item>) {
    IsLimit(q, |merged|, |items|) && exists scored :: AreScored(q, merged, scored) && RankFirst(items, scored)
  }

  // The score, apart from the way it is computed

  /** value lies in the given proportion between the least and the greatest value of the items that have one. */
  ghost predicate IsShare(share: real, value: real, items: seq<Item>, has: Item -> bool, of: Item -> real) {
    exists min: real, max: real :: IsRange(Range(min, max), items, has, of) && Proportion(share, value, min, max)
  }

  /** If all values are the same, positive ones count fully. */
  predicate Proportion(share: real, value: real, min: real, max: real) {
    if min < max then Times(share, max - min) == value - min else share == if value > 0.0 then 1.0 else 0.0
  }

  ghost predicate IsDenseShare(q: Query, share: real, x: Item, items: seq<Item>) {
    if x.dense.None? then share == 0.0
    else if q.weighted then IsShare(share, x.dense.value.similarity, items, HAS_DENSE, SIMILARITY)
    else Times(share, (q.rrfK + x.dense.value.rank) as real) == 1.0
  }

  ghost predicate IsBm25Share(q: Query, share: real, x: Item, items: seq<Item>) {
    if x.bm25.None? then share == 0.0
    else if q.weighted then IsShare(share, x.bm25.value.score, items, HAS_BM25, BM25_SCORE)
    else Times(share, (q.rrfK + x.bm25.value.rank) as real) == 1.0
  }

  /** The weight of a list acts on its own part. */
  predicate AreWeights(q: Query, dense: real, bm25: real) {
    if !q.weighted then dense == q.denseWeight && bm25 == q.bm25Weight
    else dense + bm25 == 1.0 && dense == if q.alpha.Some? then q.alpha.value else 0.5
  }

  ghost predicate HasItsScore(q: Query, x: Item, items: seq<Item>) {
    exists dense, bm25, u, v ::
      && AreWeights(q, dense, bm25) && IsDenseShare(q, u, x, items) && IsBm25Share(q, v, x, items)
      && x.fusedScore == Times(dense, u) + Times(bm25, v)
  }

  /** By rank, a smaller rank in one list scores higher, with nothing else changed. */
  lemma SmallerRankScoresHigher(q: Query, x: Item, y: Item, items: seq<Item>)
    requires !q.weighted && HasItsScore(q, x, items) && HasItsScore(q, y, items)
    requires
      || (q.denseWeight > 0.0 && x.bm25 == y.bm25 && x.dense.Some? && y.dense.Some?
          && x.dense.value.rank < y.dense.value.rank)
      || (q.bm25Weight > 0.0 && x.dense == y.dense && x.bm25.Some? && y.bm25.Some?
          && x.bm25.value.rank < y.bm25.value.rank)
    ensures x.fusedScore > y.fusedScore
  {
    var k: real, l: real, u: real, v: real :|
      AreWeights(q, k, l) && IsDenseShare(q, u, x, items) && IsBm25Share(q, v, x, items)
      && x.fusedScore == Times(k, u) + Times(l, v);
    var k': real, l': real, u': real, v': real :|
      AreWeights(q, k', l') && IsDenseShare(q, u', y, items) && IsBm25Share(q, v', y, items)
      && y.fusedScore == Times(k', u') + Times(l', v');
    DenseShares(q, x, y, items, u, u');
    Bm25Shares(q, x, y, items, v, v');
    Heavier(k, u, u');
    Heavier(l, v, v');
  }

  lemma DenseShares(q: Query, x: Item, y: Item, items: seq<Item>, u: real, u': real)
    requires !q.weighted && IsDenseShare(q, u, x, items) && IsDenseShare(q, u', y, items)
    ensures x.dense == y.dense ==> u == u'
    ensures x.dense.Some? && y.dense.Some? && x.dense.value.rank < y.dense.value.rank ==> u > u'
  {
    if x.dense.Some? && y.dense.Some? {
      Reciprocals(u, (q.rrfK + x.dense.value.rank) as real, u', (q.rrfK + y.dense.value.rank) as real);
    }
  }

  lemma Bm25Shares(q: Query, x: Item, y: Item, items: seq<Item>, v: real, v': real)
    requires !q.weighted && IsBm25Share(q, v, x, items) && IsBm25Share(q, v', y, items)
    ensures x.bm25 == y.bm25 ==> v == v'
    ensures x.bm25.Some? && y.bm25.Some? && x.bm25.value.rank < y.bm25.value.rank ==> v > v'
  {
    if x.bm25.Some? && y.bm25.Some? {
      Reciprocals(v, (q.rrfK + x.bm25.value.rank) as real, v', (q.rrfK + y.bm25.value.rank) as real);
    }
  }

  lemma Reciprocals(u: real, n: real, u': real, n': real)
    requires 0.0 < n && 0.0 < n' && Times(u, n) == 1.0 && Times(u', n') == 1.0
    ensures (n < n' ==> u > u') && (n == n' ==> u == u')
  {
    assert u == 1.0 / n && u' == 1.0 / n';
  }

  lemma Heavier(w: real, a: real, b: real)
    ensures w > 0.0 && a > b ==> Times(w, a) > Times(w, b)
  {
  }

  /**
   By weight, an item with one part only scores that part's weight if its value is the greatest of
   different ones, and nothing if it is the least.
   */
  lemma ExtremesOfWeighted(q: Query, x: Item, items: seq<Item>)
    requires q.weighted && HasItsScore(q, x, items)
    ensures x.bm25.None? && x.dense.Some? && IsMost(x.dense.value.similarity, items, HAS_DENSE, SIMILARITY) ==>
              x.fusedScore == Alpha(q)
    ensures x.bm25.None? && x.dense.Some? && IsLeast(x.dense.value.similarity, items, HAS_DENSE, SIMILARITY) ==>
              x.fusedScore == 0.0
    ensures x.dense.None? && x.bm25.Some? && IsMost(x.bm25.value.score, items, HAS_BM25, BM25_SCORE) ==>
              x.fusedScore == 1.0 - Alpha(q)
    ensures x.dense.None? && x.bm25.Some? && IsLeast(x.bm25.value.score, items, HAS_BM25, BM25_SCORE) ==>
              x.fusedScore == 0.0
  {
    var k: real, l: real, u: real, v: real :|
      AreWeights(q, k, l) && IsDenseShare(q, u, x, items) && IsBm25Share(q, v, x, items)
      && x.fusedScore == Times(k, u) + Times(l, v);
    if x.dense.Some? { ShareOfExtremes(u, x.dense.value.similarity, items, HAS_DENSE, SIMILARITY); }
    if x.bm25.Some? { ShareOfExtremes(v, x.bm25.value.score, items, HAS_BM25, BM25_SCORE); }
    UnitAndZero(k);
    UnitAndZero(l);
  }

  /** No item has a greater value, and some item has a smaller one. */
  ghost predicate IsMost(value: real, items: seq<Item>, has: Item -> bool, of: Item -> real) {
    && (exists y :: y in items && has(y) && of(y) == value) && (forall y | y in items && has(y) :: of(y) <= value)
    && exists y :: y in items && has(y) && of(y) < value
  }

  ghost predicate IsLeast(value: real, items: seq<Item>, has: Item -> bool, of: Item -> real) {
    && (exists y :: y in items && has(y) && of(y) == value) && (forall y | y in items && has(y) :: value <= of(y))
    && exists y :: y in items && has(y) && value < of(y)
  }

  lemma ShareOfExtremes(share: real, value: real, items: seq<Item>, has: Item -> bool, of: Item -> real)
    requires IsShare(share, value, items, has, of)
    ensures (IsMost(value, items, has, of) ==> share == 1.0) && (IsLeast(value, items, has, of) ==> share == 0.0)
  {
    var min: real, max: real :| IsRange(Range(min, max), items, has, of) && Proportion(share, value, min, max);
    if IsMost(value, items, has, of) {
      assert value == max && min < max;
      WholeShare(share, max - min);
    }
    if IsLeast(value, items, has, of) {
      assert value == min && min < max;
      NoShare(share, max - min);
    }
  }

  lemma WholeShare(share: real, span: real)
    requires span > 0.0 && Times(share, span) == span
    ensures share == 1.0
  {
    assert (share - 1.0) * span == 0.0;
  }

  lemma NoShare(share: real, span: real)
    requires span > 0.0 && Times(share, span) == 0.0
    ensures share == 0.0
  {
    assert share * span == 0.0;
  }

  lemma UnitAndZero(w: real)
    ensures Times(w, 1.0) == w && Times(w, 0.0) == 0.0
  {
  }

  // The computed scores and the sorted prefix are of that kind

  lemma SpanProportion(value: real, min: real, max: real)
    requires min <= max
    ensures Proportion(Normalize(value, min, max), value, min, max)
  {
    if min < max { assert (value - min) / (max - min) * (max - min) == value - min; }
  }

  lemma ShareFromRange(r: Range, items: seq<Item>, x: Item, has: Item -> bool, of: Item -> real)
    requires IsRange(r, items, has, of) && x in items && has(x)
    ensures IsShare(NormalizeIn(of(x), r), of(x), items, has, of)
  {
    assert r == Range(r.min, r.max);
    SpanProportion(of(x), r.min, r.max);
  }

  lemma RankShare(k: nat, rank: Rank)
    ensures Times(1.0 / (k + rank) as real, (k + rank) as real) == 1.0
  {
  }

  lemma DenseShareIsShare(q: Query, x: Item, merged: seq<Item>)
    requires x in merged
    ensures IsDenseShare(q, DenseShare(q, x, DenseRange(merged)), x, merged)
  {
    if x.dense.Some? {
      RangesAreRanges(merged);
      if q.weighted {
        ShareFromRange(DenseRange(merged), merged, x, HAS_DENSE, SIMILARITY);
      } else {
        RankShare(q.rrfK, x.dense.value.rank);
      }
    }
  }

  lemma Bm25ShareIsShare(q: Query, x: Item, merged: seq<Item>)
    requires x in merged
    ensures IsBm25Share(q, Bm25Share(q, x, Bm25Range(merged)), x, merged)
  {
    if x.bm25.Some? {
      RangesAreRanges(merged);
      if q.weighted {
        ShareFromRange(Bm25Range(merged), merged, x, HAS_BM25, BM25_SCORE);
      } else {
        RankShare(q.rrfK, x.bm25.value.rank);
      }
    }
  }

  lemma ScoreBy(q: Query, x: Item, items: seq<Item>, dense: real, bm25: real, u: real, v: real)
    requires AreWeights(q, dense, bm25) && IsDenseShare(q, u, x, items) && IsBm25Share(q, v, x, items)
    requires x.fusedScore == Times(dense, u) + Times(bm25, v)
    ensures HasItsScore(q, x, items)
  {
  }

  lemma ScoresAreShares(q: Query, merged: seq<Item>, i: nat)
    requires i < |merged|
    ensures HasItsScore(q, Scored(q, merged)[i], merged)
  {
    var x, y := merged[i], Scored(q, merged)[i];
    var u, v := DenseShare(q, x, DenseRange(merged)), Bm25Share(q, x, Bm25Range(merged));
    DenseShareIsShare(q, x, merged);
    Bm25ShareIsShare(q, x, merged);
    assert IsDenseShare(q, u, y, merged) && IsBm25Share(q, v, y, merged);
    if q.weighted {
      ScoreBy(q, y, merged, Alpha(q), 1.0 - Alpha(q), u, v);
    } else {
      ScoreBy(q, y, merged, q.denseWeight, q.bm25Weight, u, v);
    }
  }

  lemma PrefixRanks(q: Query, merged: seq<Item>)
    requires DistinctNodes(merged)
    ensures var s := Sorted(Scored(q, merged), Better);
            && SameMembers(s, Scored(q, merged)) && |s| == |merged|
            && forall i, j | 0 <= i < j < |s| :: RanksBefore(s[i], s[j])
  {
    var scored := Scored(q, merged);
    var s := Sorted(scored, Better);
    ScoreCompareIsAnOrder();
    DistinctNodesNeverTie(scored);
    SortedIsAscending(scored, Better);
    SortedKeepsMembers(scored, Better);
    forall i, j | 0 <= i < j < |s|
      ensures RanksBefore(s[i], s[j])
    {
      assert s[i] in scored && s[j] in scored && s[i] != s[j] && !Better(s[j], s[i]);
      var k :| 0 <= k < |scored| && scored[k] == s[i];
      var l :| 0 <= l < |scored| && scored[l] == s[j];
      BetterRanksBefore(s[i], s[j]);
    }
  }

  lemma ScoredAreScored(q: Query, merged: seq<Item>)
    ensures AreScored(q, merged, Scored(q, merged))
  {
    forall i | 0 <= i < |merged|
      ensures HasItsScore(q, Scored(q, merged)[i], merged)
    {
      ScoresAreShares(q, merged, i);
    }
  }

  lemma PrefixRanksFirst(s: seq<Item>, scored: seq<Item>, n: nat)
    requires SameMembers(s, scored) && n <= |s|
    requires forall i, j | 0 <= i < j < |s| :: RanksBefore(s[i], s[j])
    ensures RankFirst(s[..n], scored)
  {
    var items := s[..n];
    forall x, y | x in items && y in scored && y !in items
      ensures RanksBefore(x, y)
    {
      var i :| 0 <= i < n && items[i] == x;
      assert y in s;
      var j :| 0 <= j < |s| && s[j] == y;
      assert forall k | 0 <= k < n :: items[k] == s[k] && items[k] != y;
    }
    assert forall x | x in items :: x in s;
  }

  /** The outcome of a merge that needs no rescoring is the ranking of its items. */
  lemma OutcomeIsRanking(q: Query, merged: seq<Item>)
    requires DistinctNodes(merged) && OutcomeOf(q, merged).Results?
    ensures IsRanking(q, merged, OutcomeOf(q, merged).items)
  {
    ScoredAreScored(q, merged);
    PrefixRanks(q, merged);
    PrefixRanksFirst(Sorted(Scored(q, merged), Better), Scored(q, merged), FinalTarget(q, |merged|));
    TargetIsLimit(q, |merged|);
  }

  lemma TargetIsLimit(q: Query, n: nat)
    ensures IsLimit(q, n, FinalTarget(q, n))
  {
  }

  method CheckBm25OnlyExactRescore(q: Query, merged: seq<Item>) returns (fails: bool)
    ensures fails <==> NeedsRescore(q, merged)
  {
    if !q.exactRescore { return false; }
    for i := 0 to |merged|
      invariant forall k | 0 <= k < i :: !(merged[k].bm25.Some? && merged[k].dense.None?)
    {
      if merged[i].bm25.Some? && merged[i].dense.None? { return true; }
    }
    return false;
  }

  method FuseByHash(d: seq<Dense>, b: seq<Bm25>, q: Query) returns (r: Outcome)
    requires DistinctInputs(d, b) && (|d| + |b|) * 2 <= UINT32 / 2
    ensures exists merged :: IsMerge(d, b, q.requireBm25, merged) && r == OutcomeOf(q, merged)
  {
    var merged := HashMerge(d, b, q.requireBm25);
    var fails := CheckBm25OnlyExactRescore(q, merged);
    if fails { return Bm25OnlyRescoreUnsupported; }
    var scored := ScoreResults(q, merged);
    var target := FinalTarget(q, |scored|);
    var top;
    if target < |scored| {
      top := SelectTopN(scored, target);
    } else {
      top := Sort(scored, Better);
    }
    r := Results(top);
  }

  method FuseBySort(d: seq<Dense>, b: seq<Bm25>, q: Query) returns (r: Outcome)
    requires DistinctInputs(d, b)
    ensures exists merged :: IsMerge(d, b, q.requireBm25, merged) && r == OutcomeOf(q, merged)
  {
    var merged := SortMerge(d, b, q.requireBm25);
    var fails := CheckBm25OnlyExactRescore(q, merged);
    if fails { return Bm25OnlyRescoreUnsupported; }
    var scored := ScoreResults(q, merged);
    var sorted := Sort(scored, Better);
    r := Results(sorted[..FinalTarget(q, |merged|)]);
  }

  /** The threshold that chooses between the two has no influence on the result. */
  method CollectScanResults(d: seq<Dense>, b: seq<Bm25>, q: Query, hashThreshold: int) returns (r: Outcome)
    requires DistinctInputs(d, b)
    requires hashThreshold >= 0 && |d| + |b| >= hashThreshold ==> (|d| + |b|) * 2 <= UINT32 / 2
    ensures exists merged :: IsMerge(d, b, q.requireBm25, merged)
    ensures forall merged | IsMerge(d, b, q.requireBm25, merged) :: r == OutcomeOf(q, merged)
    ensures r.Results? ==> forall merged | IsMerge(d, b, q.requireBm25, merged) :: IsRanking(q, merged, r.items)
    ensures r.Bm25OnlyRescoreUnsupported? <==> q.exactRescore && HasBm25Only(d, b)
  {
    if hashThreshold >= 0 && |d| + |b| >= hashThreshold {
      r := FuseByHash(d, b, q);
    } else {
      r := FuseBySort(d, b, q);
    }
    forall merged | IsMerge(d, b, q.requireBm25, merged) ensures r == OutcomeOf(q, merged) {
      var own :| IsMerge(d, b, q.requireBm25, own) && r == OutcomeOf(q, own);
      MergesAgree(d, b, q, own, merged);
    }
    ghost var own :| IsMerge(d, b, q.requireBm25, own);
    RescoreNeeded(d, b, q, own);
    if r.Results? {
      forall merged | IsMerge(d, b, q.requireBm25, merged) ensures IsRanking(q, merged, r.items) {
        OutcomeIsRanking(q, merged);
      }
    }
  }

  /** Some BM25 match is outside of the dense candidates. */
  ghost predicate HasBm25Only(d: seq<Dense>, b: seq<Bm25>) {
    exists y :: y in b && forall x | x in d :: x.nodeId != y.nodeId
  }

  /** The error is raised exactly for such a match, if exact rescoring is asked for. */
  lemma RescoreNeeded(d: seq<Dense>, b: seq<Bm25>, q: Query, merged: seq<Item>)
    requires IsMerge(d, b, q.requireBm25, merged)
    ensures NeedsRescore(q, merged) <==> q.exactRescore && HasBm25Only(d, b)
  {
    if y :| y in b && forall x | x in d :: x.nodeId != y.nodeId {
      var z := Bm25Of(b, y.nodeId).value;
      var item := Item(y.nodeId, z.heaptid, None, Some(z.part), 0.0);
      assert DenseOf(d, y.nodeId).None? && IsItemOf(d, b, item);
    }
    if x :| x in merged && x.bm25.Some? && x.dense.None? {
      assert IsItemOf(d, b, x);
      var y := Bm25Of(b, x.nodeId).value;
      assert y in b && forall z | z in d :: z.nodeId != y.nodeId;
    }
  }
}
