/**
 The neighbour array of one element at one layer, and HnswUpdateConnection, which adds a
 neighbour and shrinks a full array (src/hnswutils.c:3115-3165).
 */
module NeighborArrays {
  import O = Orders
  import opened NeighborSelection

  ghost function KeyList(items: seq<HnswCandidate>): (k: seq<Key>)
    ensures |k| == |items| && forall i | 0 <= i < |items| :: k[i] == items[i].AsKey()
  {
    if items == [] then [] else KeyList(items[..|items| - 1]) + [items[|items| - 1].AsKey()]
  }

  ghost function KeySet(items: seq<HnswCandidate>): set<Key> {
    set c | c in items :: c.AsKey()
  }

  ghost predicate HasListing(items: seq<HnswCandidate>) {
    exists k :: Listing(k, KeySet(items))
  }

  /** Item i has the flag that a selection among k computes for position j, if it is there. */
  ghost predicate ExactAt(f: Distance, items: seq<HnswCandidate>, k: seq<Key>, i: nat, j: nat)
    requires i < |items| && j < |k|
  {
    k[j] == items[i].AsKey() ==> items[i].closer == Flag(f, k, j)
  }

  ghost predicate ExactOn(f: Distance, items: seq<HnswCandidate>, k: seq<Key>) {
    forall i, j {:trigger ExactAt(f, items, k, i, j)} | 0 <= i < |items| && 0 <= j < |k| :: ExactAt(f, items, k, i, j)
  }

  /** Every item's flag is the one a selection among all items, nearest first, computes. */
  ghost predicate FlagsExact(f: Distance, items: seq<HnswCandidate>)
    requires HasListing(items)
  {
    ExactOn(f, items, Listed(KeySet(items)))
  }

  function Places(n: nat): (s: seq<nat>)
    ensures |s| == n && Within(s, n) && forall i | 0 <= i < n :: s[i] == i
  {
    if n == 0 then [] else Places(n - 1) + [n - 1]
  }

  /** Candidates with distinct elements have an ascending listing, and list_sort finds it. */
  lemma SortLists(p: seq<HnswCandidate>)
    requires DistinctElements(p)
    ensures Within(Sort(p, Places(|p|)), |p|) && HasListing(p)
    ensures Pick(p, Sort(p, Places(|p|))) == Listed(KeySet(p))
  {
    SortedMembers(p);
    var k := Pick(p, Sort(p, Places(|p|)));
    SortSorted(p, Places(|p|));
    ListedIs(k, KeySet(p));
  }

  lemma SortedMembers(p: seq<HnswCandidate>)
    ensures Within(Sort(p, Places(|p|)), |p|)
    ensures O.Members(Pick(p, Sort(p, Places(|p|)))) == KeySet(p)
  {
    var s := Sort(p, Places(|p|));
    var k := Pick(p, s);
    forall x | x in KeySet(p)
      ensures x in k
    {
      var i :| 0 <= i < |p| && p[i].AsKey() == x;
      var j := PlaceOf(s, |p|, i);
      assert k[j] == x;
    }
    forall x | x in k
      ensures x in KeySet(p)
    {
      var j :| 0 <= j < |k| && k[j] == x;
      assert p[s[j]] in p;
    }
  }

  lemma PlaceOf(s: seq<nat>, n: nat, x: nat) returns (j: nat)
    requires multiset(s) == multiset(Places(n)) && x < n
    ensures j < |s| && s[j] == x
  {
    PermutationMembers(s, Places(n));
    assert Places(n)[x] in s;
    j :| 0 <= j < |s| && s[j] == x;
  }

  // ---------------------------------------------------------------------------------------
  // Specification of an update: no flags, no cache
  // ---------------------------------------------------------------------------------------

  function Replaced(s: seq<Key>, x: Key, y: Key): (r: seq<Key>)
    ensures |r| == |s|
    ensures forall i | 0 <= i < |s| :: r[i] == if s[i] == x then y else s[i]
  {
    if s == [] then [] else [if s[0] == x then y else s[0]] + Replaced(s[1..], x, y)
  }

  /** The neighbours after one more is offered: the pruned one of all lm + 1 gives up its place. */
  ghost function Connected(f: Distance, lm: nat, ks: seq<Key>, newKey: Key): seq<Key> {
    if |ks| < lm then ks + [newKey]
    else if (exists k :: Listing(k, O.Members(ks) + {newKey})) && Listed(O.Members(ks) + {newKey}) != []
    then AfterPruning(ks, newKey, Pruned(f, Listed(O.Members(ks) + {newKey}), lm))
    else ks
  }

  /** A run of updates. */
  ghost function ConnectedAll(f: Distance, lm: nat, ks: seq<Key>, newKeys: seq<Key>): seq<Key> {
    if newKeys == [] then ks
    else Connected(f, lm, ConnectedAll(f, lm, ks, newKeys[..|newKeys| - 1]), newKeys[|newKeys| - 1])
  }

  function AfterPruning(ks: seq<Key>, newKey: Key, pruned: Key): seq<Key> {
    if pruned == newKey then ks else Replaced(ks, pruned, newKey)
  }

  /**
   A neighbour is appended while there is room. In a full array the furthest of all that is not closer makes way,
   or the furthest of all when every other one is closer; the rest keep their places.
   */
  lemma ConnectedIs(f: Distance, lm: nat, ks: seq<Key>, newKey: Key) returns (x: nat, q: nat)
    requires |ks| <= lm && O.NoRepeats(ks + [newKey]) && exists k :: Listing(k, O.Members(ks) + {newKey})
    ensures |ks| < lm ==> Connected(f, lm, ks, newKey) == ks + [newKey]
    ensures |ks| == lm ==>
              var s := Listed(O.Members(ks) + {newKey});
              && x <= lm && Connected(f, lm, ks, newKey) == (if x == lm then ks else ks[x := newKey])
              && q < |s| == lm + 1 && s[q] == (ks + [newKey])[x]
              && ((!Flag(f, s, q) && forall j | q < j < |s| :: Flag(f, s, j)) ||
                  (q == lm && forall j | 0 <= j < lm :: Flag(f, s, j)))
  {
    x, q := 0, 0;
    if |ks| == lm {
      var s, all := Listed(O.Members(ks) + {newKey}), ks + [newKey];
      assert O.Members(all) == O.Members(ks) + {newKey};
      O.SizeOfMembers(s);
      O.SizeOfMembers(all);
      q := PrunedIsFurthestNonCloser(f, s, lm);
      assert s[q] in O.Members(s);
      x :| 0 <= x < |all| && all[x] == s[q];
      OnlyOneReplaced(ks, newKey, x);
    }
  }

  lemma OnlyOneReplaced(ks: seq<Key>, newKey: Key, x: nat)
    requires O.NoRepeats(ks + [newKey]) && x <= |ks|
    ensures AfterPruning(ks, newKey, (ks + [newKey])[x]) == if x == |ks| then ks else ks[x := newKey]
  {
    var all := ks + [newKey];
    var r := Replaced(ks, all[x], newKey);
    forall i | 0 <= i < |ks|
      ensures i != x ==> r[i] == ks[i]
    {
      assert all[i] == ks[i];
    }
    if x < |ks| { assert all[x] != all[|ks|]; }
  }

  // ---------------------------------------------------------------------------------------
  // What one shrink does to the flags
  // ---------------------------------------------------------------------------------------

  lemma KeyListMembers(items: seq<HnswCandidate>)
    ensures O.Members(KeyList(items)) == KeySet(items)
  {
    forall x
      ensures x in O.Members(KeyList(items)) <==> x in KeySet(items)
    {
      if x in KeySet(items) {
        var i :| 0 <= i < |items| && items[i].AsKey() == x;
        assert KeyList(items)[i] == x;
      }
    }
  }

  lemma SamePosition(k: seq<Key>, i: nat, j: nat)
    requires Ascending(k) && i < |k| && j < |k| && k[i] == k[j]
    ensures i == j
  {
    if i < j { AscendingAt(k, i, j); }
    if j < i { AscendingAt(k, j, i); }
  }

  /** The listing of a full array is the listing of the array and the newcomer without the newcomer. */
  lemma ListingWithoutNew(items: seq<HnswCandidate>, c: HnswCandidate, s: seq<nat>, k: seq<Key>, n: nat)
    requires DistinctElements(items + [c])
    requires s == Sort(items + [c], Places(|items| + 1)) && Within(s, |items| + 1) && k == Pick(items + [c], s)
    requires n < |s| && s[n] == |items|
    ensures HasListing(items) && Without(k, n) == Listed(KeySet(items))
  {
    var pool := items + [c];
    SortLists(pool);
    AscendingWithout(k, n);
    NewKeyIsNew(items, c);
    assert O.Members(k) == KeySet(items) + {c.AsKey()};
    ListedIs(Without(k, n), KeySet(items));
  }

  lemma NewKeyIsNew(items: seq<HnswCandidate>, c: HnswCandidate)
    requires DistinctElements(items + [c])
    ensures c.AsKey() !in KeySet(items) && KeySet(items + [c]) == KeySet(items) + {c.AsKey()}
  {
    if x :| x in items && x.AsKey() == c.AsKey() {
      var i :| 0 <= i < |items| && items[i] == x;
      assert (items + [c])[i].element == (items + [c])[|items|].element;
    }
  }

  /** Exact flags of a full array are usable when a newcomer is added. */
  lemma CacheUsableForShrink(f: Distance, items: seq<HnswCandidate>, c: HnswCandidate, s: seq<nat>, k: seq<Key>)
    requires DistinctElements(items + [c]) && HasListing(items) && FlagsExact(f, items)
    requires s == Sort(items + [c], Places(|items| + 1)) && Within(s, |items| + 1) && k == Pick(items + [c], s)
    ensures CacheUsable(f, items + [c], s, k, NewIndex(s, |items|))
  {
    var n := NewIndex(s, |items|);
    var j := PlaceOf(s, |items| + 1, |items|);
    ListingWithoutNew(items, c, s, k, n);
    PermutationNoRepeats(Places(|items| + 1), s);
    forall i | 0 <= i < |s| && i != n
      ensures CachedFlag(f, items + [c], s, k, n, i)
    {
      CachedFlagAt(f, items, c, s, k, n, i);
    }
  }

  lemma CachedFlagAt(f: Distance, items: seq<HnswCandidate>, c: HnswCandidate, s: seq<nat>, k: seq<Key>, n: nat, i: nat)
    requires HasListing(items) && FlagsExact(f, items) && Within(s, |items| + 1) && k == Pick(items + [c], s)
    requires n < |s| && s[n] == |items| && Without(k, n) == Listed(KeySet(items))
    requires i < |s| && i != n && s[i] != s[n]
    ensures CachedFlag(f, items + [c], s, k, n, i)
  {
    assert Without(k, n)[Shift(i, n)] == k[i] == items[s[i]].AsKey();
    assert ExactAt(f, items, Without(k, n), s[i], Shift(i, n));
  }

  /** The array after the candidate at place x of pool has been pruned. */
  function Survivors(pool: seq<HnswCandidate>, x: nat): (r: seq<HnswCandidate>)
    requires x < |pool|
    ensures |r| == |pool| - 1
    ensures forall i | 0 <= i < |r| :: r[i] == pool[OldPlace(|pool| - 1, x, i)]
  {
    var n := |pool| - 1;
    if x == n then pool[..n] else pool[..n][x := pool[n]]
  }

  function OldPlace(n: nat, x: nat, i: nat): nat {
    if i == x then n else i
  }

  lemma SurvivorKeys(pool: seq<HnswCandidate>, x: nat)
    requires DistinctElements(pool) && x < |pool|
    ensures KeySet(Survivors(pool, x)) == KeySet(pool) - {pool[x].AsKey()}
    ensures DistinctElements(Survivors(pool, x))
  {
    var n, r := |pool| - 1, Survivors(pool, x);
    forall y | y in KeySet(pool) - {pool[x].AsKey()}
      ensures y in KeySet(r)
    {
      var i :| 0 <= i < |pool| && pool[i].AsKey() == y;
      assert r[if i == n then x else i] == pool[i];
    }
    forall y | y in KeySet(r)
      ensures y in KeySet(pool) - {pool[x].AsKey()}
    {
      var i :| 0 <= i < |r| && r[i].AsKey() == y;
      assert OldPlace(n, x, i) != x;
    }
  }

  lemma SurvivorPlace(k: seq<Key>, q: nat, j: nat, y: nat)
    requires q < |k| && j < |k| && j != q && y < |k| - 1 && Ascending(Without(k, q)) && Without(k, q)[y] == k[j]
    ensures y == Shift(j, q)
  {
    assert Without(k, q)[Shift(j, q)] == k[j];
    SamePosition(Without(k, q), y, Shift(j, q));
  }

  /** One survivor's flag is exact for the survivors. */
  lemma SurvivorFlag(f: Distance, pool: seq<HnswCandidate>, s: seq<nat>, k: seq<Key>, q: nat, j: nat, stop: nat)
    requires Within(s, |pool|) && O.NoRepeats(s) && k == Pick(pool, s)
    requires q < |s| && j < |s| && j != q && stop <= |s|
    requires stop == |s| || (stop == q == |s| - 1)
    requires q == |k| - 1 || !Flag(f, k, q)
    ensures Flagged(f, pool, s, k, stop)[s[j]].closer == Flag(f, Without(k, q), Shift(j, q))
  {
    FlaggedIsExact(f, pool, s, k, stop, j);
    DroppingKeepsFlags(f, k, q, j);
  }

  /** After the pruned candidate is gone, all flags are exact for the survivors. */
  lemma SurvivorsExact(f: Distance, pool: seq<HnswCandidate>, after: seq<HnswCandidate>, s: seq<nat>, k: seq<Key>,
                       q: nat, stop: nat)
    requires DistinctElements(pool) && s == Sort(pool, Places(|pool|)) && Within(s, |pool|) && k == Pick(pool, s)
    requires q < |s| && stop <= |s| && (stop == |s| || (stop == q == |s| - 1))
    requires q == |k| - 1 || !Flag(f, k, q)
    requires after == Flagged(f, pool, s, k, stop)
    ensures DistinctElements(Survivors(after, s[q])) && HasListing(Survivors(after, s[q]))
    ensures KeySet(Survivors(after, s[q])) == KeySet(pool) - {k[q]}
    ensures FlagsExact(f, Survivors(after, s[q]))
  {
    SurvivorsListing(f, pool, after, s, k, q, stop);
    PermutationNoRepeats(Places(|pool|), s);
    SurvivorsOn(f, pool, after, s, k, q, stop);
  }

  lemma SurvivorsOn(f: Distance, pool: seq<HnswCandidate>, after: seq<HnswCandidate>, s: seq<nat>, k: seq<Key>, q: nat,
                    stop: nat)
    requires Within(s, |pool|) && O.NoRepeats(s) && multiset(s) == multiset(Places(|pool|)) && k == Pick(pool, s)
    requires q < |s| && Ascending(Without(k, q))
    requires stop <= |s| && (stop == |s| || (stop == q == |s| - 1))
    requires q == |k| - 1 || !Flag(f, k, q)
    requires after == Flagged(f, pool, s, k, stop)
    ensures ExactOn(f, Survivors(after, s[q]), Without(k, q))
  {
    var r := Survivors(after, s[q]);
    forall i, y | 0 <= i < |r| && 0 <= y < |Without(k, q)|
      ensures ExactAt(f, r, Without(k, q), i, y)
    {
      SurvivorAt(after, s[q], i);
      SurvivorItem(f, pool, s, k, q, stop, OldPlace(|pool| - 1, s[q], i), y);
    }
  }

  lemma SurvivorAt(pool: seq<HnswCandidate>, x: nat, i: nat)
    requires x < |pool| && i < |pool| - 1
    ensures x != OldPlace(|pool| - 1, x, i) < |pool| && Survivors(pool, x)[i] == pool[OldPlace(|pool| - 1, x, i)]
  {
  }

  lemma SurvivorItem(f: Distance, pool: seq<HnswCandidate>, s: seq<nat>, k: seq<Key>, q: nat, stop: nat, x: nat, y: nat)
    requires Within(s, |pool|) && O.NoRepeats(s) && multiset(s) == multiset(Places(|pool|)) && k == Pick(pool, s)
    requires q < |s| && Ascending(Without(k, q))
    requires stop <= |s| && (stop == |s| || (stop == q == |s| - 1))
    requires q == |k| - 1 || !Flag(f, k, q)
    requires x < |pool| && x != s[q] && y < |Without(k, q)|
    ensures Flagged(f, pool, s, k, stop)[x].AsKey() == Without(k, q)[y] ==>
              Flagged(f, pool, s, k, stop)[x].closer == Flag(f, Without(k, q), y)
  {
    FlaggedKeeps(f, pool, s, k, stop, x);
    if pool[x].AsKey() == Without(k, q)[y] {
      var j := PlaceOf(s, |pool|, x);
      SurvivorPlace(k, q, j, y);
      SurvivorFlag(f, pool, s, k, q, j, stop);
    }
  }

  lemma SurvivorsListing(f: Distance, pool: seq<HnswCandidate>, after: seq<HnswCandidate>, s: seq<nat>, k: seq<Key>,
                         q: nat, stop: nat)
    requires DistinctElements(pool) && s == Sort(pool, Places(|pool|)) && Within(s, |pool|) && k == Pick(pool, s)
    requires q < |s| && stop <= |s|
    requires after == Flagged(f, pool, s, k, stop)
    ensures DistinctElements(Survivors(after, s[q])) && HasListing(Survivors(after, s[q]))
    ensures KeySet(Survivors(after, s[q])) == KeySet(pool) - {k[q]}
    ensures Without(k, q) == Listed(KeySet(Survivors(after, s[q])))
    ensures Ascending(k) && Ascending(Without(k, q))
  {
    var r := Survivors(after, s[q]);
    SortLists(pool);
    FlaggedKeepsKeys(f, pool, s, k, stop);
    FlaggedKeeps(f, pool, s, k, stop, s[q]);
    SurvivorKeys(after, s[q]);
    AscendingWithout(k, q);
    ListedIs(Without(k, q), KeySet(r));
  }

  lemma FlaggedKeepsKeys(f: Distance, p: seq<HnswCandidate>, s: seq<nat>, k: seq<Key>, stop: nat)
    requires Within(s, |p|) && stop <= |s| == |k| && DistinctElements(p)
    ensures DistinctElements(Flagged(f, p, s, k, stop)) && KeySet(Flagged(f, p, s, k, stop)) == KeySet(p)
  {
    var after := Flagged(f, p, s, k, stop);
    forall x | 0 <= x < |p|
      ensures after[x].AsKey() == p[x].AsKey() && after[x].element == p[x].element
    {
      FlaggedKeeps(f, p, s, k, stop, x);
      assert after[x].AsKey().element == p[x].AsKey().element;
    }
    SameKeySet(after, p);
  }

  lemma SameKeySet(a: seq<HnswCandidate>, b: seq<HnswCandidate>)
    requires |a| == |b| && forall x | 0 <= x < |a| :: a[x].AsKey() == b[x].AsKey()
    ensures KeySet(a) == KeySet(b)
  {
  }

  // ---------------------------------------------------------------------------------------
  // HnswUpdateConnection
  // ---------------------------------------------------------------------------------------

  /** The loop that looks for the pruned element among the old neighbours. */
  method FindPruned(pool: array<HnswCandidate>, element: nat, ghost x: nat) returns (idx: int)
    requires x < pool.Length && pool[x].element == element && DistinctElements(pool[..])
    ensures idx == if x == pool.Length - 1 then -1 else x
  {
    for i := 0 to pool.Length - 1
      invariant forall j | 0 <= j < i :: pool[j].element != element
    {
      if pool[i].element == element {
        assert pool[..][i].element == pool[..][x].element;
        return i;
      }
    }
    return -1;
  }

  lemma ShrunkKeys(before: seq<HnswCandidate>, after: seq<HnswCandidate>, x: nat)
    requires |before| == |after| && forall i | 0 <= i < |before| :: after[i].AsKey() == before[i].AsKey()
    requires DistinctElements(before) && x < |before|
    ensures KeyList(Survivors(after, x)) == KeysAfter(before, x)
    ensures (before[x].AsKey() == before[|before| - 1].AsKey()) == (x == |before| - 1)
  {
    var n := |before| - 1;
    assert forall i | 0 <= i <= n && i != x :: before[i].element != before[x].element;
    var r := KeyList(Survivors(after, x));
    forall i | 0 <= i < n
      ensures r[i] == KeysAfter(before, x)[i]
    {
      assert r[i] == before[OldPlace(n, x, i)].AsKey();
    }
  }

  /** The candidates after a selection among all of p, nearest first. */
  ghost function AfterSelection(f: Distance, p: seq<HnswCandidate>, lm: nat): (q: seq<HnswCandidate>)
    ensures |q| == |p|
  {
    var s := Sort(p, Places(|p|));
    var k := Pick(p, s);
    Flagged(f, p, s, k, StopAt(f, k, lm, 0))
  }

  /** What a shrink leaves: the place q of the pruned candidate, exact flags, and the keys. */
  lemma ShrinkOutcome(f: Distance, p: seq<HnswCandidate>, lm: nat) returns (x: nat)
    requires DistinctElements(p) && |p| == lm + 1
    ensures HasListing(p) && Listed(KeySet(p)) != []
    ensures x <= lm && AfterSelection(f, p, lm)[x].AsKey() == p[x].AsKey() == Pruned(f, Listed(KeySet(p)), lm)
    ensures DistinctElements(AfterSelection(f, p, lm))
    ensures AfterSelection(f, p, lm)[lm].AsKey() == p[lm].AsKey()
    ensures var r := Survivors(AfterSelection(f, p, lm), x);
            DistinctElements(r) && HasListing(r) && FlagsExact(f, r) && KeyList(r) == KeysAfter(p, x)
    ensures (Pruned(f, Listed(KeySet(p)), lm) == p[lm].AsKey()) == (x == lm)
  {
    var s := Sort(p, Places(lm + 1));
    var k := Pick(p, s);
    var stop := StopAt(f, k, lm, 0);
    SortLists(p);
    var q := PrunedIsFurthestNonCloser(f, k, lm);
    x := s[q];
    SurvivorsExact(f, p, AfterSelection(f, p, lm), s, k, q, stop);
    FlaggedKeepsKeys(f, p, s, k, stop);
    FlaggedKeeps(f, p, s, k, stop, x);
    FlaggedKeeps(f, p, s, k, stop, lm);
    SelectionKeys(f, p, lm, x);
  }

  ghost function KeysAfter(p: seq<HnswCandidate>, x: nat): seq<Key>
    requires x < |p|
  {
    AfterPruning(KeyList(p[..|p| - 1]), p[|p| - 1].AsKey(), p[x].AsKey())
  }

  lemma SelectionKeys(f: Distance, p: seq<HnswCandidate>, lm: nat, x: nat)
    requires DistinctElements(p) && x < |p|
    ensures KeyList(Survivors(AfterSelection(f, p, lm), x)) == KeysAfter(p, x)
    ensures (p[x].AsKey() == p[|p| - 1].AsKey()) == (x == |p| - 1)
  {
    var s := Sort(p, Places(|p|));
    var k := Pick(p, s);
    forall i | 0 <= i < |p|
      ensures AfterSelection(f, p, lm)[i].AsKey() == p[i].AsKey()
    {
      FlaggedKeeps(f, p, s, k, StopAt(f, k, lm, 0), i);
    }
    ShrunkKeys(p, AfterSelection(f, p, lm), x);
  }

  class HnswNeighborArray {
    const f: Distance
    const lm: nat
    var items: seq<HnswCandidate>
    var closerSet: bool

    /** The cache is only marked as set on a full array whose flags are exact. */
    ghost predicate Valid()
      reads this
    {
      && |items| <= lm
      && DistinctElements(items)
      && (closerSet ==> |items| == lm && HasListing(items) && FlagsExact(f, items))
    }

    /** HnswInitNeighborArray */
    constructor (f: Distance, lm: nat)
      ensures Valid() && items == [] && !closerSet && this.f == f && this.lm == lm
    {
      this.f, this.lm, items, closerSet := f, lm, [], false;
    }

    /**
     HnswUpdateConnection. The neighbours and their order afterwards are those of a selection that
     knows no flags; updateIdx is -2 for an append, the replaced place, or -1 when the newcomer
     was pruned.
     */
    method UpdateConnection(newHc: HnswCandidate) returns (updateIdx: int)
      requires Valid() && DistinctElements(items + [newHc])
      modifies this
      ensures Valid()
      ensures KeyList(items) == Connected(f, lm, KeyList(old(items)), newHc.AsKey())
      ensures updateIdx == -2 <==> |old(items)| < lm
      ensures closerSet == (|old(items)| == lm || old(closerSet))
      ensures updateIdx == -1 <==> |old(items)| == lm && KeyList(items) == KeyList(old(items))
      ensures updateIdx >= 0 ==> updateIdx < |items| && items[updateIdx].AsKey() == newHc.AsKey()
    {
      if |items| < lm {
        items := items + [newHc];
        return -2;
      }
      KeyListMembers(items);
      NewKeyIsNew(items, newHc);
      updateIdx := Shrink(newHc);
      assert updateIdx >= 0 ==> KeyList(items)[updateIdx] in O.Members(KeyList(items));
      assert newHc.AsKey() !in O.Members(KeyList(old(items)));
    }

    method Shrink(newHc: HnswCandidate) returns (updateIdx: int)
      requires Valid() && DistinctElements(items + [newHc]) && |items| == lm
      modifies this
      ensures Valid() && |items| == lm && -1 <= updateIdx < lm && closerSet
      ensures var p := old(items) + [newHc];
              && HasListing(p) && Listed(KeySet(p)) != []
              && KeyList(items) == AfterPruning(KeyList(old(items)), newHc.AsKey(), Pruned(f, Listed(KeySet(p)), lm))
              && (updateIdx == -1 <==> Pruned(f, Listed(KeySet(p)), lm) == newHc.AsKey())
      ensures updateIdx >= 0 ==> items[updateIdx].AsKey() == newHc.AsKey()
    {
      items, updateIdx := ShrinkItems(f, lm, items, closerSet, newHc);
      closerSet := true;
    }
  }

  method ShrinkItems(f: Distance, lm: nat, items: seq<HnswCandidate>, closerSet: bool, newHc: HnswCandidate)
    returns (r: seq<HnswCandidate>, updateIdx: int)
    requires DistinctElements(items + [newHc]) && |items| == lm
    requires closerSet ==> HasListing(items) && FlagsExact(f, items)
    ensures |r| == lm && DistinctElements(r) && HasListing(r) && FlagsExact(f, r) && -1 <= updateIdx < lm
    ensures var p := items + [newHc];
            && HasListing(p) && Listed(KeySet(p)) != []
            && KeyList(r) == AfterPruning(KeyList(items), newHc.AsKey(), Pruned(f, Listed(KeySet(p)), lm))
            && (updateIdx == -1 <==> Pruned(f, Listed(KeySet(p)), lm) == newHc.AsKey())
    ensures updateIdx >= 0 ==> r[updateIdx].AsKey() == newHc.AsKey()
  {
    ghost var p := items + [newHc];
    assert p[..lm] == items && p[lm] == newHc;
    var pool, element := SelectAmong(f, lm, items + [newHc], closerSet);
    ghost var x := ShrinkOutcome(f, p, lm);
    assert pool[x] == AfterSelection(f, p, lm)[x];
    updateIdx := FindPruned(pool, element, x);
    r := pool[..lm];
    if updateIdx >= 0 {
      r := r[updateIdx := pool[lm]];
    }
    assert r == Survivors(AfterSelection(f, p, lm), x);
  }

  lemma CacheUsableAmong(f: Distance, lm: nat, candidates: seq<HnswCandidate>)
    requires DistinctElements(candidates) && |candidates| == lm + 1
    requires HasListing(candidates[..lm]) && FlagsExact(f, candidates[..lm])
    requires Within(Sort(candidates, Places(lm + 1)), lm + 1)
    ensures var s := Sort(candidates, Places(lm + 1));
            CacheUsable(f, candidates, s, Pick(candidates, s), NewIndex(s, lm))
  {
    var items, c := candidates[..lm], candidates[lm];
    assert items + [c] == candidates;
    CacheUsableForShrink(f, items, c, Sort(candidates, Places(lm + 1)),
                         Pick(candidates, Sort(candidates, Places(lm + 1))));
  }

  /** The call of SelectNeighbors in HnswUpdateConnection, on a full array's items and the newcomer. */
  method SelectAmong(f: Distance, lm: nat, candidates: seq<HnswCandidate>, closerSet: bool)
    returns (pool: array<HnswCandidate>, element: nat)
    requires DistinctElements(candidates) && |candidates| == lm + 1
    requires closerSet ==> HasListing(candidates[..lm]) && FlagsExact(f, candidates[..lm])
    ensures fresh(pool) && pool[..] == AfterSelection(f, candidates, lm)
    ensures HasListing(candidates) && Listed(KeySet(candidates)) != []
    ensures element == Pruned(f, Listed(KeySet(candidates)), lm).element
  {
    pool := new HnswCandidate[|candidates|](i requires 0 <= i < |candidates| => candidates[i]);
    assert pool[..] == candidates;
    SortLists(candidates);
    if closerSet { CacheUsableAmong(f, lm, candidates); }
    var kept, closerSet', pruned := SelectNeighbors(f, pool, Places(lm + 1), lm, closerSet, lm, true);
    element := pruned.key.element;
  }

  /** No element of items is still to come among news from position n on. */
  ghost predicate Apart(items: seq<HnswCandidate>, news: seq<HnswCandidate>, n: nat) {
    forall i, j | 0 <= i < |items| && n <= j < |news| :: items[i].element != news[j].element
  }

  /**
   Any number of updates of one array: at every point the neighbours are those of a run that
   recomputes every flag, whatever the cache did.
   */
  method UpdateRun(a: HnswNeighborArray, newHcs: seq<HnswCandidate>)
    requires a.Valid() && DistinctElements(newHcs) && Apart(a.items, newHcs, 0)
    modifies a
    ensures a.Valid()
    ensures KeyList(a.items) == ConnectedAll(a.f, a.lm, KeyList(old(a.items)), KeyList(newHcs))
  {
    ghost var ks := KeyList(a.items);
    for i := 0 to |newHcs|
      invariant a.Valid() && Apart(a.items, newHcs, i)
      invariant KeyList(a.items) == ConnectedAll(a.f, a.lm, ks, KeyList(newHcs[..i]))
    {
      ghost var before := a.items;
      assert newHcs[..i + 1][..i] == newHcs[..i];
      var _ := a.UpdateConnection(newHcs[i]);
      StillApart(before, a.items, newHcs, i, a.f, a.lm);
    }
    assert newHcs[..|newHcs|] == newHcs;
  }

  lemma StillApart(before: seq<HnswCandidate>, after: seq<HnswCandidate>, news: seq<HnswCandidate>, i: nat,
                   f: Distance, lm: nat)
    requires i < |news| && DistinctElements(news) && Apart(before, news, i)
    requires KeyList(after) == Connected(f, lm, KeyList(before), news[i].AsKey())
    ensures Apart(after, news, i + 1)
  {
    forall x, j | 0 <= x < |after| && i + 1 <= j < |news|
      ensures after[x].element != news[j].element
    {
      assert KeyList(after)[x] == after[x].AsKey();
      if KeyList(after)[x] != news[i].AsKey() {
        assert x < |before| && before[x].AsKey() == after[x].AsKey();
      }
    }
  }
}
