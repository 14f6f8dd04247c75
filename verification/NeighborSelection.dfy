/**
 Neighbour selection of the HNSW index (Algorithm 4 of the HNSW paper) and the shrink step
 that reuses "closer" flags cached by the previous shrink (src/hnswutils.c).

 An element is named by the address (or shared-memory offset) that the source compares when two
 distances tie. The specification works on keys listed nearest first, the order in which the
 loop takes candidates off the end of its list.
 */
module NeighborSelection {
  import O = Orders

  type Distance = (nat, nat) -> real

  datatype Key = Key(element: nat, distance: real)

  /** The comparator's order, nearest first: distance, then address. */
  predicate Nearer(a: Key, b: Key) {
    a.distance < b.distance || (a.distance == b.distance && a.element < b.element)
  }

  // ---------------------------------------------------------------------------------------
  // Specification: recompute everything
  // ---------------------------------------------------------------------------------------

  /** e is closer to the query than to every member of r. */
  predicate IsCloser(f: Distance, e: Key, r: seq<Key>) {
    forall x | x in r :: f(e.element, x.element) > e.distance
  }

  /** The closer candidates among the first i of s, each compared with the closer ones before it. */
  function Closers(f: Distance, s: seq<Key>, i: nat): (r: seq<Key>)
    requires i <= |s|
  {
    if i == 0 then []
    else
      var r := Closers(f, s, i - 1);
      if IsCloser(f, s[i - 1], r) then r + [s[i - 1]] else r
  }

  /** The closer flag of s[i] computed from scratch. */
  predicate Flag(f: Distance, s: seq<Key>, i: nat)
    requires i < |s|
  {
    IsCloser(f, s[i], Closers(f, s, i))
  }

  /** The candidates among the first i of s that are not closer. */
  function Others(f: Distance, s: seq<Key>, i: nat): seq<Key>
    requires i <= |s|
  {
    if i == 0 then []
    else
      var o := Others(f, s, i - 1);
      if Flag(f, s, i - 1) then o else o + [s[i - 1]]
  }

  /** Where the loop stops when it has come to position i: lm closer candidates, or the end of s. */
  function StopAt(f: Distance, s: seq<Key>, lm: nat, i: nat): (p: nat)
    requires i <= |s|
    ensures i <= p <= |s|
    decreases |s| - i
  {
    if i == |s| || |Closers(f, s, i)| >= lm then i else StopAt(f, s, lm, i + 1)
  }

  /** Kept neighbours: closer ones, then the nearest of the others until lm are kept. */
  function Kept(f: Distance, s: seq<Key>, lm: nat): seq<Key> {
    var p := StopAt(f, s, lm, 0);
    Fill(Closers(f, s, p), Others(f, s, p), lm)
  }

  function Fill(r: seq<Key>, o: seq<Key>, lm: nat): seq<Key> {
    r + o[..Used(r, o, lm)]
  }

  /** How many of the others are needed to keep lm neighbours. */
  function Used(r: seq<Key>, o: seq<Key>, lm: nat): (n: nat)
    ensures n <= |o|
  {
    if lm <= |r| then 0 else if lm - |r| <= |o| then lm - |r| else |o|
  }

  /** The pruned candidate: the nearest leftover of the others, else the furthest candidate. */
  function Pruned(f: Distance, s: seq<Key>, lm: nat): Key
    requires s != []
  {
    var p := StopAt(f, s, lm, 0);
    var r := Closers(f, s, p);
    var o := Others(f, s, p);
    if Used(r, o, lm) < |o| then o[Used(r, o, lm)] else s[|s| - 1]
  }

  lemma {:induction false} CloserWasFlagged(f: Distance, s: seq<Key>, i: nat, x: Key) returns (j: nat)
    requires i <= |s| && x in Closers(f, s, i)
    ensures j < i && s[j] == x && Flag(f, s, j)
  {
    if x in Closers(f, s, i - 1) { j := CloserWasFlagged(f, s, i - 1, x); } else { j := i - 1; }
  }

  lemma {:induction false} FlaggedIsCloser(f: Distance, s: seq<Key>, i: nat, j: nat)
    requires j < i <= |s| && Flag(f, s, j)
    ensures s[j] in Closers(f, s, i)
  {
    if j < i - 1 { FlaggedIsCloser(f, s, i - 1, j); }
  }

  /**
   The flags are the one solution of the rule the paper states: a candidate is closer exactly
   when the query is nearer to it than every closer candidate before it.
   */
  lemma FlagIsTheRule(f: Distance, s: seq<Key>, i: nat)
    requires i < |s|
    ensures Flag(f, s, i) <==>
            forall j | 0 <= j < i && Flag(f, s, j) :: f(s[i].element, s[j].element) > s[i].distance
  {
    forall j | 0 <= j < i && Flag(f, s, j)
      ensures s[j] in Closers(f, s, i)
    {
      FlaggedIsCloser(f, s, i, j);
    }
    forall x | x in Closers(f, s, i)
      ensures exists j :: 0 <= j < i && Flag(f, s, j) && s[j] == x
    {
      var j := CloserWasFlagged(f, s, i, x);
    }
  }

  lemma {:induction false} ClosersAgree(f: Distance, s: seq<Key>, t: seq<Key>, i: nat)
    requires i <= |s| && i <= |t| && forall j | 0 <= j < i :: s[j] == t[j]
    ensures Closers(f, s, i) == Closers(f, t, i)
  {
    if i > 0 { ClosersAgree(f, s, t, i - 1); }
  }

  /** s without position k; nothing is left out when k is past the end. */
  function Without<T>(s: seq<T>, k: nat): (t: seq<T>)
    requires k <= |s|
    ensures k == |s| ==> t == s
    ensures k < |s| ==> |t| == |s| - 1
    ensures forall i {:trigger t[i]} | 0 <= i < |t| :: t[i] == s[if i < k then i else i + 1]
  {
    if k < |s| then s[..k] + s[k + 1..] else s
  }

  /** Where position i of s is found in Without(s, k). */
  function Shift(i: nat, k: nat): nat {
    if i <= k then i else i - 1
  }

  lemma {:induction false} DropNonCloser(f: Distance, s: seq<Key>, k: nat, i: nat)
    requires k < i <= |s| && !Flag(f, s, k)
    ensures Closers(f, Without(s, k), i - 1) == Closers(f, s, i)
  {
    if i == k + 1 {
      ClosersAgree(f, Without(s, k), s, k);
    } else {
      DropNonCloser(f, s, k, i - 1);
      assert Without(s, k)[i - 2] == s[i - 1];
    }
  }

  /**
   Dropping a candidate that is not closer, or the last one, leaves every other flag as it was.
   This is why cached flags stay exact for the survivors of a shrink.
   */
  lemma DroppingKeepsFlags(f: Distance, s: seq<Key>, k: nat, i: nat)
    requires k < |s| && i < |s| && i != k
    requires k == |s| - 1 || !Flag(f, s, k)
    ensures Flag(f, Without(s, k), Shift(i, k)) == Flag(f, s, i)
  {
    if i < k {
      ClosersAgree(f, Without(s, k), s, i);
    } else {
      DropNonCloser(f, s, k, i);
    }
  }

  lemma {:induction false} SplitCounts(f: Distance, s: seq<Key>, i: nat)
    requires i <= |s|
    ensures |Closers(f, s, i)| + |Others(f, s, i)| == i
  {
    if i > 0 { SplitCounts(f, s, i - 1); }
  }

  lemma {:induction false} LastOther(f: Distance, s: seq<Key>, i: nat) returns (k: nat)
    requires i <= |s| && Others(f, s, i) != []
    ensures k < i && !Flag(f, s, k) && s[k] == Others(f, s, i)[|Others(f, s, i)| - 1]
    ensures forall j | k < j < i :: Flag(f, s, j)
  {
    if Flag(f, s, i - 1) { k := LastOther(f, s, i - 1); } else { k := i - 1; }
  }

  lemma {:induction false} AllCloser(f: Distance, s: seq<Key>, i: nat)
    requires i <= |s| && Others(f, s, i) == []
    ensures forall j | 0 <= j < i :: Flag(f, s, j)
  {
    if i > 0 { AllCloser(f, s, i - 1); }
  }

  lemma {:induction false} StopsFull(f: Distance, s: seq<Key>, lm: nat, i: nat)
    requires i <= |s|
    ensures var p := StopAt(f, s, lm, i); p == |s| || |Closers(f, s, p)| >= lm
    decreases |s| - i
  {
    if i < |s| && |Closers(f, s, i)| < lm { StopsFull(f, s, lm, i + 1); }
  }

  lemma {:induction false} GoesOnUntilFull(f: Distance, s: seq<Key>, lm: nat, i: nat)
    requires i <= |s|
    ensures var p := StopAt(f, s, lm, i); p > i ==> |Closers(f, s, p - 1)| < lm
    decreases |s| - i
  {
    if i < |s| && |Closers(f, s, i)| < lm { GoesOnUntilFull(f, s, lm, i + 1); }
  }

  /** The loop stops as soon as lm are kept, or at the end of s. */
  lemma StopsEarly(f: Distance, s: seq<Key>, lm: nat)
    ensures var p := StopAt(f, s, lm, 0);
            (p > 0 ==> |Closers(f, s, p - 1)| < lm) && (p == |s| || |Closers(f, s, p)| >= lm)
  {
    StopsFull(f, s, lm, 0);
    GoesOnUntilFull(f, s, lm, 0);
  }

  /**
   With one candidate too many, the pruned one is the furthest non-closer candidate, or the
   furthest candidate when all before it are closer. Every other candidate has been looked at.
   */
  lemma PrunedIsFurthestNonCloser(f: Distance, s: seq<Key>, lm: nat) returns (k: nat)
    requires |s| == lm + 1
    ensures k < |s| && s[k] == Pruned(f, s, lm)
    ensures (!Flag(f, s, k) && forall j | k < j < |s| :: Flag(f, s, j)) ||
            (k == lm && forall j | 0 <= j < lm :: Flag(f, s, j))
    ensures StopAt(f, s, lm, 0) == |s| || (StopAt(f, s, lm, 0) == lm && k == lm)
  {
    StopsEarly(f, s, lm);
    var p := StopAt(f, s, lm, 0);
    SplitCounts(f, s, p);
    if p > 0 { SplitCounts(f, s, p - 1); }
    if p == |s| {
      assert Others(f, s, p) != [];
      k := LastOther(f, s, p);
      assert |Closers(f, s, p)| <= lm;
      assert Used(Closers(f, s, p), Others(f, s, p), lm) == |Others(f, s, p)| - 1;
    } else {
      AllCloser(f, s, p);
      k := lm;
    }
  }

  // ---------------------------------------------------------------------------------------
  // What is kept and what is pruned, by places in s
  // ---------------------------------------------------------------------------------------

  /** The loop comes to place j: fewer than lm closer candidates are before it. */
  ghost predicate Reached(f: Distance, s: seq<Key>, lm: nat, j: nat)
    requires j < |s|
  {
    |Closers(f, s, j)| < lm
  }

  /** Exactly the places before p are reached. */
  ghost predicate ReachedTo(f: Distance, s: seq<Key>, lm: nat, p: nat) {
    p <= |s| && forall j {:trigger Reached(f, s, lm, j)} | 0 <= j < |s| :: Reached(f, s, lm, j) <==> j < p
  }

  /** Closer candidates come first; those alike stay in order. */
  ghost predicate PickOrder(flags: seq<bool>, i: nat, j: nat) {
    i < |flags| && j < |flags| && if flags[i] == flags[j] then i < j else flags[i]
  }

  /** Of the places before p, lm are kept: every closer one and the nearest others. */
  ghost predicate AreKept(flags: seq<bool>, p: nat, lm: nat, at: seq<nat>) {
    && |at| == lm && (forall a | 0 <= a < lm :: at[a] < p)
    && (forall a, b | 0 <= a < b < lm :: PickOrder(flags, at[a], at[b]))
    && forall j | 0 <= j < p && j !in at :: Follows(flags, at, j)
  }

  /** A candidate left over is not closer, and every other such one that is kept is nearer. */
  ghost predicate Follows(flags: seq<bool>, at: seq<nat>, j: nat) {
    j < |flags| && !flags[j] && forall a | 0 <= a < |at| :: PickOrder(flags, at[a], j)
  }

  /** The place of the pruned candidate: the nearest one before p that is not kept, or the last of all. */
  ghost predicate IsPruned(n: nat, p: nat, at: seq<nat>, q: nat) {
    && q < n && q !in at && (q < p || q == n - 1)
    && forall j | 0 <= j < p && j !in at :: q <= j && q < p
  }

  /** The kept keys and the pruned one are those of a selection that comes exactly to the places reached. */
  ghost predicate Selects(f: Distance, s: seq<Key>, lm: nat, kept: seq<Key>, pruned: Key) {
    exists p: nat, at: seq<nat>, q: nat ::
      && ReachedTo(f, s, lm, p) && AreKept(Flags(f, s), p, lm, at) && KeysAt(s, at, kept)
      && IsPruned(|s|, p, at, q) && pruned == s[q]
  }

  ghost predicate KeysAt(s: seq<Key>, at: seq<nat>, k: seq<Key>) {
    |k| == |at| && forall a | 0 <= a < |at| :: at[a] < |s| && k[a] == s[at[a]]
  }

  ghost function Flags(f: Distance, s: seq<Key>): (flags: seq<bool>)
    ensures |flags| == |s| && forall j | 0 <= j < |s| :: flags[j] == Flag(f, s, j)
  {
    seq(|s|, j requires 0 <= j < |s| => Flag(f, s, j))
  }

  /** The places before i that have the flag. */
  ghost function PlacesOf(flags: seq<bool>, i: nat, flag: bool): seq<nat>
    requires i <= |flags|
  {
    if i == 0 then []
    else
      var last: nat := i - 1;
      var at := PlacesOf(flags, last, flag);
      if flags[last] == flag then at + [last] else at
  }

  /** Ascending places before i, all with the flag. */
  ghost predicate Ascend(flags: seq<bool>, at: seq<nat>, i: nat, flag: bool) {
    && (forall a | 0 <= a < |at| :: at[a] < i && at[a] < |flags| && flags[at[a]] == flag)
    && forall a, b | 0 <= a < b < |at| :: at[a] < at[b]
  }

  lemma {:induction false} PlacesAscend(flags: seq<bool>, i: nat, flag: bool)
    requires i <= |flags|
    ensures Ascend(flags, PlacesOf(flags, i, flag), i, flag)
  {
    if i > 0 {
      PlacesAscend(flags, i - 1, flag);
      OneMoreAscends(flags, PlacesOf(flags, i - 1, flag), i - 1, flag);
    }
  }

  lemma OneMoreAscends(flags: seq<bool>, at: seq<nat>, i: nat, flag: bool)
    requires i < |flags| && Ascend(flags, at, i, flag)
    ensures Ascend(flags, at, i + 1, flag)
    ensures flags[i] == flag ==> Ascend(flags, at + [i], i + 1, flag)
  {
  }

  lemma {:induction false} PlacesAreAll(flags: seq<bool>, i: nat, j: nat)
    requires j < i <= |flags|
    ensures j in PlacesOf(flags, i, flags[j])
  {
    if j < i - 1 { PlacesAreAll(flags, i - 1, j); }
  }

  lemma KeysOneMore(s: seq<Key>, at: seq<nat>, k: seq<Key>, i: nat, add: bool)
    requires KeysAt(s, at, k) && i < |s|
    ensures KeysAt(s, if add then at + [i] else at, if add then k + [s[i]] else k)
  {
  }

  lemma ListsUnfold(f: Distance, s: seq<Key>, i: nat)
    requires i < |s|
    ensures Closers(f, s, i + 1) == if Flags(f, s)[i] then Closers(f, s, i) + [s[i]] else Closers(f, s, i)
    ensures Others(f, s, i + 1) == if !Flags(f, s)[i] then Others(f, s, i) + [s[i]] else Others(f, s, i)
  {
  }

  ghost predicate GrowsAt(s: seq<Key>, flags: seq<bool>, flag: bool, lists: seq<seq<Key>>, j: nat)
    requires j < |s| == |flags| && |lists| == |s| + 1
  {
    lists[j + 1] == if flags[j] == flag then lists[j] + [s[j]] else lists[j]
  }

  /** Lists that grow by the candidates with the flag are at their places. */
  lemma {:induction false} ListsAt(s: seq<Key>, flags: seq<bool>, flag: bool, lists: seq<seq<Key>>, i: nat)
    requires i <= |s| == |flags| && |lists| == |s| + 1 && lists[0] == []
    requires forall j | 0 <= j < |s| :: GrowsAt(s, flags, flag, lists, j)
    ensures KeysAt(s, PlacesOf(flags, i, flag), lists[i])
  {
    if i > 0 {
      ListsAt(s, flags, flag, lists, i - 1);
      assert GrowsAt(s, flags, flag, lists, i - 1);
      KeysOneMore(s, PlacesOf(flags, i - 1, flag), lists[i - 1], i - 1, flags[i - 1] == flag);
    }
  }

  ghost function CloserLists(f: Distance, s: seq<Key>): (lists: seq<seq<Key>>)
    ensures |lists| == |s| + 1 && forall j | 0 <= j <= |s| :: lists[j] == Closers(f, s, j)
  {
    seq(|s| + 1, j requires 0 <= j <= |s| => Closers(f, s, j))
  }

  ghost function OtherLists(f: Distance, s: seq<Key>): (lists: seq<seq<Key>>)
    ensures |lists| == |s| + 1 && forall j | 0 <= j <= |s| :: lists[j] == Others(f, s, j)
  {
    seq(|s| + 1, j requires 0 <= j <= |s| => Others(f, s, j))
  }

  lemma BothGrowAt(f: Distance, s: seq<Key>, j: nat)
    requires j < |s|
    ensures GrowsAt(s, Flags(f, s), true, CloserLists(f, s), j) && GrowsAt(s, Flags(f, s), false, OtherLists(f, s), j)
  {
    ListsUnfold(f, s, j);
  }

  lemma BothListsAt(f: Distance, s: seq<Key>, i: nat)
    requires i <= |s|
    ensures KeysAt(s, PlacesOf(Flags(f, s), i, true), Closers(f, s, i))
    ensures KeysAt(s, PlacesOf(Flags(f, s), i, false), Others(f, s, i))
  {
    forall j | 0 <= j < |s|
      ensures GrowsAt(s, Flags(f, s), true, CloserLists(f, s), j)
      ensures GrowsAt(s, Flags(f, s), false, OtherLists(f, s), j)
    {
      BothGrowAt(f, s, j);
    }
    ListsAt(s, Flags(f, s), true, CloserLists(f, s), i);
    ListsAt(s, Flags(f, s), false, OtherLists(f, s), i);
  }

  lemma {:induction false} ClosersGrow(f: Distance, s: seq<Key>, i: nat, j: nat)
    requires i <= j <= |s|
    ensures |Closers(f, s, i)| <= |Closers(f, s, j)|
  {
    if i < j { ClosersGrow(f, s, i, j - 1); }
  }

  lemma ReachedBeforeStop(f: Distance, s: seq<Key>, lm: nat)
    ensures ReachedTo(f, s, lm, StopAt(f, s, lm, 0))
  {
    var p := StopAt(f, s, lm, 0);
    StopsEarly(f, s, lm);
    forall j | 0 <= j < |s|
      ensures Reached(f, s, lm, j) <==> j < p
    {
      if j < p { ClosersGrow(f, s, j, p - 1); } else { ClosersGrow(f, s, p, j); }
    }
  }

  lemma KeptCounts(f: Distance, s: seq<Key>, lm: nat)
    requires |s| > lm
    ensures var p := StopAt(f, s, lm, 0);
            var r, o := |Closers(f, s, p)|, |Others(f, s, p)|;
            r <= lm && lm - r <= o && (p < |s| ==> r == lm) && (p == |s| ==> lm - r < o)
  {
    var p := StopAt(f, s, lm, 0);
    StopsEarly(f, s, lm);
    SplitCounts(f, s, p);
  }

  lemma FilledKeys(s: seq<Key>, at: seq<nat>, r: seq<Key>, more: seq<nat>, o: seq<Key>, lm: nat)
    requires KeysAt(s, at, r) && KeysAt(s, more, o) && |r| <= lm && lm - |r| <= |o|
    ensures KeysAt(s, at + more[..lm - |r|], Fill(r, o, lm)) && |at + more[..lm - |r|]| == lm
  {
  }

  /** The first n of the others follow the closer ones, and the rest of the others follows both. */
  lemma PlacesInOrder(flags: seq<bool>, closer: seq<nat>, other: seq<nat>, p: nat, i: nat, j: nat)
    requires p <= |flags| && closer == PlacesOf(flags, p, true) && other == PlacesOf(flags, p, false)
    requires i < j < |closer| + |other|
    ensures PickOrder(flags, (closer + other)[i], (closer + other)[j])
  {
    PlacesAscend(flags, p, true);
    PlacesAscend(flags, p, false);
    if j < |closer| {
      assert closer[i] < closer[j];
    } else if i >= |closer| {
      assert other[i - |closer|] < other[j - |closer|];
    }
  }

  /** The places before p are split by their flags, n others are taken, and q is the next one or the last place. */
  ghost predicate Split(flags: seq<bool>, p: nat, lm: nat, closer: seq<nat>, other: seq<nat>, n: nat, q: nat) {
    && |flags| > lm && p <= |flags| && |closer| + n == lm && n <= |other| && (p == |flags| ==> n < |other|)
    && closer == PlacesOf(flags, p, true) && other == PlacesOf(flags, p, false)
    && q == (if n < |other| then other[n] else |flags| - 1)
    && Ascend(flags, closer, p, true) && Ascend(flags, other, p, false)
  }

  /** What was reached and not taken is one of the others that are left. */
  lemma LeftOver(flags: seq<bool>, p: nat, lm: nat, closer: seq<nat>, other: seq<nat>, n: nat, q: nat, j: nat)
    requires Split(flags, p, lm, closer, other, n, q) && j < p && j !in closer + other[..n]
    ensures n < |other| && q <= j && Follows(flags, closer + other[..n], j)
  {
    PlacesAreAll(flags, p, j);
    var b := PlaceLeft(closer, other, n, j, flags[j]);
    forall a | 0 <= a < lm
      ensures (closer + other[..n])[a] < |flags| && PickOrder(flags, (closer + other[..n])[a], j)
    {
      FirstPlaces(closer, other, n, a, b);
      PlacesInOrder(flags, closer, other, p, a, |closer| + b);
    }
  }

  lemma PlaceLeft(closer: seq<nat>, other: seq<nat>, n: nat, j: nat, flag: bool) returns (b: nat)
    requires n <= |other| && j in (if flag then closer else other) && j !in closer + other[..n]
    ensures !flag && n <= b < |other| && other[b] == j
  {
    assert j !in closer;
    b :| 0 <= b < |other| && other[b] == j;
    assert forall c | 0 <= c < n :: other[c] in other[..n];
  }

  lemma FirstPlaces(closer: seq<nat>, other: seq<nat>, n: nat, a: nat, b: nat)
    requires n <= b < |other| && a < |closer| + n
    ensures (closer + other[..n])[a] == (closer + other)[a] && (closer + other)[|closer| + b] == other[b]
  {
  }

  lemma TakenAreKept(flags: seq<bool>, p: nat, lm: nat, closer: seq<nat>, other: seq<nat>, n: nat, q: nat)
    requires Split(flags, p, lm, closer, other, n, q)
    ensures AreKept(flags, p, lm, closer + other[..n]) && IsPruned(|flags|, p, closer + other[..n], q)
  {
    var at := closer + other[..n];
    forall a, b | 0 <= a < b < lm
      ensures PickOrder(flags, at[a], at[b])
    {
      assert at[a] == (closer + other)[a] && at[b] == (closer + other)[b];
      PlacesInOrder(flags, closer, other, p, a, b);
    }
    forall j | 0 <= j < p && j !in at
      ensures Follows(flags, at, j) && q <= j && q < p
    {
      LeftOver(flags, p, lm, closer, other, n, q, j);
    }
    assert q !in closer && q !in other[..n];
  }

  /** Closer candidates and others are split at p so that n others fill up. */
  lemma FillPlaces(s: seq<Key>, flags: seq<bool>, p: nat, lm: nat, r: seq<Key>, o: seq<Key>)
    returns (at: seq<nat>, q: nat)
    requires p <= |s| == |flags| && lm < |s| && |r| <= lm && lm - |r| <= |o| && (p == |s| ==> lm - |r| < |o|)
    requires KeysAt(s, PlacesOf(flags, p, true), r) && KeysAt(s, PlacesOf(flags, p, false), o)
    ensures AreKept(flags, p, lm, at) && KeysAt(s, at, Fill(r, o, lm)) && IsPruned(|s|, p, at, q)
    ensures s[q] == if lm - |r| < |o| then o[lm - |r|] else s[|s| - 1]
  {
    var closer, other := PlacesOf(flags, p, true), PlacesOf(flags, p, false);
    var n := lm - |r|;
    FilledKeys(s, closer, r, other, o, lm);
    PlacesAscend(flags, p, true);
    PlacesAscend(flags, p, false);
    at, q := closer + other[..n], if n < |other| then other[n] else |s| - 1;
    TakenAreKept(flags, p, lm, closer, other, n, q);
  }

  /** Whatever the loops keep and prune is such a selection. */
  lemma KeptIsSelection(f: Distance, s: seq<Key>, lm: nat)
    requires |s| > lm
    ensures Selects(f, s, lm, Kept(f, s, lm), Pruned(f, s, lm))
  {
    var p := StopAt(f, s, lm, 0);
    KeptCounts(f, s, lm);
    BothListsAt(f, s, p);
    ReachedBeforeStop(f, s, lm);
    var at, q := FillPlaces(s, Flags(f, s), p, lm, Closers(f, s, p), Others(f, s, p));
  }

  // ---------------------------------------------------------------------------------------
  // Ascending listings
  // ---------------------------------------------------------------------------------------

  /** Strictly ascending. */
  ghost predicate Ascending(s: seq<Key>) {
    O.Ascending(s, Nearer) && O.NoRepeats(s)
  }

  ghost predicate Listing(k: seq<Key>, m: set<Key>) {
    Ascending(k) && O.Members(k) == m
  }

  /** A set of keys has at most one ascending listing, so any correct sort gives the same order. */
  lemma ListingIsUnique(a: seq<Key>, b: seq<Key>, m: set<Key>)
    requires Listing(a, m) && Listing(b, m)
    ensures a == b
  {
    assert forall x :: x in a <==> x in O.Members(a);
    assert forall x :: x in b <==> x in O.Members(b);
    O.SortedListsAgree(a, b, Nearer);
  }

  /** The keys of m, nearest first. */
  ghost function Listed(m: set<Key>): (k: seq<Key>)
    requires exists k :: Listing(k, m)
    ensures Listing(k, m)
  {
    var k :| Listing(k, m);
    k
  }

  lemma ListedIs(k: seq<Key>, m: set<Key>)
    requires Listing(k, m)
    ensures Listed(m) == k
  {
    ListingIsUnique(k, Listed(m), m);
  }

  lemma AscendingAt(k: seq<Key>, i: nat, j: nat)
    requires Ascending(k) && i < j < |k|
    ensures Nearer(k[i], k[j])
  {
    assert !Nearer(k[j], k[i]) && k[i] != k[j];
  }

  lemma AscendingWithout(k: seq<Key>, n: nat)
    requires Ascending(k) && n < |k|
    ensures Listing(Without(k, n), O.Members(k) - {k[n]})
  {
    var t := Without(k, n);
    forall i, j | 0 <= i < j < |t|
      ensures !Nearer(t[j], t[i]) && t[i] != t[j]
    {
      AscendingAt(k, if i < n then i else i + 1, if j < n then j else j + 1);
    }
    MembersWithout(k, n);
  }

  lemma MembersWithout(k: seq<Key>, n: nat)
    requires O.NoRepeats(k) && n < |k|
    ensures O.Members(Without(k, n)) == O.Members(k) - {k[n]}
  {
    var t := Without(k, n);
    forall x | x in k && x != k[n]
      ensures x in t
    {
      var i :| 0 <= i < |k| && k[i] == x;
      assert t[Shift(i, n)] == x;
    }
    forall x | x in t
      ensures x in k && x != k[n]
    {
      var i :| 0 <= i < |t| && t[i] == x;
    }
  }

  // ---------------------------------------------------------------------------------------
  // Candidates and list_sort
  // ---------------------------------------------------------------------------------------

  datatype HnswCandidate = HnswCandidate(element: nat, distance: real, closer: bool) {
    function AsKey(): Key { Key(element, distance) }
  }

  predicate Within(s: seq<nat>, n: nat) {
    forall i | 0 <= i < |s| :: s[i] < n
  }

  /** The keys of the candidates of p that s points to. */
  function Pick(p: seq<HnswCandidate>, s: seq<nat>): (k: seq<Key>)
    requires Within(s, |p|)
    ensures |k| == |s| && forall i | 0 <= i < |s| :: k[i] == p[s[i]].AsKey()
  {
    if s == [] then [] else [p[s[0]].AsKey()] + Pick(p, s[1..])
  }

  ghost predicate DistinctElements(p: seq<HnswCandidate>) {
    forall i, j | 0 <= i < j < |p| :: p[i].element != p[j].element
  }

  /** The comparator of places in p. */
  function ByKey(p: seq<HnswCandidate>): (nat, nat) -> bool {
    (x: nat, y: nat) => Nearer(KeyAt(p, x), KeyAt(p, y))
  }

  function KeyAt(p: seq<HnswCandidate>, x: nat): Key {
    if x < |p| then p[x].AsKey() else Key(0, 0.0)
  }

  /** list_sort by the candidate comparator, nearest first; ListingIsUnique: any correct sort gives this list. */
  function Sort(p: seq<HnswCandidate>, s: seq<nat>): (r: seq<nat>)
    requires Within(s, |p|)
    ensures |r| == |s| && multiset(r) == multiset(s)
    ensures Within(r, |p|)
  {
    var r := O.Sorted<nat>(s, ByKey(p));
    PermutationMembers(r, s);
    assert forall i | 0 <= i < |r| :: r[i] in s;
    r
  }

  lemma PermutationMembers<T>(a: seq<T>, b: seq<T>)
    requires multiset(a) == multiset(b)
    ensures forall x :: x in a <==> x in b
    ensures |a| == |b|
  {
    assert forall x :: x in a <==> x in multiset(a);
    assert |a| == |multiset(a)| && |b| == |multiset(b)|;
  }

  /**
   Sorting candidates with distinct elements lists them in strictly ascending order, by distance and
   then by element.
   */
  lemma SortSorted(p: seq<HnswCandidate>, s: seq<nat>)
    requires Within(s, |p|) && O.NoRepeats(s) && DistinctElements(p)
    ensures Ascending(Pick(p, Sort(p, s)))
    ensures var k := Pick(p, Sort(p, s));
            forall i, j | 0 <= i < j < |k| ::
              k[i].distance < k[j].distance || (k[i].distance == k[j].distance && k[i].element < k[j].element)
  {
    var r := Sort(p, s);
    O.SortedIsAscending<nat>(s, ByKey(p));
    O.SortedKeepsMembers<nat>(s, ByKey(p));
    forall i, j | 0 <= i < j < |r|
      ensures !Nearer(Pick(p, r)[j], Pick(p, r)[i]) && Pick(p, r)[i] != Pick(p, r)[j]
    {
      assert !ByKey(p)(r[j], r[i]) && r[i] != r[j];
      assert p[r[i]].element != p[r[j]].element;
    }
  }

  lemma PermutationNoRepeats(c: seq<nat>, s: seq<nat>)
    requires O.NoRepeats(c) && multiset(c) == multiset(s)
    ensures O.NoRepeats(s)
  {
    O.OnceEach(c);
    PermutationMembers(c, s);
    O.OnceEachMeansNoRepeats(s);
  }

  // ---------------------------------------------------------------------------------------
  // The selection loop
  // ---------------------------------------------------------------------------------------

  /** CheckElementCloser: is e closer to the query than to every member of r? */
  method CheckElementCloser(f: Distance, e: Key, r: seq<Key>) returns (closer: bool)
    ensures closer == IsCloser(f, e, r)
  {
    for i := 0 to |r|
      invariant forall j | 0 <= j < i :: f(e.element, r[j].element) > e.distance
    {
      var distance := f(e.element, r[i].element);
      if distance <= e.distance {
        return false;
      }
    }
    return true;
  }

  /** Position of the new candidate in the order of visits; |s| when there is none. */
  ghost function NewIndex(s: seq<nat>, newCandidate: int): (n: nat)
    ensures n <= |s|
    ensures n < |s| ==> s[n] == newCandidate
    ensures n == |s| ==> newCandidate !in s
  {
    if s == [] || s[0] == newCandidate then 0 else 1 + NewIndex(s[1..], newCandidate)
  }

  function Reversed(s: seq<nat>): (r: seq<nat>)
    ensures |r| == |s| && forall i | 0 <= i < |s| :: r[i] == s[|s| - 1 - i]
    ensures multiset(r) == multiset(s)
  {
    if s == [] then []
    else
      assert s == [s[0]] + s[1..];
      Reversed(s[1..]) + [s[0]]
  }

  /** The candidates in the order in which the loop takes them. */
  function TakeOrder(p: seq<HnswCandidate>, c: seq<nat>, sortCandidates: bool): (s: seq<nat>)
    requires Within(c, |p|)
    ensures |s| == |c| && multiset(s) == multiset(c) && Within(s, |p|)
  {
    PermutationMembers(Reversed(c), c);
    if sortCandidates then Sort(p, c) else Reversed(c)
  }

  /** The loop takes sorted candidates nearest first, and others from the end of their list. */
  lemma TakeOrderIs(p: seq<HnswCandidate>, c: seq<nat>, sortCandidates: bool)
    requires Within(c, |p|) && O.NoRepeats(c) && DistinctElements(p)
    ensures sortCandidates ==> Ascending(Pick(p, TakeOrder(p, c, sortCandidates)))
    ensures !sortCandidates ==>
              forall i | 0 <= i < |c| :: TakeOrder(p, c, sortCandidates)[i] == c[|c| - 1 - i]
  {
    SortSorted(p, c);
  }

  /** What the loop knows at position i: r against the closers oldR of the previous selection. */
  ghost predicate CacheInvariant(n: nat, i: nat, r: seq<Key>, oldR: seq<Key>, added: seq<Key>, removedAny: bool) {
    && (i <= n ==> added == [] && r == oldR)
    && O.Members(added) <= O.Members(r) <= O.Members(added) + O.Members(oldR)
    && (!removedAny ==> O.Members(oldR) <= O.Members(r))
    && (added == [] ==> !removedAny)
  }

  lemma IsCloserByMembers(f: Distance, e: Key, r: seq<Key>)
    ensures IsCloser(f, e, r) <==> forall x | x in O.Members(r) :: f(e.element, x.element) > e.distance
  {
    assert forall x :: x in r <==> x in O.Members(r);
  }

  lemma MembersAppend(s: seq<Key>, e: Key)
    ensures O.Members(s + [e]) == O.Members(s) + {e}
  {
  }

  /** The closers of the selection the cached flags belong to, up to the place of position i. */
  ghost function OldClosers(f: Distance, k: seq<Key>, n: nat, i: nat): seq<Key>
    requires n <= |k| && i <= |k|
  {
    Closers(f, Without(k, n), Shift(i, n))
  }

  lemma OldClosersStep(f: Distance, k: seq<Key>, n: nat, i: nat)
    requires n <= |k| && i < |k|
    ensures i == n ==> OldClosers(f, k, n, i + 1) == OldClosers(f, k, n, i)
    ensures i != n ==>
              && Shift(i, n) < |Without(k, n)|
              && OldClosers(f, k, n, i + 1) ==
                 OldClosers(f, k, n, i) + (if Flag(f, Without(k, n), Shift(i, n)) then [k[i]] else [])
              && Flag(f, Without(k, n), Shift(i, n)) == IsCloser(f, k[i], OldClosers(f, k, n, i))
  {
    if i != n {
      assert Without(k, n)[Shift(i, n)] == k[i];
      assert Shift(i + 1, n) == Shift(i, n) + 1;
    }
  }

  /** The cached decision on one candidate: its new flag and the new bookkeeping. */
  method DecideCached(f: Distance, e: Key, cached: bool, isNew: bool, r: seq<Key>, added: seq<Key>, removedAny: bool,
                      ghost n: nat, ghost i: nat, ghost oldR: seq<Key>)
    returns (closer: bool, added': seq<Key>, removedAny': bool)
    requires CacheInvariant(n, i, r, oldR, added, removedAny)
    requires isNew <==> i == n
    requires !isNew ==> cached == IsCloser(f, e, oldR)
    ensures closer == IsCloser(f, e, r)
    ensures CacheInvariant(n, i + 1, if closer then r + [e] else r,
                           if !isNew && cached then oldR + [e] else oldR, added', removedAny')
  {
    closer, added', removedAny' := cached, added, removedAny;
    IsCloserByMembers(f, e, r);
    IsCloserByMembers(f, e, oldR);
    IsCloserByMembers(f, e, added);
    MembersAppend(r, e);
    MembersAppend(oldR, e);
    MembersAppend(added, e);
    if |added| > 0 {
      if cached {
        closer := CheckElementCloser(f, e, added);
        if !closer {
          removedAny' := true;
        }
      } else if removedAny {
        closer := CheckElementCloser(f, e, r);
        if closer {
          added' := added + [e];
        }
      }
    } else if isNew {
      closer := CheckElementCloser(f, e, r);
      if closer {
        added' := added + [e];
      }
    }
  }

  /** The candidates p once the flags of the first i of s are set from scratch. */
  ghost function Flagged(f: Distance, p: seq<HnswCandidate>, s: seq<nat>, k: seq<Key>, i: nat): (q: seq<HnswCandidate>)
    requires Within(s, |p|) && i <= |s| == |k|
    ensures |q| == |p|
  {
    if i == 0 then p
    else
      var q := Flagged(f, p, s, k, i - 1);
      q[s[i - 1] := q[s[i - 1]].(closer := Flag(f, k, i - 1))]
  }

  /** Only flags change, and those of the candidates not yet visited do not. */
  lemma {:induction false} FlaggedKeeps(f: Distance, p: seq<HnswCandidate>, s: seq<nat>, k: seq<Key>, i: nat, x: nat)
    requires Within(s, |p|) && i <= |s| == |k| && x < |p|
    ensures Flagged(f, p, s, k, i)[x].AsKey() == p[x].AsKey()
    ensures (forall j | 0 <= j < i :: s[j] != x) ==> Flagged(f, p, s, k, i)[x] == p[x]
  {
    if i > 0 { FlaggedKeeps(f, p, s, k, i - 1, x); }
  }

  /** The visited candidates have the flags of a full recomputation. */
  lemma {:induction false} FlaggedIsExact(f: Distance, p: seq<HnswCandidate>, s: seq<nat>, k: seq<Key>, i: nat, j: nat)
    requires Within(s, |p|) && j < i <= |s| == |k| && O.NoRepeats(s)
    ensures Flagged(f, p, s, k, i)[s[j]].closer == Flag(f, k, j)
  {
    if j < i - 1 { FlaggedIsExact(f, p, s, k, i - 1, j); }
  }

  /** What SelectNeighbors may rely on when it uses cached flags; k are the keys of s. */
  ghost predicate CacheUsable(f: Distance, p: seq<HnswCandidate>, s: seq<nat>, k: seq<Key>, n: nat)
    requires Within(s, |p|)
  {
    && n <= |s| == |k|
    && forall i {:trigger CachedFlag(f, p, s, k, n, i)} | 0 <= i < |s| && i != n :: CachedFlag(f, p, s, k, n, i)
  }

  /** The cached flag is that of the selection without the newcomer. */
  ghost predicate CachedFlag(f: Distance, p: seq<HnswCandidate>, s: seq<nat>, k: seq<Key>, n: nat, i: nat)
    requires Within(s, |p|) && i < |s| == |k| && n <= |k| && i != n
  {
    p[s[i]].closer == Flag(f, Without(k, n), Shift(i, n))
  }

  lemma CachedAt(f: Distance, p: seq<HnswCandidate>, s: seq<nat>, k: seq<Key>, newCandidate: int, i: nat)
    requires Within(s, |p|) && O.NoRepeats(s) && i < |s|
    ensures s[i] == newCandidate <==> i == NewIndex(s, newCandidate)
    ensures CacheUsable(f, p, s, k, NewIndex(s, newCandidate)) && i != NewIndex(s, newCandidate) ==>
              p[s[i]].closer == Flag(f, Without(k, NewIndex(s, newCandidate)), Shift(i, NewIndex(s, newCandidate)))
  {
    var n := NewIndex(s, newCandidate);
    if CacheUsable(f, p, s, k, n) && i != n { assert CachedFlag(f, p, s, k, n, i); }
  }

  /**
   One turn of the first loop for the candidate with key k[i]: its flag, from the cache when that
   is allowed, and the bookkeeping of the cache.
   */
  method VisitCandidate(f: Distance, key: Key, cached: bool, r: seq<Key>, mustCalculate: bool, isNew: bool,
                        added: seq<Key>, removedAny: bool, ghost k: seq<Key>, ghost n: nat, ghost i: nat)
    returns (closer: bool, added': seq<Key>, removedAny': bool)
    requires i < |k| && key == k[i] && (isNew <==> i == n) && n <= |k| && r == Closers(f, k, i)
    requires !mustCalculate && i != n ==> cached == Flag(f, Without(k, n), Shift(i, n))
    requires !mustCalculate ==> CacheInvariant(n, i, r, OldClosers(f, k, n, i), added, removedAny)
    ensures closer == Flag(f, k, i)
    ensures !mustCalculate ==>
              CacheInvariant(n, i + 1, if closer then r + [key] else r, OldClosers(f, k, n, i + 1), added', removedAny')
  {
    added', removedAny' := added, removedAny;
    if mustCalculate {
      closer := CheckElementCloser(f, key, r);
    } else {
      OldClosersStep(f, k, n, i);
      closer, added', removedAny' := DecideCached(f, key, cached, isNew, r, added, removedAny,
                                                  n, i, OldClosers(f, k, n, i));
    }
  }

  /** The first loop has come to position i of s; before were the candidates and cells are they now. */
  ghost predicate Scanned(f: Distance, before: seq<HnswCandidate>, s: seq<nat>, k: seq<Key>, lm: nat, i: nat,
                          r: seq<Key>, wd: seq<Key>, cells: seq<HnswCandidate>)
    requires Within(s, |before|) && |k| == |s|
  {
    && i <= |s| && r == Closers(f, k, i) && wd == Others(f, k, i) && cells == Flagged(f, before, s, k, i)
    && StopAt(f, k, lm, i) == StopAt(f, k, lm, 0)
  }

  lemma NextCandidate(f: Distance, before: seq<HnswCandidate>, s: seq<nat>, k: seq<Key>, lm: nat, i: nat, r: seq<Key>,
                      wd: seq<Key>, cells: seq<HnswCandidate>)
    requires Within(s, |before|) && |k| == |s| && O.NoRepeats(s) && i < |s|
    requires Scanned(f, before, s, k, lm, i, r, wd, cells)
    ensures cells[s[i]] == before[s[i]]
  {
    FlaggedKeeps(f, before, s, k, i, s[i]);
  }

  lemma ScannedStep(f: Distance, before: seq<HnswCandidate>, s: seq<nat>, k: seq<Key>, lm: nat, i: nat, r: seq<Key>,
                    wd: seq<Key>, cells: seq<HnswCandidate>)
    requires Within(s, |before|) && |k| == |s| && i < |s| && |r| < lm
    requires Scanned(f, before, s, k, lm, i, r, wd, cells)
    ensures var closer := Flag(f, k, i);
            Scanned(f, before, s, k, lm, i + 1, if closer then r + [k[i]] else r, if closer then wd else wd + [k[i]],
                    cells[s[i] := cells[s[i]].(closer := closer)])
  {
  }

  /** What holds before the loop visits position i, bookkeeping included. */
  ghost predicate Scanning(f: Distance, before: seq<HnswCandidate>, s: seq<nat>, k: seq<Key>, lm: nat, n: nat,
                           mustCalculate: bool, i: nat, r: seq<Key>, wd: seq<Key>, cells: seq<HnswCandidate>,
                           added: seq<Key>, removedAny: bool)
    requires Within(s, |before|) && |k| == |s| && n <= |s|
  {
    && Scanned(f, before, s, k, lm, i, r, wd, cells)
    && (!mustCalculate ==> CacheInvariant(n, i, r, OldClosers(f, k, n, i), added, removedAny))
  }

  lemma ScanEnds(f: Distance, before: seq<HnswCandidate>, s: seq<nat>, k: seq<Key>, lm: nat, n: nat,
                 mustCalculate: bool, i: nat, r: seq<Key>, wd: seq<Key>, cells: seq<HnswCandidate>, added: seq<Key>,
                 removedAny: bool)
    requires Within(s, |before|) && |k| == |s| && n <= |s| && (i == |s| || |r| >= lm)
    requires Scanning(f, before, s, k, lm, n, mustCalculate, i, r, wd, cells, added, removedAny)
    ensures var p := StopAt(f, k, lm, 0);
            p == i && r == Closers(f, k, p) && wd == Others(f, k, p) && cells == Flagged(f, before, s, k, p)
  {
  }

  lemma ScanStarts(f: Distance, before: seq<HnswCandidate>, s: seq<nat>, k: seq<Key>, lm: nat, n: nat,
                   mustCalculate: bool)
    requires Within(s, |before|) && |k| == |s| && n <= |s|
    ensures Scanning(f, before, s, k, lm, n, mustCalculate, 0, [], [], before, [], false)
  {
  }

  /** One turn of the first loop, for the candidate at place e. */
  method ScanTurn(f: Distance, pool: array<HnswCandidate>, e: nat, r: seq<Key>, wd: seq<Key>, lm: nat,
                  mustCalculate: bool, newCandidate: int, added: seq<Key>, removedAny: bool,
                  ghost before: seq<HnswCandidate>, ghost s: seq<nat>, ghost k: seq<Key>, ghost i: nat)
    returns (r': seq<Key>, wd': seq<Key>, added': seq<Key>, removedAny': bool)
    requires Within(s, |before|) && O.NoRepeats(s) && k == Pick(before, s) && i < |s| && e == s[i] && |r| < lm
    requires pool.Length == |before|
    requires var n := NewIndex(s, newCandidate);
             (!mustCalculate ==> CacheUsable(f, before, s, k, n)) &&
             Scanning(f, before, s, k, lm, n, mustCalculate, i, r, wd, pool[..], added, removedAny)
    modifies pool
    ensures Scanning(f, before, s, k, lm, NewIndex(s, newCandidate), mustCalculate, i + 1, r', wd', pool[..], added',
                     removedAny')
  {
    ghost var cells := pool[..];
    var hc := pool[e];
    NextCandidate(f, before, s, k, lm, i, r, wd, cells);
    ScannedStep(f, before, s, k, lm, i, r, wd, cells);
    CachedAt(f, before, s, k, newCandidate, i);
    var closer;
    closer, added', removedAny' :=
      VisitCandidate(f, hc.AsKey(), hc.closer, r, mustCalculate, e == newCandidate, added, removedAny,
                     k, NewIndex(s, newCandidate), i);
    pool[e] := hc.(closer := closer);
    assert pool[..] == cells[e := hc.(closer := closer)];
    r', wd' := r, wd;
    if closer {
      r' := r + [hc.AsKey()];
    } else {
      wd' := wd + [hc.AsKey()];
    }
  }

  /**
   The first loop of SelectNeighbors. The source keeps its list furthest first and deletes the
   last item; here s is that list nearest first. A kept candidate is named by its key.
   */
  method ScanCandidates(f: Distance, pool: array<HnswCandidate>, s: seq<nat>, lm: nat, mustCalculate: bool,
                        newCandidate: int, ghost k: seq<Key>)
    returns (r: seq<Key>, wd: seq<Key>, w: seq<nat>)
    requires Within(s, pool.Length) && O.NoRepeats(s)
    requires k == Pick(pool[..], s)
    requires !mustCalculate ==> CacheUsable(f, pool[..], s, k, NewIndex(s, newCandidate))
    modifies pool
    ensures var p := StopAt(f, k, lm, 0);
            && r == Closers(f, k, p) && wd == Others(f, k, p) && w == s[p..]
            && pool[..] == Flagged(f, old(pool[..]), s, k, p)
  {
    ghost var n := NewIndex(s, newCandidate);
    ghost var i := 0;
    ghost var before := pool[..];
    w, r, wd := s, [], [];
    var added, removedAny := [], false;
    ScanStarts(f, before, s, k, lm, n, mustCalculate);
    while |w| > 0 && |r| < lm
      invariant i <= |s| && w == s[i..]
      invariant Scanning(f, before, s, k, lm, n, mustCalculate, i, r, wd, pool[..], added, removedAny)
    {
      var e := w[0];
      w := w[1..];
      r, wd, added, removedAny :=
        ScanTurn(f, pool, e, r, wd, lm, mustCalculate, newCandidate, added, removedAny, before, s, k, i);
      i := i + 1;
    }
    ScanEnds(f, before, s, k, lm, n, mustCalculate, i, r, wd, pool[..], added, removedAny);
  }

  /**
   SelectNeighbors: with exact cached flags, the skipped comparisons change nothing. The kept
   list, the pruned candidate and every flag the loop sets are those of a full recomputation.
   The candidates are places of pool; newCandidate is the newcomer's place or -1.
   */
  method SelectNeighbors(f: Distance, pool: array<HnswCandidate>, c: seq<nat>, lm: nat, closerSet: bool,
                         newCandidate: int, sortCandidates: bool)
    returns (kept: seq<Key>, closerSet': bool, pruned: Pruning)
    requires Within(c, pool.Length) && O.NoRepeats(c)
    requires closerSet && |c| > lm ==>
               && sortCandidates
               && var s := Sort(pool[..], c);
                  CacheUsable(f, pool[..], s, Pick(pool[..], s), NewIndex(s, newCandidate))
    modifies pool
    ensures |c| <= lm ==>
            kept == Pick(pool[..], c) && closerSet' == closerSet && pruned == NoneLeft && pool[..] == old(pool[..])
    ensures |c| > lm ==>
              var s := TakeOrder(old(pool[..]), c, sortCandidates);
              var k := Pick(old(pool[..]), s);
              && closerSet' == sortCandidates
              && kept == Kept(f, k, lm)
              && pruned == Leftover(Pruned(f, k, lm))
              && Selects(f, k, lm, kept, pruned.key)
              && pool[..] == Flagged(f, old(pool[..]), s, k, StopAt(f, k, lm, 0))
  {
    if |c| <= lm {
      return Pick(pool[..], c), closerSet, NoneLeft;
    }
    var s := TakeOrder(pool[..], c, sortCandidates);
    ghost var k := Pick(pool[..], s);
    PermutationNoRepeats(c, s);
    var r, wd, w := ScanCandidates(f, pool, s, lm, !closerSet, newCandidate, k);
    closerSet' := sortCandidates;
    kept, pruned := FillAndPrune(f, pool, lm, r, wd, w, old(pool[..]), s, k);
    KeptIsSelection(f, k, lm);
  }

  /** What follows the loop: the kept list is filled up, and the candidate left over is the pruned one. */
  method FillAndPrune(f: Distance, pool: array<HnswCandidate>, lm: nat, r: seq<Key>, wd: seq<Key>, w: seq<nat>,
                      ghost p: seq<HnswCandidate>, ghost s: seq<nat>, ghost k: seq<Key>)
    returns (kept: seq<Key>, pruned: Pruning)
    requires Within(s, |p|) && O.NoRepeats(s) && k == Pick(p, s) && |s| > lm
    requires var i := StopAt(f, k, lm, 0);
             r == Closers(f, k, i) && wd == Others(f, k, i) && w == s[i..] && pool[..] == Flagged(f, p, s, k, i)
    ensures kept == Kept(f, k, lm) && pruned == Leftover(Pruned(f, k, lm))
  {
    var wdoff;
    kept, wdoff := KeepPrunedConnections(r, wd, lm);
    if wdoff < |wd| {
      pruned := Leftover(wd[wdoff]);
    } else {
      LastIsLeft(f, p, s, k, lm);
      var last := w[|w| - 1];
      assert pool[last] == pool[..][last];
      pruned := Leftover(pool[last].AsKey());
    }
  }

  lemma LastIsLeft(f: Distance, p: seq<HnswCandidate>, s: seq<nat>, k: seq<Key>, lm: nat)
    requires Within(s, |p|) && O.NoRepeats(s) && k == Pick(p, s) && |s| > lm
    requires var i := StopAt(f, k, lm, 0); Used(Closers(f, k, i), Others(f, k, i), lm) == |Others(f, k, i)|
    ensures StopAt(f, k, lm, 0) < |s|
    ensures Flagged(f, p, s, k, StopAt(f, k, lm, 0))[s[|s| - 1]].AsKey() == k[|s| - 1]
  {
    StopsBeforeEnd(f, k, lm);
    FlaggedKeeps(f, p, s, k, StopAt(f, k, lm, 0), s[|s| - 1]);
  }

  lemma StopsBeforeEnd(f: Distance, k: seq<Key>, lm: nat)
    requires |k| > lm
    requires var i := StopAt(f, k, lm, 0); Used(Closers(f, k, i), Others(f, k, i), lm) == |Others(f, k, i)|
    ensures StopAt(f, k, lm, 0) < |k|
  {
    StopsEarly(f, k, lm);
    var i := StopAt(f, k, lm, 0);
    SplitCounts(f, k, i);
    assert i > 0 ==> |Closers(f, k, i)| <= |Closers(f, k, i - 1)| + 1;
  }

  datatype Pruning = NoneLeft | Leftover(key: Key)

  /** The second loop: the nearest leftovers fill r up to lm. */
  method KeepPrunedConnections(r: seq<Key>, wd: seq<Key>, lm: nat) returns (kept: seq<Key>, wdoff: nat)
    ensures wdoff <= |wd| && kept == r + wd[..wdoff] && (wdoff > 0 ==> |kept| <= lm) && (wdoff < |wd| ==> |kept| >= lm)
    ensures wdoff == Used(r, wd, lm) && kept == Fill(r, wd, lm)
  {
    kept, wdoff := r, 0;
    while wdoff < |wd| && |kept| < lm
      invariant wdoff <= Used(r, wd, lm) && kept == r + wd[..wdoff]
    {
      kept := kept + [wd[wdoff]];
      wdoff := wdoff + 1;
    }
  }
}
