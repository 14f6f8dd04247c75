/** Strict weak orders and sorting by them: what qsort gives for a comparison without ties. */
module Orders {

  /** Asymmetric, and being not before is transitive. */
  ghost predicate WeakOrder<T(!new)>(before: (T, T) -> bool) {
    && (forall a, b :: before(a, b) ==> !before(b, a))
    && (forall a, b, c {:trigger before(a, b), before(b, c)} :: !before(a, b) && !before(b, c) ==> !before(a, c))
  }

  ghost predicate Ascending<T>(s: seq<T>, before: (T, T) -> bool) {
    forall i, j | 0 <= i < j < |s| :: !before(s[j], s[i])
  }

  /** Different members never tie. */
  ghost predicate NoTies<T(!new)>(s: seq<T>, before: (T, T) -> bool) {
    forall x, y | x in s && y in s && x != y :: before(x, y) || before(y, x)
  }

  ghost predicate NoRepeats<T>(s: seq<T>) {
    forall i, j | 0 <= i < j < |s| :: s[i] != s[j]
  }

  function Members<T>(s: seq<T>): set<T> { set x | x in s }

  ghost predicate SameMembers<T(!new)>(s: seq<T>, t: seq<T>) {
    forall x :: x in s <==> x in t
  }

  function Swapped<T>(s: seq<T>, i: nat, j: nat): (r: seq<T>)
    requires i < |s| && j < |s|
    ensures |r| == |s|
  {
    s[i := s[j]][j := s[i]]
  }

  lemma SwappedKeepsItems<T>(s: seq<T>, i: nat, j: nat)
    requires i < |s| && j < |s|
    ensures multiset(Swapped(s, i, j)) == multiset(s)
  {
  }

  function InsertSorted<T>(s: seq<T>, x: T, before: (T, T) -> bool): (r: seq<T>)
    ensures multiset(r) == multiset(s) + multiset{x} && |r| == |s| + 1
  {
    if s == [] then [x]
    else
      assert s == s[..|s| - 1] + [s[|s| - 1]];
      if before(x, s[|s| - 1]) then InsertSorted(s[..|s| - 1], x, before) + [s[|s| - 1]] else s + [x]
  }

  function Sorted<T>(s: seq<T>, before: (T, T) -> bool): (r: seq<T>)
    ensures multiset(r) == multiset(s) && |r| == |s|
  {
    if s == [] then []
    else
      assert s == s[..|s| - 1] + [s[|s| - 1]];
      InsertSorted(Sorted(s[..|s| - 1], before), s[|s| - 1], before)
  }

  lemma {:induction false} InsertKeepsAscending<T(!new)>(s: seq<T>, x: T, before: (T, T) -> bool)
    requires WeakOrder(before) && Ascending(s, before)
    ensures Ascending(InsertSorted(s, x, before), before)
  {
    if s != [] && before(x, s[|s| - 1]) {
      var r := InsertSorted(s[..|s| - 1], x, before);
      InsertKeepsAscending(s[..|s| - 1], x, before);
      forall i | 0 <= i < |r| ensures !before(s[|s| - 1], r[i]) {
        assert r[i] in multiset(r);
        assert r[i] in s[..|s| - 1] || r[i] == x;
      }
    }
  }

  lemma {:induction false} SortedIsAscending<T(!new)>(s: seq<T>, before: (T, T) -> bool)
    requires WeakOrder(before)
    ensures Ascending(Sorted(s, before), before)
  {
    if s != [] {
      SortedIsAscending(s[..|s| - 1], before);
      InsertKeepsAscending(Sorted(s[..|s| - 1], before), s[|s| - 1], before);
    }
  }

  lemma SortedKeepsMembers<T(!new)>(s: seq<T>, before: (T, T) -> bool)
    ensures SameMembers(Sorted(s, before), s)
    ensures NoRepeats(s) ==> NoRepeats(Sorted(s, before))
  {
    var r := Sorted(s, before);
    forall x ensures x in r <==> x in s {
      assert x in multiset(r) <==> x in multiset(s);
    }
    if NoRepeats(s) {
      OnceEach(s);
      forall x | x in r ensures multiset(r)[x] == 1 { assert multiset(r) == multiset(s) && x in s; }
      OnceEachMeansNoRepeats(r);
    }
  }

  lemma {:induction false} OnceEach<T(!new)>(s: seq<T>)
    requires NoRepeats(s)
    ensures forall x | x in s :: multiset(s)[x] == 1
  {
    if s != [] {
      var n := |s| - 1;
      OnceEach(s[..n]);
      assert s == s[..n] + [s[n]];
      assert s[n] !in s[..n];
      assert s[n] !in multiset(s[..n]);
    }
  }

  lemma OnceEachMeansNoRepeats<T>(s: seq<T>)
    requires forall x | x in s :: multiset(s)[x] == 1
    ensures NoRepeats(s)
  {
    forall i, j | 0 <= i < j < |s| ensures s[i] != s[j] {
      assert s == s[..i] + [s[i]] + s[i + 1..j] + [s[j]] + s[j + 1..];
      assert s[i] in s;
    }
  }

  lemma EmptyAlike<T(!new)>(s: seq<T>, t: seq<T>)
    requires SameMembers(s, t)
    ensures s == [] <==> t == []
  {
    if s != [] { assert s[0] in t; }
    if t != [] { assert t[0] in s; }
  }

  /** Two sorted lists of the same distinct members are one list. */
  lemma {:induction false} SortedListsAgree<T(!new)>(s: seq<T>, t: seq<T>, before: (T, T) -> bool)
    requires WeakOrder(before) && NoTies(s, before) && SameMembers(s, t)
    requires Ascending(s, before) && Ascending(t, before) && NoRepeats(s) && NoRepeats(t)
    ensures s == t
  {
    EmptyAlike(s, t);
    if s != [] {
      assert s[0] in t;
      var i :| 0 <= i < |t| && t[i] == s[0];
      assert t[0] in s;
      var j :| 0 <= j < |s| && s[j] == t[0];
      assert s[0] == t[0];
      forall x ensures x in s[1..] <==> x in t[1..] {
        assert (x in s[1..] <==> x in s && x != s[0]) && (x in t[1..] <==> x in t && x != t[0]);
      }
      SortedListsAgree(s[1..], t[1..], before);
    }
  }

  /** Sorting depends on the members only. */
  lemma SameMembersSortAlike<T(!new)>(s: seq<T>, t: seq<T>, before: (T, T) -> bool)
    requires WeakOrder(before) && NoTies(s, before) && SameMembers(s, t) && NoRepeats(s) && NoRepeats(t)
    ensures Sorted(s, before) == Sorted(t, before)
  {
    SortedIsAscending(s, before);
    SortedIsAscending(t, before);
    SortedKeepsMembers(s, before);
    SortedKeepsMembers(t, before);
    SortedListsAgree(Sorted(s, before), Sorted(t, before), before);
  }

  method Sort<T>(s: seq<T>, before: (T, T) -> bool) returns (r: seq<T>)
    ensures r == Sorted(s, before)
  {
    r := [];
    for i := 0 to |s|
      invariant r == Sorted(s[..i], before)
    {
      assert s[..i + 1][..i] == s[..i];
      r := InsertSorted(r, s[i], before);
    }
    assert s[..|s|] == s;
  }

  // ---------------------------------------------------------------------------------------
  // The best n
  // ---------------------------------------------------------------------------------------

  /** The best n of the items seen: full once one is missing, and each missing one is worse than all of it. */
  ghost predicate IsTop<T(!new)>(kept: set<T>, seen: seq<T>, n: nat, before: (T, T) -> bool) {
    && |kept| <= n && (forall x | x in kept :: x in seen)
    && forall x | x in seen && x !in kept :: |kept| == n && forall k | k in kept :: before(k, x)
  }

  /** What the best n are once x is seen too, when worst is the last of them. */
  ghost function TopWith<T(!new)>(kept: set<T>, n: nat, x: T, worst: T, before: (T, T) -> bool): set<T> {
    if |kept| < n then kept + {x}
    else if before(x, worst) then kept - {worst} + {x}
    else kept
  }

  lemma OfferKeepsTop<T(!new)>(kept: set<T>, seen: seq<T>, n: nat, x: T, worst: T, before: (T, T) -> bool)
    requires WeakOrder(before) && NoTies(seen + [x], before)
    requires IsTop(kept, seen, n, before) && x !in seen && n > 0
    requires kept != {} ==> worst in kept && forall k | k in kept :: !before(worst, k)
    ensures IsTop(TopWith(kept, n, x, worst, before), seen + [x], n, before)
  {
    if |kept| < n {
      assert |kept + {x}| == |kept| + 1;
    } else if before(x, worst) {
      assert |kept - {worst} + {x}| == |kept|;
      forall y, k | y in seen + [x] && y !in kept - {worst} + {x} && k in kept - {worst} + {x} ensures before(k, y) {
        Through(k, worst, y, before);
        assert k in seen + [x] && worst in seen + [x] && y in seen + [x];
      }
    } else {
      assert worst in seen + [x] && x in seen + [x];
      forall k | k in kept ensures before(k, x) {
        Through(k, worst, x, before);
      }
    }
  }

  lemma Through<T(!new)>(a: T, b: T, c: T, before: (T, T) -> bool)
    requires WeakOrder(before)
    ensures !before(b, a) && before(b, c) ==> before(a, c)
    ensures before(a, b) && !before(c, b) ==> before(a, c)
  {
  }

  /** Sorting the best n gives the first n of the sorted whole. */
  lemma TopIsPrefix<T(!new)>(kept: set<T>, cells: seq<T>, seen: seq<T>, n: nat, before: (T, T) -> bool)
    requires WeakOrder(before) && NoTies(seen, before) && NoRepeats(seen) && IsTop(kept, seen, n, before)
    requires multiset(cells) == multiset(kept)
    ensures Sorted(cells, before) == Sorted(seen, before)[..if n < |seen| then n else |seen|]
  {
    var s, a := Sorted(seen, before), Sorted(cells, before);
    SortedIsAscending(seen, before);
    SortedKeepsMembers(seen, before);
    TopCells(kept, cells);
    SortedIsAscending(cells, before);
    SortedKeepsMembers(cells, before);
    SameMembersKeep(seen, s, kept, n, before);
    TopListsAgree(kept, a, s, n, before);
  }

  lemma SameMembersKeep<T(!new)>(s: seq<T>, t: seq<T>, kept: set<T>, n: nat, before: (T, T) -> bool)
    requires SameMembers(s, t) && NoTies(s, before) && IsTop(kept, s, n, before)
    ensures NoTies(t, before) && IsTop(kept, t, n, before)
  {
  }

  lemma TopListsAgree<T(!new)>(kept: set<T>, a: seq<T>, s: seq<T>, n: nat, before: (T, T) -> bool)
    requires WeakOrder(before) && NoTies(s, before) && Ascending(s, before) && NoRepeats(s) && IsTop(kept, s, n, before)
    requires Ascending(a, before) && NoRepeats(a) && forall x :: x in a <==> x in kept
    ensures a == s[..if n < |s| then n else |s|]
  {
    PrefixIsTop(kept, s, n, before);
    SortedListsAgree(a, s[..if n < |s| then n else |s|], before);
  }

  lemma TopCells<T(!new)>(kept: set<T>, cells: seq<T>)
    requires multiset(cells) == multiset(kept)
    ensures NoRepeats(cells) && forall x :: x in cells <==> x in kept
  {
    forall x ensures x in cells <==> x in kept { assert x in multiset(cells) <==> x in multiset(kept); }
    forall x | x in cells ensures multiset(cells)[x] == 1 { assert x in kept; }
    OnceEachMeansNoRepeats(cells);
  }

  lemma PrefixIsTop<T(!new)>(kept: set<T>, s: seq<T>, n: nat, before: (T, T) -> bool)
    requires NoRepeats(s) && Ascending(s, before) && IsTop(kept, s, n, before)
    ensures forall x :: x in s[..if n < |s| then n else |s|] <==> x in kept
  {
    var m := if n < |s| then n else |s|;
    forall j | 0 <= j < m ensures s[j] in kept {
      if s[j] !in kept { KeptComeBefore(kept, s, n, j, before); }
    }
    var first := Members(s[..m]);
    SizeOfMembers(s[..m]);
    SizeOfMembers(s);
    SubsetSize(kept, Members(s));
    assert first <= kept;
    if x :| x in kept && x !in first { Larger(first, kept, x); }
  }

  lemma KeptComeBefore<T(!new)>(kept: set<T>, s: seq<T>, n: nat, j: nat, before: (T, T) -> bool)
    requires NoRepeats(s) && Ascending(s, before) && IsTop(kept, s, n, before) && j < |s| && s[j] !in kept
    ensures |kept| <= j
  {
    forall k | k in kept ensures k in s[..j] {
      var i :| 0 <= i < |s| && s[i] == k;
      assert i < j;
    }
    SizeOfMembers(s[..j]);
    SubsetSize(kept, Members(s[..j]));
  }

  lemma SubsetSize<T>(s: set<T>, t: set<T>)
    requires s <= t
    ensures |s| <= |t|
  {
    assert t == s + (t - s);
  }

  lemma Larger<T>(s: set<T>, t: set<T>, x: T)
    requires s <= t && x in t && x !in s
    ensures |s| < |t|
  {
    assert t == s + (t - s) && x in t - s;
  }

  lemma {:induction false} SizeOfMembers<T(!new)>(s: seq<T>)
    requires NoRepeats(s)
    ensures |Members(s)| == |s|
  {
    if s == [] {
      assert Members(s) == {};
    } else {
      var n := |s| - 1;
      assert s == s[..n] + [s[n]];
      assert Members(s) == Members(s[..n]) + {s[n]};
      SizeOfMembers(s[..n]);
    }
  }

  /** Distinct members of t are no more than t is long. */
  lemma {:induction false} PigeonHole<T(!new)>(s: seq<T>, t: seq<T>)
    requires NoRepeats(s) && forall x | x in s :: x in t
    ensures |s| <= |t|
    decreases |s|
  {
    if s != [] {
      var n := |s| - 1;
      assert s[n] in s;
      var i :| 0 <= i < |t| && t[i] == s[n];
      var rest := t[..i] + t[i + 1..];
      forall x | x in s[..n] ensures x in rest {
        assert x in s;
        assert t == t[..i] + [t[i]] + t[i + 1..];
      }
      PigeonHole(s[..n], rest);
    }
  }

  lemma {:induction false} AtMostMembers<T(!new)>(s: seq<T>, t: set<T>)
    requires NoRepeats(s) && forall x | x in s :: x in t
    ensures |s| <= |t|
  {
    if s != [] { AtMostMembers(s[1..], t - {s[0]}); }
  }

  function Identity(n: nat): (p: seq<nat>)
    ensures |p| == n && forall i | 0 <= i < n :: p[i] == i
  {
    seq(n, (i: nat) => i)
  }
}
