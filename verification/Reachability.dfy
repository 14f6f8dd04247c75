/** Reachability along a successor function, shared by the two graph searches. */
module Reachability {

  ghost predicate IsPath(next: nat -> set<nat>, p: seq<nat>, start: nat, x: nat) {
    if |p| == 0 then false
    else if |p| == 1 then p[0] == x == start
    else p[|p| - 1] == x && x in next(p[|p| - 2]) && IsPath(next, p[..|p| - 1], start, p[|p| - 2])
  }

  ghost predicate Reachable(next: nat -> set<nat>, start: nat, x: nat) {
    exists p :: IsPath(next, p, start, x)
  }

  lemma StartIsReachable(next: nat -> set<nat>, start: nat)
    ensures Reachable(next, start, start)
  {
    assert IsPath(next, [start], start, start);
  }

  lemma NextIsReachable(next: nat -> set<nat>, start: nat, x: nat, y: nat)
    requires Reachable(next, start, x) && y in next(x)
    ensures Reachable(next, start, y)
  {
    var p :| IsPath(next, p, start, x);
    assert (p + [y])[..|p|] == p;
    assert IsPath(next, p + [y], start, y);
  }

  /** A set that holds start and is closed under next holds everything reachable. */
  lemma ClosedHoldsReachable(next: nat -> set<nat>, start: nat, s: set<nat>, x: nat)
    requires start in s && (forall y | y in s :: next(y) <= s) && Reachable(next, start, x)
    ensures x in s
  {
    var p :| IsPath(next, p, start, x);
    ClosedHoldsPath(next, start, s, p, x);
  }

  lemma {:induction false} ClosedHoldsPath(next: nat -> set<nat>, start: nat, s: set<nat>, p: seq<nat>, x: nat)
    requires start in s && (forall y | y in s :: next(y) <= s) && IsPath(next, p, start, x)
    ensures x in s
  {
    if |p| > 1 { ClosedHoldsPath(next, start, s, p[..|p| - 1], p[|p| - 2]); }
  }

  /** x is at most n steps from start. */
  ghost predicate Within(next: nat -> set<nat>, start: nat, n: nat, x: nat) {
    exists p :: IsPath(next, p, start, x) && |p| <= n + 1
  }

  lemma WithinMore(next: nat -> set<nat>, start: nat, n: nat, z: nat, x: nat)
    requires Within(next, start, n, z) && (x in next(z) || x == z)
    ensures Within(next, start, n + 1, x)
  {
    var p :| IsPath(next, p, start, z) && |p| <= n + 1;
    if x != z {
      assert (p + [x])[..|p|] == p;
      assert IsPath(next, p + [x], start, x);
    }
  }

  /** A last step, unless there is none. */
  lemma LastStep(next: nat -> set<nat>, start: nat, n: nat, x: nat) returns (z: nat)
    requires Within(next, start, n, x) && x != start
    ensures n > 0 && Within(next, start, n - 1, z) && x in next(z)
  {
    var p :| IsPath(next, p, start, x) && |p| <= n + 1;
    z := p[|p| - 2];
    assert IsPath(next, p[..|p| - 1], start, z);
  }
}
