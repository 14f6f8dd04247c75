/**
 What vacuum, inserts and duplicates do to heap TIDs: which TIDs a slot holds after a step, after a
 run and after the first pass, and which element the first pass remembers as the highest one.
 */
module VacuumTids {
  import opened Options
  import opened VacuumProtocol
  import opened VacuumSafety

  function TidsAt(slots: map<nat, Element>, x: nat): set<nat> {
    if x in slots then slots[x].tids else {}
  }

  /** Freed slots hold no heap TIDs. */
  ghost predicate FreedAreEmpty(slots: map<nat, Element>) {
    forall x | x in slots && slots[x].freed :: slots[x].tids == {}
  }

  /** Vacuum is at slot x and the callback declares the TID dead. */
  predicate Removes(e: Step, x: nat, tid: nat) {
    e.RemoveHeapTids? && e.x == x && tid in e.dead
  }

  /** An insert writes its element to slot x, or adds its TID to the duplicate there. */
  predicate Brings(s: State, e: Step, x: nat, tid: nat)
    requires Enabled(s, e)
  {
    match e
    case InsertAdd(t, slot, _, _) => slot == x && s.inserts[t].tid == tid
    case InsertDuplicate(t, y) => y == x && s.inserts[t].tid == tid
    case _ => false
  }

  lemma FreedStayEmptyInInsert(s: State, e: Step)
    requires IsInsertStep(e) && Enabled(s, e) && FreedAreEmpty(s.slots)
    ensures FreedAreEmpty(Apply(s, e).slots)
  {
  }

  lemma FreedStayEmptyInRepair(s: State, e: Step)
    requires IsRepairStep(e) && Enabled(s, e) && FreedAreEmpty(s.slots)
    ensures FreedAreEmpty(Apply(s, e).slots)
  {
  }

  lemma FreedStayEmptyInScan(s: State, e: Step)
    requires IsScanStep(e) && Enabled(s, e) && FreedAreEmpty(s.slots)
    ensures FreedAreEmpty(Apply(s, e).slots)
  {
  }

  lemma FreedStayEmptyInVacuum(s: State, e: Step)
    requires IsVacuumStep(e) && Enabled(s, e) && FreedAreEmpty(s.slots)
    ensures FreedAreEmpty(Apply(s, e).slots)
  {
  }

  lemma FreedStayEmpty(s: State, e: Step)
    requires Enabled(s, e) && FreedAreEmpty(s.slots)
    ensures FreedAreEmpty(Apply(s, e).slots)
  {
    if IsInsertStep(e) {
      FreedStayEmptyInInsert(s, e);
    } else if IsRepairStep(e) {
      FreedStayEmptyInRepair(s, e);
    } else if IsScanStep(e) {
      FreedStayEmptyInScan(s, e);
    } else {
      FreedStayEmptyInVacuum(s, e);
    }
  }

  lemma TidsInInsert(s: State, e: Step, x: nat, tid: nat)
    requires IsInsertStep(e) && Enabled(s, e) && FreedAreEmpty(s.slots)
    ensures tid in TidsAt(Apply(s, e).slots, x) <==>
            Brings(s, e, x, tid) || (tid in TidsAt(s.slots, x) && !Removes(e, x, tid))
  {
  }

  lemma TidsInRepair(s: State, e: Step, x: nat, tid: nat)
    requires IsRepairStep(e) && Enabled(s, e) && FreedAreEmpty(s.slots)
    ensures tid in TidsAt(Apply(s, e).slots, x) <==>
            Brings(s, e, x, tid) || (tid in TidsAt(s.slots, x) && !Removes(e, x, tid))
  {
  }

  lemma TidsInScan(s: State, e: Step, x: nat, tid: nat)
    requires IsScanStep(e) && Enabled(s, e) && FreedAreEmpty(s.slots)
    ensures tid in TidsAt(Apply(s, e).slots, x) <==>
            Brings(s, e, x, tid) || (tid in TidsAt(s.slots, x) && !Removes(e, x, tid))
  {
  }

  lemma TidsInVacuum(s: State, e: Step, x: nat, tid: nat)
    requires IsVacuumStep(e) && Enabled(s, e) && FreedAreEmpty(s.slots)
    ensures tid in TidsAt(Apply(s, e).slots, x) <==>
            Brings(s, e, x, tid) || (tid in TidsAt(s.slots, x) && !Removes(e, x, tid))
  {
  }

  /** The TIDs of every slot after every step: those declared dead go, those brought come, all others stay. */
  lemma TidsAfterStep(s: State, e: Step, x: nat, tid: nat)
    requires Enabled(s, e) && FreedAreEmpty(s.slots)
    ensures tid in TidsAt(Apply(s, e).slots, x) <==>
            Brings(s, e, x, tid) || (tid in TidsAt(s.slots, x) && !Removes(e, x, tid))
  {
    if IsInsertStep(e) {
      TidsInInsert(s, e, x, tid);
    } else if IsRepairStep(e) {
      TidsInRepair(s, e, x, tid);
    } else if IsScanStep(e) {
      TidsInScan(s, e, x, tid);
    } else {
      TidsInVacuum(s, e, x, tid);
    }
  }

  /** Passing a slot changes its TIDs only, and no other slot. */
  lemma RemoveHeapTidsChangesTids(s: State, x: nat, dead: set<nat>)
    requires Enabled(s, RemoveHeapTids(x, dead))
    ensures var slots := Apply(s, RemoveHeapTids(x, dead)).slots;
            && slots.Keys == s.slots.Keys
            && (forall tid :: tid in slots[x].tids <==> tid in s.slots[x].tids && tid !in dead)
            && slots[x].freed == s.slots[x].freed && slots[x].nbrs == s.slots[x].nbrs
            && slots[x].level == s.slots[x].level
            && forall y | y in s.slots && y != x :: slots[y] == s.slots[y]
  {
  }

  /** Some step of the run brings the TID to slot x. */
  ghost predicate Brought(s: State, steps: seq<Step>, x: nat, tid: nat)
    decreases |steps|
  {
    && steps != [] && Enabled(s, steps[0])
    && (Brings(s, steps[0], x, tid) || Brought(Apply(s, steps[0]), steps[1..], x, tid))
  }

  ghost predicate NeverDead(steps: seq<Step>, x: nat, tid: nat) {
    forall e | e in steps :: !Removes(e, x, tid)
  }

  /** A TID stays in its slot through any run in which it is not declared dead there. */
  lemma {:induction false} LivingTidStays(s: State, steps: seq<Step>, last: State, x: nat, tid: nat)
    requires IsRun(s, steps, last) && FreedAreEmpty(s.slots) && tid in TidsAt(s.slots, x) && NeverDead(steps, x, tid)
    ensures tid in TidsAt(last.slots, x)
    decreases |steps|
  {
    if steps != [] {
      TidsAfterStep(s, steps[0], x, tid);
      FreedStayEmpty(s, steps[0]);
      assert steps[0] in steps;
      LivingTidStays(Apply(s, steps[0]), steps[1..], last, x, tid);
    }
  }

  /** A TID that a run brings to a slot is there at the end, unless it is declared dead there. */
  lemma {:induction false} BroughtTidStays(s: State, steps: seq<Step>, last: State, x: nat, tid: nat)
    requires IsRun(s, steps, last) && FreedAreEmpty(s.slots) && Brought(s, steps, x, tid) && NeverDead(steps, x, tid)
    ensures tid in TidsAt(last.slots, x)
    decreases |steps|
  {
    var s' := Apply(s, steps[0]);
    TidsAfterStep(s, steps[0], x, tid);
    FreedStayEmpty(s, steps[0]);
    if Brings(s, steps[0], x, tid) {
      LivingTidStays(s', steps[1..], last, x, tid);
    } else {
      BroughtTidStays(s', steps[1..], last, x, tid);
    }
  }

  /** A TID is in a slot after a run only if it was there before or was brought there. */
  lemma {:induction false} NoTidFromNowhere(s: State, steps: seq<Step>, last: State, x: nat, tid: nat)
    requires IsRun(s, steps, last) && FreedAreEmpty(s.slots) && tid in TidsAt(last.slots, x)
    ensures tid in TidsAt(s.slots, x) || Brought(s, steps, x, tid)
    decreases |steps|
  {
    if steps != [] {
      TidsAfterStep(s, steps[0], x, tid);
      FreedStayEmpty(s, steps[0]);
      NoTidFromNowhere(Apply(s, steps[0]), steps[1..], last, x, tid);
    }
  }

  /** A TID declared dead where vacuum passes its slot is there again only if it was brought later. */
  lemma DeadTidIsGone(s: State, x: nat, dead: set<nat>, tid: nat, steps: seq<Step>, last: State)
    requires FreedAreEmpty(s.slots) && Enabled(s, RemoveHeapTids(x, dead)) && tid in dead
    requires IsRun(Apply(s, RemoveHeapTids(x, dead)), steps, last) && tid in TidsAt(last.slots, x)
    ensures Brought(Apply(s, RemoveHeapTids(x, dead)), steps, x, tid)
  {
    TidsAfterStep(s, RemoveHeapTids(x, dead), x, tid);
    FreedStayEmpty(s, RemoveHeapTids(x, dead));
    NoTidFromNowhere(Apply(s, RemoveHeapTids(x, dead)), steps, last, x, tid);
  }

  // ---------------------------------------------------------------------------------------
  // The first pass
  // ---------------------------------------------------------------------------------------

  /** The steps of a first pass whose callback declares at least the TIDs of dead dead. */
  ghost predicate InFirstPass(steps: seq<Step>, dead: set<nat>) {
    forall e | e in steps :: !e.VacuumStart? && !e.VacuumEnd? && !e.WaitForInserts? &&
                             (e.RemoveHeapTids? ==> dead <= e.dead)
  }

  lemma VisitedStep(s: State, e: Step, x: nat)
    requires Enabled(s, e) && s.vacuum.RemoveTids? && !e.VacuumEnd? && !e.WaitForInserts?
    ensures var v := Apply(s, e).vacuum;
            && v.RemoveTids? && v.oldEntry == s.vacuum.oldEntry
            && (x in v.visited && x !in s.vacuum.visited ==>
                  (e.RemoveHeapTids? && e.x == x) || (e.InsertAdd? && e.slot == x && x !in s.slots))
  {
  }

  /** Once the first pass has come to all slots, the dead TIDs left are those brought meanwhile. */
  lemma {:induction false} FirstPassRemoves(s: State, steps: seq<Step>, last: State, dead: set<nat>, x: nat, tid: nat)
    requires IsRun(s, steps, last) && FreedAreEmpty(s.slots) && s.vacuum.RemoveTids? && InFirstPass(steps, dead)
    requires tid in dead && tid in TidsAt(last.slots, x) && last.vacuum.RemoveTids? && x in last.vacuum.visited
    ensures Brought(s, steps, x, tid) || (x in s.vacuum.visited && tid in TidsAt(s.slots, x))
    decreases |steps|
  {
    if steps != [] {
      var e := steps[0];
      assert e in steps;
      TidsAfterStep(s, e, x, tid);
      FreedStayEmpty(s, e);
      VisitedStep(s, e, x);
      FirstPassRemoves(Apply(s, e), steps[1..], last, dead, x, tid);
    }
  }

  /**
   The whole first pass: when vacuum goes on to its repairs, no slot holds a TID of dead that was not
   brought since.
   */
  lemma FirstPassIsComplete(s: State, steps: seq<Step>, last: State, dead: set<nat>, x: nat, tid: nat)
    requires Enabled(s, VacuumStart) && FreedAreEmpty(s.slots) && InFirstPass(steps, dead)
    requires IsRun(Apply(s, VacuumStart), steps, last) && Enabled(last, WaitForInserts)
    requires tid in dead && tid in TidsAt(last.slots, x)
    ensures Brought(Apply(s, VacuumStart), steps, x, tid)
  {
    FreedStayEmpty(s, VacuumStart);
    FirstPassRemoves(Apply(s, VacuumStart), steps, last, dead, x, tid);
  }

  /** Some step of the run passes slot x and leaves it without TIDs. */
  ghost predicate Emptying(s: State, steps: seq<Step>, x: nat)
    decreases |steps|
  {
    && steps != [] && Enabled(s, steps[0])
    && (EmptiesSlot(s, steps[0], x) || Emptying(Apply(s, steps[0]), steps[1..], x))
  }

  predicate EmptiesSlot(s: State, e: Step, x: nat)
    requires Enabled(s, e)
  {
    e.RemoveHeapTids? && e.x == x && s.slots[x].tids <= e.dead
  }

  lemma RecordedStep(s: State, e: Step, x: nat)
    requires Enabled(s, e) && x in DeletedSet(Apply(s, e).vacuum)
    ensures x in DeletedSet(s.vacuum) || EmptiesSlot(s, e, x)
  {
    if e.RemoveHeapTids? {
      assert s.slots[e.x].tids <= (s.slots[e.x].tids - e.dead) + e.dead;
    }
  }

  /** The list of deleted elements holds only slots that vacuum itself has found without TIDs. */
  lemma {:induction false} OnlyEmptyOnesAreRecorded(s: State, steps: seq<Step>, last: State, x: nat)
    requires IsRun(s, steps, last) && x in DeletedSet(last.vacuum)
    ensures x in DeletedSet(s.vacuum) || Emptying(s, steps, x)
    decreases |steps|
  {
    if steps != [] {
      OnlyEmptyOnesAreRecorded(Apply(s, steps[0]), steps[1..], last, x);
      if x in DeletedSet(Apply(s, steps[0]).vacuum) { RecordedStep(s, steps[0], x); }
    }
  }

  // ---------------------------------------------------------------------------------------
  // The highest point
  // ---------------------------------------------------------------------------------------

  /** The highest point is at least as high as the given level, and not the entry point that vacuum began with. */
  ghost predicate HighestReaches(s: State, level: nat) {
    && s.vacuum.RemoveTids? && s.vacuum.highest.Some? && s.vacuum.highest != s.vacuum.oldEntry
    && Live(s.slots, s.vacuum.highest.value) && s.slots[s.vacuum.highest.value].level >= level
  }

  /** While the first pass is on, vacuum repairs nothing. */
  lemma NoRepairYet(s: State, e: Step)
    requires Enabled(s, e) && s.vacuum.RemoveTids?
    ensures !IsRepairStep(e)
  {
  }

  lemma StaysHighInInsert(s: State, e: Step, level: nat)
    requires IsInsertStep(e) && Inv(s) && Enabled(s, e) && HighestReaches(s, level) && !e.VacuumEnd? &&
             !e.WaitForInserts?
    ensures HighestReaches(Apply(s, e), level) && Apply(s, e).skipped == s.skipped
  {
  }

  lemma StaysHighInScan(s: State, e: Step, level: nat)
    requires IsScanStep(e) && Inv(s) && Enabled(s, e) && HighestReaches(s, level) && !e.VacuumEnd? && !e.WaitForInserts?
    ensures HighestReaches(Apply(s, e), level) && Apply(s, e).skipped == s.skipped
  {
  }

  lemma StaysHighInVacuum(s: State, e: Step, level: nat)
    requires IsVacuumStep(e) && Inv(s) && Enabled(s, e) && HighestReaches(s, level) && !e.VacuumEnd? &&
             !e.WaitForInserts?
    ensures HighestReaches(Apply(s, e), level) && Apply(s, e).skipped == s.skipped
  {
  }

  lemma HighestStaysHigh(s: State, e: Step, level: nat)
    requires Inv(s) && Enabled(s, e) && HighestReaches(s, level) && !e.VacuumEnd? && !e.WaitForInserts?
    ensures HighestReaches(Apply(s, e), level) && Apply(s, e).skipped == s.skipped
  {
    NoRepairYet(s, e);
    if IsInsertStep(e) {
      StaysHighInInsert(s, e, level);
    } else if IsScanStep(e) {
      StaysHighInScan(s, e, level);
    } else {
      StaysHighInVacuum(s, e, level);
    }
  }

  /** An element that keeps TIDs, other than the old entry point, is no higher than the highest point then. */
  lemma PassedIsNotHigher(s: State, x: nat, dead: set<nat>)
    requires Inv(s) && Enabled(s, RemoveHeapTids(x, dead)) && s.vacuum.oldEntry != Some(x)
    requires (s.vacuum.highest.Some? ==> s.vacuum.highest != s.vacuum.oldEntry) && !(s.slots[x].tids <= dead)
    ensures HighestReaches(Apply(s, RemoveHeapTids(x, dead)), s.slots[x].level)
  {
    var tid :| tid in s.slots[x].tids && tid !in dead;
    assert tid in s.slots[x].tids - dead;
  }

  /** The highest point is an element that was passed, never the old entry point. */
  lemma HighestWasPassed(s: State, e: Step)
    requires Enabled(s, e) && s.vacuum.RemoveTids? && Apply(s, e).vacuum.RemoveTids? && !e.VacuumStart?
    requires s.vacuum.highest.Some? ==> s.vacuum.highest != s.vacuum.oldEntry
    ensures var v := Apply(s, e).vacuum;
            && (v.highest.Some? ==> v.highest != v.oldEntry)
            && (v.highest == s.vacuum.highest || (e.RemoveHeapTids? && v.highest == Some(e.x)))
  {
  }

  lemma {:induction false} HighestStays(s: State, steps: seq<Step>, last: State, level: nat)
    requires IsRun(s, steps, last) && InFirstPass(steps, {}) && Inv(s) && !s.skipped && HighestReaches(s, level)
    ensures HighestReaches(last, level)
    decreases |steps|
  {
    if steps != [] {
      assert steps[0] in steps;
      HighestStaysHigh(s, steps[0], level);
      InvStep(s, steps[0]);
      HighestStays(Apply(s, steps[0]), steps[1..], last, level);
    }
  }

  /** No element that the first pass leaves with TIDs is higher than its highest point, but for the old entry point. */
  lemma HighestIsHighest(s: State, x: nat, dead: set<nat>, steps: seq<Step>, last: State)
    requires Inv(s) && !s.skipped && Enabled(s, RemoveHeapTids(x, dead)) && !(s.slots[x].tids <= dead)
    requires s.vacuum.oldEntry != Some(x) && (s.vacuum.highest.Some? ==> s.vacuum.highest != s.vacuum.oldEntry)
    requires IsRun(Apply(s, RemoveHeapTids(x, dead)), steps, last) && InFirstPass(steps, {})
    ensures HighestReaches(last, s.slots[x].level)
  {
    PassedIsNotHigher(s, x, dead);
    InvStep(s, RemoveHeapTids(x, dead));
    HighestStays(Apply(s, RemoveHeapTids(x, dead)), steps, last, s.slots[x].level);
  }
}
