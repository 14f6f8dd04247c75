/**
 The update lock over runs of the vacuum protocol, and the run of a vacuum that finds nothing dead:
 it passes every slot and leaves the index as it was.
 */
module VacuumRuns {
  import opened Options
  import opened VacuumProtocol
  import opened VacuumSafety

  // ---------------------------------------------------------------------------------------
  // The update lock
  // ---------------------------------------------------------------------------------------

  /** An exclusive insert is alone, without a repair beside it, and so is a repair of the entry point. */
  ghost predicate Exclusion(s: State) {
    && (forall t | t in s.inserts && s.inserts[t].exclusive ::
          CurrentRepair(s.vacuum) == NoRepair && forall u | u in s.inserts :: u == t)
    && (s.vacuum.RepairEntry? && s.vacuum.repair != NoRepair ==> s.inserts == map[])
  }

  lemma ExclusionInInsert(s: State, e: Step)
    requires IsInsertStep(e) && Enabled(s, e) && Exclusion(s)
    ensures Exclusion(Apply(s, e))
  {
  }

  lemma ExclusionInRepair(s: State, e: Step)
    requires IsRepairStep(e) && Enabled(s, e) && Exclusion(s)
    ensures Exclusion(Apply(s, e))
  {
  }

  lemma ExclusionInScan(s: State, e: Step)
    requires IsScanStep(e) && Enabled(s, e) && Exclusion(s)
    ensures Exclusion(Apply(s, e))
  {
  }

  lemma ExclusionInVacuum(s: State, e: Step)
    requires IsVacuumStep(e) && Enabled(s, e) && Exclusion(s)
    ensures Exclusion(Apply(s, e))
  {
  }

  /** No run breaks the exclusion, so the entry point is only moved by somebody who is alone. */
  lemma {:induction false} ExclusiveAreAlone(s: State, steps: seq<Step>, last: State)
    requires IsRun(s, steps, last) && Exclusion(s)
    ensures Exclusion(last)
    decreases |steps|
  {
    if steps != [] {
      var e := steps[0];
      if IsInsertStep(e) { ExclusionInInsert(s, e); }
      else if IsRepairStep(e) { ExclusionInRepair(s, e); }
      else if IsScanStep(e) { ExclusionInScan(s, e); }
      else { ExclusionInVacuum(s, e); }
      ExclusiveAreAlone(Apply(s, e), steps[1..], last);
    }
  }

  /**
   Except for vacuum's replacement of a deleted one, the entry point gives way only to an element of a higher
   level, and only to somebody who holds the lock alone.
   */
  lemma EntryOnlyRises(s: State, e: Step)
    requires Enabled(s, e) && Apply(s, e).entry != s.entry && !e.EntryReplace?
    ensures Exclusion(s) ==> CurrentRepair(s.vacuum) == NoRepair || s.inserts == map[]
    ensures Apply(s, e).entry.Some?
    ensures s.entry.Some? ==>
              var slots, old', new' := s.slots, s.entry.value, Apply(s, e).entry.value;
              old' in slots && new' in slots && slots[old'].level < slots[new'].level
  {
  }

  // ---------------------------------------------------------------------------------------
  // A vacuum that finds nothing dead
  // ---------------------------------------------------------------------------------------

  /** The index as s has it, with vacuum somewhere on its way and nothing recorded as deleted. */
  ghost predicate Untouched(s: State, s': State) {
    Init(s) && s' == s.(vacuum := s'.vacuum) && DeletedSet(s'.vacuum) == {}
  }

  lemma {:induction false} PassSlots(s: State, s': State, todo: set<nat>) returns (steps: seq<Step>, last: State)
    requires Untouched(s, s') && s'.vacuum.RemoveTids? && s'.vacuum.visited + todo == s.slots.Keys
    requires s'.vacuum.visited !! todo && (s'.vacuum.highest.Some? ==> s'.vacuum.highest.value in s.slots)
    ensures IsRun(s', steps, last) && Untouched(s, last) && last.vacuum.RemoveTids? &&
            last.vacuum.visited == s.slots.Keys
    ensures last.vacuum.highest.Some? ==> last.vacuum.highest.value in s.slots
    ensures forall x | x in todo :: RemoveHeapTids(x, {}) in steps
    decreases todo
  {
    if todo == {} {
      steps, last := [], s';
    } else {
      var x :| x in todo;
      var next := Apply(s', RemoveHeapTids(x, {}));
      NothingRemoved(s, s', x);
      OneStep(s', RemoveHeapTids(x, {}));
      steps, last := PassSlots(s, next, todo - {x});
      RunThen(s', [RemoveHeapTids(x, {})], next, steps, last);
      steps := [RemoveHeapTids(x, {})] + steps;
    }
  }

  lemma NothingRemoved(s: State, s': State, x: nat)
    requires Untouched(s, s') && s'.vacuum.RemoveTids? && x in s.slots && x !in s'.vacuum.visited
    requires s'.vacuum.highest.Some? ==> s'.vacuum.highest.value in s.slots
    ensures var next := Apply(s', RemoveHeapTids(x, {}));
            && Untouched(s, next) && next.vacuum.RemoveTids? && next.vacuum.visited == s'.vacuum.visited + {x}
            && (next.vacuum.highest.Some? ==> next.vacuum.highest.value in s.slots)
  {
    assert s.slots[x].tids - {} == s.slots[x].tids;
    assert s.slots[x := s.slots[x]] == s.slots;
  }

  lemma {:induction false} SkipSlots(s: State, s': State, todo: set<nat>) returns (steps: seq<Step>, last: State)
    requires Untouched(s, s') && s'.vacuum == RepairAll({}, {}, todo, NoRepair) && todo <= s.slots.Keys
    ensures IsRun(s', steps, last) && Untouched(s, last) && last.vacuum == RepairAll({}, {}, {}, NoRepair)
    ensures forall x | x in todo :: SkipUnneeded(x) in steps
    decreases todo
  {
    if todo == {} {
      steps, last := [], s';
    } else {
      var x :| x in todo;
      var next := Apply(s', SkipUnneeded(x));
      OneStep(s', SkipUnneeded(x));
      steps, last := SkipSlots(s, next, todo - {x});
      RunThen(s', [SkipUnneeded(x)], next, steps, last);
      steps := [SkipUnneeded(x)] + steps;
    }
  }

  /** From the end of the first pass to the repair of the entry point. */
  lemma PassHighest(s: State, s': State) returns (last: State)
    requires Untouched(s, s') && s'.vacuum.RemoveTids? && s'.vacuum.visited == s.slots.Keys
    requires s'.vacuum.highest.Some? ==> s'.vacuum.highest.value in s.slots
    ensures IsRun(s', [WaitForInserts, HighestDone], last) && Untouched(s, last)
    ensures last.vacuum.RepairEntry? && last.vacuum.repair == NoRepair
  {
    var s1 := Apply(s', WaitForInserts);
    last := Apply(s1, HighestDone);
    TwoSteps(s', WaitForInserts, s1, HighestDone, last);
  }

  /** From there to the elements that the repair pass looks at. */
  lemma PassEntryPoint(s: State, s': State) returns (last: State)
    requires Untouched(s, s') && s'.vacuum.RepairEntry? && s'.vacuum.repair == NoRepair
    ensures IsRun(s', [EntryDone, LoadPage(s.slots.Keys)], last) && Untouched(s, last)
    ensures last.vacuum == RepairAll({}, {}, s.slots.Keys, NoRepair)
  {
    var s1 := Apply(s', EntryDone);
    assert s.slots.Keys * LiveSet(s.slots) == s.slots.Keys;
    last := Apply(s1, LoadPage(s.slots.Keys));
    TwoSteps(s', EntryDone, s1, LoadPage(s.slots.Keys), last);
  }

  lemma Finish(s: State, s': State)
    requires Untouched(s, s') && s'.vacuum == RepairAll({}, {}, {}, NoRepair)
    ensures IsRun(s', [WaitForScans, VacuumEnd], s)
  {
    assert s.slots.Keys - LiveSet(s.slots) == {};
    TwoSteps(s', WaitForScans, Apply(s', WaitForScans), VacuumEnd, s);
  }

  lemma Begin(s: State) returns (steps: seq<Step>, last: State)
    requires Init(s)
    ensures IsRun(s, steps, last) && Untouched(s, last) && last.vacuum.RemoveTids? &&
            last.vacuum.visited == s.slots.Keys
    ensures last.vacuum.highest.Some? ==> last.vacuum.highest.value in s.slots
    ensures forall x | x in s.slots :: RemoveHeapTids(x, {}) in steps
  {
    var s1 := Apply(s, VacuumStart);
    OneStep(s, VacuumStart);
    steps, last := PassSlots(s, s1, s.slots.Keys);
    RunThen(s, [VacuumStart], s1, steps, last);
    steps := [VacuumStart] + steps;
  }

  lemma FourRuns(s: State, a: seq<Step>, s1: State, b: seq<Step>, s2: State, c: seq<Step>, s3: State, d: seq<Step>,
                 last: State)
    requires IsRun(s, a, s1) && IsRun(s1, b, s2) && IsRun(s2, c, s3) && IsRun(s3, d, last)
    ensures IsRun(s, (a + b) + (c + d), last)
  {
    RunThen(s, a, s1, b, s2);
    RunThen(s2, c, s3, d, last);
    RunThen(s, a + b, s2, c + d, last);
  }

  /** With nothing dead, vacuum can pass every slot without a repair and ends with the index that it found. */
  lemma CleanVacuum(s: State) returns (steps: seq<Step>)
    requires Init(s)
    ensures IsRun(s, steps, s) && WaitForScans in steps
    ensures forall x | x in s.slots :: RemoveHeapTids(x, {}) in steps && SkipUnneeded(x) in steps
  {
    var pass, s1 := Begin(s);
    var s2 := PassHighest(s, s1);
    var s3 := PassEntryPoint(s, s2);
    var skip, s4 := SkipSlots(s, s3, s.slots.Keys);
    Finish(s, s4);
    var on := [EntryDone, LoadPage(s.slots.Keys)];
    RunThen(s2, on, s3, skip, s4);
    FourRuns(s, pass, s1, [WaitForInserts, HighestDone], s2, on + skip, s4, [WaitForScans, VacuumEnd], s);
    steps := (pass + [WaitForInserts, HighestDone]) + ((on + skip) + [WaitForScans, VacuumEnd]);
  }
}
