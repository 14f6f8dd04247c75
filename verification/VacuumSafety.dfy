/**
 What every run of the vacuum protocol keeps: a freed slot is not named by a live element, by the
 entry point, by an in-flight insert or by a scan, unless a repair of the highest point was skipped.
 */
module VacuumSafety {
  import opened Options
  import opened VacuumProtocol

  // ---------------------------------------------------------------------------------------
  // The invariant
  // ---------------------------------------------------------------------------------------

  function RepairSlots(r: Repair): set<nat> {
    match r
    case NoRepair => {}
    case Finding(x, cand) => {x} + cand
    case Written(x, chosen) => {x} + chosen
  }

  function InsertSlots(i: Insert): set<nat> {
    match i
    case Searching(_, _, _, cand) => cand
    case Linking(_, slot, chosen) => {slot} + chosen
  }

  function OptionSet(o: Option<nat>): set<nat> {
    if o.None? then {} else {o.value}
  }

  /** Names are slots. */
  ghost predicate Names(s: State) {
    && (forall x | x in s.slots :: s.slots[x].nbrs <= s.slots.Keys)
    && OptionSet(s.entry) <= s.slots.Keys
    && (forall t | t in s.inserts :: InsertSlots(s.inserts[t]) <= s.slots.Keys)
    && (forall c | c in s.scans :: s.scans[c] <= s.slots.Keys)
    && s.unlinked <= s.slots.Keys
  }

  /** Unlinked slots are empty, freed ones are unlinked, and nothing outside names them. */
  ghost predicate Unlinked(s: State) {
    && (forall x | x in s.unlinked :: !Live(s.slots, x))
    && (forall x | x in s.slots && s.slots[x].freed :: x in s.unlinked)
    && (forall x | x in s.slots && x !in s.unlinked :: s.slots[x].nbrs !! s.unlinked)
    && OptionSet(s.entry) !! s.unlinked
    && (forall t | t in s.inserts :: InsertSlots(s.inserts[t]) !! s.unlinked)
    && (forall c | c in s.scans :: s.scans[c] !! s.unlinked)
  }

  predicate Repairing(v: Vacuum) { v.RepairHighest? || v.RepairEntry? || v.RepairAll? }

  /** Every neighbour of x still has heap TIDs. */
  ghost predicate Clean(slots: map<nat, Element>, x: nat) {
    x in slots ==> slots[x].nbrs <= LiveSet(slots)
  }

  ghost predicate CleanOption(slots: map<nat, Element>, o: Option<nat>) {
    o.Some? ==> Clean(slots, o.value)
  }

  /** While RemoveHeapTids runs, it has recorded every empty slot it passed. */
  ghost predicate Removing(s: State) {
    s.vacuum.RemoveTids? ==>
      && (forall x | x in s.vacuum.visited && x in s.slots && !Live(s.slots, x) :: x in s.vacuum.deleted)
      && s.vacuum.deleted <= s.vacuum.visited
      && OptionSet(s.vacuum.highest) <= LiveSet(s.slots) * s.vacuum.visited - s.vacuum.deleted
  }

  /** After the barrier, whatever inserts and repairs hold has heap TIDs, and all empty slots are recorded. */
  ghost predicate Settled(s: State) {
    Repairing(s.vacuum) ==>
      && s.slots.Keys - LiveSet(s.slots) <= s.vacuum.deleted
      && (forall t | t in s.inserts :: InsertSlots(s.inserts[t]) <= LiveSet(s.slots))
      && RepairSlots(s.vacuum.repair) <= LiveSet(s.slots)
      && (s.vacuum.RepairEntry? && !s.vacuum.repair.NoRepair? ==> NoInserts(s))
      && (if s.vacuum.RepairAll? then s.vacuum.loaded <= LiveSet(s.slots)
          else OptionSet(s.vacuum.highest) <= LiveSet(s.slots) - s.vacuum.deleted)
  }

  /** After the barrier, an element just added names live slots only. */
  ghost predicate NewElementsClean(s: State) {
    Repairing(s.vacuum) ==>
      forall t | t in s.inserts && s.inserts[t].Linking? :: Clean(s.slots, s.inserts[t].slot)
  }

  /** Elements yet to be handled by the repair pass. */
  function Todo(slots: map<nat, Element>, v: Vacuum): set<nat> {
    match v
    case RepairAll(_, pending, loaded, repair) =>
      pending + loaded + (if repair.Finding? then {repair.x} else {})
    case _ => slots.Keys
  }

  ghost predicate AllDoneClean(slots: map<nat, Element>, v: Vacuum) {
    forall x {:trigger Clean(slots, x)} | Live(slots, x) && x !in Todo(slots, v) :: Clean(slots, x)
  }

  /** What the repair pass has achieved so far. */
  ghost predicate Repaired(slots: map<nat, Element>, entry: Option<nat>, v: Vacuum) {
    match v
    case RepairHighest(_, highest, repair) =>
      && (repair.NoRepair? || highest == Some(repair.x))
      && (repair.Written? ==> Clean(slots, repair.x))
    case RepairEntry(_, highest, repair) =>
      && CleanOption(slots, highest)
      && (repair.NoRepair? || entry == Some(repair.x))
      && (repair.Written? ==> Clean(slots, repair.x))
    case RepairAll(_, pending, loaded, repair) =>
      && OptionSet(entry) <= LiveSet(slots) && CleanOption(slots, entry)
      && (repair.Written? ==> Clean(slots, repair.x))
      && AllDoneClean(slots, v)
    case _ => true
  }

  /** Once elements are being freed, every empty slot is unlinked. */
  ghost predicate Freeing(s: State) {
    s.vacuum.Free? ==> s.slots.Keys - LiveSet(s.slots) <= s.unlinked
  }

  ghost predicate Inv(s: State) {
    && Names(s) && Unlinked(s) && Removing(s) && Settled(s) && NewElementsClean(s)
    && Repaired(s.slots, s.entry, s.vacuum) && Freeing(s)
  }

  lemma InitInv(s: State)
    requires Init(s)
    ensures Inv(s)
  {
  }

  // ---------------------------------------------------------------------------------------
  // Preservation, one conjunct at a time
  // ---------------------------------------------------------------------------------------

  predicate IsInsertStep(e: Step) {
    || e.InsertStart? || e.InsertLoad? || e.InsertDuplicate? || e.InsertAdd? || e.InsertLink? || e.InsertEntry?
    || e.InsertEnd?
  }

  /** The steps of RepairGraphElement. */
  predicate IsRepairStep(e: Step) {
    e.RepairLoad? || e.RepairWrite? || e.RepairLink? || e.RepairSetEntry? || e.RepairEnd?
  }

  predicate IsScanStep(e: Step) { e.ScanStart? || e.ScanRead? || e.ScanEnd? }

  /** What vacuum does outside of RepairGraphElement. */
  predicate IsVacuumStep(e: Step) {
    !IsInsertStep(e) && !IsRepairStep(e) && !IsScanStep(e)
  }

  /** Only RemoveHeapTids takes heap TIDs away, and only a freed slot ever gains its first ones. */
  lemma LiveGrows(s: State, e: Step)
    requires Enabled(s, e) && !e.RemoveHeapTids?
    ensures LiveSet(s.slots) <= LiveSet(Apply(s, e).slots)
    ensures !e.InsertAdd? ==> LiveSet(s.slots) == LiveSet(Apply(s, e).slots)
    ensures e.InsertAdd? ==> LiveSet(Apply(s, e).slots) == LiveSet(s.slots) + {e.slot}
  {
    if IsInsertStep(e) {
      LiveGrowsByInsert(s, e);
    } else if IsRepairStep(e) {
      LiveStaysInRepair(s, e);
    } else if IsVacuumStep(e) {
      LiveStaysInVacuum(s, e);
    }
  }

  lemma LiveGrowsByInsert(s: State, e: Step)
    requires Enabled(s, e) && IsInsertStep(e)
    ensures !e.InsertAdd? ==> LiveSet(s.slots) == LiveSet(Apply(s, e).slots)
    ensures e.InsertAdd? ==> LiveSet(Apply(s, e).slots) == LiveSet(s.slots) + {e.slot}
  {
    if e.InsertDuplicate? {
      assert s.slots[e.y].tids != {} && (s.slots[e.y].tids + {s.inserts[e.t].tid}) != {};
    }
  }

  lemma LiveStaysInRepair(s: State, e: Step)
    requires Enabled(s, e) && IsRepairStep(e)
    ensures LiveSet(s.slots) == LiveSet(Apply(s, e).slots)
  {
  }

  lemma LiveStaysInVacuum(s: State, e: Step)
    requires Enabled(s, e) && IsVacuumStep(e) && !e.RemoveHeapTids?
    ensures LiveSet(s.slots) == LiveSet(Apply(s, e).slots)
  {
  }

  lemma NamesStep(s: State, e: Step)
    requires Inv(s) && Enabled(s, e)
    ensures Names(Apply(s, e))
  {
    if IsInsertStep(e) {
      NamesInsertStep(s, e);
    } else if IsRepairStep(e) {
      NamesRepairStep(s, e);
    } else if IsVacuumStep(e) {
      NamesVacuumStep(s, e);
    }
  }

  lemma NamesInsertStep(s: State, e: Step)
    requires Inv(s) && Enabled(s, e) && IsInsertStep(e)
    ensures Names(Apply(s, e))
  {
  }

  lemma NamesRepairStep(s: State, e: Step)
    requires Inv(s) && Enabled(s, e) && IsRepairStep(e)
    ensures Names(Apply(s, e))
  {
    assert LiveSet(s.slots) <= s.slots.Keys;
  }

  lemma NamesVacuumStep(s: State, e: Step)
    requires Inv(s) && Enabled(s, e) && IsVacuumStep(e)
    ensures Names(Apply(s, e))
  {
    assert LiveSet(s.slots) <= s.slots.Keys;
  }

  lemma UnlinkedStep(s: State, e: Step)
    requires Inv(s) && Enabled(s, e)
    ensures Unlinked(Apply(s, e))
  {
    if IsInsertStep(e) {
      UnlinkedInsertStep(s, e);
    } else if IsRepairStep(e) {
      UnlinkedRepairStep(s, e);
    } else if IsScanStep(e) {
      UnlinkedScanStep(s, e);
    } else if e.WaitForScans? {
      CutOff(s, e);
    } else {
      UnlinkedVacuumStep(s, e);
    }
  }

  lemma UnlinkedInsertStep(s: State, e: Step)
    requires Inv(s) && Enabled(s, e) && IsInsertStep(e)
    ensures Unlinked(Apply(s, e))
  {
  }

  lemma UnlinkedWithNbrs(s: State, x: nat, nbrs: set<nat>)
    requires Unlinked(s) && x in s.slots && nbrs !! s.unlinked
    ensures Unlinked(s.(slots := WithNbrs(s, x, nbrs)))
  {
  }

  lemma UnlinkedRepairStep(s: State, e: Step)
    requires Inv(s) && Enabled(s, e) && IsRepairStep(e)
    ensures Unlinked(Apply(s, e))
  {
    assert s.unlinked !! LiveSet(s.slots);
    if e.RepairWrite? {
      UnlinkedWithNbrs(s, CurrentRepair(s.vacuum).x, e.chosen);
    } else if e.RepairLink? {
      UnlinkedWithNbrs(s, e.y, s.slots[e.y].nbrs - e.evicted + {CurrentRepair(s.vacuum).x});
    }
  }

  lemma UnlinkedScanStep(s: State, e: Step)
    requires Inv(s) && Enabled(s, e) && IsScanStep(e)
    ensures Unlinked(Apply(s, e))
  {
  }

  lemma UnlinkedVacuumStep(s: State, e: Step)
    requires Inv(s) && Enabled(s, e) && IsVacuumStep(e) && !e.WaitForScans?
    ensures Unlinked(Apply(s, e))
  {
    assert s.unlinked !! LiveSet(s.slots);
  }

  /** At the scan barrier the live slots are closed under naming, so the empty ones can be cut off. */
  lemma CutOff(s: State, e: Step)
    requires Inv(s) && Enabled(s, e) && e.WaitForScans?
    ensures Unlinked(Apply(s, e))
  {
    assert s.unlinked !! LiveSet(s.slots);
    assert forall x | x in LiveSet(s.slots) :: Live(s.slots, x) && Clean(s.slots, x);
  }

  lemma RemovingStep(s: State, e: Step)
    requires Inv(s) && Enabled(s, e) && !Apply(s, e).skipped
    ensures Removing(Apply(s, e))
  {
    if e.RemoveHeapTids? { RemovingTids(s, e); } else { LiveGrows(s, e); }
  }

  lemma RemovingTids(s: State, e: Step)
    requires Inv(s) && Enabled(s, e) && e.RemoveHeapTids?
    ensures Removing(Apply(s, e))
  {
  }

  lemma SettledStep(s: State, e: Step)
    requires Inv(s) && Enabled(s, e)
    ensures Settled(Apply(s, e))
  {
    if IsInsertStep(e) {
      SettledInsertStep(s, e);
    } else if IsRepairStep(e) {
      SettledRepairStep(s, e);
    } else if IsVacuumStep(e) {
      SettledVacuumStep(s, e);
    }
  }

  lemma SettledInsertStep(s: State, e: Step)
    requires Inv(s) && Enabled(s, e) && IsInsertStep(e)
    ensures Settled(Apply(s, e))
  {
    LiveGrows(s, e);
  }

  lemma SettledRepairStep(s: State, e: Step)
    requires Inv(s) && Enabled(s, e) && IsRepairStep(e)
    ensures Settled(Apply(s, e))
  {
    LiveGrows(s, e);
  }

  lemma SettledVacuumStep(s: State, e: Step)
    requires Inv(s) && Enabled(s, e) && IsVacuumStep(e)
    ensures Settled(Apply(s, e))
  {
    if !e.RemoveHeapTids? { LiveGrows(s, e); }
  }

  lemma FreeingStep(s: State, e: Step)
    requires Inv(s) && Enabled(s, e) && !Apply(s, e).skipped
    ensures Freeing(Apply(s, e))
  {
    if !e.RemoveHeapTids? { LiveGrows(s, e); }
  }

  /** An element that names no recorded slot names no empty one. */
  lemma UnneededIsClean(s: State, x: nat)
    requires Inv(s) && Repairing(s.vacuum) && x in s.slots && !NamesDeleted(s, x)
    ensures Clean(s.slots, x)
  {
    forall y | y in s.slots[x].nbrs
      ensures y in LiveSet(s.slots)
    {
      assert y in s.slots.Keys;
      assert y !in s.slots[x].nbrs * s.vacuum.deleted;
    }
  }

  /** The slots an enabled step may name anew. */
  ghost predicate OnlyLiveNames(slots: map<nat, Element>, slots': map<nat, Element>) {
    forall x {:trigger Clean(slots', x)} | x in slots' ::
      slots'[x].nbrs <= LiveSet(slots') || (x in slots && slots'[x].nbrs <= slots[x].nbrs + LiveSet(slots'))
  }

  lemma NewNamesAreLive(s: State, e: Step)
    requires Inv(s) && Enabled(s, e) && Repairing(s.vacuum)
    ensures OnlyLiveNames(s.slots, Apply(s, e).slots) && LiveSet(s.slots) <= LiveSet(Apply(s, e).slots)
  {
    LiveGrows(s, e);
  }

  lemma CleanKept(s: State, e: Step, x: nat)
    requires Inv(s) && Enabled(s, e) && Repairing(s.vacuum) && Clean(s.slots, x)
    requires x in s.slots || e.InsertAdd?
    ensures Clean(Apply(s, e).slots, x)
  {
    NewNamesAreLive(s, e);
  }

  /** Steps that make vacuum go on with a repair pass, or leave its state alone. */
  lemma HighestStep(s: State, e: Step)
    requires Inv(s) && Enabled(s, e) && !Apply(s, e).skipped && s.vacuum.RepairHighest?
    ensures var s' := Apply(s, e); Repaired(s'.slots, s'.entry, s'.vacuum)
  {
    if s.vacuum.repair.Written? { CleanKept(s, e, s.vacuum.repair.x); }
    NewNamesAreLive(s, e);
  }

  lemma EntryStep(s: State, e: Step)
    requires Inv(s) && Enabled(s, e) && s.vacuum.RepairEntry?
    ensures var s' := Apply(s, e); Repaired(s'.slots, s'.entry, s'.vacuum)
  {
    NewNamesAreLive(s, e);
    if s.vacuum.highest.Some? { CleanKept(s, e, s.vacuum.highest.value); }
    if s.vacuum.repair.Written? { CleanKept(s, e, s.vacuum.repair.x); }
    if e.EntryDone? && s.entry.Some? && s.entry != s.vacuum.highest {
      UnneededIsClean(s, s.entry.value);
    }
  }

  lemma AllStep(s: State, e: Step)
    requires Inv(s) && Enabled(s, e) && s.vacuum.RepairAll?
    ensures var s' := Apply(s, e); Repaired(s'.slots, s'.entry, s'.vacuum)
  {
    NewNamesAreLive(s, e);
    var s' := Apply(s, e);
    if s.entry.Some? { CleanKept(s, e, s.entry.value); }
    if s.vacuum.repair.Written? { CleanKept(s, e, s.vacuum.repair.x); }
    if s'.vacuum.RepairAll? {
      forall x | Live(s'.slots, x) && x !in Todo(s'.slots, s'.vacuum)
        ensures Clean(s'.slots, x)
      {
        HandledIsClean(s, e, x);
      }
    }
  }

  lemma HandledIsClean(s: State, e: Step, x: nat)
    requires Inv(s) && Enabled(s, e) && s.vacuum.RepairAll? && Apply(s, e).vacuum.RepairAll?
    requires Live(Apply(s, e).slots, x) && x !in Todo(Apply(s, e).slots, Apply(s, e).vacuum)
    ensures Clean(Apply(s, e).slots, x)
  {
    NewNamesAreLive(s, e);
    if e.SkipUnneeded? && e.x == x { UnneededIsClean(s, x); }
    if Live(s.slots, x) && Clean(s.slots, x) { CleanKept(s, e, x); }
  }

  lemma NewElementsStep(s: State, e: Step)
    requires Inv(s) && Enabled(s, e)
    ensures NewElementsClean(Apply(s, e))
  {
    var s' := Apply(s, e);
    if Repairing(s.vacuum) {
      NewNamesAreLive(s, e);
      forall t | t in s'.inserts && s'.inserts[t].Linking?
        ensures Clean(s'.slots, s'.inserts[t].slot)
      {
        if t in s.inserts && s.inserts[t].Linking? { CleanKept(s, e, s.inserts[t].slot); }
      }
    }
  }

  lemma RepairedStep(s: State, e: Step)
    requires Inv(s) && Enabled(s, e) && !Apply(s, e).skipped
    ensures var s' := Apply(s, e); Repaired(s'.slots, s'.entry, s'.vacuum)
  {
    if s.vacuum.RepairHighest? {
      HighestStep(s, e);
    } else if s.vacuum.RepairEntry? {
      EntryStep(s, e);
    } else if s.vacuum.RepairAll? {
      AllStep(s, e);
    }
  }

  /** The invariant is kept by every step that skips no repair of the highest point. */
  lemma InvStep(s: State, e: Step)
    requires Inv(s) && Enabled(s, e) && !Apply(s, e).skipped
    ensures Inv(Apply(s, e))
  {
    NamesStep(s, e);
    UnlinkedStep(s, e);
    RemovingStep(s, e);
    SettledStep(s, e);
    NewElementsStep(s, e);
    FreeingStep(s, e);
    RepairedStep(s, e);
  }

  // ---------------------------------------------------------------------------------------
  // Main results
  // ---------------------------------------------------------------------------------------

  /** Nothing that is still in use names a freed slot. */
  ghost predicate NoFreedSlotNamed(s: State) {
    && (forall x, y | Live(s.slots, x) && y in s.slots[x].nbrs :: y in s.slots && !s.slots[y].freed)
    && (s.entry.Some? ==> s.entry.value in s.slots && !s.slots[s.entry.value].freed)
    && (forall t, y | t in s.inserts && y in InsertSlots(s.inserts[t]) :: y in s.slots && !s.slots[y].freed)
    && (forall c, y | c in s.scans && y in s.scans[c] :: y in s.slots && !s.slots[y].freed)
  }

  lemma InvIsSafe(s: State)
    requires Inv(s)
    ensures NoFreedSlotNamed(s)
  {
  }

  lemma {:induction false} SkippedStays(s: State, steps: seq<Step>, last: State)
    requires IsRun(s, steps, last) && s.skipped
    ensures last.skipped
    decreases |steps|
  {
    if steps != [] { SkippedStays(Apply(s, steps[0]), steps[1..], last); }
  }

  lemma {:induction false} InvRun(s: State, steps: seq<Step>, last: State)
    requires IsRun(s, steps, last) && Inv(s) && !last.skipped
    ensures Inv(last)
    decreases |steps|
  {
    if steps != [] {
      var s' := Apply(s, steps[0]);
      if s'.skipped { SkippedStays(s', steps[1..], last); }
      InvStep(s, steps[0]);
      InvRun(s', steps[1..], last);
    }
  }

  /**
   In every run in which the highest point is never left unrepaired because it is the entry point,
   no live element, entry point, in-flight insert or scan names a freed slot.
   */
  lemma FreedSlotsAreUnreachable(s: State, steps: seq<Step>, last: State)
    requires Init(s) && IsRun(s, steps, last) && !last.skipped
    ensures NoFreedSlotNamed(last)
  {
    InitInv(s);
    InvRun(s, steps, last);
    InvIsSafe(last);
  }

  /** The slot has lost its last heap TID and is not freed yet. */
  ghost predicate Emptied(s: State, x: nat) {
    x in s.slots && s.slots[x].tids == {} && !s.slots[x].freed
  }

  lemma EmptyStaysInInsert(s: State, e: Step, x: nat)
    requires Enabled(s, e) && IsInsertStep(e) && Emptied(s, x)
    ensures Emptied(Apply(s, e), x)
  {
  }

  lemma EmptyStaysInRepair(s: State, e: Step, x: nat)
    requires Enabled(s, e) && IsRepairStep(e) && Emptied(s, x)
    ensures Emptied(Apply(s, e), x)
  {
  }

  lemma EmptyStaysInVacuum(s: State, e: Step, x: nat)
    requires Enabled(s, e) && IsVacuumStep(e) && Emptied(s, x) && e != MarkDeleted(x)
    ensures Emptied(Apply(s, e), x)
  {
  }

  /** A slot that has lost its last heap TID gets no other before it is freed, in any run. */
  lemma {:induction false} EmptySlotsStayEmpty(s: State, steps: seq<Step>, last: State, x: nat)
    requires IsRun(s, steps, last) && MarkDeleted(x) !in steps && Emptied(s, x)
    ensures Emptied(last, x)
    decreases |steps|
  {
    if steps != [] {
      if IsInsertStep(steps[0]) {
        EmptyStaysInInsert(s, steps[0], x);
      } else if IsRepairStep(steps[0]) {
        EmptyStaysInRepair(s, steps[0], x);
      } else if IsVacuumStep(steps[0]) {
        EmptyStaysInVacuum(s, steps[0], x);
      }
      EmptySlotsStayEmpty(Apply(s, steps[0]), steps[1..], last, x);
    }
  }

  // ---------------------------------------------------------------------------------------
  // The skipped repair
  // ---------------------------------------------------------------------------------------

  lemma {:induction false} RunThen(s: State, a: seq<Step>, mid: State, b: seq<Step>, last: State)
    requires IsRun(s, a, mid) && IsRun(mid, b, last)
    ensures IsRun(s, a + b, last)
    decreases |a|
  {
    if a == [] {
      assert a + b == b;
    } else {
      assert (a + b)[1..] == a[1..] + b;
      RunThen(Apply(s, a[0]), a[1..], mid, b, last);
    }
  }

  lemma OneStep(s: State, e: Step)
    requires Enabled(s, e)
    ensures IsRun(s, [e], Apply(s, e))
  {
    assert [e][1..] == [];
  }

  ghost predicate Takes(s: State, e: Step, s': State) {
    Enabled(s, e) && Apply(s, e) == s'
  }

  lemma TwoSteps(s: State, e1: Step, s1: State, e2: Step, s2: State)
    requires Takes(s, e1, s1) && Takes(s1, e2, s2)
    ensures IsRun(s, [e1, e2], s2)
  {
    assert [e1, e2][1..] == [e2];
    OneStep(s1, e2);
  }

  lemma ThreeSteps(s: State, e1: Step, s1: State, e2: Step, s2: State, e3: Step, s3: State)
    requires Takes(s, e1, s1) && Takes(s1, e2, s2) && Takes(s2, e3, s3)
    ensures IsRun(s, [e1, e2, e3], s3)
  {
    assert [e1, e2, e3][1..] == [e2, e3];
    TwoSteps(s1, e2, s2, e3, s3);
  }

  /** The live entry point h names the empty slot y. */
  ghost predicate Stuck(s: State, h: nat, y: nat) {
    s.entry == Some(h) && Live(s.slots, h) && y in s.slots[h].nbrs && Emptied(s, y)
  }

  lemma {:induction false} LetInsertsEnd(s: State, h: nat, y: nat) returns (steps: seq<Step>, last: State)
    requires Stuck(s, h, y)
    ensures IsRun(s, steps, last) && Stuck(last, h, y) && NoInserts(last)
    ensures last == s.(inserts := map[])
    decreases s.inserts.Keys
  {
    if s.inserts == map[] {
      return [], s;
    }
    var t :| t in s.inserts;
    var s' := Apply(s, InsertEnd(t));
    var rest;
    rest, last := LetInsertsEnd(s', h, y);
    OneStep(s, InsertEnd(t));
    RunThen(s, [InsertEnd(t)], s', rest, last);
    steps := [InsertEnd(t)] + rest;
  }

  lemma {:induction false} LetScansEnd(s: State, h: nat, y: nat) returns (steps: seq<Step>, last: State)
    requires Stuck(s, h, y)
    ensures IsRun(s, steps, last) && Stuck(last, h, y) && last == s.(scans := map[])
    decreases s.scans.Keys
  {
    if s.scans == map[] {
      return [], s;
    }
    var c :| c in s.scans;
    var s' := Apply(s, ScanEnd(c));
    var rest;
    rest, last := LetScansEnd(s', h, y);
    OneStep(s, ScanEnd(c));
    RunThen(s, [ScanEnd(c)], s', rest, last);
    steps := [ScanEnd(c)] + rest;
  }

  /** The repair pass over the loaded elements passes the entry point by. */
  lemma {:induction false} RepairRest(s: State, h: nat, y: nat) returns (steps: seq<Step>, last: State)
    requires Stuck(s, h, y) && NoInserts(s) && s.scans == map[]
    requires s.vacuum.RepairAll? && s.vacuum.repair.NoRepair? && s.vacuum.loaded <= s.slots.Keys &&
             s.vacuum.pending == {}
    ensures IsRun(s, steps, last) && Stuck(last, h, y) && Enabled(last, WaitForScans)
    decreases s.vacuum.loaded
  {
    if s.vacuum.loaded == {} {
      return [], s;
    }
    var x :| x in s.vacuum.loaded;
    var first, s' := HandleOne(s, h, y, x);
    var rest;
    rest, last := RepairRest(s', h, y);
    RunThen(s, first, s', rest, last);
    steps := first + rest;
  }

  lemma HandleOne(s: State, h: nat, y: nat, x: nat) returns (steps: seq<Step>, s': State)
    requires Stuck(s, h, y) && NoInserts(s) && s.scans == map[]
    requires s.vacuum.RepairAll? && s.vacuum.repair.NoRepair? && x in s.vacuum.loaded &&
             s.vacuum.loaded <= s.slots.Keys && s.vacuum.pending == {}
    ensures IsRun(s, steps, s') && Stuck(s', h, y) && NoInserts(s') && s'.scans == map[]
    ensures s'.vacuum.RepairAll? && s'.vacuum.repair.NoRepair? && s'.vacuum.pending == {}
    ensures s'.vacuum.loaded == s.vacuum.loaded - {x} && s'.slots.Keys == s.slots.Keys
  {
    if x == h {
      steps, s' := [SkipEntryPoint(x)], Apply(s, SkipEntryPoint(x));
      OneStep(s, SkipEntryPoint(x));
    } else {
      var s1 := Apply(s, ElementRepair(x));
      OneStep(s, ElementRepair(x));
      steps, s' := FinishRepair(s1, h, y, x);
      RunThen(s, [ElementRepair(x)], s1, steps, s');
      steps := [ElementRepair(x)] + steps;
    }
  }

  /** The repair of another element finds the entry point, chooses it and links back to it. */
  lemma FinishRepair(s: State, h: nat, y: nat, x: nat) returns (steps: seq<Step>, s': State)
    requires Stuck(s, h, y) && s.vacuum.RepairAll? && s.vacuum.repair == Finding(x, {}) && x in s.slots && x != h
    ensures IsRun(s, steps, s') && Stuck(s', h, y) && s'.slots.Keys == s.slots.Keys
    ensures s' == s.(slots := s'.slots,
                     vacuum := RepairAll(s.vacuum.deleted, s.vacuum.pending, s.vacuum.loaded - {x}, NoRepair))
  {
    var s1, s2, s3 := RepairWith(s, h, y, x);
    s' := Apply(s3, RepairEnd);
    ThreeSteps(s, RepairLoad(h), s1, RepairWrite({h}), s2, RepairLink(h, {}), s3);
    OneStep(s3, RepairEnd);
    steps := [RepairLoad(h), RepairWrite({h}), RepairLink(h, {})] + [RepairEnd];
    RunThen(s, [RepairLoad(h), RepairWrite({h}), RepairLink(h, {})], s3, [RepairEnd], s');
  }

  lemma RepairWith(s: State, h: nat, y: nat, x: nat) returns (s1: State, s2: State, s3: State)
    requires Stuck(s, h, y) && s.vacuum.RepairAll? && s.vacuum.repair == Finding(x, {}) && x in s.slots && x != h
    ensures Takes(s, RepairLoad(h), s1) && Takes(s1, RepairWrite({h}), s2) && Takes(s2, RepairLink(h, {}), s3)
    ensures Stuck(s3, h, y) && s3.slots.Keys == s.slots.Keys
    ensures s3 == s.(slots := s3.slots, vacuum := SetRepair(s.vacuum, Written(x, {h})))
  {
    s1 := Apply(s, RepairLoad(h));
    assert {} + {h} == {h};
    s2 := Apply(s1, RepairWrite({h}));
    s3 := Apply(s2, RepairLink(h, {}));
  }

  /**
   The converse, for arbitrary search results and while the list of the entry point has room: as soon
   as a run skips the repair of a highest point that names an empty slot, because it is the entry
   point, the run can go on to free a slot the entry point still names. In it every repair finds and
   chooses the entry point and links back to it without an eviction. If the list were full, the link
   back would evict the empty neighbour first (src/hnswinsert.c:419-440).
   */
  lemma SkippedRepairIsUnsafe(s: State) returns (steps: seq<Step>, last: State)
    requires Inv(s) && !s.skipped && Enabled(s, HighestDone) && Apply(s, HighestDone).skipped
    ensures IsRun(Apply(s, HighestDone), steps, last) && !NoFreedSlotNamed(last)
  {
    var h := s.vacuum.highest.value;
    var y :| y in s.slots[h].nbrs && y !in LiveSet(s.slots);
    var s1 := Apply(s, HighestDone);
    assert Stuck(s1, h, y);
    var a, s2 := AllAloneAtEntry(s1, h, y);
    var b, s3 := FreeNamed(s2, h, y);
    RunThen(s1, a, s2, b, s3);
    steps, last := a + b, s3;
  }

  lemma AllAloneAtEntry(s: State, h: nat, y: nat) returns (steps: seq<Step>, last: State)
    requires Stuck(s, h, y) && s.vacuum.RepairEntry? && s.vacuum.repair.NoRepair?
    requires s.vacuum.highest == Some(h) && h !in s.vacuum.deleted
    ensures IsRun(s, steps, last) && Stuck(last, h, y) && Enabled(last, WaitForScans)
  {
    var a, s2 := LetInsertsEnd(s, h, y);
    var b, s3 := LetScansEnd(s2, h, y);
    RunThen(s, a, s2, b, s3);
    var c, s4 := PassEntry(s3, h, y);
    RunThen(s, a + b, s3, c, s4);
    var d, s5 := RepairRest(s4, h, y);
    RunThen(s, a + b + c, s4, d, s5);
    steps, last := a + b + c + d, s5;
  }

  lemma FreeNamed(s: State, h: nat, y: nat) returns (steps: seq<Step>, last: State)
    requires Stuck(s, h, y) && Enabled(s, WaitForScans)
    ensures steps == [WaitForScans, MarkDeleted(y)] && IsRun(s, steps, last) && !NoFreedSlotNamed(last)
  {
    var s1 := Apply(s, WaitForScans);
    last := Apply(s1, MarkDeleted(y));
    OneStep(s, WaitForScans);
    OneStep(s1, MarkDeleted(y));
    RunThen(s, [WaitForScans], s1, [MarkDeleted(y)], last);
    steps := [WaitForScans] + [MarkDeleted(y)];
    assert Live(last.slots, h) && y in last.slots[h].nbrs && last.slots[y].freed;
  }

  lemma PassEntry(s: State, h: nat, y: nat) returns (steps: seq<Step>, last: State)
    requires Stuck(s, h, y) && NoInserts(s) && s.scans == map[] && s.vacuum.RepairEntry? && s.vacuum.repair.NoRepair?
    requires s.vacuum.highest == Some(h) && h !in s.vacuum.deleted
    ensures IsRun(s, steps, last) && Stuck(last, h, y) && NoInserts(last) && last.scans == map[]
    ensures last.vacuum.RepairAll? && last.vacuum.repair.NoRepair? && last.vacuum.loaded <= last.slots.Keys &&
            last.vacuum.pending == {}
  {
    var s1 := Apply(s, EntryDone);
    last := Apply(s1, LoadPage(s.slots.Keys));
    OneStep(s, EntryDone);
    OneStep(s1, LoadPage(s.slots.Keys));
    RunThen(s, [EntryDone], s1, [LoadPage(s.slots.Keys)], last);
    steps := [EntryDone] + [LoadPage(s.slots.Keys)];
  }

  // A run in which it happens: an insert above the old entry point finds and chooses both elements
  // while vacuum is still on its way to slot 1.

  ghost const FINDING := [VacuumStart, InsertStart(7, 3, 1, true), InsertLoad(7, 0)]
  ghost const ADDING := [InsertLoad(7, 1), InsertAdd(7, 2, {0, 1}, true), InsertLink(7, 0, {})]
  ghost const RAISING := [InsertLink(7, 1, {}), InsertEntry(7)]
  ghost const STARTING := [InsertEnd(7), RemoveHeapTids(0, {})]
  ghost const REMOVING := [RemoveHeapTids(1, {2}), RemoveHeapTids(2, {})]
  ghost const SKIPPING := [WaitForInserts, HighestDone]
  ghost const LOADING := [EntryDone, LoadPage({0, 1, 2})]
  ghost const REPAIRING := [ElementRepair(0), RepairLoad(2), RepairWrite({2})]
  ghost const CLOSING := [RepairLink(2, {}), RepairEnd]
  ghost const FREEING := [SkipEntryPoint(2), WaitForScans, MarkDeleted(1)]

  ghost const RUN := (FINDING + ADDING + RAISING) +
    ((STARTING + REMOVING + SKIPPING) + (LOADING + REPAIRING + (CLOSING + FREEING)))

  /** The three slots, by what changes: the neighbours of the old elements and the TIDs of slot 1. */
  ghost function Slots(nbrs0: set<nat>, tids1: set<nat>, nbrs1: set<nat>): map<nat, Element> {
    map[0 := Element({1}, false, nbrs0, 0), 1 := Element(tids1, false, nbrs1, 0), 2 := Element({3}, false, {0, 1}, 1)]
  }

  /** The index after its first two elements: each is the other's neighbour. */
  ghost const PAIR := map[0 := Element({1}, false, {1}, 0), 1 := Element({2}, false, {0}, 0)]
  ghost const LINKED := Slots({1, 2}, {2}, {0, 2})
  ghost const EMPTIED := Slots({1, 2}, {}, {0, 2})
  ghost const MENDED := Slots({2}, {}, {0, 2})

  /** With the insert that is under way, before vacuum has read a page. */
  ghost function Inserting(slots: map<nat, Element>, entry: nat, insert: Insert): State {
    State(slots, Some(entry), map[7 := insert], map[], RemoveTids({}, {}, None, Some(0)), {}, false)
  }

  /** After the insert. */
  ghost function Vacuuming(slots: map<nat, Element>, v: Vacuum, skipped: bool): State {
    State(slots, Some(2), map[], map[], v, {}, skipped)
  }

  // The states between the parts of the run.

  ghost const BUILT := State(PAIR, Some(0), map[], map[], Idle, {}, false)
  ghost const FOUND := Inserting(PAIR, 0, Searching(true, 3, 1, {0}))
  ghost const ADDED := Inserting(Slots({1, 2}, {2}, {0}), 0, Linking(true, 2, {0, 1}))
  ghost const RAISED := Inserting(LINKED, 2, Linking(true, 2, {0, 1}))
  ghost const STARTED := Vacuuming(LINKED, RemoveTids({0}, {}, None, Some(0)), false)
  ghost const REMOVED := Vacuuming(EMPTIED, RemoveTids({0, 1, 2}, {1}, Some(2), Some(0)), false)
  ghost const SKIPPED := Vacuuming(EMPTIED, RepairEntry({1}, Some(2), NoRepair), true)
  ghost const LOADED := Vacuuming(EMPTIED, RepairAll({1}, {}, {0, 2}, NoRepair), true)
  ghost const REPAIRED := Vacuuming(MENDED, RepairAll({1}, {}, {0, 2}, Written(0, {2})), true)
  ghost const CLOSED := Vacuuming(MENDED, RepairAll({1}, {}, {2}, NoRepair), true)

  lemma InsertFinds()
    ensures IsRun(BUILT, FINDING, FOUND)
  {
    assert {} + {0} == {0};
    ThreeSteps(BUILT, VacuumStart, State(PAIR, Some(0), map[], map[], RemoveTids({}, {}, None, Some(0)), {}, false),
               InsertStart(7, 3, 1, true), Inserting(PAIR, 0, Searching(true, 3, 1, {})), InsertLoad(7, 0), FOUND);
  }

  lemma InsertAdds()
    ensures IsRun(FOUND, ADDING, ADDED)
  {
    assert {0} + {1} == {0, 1} && {} - {2} == {} && {1} - {} + {2} == {1, 2};
    ThreeSteps(FOUND, InsertLoad(7, 1), Inserting(PAIR, 0, Searching(true, 3, 1, {0, 1})),
               InsertAdd(7, 2, {0, 1}, true), Inserting(Slots({1}, {2}, {0}), 0, Linking(true, 2, {0, 1})),
               InsertLink(7, 0, {}), ADDED);
  }

  lemma EntryIsRaised()
    ensures IsRun(ADDED, RAISING, RAISED)
  {
    assert {0} - {} + {2} == {0, 2};
    TwoSteps(ADDED, InsertLink(7, 1, {}), Inserting(LINKED, 0, Linking(true, 2, {0, 1})), InsertEntry(7), RAISED);
  }

  lemma VacuumStarts()
    ensures IsRun(RAISED, STARTING, STARTED)
  {
    assert map[7 := Linking(true, 2, {0, 1})] - {7} == map[];
    assert {1} - {} == {1} && {} + {0} == {0};
    TwoSteps(RAISED, InsertEnd(7), Vacuuming(LINKED, RemoveTids({}, {}, None, Some(0)), false),
             RemoveHeapTids(0, {}), STARTED);
  }

  lemma SlotIsEmptied()
    ensures IsRun(STARTED, REMOVING, REMOVED)
  {
    assert {2} - {2} == {} && {3} - {} == {3};
    assert {0} + {1} == {0, 1} && {} + {1} == {1} && {0, 1} + {2} == {0, 1, 2};
    TwoSteps(STARTED, RemoveHeapTids(1, {2}), Vacuuming(EMPTIED, RemoveTids({0, 1}, {1}, None, Some(0)), false),
             RemoveHeapTids(2, {}), REMOVED);
  }

  lemma HighestIsSkipped()
    ensures IsRun(REMOVED, SKIPPING, SKIPPED)
  {
    assert EMPTIED.Keys == {0, 1, 2};
    assert 1 in EMPTIED[2].nbrs && 1 !in LiveSet(EMPTIED);
    TwoSteps(REMOVED, WaitForInserts, Vacuuming(EMPTIED, RepairHighest({1}, Some(2), NoRepair), false),
             HighestDone, SKIPPED);
  }

  lemma OthersAreLoaded()
    ensures IsRun(SKIPPED, LOADING, LOADED)
  {
    assert EMPTIED.Keys == {0, 1, 2};
    assert {0, 1, 2} * LiveSet(EMPTIED) == {0, 2} && {0, 1, 2} - {0, 1, 2} == {};
    TwoSteps(SKIPPED, EntryDone, Vacuuming(EMPTIED, RepairAll({1}, {0, 1, 2}, {}, NoRepair), true),
             LoadPage({0, 1, 2}), LOADED);
  }

  lemma OtherIsRepaired()
    ensures IsRun(LOADED, REPAIRING, REPAIRED)
  {
    assert {} + {2} == {2};
    ThreeSteps(LOADED, ElementRepair(0), Vacuuming(EMPTIED, RepairAll({1}, {}, {0, 2}, Finding(0, {})), true),
               RepairLoad(2), Vacuuming(EMPTIED, RepairAll({1}, {}, {0, 2}, Finding(0, {2})), true),
               RepairWrite({2}), REPAIRED);
  }

  lemma OtherIsLinked()
    ensures IsRun(REPAIRED, CLOSING, CLOSED)
  {
    assert {0, 1} - {} + {0} == {0, 1} && {0, 2} - {0} == {2};
    TwoSteps(REPAIRED, RepairLink(2, {}), REPAIRED, RepairEnd, CLOSED);
  }

  lemma EntryIsSkipped(s: State)
    requires s == Vacuuming(MENDED, RepairAll({1}, {}, {}, NoRepair), true)
    ensures Takes(CLOSED, SkipEntryPoint(2), s) && Stuck(s, 2, 1) && Enabled(s, WaitForScans)
  {
    assert {2} - {2} == {};
  }

  lemma NamedSlotIsFreed() returns (last: State)
    ensures IsRun(CLOSED, FREEING, last) && !NoFreedSlotNamed(last)
  {
    var s := Vacuuming(MENDED, RepairAll({1}, {}, {}, NoRepair), true);
    EntryIsSkipped(s);
    var freeing;
    freeing, last := FreeNamed(s, 2, 1);
    OneStep(CLOSED, SkipEntryPoint(2));
    RunThen(CLOSED, [SkipEntryPoint(2)], s, freeing, last);
  }

  lemma RaisingRun()
    ensures IsRun(BUILT, FINDING + ADDING + RAISING, RAISED)
  {
    InsertFinds();
    InsertAdds();
    EntryIsRaised();
    RunThen(BUILT, FINDING, FOUND, ADDING, ADDED);
    RunThen(BUILT, FINDING + ADDING, ADDED, RAISING, RAISED);
  }

  lemma SkippingRun()
    ensures IsRun(RAISED, STARTING + REMOVING + SKIPPING, SKIPPED)
  {
    VacuumStarts();
    SlotIsEmptied();
    HighestIsSkipped();
    RunThen(RAISED, STARTING, STARTED, REMOVING, REMOVED);
    RunThen(RAISED, STARTING + REMOVING, REMOVED, SKIPPING, SKIPPED);
  }

  lemma FreeingRun() returns (last: State)
    ensures IsRun(SKIPPED, LOADING + REPAIRING + (CLOSING + FREEING), last) && !NoFreedSlotNamed(last)
  {
    OthersAreLoaded();
    OtherIsRepaired();
    OtherIsLinked();
    last := NamedSlotIsFreed();
    RunThen(SKIPPED, LOADING, LOADED, REPAIRING, REPAIRED);
    RunThen(REPAIRED, CLOSING, CLOSED, FREEING, last);
    RunThen(SKIPPED, LOADING + REPAIRING, REPAIRED, CLOSING + FREEING, last);
  }

  lemma BuiltIsInitial()
    ensures Init(BUILT)
  {
    assert LiveSet(PAIR) == {0, 1};
  }

  /**
   Without the condition the property fails: this run from the index that a build leaves with two
   elements ends with a freed slot that the entry point names.
   */
  lemma FreedSlotCanBeNamed() returns (last: State)
    ensures Init(BUILT) && IsRun(BUILT, RUN, last) && !NoFreedSlotNamed(last)
  {
    BuiltIsInitial();
    RaisingRun();
    SkippingRun();
    last := FreeingRun();
    RunThen(RAISED, STARTING + REMOVING + SKIPPING, SKIPPED, LOADING + REPAIRING + (CLOSING + FREEING), last);
    RunThen(BUILT, FINDING + ADDING + RAISING, RAISED,
            (STARTING + REMOVING + SKIPPING) + (LOADING + REPAIRING + (CLOSING + FREEING)), last);
  }
}
