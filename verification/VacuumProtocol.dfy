/**
 Vacuum of the HNSW index against concurrent inserts and scans, as a step system
 (src/hnswvacuum.c, src/hnswinsert.c, src/hnswscan.c).

 A slot is the place of an element tuple; nbrs is the union of its neighbour lists over all
 layers. A search is a free choice of loaded elements: it may load any slot that still has heap
 TIDs. Each step is what the source does under one buffer lock. The update lock is held by every
 in-flight insert and by a repair; the scan lock by every in-flight scan.
 */
module VacuumProtocol {
  import opened Options

  /** A slot without heap TIDs is being deleted; freed is the tuple's deleted mark. */
  datatype Element = Element(tids: set<nat>, freed: bool, nbrs: set<nat>, level: nat)

  /** An insert searches, then has written its element to slot and links it to the chosen ones. */
  datatype Insert =
    | Searching(exclusive: bool, tid: nat, level: nat, cand: set<nat>)
    | Linking(exclusive: bool, slot: nat, chosen: set<nat>)

  /** RepairGraphElement for element x: its search, then its reciprocal updates. */
  datatype Repair =
    | NoRepair
    | Finding(x: nat, cand: set<nat>)
    | Written(x: nat, chosen: set<nat>)

  datatype Vacuum =
    | Idle
    | RemoveTids(visited: set<nat>, deleted: set<nat>, highest: Option<nat>, oldEntry: Option<nat>)
    | RepairHighest(deleted: set<nat>, highest: Option<nat>, repair: Repair)
    | RepairEntry(deleted: set<nat>, highest: Option<nat>, repair: Repair)
    | RepairAll(deleted: set<nat>, pending: set<nat>, loaded: set<nat>, repair: Repair)
    | Free

  /**
   Two history variables: unlinked are the slots a finished repair pass has cut off (until they
   are reused), and skipped says that a repair of the highest point was skipped because it was
   the entry point although it named a slot without heap TIDs.
   */
  datatype State = State(slots: map<nat, Element>, entry: Option<nat>, inserts: map<nat, Insert>,
                         scans: map<nat, set<nat>>, vacuum: Vacuum, unlinked: set<nat>, skipped: bool)

  datatype Step =
    // HnswInsertTupleOnDisk
    | InsertStart(t: nat, tid: nat, level: nat, exclusive: bool)
    | InsertLoad(t: nat, y: nat)
    | InsertDuplicate(t: nat, y: nat)
    | InsertAdd(t: nat, slot: nat, chosen: set<nat>, ahead: bool)
    | InsertLink(t: nat, y: nat, evicted: set<nat>)
    | InsertEntry(t: nat)
    | InsertEnd(t: nat)
    // hnswgettuple
    | ScanStart(c: nat)
    | ScanRead(c: nat, x: nat)
    | ScanEnd(c: nat)
    // hnswbulkdelete
    | VacuumStart
    | RemoveHeapTids(x: nat, dead: set<nat>)
    | WaitForInserts
    | HighestDone
    | HighestRepair
    | EntryReplace
    | EntryDone
    | EntryRepair
    | RepairLoad(y: nat)
    | RepairWrite(chosen: set<nat>)
    | RepairLink(y: nat, evicted: set<nat>)
    | RepairSetEntry
    | RepairEnd
    | LoadPage(page: set<nat>)
    | SkipUnneeded(x: nat)
    | SkipEntryPoint(x: nat)
    | ElementRepair(x: nat)
    | WaitForScans
    | MarkDeleted(x: nat)
    | VacuumEnd

  const HEAPTIDS := 10

  predicate Live(slots: map<nat, Element>, x: nat) {
    x in slots && slots[x].tids != {}
  }

  function LiveSet(slots: map<nat, Element>): set<nat> {
    set x | x in slots && slots[x].tids != {}
  }

  /** The slots of the tidhash built by RemoveHeapTids. */
  function DeletedSet(v: Vacuum): set<nat> {
    if v.Idle? || v.Free? then {} else v.deleted
  }

  function CurrentRepair(v: Vacuum): Repair {
    if v.RepairHighest? || v.RepairEntry? || v.RepairAll? then v.repair else NoRepair
  }

  /** NeedsUpdated finds a neighbour in the deleted list. It may also hold because layer 0 is not full. */
  predicate NamesDeleted(s: State, x: nat)
    requires x in s.slots
  {
    s.slots[x].nbrs * DeletedSet(s.vacuum) != {}
  }

  /** Some neighbour of x has no heap TIDs. */
  predicate NamesEmpty(slots: map<nat, Element>, x: nat) {
    x in slots && !(slots[x].nbrs <= LiveSet(slots))
  }

  /** No insert holds the update lock, shared or exclusive. */
  predicate NoInserts(s: State) { s.inserts == map[] }

  predicate NoExclusiveInsert(s: State) {
    forall t | t in s.inserts :: !s.inserts[t].exclusive
  }

  /** The lock an insert needs is free: repairs of the entry point hold it exclusively. */
  predicate InsertMayLock(s: State, exclusive: bool) {
    if exclusive then NoInserts(s) && CurrentRepair(s.vacuum) == NoRepair
    else NoExclusiveInsert(s) && !(s.vacuum.RepairEntry? && s.vacuum.repair != NoRepair)
  }

  predicate IsEntry(s: State, x: nat) { s.entry == Some(x) }

  /** level > entryPoint->level, or there is no entry point. */
  predicate AboveEntry(s: State, level: nat) {
    s.entry.None? || (s.entry.value in s.slots && level > s.slots[s.entry.value].level)
  }

  predicate FreeSlot(s: State, x: nat) {
    x !in s.slots || s.slots[x].freed
  }

  function WithNbrs(s: State, x: nat, nbrs: set<nat>): map<nat, Element>
    requires x in s.slots
  {
    s.slots[x := s.slots[x].(nbrs := nbrs)]
  }

  predicate Enabled(s: State, e: Step) {
    match e
    case InsertStart(t, tid, level, exclusive) =>
      t !in s.inserts && InsertMayLock(s, exclusive) && (!exclusive ==> !AboveEntry(s, level))
    case InsertLoad(t, y) => t in s.inserts && s.inserts[t].Searching? && Live(s.slots, y)
    case InsertDuplicate(t, y) =>
      && t in s.inserts && s.inserts[t].Searching? && y in s.inserts[t].cand && y in s.slots
      && 0 < |s.slots[y].tids| < HEAPTIDS
    case InsertAdd(t, slot, chosen, ahead) =>
      && t in s.inserts && s.inserts[t].Searching? && chosen <= s.inserts[t].cand && FreeSlot(s, slot)
    case InsertLink(t, y, evicted) =>
      && t in s.inserts && s.inserts[t].Linking? && y in s.inserts[t].chosen && y in s.slots
      && |evicted| <= 1
    case InsertEntry(t) =>
      && t in s.inserts && s.inserts[t].Linking? && s.inserts[t].exclusive && s.inserts[t].slot in s.slots
      && AboveEntry(s, s.slots[s.inserts[t].slot].level)
    case InsertEnd(t) => t in s.inserts
    case ScanStart(c) => c !in s.scans && s.entry.Some?
    case ScanRead(c, x) => c in s.scans && x in s.scans[c] && x in s.slots
    case ScanEnd(c) => c in s.scans
    case VacuumStart => s.vacuum.Idle?
    case RemoveHeapTids(x, dead) => s.vacuum.RemoveTids? && x in s.slots && x !in s.vacuum.visited
    case WaitForInserts => s.vacuum.RemoveTids? && s.slots.Keys <= s.vacuum.visited && NoInserts(s)
    case HighestDone =>
      && s.vacuum.RepairHighest? && s.vacuum.repair.NoRepair?
      && (s.vacuum.highest.Some? ==>
            s.vacuum.highest.value in s.slots &&
            (!NamesDeleted(s, s.vacuum.highest.value) || IsEntry(s, s.vacuum.highest.value)))
    case HighestRepair =>
      && s.vacuum.RepairHighest? && s.vacuum.repair.NoRepair? && s.vacuum.highest.Some?
      && !IsEntry(s, s.vacuum.highest.value) && NoExclusiveInsert(s)
    case EntryReplace =>
      s.vacuum.RepairEntry? && s.vacuum.repair.NoRepair? && NoInserts(s) && s.entry.Some? &&
        s.entry.value in s.vacuum.deleted
    case EntryDone =>
      && s.vacuum.RepairEntry? && s.vacuum.repair.NoRepair? && NoInserts(s)
      && (s.entry.Some? ==>
            && s.entry.value in s.slots && s.entry.value !in s.vacuum.deleted
            && (!NamesDeleted(s, s.entry.value) || s.entry == s.vacuum.highest))
    case EntryRepair =>
      && s.vacuum.RepairEntry? && s.vacuum.repair.NoRepair? && NoInserts(s)
      && s.entry.Some? && s.entry.value !in s.vacuum.deleted && s.entry != s.vacuum.highest
    case RepairLoad(y) =>
      CurrentRepair(s.vacuum).Finding? && Live(s.slots, y) && y != CurrentRepair(s.vacuum).x
    case RepairWrite(chosen) =>
      CurrentRepair(s.vacuum).Finding? && chosen <= CurrentRepair(s.vacuum).cand && CurrentRepair(s.vacuum).x in s.slots
    case RepairLink(y, evicted) =>
      CurrentRepair(s.vacuum).Written? && y in CurrentRepair(s.vacuum).chosen && y in s.slots && |evicted| <= 1
    case RepairSetEntry =>
      && s.vacuum.RepairAll? && s.vacuum.repair.Written? && NoInserts(s)
      && s.vacuum.repair.x in s.slots && AboveEntry(s, s.slots[s.vacuum.repair.x].level)
    case RepairEnd => CurrentRepair(s.vacuum).Written?
    case LoadPage(page) =>
      s.vacuum.RepairAll? && s.vacuum.repair.NoRepair? && s.vacuum.loaded == {} && page <= s.vacuum.pending
    case SkipUnneeded(x) =>
      s.vacuum.RepairAll? && s.vacuum.repair.NoRepair? && x in s.vacuum.loaded && x in s.slots && !NamesDeleted(s, x)
    case SkipEntryPoint(x) =>
      s.vacuum.RepairAll? && s.vacuum.repair.NoRepair? && x in s.vacuum.loaded && IsEntry(s, x)
    case ElementRepair(x) =>
      && s.vacuum.RepairAll? && s.vacuum.repair.NoRepair? && x in s.vacuum.loaded && !IsEntry(s, x)
      && x in s.slots && (if AboveEntry(s, s.slots[x].level) then NoInserts(s) else NoExclusiveInsert(s))
    case WaitForScans =>
      && s.vacuum.RepairAll? && s.vacuum.repair.NoRepair? && s.vacuum.pending == {} && s.vacuum.loaded == {}
      && s.scans == map[]
    case MarkDeleted(x) => s.vacuum.Free? && x in s.slots && !s.slots[x].freed && s.slots[x].tids == {}
    case VacuumEnd => !s.vacuum.Idle?
  }

  function SetRepair(v: Vacuum, r: Repair): Vacuum {
    match v
    case RepairHighest(d, h, _) => RepairHighest(d, h, r)
    case RepairEntry(d, h, _) => RepairEntry(d, h, r)
    case RepairAll(d, p, l, _) => RepairAll(d, p, l, r)
    case _ => v
  }

  /** A page that vacuum has yet to read will show it the new element; others will not. */
  function NoticeNewSlot(v: Vacuum, slot: nat, ahead: bool): Vacuum {
    match v
    case RemoveTids(visited, deleted, highest, oldEntry) =>
      if ahead then v else RemoveTids(visited + {slot}, deleted, highest, oldEntry)
    case RepairAll(deleted, pending, loaded, repair) =>
      if ahead then RepairAll(deleted, pending + {slot}, loaded, repair) else v
    case _ => v
  }

  /** One slot of RemoveHeapTids: the dead TIDs go; an empty slot is recorded, else the highest point may move. */
  function RemoveHeapTidsAt(s: State, x: nat, dead: set<nat>): State
    requires s.vacuum.RemoveTids? && x in s.slots
  {
    var v := s.vacuum;
    var e := s.slots[x].(tids := s.slots[x].tids - dead);
    var higher := v.highest.None? || (v.highest.value in s.slots && e.level > s.slots[v.highest.value].level);
    s.(slots := s.slots[x := e],
       vacuum := if e.tids == {} then RemoveTids(v.visited + {x}, v.deleted + {x}, v.highest, v.oldEntry)
                 else if higher && v.oldEntry != Some(x)
                 then RemoveTids(v.visited + {x}, v.deleted, Some(x), v.oldEntry)
                 else RemoveTids(v.visited + {x}, v.deleted, v.highest, v.oldEntry))
  }

  /** The end of RepairGraphElement in each of the three places that call it. */
  function AfterRepair(s: State, v: Vacuum): Vacuum {
    match v
    case RepairHighest(d, h, _) => RepairEntry(d, h, NoRepair)
    case RepairEntry(d, h, _) => RepairAll(d, s.slots.Keys, {}, NoRepair)
    case RepairAll(d, p, l, r) => RepairAll(d, p, if r.NoRepair? then l else l - {r.x}, NoRepair)
    case _ => v
  }

  function Apply(s: State, e: Step): State
    requires Enabled(s, e)
  {
    match e
    case InsertStart(t, tid, level, exclusive) => s.(inserts := s.inserts[t := Searching(exclusive, tid, level, {})])
    case InsertLoad(t, y) => s.(inserts := s.inserts[t := s.inserts[t].(cand := s.inserts[t].cand + {y})])
    case InsertDuplicate(t, y) =>
      s.(slots := s.slots[y := s.slots[y].(tids := s.slots[y].tids + {s.inserts[t].tid})], inserts := s.inserts - {t})
    case InsertAdd(t, slot, chosen, ahead) =>
      s.(slots := s.slots[slot := Element({s.inserts[t].tid}, false, chosen, s.inserts[t].level)],
         inserts := s.inserts[t := Linking(s.inserts[t].exclusive, slot, chosen)],
         vacuum := if slot in s.slots then s.vacuum else NoticeNewSlot(s.vacuum, slot, ahead),
         unlinked := s.unlinked - {slot})
    case InsertLink(t, y, evicted) => s.(slots := WithNbrs(s, y, s.slots[y].nbrs - evicted + {s.inserts[t].slot}))
    case InsertEntry(t) => s.(entry := Some(s.inserts[t].slot))
    case InsertEnd(t) => s.(inserts := s.inserts - {t})
    case ScanStart(c) => s.(scans := s.scans[c := {s.entry.value}])
    case ScanRead(c, x) => s.(scans := s.scans[c := s.scans[c] + s.slots[x].nbrs])
    case ScanEnd(c) => s.(scans := s.scans - {c})
    case VacuumStart => s.(vacuum := RemoveTids({}, {}, None, s.entry))
    case RemoveHeapTids(x, dead) => RemoveHeapTidsAt(s, x, dead)
    case WaitForInserts => s.(vacuum := RepairHighest(s.vacuum.deleted, s.vacuum.highest, NoRepair))
    case HighestDone =>
      s.(vacuum := RepairEntry(s.vacuum.deleted, s.vacuum.highest, NoRepair),
         skipped := s.skipped || (s.vacuum.highest.Some? && NamesEmpty(s.slots, s.vacuum.highest.value)))
    case HighestRepair => s.(vacuum := SetRepair(s.vacuum, Finding(s.vacuum.highest.value, {})))
    case EntryReplace => s.(entry := s.vacuum.highest, vacuum := AfterRepair(s, s.vacuum))
    case EntryDone => s.(vacuum := AfterRepair(s, s.vacuum))
    case EntryRepair => s.(vacuum := SetRepair(s.vacuum, Finding(s.entry.value, {})))
    case RepairLoad(y) =>
      var r := CurrentRepair(s.vacuum);
      s.(vacuum := SetRepair(s.vacuum, Finding(r.x, r.cand + {y})))
    case RepairWrite(chosen) =>
      var r := CurrentRepair(s.vacuum);
      s.(slots := WithNbrs(s, r.x, chosen), vacuum := SetRepair(s.vacuum, Written(r.x, chosen)))
    case RepairLink(y, evicted) =>
      s.(slots := WithNbrs(s, y, s.slots[y].nbrs - evicted + {CurrentRepair(s.vacuum).x}))
    case RepairSetEntry => s.(entry := Some(s.vacuum.repair.x))
    case RepairEnd => s.(vacuum := AfterRepair(s, s.vacuum))
    case LoadPage(page) =>
      s.(vacuum := RepairAll(s.vacuum.deleted, s.vacuum.pending - page, page * LiveSet(s.slots), NoRepair))
    case SkipUnneeded(x) => s.(vacuum := RepairAll(s.vacuum.deleted, s.vacuum.pending, s.vacuum.loaded - {x}, NoRepair))
    case SkipEntryPoint(x) =>
      s.(vacuum := RepairAll(s.vacuum.deleted, s.vacuum.pending, s.vacuum.loaded - {x}, NoRepair))
    case ElementRepair(x) => s.(vacuum := SetRepair(s.vacuum, Finding(x, {})))
    case WaitForScans => s.(vacuum := Free, unlinked := s.unlinked + (s.slots.Keys - LiveSet(s.slots)))
    case MarkDeleted(x) => s.(slots := s.slots[x := s.slots[x].(freed := true, nbrs := {})])
    case VacuumEnd => s.(vacuum := Idle)
  }

  /** An index as a build leaves it: every name is a live slot and nobody is at work. */
  ghost predicate Init(s: State) {
    && s.inserts == map[] && s.scans == map[] && s.vacuum.Idle? && s.unlinked == {} && !s.skipped
    && (s.entry.Some? ==> Live(s.slots, s.entry.value))
    && forall x | x in s.slots :: s.slots[x].tids != {} && !s.slots[x].freed && s.slots[x].nbrs <= LiveSet(s.slots)
  }

  /** A run is a list of steps, each enabled when its turn comes. */
  ghost predicate IsRun(s: State, steps: seq<Step>, last: State)
    decreases |steps|
  {
    if steps == [] then s == last
    else Enabled(s, steps[0]) && IsRun(Apply(s, steps[0]), steps[1..], last)
  }
}
