/**
 Parallel build workers of an HNSW index (src/hnswbuild.c:325-358, 435-501 and 507-598) as a step system:
 every lock operation and every change of the shared graph is one step of one worker, in any order.

 Memory runs out whenever it likes, and the neighbour search is a free choice of a duplicate to join, if any.
 */
module BuildWorkers {
  import opened Options

  const HEAPTIDS: nat := 10

  datatype Element = Element(heaptids: seq<nat>, level: nat)

  /** Where a worker is; tid is the heap TID it inserts, entry the entry point it has read. */
  datatype Worker =
    | Idle
    | Arriving(tid: nat)
    | Checking(tid: nat)
    | Allocating(tid: nat)
    | OutOfMemory(tid: nat)
    | Flushing(tid: nat)
    | OnDisk(tid: nat)
    | Allocated(tid: nat, level: nat)
    | Ready(tid: nat, level: nat)
    | Reading(tid: nat, level: nat, entry: Option<nat>)
    | Raising(tid: nat, level: nat)
    | HoldingWait(tid: nat, level: nat)
    | Linking(tid: nat, level: nat, entry: Option<nat>, exclusive: bool)
    | Linked(level: nat, entry: Option<nat>, exclusive: bool, index: nat)
    | Unlocking(exclusive: bool)
    | Leaving

  /** The graph in shared memory, what went to disk one by one, and the TIDs that were ever accepted. */
  datatype State = State(workers: seq<Worker>, elements: seq<Element>, entry: Option<nat>, flushed: bool,
                         disk: multiset<nat>, accepted: set<nat>)

  // ---------------------------------------------------------------------------------------
  // Locks
  // ---------------------------------------------------------------------------------------

  datatype Mode = Free | Shared | Exclusive

  predicate Compatible(a: Mode, b: Mode) {
    a == Free || b == Free || (a == Shared && b == Shared)
  }

  function FlushLock(w: Worker): Mode {
    match w
    case Idle => Free
    case Arriving(_) => Free
    case OutOfMemory(_) => Free
    case OnDisk(_) => Free
    case Flushing(_) => Exclusive
    case _ => Shared
  }

  function AllocatorLock(w: Worker): Mode { if w.Allocating? then Exclusive else Free }

  function EntryWaitLock(w: Worker): Mode { if w.HoldingWait? then Exclusive else Free }

  function EntryLock(w: Worker): Mode {
    match w
    case Reading(_, _, _) => Shared
    case Linking(_, _, _, exclusive) => if exclusive then Exclusive else Shared
    case Linked(_, _, exclusive, _) => if exclusive then Exclusive else Shared
    case Unlocking(exclusive) => if exclusive then Exclusive else Shared
    case _ => Free
  }

  predicate Fits(a: Worker, b: Worker) {
    && Compatible(FlushLock(a), FlushLock(b)) && Compatible(AllocatorLock(a), AllocatorLock(b))
    && Compatible(EntryWaitLock(a), EntryWaitLock(b)) && Compatible(EntryLock(a), EntryLock(b))
  }

  /** The lock manager lets worker w be in the given place. */
  ghost predicate Granted(workers: seq<Worker>, w: nat, to: Worker) {
    forall i | 0 <= i < |workers| && i != w :: Fits(workers[i], to)
  }

  // ---------------------------------------------------------------------------------------
  // Steps
  // ---------------------------------------------------------------------------------------

  datatype Step =
    | Accept(tid: nat)
    | LockFlush
    | SeeFlushed
    | LockAllocator
    | RunOut
    | LockFlushExclusive
    | Flush
    | SkipFlush
    | InsertOnDisk
    | Allocate(level: nat)
    | PassWait
    | ReadEntry
    | KeepShared
    | GiveUpShared
    | LockWait
    | LockEntryExclusive
    | JoinDuplicate(element: nat)
    | AddElement
    | UpdateEntry
    | UnlockEntry
    | UnlockFlush

  /** InsertTupleInMemory: the element is likely to become the entry point. */
  predicate Raises(s: State, level: nat, entry: Option<nat>) {
    entry.None? || (entry.value < |s.elements| && level > s.elements[entry.value].level)
  }

  /** Where worker w goes, or nowhere if the step is not possible there. */
  function Target(s: State, w: Worker, step: Step): Option<Worker> {
    match step
    case Accept(tid) => if w.Idle? && tid !in s.accepted then Some(Arriving(tid)) else None
    case LockFlush => if w.Arriving? then Some(Checking(w.tid)) else None
    case SeeFlushed => if w.Checking? && s.flushed then Some(OnDisk(w.tid)) else None
    case LockAllocator => if w.Checking? && !s.flushed then Some(Allocating(w.tid)) else None
    case RunOut => if w.Allocating? then Some(OutOfMemory(w.tid)) else None
    case LockFlushExclusive => if w.OutOfMemory? then Some(Flushing(w.tid)) else None
    case Flush => if w.Flushing? && !s.flushed then Some(OnDisk(w.tid)) else None
    case SkipFlush => if w.Flushing? && s.flushed then Some(OnDisk(w.tid)) else None
    case InsertOnDisk => if w.OnDisk? then Some(Idle) else None
    case Allocate(level) => if w.Allocating? then Some(Allocated(w.tid, level)) else None
    case PassWait => if w.Allocated? then Some(Ready(w.tid, w.level)) else None
    case ReadEntry => if w.Ready? then Some(Reading(w.tid, w.level, s.entry)) else None
    case KeepShared =>
      if w.Reading? && !Raises(s, w.level, w.entry) then Some(Linking(w.tid, w.level, w.entry, false)) else None
    case GiveUpShared => if w.Reading? && Raises(s, w.level, w.entry) then Some(Raising(w.tid, w.level)) else None
    case LockWait => if w.Raising? then Some(HoldingWait(w.tid, w.level)) else None
    case LockEntryExclusive => if w.HoldingWait? then Some(Linking(w.tid, w.level, s.entry, true)) else None
    case JoinDuplicate(e) =>
      if w.Linking? && e < |s.elements| && |s.elements[e].heaptids| < HEAPTIDS then Some(Unlocking(w.exclusive))
      else None
    case AddElement => if w.Linking? then Some(Linked(w.level, w.entry, w.exclusive, |s.elements|)) else None
    case UpdateEntry => if w.Linked? then Some(Unlocking(w.exclusive)) else None
    case UnlockEntry => if w.Unlocking? then Some(Leaving) else None
    case UnlockFlush => if w.Leaving? then Some(Idle) else None
  }

  /** A pass through the wait lock needs it to be free for a moment. */
  ghost predicate Passes(s: State, w: nat, step: Step) {
    step.PassWait? ==> forall i | 0 <= i < |s.workers| :: EntryWaitLock(s.workers[i]) == Free
  }

  ghost predicate Enabled(s: State, w: nat, step: Step) {
    && w < |s.workers| && Target(s, s.workers[w], step).Some?
    && Granted(s.workers, w, Target(s, s.workers[w], step).value) && Passes(s, w, step)
  }

  ghost function Apply(s: State, w: nat, step: Step): State
    requires Enabled(s, w, step)
  {
    var me := s.workers[w];
    var moved := s.(workers := s.workers[w := Target(s, me, step).value]);
    match step
    case Accept(tid) => moved.(accepted := s.accepted + {tid})
    case Flush => moved.(flushed := true)
    case InsertOnDisk => moved.(disk := s.disk + multiset{me.tid})
    case JoinDuplicate(e) =>
      moved.(elements := s.elements[e := Element(s.elements[e].heaptids + [me.tid], s.elements[e].level)])
    case AddElement => moved.(elements := s.elements + [Element([me.tid], me.level)])
    case UpdateEntry => if Raises(s, me.level, me.entry) then moved.(entry := Some(me.index)) else moved
    case _ => moved
  }

  ghost predicate Init(s: State) {
    && (forall i | 0 <= i < |s.workers| :: s.workers[i] == Idle)
    && s.elements == [] && s.entry == None && !s.flushed && s.disk == multiset{} && s.accepted == {}
  }

  /** After the scan the leader writes the graph, if no worker had to. */
  ghost predicate FinalFlush(s: State, s': State) {
    (forall i | 0 <= i < |s.workers| :: s.workers[i] == Idle) && !s.flushed && s' == s.(flushed := true)
  }

  ghost predicate Next(s: State, s': State) {
    FinalFlush(s, s') || exists w: nat, step :: Enabled(s, w, step) && s' == Apply(s, w, step)
  }

  ghost predicate IsRun(run: seq<State>) {
    && run != [] && Init(run[0])
    && forall i | 0 <= i < |run| - 1 :: Next(run[i], run[i + 1])
  }

  // ---------------------------------------------------------------------------------------
  // What every step keeps
  // ---------------------------------------------------------------------------------------

  ghost predicate Mutex(workers: seq<Worker>) {
    forall i, j | 0 <= i < j < |workers| :: Fits(workers[i], workers[j])
  }

  /** Allocated but not yet out of shared memory: what must not overlap the flush. */
  predicate InMemory(w: Worker) {
    !(w.Idle? || w.Arriving? || w.Checking? || w.OutOfMemory? || w.Flushing? || w.OnDisk?)
  }

  ghost predicate NoInsertAfterFlush(workers: seq<Worker>, flushed: bool) {
    flushed ==> forall i | 0 <= i < |workers| :: !InMemory(workers[i])
  }

  /** The TID that a worker holds and that is not placed yet. */
  function Pending(w: Worker): Option<nat> {
    if w.Idle? || w.Linked? || w.Unlocking? || w.Leaving? then None else Some(w.tid)
  }

  function Tids(elements: seq<Element>): multiset<nat> {
    if elements == [] then multiset{}
    else Tids(elements[..|elements| - 1]) + multiset(elements[|elements| - 1].heaptids)
  }

  function Placed(s: State): multiset<nat> { Tids(s.elements) + s.disk }

  ghost predicate IsPending(workers: seq<Worker>, t: nat) {
    exists i :: 0 <= i < |workers| && Pending(workers[i]) == Some(t)
  }

  /** Every accepted TID is pending with one worker or placed once, and nothing else is. */
  ghost predicate OnePlace(workers: seq<Worker>, placed: multiset<nat>, accepted: set<nat>) {
    && (forall i, j | 0 <= i < j < |workers| && Pending(workers[i]).Some? :: Pending(workers[i]) != Pending(workers[j]))
    && (forall t: nat | IsPending(workers, t) :: t in accepted)
    && (forall t: nat :: placed[t] == if t in accepted && !IsPending(workers, t) then 1 else 0)
  }

  ghost predicate EntryIn(elements: seq<Element>, entry: Option<nat>) {
    entry.Some? ==> entry.value < |elements|
  }

  /** No element is above the entry point, but one that a worker with the exclusive lock has just added. */
  ghost predicate EntryIsTop(elements: seq<Element>, entry: Option<nat>, but: Option<nat>) {
    && EntryIn(elements, entry)
    && forall e | 0 <= e < |elements| && Some(e) != but ::
       entry.Some? && elements[e].level <= elements[entry.value].level
  }

  /** The element that such a worker has added. */
  function Added(w: Worker): Option<nat> {
    if w.Linked? && w.exclusive then Some(w.index) else None
  }

  /** What a worker knows about the entry point while it has the entry lock. */
  ghost predicate Knows(elements: seq<Element>, entry: Option<nat>, w: Worker) {
    && (w.Reading? || w.Linking? || w.Linked? ==> w.entry == entry)
    && ((w.Linking? || w.Linked?) && !w.exclusive ==>
        entry.Some? && entry.value < |elements| && w.level <= elements[entry.value].level)
    && (w.Linked? ==> w.index < |elements| && elements[w.index].level == w.level)
  }

  ghost predicate EntryOk(s: State) {
    && (forall i | 0 <= i < |s.workers| :: Knows(s.elements, s.entry, s.workers[i]))
    && (forall i | 0 <= i < |s.workers| && Added(s.workers[i]).Some? ::
        EntryIsTop(s.elements, s.entry, Added(s.workers[i])))
    && ((forall i | 0 <= i < |s.workers| :: Added(s.workers[i]).None?) ==> EntryIsTop(s.elements, s.entry, None))
  }

  ghost predicate Inv(s: State) {
    && Mutex(s.workers) && NoInsertAfterFlush(s.workers, s.flushed)
    && OnePlace(s.workers, Placed(s), s.accepted) && EntryOk(s)
  }

  lemma MutexStep(workers: seq<Worker>, w: nat, to: Worker)
    requires Mutex(workers) && w < |workers| && Granted(workers, w, to)
    ensures Mutex(workers[w := to])
  {
  }

  /** A worker that holds the flush lock in shared mode keeps the flush away. */
  lemma FlushExcludesInMemory(workers: seq<Worker>, w: nat)
    requires Mutex(workers) && w < |workers| && workers[w].Flushing?
    ensures forall i | 0 <= i < |workers| :: !InMemory(workers[i])
  {
    forall i | 0 <= i < |workers| ensures !InMemory(workers[i]) {
      if i < w { assert Fits(workers[i], workers[w]); } else if w < i { assert Fits(workers[w], workers[i]); }
    }
  }

  lemma NoInsertStep(s: State, w: nat, step: Step)
    requires Mutex(s.workers) && NoInsertAfterFlush(s.workers, s.flushed) && Enabled(s, w, step)
    ensures var s' := Apply(s, w, step); NoInsertAfterFlush(s'.workers, s'.flushed)
  {
    if step.Flush? { FlushExcludesInMemory(s.workers, w); }
  }

  // Where the TIDs are

  lemma {:induction false} TidsOfUpdate(elements: seq<Element>, e: nat, tid: nat)
    requires e < |elements|
    ensures Tids(elements[e := Element(elements[e].heaptids + [tid], elements[e].level)]) == Tids(elements) +
            multiset{tid}
  {
    var n := |elements| - 1;
    var x := Element(elements[e].heaptids + [tid], elements[e].level);
    if e == n {
      assert elements[e := x][..n] == elements[..n];
    } else {
      assert elements[e := x][..n] == elements[..n][e := x];
      TidsOfUpdate(elements[..n], e, tid);
    }
  }

  lemma TidsOfAppend(elements: seq<Element>, x: Element)
    ensures Tids(elements + [x]) == Tids(elements) + multiset(x.heaptids)
  {
    assert (elements + [x])[..|elements|] == elements;
  }

  /** A worker keeps its TID, places it, or accepts a new one. */
  ghost predicate TidMove(from: Worker, to: Worker, placed: multiset<nat>, accepted: set<nat>, placed': multiset<nat>,
                          accepted': set<nat>) {
    var p, q := Pending(from), Pending(to);
    || (p == q && placed' == placed && accepted' == accepted)
    || (p.Some? && q.None? && placed' == placed + multiset{p.value} && accepted' == accepted)
    || (p.None? && q.Some? && q.value !in accepted && placed' == placed && accepted' == accepted + {q.value})
  }

  predicate Places(step: Step) { step.InsertOnDisk? || step.JoinDuplicate? || step.AddElement? }

  lemma PlacingMoves(s: State, w: nat, step: Step)
    requires Enabled(s, w, step) && Places(step)
    ensures var s' := Apply(s, w, step);
      TidMove(s.workers[w], s'.workers[w], Placed(s), s.accepted, Placed(s'), s'.accepted)
  {
    PlacesItsTid(s, w, step);
  }

  lemma PlacesItsTid(s: State, w: nat, step: Step)
    requires Enabled(s, w, step) && Places(step)
    ensures Pending(s.workers[w]).Some? &&
            Placed(Apply(s, w, step)) == Placed(s) + multiset{Pending(s.workers[w]).value}
  {
    var me, s' := s.workers[w], Apply(s, w, step);
    if step.JoinDuplicate? {
      TidsOfUpdate(s.elements, step.element, me.tid);
      Regroup(Tids(s.elements), s.disk, me.tid);
    } else if step.AddElement? {
      TidsOfAppend(s.elements, Element([me.tid], me.level));
      assert multiset([me.tid]) == multiset{me.tid};
      Regroup(Tids(s.elements), s.disk, me.tid);
    }
  }

  lemma Regroup(a: multiset<nat>, b: multiset<nat>, t: nat)
    ensures a + multiset{t} + b == a + b + multiset{t} == a + (b + multiset{t})
  {
  }

  lemma OtherMoves(s: State, w: nat, step: Step)
    requires Enabled(s, w, step) && !Places(step)
    ensures var s' := Apply(s, w, step);
      TidMove(s.workers[w], s'.workers[w], Placed(s), s.accepted, Placed(s'), s'.accepted)
  {
    var s' := Apply(s, w, step);
    assert s'.elements == s.elements && s'.disk == s.disk;
    assert Placed(s') == Placed(s);
  }

  lemma PendingStep(workers: seq<Worker>, w: nat, to: Worker)
    requires w < |workers|
    requires forall i, j | 0 <= i < j < |workers| && Pending(workers[i]).Some? ::
             Pending(workers[i]) != Pending(workers[j])
    ensures forall t: nat :: IsPending(workers[w := to], t) <==>
                        Pending(to) == Some(t) || (IsPending(workers, t) && Pending(workers[w]) != Some(t))
  {
    var workers' := workers[w := to];
    forall t: nat
      ensures IsPending(workers', t) <==>
              Pending(to) == Some(t) || (IsPending(workers, t) && Pending(workers[w]) != Some(t))
    {
      if i :| 0 <= i < |workers'| && Pending(workers'[i]) == Some(t) && i != w {
        assert Pending(workers[i]) == Some(t);
      }
      if Pending(to) == Some(t) { assert Pending(workers'[w]) == Some(t); }
      if IsPending(workers, t) && Pending(workers[w]) != Some(t) {
        var i :| 0 <= i < |workers| && Pending(workers[i]) == Some(t);
        assert workers'[i] == workers[i];
      }
    }
  }

  lemma OnePlaceStep(workers: seq<Worker>, placed: multiset<nat>, accepted: set<nat>, w: nat, to: Worker,
                     placed': multiset<nat>, accepted': set<nat>)
    requires OnePlace(workers, placed, accepted) && w < |workers|
    requires TidMove(workers[w], to, placed, accepted, placed', accepted')
    ensures OnePlace(workers[w := to], placed', accepted')
  {
    PendingStep(workers, w, to);
    assert Pending(workers[w]).Some? ==> IsPending(workers, Pending(workers[w]).value);
    forall i | 0 <= i < |workers| && Pending(workers[i]).Some? ensures Pending(workers[i]).value in accepted {
      assert IsPending(workers, Pending(workers[i]).value);
    }
  }

  lemma AllInOnePlaceStep(s: State, w: nat, step: Step)
    requires OnePlace(s.workers, Placed(s), s.accepted) && Enabled(s, w, step)
    ensures var s' := Apply(s, w, step); OnePlace(s'.workers, Placed(s'), s'.accepted)
  {
    if Places(step) { PlacingMoves(s, w, step); } else { OtherMoves(s, w, step); }
    ApplyMovesWorker(s, w, step);
    var s' := Apply(s, w, step);
    OnePlaceStep(s.workers, Placed(s), s.accepted, w, s'.workers[w], Placed(s'), s'.accepted);
  }

  lemma ApplyMovesWorker(s: State, w: nat, step: Step)
    requires Enabled(s, w, step)
    ensures Apply(s, w, step).workers == s.workers[w := Target(s, s.workers[w], step).value]
  {
  }

  // The entry point

  /** While a worker holds the entry lock, no other one has added an element that may become the entry point. */
  lemma OthersHaveNotAdded(workers: seq<Worker>, w: nat)
    requires Mutex(workers) && w < |workers| && EntryLock(workers[w]) != Free
    ensures forall i | 0 <= i < |workers| && i != w :: Added(workers[i]).None?
    ensures EntryLock(workers[w]) == Exclusive ==>
            forall i | 0 <= i < |workers| && i != w :: EntryLock(workers[i]) == Free
  {
    forall i | 0 <= i < |workers| && i != w ensures Compatible(EntryLock(workers[i]), EntryLock(workers[w])) {
      if i < w { assert Fits(workers[i], workers[w]); } else { assert Fits(workers[w], workers[i]); }
    }
  }

  /** A step that leaves the graph and the entry point alone, and is not about an added element. */
  lemma MoveKeepsEntry(s: State, w: nat, to: Worker)
    requires EntryOk(s) && w < |s.workers| && Knows(s.elements, s.entry, to)
    requires Added(s.workers[w]).None? && Added(to).None?
    ensures EntryOk(s.(workers := s.workers[w := to]))
  {
    var workers' := s.workers[w := to];
    if forall i | 0 <= i < |workers'| :: Added(workers'[i]).None? {
      forall i | 0 <= i < |s.workers| ensures Added(s.workers[i]).None? {
        assert i != w ==> workers'[i] == s.workers[i];
      }
    }
  }

  lemma AddKeepsEntry(s: State, w: nat)
    requires Mutex(s.workers) && EntryOk(s) && Enabled(s, w, AddElement)
    ensures EntryOk(Apply(s, w, AddElement))
  {
    var s' := Apply(s, w, AddElement);
    var me := s.workers[w];
    OthersHaveNotAdded(s.workers, w);
    assert Added(me).None?;
    assert EntryIsTop(s.elements, s.entry, None);
    assert Knows(s.elements, s.entry, me);
    assert EntryIsTop(s'.elements, s'.entry, Added(s'.workers[w]));
    forall i | 0 <= i < |s'.workers| ensures Knows(s'.elements, s'.entry, s'.workers[i]) {
      assert i != w ==> Knows(s.elements, s.entry, s.workers[i]);
    }
    assert Added(s'.workers[w]).None? || Added(s'.workers[w]) == Some(|s.elements|);
  }

  lemma UpdateKeepsEntry(s: State, w: nat)
    requires Mutex(s.workers) && EntryOk(s) && Enabled(s, w, UpdateEntry)
    ensures EntryOk(Apply(s, w, UpdateEntry))
  {
    var s' := Apply(s, w, UpdateEntry);
    var me := s.workers[w];
    OthersHaveNotAdded(s.workers, w);
    assert Knows(s.elements, s.entry, me);
    if me.exclusive {
      assert EntryIsTop(s.elements, s.entry, Some(me.index));
    } else {
      assert EntryIsTop(s.elements, s.entry, None);
    }
    assert EntryIsTop(s'.elements, s'.entry, None);
    forall i | 0 <= i < |s'.workers| ensures Knows(s'.elements, s'.entry, s'.workers[i]) && Added(s'.workers[i]).None? {
      if i != w {
        assert Knows(s.elements, s.entry, s.workers[i]);
        assert me.exclusive ==> EntryLock(s.workers[i]) == Free;
      }
    }
  }

  lemma JoinKeepsEntry(s: State, w: nat, e: nat)
    requires Mutex(s.workers) && EntryOk(s) && Enabled(s, w, JoinDuplicate(e))
    ensures EntryOk(Apply(s, w, JoinDuplicate(e)))
  {
    var s' := Apply(s, w, JoinDuplicate(e));
    OthersHaveNotAdded(s.workers, w);
    assert Added(s.workers[w]).None?;
    assert EntryIsTop(s.elements, s.entry, None);
    forall i | 0 <= i < |s'.workers| ensures Knows(s'.elements, s'.entry, s'.workers[i]) && Added(s'.workers[i]).None? {
      assert i != w ==> Knows(s.elements, s.entry, s.workers[i]);
    }
  }

  lemma EntryStep(s: State, w: nat, step: Step)
    requires Mutex(s.workers) && EntryOk(s) && Enabled(s, w, step)
    ensures EntryOk(Apply(s, w, step))
  {
    match step
    case AddElement => AddKeepsEntry(s, w);
    case UpdateEntry => UpdateKeepsEntry(s, w);
    case JoinDuplicate(e) => JoinKeepsEntry(s, w, e);
    case _ =>
      var to := Target(s, s.workers[w], step).value;
      assert Knows(s.elements, s.entry, s.workers[w]);
      if s.workers[w].Reading? { SharedReadIsTop(s, w); }
      MoveKeepsEntry(s, w, to);
      assert EntryOk(s.(workers := s.workers[w := to]));
      SameEntryOk(s.(workers := s.workers[w := to]), Apply(s, w, step));
  }

  lemma SharedReadIsTop(s: State, w: nat)
    requires Mutex(s.workers) && EntryOk(s) && w < |s.workers| && s.workers[w].Reading?
    ensures EntryIn(s.elements, s.entry)
  {
    OthersHaveNotAdded(s.workers, w);
    assert Added(s.workers[w]).None?;
    assert EntryIsTop(s.elements, s.entry, None);
  }

  lemma SameEntryOk(s: State, t: State)
    requires EntryOk(s) && t.workers == s.workers && t.elements == s.elements && t.entry == s.entry
    ensures EntryOk(t)
  {
  }

  // Over whole runs

  lemma InvStep(s: State, s': State)
    requires Inv(s) && Next(s, s')
    ensures Inv(s')
  {
    if FinalFlush(s, s') {
      assert Placed(s') == Placed(s);
      SameEntryOk(s, s');
    } else {
      var w: nat, step :| Enabled(s, w, step) && s' == Apply(s, w, step);
      WorkerStep(s, w, step);
    }
  }

  lemma WorkerStep(s: State, w: nat, step: Step)
    requires Inv(s) && Enabled(s, w, step)
    ensures Inv(Apply(s, w, step))
  {
    MutexStep(s.workers, w, Target(s, s.workers[w], step).value);
    NoInsertStep(s, w, step);
    AllInOnePlaceStep(s, w, step);
    EntryStep(s, w, step);
    assert Apply(s, w, step).workers == s.workers[w := Target(s, s.workers[w], step).value];
  }

  lemma FlushedStep(s: State, s': State)
    requires NoInsertAfterFlush(s.workers, s.flushed) && s.flushed && Next(s, s')
    ensures s'.flushed && s'.elements == s.elements && s'.entry == s.entry
  {
    var w: nat, step :| Enabled(s, w, step) && s' == Apply(s, w, step);
    assert !InMemory(s.workers[w]);
  }

  lemma InvInit(s: State)
    requires Init(s)
    ensures Inv(s)
  {
  }

  lemma {:induction false} InvAlways(run: seq<State>, i: nat)
    requires IsRun(run) && i < |run|
    ensures Inv(run[i])
  {
    if i == 0 {
      InvInit(run[0]);
    } else {
      InvAlways(run, i - 1);
      InvStep(run[i - 1], run[i]);
    }
  }

  /** No in-memory insert overlaps the flush, in any run. */
  lemma FlushIsAlone(run: seq<State>, i: nat, w: nat)
    requires IsRun(run) && i < |run| && Enabled(run[i], w, Flush)
    ensures forall v | 0 <= v < |run[i].workers| :: !InMemory(run[i].workers[v])
  {
    InvAlways(run, i);
    FlushExcludesInMemory(run[i].workers, w);
  }

  lemma FlushedStepOf(run: seq<State>, i: nat)
    requires IsRun(run) && i + 1 < |run| && run[i].flushed
    ensures run[i + 1].flushed && run[i + 1].elements == run[i].elements && run[i + 1].entry == run[i].entry
  {
    InvAlways(run, i);
    FlushedStep(run[i], run[i + 1]);
  }

  /** Nor does one follow it: the flushed graph never changes again. */
  lemma FlushedGraphIsFinal(run: seq<State>, i: nat, j: nat)
    requires IsRun(run) && i <= j < |run| && run[i].flushed
    ensures run[j].flushed && run[j].elements == run[i].elements && run[j].entry == run[i].entry
    decreases j
  {
    if i < j {
      FlushedGraphIsFinal(run, i, j - 1);
      FlushedStepOf(run, j - 1);
    }
  }

  /** A step that writes the graph: the flush of a worker or that of the leader at the end. */
  ghost predicate Writes(s: State, s': State) {
    FinalFlush(s, s') || exists w: nat :: Enabled(s, w, Flush) && s' == Apply(s, w, Flush)
  }

  /** The graph is written at most once. */
  lemma WrittenAtMostOnce(run: seq<State>, i: nat, j: nat)
    requires IsRun(run) && i + 1 < |run| && j + 1 < |run|
    requires Writes(run[i], run[i + 1]) && Writes(run[j], run[j + 1])
    ensures i == j
  {
    if i < j {
      FlushedGraphIsFinal(run, i + 1, j);
    } else if j < i {
      FlushedGraphIsFinal(run, j + 1, i);
    }
  }

  /** A graph that counts as flushed has been written. */
  lemma {:induction false} FlushedWasWritten(run: seq<State>, i: nat) returns (j: nat)
    requires IsRun(run) && i < |run| && run[i].flushed
    ensures j < i && Writes(run[j], run[j + 1])
  {
    if run[i - 1].flushed {
      j := FlushedWasWritten(run, i - 1);
    } else {
      j := i - 1;
      if !FinalFlush(run[j], run[j + 1]) {
        var w: nat, step :| Enabled(run[j], w, step) && run[j + 1] == Apply(run[j], w, step);
        assert step.Flush?;
      }
    }
  }

  /** Once all workers are idle, every accepted TID is in one place, once. */
  lemma EveryTidIsPlacedOnce(run: seq<State>, i: nat)
    requires IsRun(run) && i < |run| && forall w | 0 <= w < |run[i].workers| :: run[i].workers[w] == Idle
    ensures Tids(run[i].elements) + run[i].disk == multiset(run[i].accepted)
  {
    InvAlways(run, i);
  }

  /** When the graph is written, its entry point has the maximum level. */
  lemma FlushedEntryIsTop(run: seq<State>, i: nat)
    requires IsRun(run) && i < |run| && (run[i].flushed || exists w: nat :: Enabled(run[i], w, Flush))
    ensures EntryIsTop(run[i].elements, run[i].entry, None)
  {
    InvAlways(run, i);
    var s := run[i];
    if w: nat :| Enabled(s, w, Flush) { FlushExcludesInMemory(s.workers, w); }
    forall v | 0 <= v < |s.workers| ensures Added(s.workers[v]).None? {
      assert !InMemory(s.workers[v]);
    }
  }
}
