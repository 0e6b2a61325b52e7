/**
  The agent-runner of `cmd/agent-runner`: `Submit`, `Cancel`, `CancelAll` and the goroutine
  `run` of every task, cut into their atomic steps, with crashes of the process and the
  repair done at the next start (`Store.FailOrphans`).

  A step is the code between two points where another goroutine can be seen: a semaphore
  operation, a write to the store, the audit line, the reply. Store writes succeed.
 */
module Scheduler {
  datatype TaskState = Submitted | Working | Completed | Failed | Canceled
  {
    predicate Terminal() {
      Completed? || Failed? || Canceled?
    }
  }

  /** How far `run` has come. */
  datatype Phase =
    | AwaitSlot       // at the worker's semaphore
    | AwaitGlobal     // holds the worker's semaphore, at the global one
    | Admitted        // holds both
    | Executing       // stored as working, the executor is running
    | Executed        // execute has returned, both still held
    | HoldsSlot       // only the worker's semaphore is left
    | Released        // holds nothing
    | Persisted
    | Audited
    | Replied
    | Finished        // the cancel registration is gone

  /** One goroutine: the task's own copy of its state, and whether its context is done. */
  datatype Run = Run(worker: string, phase: Phase, state: TaskState, canceled: bool)

  datatype Note = Note(id: string, state: TaskState)

  /**
    `slots` is the occupancy of `perTool` (one entry per configured worker), `global` that of the
    global semaphore of capacity `limit`. `creating` are tasks stored but not yet started.
    `store`, `audits` and `replies` outlive the process.
   */
  datatype Runner = Runner(
    limit: nat, slots: map<string, nat>, global: nat,
    creating: map<string, string>, runs: map<string, Run>, cancels: set<string>,
    up: bool, store: map<string, TaskState>, audits: seq<Note>, replies: seq<Note>)

  datatype Action =
    | Create(id: string, worker: string)
    | Launch(id: string)
    | Cancel(id: string)
    | CancelAll
    | TakeSlot(id: string)
    | GiveUpSlot(id: string)
    | TakeGlobal(id: string)
    | GiveUpGlobal(id: string)
    | MarkWorking(id: string)
    | Return(id: string, outcome: TaskState)
    | ReleaseGlobal(id: string)
    | ReleaseSlot(id: string)
    | Persist(id: string)
    | Audit(id: string)
    | Reply(id: string)
    | Deregister(id: string)
    | Crash
    | Restart
  {
    /** A step of some task's own goroutine (or of the `Submit` that starts it). */
    predicate OfTask() {
      !Create? && !Cancel? && !CancelAll? && !Crash? && !Restart?
    }
  }

  function FreeSlots(workers: set<string>): map<string, nat> {
    map w | w in workers :: 0
  }

  function NewRunner(limit: nat, workers: set<string>): Runner {
    Runner(limit, FreeSlots(workers), 0, map[], map[], {}, true, map[], [], [])
  }

  /** The phase in which a step of a running task is taken. */
  function StartOf(a: Action): Phase
    requires a.OfTask() && !a.Launch?
  {
    match a
    case TakeSlot(_) => AwaitSlot
    case GiveUpSlot(_) => AwaitSlot
    case TakeGlobal(_) => AwaitGlobal
    case GiveUpGlobal(_) => AwaitGlobal
    case MarkWorking(_) => Admitted
    case Return(_, _) => Executing
    case ReleaseGlobal(_) => Executed
    case ReleaseSlot(_) => HoldsSlot
    case Persist(_) => Released
    case Audit(_) => Persisted
    case Reply(_) => Audited
    case Deregister(_) => Replied
  }

  predicate Enabled(s: Runner, a: Action) {
    if a.Restart? then !s.up
    else if a.Crash? || a.CancelAll? then s.up
    else if a.Create? then s.up && a.id !in s.store
    else if a.Cancel? then s.up && a.id in s.store
    else if a.Launch? then s.up && a.id in s.creating
    else
      && s.up
      && a.id in s.runs
      && s.runs[a.id].phase == StartOf(a)
      && var r := s.runs[a.id];
         match a
         // A worker that is not configured has a nil channel: sending to it never proceeds.
         case TakeSlot(_) => r.worker in s.slots && s.slots[r.worker] < 1
         case GiveUpSlot(_) => r.canceled
         case ReleaseSlot(_) => r.worker in s.slots && s.slots[r.worker] > 0
         case TakeGlobal(_) => s.global < s.limit
         case ReleaseGlobal(_) => s.global > 0
         case GiveUpGlobal(_) => r.canceled
         // A done context never completes, and only a done context is canceled.
         case Return(_, outcome) =>
           outcome.Terminal() && (outcome.Canceled? ==> r.canceled) && (outcome.Completed? ==> !r.canceled)
         case _ => true
  }

  function Interrupt(r: Run): Run {
    r.(canceled := true)
  }

  /** The goroutine after its step. */
  function Moved(r: Run, a: Action): Run
    requires a.OfTask() && !a.Launch?
  {
    match a
    case TakeSlot(_) => r.(phase := AwaitGlobal)
    case GiveUpSlot(_) => r.(phase := Released)
    case TakeGlobal(_) => r.(phase := Admitted)
    case GiveUpGlobal(_) => r.(phase := HoldsSlot)
    case MarkWorking(_) => r.(phase := Executing, state := Working)
    case Return(_, outcome) => r.(phase := Executed, state := outcome)
    case ReleaseGlobal(_) => r.(phase := HoldsSlot)
    case ReleaseSlot(_) => r.(phase := Released)
    case Persist(_) => r.(phase := Persisted, state := if r.state.Terminal() then r.state else Canceled)
    case Audit(_) => r.(phase := Audited)
    case Reply(_) => r.(phase := Replied)
    case Deregister(_) => r.(phase := Finished)
  }

  function FailOrphans(store: map<string, TaskState>): map<string, TaskState> {
    map id | id in store :: if store[id].Terminal() then store[id] else Failed
  }

  function SlotsAfter(slots: map<string, nat>, w: string, a: Action): map<string, nat>
    requires (a.TakeSlot? || a.ReleaseSlot?) ==> w in slots
    requires a.ReleaseSlot? ==> slots[w] > 0
  {
    if a.TakeSlot? then slots[w := slots[w] + 1]
    else if a.ReleaseSlot? then slots[w := slots[w] - 1]
    else slots
  }

  function GlobalAfter(global: nat, a: Action): nat
    requires a.ReleaseGlobal? ==> global > 0
  {
    if a.TakeGlobal? then global + 1 else if a.ReleaseGlobal? then global - 1 else global
  }

  function StoreAfter(store: map<string, TaskState>, id: string, r: Run, a: Action): map<string, TaskState> {
    if a.MarkWorking? || a.Persist? then store[id := r.state] else store
  }

  /** A step of the goroutine of a running task. */
  function ApplyTask(s: Runner, a: Action): Runner
    requires Enabled(s, a) && a.OfTask() && !a.Launch?
  {
    var id, r := a.id, Moved(s.runs[a.id], a);
    s.(runs := s.runs[id := r],
       slots := SlotsAfter(s.slots, r.worker, a),
       global := GlobalAfter(s.global, a),
       store := StoreAfter(s.store, id, r, a),
       audits := if a.Audit? then s.audits + [Note(id, r.state)] else s.audits,
       replies := if a.Reply? then s.replies + [Note(id, r.state)] else s.replies,
       cancels := if a.Deregister? then s.cancels - {id} else s.cancels)
  }

  function Apply(s: Runner, a: Action): Runner
    requires Enabled(s, a)
  {
    if a.OfTask() && !a.Launch? then ApplyTask(s, a)
    else
      match a
      case Create(id, worker) => s.(store := s.store[id := Submitted], creating := s.creating[id := worker])
      case Launch(id) =>
        s.(creating := s.creating - {id}, cancels := s.cancels + {id},
           runs := s.runs[id := Run(s.creating[id], AwaitSlot, Submitted, false)])
      case Cancel(id) =>
        if id in s.cancels && id in s.runs then s.(runs := s.runs[id := Interrupt(s.runs[id])]) else s
      case CancelAll =>
        s.(runs := map id | id in s.runs :: if id in s.cancels then Interrupt(s.runs[id]) else s.runs[id])
      case Crash =>
        s.(slots := FreeSlots(s.slots.Keys), global := 0, creating := map[], runs := map[], cancels := {}, up := false)
      case Restart => s.(store := FailOrphans(s.store), up := true)
      case _ => s
  }

  ghost predicate Runs(s: Runner, actions: seq<Action>, end: Runner)
    decreases |actions|
  {
    if actions == [] then s == end
    else Enabled(s, actions[0]) && Runs(Apply(s, actions[0]), actions[1..], end)
  }

  // ----- Semaphores -----

  predicate HasSlot(p: Phase) {
    p.AwaitGlobal? || p.Admitted? || p.Executing? || p.Executed? || p.HoldsSlot?
  }

  predicate HasGlobal(p: Phase) {
    p.Admitted? || p.Executing? || p.Executed?
  }

  function SlotHolders(runs: map<string, Run>, worker: string): set<string> {
    set id | id in runs && runs[id].worker == worker && HasSlot(runs[id].phase)
  }

  function GlobalHolders(runs: map<string, Run>): set<string> {
    set id | id in runs && HasGlobal(runs[id].phase)
  }

  /** A worker's semaphore counts exactly the tasks that hold it, and never more than one. */
  ghost predicate SlotsCount(slots: map<string, nat>, runs: map<string, Run>) {
    && (forall w :: w in slots ==> slots[w] == |SlotHolders(runs, w)| <= 1)
    && (forall id :: id in runs && HasSlot(runs[id].phase) ==> runs[id].worker in slots)
  }

  ghost predicate GlobalCounts(limit: nat, global: nat, runs: map<string, Run>) {
    global == |GlobalHolders(runs)| <= limit
  }

  ghost predicate SemaphoresCount(s: Runner) {
    SlotsCount(s.slots, s.runs) && GlobalCounts(s.limit, s.global, s.runs)
  }

  function Bit(b: bool): nat {
    if b then 1 else 0
  }

  lemma SlotHoldersUpdate(runs: map<string, Run>, id: string, r: Run, w: string)
    requires id in runs && runs[id].worker == r.worker
    ensures |SlotHolders(runs[id := r], w)| ==
            |SlotHolders(runs, w)| + Bit(r.worker == w && HasSlot(r.phase)) - Bit(r.worker == w && HasSlot(runs[id].phase))
  {
    var before, after := SlotHolders(runs, w), SlotHolders(runs[id := r], w);
    assert after == if r.worker == w && HasSlot(r.phase) then before + {id} else before - {id};
  }

  lemma GlobalHoldersUpdate(runs: map<string, Run>, id: string, r: Run)
    requires id in runs
    ensures |GlobalHolders(runs[id := r])| ==
            |GlobalHolders(runs)| + Bit(HasGlobal(r.phase)) - Bit(HasGlobal(runs[id].phase))
  {
    var before, after := GlobalHolders(runs), GlobalHolders(runs[id := r]);
    assert after == if HasGlobal(r.phase) then before + {id} else before - {id};
  }

  /** A step changes what its task holds exactly when it operates on that semaphore. */
  lemma MovedHolds(r: Run, a: Action)
    requires a.OfTask() && !a.Launch? && r.phase == StartOf(a)
    ensures Moved(r, a).worker == r.worker
    ensures Bit(HasSlot(Moved(r, a).phase)) == Bit(HasSlot(r.phase)) + Bit(a.TakeSlot?) - Bit(a.ReleaseSlot?)
    ensures Bit(HasGlobal(Moved(r, a).phase)) == Bit(HasGlobal(r.phase)) + Bit(a.TakeGlobal?) - Bit(a.ReleaseGlobal?)
  {
  }

  lemma TaskStepKeepsSlots(s: Runner, a: Action)
    requires SlotsCount(s.slots, s.runs) && Enabled(s, a) && a.OfTask() && !a.Launch?
    ensures var r := Moved(s.runs[a.id], a);
            SlotsCount(SlotsAfter(s.slots, r.worker, a), s.runs[a.id := r])
  {
    var id, r := a.id, Moved(s.runs[a.id], a);
    MovedHolds(s.runs[id], a);
    forall w ensures |SlotHolders(s.runs[id := r], w)| == |SlotHolders(s.runs, w)|
                     + (if r.worker == w then Bit(a.TakeSlot?) - Bit(a.ReleaseSlot?) else 0) {
      SlotHoldersUpdate(s.runs, id, r, w);
    }
  }

  lemma TaskStepKeepsGlobal(s: Runner, a: Action)
    requires GlobalCounts(s.limit, s.global, s.runs) && Enabled(s, a) && a.OfTask() && !a.Launch?
    ensures GlobalCounts(s.limit, GlobalAfter(s.global, a), s.runs[a.id := Moved(s.runs[a.id], a)])
  {
    MovedHolds(s.runs[a.id], a);
    GlobalHoldersUpdate(s.runs, a.id, Moved(s.runs[a.id], a));
  }

  /** Runs that differ only in what no semaphore looks at. */
  lemma SameHolders(s: Runner, runs: map<string, Run>)
    requires SemaphoresCount(s)
    requires forall id :: id in s.runs ==>
               id in runs && runs[id].worker == s.runs[id].worker && runs[id].phase == s.runs[id].phase
    requires forall id :: id in runs && id !in s.runs ==> runs[id].phase.AwaitSlot?
    ensures SemaphoresCount(s.(runs := runs))
  {
    assert GlobalHolders(runs) == GlobalHolders(s.runs);
    forall w ensures SlotHolders(runs, w) == SlotHolders(s.runs, w) {
    }
  }

  lemma StepKeepsSemaphores(s: Runner, a: Action)
    requires SemaphoresCount(s) && Enabled(s, a) && (a.Launch? ==> a.id !in s.runs)
    ensures SemaphoresCount(Apply(s, a))
  {
    var end := Apply(s, a);
    if a.OfTask() && !a.Launch? {
      TaskStepKeepsSlots(s, a);
      TaskStepKeepsGlobal(s, a);
    } else if a.Crash? {
      assert GlobalHolders(end.runs) == {};
      assert forall w :: SlotHolders(end.runs, w) == {};
    } else {
      SameHolders(s, end.runs);
    }
  }

  // ----- The stored state of a task -----

  /** How a goroutine's own copy of the state and the stored one fit its progress. */
  predicate StateFits(r: Run, stored: TaskState) {
    match r.phase
    case AwaitSlot => r.state == Submitted && stored == Submitted
    case AwaitGlobal => r.state == Submitted && stored == Submitted
    case Admitted => r.state == Submitted && stored == Submitted
    case Executing => r.state == Working && stored == Working
    case Executed => r.state.Terminal() && stored == Working
    case HoldsSlot => (r.state == Submitted && stored == Submitted) || (r.state.Terminal() && stored == Working)
    case Released => (r.state == Submitted && stored == Submitted) || (r.state.Terminal() && stored == Working)
    case _ => r.state.Terminal() && stored == r.state
  }

  ghost predicate RunsStored(s: Runner) {
    && (forall id :: id in s.runs ==> id in s.store && StateFits(s.runs[id], s.store[id]))
    && (forall id :: id in s.creating ==> id in s.store && s.store[id] == Submitted && id !in s.runs)
  }

  /** While the process is up, a stored task is over or is being worked on. */
  ghost predicate NoOrphans(s: Runner) {
    if s.up then forall id :: id in s.store && !s.store[id].Terminal() ==> id in s.creating || id in s.runs
    else s.runs == map[] && s.creating == map[]
  }

  /** The registered cancel functions are those of the unfinished runs. */
  ghost predicate CancelsRegistered(s: Runner) {
    forall id :: id in s.cancels <==> id in s.runs && !s.runs[id].phase.Finished?
  }

  /** One write to the store: nothing, submitted to working, or anything unfinished to terminal. */
  predicate StoredStep(x: TaskState, y: TaskState) {
    x == y || (x == Submitted && y == Working) || (!x.Terminal() && y.Terminal())
  }

  lemma MovedFits(r: Run, stored: TaskState, a: Action)
    requires a.OfTask() && !a.Launch? && r.phase == StartOf(a) && StateFits(r, stored)
    requires a.Return? ==> a.outcome.Terminal()
    ensures var written := if a.MarkWorking? || a.Persist? then Moved(r, a).state else stored;
            StateFits(Moved(r, a), written) && StoredStep(stored, written)
  {
  }

  lemma StepKeepsStored(s: Runner, a: Action)
    requires RunsStored(s) && Enabled(s, a) && (!s.up ==> NoOrphans(s))
    ensures RunsStored(Apply(s, a))
  {
    var end := Apply(s, a);
    if a.OfTask() && !a.Launch? {
      MovedFits(s.runs[a.id], s.store[a.id], a);
    }
  }

  lemma StepKeepsNoOrphans(s: Runner, a: Action)
    requires RunsStored(s) && NoOrphans(s) && Enabled(s, a)
    ensures NoOrphans(Apply(s, a))
  {
    if a.OfTask() && !a.Launch? {
      MovedFits(s.runs[a.id], s.store[a.id], a);
    }
  }

  lemma StepKeepsCancels(s: Runner, a: Action)
    requires CancelsRegistered(s) && Enabled(s, a)
    ensures CancelsRegistered(Apply(s, a))
  {
    if a.OfTask() && !a.Launch? {
      assert !s.runs[a.id].phase.Finished?;
      assert Moved(s.runs[a.id], a).phase.Finished? <==> a.Deregister?;
    }
  }

  lemma StepAdvancesStore(s: Runner, a: Action)
    requires RunsStored(s) && Enabled(s, a)
    ensures forall id :: id in s.store ==> id in Apply(s, a).store && StoredStep(s.store[id], Apply(s, a).store[id])
  {
    if a.OfTask() && !a.Launch? {
      MovedFits(s.runs[a.id], s.store[a.id], a);
    }
  }

  // ----- Audit lines and replies -----

  ghost predicate Logged(log: seq<Note>, id: string) {
    exists i :: 0 <= i < |log| && log[i].id == id
  }

  /** No task appears twice, and each line tells the state the store keeps for good. */
  ghost predicate LogTruthful(log: seq<Note>, store: map<string, TaskState>) {
    && (forall i, j :: 0 <= i < j < |log| ==> log[i].id != log[j].id)
    && (forall i :: 0 <= i < |log| ==>
          log[i].id in store && log[i].state == store[log[i].id] && log[i].state.Terminal())
  }

  datatype LogKind = AuditLog | ReplyLog

  /** Whether a run in this phase has already written to the log. */
  predicate Past(kind: LogKind, p: Phase) {
    p.Replied? || p.Finished? || (kind.AuditLog? && p.Audited?)
  }

  ghost predicate LogKept(kind: LogKind, log: seq<Note>, runs: map<string, Run>, store: map<string, TaskState>) {
    && LogTruthful(log, store)
    && (forall id :: id in runs ==> (Logged(log, id) <==> Past(kind, runs[id].phase)))
  }

  ghost predicate LogsKept(s: Runner) {
    LogKept(AuditLog, s.audits, s.runs, s.store) && LogKept(ReplyLog, s.replies, s.runs, s.store)
  }

  ghost predicate AuditedFirst(s: Runner) {
    forall id :: Logged(s.replies, id) ==> Logged(s.audits, id)
  }

  lemma LogSurvives(log: seq<Note>, store: map<string, TaskState>, store': map<string, TaskState>)
    requires LogTruthful(log, store)
    requires forall id :: id in store ==> id in store' && StoredStep(store[id], store'[id])
    ensures LogTruthful(log, store')
  {
  }

  lemma LogAppended(log: seq<Note>, id: string, state: TaskState)
    ensures forall x :: Logged(log + [Note(id, state)], x) <==> Logged(log, x) || x == id
  {
    var log' := log + [Note(id, state)];
    forall x ensures Logged(log', x) <==> Logged(log, x) || x == id {
      if Logged(log, x) {
        var i :| 0 <= i < |log| && log[i].id == x;
        assert log'[i].id == x;
      }
      assert log'[|log|].id == id;
    }
  }

  lemma LogWritten(log: seq<Note>, store: map<string, TaskState>, id: string)
    requires LogTruthful(log, store) && !Logged(log, id) && id in store && store[id].Terminal()
    ensures LogTruthful(log + [Note(id, store[id])], store)
  {
  }

  /** The log after one run moved on, having written a line or not. */
  lemma LogFollows(kind: LogKind, log: seq<Note>, runs: map<string, Run>, store: map<string, TaskState>, id: string, r: Run,
                   writes: bool)
    requires LogKept(kind, log, runs, store) && id in runs
    requires Past(kind, r.phase) <==> Past(kind, runs[id].phase) || writes
    requires writes ==> !Past(kind, runs[id].phase) && id in store && store[id] == r.state && r.state.Terminal()
    ensures LogKept(kind, if writes then log + [Note(id, r.state)] else log, runs[id := r], store)
  {
    if writes {
      LogWritten(log, store, id);
      LogAppended(log, id, r.state);
    }
  }

  predicate Writes(kind: LogKind, a: Action) {
    if kind.AuditLog? then a.Audit? else a.Reply?
  }

  lemma WritesOnce(kind: LogKind, r: Run, a: Action)
    requires a.OfTask() && !a.Launch? && r.phase == StartOf(a)
    ensures Past(kind, Moved(r, a).phase) <==> Past(kind, r.phase) || Writes(kind, a)
    ensures Writes(kind, a) ==> !Past(kind, r.phase)
  {
  }

  lemma WritesFinalState(kind: LogKind, r: Run, stored: TaskState, a: Action)
    requires a.OfTask() && !a.Launch? && r.phase == StartOf(a) && StateFits(r, stored) && Writes(kind, a)
    ensures Moved(r, a).state == stored && stored.Terminal() && !a.MarkWorking? && !a.Persist?
  {
  }

  lemma TaskStepKeepsLog(s: Runner, a: Action, kind: LogKind, log: seq<Note>)
    requires RunsStored(s) && Enabled(s, a) && a.OfTask() && !a.Launch?
    requires LogKept(kind, log, s.runs, s.store)
    ensures var r, end := Moved(s.runs[a.id], a), Apply(s, a);
            LogKept(kind, if Writes(kind, a) then log + [Note(a.id, r.state)] else log, end.runs, end.store)
  {
    var was, r, end := s.runs[a.id], Moved(s.runs[a.id], a), Apply(s, a);
    StepAdvancesStore(s, a);
    LogSurvives(log, s.store, end.store);
    WritesOnce(kind, was, a);
    if Writes(kind, a) {
      WritesFinalState(kind, was, s.store[a.id], a);
    }
    LogFollows(kind, log, s.runs, end.store, a.id, r, Writes(kind, a));
  }

  lemma StepKeepsLogs(s: Runner, a: Action)
    requires RunsStored(s) && LogsKept(s) && Enabled(s, a)
    ensures LogsKept(Apply(s, a))
  {
    var end := Apply(s, a);
    if a.OfTask() && !a.Launch? {
      TaskStepKeepsLog(s, a, AuditLog, s.audits);
      TaskStepKeepsLog(s, a, ReplyLog, s.replies);
    } else {
      StepAdvancesStore(s, a);
      LogSurvives(s.audits, s.store, end.store);
      LogSurvives(s.replies, s.store, end.store);
    }
  }

  lemma StepKeepsAuditedFirst(s: Runner, a: Action)
    requires LogsKept(s) && AuditedFirst(s) && Enabled(s, a)
    ensures AuditedFirst(Apply(s, a))
  {
    if a.Audit? {
      LogAppended(s.audits, a.id, Moved(s.runs[a.id], a).state);
    } else if a.Reply? {
      LogAppended(s.replies, a.id, Moved(s.runs[a.id], a).state);
    }
  }

  ghost predicate Inv(s: Runner) {
    && SemaphoresCount(s)
    && RunsStored(s)
    && NoOrphans(s)
    && CancelsRegistered(s)
    && LogsKept(s)
    && AuditedFirst(s)
  }

  lemma StepKeepsInv(s: Runner, a: Action)
    requires Inv(s) && Enabled(s, a)
    ensures Inv(Apply(s, a))
  {
    StepKeepsSemaphores(s, a);
    StepKeepsStored(s, a);
    StepKeepsNoOrphans(s, a);
    StepKeepsCancels(s, a);
    StepKeepsLogs(s, a);
    StepKeepsAuditedFirst(s, a);
  }

  lemma NewRunnerInv(limit: nat, workers: set<string>)
    ensures Inv(NewRunner(limit, workers))
  {
    var s := NewRunner(limit, workers);
    assert GlobalHolders(s.runs) == {};
    assert forall w :: SlotHolders(s.runs, w) == {};
  }

  lemma {:induction false} RunKeepsInv(s: Runner, actions: seq<Action>, end: Runner)
    requires Inv(s) && Runs(s, actions, end)
    ensures Inv(end)
    ensures end.limit == s.limit && end.slots.Keys == s.slots.Keys
    decreases |actions|
  {
    if actions != [] {
      StepKeepsInv(s, actions[0]);
      StepKeepsConfig(s, actions[0]);
      RunKeepsInv(Apply(s, actions[0]), actions[1..], end);
    }
  }

  lemma StepKeepsConfig(s: Runner, a: Action)
    requires Enabled(s, a)
    ensures Apply(s, a).limit == s.limit && Apply(s, a).slots.Keys == s.slots.Keys
  {
  }
}
