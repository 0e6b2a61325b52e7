/**
  What holds of every run of the agent-runner: mutual exclusion, the life of a stored task,
  once-only audit lines and replies, and progress until every task has finished.
 */
module SchedulerRuns {
  import opened Scheduler
  import opened Sums

  function ExecutingTasks(s: Runner): set<string> {
    set id | id in s.runs && s.runs[id].phase.Executing?
  }

  function ExecutingOn(s: Runner, worker: string): set<string> {
    set id | id in s.runs && s.runs[id].phase.Executing? && s.runs[id].worker == worker
  }

  lemma SubsetSize<T>(a: set<T>, b: set<T>)
    requires a <= b
    ensures |a| <= |b|
  {
    assert b == a + (b - a);
  }

  /**
    In every reachable state at most one task executes per worker and at most `limit` in all,
    whatever was submitted, canceled, crashed and restarted on the way.
   */
  lemma MutualExclusion(limit: nat, workers: set<string>, actions: seq<Action>, s: Runner, worker: string)
    requires Runs(NewRunner(limit, workers), actions, s)
    ensures |ExecutingTasks(s)| <= limit
    ensures |ExecutingOn(s, worker)| <= 1
    ensures ExecutingOn(s, worker) != {} ==> worker in workers
    ensures s.global == |GlobalHolders(s.runs)|
    ensures forall w :: w in workers ==> w in s.slots && s.slots[w] == |SlotHolders(s.runs, w)|
  {
    NewRunnerInv(limit, workers);
    RunKeepsInv(NewRunner(limit, workers), actions, s);
    SubsetSize(ExecutingTasks(s), GlobalHolders(s.runs));
    SubsetSize(ExecutingOn(s, worker), SlotHolders(s.runs, worker));
    assert forall id :: id in ExecutingOn(s, worker) ==> HasSlot(s.runs[id].phase);
    if worker !in workers {
      assert ExecutingOn(s, worker) == {};
    }
  }

  // ----- The life of a task -----

  /** Submitted, then possibly working, then one terminal state for good. */
  predicate Reaches(x: TaskState, y: TaskState) {
    x == y || x == Submitted || (x == Working && y.Terminal())
  }

  lemma {:induction false} StoredTasksOnlyAdvance(s: Runner, actions: seq<Action>, end: Runner)
    requires Inv(s) && Runs(s, actions, end)
    ensures forall id :: id in s.store ==> id in end.store && Reaches(s.store[id], end.store[id])
    decreases |actions|
  {
    if actions != [] {
      var mid := Apply(s, actions[0]);
      StepKeepsInv(s, actions[0]);
      StepAdvancesStore(s, actions[0]);
      StoredTasksOnlyAdvance(mid, actions[1..], end);
      forall id | id in s.store ensures id in end.store && Reaches(s.store[id], end.store[id]) {
        assert Reaches(mid.store[id], end.store[id]);
      }
    }
  }

  /** From any moment of any run to any later one, across crashes, a terminal state never changes. */
  lemma TerminalIsFinal(limit: nat, workers: set<string>, before: seq<Action>, s: Runner, after: seq<Action>, end: Runner, id: string)
    requires Runs(NewRunner(limit, workers), before, s) && Runs(s, after, end) && id in s.store
    ensures id in end.store && Reaches(s.store[id], end.store[id])
    ensures s.store[id].Terminal() ==> end.store[id] == s.store[id]
  {
    NewRunnerInv(limit, workers);
    RunKeepsInv(NewRunner(limit, workers), before, s);
    StoredTasksOnlyAdvance(s, after, end);
  }

  /** A task of an earlier incarnation: nothing that runs will come back to it. */
  ghost predicate Abandoned(s: Runner, id: string) {
    id in s.store && s.store[id].Terminal() && id !in s.creating && id !in s.runs
  }

  /** As far as this task goes, nothing happened. */
  ghost predicate Untouched(s: Runner, end: Runner, id: string)
    requires id in s.store
  {
    && id in end.store && end.store[id] == s.store[id]
    && (Logged(end.audits, id) <==> Logged(s.audits, id))
    && (Logged(end.replies, id) <==> Logged(s.replies, id))
  }

  lemma StepAbandons(s: Runner, a: Action, id: string)
    requires Enabled(s, a) && Abandoned(s, id)
    ensures Abandoned(Apply(s, a), id) && Untouched(s, Apply(s, a), id)
  {
    if a.Audit? {
      LogAppended(s.audits, a.id, Moved(s.runs[a.id], a).state);
    } else if a.Reply? {
      LogAppended(s.replies, a.id, Moved(s.runs[a.id], a).state);
    }
  }

  lemma {:induction false} RunAbandons(s: Runner, actions: seq<Action>, end: Runner, id: string)
    requires Runs(s, actions, end) && Abandoned(s, id)
    ensures Untouched(s, end, id)
    decreases |actions|
  {
    if actions != [] {
      StepAbandons(s, actions[0], id);
      RunAbandons(Apply(s, actions[0]), actions[1..], end, id);
    }
  }

  /**
    However a crash came about, the repair at the next start settles every stored task for good:
    the unfinished ones are failed, the others are as they were, and whatever happens afterwards
    none of them changes again, is audited or gets its reply.
   */
  lemma RestartLeavesNoOrphan(limit: nat, workers: set<string>, before: seq<Action>, s: Runner,
                              after: seq<Action>, end: Runner, id: string)
    requires Runs(NewRunner(limit, workers), before, s) && Enabled(s, Restart)
    requires Runs(Apply(s, Restart), after, end) && id in s.store
    ensures id in end.store && end.store[id] == if s.store[id].Terminal() then s.store[id] else Failed
    ensures Logged(end.audits, id) <==> Logged(s.audits, id)
    ensures Logged(end.replies, id) <==> Logged(s.replies, id)
  {
    NewRunnerInv(limit, workers);
    RunKeepsInv(NewRunner(limit, workers), before, s);
    RunAbandons(Apply(s, Restart), after, end, id);
  }

  /** At most one audit line and one reply per task over all incarnations, each telling the final state. */
  lemma NeverTwice(limit: nat, workers: set<string>, actions: seq<Action>, s: Runner)
    requires Runs(NewRunner(limit, workers), actions, s)
    ensures LogTruthful(s.audits, s.store) && LogTruthful(s.replies, s.store)
    ensures forall id :: Logged(s.replies, id) ==> Logged(s.audits, id)
  {
    NewRunnerInv(limit, workers);
    RunKeepsInv(NewRunner(limit, workers), actions, s);
  }

  predicate CrashFree(actions: seq<Action>) {
    forall i :: 0 <= i < |actions| ==> !actions[i].Crash?
  }

  /** Without a crash every accepted task is still accounted for. */
  ghost predicate NoneForgotten(s: Runner) {
    s.up && forall id :: id in s.store ==> id in s.creating || id in s.runs
  }

  lemma {:induction false} CrashFreeForgetsNone(s: Runner, actions: seq<Action>, end: Runner)
    requires NoneForgotten(s) && Runs(s, actions, end) && CrashFree(actions)
    ensures NoneForgotten(end)
    decreases |actions|
  {
    if actions != [] {
      assert !actions[0].Crash? && CrashFree(actions[1..]);
      CrashFreeForgetsNone(Apply(s, actions[0]), actions[1..], end);
    }
  }

  // ----- Progress -----

  /** An upper bound on the steps `run` still has to take. */
  function Weight(p: Phase): nat {
    match p
    case AwaitSlot => 10
    case AwaitGlobal => 9
    case Admitted => 8
    case Executing => 7
    case Executed => 6
    case HoldsSlot => 5
    case Released => 4
    case Persisted => 3
    case Audited => 2
    case Replied => 1
    case Finished => 0
  }

  function Weights(runs: map<string, Run>): map<string, int> {
    map id | id in runs :: Weight(runs[id].phase)
  }

  ghost function Remaining(s: Runner): int {
    Sum(Weights(s.runs)) + 11 * |s.creating|
  }

  lemma RemainingNonNegative(s: Runner)
    ensures Remaining(s) >= 0
    ensures forall id :: id in s.runs ==> Weight(s.runs[id].phase) <= Remaining(s)
  {
    SumNonNegative(Weights(s.runs));
    forall id | id in s.runs ensures Weight(s.runs[id].phase) <= Remaining(s) {
      assert Weights(s.runs)[id] <= Sum(Weights(s.runs));
    }
  }

  lemma OneKeyLess(m: map<string, string>, id: string)
    requires id in m
    ensures |m - {id}| == |m| - 1
  {
    assert m.Keys == (m - {id}).Keys + {id};
  }

  lemma LaunchShrinks(s: Runner, a: Action)
    requires Enabled(s, a) && a.Launch? && a.id !in s.runs
    ensures Remaining(Apply(s, a)) < Remaining(s)
  {
    OneKeyLess(s.creating, a.id);
    WeightsUpdate(s.runs, a.id, Run(s.creating[a.id], AwaitSlot, Submitted, false));
  }

  lemma MoveShrinks(s: Runner, a: Action)
    requires Enabled(s, a) && a.OfTask() && !a.Launch?
    ensures Remaining(ApplyTask(s, a)) < Remaining(s)
  {
    WeightsUpdate(s.runs, a.id, Moved(s.runs[a.id], a));
    MovedIsLighter(s.runs[a.id], a);
  }

  lemma TaskStepShrinks(s: Runner, a: Action)
    requires Enabled(s, a) && a.OfTask() && (a.Launch? ==> a.id !in s.runs)
    ensures Remaining(Apply(s, a)) < Remaining(s)
  {
    if a.Launch? {
      LaunchShrinks(s, a);
    } else {
      MoveShrinks(s, a);
    }
  }

  lemma WeightsUpdate(runs: map<string, Run>, id: string, r: Run)
    ensures Sum(Weights(runs[id := r])) ==
            Sum(Weights(runs)) + Weight(r.phase) - (if id in runs then Weight(runs[id].phase) else 0)
  {
    assert Weights(runs[id := r]) == Weights(runs)[id := Weight(r.phase)];
    SumUpdate(Weights(runs), id, Weight(r.phase));
  }

  lemma MovedIsLighter(r: Run, a: Action)
    requires a.OfTask() && !a.Launch? && r.phase == StartOf(a)
    ensures Weight(Moved(r, a).phase) < Weight(r.phase)
  {
  }

  lemma CancelKeepsRemaining(s: Runner, a: Action)
    requires Enabled(s, a) && (a.Cancel? || a.CancelAll?)
    ensures Remaining(Apply(s, a)) == Remaining(s)
  {
    assert Weights(Apply(s, a).runs) == Weights(s.runs);
  }

  function TaskSteps(actions: seq<Action>): nat {
    if actions == [] then 0 else (if actions[0].OfTask() then 1 else 0) + TaskSteps(actions[1..])
  }

  /** Nothing new is submitted and the process stays up; cancels may still come in. */
  predicate Closing(actions: seq<Action>) {
    forall i :: 0 <= i < |actions| ==> actions[i].OfTask() || actions[i].Cancel? || actions[i].CancelAll?
  }

  /** Once submissions stop, the tasks can take only so many more steps. */
  lemma {:induction false} StepsAreBounded(s: Runner, actions: seq<Action>, end: Runner)
    requires Inv(s) && Runs(s, actions, end) && Closing(actions)
    ensures TaskSteps(actions) + Remaining(end) <= Remaining(s)
    ensures 0 <= Remaining(end) && TaskSteps(actions) <= Remaining(s)
    decreases |actions|
  {
    RemainingNonNegative(end);
    if actions != [] {
      var a := actions[0];
      var mid := Apply(s, a);
      assert a.OfTask() || a.Cancel? || a.CancelAll?;
      assert Closing(actions[1..]);
      StepKeepsInv(s, a);
      if a.OfTask() {
        TaskStepShrinks(s, a);
      } else {
        CancelKeepsRemaining(s, a);
      }
      StepsAreBounded(mid, actions[1..], end);
    }
  }

  /** Only configured workers are submitted to, as `startWorker` sees to. */
  predicate OnlyConfigured(actions: seq<Action>, workers: set<string>) {
    forall i :: 0 <= i < |actions| && actions[i].Create? ==> actions[i].worker in workers
  }

  ghost predicate WorkersKnown(s: Runner) {
    && (forall id :: id in s.runs ==> s.runs[id].worker in s.slots)
    && (forall id :: id in s.creating ==> s.creating[id] in s.slots)
  }

  lemma StepKeepsWorkersKnown(s: Runner, a: Action)
    requires WorkersKnown(s) && Enabled(s, a) && (a.Create? ==> a.worker in s.slots)
    ensures WorkersKnown(Apply(s, a))
  {
    StepKeepsConfig(s, a);
    if a.OfTask() && !a.Launch? {
      assert Moved(s.runs[a.id], a).worker == s.runs[a.id].worker;
    }
  }

  lemma {:induction false} ConfiguredWorkersKnown(s: Runner, actions: seq<Action>, end: Runner)
    requires WorkersKnown(s) && Runs(s, actions, end) && OnlyConfigured(actions, s.slots.Keys)
    ensures WorkersKnown(end)
    decreases |actions|
  {
    if actions != [] {
      var a := actions[0];
      assert a.Create? ==> a.worker in s.slots.Keys;
      assert OnlyConfigured(actions[1..], s.slots.Keys);
      StepKeepsWorkersKnown(s, a);
      StepKeepsConfig(s, a);
      ConfiguredWorkersKnown(Apply(s, a), actions[1..], end);
    }
  }

  ghost predicate AllFinished(s: Runner) {
    s.creating == map[] && forall id :: id in s.runs ==> s.runs[id].phase.Finished?
  }

  /** The next step of a task that waits for no semaphore. */
  function NextStep(s: Runner, id: string): Action
    requires id in s.runs
  {
    match s.runs[id].phase
    case AwaitSlot => TakeSlot(id)
    case AwaitGlobal => TakeGlobal(id)
    case Admitted => MarkWorking(id)
    case Executing => Return(id, if s.runs[id].canceled then Canceled else Completed)
    case Executed => ReleaseGlobal(id)
    case HoldsSlot => ReleaseSlot(id)
    case Released => Persist(id)
    case Persisted => Audit(id)
    case Audited => Reply(id)
    case Replied => Deregister(id)
    case Finished => Deregister(id)
  }

  lemma NotWaiting(s: Runner, id: string)
    requires SemaphoresCount(s) && s.up && id in s.runs
    requires var p := s.runs[id].phase; !p.AwaitSlot? && !p.AwaitGlobal? && !p.Finished?
    ensures NextStep(s, id).OfTask() && Enabled(s, NextStep(s, id))
  {
    var r := s.runs[id];
    if r.phase.HoldsSlot? {
      assert id in SlotHolders(s.runs, r.worker);
    } else if r.phase.Executed? {
      assert id in GlobalHolders(s.runs);
    }
  }

  lemma SomeoneCanMove(s: Runner, id: string) returns (a: Action)
    requires SemaphoresCount(s) && s.up && s.limit >= 1 && id in s.runs
    requires !s.runs[id].phase.Finished? && !Stranded(s, s.runs[id])
    ensures a.OfTask() && Enabled(s, a)
  {
    var r := s.runs[id];
    if r.phase.AwaitSlot? && r.canceled {
      a := GiveUpSlot(id);
    } else if r.phase.AwaitSlot? && s.slots[r.worker] >= 1 {
      var holder :| holder in SlotHolders(s.runs, r.worker) by {
        assert |SlotHolders(s.runs, r.worker)| >= 1;
      }
      a := HolderCanMove(s, holder);
    } else if r.phase.AwaitSlot? {
      a := TakeSlot(id);
    } else {
      a := HolderCanMove(s, id);
    }
  }

  lemma HolderCanMove(s: Runner, id: string) returns (a: Action)
    requires SemaphoresCount(s) && s.up && s.limit >= 1 && id in s.runs
    requires !s.runs[id].phase.Finished? && !s.runs[id].phase.AwaitSlot?
    ensures a.OfTask() && Enabled(s, a)
  {
    if s.runs[id].phase.AwaitGlobal? && s.global >= s.limit {
      assert |GlobalHolders(s.runs)| >= 1;
      var holder :| holder in GlobalHolders(s.runs);
      NotWaiting(s, holder);
      a := NextStep(s, holder);
    } else if s.runs[id].phase.AwaitGlobal? {
      a := TakeGlobal(id);
    } else {
      NotWaiting(s, id);
      a := NextStep(s, id);
    }
  }

  /** At the nil channel of a worker that is not configured, with no cancel to come to its help. */
  predicate Stranded(s: Runner, r: Run) {
    r.phase.AwaitSlot? && !r.canceled && r.worker !in s.slots
  }

  ghost predicate NothingCanMove(s: Runner) {
    forall a: Action :: a.OfTask() ==> !Enabled(s, a)
  }

  ghost predicate FinishedOrStranded(s: Runner) {
    s.creating == map[] && forall id :: id in s.runs ==> s.runs[id].phase.Finished? || Stranded(s, s.runs[id])
  }

  /** In every reachable state, the tasks are stuck exactly when each has finished or is stranded. */
  lemma StuckIff(limit: nat, workers: set<string>, actions: seq<Action>, s: Runner)
    requires Runs(NewRunner(limit, workers), actions, s) && s.up && limit >= 1
    ensures NothingCanMove(s) <==> FinishedOrStranded(s)
  {
    NewRunnerInv(limit, workers);
    RunKeepsInv(NewRunner(limit, workers), actions, s);
    if NothingCanMove(s) {
      forall id | id in s.runs ensures s.runs[id].phase.Finished? || Stranded(s, s.runs[id]) {
        if !s.runs[id].phase.Finished? && !Stranded(s, s.runs[id]) {
          var a := SomeoneCanMove(s, id);
        }
      }
      forall id | id in s.creating ensures false {
        assert Enabled(s, Launch(id));
      }
    }
    if FinishedOrStranded(s) {
      forall a: Action | a.OfTask() ensures !Enabled(s, a) {
        RestIsRest(s, a);
      }
    }
  }

  lemma RestIsRest(s: Runner, a: Action)
    requires FinishedOrStranded(s) && a.OfTask()
    ensures !Enabled(s, a)
  {
  }

  /** No reachable state deadlocks: when no task can take a step, all have finished. */
  lemma NoDeadlock(limit: nat, workers: set<string>, actions: seq<Action>, s: Runner)
    requires Runs(NewRunner(limit, workers), actions, s) && s.up && limit >= 1 && OnlyConfigured(actions, workers)
    ensures NothingCanMove(s) <==> AllFinished(s)
  {
    StuckIff(limit, workers, actions, s);
    assert NewRunner(limit, workers).slots.Keys == workers;
    ConfiguredWorkersKnown(NewRunner(limit, workers), actions, s);
  }

  /**
    Without a crash, when the tasks have come to rest, every task ever accepted has ended in a
    terminal state and has exactly one audit line and one reply, and no cancel is registered.
   */
  lemma AllAnsweredOnce(limit: nat, workers: set<string>, actions: seq<Action>, s: Runner)
    requires Runs(NewRunner(limit, workers), actions, s) && CrashFree(actions) && limit >= 1
    requires OnlyConfigured(actions, workers)
    requires NothingCanMove(s)
    ensures s.cancels == {}
    ensures forall id :: id in s.store ==> s.store[id].Terminal() && Logged(s.audits, id) && Logged(s.replies, id)
    ensures LogTruthful(s.audits, s.store) && LogTruthful(s.replies, s.store)
  {
    NewRunnerInv(limit, workers);
    RunKeepsInv(NewRunner(limit, workers), actions, s);
    CrashFreeForgetsNone(NewRunner(limit, workers), actions, s);
    NoDeadlock(limit, workers, actions, s);
    forall id | id in s.store ensures s.store[id].Terminal() && Logged(s.audits, id) && Logged(s.replies, id) {
      assert id in s.runs && StateFits(s.runs[id], s.store[id]);
    }
    assert forall id :: id !in s.cancels;
  }

  /** Neither a crash nor a cancellation of this task. */
  predicate Spares(a: Action, id: string) {
    !a.Crash? && !a.CancelAll? && a != Action.Cancel(id)
  }

  lemma StrandedStays(s: Runner, a: Action, id: string)
    requires id in s.runs && Stranded(s, s.runs[id]) && Enabled(s, a) && Spares(a, id)
    requires s.up && (a.Launch? ==> a.id !in s.runs)
    ensures Apply(s, a).up && id in Apply(s, a).runs && Apply(s, a).runs[id] == s.runs[id]
  {
  }

  /**
    A task for a worker that is not configured waits at a nil channel, and stays there through
    everything but its own cancellation or a crash.
   */
  lemma {:induction false} UnknownWorkerWaits(s: Runner, actions: seq<Action>, end: Runner, id: string)
    requires s.up && id in s.runs && Stranded(s, s.runs[id]) && RunsStored(s) && Runs(s, actions, end)
    requires forall i :: 0 <= i < |actions| ==> Spares(actions[i], id)
    ensures id in end.runs && end.runs[id] == s.runs[id] && Stranded(end, end.runs[id])
    decreases |actions|
  {
    if actions != [] {
      StepKeepsStored(s, actions[0]);
      StepKeepsConfig(s, actions[0]);
      assert Spares(actions[0], id);
      StrandedStays(s, actions[0], id);
      assert forall i :: 0 <= i < |actions[1..]| ==> Spares(actions[1..][i], id);
      UnknownWorkerWaits(Apply(s, actions[0]), actions[1..], end, id);
    }
  }

  /** It happens: a runner without workers accepts a task, and the task waits for good. */
  lemma StrandedTask() returns (actions: seq<Action>, s: Runner)
    ensures Runs(NewRunner(1, {}), actions, s) && s.up && NothingCanMove(s) && !AllFinished(s)
  {
    var start := NewRunner(1, {});
    var create, launch := Create("task", "worker"), Launch("task");
    var mid := Apply(start, create);
    s := Apply(mid, launch);
    actions := [create, launch];
    assert Runs(s, [], s);
    assert [launch][1..] == [] && actions[1..] == [launch];
    assert Runs(mid, [launch], s);
    assert Runs(start, actions, s);
    assert s.creating == map[] && s.runs.Keys == {"task"};
    StuckIff(1, {}, actions, s);
  }
}
