/**
  What the runner stores, audits and answers for a task, told from the actions of a run alone:
  who was asked to do the task, what its executor returned and whether a cancel came before that.
 */
module SchedulerOutcomes {
  import opened Basics
  import opened Scheduler
  import opened SchedulerRuns

  // ----- Reading off the actions -----

  /** The worker that the task was submitted to. */
  function WorkerOf(actions: seq<Action>, id: string): Option<string> {
    if actions == [] then None
    else
      var n := |actions| - 1;
      if actions[n].Create? && actions[n].id == id then Some(actions[n].worker) else WorkerOf(actions[..n], id)
  }

  /** What the executor of the task returned, if it did since the process last started. */
  function Returned(actions: seq<Action>, id: string): Option<TaskState> {
    if actions == [] then None
    else
      var n := |actions| - 1;
      if actions[n].Crash? then None
      else if actions[n].Return? && actions[n].id == id then Some(actions[n].outcome)
      else Returned(actions[..n], id)
  }

  /** How often an executor of the task returned. */
  function Returns(actions: seq<Action>, id: string): nat {
    if actions == [] then 0
    else
      var n := |actions| - 1;
      Returns(actions[..n], id) + if actions[n].Return? && actions[n].id == id then 1 else 0
  }

  predicate Launched(actions: seq<Action>, id: string) {
    if actions == [] then false
    else
      var n := |actions| - 1;
      if actions[n].Crash? then false
      else if actions[n].Launch? && actions[n].id == id then true
      else Launched(actions[..n], id)
  }

  predicate Cancels(a: Action, id: string) {
    a.CancelAll? || (a.Cancel? && a.id == id)
  }

  /** A cancel came after the goroutine of the task was started. */
  predicate Interrupted(actions: seq<Action>, id: string) {
    if actions == [] then false
    else
      var n := |actions| - 1;
      if actions[n].Crash? || (actions[n].Launch? && actions[n].id == id) then false
      else if Cancels(actions[n], id) then Launched(actions[..n], id)
      else Interrupted(actions[..n], id)
  }

  /** What becomes of a task whose executor returned this, or never ran. */
  function Final(returned: Option<TaskState>): TaskState {
    if returned.Some? then returned.value else Canceled
  }

  /** What the store says of the task: nothing before it is submitted, and `Failed` after a restart that found it unfinished. */
  function StoredBy(actions: seq<Action>, id: string): Option<TaskState> {
    if actions == [] then None
    else
      var n := |actions| - 1;
      var a, was := actions[n], StoredBy(actions[..n], id);
      if a.Create? && a.id == id then Some(Submitted)
      else if a.MarkWorking? && a.id == id then Some(Working)
      else if a.Persist? && a.id == id then Some(Final(Returned(actions[..n], id)))
      else if a.Restart? && was.Some? && !was.value.Terminal() then Some(Failed)
      else was
  }

  /** The lines written: one for every step that writes one, telling what was stored by then. */
  function LinesBy(kind: LogKind, actions: seq<Action>): seq<Note> {
    if actions == [] then []
    else
      var n := |actions| - 1;
      var a, was := actions[n], LinesBy(kind, actions[..n]);
      if Writes(kind, a) then was + [Note(a.id, Final(StoredBy(actions[..n], a.id)))] else was
  }

  // ----- Runs by their last action -----

  lemma {:induction false} LastStep(s: Runner, actions: seq<Action>, end: Runner) returns (mid: Runner)
    requires Runs(s, actions, end) && actions != []
    ensures var n := |actions| - 1;
            Runs(s, actions[..n], mid) && Enabled(mid, actions[n]) && end == Apply(mid, actions[n])
    decreases |actions|
  {
    var n := |actions| - 1;
    if n == 0 {
      mid := s;
      assert actions[..n] == [];
    } else {
      var next := Apply(s, actions[0]);
      mid := LastStep(next, actions[1..], end);
      assert actions[1..][..n - 1] == actions[..n][1..];
    }
  }

  // ----- The state fits the actions -----

  predicate BeforeReturn(p: Phase) {
    p.AwaitSlot? || p.AwaitGlobal? || p.Admitted? || p.Executing?
  }

  ghost predicate ReturnFits(r: Run, returned: Option<TaskState>) {
    if BeforeReturn(r.phase) then returned == None && !r.state.Terminal()
    else if r.phase.Executed? then returned == Some(r.state) && r.state.Terminal()
    else if r.phase.HoldsSlot? || r.phase.Released? then returned == if r.state.Terminal() then Some(r.state) else None
    else r.state == Final(returned)
  }

  ghost predicate RunFollows(r: Run, actions: seq<Action>, id: string) {
    && WorkerOf(actions, id) == Some(r.worker)
    && Launched(actions, id)
    && (BeforeReturn(r.phase) ==> Returns(actions, id) == 0)
    && ReturnFits(r, Returned(actions, id))
    && (!r.phase.Finished? ==> (r.canceled <==> Interrupted(actions, id)))
  }

  /** All that a state holds of one task. */
  datatype Sight = Sight(stored: Option<TaskState>, creating: Option<string>, run: Option<Run>)

  function Get<V>(m: map<string, V>, id: string): Option<V> {
    if id in m then Some(m[id]) else None
  }

  function See(s: Runner, id: string): Sight {
    Sight(Get(s.store, id), Get(s.creating, id), Get(s.runs, id))
  }

  ghost predicate SightFollows(v: Sight, actions: seq<Action>, id: string) {
    && Returns(actions, id) <= 1
    && (v.stored.None? || v.creating.Some? ==> Returns(actions, id) == 0 && Returned(actions, id) == None)
    && (v.creating.Some? ==> WorkerOf(actions, id) == v.creating)
    && (v.run.Some? ==> RunFollows(v.run.value, actions, id))
  }

  ghost predicate Follows(s: Runner, actions: seq<Action>, id: string) {
    SightFollows(See(s, id), actions, id)
  }

  /** An action that has nothing to do with the task. */
  predicate Elsewhere(a: Action, id: string) {
    !a.Crash? && !a.Restart? && !Cancels(a, id) && (a.OfTask() || a.Create? ==> a.id != id)
  }

  lemma SeesNothing(s: Runner, a: Action, id: string)
    requires Enabled(s, a) && Elsewhere(a, id)
    ensures See(Apply(s, a), id) == See(s, id)
  {
  }

  lemma SeesCancel(s: Runner, a: Action, id: string)
    requires Enabled(s, a) && Cancels(a, id) && CancelsRegistered(s)
    ensures var v := See(s, id);
            See(Apply(s, a), id) ==
            if v.run.Some? && !v.run.value.phase.Finished? then v.(run := Some(Interrupt(v.run.value))) else v
  {
  }

  lemma SeesMove(s: Runner, a: Action)
    requires Enabled(s, a) && a.OfTask() && !a.Launch?
    ensures var v, r := See(s, a.id), Moved(s.runs[a.id], a);
            See(Apply(s, a), a.id) ==
            v.(run := Some(r), stored := if a.MarkWorking? || a.Persist? then Some(r.state) else v.stored)
  {
  }

  lemma SeesLaunch(s: Runner, id: string)
    requires Enabled(s, Launch(id))
    ensures See(Apply(s, Launch(id)), id) ==
            See(s, id).(creating := None, run := Some(Run(s.creating[id], AwaitSlot, Submitted, false)))
  {
  }

  lemma SeesCreate(s: Runner, a: Action)
    requires Enabled(s, a) && a.Create?
    ensures See(Apply(s, a), a.id) == See(s, a.id).(stored := Some(Submitted), creating := Some(a.worker))
  {
  }

  lemma SeesCrash(s: Runner, id: string)
    requires Enabled(s, Crash)
    ensures See(Apply(s, Crash), id) == Sight(See(s, id).stored, None, None)
  {
  }

  lemma SeesRestart(s: Runner, id: string)
    requires Enabled(s, Restart)
    ensures var v := See(s, id);
            See(Apply(s, Restart), id) == v.(stored := if v.stored.Some? && !v.stored.value.Terminal() then Some(Failed) else v.stored)
  {
  }

  lemma OthersLeave(actions: seq<Action>, a: Action, id: string)
    requires Elsewhere(a, id) || a.Restart?
    ensures WorkerOf(actions + [a], id) == WorkerOf(actions, id)
    ensures Returned(actions + [a], id) == Returned(actions, id)
    ensures Returns(actions + [a], id) == Returns(actions, id)
    ensures Launched(actions + [a], id) == Launched(actions, id)
    ensures Interrupted(actions + [a], id) == Interrupted(actions, id)
  {
    assert (actions + [a])[..|actions|] == actions;
  }

  lemma TaskStepFollows(r: Run, actions: seq<Action>, a: Action, id: string)
    requires RunFollows(r, actions, id) && a.OfTask() && !a.Launch? && a.id == id && r.phase == StartOf(a)
    requires a.Return? ==> a.outcome.Terminal()
    ensures RunFollows(Moved(r, a), actions + [a], id)
    ensures Returns(actions + [a], id) == Returns(actions, id) + if a.Return? then 1 else 0
  {
    assert (actions + [a])[..|actions|] == actions;
  }

  lemma LaunchFollows(worker: string, actions: seq<Action>, id: string)
    requires WorkerOf(actions, id) == Some(worker) && Returns(actions, id) == 0 && Returned(actions, id) == None
    ensures RunFollows(Run(worker, AwaitSlot, Submitted, false), actions + [Launch(id)], id)
    ensures Returns(actions + [Launch(id)], id) == 0
  {
    assert (actions + [Launch(id)])[..|actions|] == actions;
  }

  lemma CancelFollows(r: Run, actions: seq<Action>, a: Action, id: string)
    requires RunFollows(r, actions, id) && Cancels(a, id)
    ensures RunFollows(if r.phase.Finished? then r else Interrupt(r), actions + [a], id)
  {
    assert (actions + [a])[..|actions|] == actions;
  }

  lemma CancelLeaves(actions: seq<Action>, a: Action, id: string)
    requires Cancels(a, id)
    ensures WorkerOf(actions + [a], id) == WorkerOf(actions, id)
    ensures Returned(actions + [a], id) == Returned(actions, id)
    ensures Returns(actions + [a], id) == Returns(actions, id)
  {
    assert (actions + [a])[..|actions|] == actions;
  }

  lemma CrashFollows(actions: seq<Action>, id: string)
    ensures Returned(actions + [Crash], id) == None && Returns(actions + [Crash], id) == Returns(actions, id)
  {
    assert (actions + [Crash])[..|actions|] == actions;
  }

  lemma CreateFollows(actions: seq<Action>, a: Action)
    requires a.Create?
    ensures WorkerOf(actions + [a], a.id) == Some(a.worker)
    ensures Returned(actions + [a], a.id) == Returned(actions, a.id) && Returns(actions + [a], a.id) == Returns(actions, a.id)
  {
    assert (actions + [a])[..|actions|] == actions;
  }

  lemma StepFollows(s: Runner, actions: seq<Action>, a: Action, id: string)
    requires CancelsRegistered(s) && RunsStored(s) && Enabled(s, a) && Follows(s, actions, id)
    ensures Follows(Apply(s, a), actions + [a], id)
  {
    if a.Crash? {
      SeesCrash(s, id);
      CrashFollows(actions, id);
    } else if a.Restart? {
      SeesRestart(s, id);
      OthersLeave(actions, a, id);
    } else if Cancels(a, id) {
      SeesCancel(s, a, id);
      CancelLeaves(actions, a, id);
      if id in s.runs {
        CancelFollows(s.runs[id], actions, a, id);
      }
    } else if Elsewhere(a, id) {
      SeesNothing(s, a, id);
      OthersLeave(actions, a, id);
    } else {
      OwnStepFollows(s, actions, a, id);
    }
  }

  lemma OwnStepFollows(s: Runner, actions: seq<Action>, a: Action, id: string)
    requires RunsStored(s) && Enabled(s, a) && Follows(s, actions, id) && (a.OfTask() || a.Create?) && a.id == id
    ensures Follows(Apply(s, a), actions + [a], id)
  {
    if a.Create? {
      SeesCreate(s, a);
      CreateFollows(actions, a);
    } else if a.Launch? {
      SeesLaunch(s, id);
      LaunchFollows(s.creating[id], actions, id);
    } else {
      SeesMove(s, a);
      TaskStepFollows(s.runs[id], actions, a, id);
    }
  }

  lemma Reached(limit: nat, workers: set<string>, actions: seq<Action>, s: Runner)
    requires Runs(NewRunner(limit, workers), actions, s)
    ensures CancelsRegistered(s) && RunsStored(s) && LogsKept(s)
  {
    NewRunnerInv(limit, workers);
    RunKeepsInv(NewRunner(limit, workers), actions, s);
  }

  lemma {:induction false} RunFollowsActions(limit: nat, workers: set<string>, actions: seq<Action>, s: Runner, id: string)
    requires Runs(NewRunner(limit, workers), actions, s)
    ensures Follows(s, actions, id)
    decreases |actions|
  {
    if actions != [] {
      var n := |actions| - 1;
      var mid := LastStep(NewRunner(limit, workers), actions, s);
      Reached(limit, workers, actions[..n], mid);
      RunFollowsActions(limit, workers, actions[..n], mid, id);
      StepFollows(mid, actions[..n], actions[n], id);
      assert actions == actions[..n] + [actions[n]];
    }
  }

  // ----- What is stored, audited and answered -----

  lemma StepStores(s: Runner, actions: seq<Action>, a: Action, id: string)
    requires CancelsRegistered(s) && Enabled(s, a) && Follows(s, actions, id) && StoredBy(actions, id) == Get(s.store, id)
    ensures StoredBy(actions + [a], id) == Get(Apply(s, a).store, id)
  {
    assert (actions + [a])[..|actions|] == actions;
    if a.Crash? {
      SeesCrash(s, id);
    } else if a.Restart? {
      SeesRestart(s, id);
    } else if Cancels(a, id) {
      SeesCancel(s, a, id);
    } else if Elsewhere(a, id) {
      SeesNothing(s, a, id);
    } else if a.Create? {
      SeesCreate(s, a);
    } else if a.Launch? {
      SeesLaunch(s, id);
    } else {
      SeesMove(s, a);
    }
  }

  /** In every reachable state the store says of every task what the actions tell. */
  lemma {:induction false} StoreIsHistory(limit: nat, workers: set<string>, actions: seq<Action>, s: Runner, id: string)
    requires Runs(NewRunner(limit, workers), actions, s)
    ensures Get(s.store, id) == StoredBy(actions, id)
    decreases |actions|
  {
    if actions != [] {
      var n := |actions| - 1;
      var mid := LastStep(NewRunner(limit, workers), actions, s);
      Reached(limit, workers, actions[..n], mid);
      RunFollowsActions(limit, workers, actions[..n], mid, id);
      StoreIsHistory(limit, workers, actions[..n], mid, id);
      StepStores(mid, actions[..n], actions[n], id);
      assert actions == actions[..n] + [actions[n]];
    }
  }

  /** A line is written when its state is already stored. */
  lemma WritesStored(r: Run, stored: TaskState, a: Action)
    requires (a.Audit? || a.Reply?) && r.phase == StartOf(a) && StateFits(r, stored)
    ensures Moved(r, a).state == stored
  {
  }

  lemma LogsApplied(s: Runner, a: Action)
    requires Enabled(s, a)
    ensures Apply(s, a).audits == s.audits + if a.Audit? then [Note(a.id, Moved(s.runs[a.id], a).state)] else []
    ensures Apply(s, a).replies == s.replies + if a.Reply? then [Note(a.id, Moved(s.runs[a.id], a).state)] else []
  {
  }

  lemma LinesNext(kind: LogKind, actions: seq<Action>, a: Action)
    ensures LinesBy(kind, actions + [a]) ==
            LinesBy(kind, actions) + if Writes(kind, a) then [Note(a.id, Final(StoredBy(actions, a.id)))] else []
  {
    assert (actions + [a])[..|actions|] == actions;
  }

  ghost predicate LogsFollow(s: Runner, actions: seq<Action>) {
    s.audits == LinesBy(AuditLog, actions) && s.replies == LinesBy(ReplyLog, actions)
  }

  lemma StepLogs(s: Runner, actions: seq<Action>, a: Action)
    requires RunsStored(s) && Enabled(s, a)
    requires LogsFollow(s, actions)
    requires a.OfTask() ==> StoredBy(actions, a.id) == Get(s.store, a.id)
    ensures LogsFollow(Apply(s, a), actions + [a])
  {
    LogsApplied(s, a);
    LinesNext(AuditLog, actions, a);
    LinesNext(ReplyLog, actions, a);
    if a.Audit? || a.Reply? {
      WritesStored(s.runs[a.id], s.store[a.id], a);
    }
  }

  /** The audit lines and replies are those that the actions tell, in their order. */
  lemma {:induction false} LogsAreHistory(limit: nat, workers: set<string>, actions: seq<Action>, s: Runner)
    requires Runs(NewRunner(limit, workers), actions, s)
    ensures LogsFollow(s, actions)
    decreases |actions|
  {
    if actions != [] {
      var n := |actions| - 1;
      var mid := LastStep(NewRunner(limit, workers), actions, s);
      LogsAreHistory(limit, workers, actions[..n], mid);
      Reached(limit, workers, actions[..n], mid);
      if actions[n].OfTask() {
        StoreIsHistory(limit, workers, actions[..n], mid, actions[n].id);
      }
      StepLogs(mid, actions[..n], actions[n]);
      assert actions == actions[..n] + [actions[n]];
    }
  }

  predicate AtLeastPersisted(p: Phase) {
    p.Persisted? || p.Audited? || p.Replied? || p.Finished?
  }

  ghost predicate LinesSay(log: seq<Note>, id: string, state: TaskState) {
    forall i :: 0 <= i < |log| && log[i].id == id ==> log[i].state == state
  }

  /**
    Once a task is over it was asked of the worker it was submitted to, its executor returned at
    most once, and store, audit line and reply all say what it returned; or canceled, if it never ran.
   */
  lemma OutcomeIsRecorded(limit: nat, workers: set<string>, actions: seq<Action>, s: Runner, id: string)
    requires Runs(NewRunner(limit, workers), actions, s) && id in s.runs && AtLeastPersisted(s.runs[id].phase)
    ensures WorkerOf(actions, id) == Some(s.runs[id].worker)
    ensures Returns(actions, id) <= 1
    ensures id in s.store && s.store[id] == Final(Returned(actions, id))
    ensures LinesSay(s.audits, id, Final(Returned(actions, id))) && LinesSay(s.replies, id, Final(Returned(actions, id)))
    ensures !s.runs[id].phase.Persisted? ==> Logged(s.audits, id)
    ensures s.runs[id].phase.Replied? || s.runs[id].phase.Finished? ==> Logged(s.replies, id)
  {
    Reached(limit, workers, actions, s);
    RunFollowsActions(limit, workers, actions, s, id);
    assert s.store[id] == Final(Returned(actions, id)) by { StateIsFinal(s.runs[id], s.store[id], Returned(actions, id)); }
  }

  lemma StateIsFinal(r: Run, stored: TaskState, returned: Option<TaskState>)
    requires AtLeastPersisted(r.phase) && StateFits(r, stored) && ReturnFits(r, returned)
    ensures stored == Final(returned)
  {
  }

  // ----- When the process takes calls -----

  /** The process has been started again since it last crashed, if it ever did. */
  predicate Running(actions: seq<Action>) {
    if actions == [] then true
    else
      var n := |actions| - 1;
      if actions[n].Crash? then false else if actions[n].Restart? then true else Running(actions[..n])
  }

  ghost predicate CallsFit(s: Runner, actions: seq<Action>, id: string) {
    s.up == Running(actions) && (id in s.store <==> WorkerOf(actions, id).Some?)
  }

  lemma StepCallsFit(s: Runner, actions: seq<Action>, a: Action, id: string)
    requires RunsStored(s) && Enabled(s, a) && CallsFit(s, actions, id)
    ensures CallsFit(Apply(s, a), actions + [a], id)
  {
    assert (actions + [a])[..|actions|] == actions;
  }

  lemma {:induction false} RunCallsFit(limit: nat, workers: set<string>, actions: seq<Action>, s: Runner, id: string)
    requires Runs(NewRunner(limit, workers), actions, s)
    ensures CallsFit(s, actions, id)
    decreases |actions|
  {
    if actions != [] {
      var n := |actions| - 1;
      var mid := LastStep(NewRunner(limit, workers), actions, s);
      Reached(limit, workers, actions[..n], mid);
      RunCallsFit(limit, workers, actions[..n], mid, id);
      StepCallsFit(mid, actions[..n], actions[n], id);
      assert actions == actions[..n] + [actions[n]];
    }
  }

  /**
    While it runs, and only then, the process takes a new task under an id not used before, a cancel
    of any task ever submitted, and a cancel of all; it can crash while it runs and start again when not.
   */
  lemma TakesCallsIff(limit: nat, workers: set<string>, actions: seq<Action>, s: Runner, id: string, worker: string)
    requires Runs(NewRunner(limit, workers), actions, s)
    ensures Enabled(s, Create(id, worker)) <==> Running(actions) && WorkerOf(actions, id) == None
    ensures Enabled(s, Cancel(id)) <==> Running(actions) && WorkerOf(actions, id).Some?
    ensures Enabled(s, CancelAll) <==> Running(actions)
    ensures Enabled(s, Crash) <==> Running(actions)
    ensures Enabled(s, Restart) <==> !Running(actions)
  {
    RunCallsFit(limit, workers, actions, s, id);
  }

  // ----- Cancellation -----

  /**
    Cancellation decides as far as it can: an executor that returns after a cancel does not
    complete, and nothing gives up or returns canceled without one.
   */
  lemma CancelDecides(limit: nat, workers: set<string>, actions: seq<Action>, s: Runner, a: Action)
    requires Runs(NewRunner(limit, workers), actions, s) && Enabled(s, a)
    ensures a.Return? && Interrupted(actions, a.id) ==> a.outcome != Completed
    ensures a.Return? && a.outcome == Canceled ==> Interrupted(actions, a.id)
    ensures a.GiveUpSlot? || a.GiveUpGlobal? ==> Interrupted(actions, a.id)
  {
    if a.Return? || a.GiveUpSlot? || a.GiveUpGlobal? {
      RunFollowsActions(limit, workers, actions, s, a.id);
    }
  }

  ghost predicate RunCannotComplete(r: Run) {
    r.state != Completed && (BeforeReturn(r.phase) ==> r.canceled)
  }

  ghost predicate CannotComplete(s: Runner, id: string) {
    var v := See(s, id);
    && v.stored.Some? && v.stored.value != Completed && v.creating.None?
    && (v.run.Some? ==> RunCannotComplete(v.run.value))
  }

  lemma MoveCannotComplete(r: Run, a: Action)
    requires RunCannotComplete(r) && a.OfTask() && !a.Launch? && r.phase == StartOf(a)
    requires a.Return? && r.canceled ==> a.outcome != Completed
    ensures RunCannotComplete(Moved(r, a))
  {
  }

  lemma StepCannotComplete(s: Runner, a: Action, id: string)
    requires CannotComplete(s, id) && CancelsRegistered(s) && Enabled(s, a)
    ensures CannotComplete(Apply(s, a), id)
  {
    if a.Crash? {
      SeesCrash(s, id);
    } else if a.Restart? {
      SeesRestart(s, id);
    } else if Cancels(a, id) {
      SeesCancel(s, a, id);
    } else if Elsewhere(a, id) {
      SeesNothing(s, a, id);
    } else if a.OfTask() && !a.Launch? {
      SeesMove(s, a);
      MoveCannotComplete(s.runs[id], a);
    }
  }

  lemma {:induction false} StaysIncomplete(s: Runner, actions: seq<Action>, end: Runner, id: string)
    requires CannotComplete(s, id) && CancelsRegistered(s) && Runs(s, actions, end)
    ensures CannotComplete(end, id)
    decreases |actions|
  {
    if actions != [] {
      StepCannotComplete(s, actions[0], id);
      StepKeepsCancels(s, actions[0]);
      StaysIncomplete(Apply(s, actions[0]), actions[1..], end, id);
    }
  }

  /** A cancel that reaches a task before its executor has returned keeps it from ever being completed. */
  lemma CanceledNeverCompletes(limit: nat, workers: set<string>, before: seq<Action>, s: Runner, cancel: Action,
                               after: seq<Action>, end: Runner, id: string)
    requires Runs(NewRunner(limit, workers), before, s) && id in s.runs && Returned(before, id) == None
    requires Enabled(s, cancel) && Cancels(cancel, id) && Runs(Apply(s, cancel), after, end)
    requires !AtLeastPersisted(s.runs[id].phase)
    ensures id in end.store && end.store[id] != Completed
    ensures LinesSay(end.audits, id, end.store[id]) && LinesSay(end.replies, id, end.store[id])
  {
    var mid := Apply(s, cancel);
    Reached(limit, workers, before, s);
    RunFollowsActions(limit, workers, before, s, id);
    CancelPrevents(s, cancel, id, before);
    StepKeepsCancels(s, cancel);
    StaysIncomplete(mid, after, end, id);
    JoinRuns(NewRunner(limit, workers), before, s, cancel, after, end);
    Reached(limit, workers, before + [cancel] + after, end);
  }

  lemma CancelPrevents(s: Runner, cancel: Action, id: string, before: seq<Action>)
    requires CancelsRegistered(s) && RunsStored(s) && Follows(s, before, id) && Enabled(s, cancel) && Cancels(cancel, id)
    requires id in s.runs && Returned(before, id) == None && !AtLeastPersisted(s.runs[id].phase)
    ensures CannotComplete(Apply(s, cancel), id)
  {
    SeesCancel(s, cancel, id);
  }

  /** One that comes later changes nothing: the task ends as its executor returned, unless the process crashes first. */
  lemma LateCancelIgnored(limit: nat, workers: set<string>, before: seq<Action>, s: Runner, cancel: Action,
                          after: seq<Action>, end: Runner, id: string)
    requires Runs(NewRunner(limit, workers), before, s) && id in s.runs && Returned(before, id).Some?
    requires Enabled(s, cancel) && Cancels(cancel, id) && Runs(Apply(s, cancel), after, end) && CrashFree(after)
    requires id in end.runs && AtLeastPersisted(end.runs[id].phase)
    ensures id in end.store && end.store[id] == Returned(before, id).value
  {
    var all := before + [cancel] + after;
    JoinRuns(NewRunner(limit, workers), before, s, cancel, after, end);
    CancelLeaves(before, cancel, id);
    RunFollowsActions(limit, workers, before, s, id);
    OutcomeIsRecorded(limit, workers, all, end, id);
    RunFollowsActions(limit, workers, all, end, id);
    StillReturned(before + [cancel], after, id);
  }

  lemma {:induction false} JoinRuns(s: Runner, before: seq<Action>, mid: Runner, a: Action, after: seq<Action>, end: Runner)
    requires Runs(s, before, mid) && Enabled(mid, a) && Runs(Apply(mid, a), after, end)
    ensures Runs(s, before + [a] + after, end)
    decreases |before|
  {
    var all := before + [a] + after;
    if before == [] {
      assert all[1..] == after;
    } else {
      JoinRuns(Apply(s, before[0]), before[1..], mid, a, after, end);
      assert all[1..] == before[1..] + [a] + after;
    }
  }

  lemma {:induction false} ReturnsCount(actions: seq<Action>, id: string)
    requires Returned(actions, id).Some?
    ensures Returns(actions, id) >= 1
  {
    if actions != [] {
      var n := |actions| - 1;
      if Returned(actions[..n], id).Some? {
        ReturnsCount(actions[..n], id);
      }
    }
  }

  /** Without a crash, and with no second return, what was returned stands. */
  lemma {:induction false} StillReturned(before: seq<Action>, after: seq<Action>, id: string)
    requires Returned(before, id).Some? && CrashFree(after) && Returns(before + after, id) <= 1
    ensures Returned(before + after, id) == Returned(before, id)
    decreases |after|
  {
    if after == [] {
      assert before + after == before;
    } else {
      var n := |after| - 1;
      var all := before + after;
      assert all[..|before| + n] == before + after[..n] && all[|before| + n] == after[n];
      StillReturned(before, after[..n], id);
      ReturnsCount(before + after[..n], id);
    }
  }
}
