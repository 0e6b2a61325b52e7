/**
  What the task store holds, told from the calls of a run alone: what a task says, when it is due
  to expire, and exactly what makes it go.
 */
module TaskHistory {
  import opened Basics
  import opened TaskPages
  import opened TaskStore

  // ----- Reading off the calls -----

  predicate Names(op: Op, id: string) {
    !op.CleanExpired? && op.id == id
  }

  /** Cancelation is for tasks that have not ended. */
  predicate Open(state: string) {
    state in {"submitted", "working", "input-required"}
  }

  /** What one call makes of what a task said before. */
  function Retold(cfg: Config, was: Option<Task>, op: Op): Option<Task> {
    if op.Create? then Some(Task(op.id, op.sid, "submitted", None, op.now, [op.message], [], map[]))
    else if was.None? then None
    else
      var t := was.value;
      match op
      case UpdateStatus(_, state, note, now) => Some(t.(state := state, statusMessage := note, statusAt := now))
      case AddMessage(_, message) =>
        var all := t.history + [message];
        Some(t.(history := if 0 <= cfg.maxHistory < |all| then all[|all| - cfg.maxHistory..] else all))
      case AddArtifact(_, artifact) => Some(t.(artifacts := t.artifacts + [artifact]))
      case Cancel(_, now) => if Open(t.state) then Some(t.(state := "canceled", statusMessage := None, statusAt := now)) else was
      case _ => was
  }

  /** What the task says, if it is still there. */
  function Told(cfg: Config, ops: seq<Op>, id: string): Option<Task> {
    if ops == [] then None
    else
      var n := |ops| - 1;
      if Names(ops[n], id) then Retold(cfg, Told(cfg, ops[..n], id), ops[n]) else Told(cfg, ops[..n], id)
  }

  /** When the task was created or last given a status. */
  function Touched(ops: seq<Op>, id: string): Option<int> {
    if ops == [] then None
    else
      var n := |ops| - 1;
      var op, was := ops[n], Touched(ops[..n], id);
      if op.Create? && op.id == id then Some(op.now)
      else if op.UpdateStatus? && op.id == id && was.Some? then Some(op.now)
      else was
  }

  lemma {:induction false} LastStep(cfg: Config, s: State, ops: seq<Op>, end: State) returns (mid: State)
    requires Runs(cfg, s, ops, end) && ops != []
    ensures var n := |ops| - 1; Runs(cfg, s, ops[..n], mid) && Allowed(mid, ops[n]) && end == Step(cfg, mid, ops[n])
    decreases |ops|
  {
    var n := |ops| - 1;
    if n == 0 {
      mid := s;
      assert ops[..n] == [];
    } else {
      mid := LastStep(cfg, Step(cfg, s, ops[0]), ops[1..], end);
      assert ops[1..][..n - 1] == ops[..n][1..];
    }
  }

  // ----- What a task says -----

  ghost predicate TaskFits(cfg: Config, s: State, ops: seq<Op>, id: string) {
    id in s.tasks ==>
      && Told(cfg, ops, id) == Some(s.tasks[id])
      && id in s.expiry && Touched(ops, id).Some? && s.expiry[id] == Touched(ops, id).value + cfg.ttl
  }

  lemma ToldNext(cfg: Config, ops: seq<Op>, op: Op, id: string)
    ensures Told(cfg, ops + [op], id) == if Names(op, id) then Retold(cfg, Told(cfg, ops, id), op) else Told(cfg, ops, id)
    ensures Touched(ops + [op], id) ==
            if Names(op, id) && (op.Create? || (op.UpdateStatus? && Touched(ops, id).Some?)) then Some(op.now) else Touched(ops, id)
  {
    assert (ops + [op])[..|ops|] == ops;
  }

  /** A call that does not name the task leaves it as it is, if it leaves it. */
  lemma OthersLeave(cfg: Config, s: State, op: Op, id: string)
    requires Agree(cfg, s) && !Names(op, id) && id in Step(cfg, s, op).tasks
    ensures var end := Step(cfg, s, op);
            id in s.tasks && end.tasks[id] == s.tasks[id] && id in s.expiry && id in end.expiry && end.expiry[id] == s.expiry[id]
  {
  }

  lemma CreateSays(cfg: Config, s: State, op: Op)
    requires Agree(cfg, s) && op.Create? && Allowed(s, op)
    ensures var end := Step(cfg, s, op);
            && op.id in end.tasks && end.tasks[op.id] == Retold(cfg, None, op).value
            && op.id in end.expiry && end.expiry[op.id] == op.now + cfg.ttl
  {
    CreatedIsThere(cfg, s, op.sid, op.message, op.id, op.now);
    if op.sid != "" && op.sid in s.sessions {
      assert SessionOk(cfg, s, op.sid);
    }
  }

  lemma UpdateSays(cfg: Config, s: State, op: Op)
    requires Agree(cfg, s) && !op.Create? && !op.CleanExpired? && op.id in s.tasks
    ensures var end := Step(cfg, s, op);
            && op.id in end.tasks && Some(end.tasks[op.id]) == Retold(cfg, Some(s.tasks[op.id]), op)
            && op.id in end.expiry && end.expiry[op.id] == if op.UpdateStatus? then op.now + cfg.ttl else s.expiry[op.id]
  {
  }

  lemma StepFits(cfg: Config, s: State, ops: seq<Op>, op: Op, id: string)
    requires Agree(cfg, s) && Allowed(s, op) && TaskFits(cfg, s, ops, id)
    ensures TaskFits(cfg, Step(cfg, s, op), ops + [op], id)
  {
    ToldNext(cfg, ops, op, id);
    if id in Step(cfg, s, op).tasks {
      if !Names(op, id) {
        OthersLeave(cfg, s, op, id);
      } else if op.Create? {
        CreateSays(cfg, s, op);
      } else {
        NoneAppears(cfg, s, op);
        UpdateSays(cfg, s, op);
      }
    }
  }

  lemma NoneAppears(cfg: Config, s: State, op: Op)
    requires !op.Create? && !op.CleanExpired? && op.id in Step(cfg, s, op).tasks
    ensures op.id in s.tasks
  {
  }

  /**
    In every run from an empty store, a stored task says what the calls that named it tell, and
    expires the time to live after it was created or last given a status.
   */
  lemma {:induction false} TasksAreHistory(cfg: Config, ops: seq<Op>, s: State, id: string)
    requires Runs(cfg, Empty, ops, s)
    ensures TaskFits(cfg, s, ops, id)
    decreases |ops|
  {
    if ops != [] {
      var n := |ops| - 1;
      var mid := LastStep(cfg, Empty, ops, s);
      EveryStoreAgrees(cfg, ops[..n], mid);
      TasksAreHistory(cfg, ops[..n], mid, id);
      StepFits(cfg, mid, ops[..n], ops[n], id);
      assert ops == ops[..n] + [ops[n]];
    }
  }

  // ----- Cleanup -----

  /** `kept` is the part of `list` that has not expired, in its order. */
  ghost predicate KeepsLive(list: seq<string>, kept: seq<string>, expiry: map<string, int>, now: int, at: seq<nat>) {
    && PicksAt(list, kept, at)
    && forall j :: 0 <= j < |list| ==> list[j] in expiry && (j in at <==> now <= expiry[list[j]])
  }

  ghost predicate ListCleaned(list: seq<string>, kept: seq<string>, expiry: map<string, int>, now: int) {
    exists at :: KeepsLive(list, kept, expiry, now, at)
  }

  ghost predicate AllDue(list: seq<string>, expiry: map<string, int>) {
    forall x :: x in list ==> x in expiry
  }

  lemma OneFurther(at: seq<nat>) returns (shifted: seq<nat>)
    ensures |shifted| == |at| && forall k :: 0 <= k < |at| ==> shifted[k] == at[k] + 1
    ensures forall j :: 0 < j ==> (j in shifted <==> j - 1 in at)
  {
    shifted := seq(|at|, k requires 0 <= k < |at| => at[k] + 1);
    forall j | 0 < j ensures j in shifted <==> j - 1 in at {
      if j - 1 in at {
        var k :| 0 <= k < |at| && at[k] == j - 1;
        assert shifted[k] == j;
      }
    }
  }

  lemma ShiftedPicks(list: seq<string>, kept: seq<string>, expiry: map<string, int>, now: int, x: string)
    requires ListCleaned(list, kept, expiry, now) && x in expiry
    ensures ListCleaned([x] + list, (if now <= expiry[x] then [x] else []) + kept, expiry, now)
  {
    var at :| KeepsLive(list, kept, expiry, now, at);
    var shifted := OneFurther(at);
    if now <= expiry[x] {
      FirstPicked(list, kept, expiry, now, x, at, shifted);
    } else {
      FirstSkipped(list, kept, expiry, now, x, at, shifted);
    }
  }

  lemma PicksAfterFirst(list: seq<string>, kept: seq<string>, x: string, at: seq<nat>, shifted: seq<nat>)
    requires PicksAt(list, kept, at) && |shifted| == |at| && forall k :: 0 <= k < |at| ==> shifted[k] == at[k] + 1
    ensures PicksAt([x] + list, kept, shifted)
  {
  }

  lemma PicksFirstToo(list: seq<string>, kept: seq<string>, x: string, at: seq<nat>)
    requires PicksAt([x] + list, kept, at) && forall k :: 0 <= k < |at| ==> at[k] > 0
    ensures PicksAt([x] + list, [x] + kept, [0] + at)
  {
  }

  lemma FirstPicked(list: seq<string>, kept: seq<string>, expiry: map<string, int>, now: int, x: string, at: seq<nat>, shifted: seq<nat>)
    requires KeepsLive(list, kept, expiry, now, at) && x in expiry && now <= expiry[x]
    requires |shifted| == |at| && forall k :: 0 <= k < |at| ==> shifted[k] == at[k] + 1
    requires forall j :: 0 < j ==> (j in shifted <==> j - 1 in at)
    ensures KeepsLive([x] + list, [x] + kept, expiry, now, [0] + shifted)
  {
    var all := [0] + shifted;
    PicksAfterFirst(list, kept, x, at, shifted);
    PicksFirstToo(list, kept, x, shifted);
    forall j | 0 <= j <= |list| ensures ([x] + list)[j] in expiry && (j in all <==> now <= expiry[([x] + list)[j]]) {
      assert j == 0 ==> all[0] == j;
      assert j > 0 ==> (j in all <==> j in shifted) && ([x] + list)[j] == list[j - 1];
    }
  }

  lemma FirstSkipped(list: seq<string>, kept: seq<string>, expiry: map<string, int>, now: int, x: string, at: seq<nat>, shifted: seq<nat>)
    requires KeepsLive(list, kept, expiry, now, at) && x in expiry && expiry[x] < now
    requires |shifted| == |at| && forall k :: 0 <= k < |at| ==> shifted[k] == at[k] + 1
    requires forall j :: 0 < j ==> (j in shifted <==> j - 1 in at)
    ensures KeepsLive([x] + list, [] + kept, expiry, now, shifted)
  {
    assert [] + kept == kept;
    PicksAfterFirst(list, kept, x, at, shifted);
    forall j | 0 <= j <= |list| ensures ([x] + list)[j] in expiry && (j in shifted <==> now <= expiry[([x] + list)[j]]) {
      assert 0 !in shifted;
      assert j > 0 ==> ([x] + list)[j] == list[j - 1];
    }
  }

  lemma {:induction false} KeepIsLive(list: seq<string>, dead: set<string>, expiry: map<string, int>, now: int)
    requires AllDue(list, expiry) && forall x :: x in list ==> (x in dead <==> expiry[x] < now)
    ensures ListCleaned(list, Keep(list, dead), expiry, now)
  {
    if list == [] {
      assert KeepsLive([], [], expiry, now, []);
    } else {
      KeepIsLive(list[1..], dead, expiry, now);
      ShiftedPicks(list[1..], Keep(list[1..], dead), expiry, now, list[0]);
      assert list == [list[0]] + list[1..];
    }
  }

  ghost predicate SomeLive(list: seq<string>, expiry: map<string, int>, now: int) {
    exists x :: x in list && x in expiry && now <= expiry[x]
  }

  /**
    A cleanup removes exactly the tasks past their time, leaves the others and their times alone,
    leaves in every session list exactly the tasks that stay, in their order, and drops exactly the
    sessions that list none.
   */
  lemma CleanupLaw(cfg: Config, s: State, now: int)
    requires Agree(cfg, s)
    ensures var end := Step(cfg, s, CleanExpired(now));
            && (forall id :: id in end.tasks <==> id in s.tasks && now <= s.expiry[id])
            && (forall id :: id in end.tasks ==> end.tasks[id] == s.tasks[id] && id in end.expiry && end.expiry[id] == s.expiry[id])
            && end.expiry.Keys == end.tasks.Keys
            && (forall sid :: sid in end.sessions <==> sid in s.sessions && SomeLive(s.sessions[sid].tasks, s.expiry, now))
            && (forall sid :: sid in end.sessions ==>
                  && end.sessions[sid] == s.sessions[sid].(tasks := end.sessions[sid].tasks)
                  && ListCleaned(s.sessions[sid].tasks, end.sessions[sid].tasks, s.expiry, now))
  {
    forall sid | sid in s.sessions
      ensures ListCleaned(s.sessions[sid].tasks, Keep(s.sessions[sid].tasks, Expired(s, now)), s.expiry, now)
      ensures Keep(s.sessions[sid].tasks, Expired(s, now)) != [] <==> SomeLive(s.sessions[sid].tasks, s.expiry, now)
    {
      SessionCleaned(cfg, s, now, sid);
    }
  }

  lemma SessionCleaned(cfg: Config, s: State, now: int, sid: string)
    requires Agree(cfg, s) && sid in s.sessions
    ensures var list := s.sessions[sid].tasks;
            && ListCleaned(list, Keep(list, Expired(s, now)), s.expiry, now)
            && (Keep(list, Expired(s, now)) != [] <==> SomeLive(list, s.expiry, now))
  {
    var list, dead := s.sessions[sid].tasks, Expired(s, now);
    assert SessionOk(cfg, s, sid);
    KeepIsLive(list, dead, s.expiry, now);
    KeepIs(list, dead);
    if Keep(list, dead) != [] {
      assert Keep(list, dead)[0] in Keep(list, dead);
    }
  }

  /** What a creation does to its session, the list aside, and to the others. */
  lemma CreateSession(cfg: Config, s: State, op: Op)
    requires op.Create?
    ensures var end := Step(cfg, s, op);
            && (forall sid :: sid != op.sid || sid == "" ==>
                  (sid in end.sessions <==> sid in s.sessions) && (sid in s.sessions ==> end.sessions[sid] == s.sessions[sid]))
            && (op.sid != "" ==>
                  && op.sid in end.sessions && end.sessions[op.sid].updatedAt == end.sessions[op.sid].lastActivity == op.now
                  && var session := end.sessions[op.sid];
                     if op.sid in s.sessions then
                       var was := s.sessions[op.sid];
                       && session.id == was.id && session.createdAt == was.createdAt
                       && session.participants == was.participants && session.metadata == was.metadata
                     else
                       && session.id == op.sid && session.tasks == [op.id] && session.createdAt == op.now
                       && session.participants == map[] && session.metadata == map[])
  {
  }

  // ----- Exactly what makes a task go -----

  /** The session is full and this is its oldest task. */
  predicate NextToGo(cfg: Config, s: State, sid: string, id: string) {
    && sid != "" && sid in s.sessions && s.sessions[sid].tasks != [] && s.sessions[sid].tasks[0] == id
    && |s.sessions[sid].tasks| >= cfg.maxPerSession
  }

  /**
    One call removes a task exactly when it is a cleanup more than the time to live after the task
    was created or last given a status, or creates a task in its full session, of which it is the oldest.
   */
  lemma GoneExactly(cfg: Config, ops: seq<Op>, s: State, op: Op, id: string)
    requires Runs(cfg, Empty, ops, s) && Allowed(s, op) && id in s.tasks
    ensures Touched(ops, id).Some?
    ensures id !in Step(cfg, s, op).tasks <==>
            || (op.CleanExpired? && Touched(ops, id).value + cfg.ttl < op.now)
            || (op.Create? && NextToGo(cfg, s, op.sid, id))
  {
    EveryStoreAgrees(cfg, ops, s);
    TasksAreHistory(cfg, ops, s, id);
    if op.CleanExpired? {
      CleanupLaw(cfg, s, op.now);
    }
  }

  /** How many calls create a task in the session. */
  function Creates(ops: seq<Op>, sid: string): nat {
    if ops == [] then 0 else (if ops[0].Create? && ops[0].sid == sid then 1 else 0) + Creates(ops[1..], sid)
  }

  /** How many tasks of its session are newer, as far as they are still there. */
  ghost predicate NewerAtMost(s: State, id: string, n: int) {
    id in s.tasks &&
    var sid := s.tasks[id].session;
    sid != "" ==> sid in s.sessions && exists i :: 0 <= i < |s.sessions[sid].tasks| && s.sessions[sid].tasks[i] == id
                                                    && |s.sessions[sid].tasks| - 1 - i <= n
  }

  /** No cleanup comes too late for the task. */
  ghost predicate InTime(cfg: Config, before: seq<Op>, after: seq<Op>, id: string) {
    forall i :: 0 <= i < |after| ==> NotTooLate(cfg, before + after[..i], after[i], id)
  }

  ghost predicate NotTooLate(cfg: Config, before: seq<Op>, op: Op, id: string) {
    op.CleanExpired? ==> Touched(before, id).Some? && op.now <= Touched(before, id).value + cfg.ttl
  }

  lemma KeepAround(list: seq<string>, dead: set<string>, i: nat)
    requires i < |list| && list[i] !in dead
    ensures var kept, j := Keep(list, dead), |Keep(list[..i], dead)|;
            j < |kept| && kept[j] == list[i] && |kept| - 1 - j <= |list| - 1 - i
  {
    assert list == list[..i] + list[i..];
    KeepConcat(list[..i], list[i..], dead);
    assert list[i..][1..] == list[i + 1..];
    KeepIs(list[i + 1..], dead);
  }

  lemma CleanupNewer(cfg: Config, s: State, now: int, id: string, n: int)
    requires Agree(cfg, s) && NewerAtMost(s, id, n) && id in Step(cfg, s, CleanExpired(now)).tasks
    ensures NewerAtMost(Step(cfg, s, CleanExpired(now)), id, n)
  {
    var sid, end, dead := s.tasks[id].session, Step(cfg, s, CleanExpired(now)), Expired(s, now);
    if sid != "" {
      var list := s.sessions[sid].tasks;
      var i :| 0 <= i < |list| && list[i] == id && |list| - 1 - i <= n;
      KeepAround(list, dead, i);
      assert end.sessions[sid].tasks == Keep(list, dead);
    }
  }

  lemma CreateNewer(cfg: Config, s: State, op: Op, id: string, n: int)
    requires Agree(cfg, s) && Allowed(s, op) && op.Create? && NewerAtMost(s, id, n) && id in Step(cfg, s, op).tasks
    ensures NewerAtMost(Step(cfg, s, op), id, n + if op.sid == s.tasks[id].session then 1 else 0)
  {
    var sid, end := s.tasks[id].session, Step(cfg, s, op);
    if sid != "" {
      var list := s.sessions[sid].tasks;
      var i :| 0 <= i < |list| && list[i] == id && |list| - 1 - i <= n;
      if op.sid == sid {
        var list' := end.sessions[sid].tasks;
        var evict := |list| >= cfg.maxPerSession;
        assert list' == (if evict then list[1..] else list) + [op.id];
        assert list'[if evict then i - 1 else i] == id;
      } else {
        assert end.sessions[sid] == s.sessions[sid];
      }
    }
  }

  lemma StepNewer(cfg: Config, s: State, op: Op, id: string, n: int)
    requires Agree(cfg, s) && Allowed(s, op) && NewerAtMost(s, id, n) && id in Step(cfg, s, op).tasks
    ensures Step(cfg, s, op).tasks[id].session == s.tasks[id].session
    ensures NewerAtMost(Step(cfg, s, op), id, n + if op.Create? && op.sid == s.tasks[id].session then 1 else 0)
  {
    if op.Create? {
      CreateNewer(cfg, s, op, id, n);
    } else if op.CleanExpired? {
      CleanupNewer(cfg, s, op.now, id, n);
    } else {
      UpdateLeavesLists(cfg, s, op, id);
    }
  }

  lemma UpdateLeavesLists(cfg: Config, s: State, op: Op, id: string)
    requires !op.Create? && !op.CleanExpired? && id in s.tasks
    ensures var end := Step(cfg, s, op);
            end.sessions == s.sessions && id in end.tasks && end.tasks[id].session == s.tasks[id].session
  {
  }

  /** Only a task with a whole session of newer ones is next to go. */
  lemma NextHasNewer(cfg: Config, s: State, sid: string, id: string, n: int)
    requires Agree(cfg, s) && NewerAtMost(s, id, n) && NextToGo(cfg, s, sid, id)
    ensures s.tasks[id].session == sid && n >= AtLeastOne(cfg.maxPerSession) - 1
  {
    assert SessionOk(cfg, s, sid);
    var list := s.sessions[sid].tasks;
    assert list[0] in list;
    var i :| 0 <= i < |list| && list[i] == id && |list| - 1 - i <= n;
  }

  /** There is room in its session for the task and for what is newer. */
  predicate HasRoom(cfg: Config, sid: string, newer: int) {
    sid == "" || newer < AtLeastOne(cfg.maxPerSession)
  }

  lemma StepSpares(cfg: Config, before: seq<Op>, s: State, op: Op, id: string, n: int)
    requires Runs(cfg, Empty, before, s) && Allowed(s, op) && NewerAtMost(s, id, n)
    requires NotTooLate(cfg, before, op, id)
    requires HasRoom(cfg, s.tasks[id].session, n + if op.Create? && op.sid == s.tasks[id].session then 1 else 0)
    ensures id in Step(cfg, s, op).tasks
  {
    EveryStoreAgrees(cfg, before, s);
    GoneExactly(cfg, before, s, op, id);
    if op.Create? && NextToGo(cfg, s, op.sid, id) {
      NextHasNewer(cfg, s, op.sid, id, n);
    }
  }

  lemma {:induction false} RunOn(cfg: Config, s: State, ops: seq<Op>, end: State, op: Op)
    requires Runs(cfg, s, ops, end) && Allowed(end, op)
    ensures Runs(cfg, s, ops + [op], Step(cfg, end, op))
    decreases |ops|
  {
    if ops != [] {
      assert (ops + [op])[1..] == ops[1..] + [op];
      RunOn(cfg, Step(cfg, s, ops[0]), ops[1..], end, op);
    } else {
      assert (ops + [op])[1..] == [];
    }
  }

  lemma InTimeNext(cfg: Config, before: seq<Op>, after: seq<Op>, id: string)
    requires InTime(cfg, before, after, id) && after != []
    ensures InTime(cfg, before + [after[0]], after[1..], id)
    ensures NotTooLate(cfg, before, after[0], id)
  {
    assert before + after[..0] == before;
    forall i | 0 <= i < |after[1..]| ensures NotTooLate(cfg, before + [after[0]] + after[1..][..i], after[1..][i], id) {
      OneEarlier(before, after, i);
    }
  }

  lemma OneEarlier(before: seq<Op>, after: seq<Op>, i: nat)
    requires i + 1 <= |after|
    ensures before + [after[0]] + after[1..][..i] == before + after[..i + 1]
  {
  }

  /**
    From any moment of any run on, a task stays as long as every cleanup comes within the time to
    live of its creation or latest status, and its session has room for it and for those newer.
   */
  lemma {:induction false} StaysWhile(cfg: Config, before: seq<Op>, s: State, after: seq<Op>, end: State, id: string, n: int)
    requires Runs(cfg, Empty, before, s) && Runs(cfg, s, after, end) && NewerAtMost(s, id, n) && n >= 0
    requires InTime(cfg, before, after, id) && HasRoom(cfg, s.tasks[id].session, n + Creates(after, s.tasks[id].session))
    ensures id in end.tasks
    decreases |after|
  {
    if after != [] {
      var op, sid := after[0], s.tasks[id].session;
      InTimeNext(cfg, before, after, id);
      EveryStoreAgrees(cfg, before, s);
      StepSpares(cfg, before, s, op, id, n);
      StepNewer(cfg, s, op, id, n);
      RunOn(cfg, Empty, before, s, op);
      StaysWhile(cfg, before + [op], Step(cfg, s, op), after[1..], end, id, n + if op.Create? && op.sid == sid then 1 else 0);
    }
  }

  /** So a new task is there until it expires or its session has got as many newer ones as it may hold. */
  lemma NewTaskStays(cfg: Config, before: seq<Op>, s: State, op: Op, after: seq<Op>, end: State)
    requires Runs(cfg, Empty, before, s) && op.Create? && Allowed(s, op) && Runs(cfg, Step(cfg, s, op), after, end)
    requires InTime(cfg, before + [op], after, op.id) && HasRoom(cfg, op.sid, Creates(after, op.sid))
    ensures op.id in end.tasks
  {
    EveryStoreAgrees(cfg, before, s);
    RunOn(cfg, Empty, before, s, op);
    CreateSays(cfg, s, op);
    var mid := Step(cfg, s, op);
    if op.sid != "" {
      var list := mid.sessions[op.sid].tasks;
      assert list[|list| - 1] == op.id;
    }
    assert NewerAtMost(mid, op.id, 0);
    StaysWhile(cfg, before + [op], mid, after, end, op.id, 0);
  }
}
