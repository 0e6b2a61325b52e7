/**
  `TaskStore` of `adapters/a2a/server.go`: tasks, their expiry times and the sessions that list
  them are three maps that must agree, through creation with per-session eviction, updates,
  cancellation and the periodic removal of expired tasks.

  Every method runs under the store's lock; the clock reading and the fresh task id are
  parameters. Tasks are values here: the pointer `GetTask` hands out is not followed.
 */
module TaskStore {
  import opened Basics
  import opened TaskPages

  datatype Config = Config(ttl: int, maxHistory: int, maxPerSession: int)

  datatype Session = Session(id: string, tasks: seq<string>, createdAt: int, updatedAt: int, lastActivity: int,
                             participants: map<string, string>, metadata: map<string, string>)

  datatype Error = NoError | ErrTaskNotFound | ErrTaskNotCancelable | SliceOutOfRange

  datatype State = State(tasks: map<string, Task>, sessions: map<string, Session>, expiry: map<string, int>)

  const Empty := State(map[], map[], map[])

  // ----- Lists of ids -----

  function Keep(list: seq<string>, dead: set<string>): seq<string> {
    if list == [] then []
    else (if list[0] in dead then [] else [list[0]]) + Keep(list[1..], dead)
  }

  ghost predicate NoDuplicates(list: seq<string>) {
    forall i, j :: 0 <= i < j < |list| ==> list[i] != list[j]
  }

  /** The last `n` elements, or all if there are fewer. */
  function LastN<T>(s: seq<T>, n: nat): seq<T> {
    if |s| <= n then s else s[|s| - n..]
  }

  lemma {:induction false} KeepIs(list: seq<string>, dead: set<string>)
    ensures |Keep(list, dead)| <= |list|
    ensures forall x :: x in Keep(list, dead) <==> x in list && x !in dead
    ensures NoDuplicates(list) ==> NoDuplicates(Keep(list, dead))
  {
    if list != [] {
      KeepIs(list[1..], dead);
      assert list == [list[0]] + list[1..];
    }
  }

  lemma {:induction false} KeepAll(list: seq<string>, dead: set<string>)
    requires forall x :: x in list ==> x !in dead
    ensures Keep(list, dead) == list
  {
    if list != [] {
      KeepAll(list[1..], dead);
      assert list[0] in list;
    }
  }

  lemma {:induction false} KeepMore(list: seq<string>, dead: set<string>, x: string)
    ensures Keep(Keep(list, dead), {x}) == Keep(list, dead + {x})
  {
    if list != [] {
      var head := if list[0] in dead then [] else [list[0]];
      var tail := Keep(list[1..], dead);
      KeepMore(list[1..], dead, x);
      assert head != [] ==> (head + tail)[1..] == tail;
      assert head == [] ==> head + tail == tail;
    }
  }

  lemma KeepAllButOne(list: seq<string>, i: nat)
    requires NoDuplicates(list) && i < |list|
    ensures Keep(list, {list[i]}) == list[..i] + list[i + 1..]
  {
    var x, tail := list[i], list[i..];
    assert tail[1..] == list[i + 1..] && list == list[..i] + tail;
    KeepConcat(list[..i], tail, {x});
    KeepAll(list[..i], {x});
    KeepAll(list[i + 1..], {x});
    assert Keep(tail, {x}) == Keep(list[i + 1..], {x});
  }

  ghost predicate FirstAt(list: seq<string>, x: string, i: nat) {
    i < |list| && list[i] == x && x !in list[..i]
  }

  /** `removeString`: the first occurrence goes. Without duplicates that is every occurrence. */
  method RemoveString(list: seq<string>, x: string) returns (r: seq<string>)
    ensures if x in list then exists i: nat :: FirstAt(list, x, i) && r == list[..i] + list[i + 1..] else r == list
    ensures NoDuplicates(list) ==> r == Keep(list, {x})
  {
    for i := 0 to |list|
      invariant x !in list[..i]
    {
      if list[i] == x {
        assert FirstAt(list, x, i);
        if NoDuplicates(list) {
          KeepAllButOne(list, i);
        }
        return list[..i] + list[i + 1..];
      }
    }
    assert list[..|list|] == list;
    KeepAll(list, {x});
    return list;
  }

  lemma Associative(a: seq<string>, b: seq<string>, c: seq<string>)
    ensures a + (b + c) == a + b + c
  {
  }

  lemma {:induction false} KeepConcat(a: seq<string>, b: seq<string>, dead: set<string>)
    ensures Keep(a + b, dead) == Keep(a, dead) + Keep(b, dead)
  {
    if a == [] {
      assert a + b == b;
    } else {
      KeepConcat(a[1..], b, dead);
      assert (a + b)[0] == a[0] && (a + b)[1..] == a[1..] + b;
      var head := if a[0] in dead then [] else [a[0]];
      Associative(head, Keep(a[1..], dead), Keep(b, dead));
    }
  }

  // ----- Operations -----

  const SUBMITTED := "submitted"
  const WORKING := "working"
  const INPUT_REQUIRED := "input-required"
  const CANCELED := "canceled"

  function Created(cfg: Config, s: State, sid: string, message: string, id: string, now: int): State {
    var task := Task(id, sid, SUBMITTED, None, now, [message], [], map[]);
    var tasks, expiry := s.tasks[id := task], s.expiry[id := now + cfg.ttl];
    if sid == "" then
      State(tasks, s.sessions, expiry)
    else if sid !in s.sessions then
      State(tasks, s.sessions[sid := Session(sid, [id], now, now, now, map[], map[])], expiry)
    else
      var session := s.sessions[sid];
      var evict := |session.tasks| > 0 && |session.tasks| >= cfg.maxPerSession;
      var gone := if evict then {session.tasks[0]} else {};
      var kept := if evict then session.tasks[1..] else session.tasks;
      State(tasks - gone,
            s.sessions[sid := session.(tasks := kept + [id], updatedAt := now, lastActivity := now)],
            expiry - gone)
  }

  function Expired(s: State, now: int): set<string> {
    set id | id in s.expiry && now > s.expiry[id]
  }

  /** `dead` tasks are gone, also from the session lists. */
  function Purged(s: State, dead: set<string>): State {
    State(s.tasks - dead,
          map sid | sid in s.sessions :: s.sessions[sid].(tasks := Keep(s.sessions[sid].tasks, dead)),
          s.expiry - dead)
  }

  function DropEmpty(sessions: map<string, Session>): map<string, Session> {
    map sid | sid in sessions && sessions[sid].tasks != [] :: sessions[sid]
  }

  function Cleaned(s: State, now: int): State {
    var purged := Purged(s, Expired(s, now));
    purged.(sessions := DropEmpty(purged.sessions))
  }

  function StatusUpdated(cfg: Config, s: State, id: string, state: string, message: Option<string>, now: int): State
    requires id in s.tasks
  {
    s.(tasks := s.tasks[id := s.tasks[id].(state := state, statusMessage := message, statusAt := now)],
       expiry := s.expiry[id := now + cfg.ttl])
  }

  function MessageAdded(cfg: Config, s: State, id: string, message: string): State
    requires id in s.tasks
  {
    s.(tasks := s.tasks[id := s.tasks[id].(history := Trimmed(cfg, s.tasks[id].history + [message]))])
  }

  /** Below zero the limit makes the code slice out of range, after it has appended the message. */
  function Trimmed(cfg: Config, history: seq<string>): seq<string> {
    if cfg.maxHistory < 0 then history else LastN(history, cfg.maxHistory)
  }

  function ArtifactAdded(s: State, id: string, artifact: string): State
    requires id in s.tasks
  {
    s.(tasks := s.tasks[id := s.tasks[id].(artifacts := s.tasks[id].artifacts + [artifact])])
  }

  predicate Cancelable(state: string) {
    state == SUBMITTED || state == WORKING || state == INPUT_REQUIRED
  }

  function Canceled(s: State, id: string, now: int): State
    requires id in s.tasks
  {
    s.(tasks := s.tasks[id := s.tasks[id].(state := CANCELED, statusMessage := None, statusAt := now)])
  }

  // ----- Agreement of the three maps -----

  /** A session lists, without repetition and never beyond the limit, tasks of its own. */
  ghost predicate SessionOk(cfg: Config, s: State, sid: string)
    requires sid in s.sessions
  {
    var list := s.sessions[sid].tasks;
    && sid != "" && list != [] && NoDuplicates(list)
    && |list| <= AtLeastOne(cfg.maxPerSession)
    && forall id :: id in list ==> id in s.tasks && s.tasks[id].session == sid
  }

  /** A task of a session is listed there. */
  ghost predicate Listed(s: State, id: string)
    requires id in s.tasks
  {
    var sid := s.tasks[id].session;
    sid != "" ==> sid in s.sessions && id in s.sessions[sid].tasks
  }

  ghost predicate Agree(cfg: Config, s: State) {
    && s.tasks.Keys == s.expiry.Keys
    && Keyed(s.tasks)
    && (forall sid :: sid in s.sessions ==> SessionOk(cfg, s, sid))
    && (forall id :: id in s.tasks ==> Listed(s, id))
  }

  ghost predicate HistoriesBounded(cfg: Config, s: State) {
    forall id :: id in s.tasks ==> |s.tasks[id].history| <= AtLeastOne(cfg.maxHistory)
  }

  /** An update that leaves ids and sessions of the tasks alone leaves the agreement alone. */
  lemma SameShapeAgrees(cfg: Config, s: State, end: State)
    requires Agree(cfg, s) && end.sessions == s.sessions && end.expiry.Keys == s.expiry.Keys
    requires end.tasks.Keys == s.tasks.Keys
    requires forall id :: id in s.tasks ==> end.tasks[id].id == s.tasks[id].id && end.tasks[id].session == s.tasks[id].session
    ensures Agree(cfg, end)
  {
    forall sid | sid in end.sessions ensures SessionOk(cfg, end, sid) {
      assert SessionOk(cfg, s, sid);
    }
    forall id | id in end.tasks ensures Listed(end, id) {
      assert Listed(s, id);
    }
  }

  lemma CreateKeepsKeys(cfg: Config, s: State, sid: string, message: string, id: string, now: int)
    requires s.tasks.Keys == s.expiry.Keys && Keyed(s.tasks) && id != ""
    ensures var end := Created(cfg, s, sid, message, id, now); end.tasks.Keys == end.expiry.Keys && Keyed(end.tasks)
  {
  }

  lemma CreateAgrees(cfg: Config, s: State, sid: string, message: string, id: string, now: int)
    requires Agree(cfg, s) && id != "" && id !in s.tasks
    ensures Agree(cfg, Created(cfg, s, sid, message, id, now))
  {
    var end := Created(cfg, s, sid, message, id, now);
    CreateKeepsKeys(cfg, s, sid, message, id, now);
    forall x | x in end.sessions ensures SessionOk(cfg, end, x) {
      if x in s.sessions {
        CreateKeepsSession(cfg, s, sid, message, id, now, x);
      } else {
        CreateOpensSession(cfg, s, message, id, now, x);
      }
    }
    forall x | x in end.tasks ensures Listed(end, x) {
      CreateKeepsListed(cfg, s, sid, message, id, now, x);
    }
  }

  lemma CreateOpensSession(cfg: Config, s: State, message: string, id: string, now: int, sid: string)
    requires sid !in s.sessions && sid != ""
    ensures var end := Created(cfg, s, sid, message, id, now); sid in end.sessions && SessionOk(cfg, end, sid)
  {
  }

  lemma CreateKeepsListed(cfg: Config, s: State, sid: string, message: string, id: string, now: int, x: string)
    requires Agree(cfg, s) && id !in s.tasks && x in Created(cfg, s, sid, message, id, now).tasks
    ensures Listed(Created(cfg, s, sid, message, id, now), x)
  {
    if x in s.tasks {
      assert Listed(s, x);
    }
  }

  lemma CreateKeepsSession(cfg: Config, s: State, sid: string, message: string, id: string, now: int, x: string)
    requires Agree(cfg, s) && id != "" && id !in s.tasks && x in s.sessions
    ensures var end := Created(cfg, s, sid, message, id, now); x in end.sessions && SessionOk(cfg, end, x)
  {
    assert SessionOk(cfg, s, x);
    if x == sid {
      assert id !in s.sessions[x].tasks;
    } else if sid != "" && sid in s.sessions {
      assert SessionOk(cfg, s, sid);
    }
  }

  /** The task just created is there: what was evicted for it is another one. */
  lemma CreatedIsThere(cfg: Config, s: State, sid: string, message: string, id: string, now: int)
    requires Agree(cfg, s) && id !in s.tasks
    ensures var end := Created(cfg, s, sid, message, id, now);
            id in end.tasks && end.tasks[id] == Task(id, sid, SUBMITTED, None, now, [message], [], map[])
  {
    if sid != "" && sid in s.sessions {
      assert SessionOk(cfg, s, sid);
    }
  }

  lemma FirstOnly(list: seq<string>)
    requires list != [] && NoDuplicates(list)
    ensures (set x | x in list && x !in list[1..]) == {list[0]}
  {
    assert list == [list[0]] + list[1..];
  }

  lemma CreateListsNewest(cfg: Config, s: State, sid: string, message: string, id: string, now: int)
    requires sid in s.sessions && SessionOk(cfg, s, sid)
    ensures Created(cfg, s, sid, message, id, now).sessions[sid].tasks
            == LastN(s.sessions[sid].tasks + [id], AtLeastOne(cfg.maxPerSession))
  {
    var was := s.sessions[sid].tasks;
    assert (was + [id])[1..] == was[1..] + [id];
  }

  lemma CreateDropsOldest(cfg: Config, s: State, sid: string, message: string, id: string, now: int)
    requires sid in s.sessions && SessionOk(cfg, s, sid) && id !in s.tasks
    ensures var list, end := s.sessions[sid].tasks + [id], Created(cfg, s, sid, message, id, now);
            end.tasks.Keys == (s.tasks.Keys + {id}) - (set x | x in list && x !in end.sessions[sid].tasks)
  {
    var was := s.sessions[sid].tasks;
    var list := was + [id];
    assert id !in was;
    assert NoDuplicates(list);
    assert list[1..] == was[1..] + [id];
    FirstOnly(list);
  }

  /** Creation drops exactly the tasks that push the session's list over its limit, oldest first. */
  lemma CreateKeepsNewest(cfg: Config, s: State, sid: string, message: string, id: string, now: int)
    requires Agree(cfg, s) && id != "" && id !in s.tasks && sid in s.sessions
    ensures var list, end := s.sessions[sid].tasks + [id], Created(cfg, s, sid, message, id, now);
            && end.sessions[sid].tasks == LastN(list, AtLeastOne(cfg.maxPerSession))
            && end.tasks.Keys == (s.tasks.Keys + {id}) - (set x | x in list && x !in end.sessions[sid].tasks)
  {
    assert SessionOk(cfg, s, sid);
    CreateListsNewest(cfg, s, sid, message, id, now);
    CreateDropsOldest(cfg, s, sid, message, id, now);
  }

  lemma PurgeAgrees(cfg: Config, s: State, dead: set<string>)
    requires Agree(cfg, s)
    ensures var end := Purged(s, dead); Agree(cfg, end.(sessions := DropEmpty(end.sessions)))
  {
    var purged := Purged(s, dead);
    var end := purged.(sessions := DropEmpty(purged.sessions));
    forall sid | sid in end.sessions ensures SessionOk(cfg, end, sid) {
      assert SessionOk(cfg, s, sid);
      KeepIs(s.sessions[sid].tasks, dead);
    }
    forall id | id in end.tasks ensures Listed(end, id) {
      assert Listed(s, id);
      if s.tasks[id].session != "" {
        KeepIs(s.sessions[s.tasks[id].session].tasks, dead);
      }
    }
  }

  // ----- Every run -----

  datatype Op =
    | Create(sid: string, message: string, id: string, now: int)
    | UpdateStatus(id: string, state: string, note: Option<string>, now: int)
    | AddMessage(id: string, message: string)
    | AddArtifact(id: string, artifact: string)
    | Cancel(id: string, now: int)
    | CleanExpired(now: int)

  /** Ids are fresh UUIDs. */
  predicate Allowed(s: State, op: Op) {
    op.Create? ==> op.id != "" && op.id !in s.tasks
  }

  function Step(cfg: Config, s: State, op: Op): State
  {
    match op
    case Create(sid, message, id, now) => Created(cfg, s, sid, message, id, now)
    case UpdateStatus(id, state, note, now) => if id in s.tasks then StatusUpdated(cfg, s, id, state, note, now) else s
    case AddMessage(id, message) => if id in s.tasks then MessageAdded(cfg, s, id, message) else s
    case AddArtifact(id, artifact) => if id in s.tasks then ArtifactAdded(s, id, artifact) else s
    case Cancel(id, now) => if id in s.tasks && Cancelable(s.tasks[id].state) then Canceled(s, id, now) else s
    case CleanExpired(now) => Cleaned(s, now)
  }

  ghost predicate Runs(cfg: Config, s: State, ops: seq<Op>, end: State)
    decreases |ops|
  {
    if ops == [] then s == end
    else Allowed(s, ops[0]) && Runs(cfg, Step(cfg, s, ops[0]), ops[1..], end)
  }

  lemma TaskChangeAgrees(cfg: Config, s: State, id: string, t: Task, expiry: map<string, int>)
    requires Agree(cfg, s) && id in s.tasks && expiry.Keys == s.expiry.Keys
    requires t.id == s.tasks[id].id && t.session == s.tasks[id].session
    ensures Agree(cfg, State(s.tasks[id := t], s.sessions, expiry))
  {
    SameShapeAgrees(cfg, s, State(s.tasks[id := t], s.sessions, expiry));
  }

  lemma UpdateAgrees(cfg: Config, s: State, op: Op)
    requires Agree(cfg, s) && !op.Create? && !op.CleanExpired?
    ensures Agree(cfg, Step(cfg, s, op))
  {
    var end := Step(cfg, s, op);
    if end != s {
      TaskChangeAgrees(cfg, s, op.id, end.tasks[op.id], end.expiry);
    }
  }

  lemma StepAgrees(cfg: Config, s: State, op: Op)
    requires Agree(cfg, s) && Allowed(s, op)
    ensures Agree(cfg, Step(cfg, s, op))
  {
    match op
    case Create(sid, message, id, now) => CreateAgrees(cfg, s, sid, message, id, now);
    case CleanExpired(now) => PurgeAgrees(cfg, s, Expired(s, now));
    case _ => UpdateAgrees(cfg, s, op);
  }

  lemma StepBoundsHistories(cfg: Config, s: State, op: Op)
    requires cfg.maxHistory >= 0 && HistoriesBounded(cfg, s)
    ensures HistoriesBounded(cfg, Step(cfg, s, op))
  {
  }

  /**
    Through every run of the store, tasks and expiry times have the same keys, every session
    lists exactly its live tasks, without repetition and within the limit, and no history
    outgrows its limit.
   */
  lemma {:induction false} EveryRunAgrees(cfg: Config, s: State, ops: seq<Op>, end: State)
    requires Agree(cfg, s) && Runs(cfg, s, ops, end)
    ensures Agree(cfg, end)
    ensures forall sid, id :: sid != "" ==>
              (id in end.tasks && end.tasks[id].session == sid <==> sid in end.sessions && id in end.sessions[sid].tasks)
    ensures cfg.maxHistory >= 0 && HistoriesBounded(cfg, s) ==> HistoriesBounded(cfg, end)
    decreases |ops|
  {
    if ops == [] {
      SessionsListExactly(cfg, s);
    } else {
      StepAgrees(cfg, s, ops[0]);
      if cfg.maxHistory >= 0 && HistoriesBounded(cfg, s) {
        StepBoundsHistories(cfg, s, ops[0]);
      }
      EveryRunAgrees(cfg, Step(cfg, s, ops[0]), ops[1..], end);
    }
  }

  lemma SessionsListExactly(cfg: Config, s: State)
    requires Agree(cfg, s)
    ensures forall sid, id :: sid != "" ==>
              (id in s.tasks && s.tasks[id].session == sid <==> sid in s.sessions && id in s.sessions[sid].tasks)
  {
    forall sid, id | sid != ""
      ensures id in s.tasks && s.tasks[id].session == sid <==> sid in s.sessions && id in s.sessions[sid].tasks
    {
      if id in s.tasks {
        assert Listed(s, id);
      }
      if sid in s.sessions {
        assert SessionOk(cfg, s, sid);
      }
    }
  }

  lemma EmptyAgrees(cfg: Config)
    ensures Agree(cfg, Empty) && HistoriesBounded(cfg, Empty)
  {
  }

  /** So it is for every store that was ever new. */
  lemma EveryStoreAgrees(cfg: Config, ops: seq<Op>, end: State)
    requires Runs(cfg, Empty, ops, end)
    ensures Agree(cfg, end) && (cfg.maxHistory >= 0 ==> HistoriesBounded(cfg, end))
  {
    EmptyAgrees(cfg);
    EveryRunAgrees(cfg, Empty, ops, end);
  }

  // ----- Histories keep the newest messages -----

  function AllAdded(cfg: Config, s: State, id: string, messages: seq<string>): State
    requires id in s.tasks
    decreases |messages|
  {
    if messages == [] then s
    else AllAdded(cfg, MessageAdded(cfg, s, id, messages[0]), id, messages[1..])
  }

  lemma LastOfLast<T>(a: seq<T>, b: seq<T>, n: nat)
    ensures LastN(LastN(a, n) + b, n) == LastN(a + b, n)
  {
  }

  lemma AddedHistory(cfg: Config, s: State, id: string, message: string)
    requires id in s.tasks && cfg.maxHistory >= 0
    ensures var end := MessageAdded(cfg, s, id, message);
            id in end.tasks && end.tasks[id].history == LastN(s.tasks[id].history + [message], cfg.maxHistory)
  {
  }

  /** However many messages are added, the history is the newest ones, in order. */
  lemma {:induction false} HistoryIsNewest(cfg: Config, s: State, id: string, messages: seq<string>)
    requires id in s.tasks && cfg.maxHistory >= 0 && messages != []
    ensures var end := AllAdded(cfg, s, id, messages);
            id in end.tasks && end.tasks[id].history == LastN(s.tasks[id].history + messages, cfg.maxHistory)
    decreases |messages|
  {
    var h, m, more := s.tasks[id].history, messages[0], messages[1..];
    var mid := MessageAdded(cfg, s, id, m);
    AddedHistory(cfg, s, id, m);
    if more == [] {
      assert messages == [m];
      assert AllAdded(cfg, mid, id, more) == mid;
    } else {
      HistoryIsNewest(cfg, mid, id, more);
      LastOfLast(h + [m], more, cfg.maxHistory);
      assert h + [m] + more == h + messages;
    }
  }

  // ----- The store object -----

  /** What removing a task relies on: lists without repetition that name only their own tasks. */
  ghost predicate ListsOwn(s: State) {
    && s.tasks.Keys == s.expiry.Keys
    && (forall x :: x in s.sessions ==> NoDuplicates(s.sessions[x].tasks))
    && (forall x, id :: x in s.sessions && id in s.sessions[x].tasks && id in s.tasks ==> s.tasks[id].session == x)
  }

  lemma AgreeListsOwn(cfg: Config, s: State)
    requires Agree(cfg, s)
    ensures ListsOwn(s)
  {
    forall x | x in s.sessions ensures NoDuplicates(s.sessions[x].tasks) {
      assert SessionOk(cfg, s, x);
    }
    forall x, id | x in s.sessions && id in s.sessions[x].tasks && id in s.tasks ensures s.tasks[id].session == x {
      assert SessionOk(cfg, s, x);
    }
  }

  lemma KeepOneMore(list: seq<string>, dead: set<string>, id: string)
    ensures Keep(list, dead + {id}) == Keep(Keep(list, dead), {id})
    ensures id !in list ==> Keep(list, dead + {id}) == Keep(list, dead)
  {
    KeepMore(list, dead, id);
    if id !in list {
      KeepIs(list, dead);
      KeepAll(Keep(list, dead), {id});
    }
  }

  /** One more dead task: only its own session's list changes. */
  lemma PurgeOne(s: State, dead: set<string>, id: string)
    requires ListsOwn(s) && id in s.tasks
    ensures Purged(s, dead + {id}).tasks == Purged(s, dead).tasks - {id}
    ensures Purged(s, dead + {id}).expiry == Purged(s, dead).expiry - {id}
    ensures var p, sid := Purged(s, dead).sessions, s.tasks[id].session;
            Purged(s, dead + {id}).sessions ==
            if sid in p then p[sid := p[sid].(tasks := Keep(p[sid].tasks, {id}))] else p
  {
    var p, p', sid := Purged(s, dead).sessions, Purged(s, dead + {id}).sessions, s.tasks[id].session;
    assert p'.Keys == p.Keys == s.sessions.Keys;
    forall x | x in s.sessions ensures p'[x] == if x == sid then p[x].(tasks := Keep(p[x].tasks, {id})) else p[x] {
      KeepOneMore(s.sessions[x].tasks, dead, id);
    }
  }

  lemma PurgeNone(s: State)
    ensures Purged(s, {}) == s
  {
    forall x | x in s.sessions ensures Keep(s.sessions[x].tasks, {}) == s.sessions[x].tasks {
      KeepAll(s.sessions[x].tasks, {});
    }
    assert Purged(s, {}).sessions == s.sessions;
  }

  class Store {
    const config: Config
    var tasks: map<string, Task>
    var sessions: map<string, Session>
    var expiry: map<string, int>

    ghost function View(): State
      reads this
    {
      State(tasks, sessions, expiry)
    }

    constructor (config: Config)
      ensures this.config == config && View() == Empty && Agree(config, View())
    {
      this.config := config;
      tasks, sessions, expiry := map[], map[], map[];
    }

    method CreateTask(sid: string, message: string, id: string, now: int) returns (task: Task)
      requires Agree(config, View()) && id != "" && id !in tasks
      modifies this
      ensures View() == Created(config, old(View()), sid, message, id, now)
      ensures task == tasks[id] && Agree(config, View())
    {
      ghost var before := View();
      task := Task(id, sid, SUBMITTED, None, now, [message], [], map[]);
      tasks := tasks[id := task];
      expiry := expiry[id := now + config.ttl];
      if sid != "" {
        if sid in sessions {
          var session := sessions[sid];
          if |session.tasks| >= config.maxPerSession {
            if |session.tasks| > 0 {
              var oldest := session.tasks[0];
              tasks := tasks - {oldest};
              expiry := expiry - {oldest};
              session := session.(tasks := session.tasks[1..]);
            }
          }
          session := session.(tasks := session.tasks + [id], updatedAt := now, lastActivity := now);
          sessions := sessions[sid := session];
        } else {
          sessions := sessions[sid := Session(sid, [id], now, now, now, map[], map[])];
        }
      }
      assert View() == Created(config, before, sid, message, id, now);
      CreatedIsThere(config, before, sid, message, id, now);
      CreateAgrees(config, before, sid, message, id, now);
    }

    method UpdateTaskStatus(id: string, state: string, message: Option<string>, now: int) returns (err: Error)
      requires Agree(config, View())
      modifies this`tasks, this`expiry
      ensures err == if id in old(tasks) then NoError else ErrTaskNotFound
      ensures View() == if id in old(tasks) then StatusUpdated(config, old(View()), id, state, message, now) else old(View())
      ensures Agree(config, View())
    {
      if id !in tasks {
        return ErrTaskNotFound;
      }
      SameShapeAgrees(config, View(), StatusUpdated(config, View(), id, state, message, now));
      tasks := tasks[id := tasks[id].(state := state, statusMessage := message, statusAt := now)];
      expiry := expiry[id := now + config.ttl];
      err := NoError;
    }

    method AddTaskMessage(id: string, message: string) returns (err: Error)
      requires Agree(config, View())
      modifies this`tasks
      ensures err == if id !in old(tasks) then ErrTaskNotFound else if config.maxHistory < 0 then SliceOutOfRange else NoError
      ensures View() == if id in old(tasks) then MessageAdded(config, old(View()), id, message) else old(View())
      ensures Agree(config, View())
    {
      if id !in tasks {
        return ErrTaskNotFound;
      }
      SameShapeAgrees(config, View(), MessageAdded(config, View(), id, message));
      var history := tasks[id].history + [message];
      if |history| > config.maxHistory {
        if config.maxHistory < 0 {
          tasks := tasks[id := tasks[id].(history := history)];
          return SliceOutOfRange;
        }
        history := history[|history| - config.maxHistory..];
      }
      tasks := tasks[id := tasks[id].(history := history)];
      err := NoError;
    }

    method AddTaskArtifact(id: string, artifact: string) returns (err: Error)
      requires Agree(config, View())
      modifies this`tasks
      ensures err == if id in old(tasks) then NoError else ErrTaskNotFound
      ensures View() == if id in old(tasks) then ArtifactAdded(old(View()), id, artifact) else old(View())
      ensures Agree(config, View())
    {
      if id !in tasks {
        return ErrTaskNotFound;
      }
      SameShapeAgrees(config, View(), ArtifactAdded(View(), id, artifact));
      tasks := tasks[id := tasks[id].(artifacts := tasks[id].artifacts + [artifact])];
      err := NoError;
    }

    method CancelTask(id: string, now: int) returns (err: Error)
      requires Agree(config, View())
      modifies this`tasks
      ensures err == if id !in old(tasks) then ErrTaskNotFound
                     else if Cancelable(old(tasks)[id].state) then NoError else ErrTaskNotCancelable
      ensures View() == if err == NoError then Canceled(old(View()), id, now) else old(View())
      ensures Agree(config, View())
    {
      if id !in tasks {
        return ErrTaskNotFound;
      }
      var state := tasks[id].state;
      if state != SUBMITTED && state != WORKING && state != INPUT_REQUIRED {
        return ErrTaskNotCancelable;
      }
      SameShapeAgrees(config, View(), Canceled(View(), id, now));
      tasks := tasks[id := tasks[id].(state := CANCELED, statusMessage := None, statusAt := now)];
      err := NoError;
    }

    method CleanExpired(now: int)
      requires Agree(config, View())
      modifies this
      ensures View() == Cleaned(old(View()), now)
      ensures Agree(config, View())
    {
      ghost var before := View();
      AgreeListsOwn(config, before);
      RemoveExpired(now);
      PurgeAgrees(config, before, Expired(before, now));
      DropEmptySessions();
    }

    method RemoveExpired(now: int)
      requires ListsOwn(View())
      modifies this
      ensures View() == Purged(old(View()), Expired(old(View()), now))
    {
      ghost var before := View();
      ghost var dead: set<string> := {};
      PurgeNone(before);
      var todo := expiry.Keys;
      while todo != {}
        invariant todo <= before.expiry.Keys && dead == Expired(before, now) - todo
        invariant View() == Purged(before, dead)
      {
        var id :| id in todo;
        if now > expiry[id] {
          Remove(id, dead, before);
          dead := dead + {id};
        }
        todo := todo - {id};
      }
      assert dead == Expired(before, now);
    }

    method Remove(id: string, ghost dead: set<string>, ghost before: State)
      requires id in before.tasks && id !in dead && ListsOwn(before) && View() == Purged(before, dead)
      modifies this
      ensures View() == Purged(before, dead + {id})
    {
      PurgeOne(before, dead, id);
      var sid := tasks[id].session;
      if sid in sessions {
        KeepIs(before.sessions[sid].tasks, dead);
        var list := RemoveString(sessions[sid].tasks, id);
        sessions := sessions[sid := sessions[sid].(tasks := list)];
      }
      tasks := tasks - {id};
      expiry := expiry - {id};
    }

    method DropEmptySessions()
      modifies this`sessions
      ensures sessions == DropEmpty(old(sessions))
    {
      var todo := sessions.Keys;
      while todo != {}
        invariant todo <= sessions.Keys <= old(sessions).Keys
        invariant forall sid :: sid in old(sessions) ==> (sid in sessions <==> sid in todo || old(sessions)[sid].tasks != [])
        invariant forall sid :: sid in sessions ==> sessions[sid] == old(sessions)[sid]
      {
        var sid :| sid in todo;
        todo := todo - {sid};
        if |sessions[sid].tasks| == 0 {
          sessions := sessions - {sid};
        }
      }
    }

    /** The matching tasks in the order the map happens to be iterated in. */
    method Collect(filter: Filter) returns (matching: seq<Task>)
      requires Keyed(tasks)
      ensures forall t :: t in matching <==> t.id in tasks && tasks[t.id] == t && Matches(filter, t)
      ensures forall i, j :: 0 <= i < j < |matching| ==> matching[i].id != matching[j].id
    {
      matching := [];
      var todo := tasks.Keys;
      while todo != {}
        invariant todo <= tasks.Keys
        invariant forall t :: t in matching <==> t.id in tasks && t.id !in todo && tasks[t.id] == t && Matches(filter, t)
        invariant forall i, j :: 0 <= i < j < |matching| ==> matching[i].id != matching[j].id
      {
        var id :| id in todo;
        todo := todo - {id};
        var task := tasks[id];
        if Matches(filter, task) {
          assert forall i :: 0 <= i < |matching| ==> matching[i] in matching;
          matching := matching + [task];
        }
      }
    }

    method ListTasks(filter: Filter, cursor: string, limit: int) returns (page: Page)
      requires Agree(config, View())
      ensures exists list :: Listing(tasks, filter, list) && page == PageOf(list, cursor, limit)
    {
      var matching := Collect(filter);
      var a := new Task[|matching|](i requires 0 <= i < |matching| => matching[i]);
      assert a[..] == matching;
      SortTasksByID(a);
      SortedIsListing(tasks, filter, matching, a[..]);

      page := Slice(a[..], cursor, limit);
    }

    /** Cursor and limit applied to the sorted tasks. */
    static method Slice(list: seq<Task>, cursor: string, limit: int) returns (page: Page)
      ensures page == PageOf(list, cursor, limit)
    {
      var max := if limit <= 0 then DEFAULT_LIMIT else if limit > MAX_LIMIT then MAX_LIMIT else limit;
      var start := FindStart(list, cursor);
      var end := start + max;
      if end > |list| {
        end := |list|;
      }
      page := Page(list[start..end], "", |list|);
      if end < |list| {
        page := page.(nextCursor := list[end - 1].id);
      }
    }

    static method FindStart(list: seq<Task>, cursor: string) returns (start: nat)
      ensures start == After(list, cursor)
    {
      start := 0;
      if cursor != "" {
        for i := 0 to |list|
          invariant AfterFrom(list, cursor, 0) == AfterFrom(list, cursor, i)
        {
          if list[i].id == cursor {
            return i + 1;
          }
        }
      }
    }
  }

  lemma SortedIsListing(tasks: map<string, Task>, filter: Filter, matching: seq<Task>, list: seq<Task>)
    requires forall t :: t in matching <==> t.id in tasks && tasks[t.id] == t && Matches(filter, t)
    requires forall i, j :: 0 <= i < j < |matching| ==> matching[i].id != matching[j].id
    requires SortedById(list) && multiset(list) == multiset(matching)
    ensures Listing(tasks, filter, list)
  {
    forall t ensures t in list <==> t in matching {
      assert t in multiset(list) <==> t in multiset(matching);
    }
    DistinctCounts(matching);
    forall i, j | 0 <= i < j < |list| ensures Less(list[i].id, list[j].id) {
      LessTotal(list[i].id, list[j].id);
      if list[i].id == list[j].id {
        assert list[i] in matching && list[j] in matching;
        assert list[i] == tasks[list[i].id] == list[j];
        TwiceCounts(list, i, j);
      }
    }
  }

  lemma {:induction false} DistinctCounts(s: seq<Task>)
    requires forall i, j :: 0 <= i < j < |s| ==> s[i].id != s[j].id
    ensures forall t :: multiset(s)[t] <= 1
  {
    if s != [] {
      var n := |s| - 1;
      DistinctCounts(s[..n]);
      assert s == s[..n] + [s[n]];
      assert s[n] !in s[..n];
    }
  }

  lemma TwiceCounts(s: seq<Task>, i: nat, j: nat)
    requires i < j < |s| && s[i] == s[j]
    ensures multiset(s)[s[i]] >= 2
  {
    assert s == s[..i] + [s[i]] + s[i + 1..j] + [s[j]] + s[j + 1..];
  }
}
