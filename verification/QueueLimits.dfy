/**
  The global limit of the offline queue of `pkg/queue/memory.go`. Eviction skips a message that
  is filed under the empty DID, so the limit can be passed: here is exactly when, for one call and
  for whole runs, and what the store does once it is over.
 */
module QueueLimits {
  import opened QueueModel
  import opened QueueRuns

  lemma FullStoreHoldsSomething(cfg: Config, s: State)
    requires Valid(cfg, s) && !s.closed && s.total > 0
    ensures !NothingQueued(s.queues)
  {
    if NothingQueued(s.queues) {
      NothingCounts(s.queues);
    }
  }

  /** Accepting a message into a store at its limit: one message leaves for it, or none does. */
  lemma AcceptedAtCapacity(cfg: Config, s: State, msg: Message, end: State)
    requires Valid(cfg, s) && s.total > 0 && AtCapacity(cfg, s) && Enqueues(cfg, s, msg, end, NoError)
    ensures if end == Append(s, msg) then end.total == s.total + 1 && exists j :: Oldest(s.queues, "", j)
            else end.total == s.total && exists did, i :: did != "" && Oldest(s.queues, did, i)
  {
    FullStoreHoldsSomething(cfg, s);
    var mid :| Evicts(s, mid) && end == Append(mid, msg);
    var did, i :| Oldest(s.queues, did, i) && mid == if did == "" then s else RemoveAt(s, did, i);
  }

  /**
    A store exactly at its limit stays within it, whichever of several oldest messages the
    eviction picks, if and only if no oldest message is filed under the empty DID.
   */
  lemma CapacityKeptIff(cfg: Config, s: State, msg: Message)
    requires Valid(cfg, s) && !s.closed && s.total == cfg.maxTotal > 0 && !Full(cfg, s, msg.recipient)
    ensures (forall end :: Enqueues(cfg, s, msg, end, NoError) ==> WithinCapacity(cfg, end)) <==>
            forall j :: !Oldest(s.queues, "", j)
  {
    forall end | Enqueues(cfg, s, msg, end, NoError) && !WithinCapacity(cfg, end) ensures exists j :: Oldest(s.queues, "", j) {
      AcceptedAtCapacity(cfg, s, msg, end);
    }
    forall j | Oldest(s.queues, "", j)
      ensures Enqueues(cfg, s, msg, Append(s, msg), NoError) && !WithinCapacity(cfg, Append(s, msg))
    {
      FullStoreHoldsSomething(cfg, s);
      assert Evicts(s, s);
    }
  }

  /** An accepted enqueue at the limit for which no message had to leave. */
  ghost predicate SkipsEviction(cfg: Config, s: State, op: Op, end: State) {
    && op.EnqueueOp? && !s.closed && s.total == cfg.maxTotal > 0 && !Full(cfg, s, op.msg.recipient)
    && end == Append(s, op.msg)
  }

  lemma StepKeepsCapacityIff(cfg: Config, s: State, op: Op, end: State)
    requires Valid(cfg, s) && WithinCapacity(cfg, s) && Next(cfg, s, op, end)
    ensures WithinCapacity(cfg, end) <==> !SkipsEviction(cfg, s, op, end)
  {
    match op
    case EnqueueOp(msg) =>
      var err :| Enqueues(cfg, s, msg, end, err);
      if err == NoError && s.total == cfg.maxTotal > 0 {
        AcceptedAtCapacity(cfg, s, msg, end);
      }
    case DequeueOp(did, limit, now) =>
      var msgs, err :| Dequeues(s, did, limit, now, end, msgs, err);
      DequeueKeeps(cfg, s, did, limit, now, end, msgs, err);
    case AckOp(id) =>
      var err :| Acks(s, id, end, err);
      AckKeeps(cfg, s, id, end, err);
    case NackOp(id, reason, now) =>
      var err :| Nacks(cfg, s, id, reason, now, end, err);
      NackKeeps(cfg, s, id, reason, now, end, err);
    case CleanupOp(now) =>
      var removed, err :| Cleans(s, now, end, removed, err);
      CleanKeeps(cfg, s, now, end, removed, err);
    case CloseOp =>
  }

  ghost predicate WithinUpTo(cfg: Config, states: seq<State>, n: nat)
    requires n < |states|
  {
    forall k :: 0 <= k <= n ==> WithinCapacity(cfg, states[k])
  }

  ghost predicate NoneSkipped(cfg: Config, states: seq<State>, ops: seq<Op>, n: nat)
    requires n < |states| && n <= |ops|
  {
    forall i :: 0 <= i < n ==> !SkipsEviction(cfg, states[i], ops[i], states[i + 1])
  }

  lemma OneMoreState(cfg: Config, states: seq<State>, ops: seq<Op>, n: nat)
    requires n + 1 < |states| && n < |ops|
    ensures WithinUpTo(cfg, states, n + 1) <==> WithinUpTo(cfg, states, n) && WithinCapacity(cfg, states[n + 1])
    ensures WithinUpTo(cfg, states, n) ==> WithinCapacity(cfg, states[n])
    ensures NoneSkipped(cfg, states, ops, n + 1) <==>
            NoneSkipped(cfg, states, ops, n) && !SkipsEviction(cfg, states[n], ops[n], states[n + 1])
  {
  }

  /** A run is within the limit up to a point if and only if no enqueue before that point skipped its eviction. */
  lemma {:induction false} RunWithinCapacityIff(cfg: Config, states: seq<State>, ops: seq<Op>, n: nat)
    requires IsRun(cfg, states, ops) && n <= |ops|
    ensures WithinUpTo(cfg, states, n) <==> NoneSkipped(cfg, states, ops, n)
  {
    if n > 0 {
      var m := n - 1;
      RunWithinCapacityIff(cfg, states, ops, m);
      EveryRunKeepsValid(cfg, states, ops, m);
      assert Next(cfg, states[m], ops[m], states[m + 1]);
      OneMoreState(cfg, states, ops, m);
      if WithinUpTo(cfg, states, m) {
        StepKeepsCapacityIff(cfg, states[m], ops[m], states[m + 1]);
      }
    }
  }

  /** An enqueue at the limit that will be accepted while an oldest message is filed under the empty DID. */
  ghost predicate MeetsEmptyDid(cfg: Config, s: State, op: Op) {
    && op.EnqueueOp? && !s.closed && s.total == cfg.maxTotal > 0 && !Full(cfg, s, op.msg.recipient)
    && exists j :: Oldest(s.queues, "", j)
  }

  ghost predicate Queued(queues: Queues, d: string, i: nat) {
    d in queues && i < |queues[d]|
  }

  /** No two messages of the store were queued at the same instant. */
  ghost predicate AllTimesDistinct(queues: Queues) {
    forall d, i: nat, e, j: nat :: Queued(queues, d, i) && Queued(queues, e, j) ==>
      queues[d][i].queuedAt == queues[e][j].queuedAt ==> d == e && i == j
  }

  lemma OneOldest(queues: Queues, d: string, i: nat, e: string, j: nat)
    requires AllTimesDistinct(queues) && Oldest(queues, d, i) && Oldest(queues, e, j)
    ensures d == e && i == j
  {
    assert Queued(queues, d, i) && Queued(queues, e, j);
  }

  /** Whether an eviction is skipped can be told before the call, unless several messages are the oldest. */
  lemma SkipsIff(cfg: Config, s: State, op: Op, end: State)
    requires Valid(cfg, s) && Next(cfg, s, op, end)
    ensures SkipsEviction(cfg, s, op, end) ==> MeetsEmptyDid(cfg, s, op)
    ensures AllTimesDistinct(s.queues) && MeetsEmptyDid(cfg, s, op) ==> SkipsEviction(cfg, s, op, end)
  {
    if op.EnqueueOp? && !s.closed && s.total == cfg.maxTotal > 0 && !Full(cfg, s, op.msg.recipient) {
      var err :| Enqueues(cfg, s, op.msg, end, err);
      AcceptedAtCapacity(cfg, s, op.msg, end);
      if AllTimesDistinct(s.queues) && MeetsEmptyDid(cfg, s, op) && end != Append(s, op.msg) {
        var j :| Oldest(s.queues, "", j);
        var did, i :| did != "" && Oldest(s.queues, did, i);
        OneOldest(s.queues, "", j, did, i);
      }
    }
  }

  lemma StepOfRunSkipsIff(cfg: Config, states: seq<State>, ops: seq<Op>, i: nat)
    requires IsRun(cfg, states, ops) && i < |ops|
    ensures SkipsEviction(cfg, states[i], ops[i], states[i + 1]) ==> MeetsEmptyDid(cfg, states[i], ops[i])
    ensures AllTimesDistinct(states[i].queues) && MeetsEmptyDid(cfg, states[i], ops[i]) ==>
              SkipsEviction(cfg, states[i], ops[i], states[i + 1])
  {
    EveryRunKeepsValid(cfg, states, ops, i);
    assert Next(cfg, states[i], ops[i], states[i + 1]);
    SkipsIff(cfg, states[i], ops[i], states[i + 1]);
  }

  ghost predicate NoneMet(cfg: Config, states: seq<State>, ops: seq<Op>, n: nat)
    requires n < |states| && n <= |ops|
  {
    forall i :: 0 <= i < n ==> !MeetsEmptyDid(cfg, states[i], ops[i])
  }

  /**
    In terms of the states before the calls: a run is within the limit up to a point if no message
    was accepted at the limit while an oldest one was under the empty DID; and only then, if no two
    messages ever had the same time.
   */
  lemma RunWithinIfNoneMet(cfg: Config, states: seq<State>, ops: seq<Op>, n: nat)
    requires IsRun(cfg, states, ops) && n <= |ops|
    ensures NoneMet(cfg, states, ops, n) ==> WithinUpTo(cfg, states, n)
    ensures (forall i :: 0 <= i < n ==> AllTimesDistinct(states[i].queues)) && WithinUpTo(cfg, states, n) ==>
            NoneMet(cfg, states, ops, n)
  {
    RunWithinCapacityIff(cfg, states, ops, n);
    if NoneMet(cfg, states, ops, n) {
      forall i | 0 <= i < n ensures !SkipsEviction(cfg, states[i], ops[i], states[i + 1]) {
        StepOfRunSkipsIff(cfg, states, ops, i);
      }
    }
    if (forall i :: 0 <= i < n ==> AllTimesDistinct(states[i].queues)) && NoneSkipped(cfg, states, ops, n) {
      forall i | 0 <= i < n ensures !MeetsEmptyDid(cfg, states[i], ops[i]) {
        StepOfRunSkipsIff(cfg, states, ops, i);
      }
    }
  }

  /** A store over its limit never comes back by enqueueing: each message evicts at most one. */
  lemma OverfullStays(cfg: Config, s: State, msg: Message, end: State, err: Error)
    requires Valid(cfg, s) && 0 < cfg.maxTotal < s.total && Enqueues(cfg, s, msg, end, err)
    ensures end.total >= s.total && (!s.closed ==> !WithinCapacity(cfg, end))
  {
    if err == NoError {
      AcceptedAtCapacity(cfg, s, msg, end);
    }
  }

  lemma AcceptedWithoutEviction(cfg: Config, s: State, msg: Message, j: nat)
    requires !s.closed && AtCapacity(cfg, s) && !Full(cfg, s, msg.recipient) && Oldest(s.queues, "", j)
    ensures Enqueues(cfg, s, msg, Append(s, msg), NoError)
  {
    assert Evicts(s, s);
  }

  lemma AcceptedWithEviction(cfg: Config, s: State, msg: Message, did: string, i: nat)
    requires !s.closed && AtCapacity(cfg, s) && !Full(cfg, s, msg.recipient) && did != "" && Oldest(s.queues, did, i)
    ensures Enqueues(cfg, s, msg, Append(RemoveAt(s, did, i), msg), NoError)
  {
    assert Evicts(s, RemoveAt(s, did, i));
  }

  // ----- A store that stays over its limit -----

  lemma {:induction false} NoneExpired(q: seq<Message>, now: int)
    requires forall i :: 0 <= i < |q| ==> !q[i].Expired(now)
    ensures Unexpired(q, now) == q
  {
    if q != [] {
      NoneExpired(q[..|q| - 1], now);
    }
  }

  lemma SweepsOneQueue(queues: Queues, did: string, now: int)
    requires did in queues && Unexpired(queues[did], now) == []
    requires forall d :: d in queues && d != did ==> Unexpired(queues[d], now) == queues[d] != []
    ensures Swept(queues, now) == queues - {did}
  {
  }

  /** A cleanup that finds only the messages of one recipient expired. */
  lemma CleansOneQueue(cfg: Config, s: State, did: string, now: int, end: State)
    requires Valid(cfg, s) && !s.closed && did in s.queues && Unexpired(s.queues[did], now) == []
    requires forall d :: d in s.queues && d != did ==> Unexpired(s.queues[d], now) == s.queues[d] != []
    requires end == s.(queues := s.queues - {did}, total := s.total - |s.queues[did]|)
    ensures Next(cfg, s, CleanupOp(now), end)
  {
    SweepsOneQueue(s.queues, did, now);
    PutCount(s.queues, did, []);
    assert Cleans(s, now, end, |s.queues[did]|, NoError);
  }

  lemma RunOn(cfg: Config, states: seq<State>, ops: seq<Op>, op: Op, end: State)
    requires IsRun(cfg, states, ops) && Next(cfg, states[|ops|], op, end)
    ensures IsRun(cfg, states + [end], ops + [op])
  {
  }

  /** One message to the empty DID that expires at 10, and later ones to `x` that do not. */
  predicate Cast(a: Message, b: Message, c: Message, d: Message, x: string) {
    && x != "" && a.recipient == "" && b.recipient == c.recipient == d.recipient == x
    && a.queuedAt < b.queuedAt < c.queuedAt < d.queuedAt
    && a.expiresAt == 10 && b.expiresAt == c.expiresAt == d.expiresAt == 100
  }

  /** Room for one message, and no other limit. */
  const ONE := Config(0, 1, 0, false)

  function Holding(queues: Queues, total: int): State { State(queues, map[], total, false) }

  lemma SecondAccepted(a: Message, b: Message, c: Message, d: Message, x: string)
    requires Cast(a, b, c, d, x)
    ensures Enqueues(ONE, Holding(map["" := [a]], 1), b, Holding(map["" := [a], x := [b]], 2), NoError)
  {
    var s, end := Holding(map["" := [a]], 1), Holding(map["" := [a], x := [b]], 2);
    assert [] + [b] == [b];
    assert end == Append(s, b);
    assert Oldest(s.queues, "", 0);
    AcceptedWithoutEviction(ONE, s, b, 0);
  }

  lemma ThirdAccepted(a: Message, b: Message, c: Message, d: Message, x: string)
    requires Cast(a, b, c, d, x)
    ensures Enqueues(ONE, Holding(map["" := [a], x := [b]], 2), c, Holding(map["" := [a], x := [b, c]], 3), NoError)
  {
    var s, end := Holding(map["" := [a], x := [b]], 2), Holding(map["" := [a], x := [b, c]], 3);
    assert [b] + [c] == [b, c];
    assert end == Append(s, c);
    assert Oldest(s.queues, "", 0);
    AcceptedWithoutEviction(ONE, s, c, 0);
  }

  lemma ThreeAccepted(a: Message, b: Message, c: Message, d: Message, x: string) returns (states: seq<State>, ops: seq<Op>)
    requires Cast(a, b, c, d, x)
    ensures IsRun(ONE, states, ops) && |ops| == 3 && states[3] == Holding(map["" := [a], x := [b, c]], 3)
  {
    var s1, s2 := Holding(map["" := [a]], 1), Holding(map["" := [a], x := [b]], 2);
    assert [] + [a] == [a] && Append(Empty, a) == s1;
    assert Enqueues(ONE, Empty, a, s1, NoError);
    SecondAccepted(a, b, c, d, x);
    ThirdAccepted(a, b, c, d, x);
    states, ops := [Empty], [];
    RunOn(ONE, states, ops, EnqueueOp(a), s1);
    states, ops := states + [s1], ops + [EnqueueOp(a)];
    RunOn(ONE, states, ops, EnqueueOp(b), s2);
    states, ops := states + [s2], ops + [EnqueueOp(b)];
    RunOn(ONE, states, ops, EnqueueOp(c), Holding(map["" := [a], x := [b, c]], 3));
    states, ops := states + [Holding(map["" := [a], x := [b, c]], 3)], ops + [EnqueueOp(c)];
  }

  lemma CleanupStep(s: State, end: State, a: Message, b: Message, c: Message, d: Message, x: string)
    requires Cast(a, b, c, d, x) && Valid(ONE, s)
    requires s == Holding(map["" := [a], x := [b, c]], 3) && end == Holding(map[x := [b, c]], 2)
    ensures Next(ONE, s, CleanupOp(11), end)
  {
    OnlyFirstExpired(s.queues, a, b, c, d, x);
    CleansOneQueue(ONE, s, "", 11, end);
  }

  lemma OnlyFirstExpired(queues: Queues, a: Message, b: Message, c: Message, d: Message, x: string)
    requires Cast(a, b, c, d, x) && queues == map["" := [a], x := [b, c]]
    ensures Unexpired(queues[""], 11) == []
    ensures forall y :: y in queues && y != "" ==> Unexpired(queues[y], 11) == queues[y] != []
    ensures queues - {""} == map[x := [b, c]]
  {
    assert Unexpired([a], 11) == [];
    NoneExpired([b, c], 11);
  }

  lemma FirstCleanedUp(a: Message, b: Message, c: Message, d: Message, x: string) returns (states: seq<State>, ops: seq<Op>)
    requires Cast(a, b, c, d, x)
    ensures IsRun(ONE, states, ops) && |ops| == 4 && states[4] == Holding(map[x := [b, c]], 2)
  {
    states, ops := ThreeAccepted(a, b, c, d, x);
    var s4 := Holding(map[x := [b, c]], 2);
    EveryRunKeepsValid(ONE, states, ops, 3);
    CleanupStep(states[3], s4, a, b, c, d, x);
    RunOn(ONE, states, ops, CleanupOp(11), s4);
    states, ops := states + [s4], ops + [CleanupOp(11)];
  }

  lemma LastAccepted(a: Message, b: Message, c: Message, d: Message, x: string)
    requires Cast(a, b, c, d, x)
    ensures Enqueues(ONE, Holding(map[x := [b, c]], 2), d, Holding(map[x := [c, d]], 2), NoError)
  {
    var s, end := Holding(map[x := [b, c]], 2), Holding(map[x := [c, d]], 2);
    assert Without([b, c], 0) == [c] && [c] + [d] == [c, d];
    assert end == Append(RemoveAt(s, x, 0), d);
    assert Oldest(s.queues, x, 0);
    AcceptedWithEviction(ONE, s, d, x, 0);
  }

  /**
    The empty DID leaves a mark: a store that it took over the limit is still over it when nothing
    is filed under the empty DID any more, though the last enqueue evicted a message.
   */
  lemma OverfullWithoutEmptyDid(a: Message, b: Message, c: Message, d: Message, x: string) returns (states: seq<State>, ops: seq<Op>)
    requires Cast(a, b, c, d, x)
    ensures IsRun(ONE, states, ops) && |ops| == 5
    ensures states[4] == Holding(map[x := [b, c]], 2) && ops[4] == EnqueueOp(d)
    ensures states[5] == Holding(map[x := [c, d]], 2) && !WithinCapacity(ONE, states[5])
  {
    states, ops := FirstCleanedUp(a, b, c, d, x);
    var s5 := Holding(map[x := [c, d]], 2);
    LastAccepted(a, b, c, d, x);
    RunOn(ONE, states, ops, EnqueueOp(d), s5);
    states, ops := states + [s5], ops + [EnqueueOp(d)];
  }
}
