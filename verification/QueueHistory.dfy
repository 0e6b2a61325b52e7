/**
  What a message in the offline queue is, told from the calls of a run alone: what was enqueued
  under its id, with one attempt counted for every `Nack` since. Ids are those of one `Enqueue`
  each, as the UUIDs that the relay makes are.
 */
module QueueHistory {
  import opened Basics
  import opened QueueModel
  import opened QueueRuns

  /** The message with this id as it must be by now, wherever it is. */
  function Tracked(ops: seq<Op>, id: string): Option<Message> {
    if ops == [] then None
    else
      var n := |ops| - 1;
      var op, was := ops[n], Tracked(ops[..n], id);
      if op.EnqueueOp? && op.msg.id == id then Some(op.msg)
      else if op.NackOp? && op.id == id && was.Some? then
        Some(was.value.(attempts := was.value.attempts + 1, lastAttempt := Some(op.now)))
      else was
  }

  ghost predicate DistinctIds(ops: seq<Op>) {
    forall i, j :: 0 <= i < j < |ops| && ops[i].EnqueueOp? && ops[j].EnqueueOp? ==> ops[i].msg.id != ops[j].msg.id
  }

  lemma {:induction false} TrackedWasEnqueued(ops: seq<Op>, id: string)
    requires Tracked(ops, id).Some?
    ensures exists i :: 0 <= i < |ops| && ops[i].EnqueueOp? && ops[i].msg.id == id
  {
    var n := |ops| - 1;
    if !(ops[n].EnqueueOp? && ops[n].msg.id == id) {
      TrackedWasEnqueued(ops[..n], id);
      var i :| 0 <= i < n && ops[..n][i].EnqueueOp? && ops[..n][i].msg.id == id;
      assert ops[i].EnqueueOp? && ops[i].msg.id == id;
    }
  }

  lemma NewIsUntracked(ops: seq<Op>, n: nat)
    requires DistinctIds(ops) && n < |ops|
    ensures ops[n].EnqueueOp? ==> Tracked(ops[..n], ops[n].msg.id) == None
  {
    if ops[n].EnqueueOp? && Tracked(ops[..n], ops[n].msg.id).Some? {
      TrackedWasEnqueued(ops[..n], ops[n].msg.id);
    }
  }

  // ----- The queues fit the calls -----

  ghost predicate Known(queues: Queues, ops: seq<Op>) {
    forall d, m :: m in QueueOf(queues, d) ==> Tracked(ops, m.id) == Some(m)
  }

  /** No id is queued twice. */
  ghost predicate Once(queues: Queues) {
    && (forall d, m :: multiset(QueueOf(queues, d))[m] <= 1)
    && (forall d, e, m, n :: m in QueueOf(queues, d) && n in QueueOf(queues, e) && m.id == n.id ==> d == e && m == n)
  }

  /** Every queue has lost messages, at most. */
  ghost predicate Shrinks(queues: Queues, queues': Queues) {
    forall d :: multiset(QueueOf(queues', d)) <= multiset(QueueOf(queues, d))
  }

  lemma ShrinksMembers(queues: Queues, queues': Queues, d: string, m: Message)
    requires Shrinks(queues, queues') && m in QueueOf(queues', d)
    ensures m in QueueOf(queues, d)
  {
    assert m in multiset(QueueOf(queues', d));
    assert m in multiset(QueueOf(queues, d));
  }

  lemma ShrinksOnce(queues: Queues, queues': Queues)
    requires Shrinks(queues, queues') && Once(queues)
    ensures Once(queues')
  {
    forall d, m ensures multiset(QueueOf(queues', d))[m] <= 1 {
      assert multiset(QueueOf(queues', d)) <= multiset(QueueOf(queues, d));
    }
    forall d, e, m, n | m in QueueOf(queues', d) && n in QueueOf(queues', e) && m.id == n.id ensures d == e && m == n {
      ShrinksMembers(queues, queues', d, m);
      ShrinksMembers(queues, queues', e, n);
    }
  }

  lemma ShrinksKnown(queues: Queues, queues': Queues, ops: seq<Op>)
    requires Shrinks(queues, queues') && Known(queues, ops)
    ensures Known(queues', ops)
  {
    forall d, m | m in QueueOf(queues', d) ensures Tracked(ops, m.id) == Some(m) {
      ShrinksMembers(queues, queues', d, m);
    }
  }

  lemma WithoutShrinks(q: seq<Message>, i: nat)
    requires i < |q|
    ensures multiset(q) == multiset(Without(q, i)) + multiset{q[i]}
  {
    assert q == q[..i] + [q[i]] + q[i + 1..];
  }

  lemma RemovalShrinks(s: State, did: string, i: nat)
    requires did in s.queues && i < |s.queues[did]|
    ensures Shrinks(s.queues, RemoveAt(s, did, i).queues)
  {
    WithoutShrinks(s.queues[did], i);
  }

  lemma EvictionShrinks(s: State, end: State)
    requires Evicts(s, end)
    ensures Shrinks(s.queues, end.queues)
  {
    if end != s {
      var did, i: nat :| Oldest(s.queues, did, i) && end == if did == "" then s else RemoveAt(s, did, i);
      RemovalShrinks(s, did, i);
    }
  }

  lemma SweepShrinks(queues: Queues, now: int)
    ensures Shrinks(queues, Swept(queues, now))
  {
    forall d ensures multiset(QueueOf(Swept(queues, now), d)) <= multiset(QueueOf(queues, d)) {
      var q := QueueOf(queues, d);
      assert QueueOf(Swept(queues, now), d) == Unexpired(q, now);
      forall m ensures multiset(Unexpired(q, now))[m] <= multiset(q)[m] {
        UnexpiredCounts(q, now, m);
      }
    }
  }

  // ----- One call -----

  ghost predicate Fits(s: State, ops: seq<Op>) {
    Known(s.queues, ops) && Once(s.queues) && LettersFit(s.dlq, ops) && (s.closed ==> s.queues == map[])
  }

  /** A dead letter is the message as it was after the `Nack` that made it one. */
  ghost predicate LetterFits(dl: DeadLetter, ops: seq<Op>, n: nat) {
    && n < |ops| && ops[n] == NackOp(dl.msg.id, dl.reason, dl.movedAt)
    && Tracked(ops[..n + 1], dl.msg.id) == Some(dl.msg)
  }

  ghost predicate LettersFit(dlq: map<string, seq<DeadLetter>>, ops: seq<Op>) {
    forall d, k :: d in dlq && 0 <= k < |dlq[d]| ==> MadeByNack(dlq[d][k], ops)
  }

  ghost predicate MadeByNack(dl: DeadLetter, ops: seq<Op>) {
    exists n: nat :: LetterFits(dl, ops, n)
  }

  lemma TrackedNext(ops: seq<Op>, op: Op, id: string)
    ensures var was := Tracked(ops, id);
            Tracked(ops + [op], id) ==
            if op.EnqueueOp? && op.msg.id == id then Some(op.msg)
            else if op.NackOp? && op.id == id && was.Some? then
              Some(was.value.(attempts := was.value.attempts + 1, lastAttempt := Some(op.now)))
            else was
  {
    assert (ops + [op])[..|ops|] == ops;
  }

  lemma LetterStays(dl: DeadLetter, ops: seq<Op>, op: Op, n: nat)
    requires LetterFits(dl, ops, n)
    ensures LetterFits(dl, ops + [op], n)
  {
    assert (ops + [op])[..n + 1] == ops[..n + 1];
  }

  lemma LettersStay(dlq: map<string, seq<DeadLetter>>, ops: seq<Op>, op: Op)
    requires LettersFit(dlq, ops)
    ensures LettersFit(dlq, ops + [op])
  {
    forall d, k | d in dlq && 0 <= k < |dlq[d]| ensures MadeByNack(dlq[d][k], ops + [op]) {
      assert MadeByNack(dlq[d][k], ops);
      var n: nat :| LetterFits(dlq[d][k], ops, n);
      LetterStays(dlq[d][k], ops, op, n);
    }
  }

  /** Messages only leave, and no call changes what is left. */
  lemma QuietStepFits(s: State, end: State, ops: seq<Op>, op: Op)
    requires Fits(s, ops) && Shrinks(s.queues, end.queues) && end.dlq == s.dlq && !op.EnqueueOp? && !op.NackOp?
    requires end.closed ==> end.queues == map[]
    ensures Fits(end, ops + [op])
  {
    ShrinksOnce(s.queues, end.queues);
    ShrinksKnown(s.queues, end.queues, ops);
    forall d, m | m in QueueOf(end.queues, d) ensures Tracked(ops + [op], m.id) == Some(m) {
      TrackedNext(ops, op, m.id);
    }
    LettersStay(s.dlq, ops, op);
  }

  /** `queues'` is `queues` and one more message. */
  ghost predicate OneAdded(queues: Queues, queues': Queues, did: string, m: Message) {
    forall d :: multiset(QueueOf(queues', d)) == multiset(QueueOf(queues, d)) + if d == did then multiset{m} else multiset{}
  }

  ghost predicate NoneNamed(queues: Queues, id: string) {
    forall d, m :: m in QueueOf(queues, d) ==> m.id != id
  }

  lemma AddedMembers(queues: Queues, queues': Queues, did: string, m: Message, d: string, x: Message)
    requires OneAdded(queues, queues', did, m) && x in QueueOf(queues', d)
    ensures x in QueueOf(queues, d) || (d == did && x == m)
  {
    assert x in multiset(QueueOf(queues', d));
  }

  lemma AddedKnown(queues: Queues, queues': Queues, did: string, m: Message, ops: seq<Op>)
    requires Known(queues, ops) && OneAdded(queues, queues', did, m) && Tracked(ops, m.id) == Some(m)
    ensures Known(queues', ops)
  {
    forall d, x | x in QueueOf(queues', d) ensures Tracked(ops, x.id) == Some(x) {
      AddedMembers(queues, queues', did, m, d, x);
    }
  }

  lemma AddedCounts(queues: Queues, queues': Queues, did: string, m: Message, d: string, x: Message)
    requires Once(queues) && OneAdded(queues, queues', did, m) && NoneNamed(queues, m.id)
    ensures multiset(QueueOf(queues', d))[x] <= 1
  {
    assert m !in QueueOf(queues, d);
    assert m !in multiset(QueueOf(queues, d));
    assert multiset(QueueOf(queues, d))[x] <= 1;
  }

  lemma AddedOnce(queues: Queues, queues': Queues, did: string, m: Message)
    requires Once(queues) && OneAdded(queues, queues', did, m) && NoneNamed(queues, m.id)
    ensures Once(queues')
  {
    forall d, x ensures multiset(QueueOf(queues', d))[x] <= 1 {
      AddedCounts(queues, queues', did, m, d, x);
    }
    forall d, e, x, y | x in QueueOf(queues', d) && y in QueueOf(queues', e) && x.id == y.id ensures d == e && x == y {
      AddedMembers(queues, queues', did, m, d, x);
      AddedMembers(queues, queues', did, m, e, y);
    }
  }

  lemma OthersKnown(queues: Queues, ops: seq<Op>, op: Op, id: string)
    requires Known(queues, ops) && NoneNamed(queues, id)
    requires (op.EnqueueOp? && op.msg.id == id) || (op.NackOp? && op.id == id)
    ensures Known(queues, ops + [op])
  {
    forall d, x | x in QueueOf(queues, d) ensures Tracked(ops + [op], x.id) == Some(x) {
      TrackedNext(ops, op, x.id);
    }
  }

  lemma UntrackedIsAbsent(queues: Queues, ops: seq<Op>, id: string)
    requires Known(queues, ops) && Tracked(ops, id) == None
    ensures NoneNamed(queues, id)
  {
  }

  lemma EnqueueFits(cfg: Config, s: State, m: Message, end: State, err: Error, ops: seq<Op>)
    requires Fits(s, ops) && Enqueues(cfg, s, m, end, err) && Tracked(ops, m.id) == None
    ensures Fits(end, ops + [EnqueueOp(m)])
  {
    LettersStay(s.dlq, ops, EnqueueOp(m));
    if err == NoError {
      var mid :| (if AtCapacity(cfg, s) then Evicts(s, mid) else mid == s) && end == Append(mid, m);
      if AtCapacity(cfg, s) {
        EvictionShrinks(s, mid);
        ShrinksOnce(s.queues, mid.queues);
        ShrinksKnown(s.queues, mid.queues, ops);
      }
      AppendFits(mid, m, ops);
    } else {
      UntrackedIsAbsent(s.queues, ops, m.id);
      OthersKnown(s.queues, ops, EnqueueOp(m), m.id);
    }
  }

  lemma AppendAdds(s: State, m: Message)
    ensures OneAdded(s.queues, Append(s, m).queues, m.recipient, m)
  {
  }

  lemma AppendFits(s: State, m: Message, ops: seq<Op>)
    requires Known(s.queues, ops) && Once(s.queues) && Tracked(ops, m.id) == None
    ensures Known(Append(s, m).queues, ops + [EnqueueOp(m)]) && Once(Append(s, m).queues)
  {
    AppendAdds(s, m);
    UntrackedIsAbsent(s.queues, ops, m.id);
    OthersKnown(s.queues, ops, EnqueueOp(m), m.id);
    TrackedNext(ops, EnqueueOp(m), m.id);
    AddedKnown(s.queues, Append(s, m).queues, m.recipient, m, ops + [EnqueueOp(m)]);
    AddedOnce(s.queues, Append(s, m).queues, m.recipient, m);
  }

  /** With the message gone, its id is not queued any more. */
  lemma RemovalUnnames(s: State, did: string, i: nat)
    requires Once(s.queues) && did in s.queues && i < |s.queues[did]|
    ensures NoneNamed(RemoveAt(s, did, i).queues, s.queues[did][i].id)
  {
    var m, queues' := s.queues[did][i], RemoveAt(s, did, i).queues;
    RemovalShrinks(s, did, i);
    WithoutShrinks(s.queues[did], i);
    assert QueueOf(queues', did) == Without(s.queues[did], i);
    assert m in QueueOf(s.queues, did) && multiset(QueueOf(s.queues, did))[m] <= 1;
    forall d, x | x in QueueOf(queues', d) ensures x.id != m.id {
      ShrinksMembers(s.queues, queues', d, x);
      assert x in multiset(QueueOf(queues', d));
      assert d == did ==> m !in multiset(QueueOf(queues', d));
    }
  }

  lemma RetryAdds(s: State, did: string, i: nat, m: Message)
    requires did in s.queues && i < |s.queues[did]|
    ensures OneAdded(RemoveAt(s, did, i).queues, s.queues[did := s.queues[did][i := m]], did, m)
  {
    WithoutShrinks(s.queues[did], i);
    assert QueueOf(RemoveAt(s, did, i).queues, did) == Without(s.queues[did], i);
  }

  lemma NewLetterFits(dlq: map<string, seq<DeadLetter>>, did: string, dl: DeadLetter, ops: seq<Op>)
    requires LettersFit(dlq, ops) && MadeByNack(dl, ops)
    ensures LettersFit(dlq[did := (if did in dlq then dlq[did] else []) + [dl]], ops)
  {
  }

  lemma NackFits(cfg: Config, s: State, id: string, reason: string, now: int, end: State, err: Error, ops: seq<Op>)
    requires Fits(s, ops) && Nacks(cfg, s, id, reason, now, end, err)
    ensures Fits(end, ops + [NackOp(id, reason, now)])
  {
    var op := NackOp(id, reason, now);
    LettersStay(s.dlq, ops, op);
    if err != NoError {
      OthersKnown(s.queues, ops, op, id);
    } else {
      var did, i: nat :| FirstWithId(s.queues, id, did, i) && end == Nacked(cfg, s, did, i, reason, now);
      var m := Attempted(s.queues[did][i], now);
      NackHits(s, did, i, ops, op);
      LetterOf(m, reason, now, ops);
      NewLetterFits(s.dlq, did, DeadLetter(m, reason, now), ops + [op]);
      NackedIs(cfg, s, did, i, reason, now);
    }
  }

  lemma LetterOf(m: Message, reason: string, now: int, ops: seq<Op>)
    requires Tracked(ops + [NackOp(m.id, reason, now)], m.id) == Some(m)
    ensures MadeByNack(DeadLetter(m, reason, now), ops + [NackOp(m.id, reason, now)])
  {
    var full := ops + [NackOp(m.id, reason, now)];
    assert full[..|ops| + 1] == full;
    assert LetterFits(DeadLetter(m, reason, now), full, |ops|);
  }

  lemma NackedIs(cfg: Config, s: State, did: string, i: nat, reason: string, now: int)
    requires did in s.queues && i < |s.queues[did]|
    ensures var end, m := Nacked(cfg, s, did, i, reason, now), Attempted(s.queues[did][i], now);
            && end.closed == s.closed
            && (end.queues == RemoveAt(s, did, i).queues || end.queues == s.queues[did := s.queues[did][i := m]])
            && (end.dlq == s.dlq || end.dlq == s.dlq[did := (if did in s.dlq then s.dlq[did] else []) + [DeadLetter(m, reason, now)]])
  {
  }

  lemma NackHits(s: State, did: string, i: nat, ops: seq<Op>, op: Op)
    requires Known(s.queues, ops) && Once(s.queues) && did in s.queues && i < |s.queues[did]|
    requires op.NackOp? && op.id == s.queues[did][i].id
    ensures var m := Attempted(s.queues[did][i], op.now);
            var retried, gone := s.queues[did := s.queues[did][i := m]], RemoveAt(s, did, i).queues;
            && Tracked(ops + [op], op.id) == Some(m)
            && Known(retried, ops + [op]) && Once(retried) && Known(gone, ops + [op]) && Once(gone)
  {
    var was := s.queues[did][i];
    var m, gone := Attempted(was, op.now), RemoveAt(s, did, i).queues;
    assert was in QueueOf(s.queues, did);
    TrackedNext(ops, op, op.id);
    RemovalShrinks(s, did, i);
    RemovalUnnames(s, did, i);
    ShrinksOnce(s.queues, gone);
    ShrinksKnown(s.queues, gone, ops);
    OthersKnown(gone, ops, op, op.id);
    RetryAdds(s, did, i, m);
    AddedKnown(gone, s.queues[did := s.queues[did][i := m]], did, m, ops + [op]);
    AddedOnce(gone, s.queues[did := s.queues[did][i := m]], did, m);
  }

  lemma DequeueShrinks(s: State, did: string, limit: int, now: int, end: State, msgs: seq<Message>, err: Error)
    requires Dequeues(s, did, limit, now, end, msgs, err)
    ensures Shrinks(s.queues, end.queues) && end.dlq == s.dlq && end.closed == s.closed
  {
    if !s.closed {
      var rest :| Splits(QueueOf(s.queues, did), limit, now, msgs, rest)
                  && end == s.(queues := Put(s.queues, did, rest), total := s.total - |msgs|);
      assert QueueOf(end.queues, did) == rest;
    }
  }

  lemma StepFits(cfg: Config, s: State, op: Op, end: State, ops: seq<Op>)
    requires Fits(s, ops) && Next(cfg, s, op, end) && (op.EnqueueOp? ==> Tracked(ops, op.msg.id) == None)
    ensures Fits(end, ops + [op])
  {
    match op
    case EnqueueOp(m) =>
      var err :| Enqueues(cfg, s, m, end, err);
      EnqueueFits(cfg, s, m, end, err, ops);
    case NackOp(id, reason, now) =>
      var err :| Nacks(cfg, s, id, reason, now, end, err);
      NackFits(cfg, s, id, reason, now, end, err, ops);
    case _ => QuietStep(cfg, s, op, end, ops);
  }

  lemma QuietStep(cfg: Config, s: State, op: Op, end: State, ops: seq<Op>)
    requires Fits(s, ops) && Next(cfg, s, op, end) && !op.EnqueueOp? && !op.NackOp?
    ensures Fits(end, ops + [op])
  {
    match op
    case DequeueOp(did, limit, now) =>
      var msgs, err :| Dequeues(s, did, limit, now, end, msgs, err);
      DequeueShrinks(s, did, limit, now, end, msgs, err);
      QuietStepFits(s, end, ops, op);
    case AckOp(id) =>
      var err :| Acks(s, id, end, err);
      if err == NoError {
        var did, i: nat :| FirstWithId(s.queues, id, did, i) && end == RemoveAt(s, did, i);
        RemovalShrinks(s, did, i);
      }
      QuietStepFits(s, end, ops, op);
    case CleanupOp(now) =>
      SweepShrinks(s.queues, now);
      QuietStepFits(s, end, ops, op);
    case CloseOp =>
  }

  lemma EmptyFits()
    ensures Fits(Empty, [])
  {
  }

  /**
    At every point of every run in which no id is enqueued twice, each queued message is what was
    enqueued under its id with one attempt, and the time of the last, for every `Nack` since; no
    message is queued twice; and each dead letter is its message as the `Nack` that buried it left it.
   */
  lemma {:induction false} MessagesAreHistory(cfg: Config, states: seq<State>, ops: seq<Op>, k: nat)
    requires IsRun(cfg, states, ops) && DistinctIds(ops) && k <= |ops|
    ensures Fits(states[k], ops[..k])
  {
    if k == 0 {
      EmptyFits();
    } else {
      var n := k - 1;
      MessagesAreHistory(cfg, states, ops, n);
      StepOfRun(cfg, states, ops, n);
      NewIsUntracked(ops, n);
      StepFits(cfg, states[n], ops[n], states[k], ops[..n]);
      assert ops[..k] == ops[..n] + [ops[n]];
    }
  }

  // ----- The limit on attempts -----

  /** No message is enqueued with the attempts used up. */
  ghost predicate FreshEnqueues(cfg: Config, ops: seq<Op>) {
    forall i :: 0 <= i < |ops| && ops[i].EnqueueOp? ==> ops[i].msg.attempts < cfg.maxAttempts
  }

  ghost predicate BelowLimit(queues: Queues, max: int) {
    forall d, m :: m in QueueOf(queues, d) ==> m.attempts < max
  }

  predicate UsedUp(dl: DeadLetter, max: int) {
    dl.msg.attempts == max && dl.msg.lastAttempt == Some(dl.movedAt)
  }

  ghost predicate AllUsedUp(dlq: map<string, seq<DeadLetter>>, max: int) {
    forall d, k :: d in dlq && 0 <= k < |dlq[d]| ==> UsedUp(dlq[d][k], max)
  }

  ghost predicate AttemptsFit(cfg: Config, s: State) {
    BelowLimit(s.queues, cfg.maxAttempts) && AllUsedUp(s.dlq, cfg.maxAttempts) && (!cfg.enableDLQ ==> s.dlq == map[])
  }

  lemma ShrinksAttempts(cfg: Config, s: State, end: State)
    requires AttemptsFit(cfg, s) && Shrinks(s.queues, end.queues) && end.dlq == s.dlq
    ensures AttemptsFit(cfg, end)
  {
    ShrinksBelow(s.queues, end.queues, cfg.maxAttempts);
  }

  lemma ShrinksBelow(queues: Queues, queues': Queues, max: int)
    requires BelowLimit(queues, max) && Shrinks(queues, queues')
    ensures BelowLimit(queues', max)
  {
    forall d, m | m in QueueOf(queues', d) ensures m.attempts < max {
      ShrinksMembers(queues, queues', d, m);
    }
  }

  lemma AddedBelow(queues: Queues, queues': Queues, did: string, m: Message, max: int)
    requires BelowLimit(queues, max) && OneAdded(queues, queues', did, m) && m.attempts < max
    ensures BelowLimit(queues', max)
  {
    forall d, x | x in QueueOf(queues', d) ensures x.attempts < max {
      AddedMembers(queues, queues', did, m, d, x);
    }
  }

  lemma BuriedUsedUp(dlq: map<string, seq<DeadLetter>>, did: string, dl: DeadLetter, max: int)
    requires AllUsedUp(dlq, max) && UsedUp(dl, max)
    ensures AllUsedUp(dlq[did := (if did in dlq then dlq[did] else []) + [dl]], max)
  {
  }

  lemma NackAttempts(cfg: Config, s: State, did: string, i: nat, reason: string, now: int)
    requires cfg.maxAttempts > 0 && AttemptsFit(cfg, s) && did in s.queues && i < |s.queues[did]|
    ensures AttemptsFit(cfg, Nacked(cfg, s, did, i, reason, now))
  {
    var was, m := s.queues[did][i], Attempted(s.queues[did][i], now);
    var gone := RemoveAt(s, did, i).queues;
    assert was in QueueOf(s.queues, did);
    RemovalShrinks(s, did, i);
    ShrinksBelow(s.queues, gone, cfg.maxAttempts);
    if m.attempts < cfg.maxAttempts {
      RetryAdds(s, did, i, m);
      AddedBelow(gone, s.queues[did := s.queues[did][i := m]], did, m, cfg.maxAttempts);
    } else {
      BuriedUsedUp(s.dlq, did, DeadLetter(m, reason, now), cfg.maxAttempts);
    }
  }

  lemma EnqueueAttempts(cfg: Config, s: State, m: Message, end: State, err: Error)
    requires AttemptsFit(cfg, s) && m.attempts < cfg.maxAttempts && Enqueues(cfg, s, m, end, err)
    ensures AttemptsFit(cfg, end)
  {
    if err == NoError {
      var mid :| (if AtCapacity(cfg, s) then Evicts(s, mid) else mid == s) && end == Append(mid, m);
      if AtCapacity(cfg, s) {
        EvictionShrinks(s, mid);
        ShrinksAttempts(cfg, s, mid);
      }
      AppendAdds(mid, m);
      AddedBelow(mid.queues, end.queues, m.recipient, m, cfg.maxAttempts);
    }
  }

  lemma StepAttempts(cfg: Config, s: State, op: Op, end: State)
    requires cfg.maxAttempts > 0 && AttemptsFit(cfg, s) && Next(cfg, s, op, end)
    requires op.EnqueueOp? ==> op.msg.attempts < cfg.maxAttempts
    ensures AttemptsFit(cfg, end)
  {
    match op
    case EnqueueOp(m) =>
      var err :| Enqueues(cfg, s, m, end, err);
      EnqueueAttempts(cfg, s, m, end, err);
    case NackOp(id, reason, now) =>
      var err :| Nacks(cfg, s, id, reason, now, end, err);
      if err == NoError {
        var did, i: nat :| FirstWithId(s.queues, id, did, i) && end == Nacked(cfg, s, did, i, reason, now);
        NackAttempts(cfg, s, did, i, reason, now);
      }
    case DequeueOp(did, limit, now) =>
      var msgs, err :| Dequeues(s, did, limit, now, end, msgs, err);
      DequeueShrinks(s, did, limit, now, end, msgs, err);
      ShrinksAttempts(cfg, s, end);
    case AckOp(id) =>
      var err :| Acks(s, id, end, err);
      if err == NoError {
        var did, i: nat :| FirstWithId(s.queues, id, did, i) && end == RemoveAt(s, did, i);
        RemovalShrinks(s, did, i);
        ShrinksAttempts(cfg, s, end);
      }
    case CleanupOp(now) =>
      SweepShrinks(s.queues, now);
      ShrinksAttempts(cfg, s, end);
    case CloseOp =>
  }

  lemma EmptyAttempts(cfg: Config)
    ensures AttemptsFit(cfg, Empty)
  {
  }

  lemma StepOfRun(cfg: Config, states: seq<State>, ops: seq<Op>, n: nat)
    requires IsRun(cfg, states, ops) && n < |ops|
    ensures Next(cfg, states[n], ops[n], states[n + 1])
  {
  }

  /**
    With a limit on attempts, no queued message ever has used it up, and every dead letter has used
    it up exactly, on the attempt that buried it; without dead letters being kept there are none.
   */
  lemma {:induction false} AttemptsWithinLimit(cfg: Config, states: seq<State>, ops: seq<Op>, k: nat)
    requires IsRun(cfg, states, ops) && cfg.maxAttempts > 0 && FreshEnqueues(cfg, ops) && k <= |ops|
    ensures AttemptsFit(cfg, states[k])
  {
    if k == 0 {
      EmptyAttempts(cfg);
    } else {
      AttemptsWithinLimit(cfg, states, ops, k - 1);
      StepOfRun(cfg, states, ops, k - 1);
      StepAttempts(cfg, states[k - 1], ops[k - 1], states[k]);
    }
  }
}
