/**
  What each operation of the offline queue does to the messages in it, message by message and
  position by position, and what becomes of a message over a whole run.
 */
module QueueLaws {
  import opened Basics
  import opened QueueModel
  import opened QueueRuns
  import opened Sums

  // ----- All that is queued -----

  ghost function Copies(queues: Queues, m: Message): map<string, int> {
    map d | d in queues :: multiset(queues[d])[m]
  }

  /** How often a message is queued, in all queues together. */
  ghost function HowMany(queues: Queues, m: Message): int {
    Sum(Copies(queues, m))
  }

  lemma HowManyPut(queues: Queues, did: string, q: seq<Message>, m: Message)
    ensures HowMany(Put(queues, did, q), m) == HowMany(queues, m) - multiset(QueueOf(queues, did))[m] + multiset(q)[m]
  {
    var copies := Copies(queues, m);
    SumUpdate(copies, did, multiset(q)[m]);
    if q == [] {
      SumTakeOut(copies[did := 0], did);
      assert Copies(Put(queues, did, q), m) == copies[did := 0] - {did};
    } else {
      assert Copies(Put(queues, did, q), m) == copies[did := multiset(q)[m]];
    }
  }

  /** The message at place `i` of one queue is gone; everything else is where it was, and no empty queue is left. */
  ghost predicate LostAt(queues: Queues, queues': Queues, did: string, i: nat) {
    && did in queues && OneLess(queues[did], QueueOf(queues', did), i)
    && (did in queues' <==> |queues[did]| > 1)
    && forall d :: d != did ==> (d in queues' <==> d in queues) && QueueOf(queues', d) == QueueOf(queues, d)
  }

  /** One copy of one message is gone. */
  ghost predicate LostOne(queues: Queues, queues': Queues, m: Message) {
    forall x :: HowMany(queues, x) == HowMany(queues', x) + if x == m then 1 else 0
  }

  lemma RemovalLosesOne(s: State, did: string, i: nat)
    requires did in s.queues && i < |s.queues[did]|
    ensures var end := RemoveAt(s, did, i);
            && LostAt(s.queues, end.queues, did, i) && LostOne(s.queues, end.queues, s.queues[did][i])
            && end == s.(queues := end.queues, total := s.total - 1)
  {
    var q, q' := s.queues[did], Without(s.queues[did], i);
    assert OneLess(q, q', i);
    forall x ensures HowMany(s.queues, x) == HowMany(Put(s.queues, did, q'), x) + if x == q[i] then 1 else 0 {
      HowManyPut(s.queues, did, q', x);
      OneLessCounts(q, q', i, x);
    }
  }

  // ----- Eviction -----

  ghost predicate NoLaterThanAny(queues: Queues, m: Message) {
    forall d, j :: d in queues && 0 <= j < |queues[d]| ==> m.queuedAt <= queues[d][j].queuedAt
  }

  /** One message, no later than any other, leaves its queue, and nothing else changes. */
  ghost predicate LosesOldest(s: State, end: State, did: string, i: nat) {
    && did != "" && LostAt(s.queues, end.queues, did, i)
    && NoLaterThanAny(s.queues, s.queues[did][i]) && LostOne(s.queues, end.queues, s.queues[did][i])
    && end == s.(queues := end.queues, total := s.total - 1)
  }

  /** A message no later than any other is filed under the empty DID. */
  ghost predicate OldestUnnamed(queues: Queues) {
    exists j :: 0 <= j < |QueueOf(queues, "")| && NoLaterThanAny(queues, QueueOf(queues, "")[j])
  }

  lemma EvictionTakesOldest(s: State, end: State)
    requires Evicts(s, end)
    ensures if end == s then NothingQueued(s.queues) || OldestUnnamed(s.queues)
            else exists did, i: nat :: LosesOldest(s, end, did, i)
  {
    if !NothingQueued(s.queues) {
      var did, i: nat :| Oldest(s.queues, did, i) && end == if did == "" then s else RemoveAt(s, did, i);
      if did == "" {
        assert NoLaterThanAny(s.queues, QueueOf(s.queues, "")[i]);
      } else {
        RemovalLosesOne(s, did, i);
        assert LosesOldest(s, end, did, i);
      }
    }
  }

  // ----- Enqueue -----

  /** The message is the last of its recipient's queue, and nothing else changes. */
  ghost predicate Gains(s: State, end: State, m: Message) {
    && QueueOf(end.queues, m.recipient) == QueueOf(s.queues, m.recipient) + [m]
    && end.queues.Keys == s.queues.Keys + {m.recipient}
    && (forall d :: d != m.recipient ==> QueueOf(end.queues, d) == QueueOf(s.queues, d))
    && end == s.(queues := end.queues, total := s.total + 1)
  }

  /** When a message is turned away, and what an accepted one displaces. */
  lemma EnqueueLaw(cfg: Config, s: State, m: Message, end: State, err: Error)
    requires Enqueues(cfg, s, m, end, err)
    ensures err == ErrQueueClosed <==> s.closed
    ensures err == ErrQueueFull <==> !s.closed && 0 < cfg.maxQueueSize <= |QueueOf(s.queues, m.recipient)|
    ensures err != NoError ==> end == s
    ensures err == NoError ==>
              if 0 < cfg.maxTotal <= s.total then exists mid :: Evicts(s, mid) && Gains(mid, end, m) else Gains(s, end, m)
  {
    if err == NoError {
      var mid :| (if AtCapacity(cfg, s) then Evicts(s, mid) else mid == s) && end == Append(mid, m);
      assert Gains(mid, end, m);
    }
  }

  // ----- Ack and Nack -----

  ghost predicate Has(queues: Queues, id: string) {
    exists d, j :: d in queues && 0 <= j < |queues[d]| && queues[d][j].id == id
  }

  ghost predicate IsFirst(queues: Queues, id: string, did: string, i: nat) {
    && did in queues && i < |queues[did]| && queues[did][i].id == id
    && forall j :: 0 <= j < i ==> queues[did][j].id != id
  }

  ghost predicate AckLoses(s: State, id: string, end: State, did: string, i: nat) {
    && IsFirst(s.queues, id, did, i) && LostAt(s.queues, end.queues, did, i)
    && LostOne(s.queues, end.queues, s.queues[did][i])
    && end == s.(queues := end.queues, total := s.total - 1)
  }

  /** The one message that goes has the id, and was the first with it in its queue. */
  lemma AckLaw(s: State, id: string, end: State, err: Error)
    requires Acks(s, id, end, err)
    ensures err == ErrQueueClosed <==> s.closed
    ensures err == ErrNotFound <==> !s.closed && !Has(s.queues, id)
    ensures if err != NoError then end == s else exists did, i: nat :: AckLoses(s, id, end, did, i)
  {
    if err == NoError {
      var did, i: nat :| FirstWithId(s.queues, id, did, i) && end == RemoveAt(s, did, i);
      RemovalLosesOne(s, did, i);
      assert AckLoses(s, id, end, did, i);
    }
  }

  /** The message after one more attempt; nothing else of it changes. */
  ghost predicate OneAttemptMore(m: Message, m': Message, now: int) {
    && m'.attempts == m.attempts + 1 && m'.lastAttempt == Some(now)
    && m'.id == m.id && m'.recipient == m.recipient && m'.data == m.data && m'.sender == m.sender
    && m'.queuedAt == m.queuedAt && m'.expiresAt == m.expiresAt
  }

  /** In its place, with one more attempt counted. */
  ghost predicate RetriedAt(s: State, end: State, did: string, i: nat, now: int) {
    && did in s.queues && i < |s.queues[did]| && end.queues.Keys == s.queues.Keys
    && |end.queues[did]| == |s.queues[did]| && OneAttemptMore(s.queues[did][i], end.queues[did][i], now)
    && (forall j :: 0 <= j < |s.queues[did]| && j != i ==> end.queues[did][j] == s.queues[did][j])
    && (forall d :: d in s.queues && d != did ==> end.queues[d] == s.queues[d])
    && end == s.(queues := end.queues)
  }

  /** Out of its queue, and the last dead letter of its recipient if those are kept. */
  ghost predicate BuriedAt(cfg: Config, s: State, end: State, did: string, i: nat, reason: string, now: int) {
    && LostAt(s.queues, end.queues, did, i) && LostOne(s.queues, end.queues, s.queues[did][i])
    && end == s.(queues := end.queues, total := s.total - 1, dlq := end.dlq)
    && if cfg.enableDLQ then Buried(s.dlq, end.dlq, did, s.queues[did][i], reason, now) else end.dlq == s.dlq
  }

  ghost predicate Buried(dlq: map<string, seq<DeadLetter>>, dlq': map<string, seq<DeadLetter>>, did: string, m: Message,
                         reason: string, now: int) {
    var was := if did in dlq then dlq[did] else [];
    && dlq'.Keys == dlq.Keys + {did} && |dlq'[did]| == |was| + 1 && dlq'[did][..|was|] == was
    && (forall d :: d in dlq && d != did ==> dlq'[d] == dlq[d])
    && var last := dlq'[did][|was|];
       OneAttemptMore(m, last.msg, now) && last.reason == reason && last.movedAt == now
  }

  ghost predicate NackMoves(cfg: Config, s: State, id: string, reason: string, now: int, end: State, did: string, i: nat) {
    && IsFirst(s.queues, id, did, i)
    && if 0 < cfg.maxAttempts <= s.queues[did][i].attempts + 1 then BuriedAt(cfg, s, end, did, i, reason, now)
       else RetriedAt(s, end, did, i, now)
  }

  /** The first message with the id has one more attempt, in its place or, at the limit, out of the queue. */
  lemma NackLaw(cfg: Config, s: State, id: string, reason: string, now: int, end: State, err: Error)
    requires Nacks(cfg, s, id, reason, now, end, err)
    ensures err == ErrQueueClosed <==> s.closed
    ensures err == ErrNotFound <==> !s.closed && !Has(s.queues, id)
    ensures if err != NoError then end == s else exists did, i: nat :: NackMoves(cfg, s, id, reason, now, end, did, i)
  {
    if err == NoError {
      var did, i: nat :| FirstWithId(s.queues, id, did, i) && end == Nacked(cfg, s, did, i, reason, now);
      if 0 < cfg.maxAttempts <= s.queues[did][i].attempts + 1 {
        BurialLaw(cfg, s, reason, now, did, i);
      }
      assert NackMoves(cfg, s, id, reason, now, end, did, i);
    }
  }

  lemma BurialLaw(cfg: Config, s: State, reason: string, now: int, did: string, i: nat)
    requires did in s.queues && i < |s.queues[did]| && 0 < cfg.maxAttempts <= s.queues[did][i].attempts + 1
    ensures BuriedAt(cfg, s, Nacked(cfg, s, did, i, reason, now), did, i, reason, now)
  {
    RemovalLosesOne(s, did, i);
  }

  // ----- Cleanup -----

  /** `q'` are the messages of `q` that can still be delivered, in their order. */
  ghost predicate KeepsLive(q: seq<Message>, q': seq<Message>, now: int, at: seq<nat>) {
    PicksAt(q, q', at) && forall j :: 0 <= j < |q| ==> (j in at <==> now <= q[j].expiresAt)
  }

  lemma OneMoreLive(q: seq<Message>, q': seq<Message>, now: int, at: seq<nat>, m: Message)
    requires KeepsLive(q, q', now, at) && now <= m.expiresAt
    ensures KeepsLive(q + [m], q' + [m], now, at + [|q|])
  {
    var all := at + [|q|];
    forall j | 0 <= j <= |q| ensures j in all <==> now <= (q + [m])[j].expiresAt {
      assert j in all <==> j in at || j == |q|;
      assert j == |q| ==> all[|at|] == j;
    }
  }

  lemma NoneMoreLive(q: seq<Message>, q': seq<Message>, now: int, at: seq<nat>, m: Message)
    requires KeepsLive(q, q', now, at) && m.expiresAt < now
    ensures KeepsLive(q + [m], q' + [], now, at)
  {
    assert q' + [] == q';
    assert |q| !in at;
  }

  ghost predicate QueueCleaned(q: seq<Message>, q': seq<Message>, now: int) {
    exists at :: KeepsLive(q, q', now, at)
  }

  lemma CleanedMore(q: seq<Message>, q': seq<Message>, now: int, m: Message)
    requires QueueCleaned(q, q', now)
    ensures QueueCleaned(q + [m], q' + if m.Expired(now) then [] else [m], now)
  {
    var at :| KeepsLive(q, q', now, at);
    if now <= m.expiresAt {
      OneMoreLive(q, q', now, at, m);
    } else {
      NoneMoreLive(q, q', now, at, m);
    }
  }

  lemma NothingCleaned(now: int)
    ensures QueueCleaned([], [], now)
  {
    assert KeepsLive([], [], now, []);
  }

  lemma {:induction false} UnexpiredKeeps(q: seq<Message>, now: int)
    ensures QueueCleaned(q, Unexpired(q, now), now)
  {
    if q == [] {
      NothingCleaned(now);
    } else {
      var n := |q| - 1;
      UnexpiredKeeps(q[..n], now);
      CleanedMore(q[..n], Unexpired(q[..n], now), now, q[n]);
      assert q == q[..n] + [q[n]];
    }
  }

  /** Every queue keeps its live messages in order, a queue without any is gone, and what is gone was counted. */
  lemma CleanupLaw(s: State, now: int, end: State, removed: int, err: Error)
    requires Cleans(s, now, end, removed, err)
    ensures err == (if s.closed then ErrQueueClosed else NoError) && (s.closed ==> end == s && removed == 0)
    ensures !s.closed ==>
              && (forall d :: QueueCleaned(QueueOf(s.queues, d), QueueOf(end.queues, d), now))
              && (forall d :: d in end.queues <==> exists j :: 0 <= j < |QueueOf(s.queues, d)| && now <= QueueOf(s.queues, d)[j].expiresAt)
              && removed == Count(s.queues) - Count(end.queues)
              && end == s.(queues := end.queues, total := s.total - removed)
  {
    if !s.closed {
      forall d ensures QueueCleaned(QueueOf(s.queues, d), QueueOf(end.queues, d), now) {
        QueueSwept(s.queues, d, now);
      }
      forall d ensures d in end.queues <==> exists j :: 0 <= j < |QueueOf(s.queues, d)| && now <= QueueOf(s.queues, d)[j].expiresAt {
        QueueRemains(s.queues, d, now);
      }
    }
  }

  lemma QueueSwept(queues: Queues, d: string, now: int)
    ensures QueueCleaned(QueueOf(queues, d), QueueOf(Swept(queues, now), d), now)
  {
    var q := QueueOf(queues, d);
    UnexpiredKeeps(q, now);
    assert QueueOf(Swept(queues, now), d) == Unexpired(q, now);
  }

  lemma QueueRemains(queues: Queues, d: string, now: int)
    ensures d in Swept(queues, now) <==> exists j :: 0 <= j < |QueueOf(queues, d)| && now <= QueueOf(queues, d)[j].expiresAt
  {
    var q := QueueOf(queues, d);
    UnexpiredKeeps(q, now);
    var at :| KeepsLive(q, Unexpired(q, now), now, at);
    if d in Swept(queues, now) {
      assert at[0] in at;
    }
  }
}
