/**
  The offline queue of `pkg/queue/memory.go` as states and the relations its operations make
  between them. Where the code iterates over a Go map or sorts with an unstable sort, a
  relation allows every outcome.
 */
module QueueModel {
  import opened Basics
  import opened Sums

  datatype Message = Message(id: string, recipient: string, data: string, queuedAt: int, expiresAt: int,
                             attempts: int, lastAttempt: Option<int>, sender: string)
  {
    predicate Expired(now: int) {
      now > expiresAt
    }
  }

  datatype DeadLetter = DeadLetter(msg: Message, reason: string, movedAt: int)

  /** Limits of zero or less mean "no limit". */
  datatype Config = Config(maxQueueSize: int, maxTotal: int, maxAttempts: int, enableDLQ: bool)

  datatype Error = NoError | ErrQueueClosed | ErrQueueFull | ErrNotFound

  type Queues = map<string, seq<Message>>

  datatype State = State(queues: Queues, dlq: map<string, seq<DeadLetter>>, total: int, closed: bool)

  const Empty := State(map[], map[], 0, false)

  function QueueOf(queues: Queues, did: string): seq<Message> {
    if did in queues then queues[did] else []
  }

  /** A queue put back; an empty one is not kept. */
  function Put(queues: Queues, did: string, q: seq<Message>): Queues {
    if q == [] then queues - {did} else queues[did := q]
  }

  function Without(q: seq<Message>, i: nat): seq<Message>
    requires i < |q|
  {
    q[..i] + q[i + 1..]
  }

  function Unexpired(q: seq<Message>, now: int): seq<Message> {
    if q == [] then []
    else Unexpired(q[..|q| - 1], now) + (if q[|q| - 1].Expired(now) then [] else [q[|q| - 1]])
  }

  ghost predicate Sorted(q: seq<Message>) {
    forall i, j :: 0 <= i < j < |q| ==> q[i].queuedAt <= q[j].queuedAt
  }

  // ----- Operations -----

  ghost predicate Oldest(queues: Queues, did: string, i: nat) {
    && did in queues && i < |queues[did]|
    && forall d, j :: d in queues && 0 <= j < |queues[d]| ==> queues[did][i].queuedAt <= queues[d][j].queuedAt
  }

  function RemoveAt(s: State, did: string, i: nat): State
    requires did in s.queues && i < |s.queues[did]|
  {
    s.(queues := Put(s.queues, did, Without(s.queues[did], i)), total := s.total - 1)
  }

  ghost predicate NothingQueued(queues: Queues) {
    forall d :: d in queues ==> queues[d] == []
  }

  /** The oldest message goes, unless it was filed under the empty DID. */
  ghost predicate Evicts(s: State, end: State) {
    if NothingQueued(s.queues) then end == s
    else exists did, i :: Oldest(s.queues, did, i) && end == if did == "" then s else RemoveAt(s, did, i)
  }

  function Append(s: State, msg: Message): State {
    s.(queues := s.queues[msg.recipient := QueueOf(s.queues, msg.recipient) + [msg]], total := s.total + 1)
  }

  predicate Full(cfg: Config, s: State, did: string) {
    cfg.maxQueueSize > 0 && |QueueOf(s.queues, did)| >= cfg.maxQueueSize
  }

  predicate AtCapacity(cfg: Config, s: State) {
    cfg.maxTotal > 0 && s.total >= cfg.maxTotal
  }

  ghost predicate Enqueues(cfg: Config, s: State, msg: Message, end: State, err: Error) {
    if s.closed then err == ErrQueueClosed && end == s
    else if Full(cfg, s, msg.recipient) then err == ErrQueueFull && end == s
    else
      && err == NoError
      && exists mid :: (if AtCapacity(cfg, s) then Evicts(s, mid) else mid == s) && end == Append(mid, msg)
  }

  /**
    `msgs` are taken from `q` and `rest` stays: nothing is lost or made up, and what is taken is
    unexpired, in order, and not later than any unexpired message left behind.
   */
  ghost predicate TakenFrom(q: seq<Message>, now: int, msgs: seq<Message>, rest: seq<Message>) {
    && multiset(q) == multiset(msgs) + multiset(rest)
    && Sorted(msgs)
    && (forall m :: m in msgs ==> !m.Expired(now))
    && (forall m, r :: m in msgs && r in rest && !r.Expired(now) ==> m.queuedAt <= r.queuedAt)
  }

  /** One dequeue: as much is taken as the limit allows, and the rest is left sorted. */
  ghost predicate Splits(q: seq<Message>, limit: int, now: int, msgs: seq<Message>, rest: seq<Message>) {
    && TakenFrom(q, now, msgs, rest)
    && Sorted(rest)
    && (limit > 0 ==> |msgs| <= limit)
    && ((exists r :: r in rest && !r.Expired(now)) ==> limit > 0 && |msgs| == limit)
  }

  ghost predicate Dequeues(s: State, did: string, limit: int, now: int, end: State, msgs: seq<Message>, err: Error) {
    if s.closed then err == ErrQueueClosed && end == s && msgs == []
    else
      && err == NoError
      && exists rest :: Splits(QueueOf(s.queues, did), limit, now, msgs, rest)
                        && end == s.(queues := Put(s.queues, did, rest), total := s.total - |msgs|)
  }

  ghost predicate Peeks(s: State, did: string, limit: int, now: int, msgs: seq<Message>, err: Error) {
    if s.closed then err == ErrQueueClosed && msgs == []
    else err == NoError && exists rest :: Splits(QueueOf(s.queues, did), limit, now, msgs, rest)
  }

  /** The first message with this id in the queue of `did` is at `i`. */
  ghost predicate FirstWithId(queues: Queues, id: string, did: string, i: nat) {
    && did in queues && i < |queues[did]| && queues[did][i].id == id
    && forall j :: 0 <= j < i ==> queues[did][j].id != id
  }

  ghost predicate NoneWithId(queues: Queues, id: string) {
    forall d, j :: d in queues && 0 <= j < |queues[d]| ==> queues[d][j].id != id
  }

  ghost predicate Acks(s: State, id: string, end: State, err: Error) {
    if s.closed then err == ErrQueueClosed && end == s
    else if NoneWithId(s.queues, id) then err == ErrNotFound && end == s
    else err == NoError && exists did, i :: FirstWithId(s.queues, id, did, i) && end == RemoveAt(s, did, i)
  }

  function Attempted(m: Message, now: int): Message {
    m.(attempts := m.attempts + 1, lastAttempt := Some(now))
  }

  function Nacked(cfg: Config, s: State, did: string, i: nat, reason: string, now: int): State
    requires did in s.queues && i < |s.queues[did]|
  {
    var m := Attempted(s.queues[did][i], now);
    if cfg.maxAttempts > 0 && m.attempts >= cfg.maxAttempts then
      var dead := if did in s.dlq then s.dlq[did] else [];
      RemoveAt(if cfg.enableDLQ then s.(dlq := s.dlq[did := dead + [DeadLetter(m, reason, now)]]) else s, did, i)
    else s.(queues := s.queues[did := s.queues[did][i := m]])
  }

  ghost predicate Nacks(cfg: Config, s: State, id: string, reason: string, now: int, end: State, err: Error) {
    if s.closed then err == ErrQueueClosed && end == s
    else if NoneWithId(s.queues, id) then err == ErrNotFound && end == s
    else err == NoError && exists did, i :: FirstWithId(s.queues, id, did, i) && end == Nacked(cfg, s, did, i, reason, now)
  }

  function Swept(queues: Queues, now: int): Queues {
    map d | d in queues && Unexpired(queues[d], now) != [] :: Unexpired(queues[d], now)
  }

  ghost function Count(queues: Queues): int {
    Sum(map d | d in queues :: |queues[d]|)
  }

  ghost predicate Cleans(s: State, now: int, end: State, removed: int, err: Error) {
    if s.closed then err == ErrQueueClosed && end == s && removed == 0
    else
      && err == NoError
      && removed == Count(s.queues) - Count(Swept(s.queues, now))
      && end == s.(queues := Swept(s.queues, now), total := s.total - removed)
  }

  function Shut(s: State): State {
    s.(queues := map[], dlq := map[], closed := true)
  }

  // ----- Counting -----

  lemma PutCount(queues: Queues, did: string, q: seq<Message>)
    ensures Count(Put(queues, did, q)) == Count(queues) - |QueueOf(queues, did)| + |q|
  {
    var lengths: map<string, int> := map d | d in queues :: |queues[d]|;
    SumUpdate(lengths, did, |q|);
    var queues' := Put(queues, did, q);
    var lengths': map<string, int> := map d | d in queues' :: |queues'[d]|;
    if q == [] {
      SumTakeOut(lengths[did := 0], did);
      assert lengths' == lengths[did := 0] - {did};
    } else {
      assert lengths' == lengths[did := |q|];
    }
  }

  lemma {:induction false} UnexpiredIs(q: seq<Message>, now: int)
    ensures |Unexpired(q, now)| <= |q|
    ensures forall m :: m in Unexpired(q, now) <==> m in q && !m.Expired(now)
  {
    if q != [] {
      UnexpiredIs(q[..|q| - 1], now);
      assert q == q[..|q| - 1] + [q[|q| - 1]];
    }
  }

  lemma {:induction false} UnexpiredSorted(q: seq<Message>, now: int)
    requires Sorted(q)
    ensures Sorted(Unexpired(q, now))
  {
    if q != [] {
      var init := Unexpired(q[..|q| - 1], now);
      UnexpiredSorted(q[..|q| - 1], now);
      UnexpiredIs(q[..|q| - 1], now);
      forall m | m in init ensures m.queuedAt <= q[|q| - 1].queuedAt {
        assert m in q[..|q| - 1];
      }
    }
  }

  // ----- The invariant of the store -----

  ghost predicate Filed(cfg: Config, queues: Queues) {
    forall d :: d in queues ==>
      && queues[d] != []
      && (forall m :: m in queues[d] ==> m.recipient == d)
      && (cfg.maxQueueSize > 0 ==> |queues[d]| <= cfg.maxQueueSize)
  }

  ghost predicate Valid(cfg: Config, s: State) {
    !s.closed ==> s.total == Count(s.queues) && Filed(cfg, s.queues)
  }

  ghost predicate WithinCapacity(cfg: Config, s: State) {
    !s.closed && cfg.maxTotal > 0 ==> s.total <= cfg.maxTotal
  }

  lemma QueueShrinks(cfg: Config, queues: Queues, did: string, q: seq<Message>)
    requires Filed(cfg, queues) && |q| <= |QueueOf(queues, did)|
    requires forall m :: m in q ==> m in QueueOf(queues, did)
    ensures Filed(cfg, Put(queues, did, q))
  {
  }

  lemma RemoveAtKeeps(cfg: Config, s: State, did: string, i: nat)
    requires Valid(cfg, s) && !s.closed && did in s.queues && i < |s.queues[did]|
    ensures Valid(cfg, RemoveAt(s, did, i)) && RemoveAt(s, did, i).total == s.total - 1
  {
    var q := s.queues[did];
    PutCount(s.queues, did, Without(q, i));
    QueueShrinks(cfg, s.queues, did, Without(q, i));
  }

  lemma EvictKeeps(cfg: Config, s: State, end: State)
    requires Valid(cfg, s) && !s.closed && Evicts(s, end)
    ensures Valid(cfg, end) && end.closed == s.closed && s.total - 1 <= end.total <= s.total
    ensures forall d :: |QueueOf(end.queues, d)| <= |QueueOf(s.queues, d)|
    ensures "" !in s.queues && s.total > 0 ==> end.total == s.total - 1 && "" !in end.queues
  {
    if NothingQueued(s.queues) {
      NothingCounts(s.queues);
    } else {
      var did, i :| Oldest(s.queues, did, i) && end == if did == "" then s else RemoveAt(s, did, i);
      RemoveAtKeeps(cfg, s, did, i);
    }
  }

  lemma NothingCounts(queues: Queues)
    requires NothingQueued(queues)
    ensures Count(queues) == 0
  {
    var lengths: map<string, int> := map d | d in queues :: |queues[d]|;
    SumZero(lengths);
  }

  lemma AppendKeeps(cfg: Config, s: State, msg: Message)
    requires Valid(cfg, s) && !s.closed && !Full(cfg, s, msg.recipient)
    ensures Valid(cfg, Append(s, msg))
  {
    var q := QueueOf(s.queues, msg.recipient) + [msg];
    assert Append(s, msg).queues == Put(s.queues, msg.recipient, q);
    PutCount(s.queues, msg.recipient, q);
  }

  lemma EnqueueKeeps(cfg: Config, s: State, msg: Message, end: State, err: Error)
    requires Valid(cfg, s) && Enqueues(cfg, s, msg, end, err)
    ensures Valid(cfg, end) && end.closed == s.closed
    ensures "" !in s.queues && WithinCapacity(cfg, s) ==> WithinCapacity(cfg, end)
    ensures "" !in s.queues && msg.recipient != "" ==> "" !in end.queues
  {
    if err == NoError {
      var mid :| (if AtCapacity(cfg, s) then Evicts(s, mid) else mid == s) && end == Append(mid, msg);
      if AtCapacity(cfg, s) {
        EvictKeeps(cfg, s, mid);
      }
      AppendKeeps(cfg, mid, msg);
    }
  }

  lemma DequeueKeeps(cfg: Config, s: State, did: string, limit: int, now: int, end: State, msgs: seq<Message>, err: Error)
    requires Valid(cfg, s) && Dequeues(s, did, limit, now, end, msgs, err)
    ensures Valid(cfg, end) && end.closed == s.closed && end.total <= s.total
    ensures "" !in s.queues ==> "" !in end.queues
  {
    if err == NoError {
      var q := QueueOf(s.queues, did);
      var rest :| Splits(q, limit, now, msgs, rest)
                  && end == s.(queues := Put(s.queues, did, rest), total := s.total - |msgs|);
      SplitSizes(q, limit, now, msgs, rest);
      PutCount(s.queues, did, rest);
      QueueShrinks(cfg, s.queues, did, rest);
    }
  }

  lemma SplitSizes(q: seq<Message>, limit: int, now: int, msgs: seq<Message>, rest: seq<Message>)
    requires Splits(q, limit, now, msgs, rest)
    ensures |q| == |msgs| + |rest|
    ensures forall m :: m in rest || m in msgs <==> m in q
  {
    assert |multiset(q)| == |multiset(msgs)| + |multiset(rest)|;
    forall m ensures m in rest || m in msgs <==> m in q {
      assert m in multiset(q) <==> m in multiset(msgs) || m in multiset(rest);
    }
  }

  lemma AckKeeps(cfg: Config, s: State, id: string, end: State, err: Error)
    requires Valid(cfg, s) && Acks(s, id, end, err)
    ensures Valid(cfg, end) && end.closed == s.closed && end.total <= s.total
    ensures "" !in s.queues ==> "" !in end.queues
  {
    if err == NoError {
      var did, i :| FirstWithId(s.queues, id, did, i) && end == RemoveAt(s, did, i);
      RemoveAtKeeps(cfg, s, did, i);
    }
  }

  lemma NackedKeeps(cfg: Config, s: State, did: string, i: nat, reason: string, now: int)
    requires Valid(cfg, s) && !s.closed && did in s.queues && i < |s.queues[did]|
    ensures var end := Nacked(cfg, s, did, i, reason, now);
            Valid(cfg, end) && !end.closed && end.total <= s.total && end.queues.Keys <= s.queues.Keys
  {
    var m := Attempted(s.queues[did][i], now);
    if cfg.maxAttempts > 0 && m.attempts >= cfg.maxAttempts {
      var dead := if did in s.dlq then s.dlq[did] else [];
      RemoveAtKeeps(cfg, s.(dlq := s.dlq[did := dead + [DeadLetter(m, reason, now)]]), did, i);
      RemoveAtKeeps(cfg, s, did, i);
    } else {
      var q := s.queues[did][i := m];
      PutCount(s.queues, did, q);
      assert Put(s.queues, did, q) == s.queues[did := q];
    }
  }

  lemma NackKeeps(cfg: Config, s: State, id: string, reason: string, now: int, end: State, err: Error)
    requires Valid(cfg, s) && Nacks(cfg, s, id, reason, now, end, err)
    ensures Valid(cfg, end) && end.closed == s.closed && end.total <= s.total
    ensures "" !in s.queues ==> "" !in end.queues
  {
    if err == NoError {
      var did: string, i: nat :| FirstWithId(s.queues, id, did, i) && end == Nacked(cfg, s, did, i, reason, now);
      NackedKeeps(cfg, s, did, i, reason, now);
    }
  }

  lemma CleanKeeps(cfg: Config, s: State, now: int, end: State, removed: int, err: Error)
    requires Valid(cfg, s) && Cleans(s, now, end, removed, err)
    ensures Valid(cfg, end) && end.closed == s.closed && end.total <= s.total
    ensures "" !in s.queues ==> "" !in end.queues
    ensures removed >= 0
  {
    if err == NoError {
      forall d | d in end.queues ensures |end.queues[d]| <= |s.queues[d]| && forall m :: m in end.queues[d] ==> m in s.queues[d] {
        UnexpiredIs(s.queues[d], now);
      }
      CountMonotone(end.queues, s.queues);
    }
  }

  lemma {:induction false} CountMonotone(a: Queues, b: Queues)
    requires forall d :: d in a ==> d in b && |a[d]| <= |b[d]|
    ensures Count(a) <= Count(b)
    decreases |b.Keys|
  {
    if b == map[] {
      assert a == map[];
    } else {
      var d :| d in b;
      CountMonotone(a - {d}, b - {d});
      PutCount(a, d, []);
      PutCount(b, d, []);
    }
  }
}
