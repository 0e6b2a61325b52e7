/**
  What the offline queue guarantees over whole runs, and what `Dequeue` returns when it is
  called once, again and again, or compared with `Peek`.
 */
module QueueRuns {
  import opened QueueModel

  // ----- Every run -----

  datatype Op =
    | EnqueueOp(msg: Message)
    | DequeueOp(did: string, limit: int, now: int)
    | AckOp(id: string)
    | NackOp(id: string, reason: string, now: int)
    | CleanupOp(now: int)
    | CloseOp

  ghost predicate Next(cfg: Config, s: State, op: Op, end: State) {
    match op
    case EnqueueOp(msg) => exists err :: Enqueues(cfg, s, msg, end, err)
    case DequeueOp(did, limit, now) => exists msgs, err :: Dequeues(s, did, limit, now, end, msgs, err)
    case AckOp(id) => exists err :: Acks(s, id, end, err)
    case NackOp(id, reason, now) => exists err :: Nacks(cfg, s, id, reason, now, end, err)
    case CleanupOp(now) => exists removed, err :: Cleans(s, now, end, removed, err)
    case CloseOp => end == Shut(s)
  }

  ghost predicate IsRun(cfg: Config, states: seq<State>, ops: seq<Op>) {
    && |states| == |ops| + 1
    && states[0] == Empty
    && forall i :: 0 <= i < |ops| ==> Next(cfg, states[i], ops[i], states[i + 1])
  }

  ghost predicate NamedRecipients(ops: seq<Op>) {
    forall i :: 0 <= i < |ops| && ops[i].EnqueueOp? ==> ops[i].msg.recipient != ""
  }

  lemma StepKeepsValid(cfg: Config, s: State, op: Op, end: State)
    requires Valid(cfg, s) && Next(cfg, s, op, end)
    ensures Valid(cfg, end)
    ensures "" !in s.queues && WithinCapacity(cfg, s) && (op.EnqueueOp? ==> op.msg.recipient != "") && !end.closed ==>
              "" !in end.queues && WithinCapacity(cfg, end)
    ensures s.closed ==> end.closed
  {
    match op
    case EnqueueOp(msg) =>
      var err :| Enqueues(cfg, s, msg, end, err);
      EnqueueKeeps(cfg, s, msg, end, err);
    case DequeueOp(did, limit, now) =>
      var msgs, err :| Dequeues(s, did, limit, now, end, msgs, err);
      DequeueKeeps(cfg, s, did, limit, now, end, msgs, err);
    case AckOp(id) =>
      var err :| Acks(s, id, end, err);
      AckKeeps(cfg, s, id, end, err);
    case NackOp(id, reason, now) =>
      var err :| Nacks(cfg, s, id, reason, now, end, err);
      NackKeeps(cfg, s, id, reason, now, end, err);
    case CleanupOp(now) =>
      var removed, err :| Cleans(s, now, end, removed, err);
      CleanKeeps(cfg, s, now, end, removed, err);
    case CloseOp =>
  }

  /**
    At every point of every run the count is the sum of the queue lengths, no empty queue is
    kept, every message is filed under its recipient and no queue is over its limit; and if no
    message was sent to the empty DID, the store is within its global limit.
   */
  lemma {:induction false} EveryRunKeepsValid(cfg: Config, states: seq<State>, ops: seq<Op>, k: nat)
    requires IsRun(cfg, states, ops) && k <= |ops|
    ensures Valid(cfg, states[k])
    ensures NamedRecipients(ops) && !states[k].closed ==> "" !in states[k].queues && WithinCapacity(cfg, states[k])
  {
    if k == 0 {
      NothingCounts(Empty.queues);
    } else {
      EveryRunKeepsValid(cfg, states, ops, k - 1);
      assert Next(cfg, states[k - 1], ops[k - 1], states[k]);
      StepKeepsValid(cfg, states[k - 1], ops[k - 1], states[k]);
    }
  }

  // ----- Dequeue, once and repeatedly -----

  /** `p` lists the unexpired messages of `q`, oldest first. */
  ghost predicate PendingOrder(q: seq<Message>, now: int, p: seq<Message>) {
    Sorted(p) && multiset(p) == multiset(Unexpired(q, now))
  }

  lemma {:induction false} UnexpiredCounts(q: seq<Message>, now: int, m: Message)
    ensures multiset(Unexpired(q, now))[m] == if m.Expired(now) then 0 else multiset(q)[m]
  {
    if q != [] {
      var init, last := q[..|q| - 1], q[|q| - 1];
      UnexpiredCounts(init, now, m);
      assert q == init + [last];
    }
  }

  function Taken(limit: int, n: nat): nat {
    if 0 < limit < n then limit else n
  }

  lemma TakenCounts(q: seq<Message>, now: int, msgs: seq<Message>, rest: seq<Message>)
    requires TakenFrom(q, now, msgs, rest)
    ensures multiset(msgs + Unexpired(rest, now)) == multiset(Unexpired(q, now))
    ensures |msgs| + |Unexpired(rest, now)| == |Unexpired(q, now)|
  {
    var p := msgs + Unexpired(rest, now);
    forall m ensures multiset(p)[m] == multiset(Unexpired(q, now))[m] {
      UnexpiredCounts(q, now, m);
      UnexpiredCounts(rest, now, m);
      assert m.Expired(now) ==> m !in msgs;
    }
    assert multiset(p) == multiset(Unexpired(q, now));
    assert |multiset(p)| == |multiset(Unexpired(q, now))|;
  }

  /** What is taken followed by what could still be taken is one pending order of the queue. */
  lemma TakenIsPrefix(q: seq<Message>, now: int, msgs: seq<Message>, rest: seq<Message>)
    requires TakenFrom(q, now, msgs, rest) && Sorted(rest)
    ensures PendingOrder(q, now, msgs + Unexpired(rest, now))
  {
    TakenCounts(q, now, msgs, rest);
    UnexpiredIs(rest, now);
    UnexpiredSorted(rest, now);
  }

  lemma SplitTakes(q: seq<Message>, limit: int, now: int, msgs: seq<Message>, rest: seq<Message>)
    requires Splits(q, limit, now, msgs, rest)
    ensures |msgs| == Taken(limit, |Unexpired(q, now)|)
    ensures Unexpired(rest, now) != [] ==> |msgs| == limit
  {
    TakenCounts(q, now, msgs, rest);
    UnexpiredIs(rest, now);
    if Unexpired(rest, now) != [] {
      assert Unexpired(rest, now)[0] in rest && !Unexpired(rest, now)[0].Expired(now);
    }
  }

  /** Taking from what an earlier taking has left. */
  lemma TakenTwice(q: seq<Message>, now: int, msgs: seq<Message>, mid: seq<Message>, more: seq<Message>, rest: seq<Message>)
    requires TakenFrom(q, now, msgs, mid) && TakenFrom(mid, now, more, rest)
    ensures TakenFrom(q, now, msgs + more, rest)
  {
    forall m ensures m in mid <==> m in more || m in rest {
      assert m in multiset(mid) <==> m in multiset(more) || m in multiset(rest);
    }
  }

  /** No two messages were queued at the same instant. */
  ghost predicate DistinctTimes(q: seq<Message>) {
    forall i, j :: 0 <= i < j < |q| ==> q[i].queuedAt != q[j].queuedAt
  }

  lemma DistinctMeans(q: seq<Message>)
    requires DistinctTimes(q)
    ensures TimesIdentify(q)
  {
  }

  /** Messages with the same time are the same message. */
  ghost predicate TimesIdentify(q: seq<Message>) {
    forall m, n :: m in q && n in q && m.queuedAt == n.queuedAt ==> m == n
  }

  lemma FirstIsOldest(a: seq<Message>, m: Message)
    requires Sorted(a) && m in a
    ensures a[0].queuedAt <= m.queuedAt
  {
  }

  lemma SameFirst(a: seq<Message>, b: seq<Message>)
    requires Sorted(a) && Sorted(b) && multiset(a) == multiset(b) && TimesIdentify(a) && a != []
    ensures b != [] && a[0] == b[0]
  {
    assert |multiset(a)| == |multiset(b)|;
    assert a[0] in multiset(b) && b[0] in multiset(a);
    FirstIsOldest(b, a[0]);
    FirstIsOldest(a, b[0]);
  }

  lemma TailOf(a: seq<Message>)
    requires a != []
    ensures a == [a[0]] + a[1..] && multiset(a[1..]) == multiset(a) - multiset{a[0]}
  {
    assert a == [a[0]] + a[1..];
  }

  lemma TailFits(a: seq<Message>)
    requires a != []
    ensures Sorted(a) ==> Sorted(a[1..])
    ensures TimesIdentify(a) ==> TimesIdentify(a[1..])
  {
    assert forall m :: m in a[1..] ==> m in a;
  }

  lemma {:induction false} SortedUnique(a: seq<Message>, b: seq<Message>)
    requires Sorted(a) && Sorted(b) && multiset(a) == multiset(b) && TimesIdentify(a)
    ensures a == b
    decreases |a|
  {
    if a == [] {
      assert |multiset(b)| == 0;
    } else {
      SameFirst(a, b);
      TailOf(a);
      TailOf(b);
      TailFits(a);
      TailFits(b);
      SortedUnique(a[1..], b[1..]);
    }
  }

  lemma PendingOrderUnique(q: seq<Message>, now: int, p: seq<Message>, p': seq<Message>)
    requires DistinctTimes(q) && PendingOrder(q, now, p) && PendingOrder(q, now, p')
    ensures p == p'
  {
    DistinctMeans(q);
    UnexpiredIs(q, now);
    forall m | m in p ensures m in q {
      assert m in multiset(p);
      assert m in Unexpired(q, now);
    }
    SortedUnique(p, p');
  }

  /** With distinct times, `Dequeue` returns what `Peek` with the same limit showed. */
  lemma DequeueReturnsPeek(s: State, did: string, limit: int, now: int, end: State, msgs: seq<Message>, err: Error,
                           peeked: seq<Message>, err': Error)
    requires DistinctTimes(QueueOf(s.queues, did))
    requires Dequeues(s, did, limit, now, end, msgs, err) && Peeks(s, did, limit, now, peeked, err')
    ensures msgs == peeked && err == err'
  {
    if !s.closed {
      var q := QueueOf(s.queues, did);
      var rest :| Splits(q, limit, now, msgs, rest)
                  && end == s.(queues := Put(s.queues, did, rest), total := s.total - |msgs|);
      var rest' :| Splits(q, limit, now, peeked, rest');
      SplitTakes(q, limit, now, msgs, rest);
      SplitTakes(q, limit, now, peeked, rest');
      TakenIsPrefix(q, now, msgs, rest);
      TakenIsPrefix(q, now, peeked, rest');
      PendingOrderUnique(q, now, msgs + Unexpired(rest, now), peeked + Unexpired(rest', now));
      assert msgs == (msgs + Unexpired(rest, now))[..|msgs|];
      assert peeked == (peeked + Unexpired(rest', now))[..|peeked|];
    }
  }

  /** `batches` are what successive dequeues of one queue return; `rest` is what is left in the end. */
  ghost predicate Batches(q: seq<Message>, limit: int, now: int, batches: seq<seq<Message>>, rest: seq<Message>)
    decreases |batches|
  {
    if batches == [] then rest == q
    else exists mid :: Splits(q, limit, now, batches[0], mid) && Batches(mid, limit, now, batches[1..], rest)
  }

  function Flatten(batches: seq<seq<Message>>): seq<Message> {
    if batches == [] then [] else batches[0] + Flatten(batches[1..])
  }

  /** Limited dequeues, repeated, take the pending messages in order, each once. */
  lemma {:induction false} BatchesTakeInOrder(q: seq<Message>, limit: int, now: int, batches: seq<seq<Message>>, rest: seq<Message>)
    requires Batches(q, limit, now, batches, rest)
    ensures TakenFrom(q, now, Flatten(batches), rest)
    ensures batches != [] ==> Sorted(rest)
    decreases |batches|
  {
    if batches != [] {
      var mid :| Splits(q, limit, now, batches[0], mid) && Batches(mid, limit, now, batches[1..], rest);
      BatchesTakeInOrder(mid, limit, now, batches[1..], rest);
      TakenTwice(q, now, batches[0], mid, Flatten(batches[1..]), rest);
    }
  }

  /** When nothing unexpired is left, the batches together are what one unlimited dequeue returns. */
  lemma BatchesMakeOneDequeue(q: seq<Message>, limit: int, now: int, batches: seq<seq<Message>>, rest: seq<Message>,
                              all: seq<Message>, rest': seq<Message>)
    requires batches != [] && Batches(q, limit, now, batches, rest) && Unexpired(rest, now) == []
    requires Splits(q, 0, now, all, rest') && DistinctTimes(q)
    ensures Flatten(batches) == all
  {
    BatchesTakeInOrder(q, limit, now, batches, rest);
    TakenIsPrefix(q, now, Flatten(batches), rest);
    TakenIsPrefix(q, now, all, rest');
    SplitTakes(q, 0, now, all, rest');
    assert Flatten(batches) + [] == Flatten(batches);
    TakenCounts(q, now, all, rest');
    PendingOrderUnique(q, now, Flatten(batches), all + Unexpired(rest', now));
  }

  // ----- Enqueue alone: the newest survive -----

  ghost predicate EnqueueRun(cfg: Config, msgs: seq<Message>, states: seq<State>, errs: seq<Error>) {
    && |states| == |msgs| + 1 && |errs| == |msgs|
    && states[0] == Empty
    && forall i :: 0 <= i < |msgs| ==> Enqueues(cfg, states[i], msgs[i], states[i + 1], errs[i])
  }

  function Accepted(msgs: seq<Message>, errs: seq<Error>): seq<Message>
    requires |msgs| == |errs|
  {
    if msgs == [] then []
    else
      var n := |msgs| - 1;
      Accepted(msgs[..n], errs[..n]) + (if errs[n] == NoError then [msgs[n]] else [])
  }

  function For(did: string, msgs: seq<Message>): seq<Message> {
    if msgs == [] then []
    else (if msgs[0].recipient == did then [msgs[0]] else []) + For(did, msgs[1..])
  }

  ghost predicate Increasing(msgs: seq<Message>) {
    forall i, j :: 0 <= i < j < |msgs| ==> msgs[i].queuedAt < msgs[j].queuedAt
  }

  function Kept(cfg: Config, n: nat): nat {
    if 0 < cfg.maxTotal < n then cfg.maxTotal else n
  }

  /** The queues are the messages of `kept` sorted by recipient, each in order of arrival. */
  ghost predicate Mirrors(queues: Queues, kept: seq<Message>) {
    forall d :: QueueOf(queues, d) == For(d, kept)
  }

  /** The queues hold exactly the last `Kept` accepted messages, each queue in order of arrival. */
  ghost predicate HoldsNewest(cfg: Config, s: State, accepted: seq<Message>) {
    && !s.closed
    && s.total == Kept(cfg, |accepted|)
    && Mirrors(s.queues, accepted[|accepted| - s.total..])
  }

  lemma {:induction false} ForConcat(did: string, a: seq<Message>, b: seq<Message>)
    ensures For(did, a + b) == For(did, a) + For(did, b)
  {
    if a == [] {
      assert a + b == b;
    } else {
      ForConcat(did, a[1..], b);
      assert (a + b)[1..] == a[1..] + b;
      var head := if a[0].recipient == did then [a[0]] else [];
      assert head + (For(did, a[1..]) + For(did, b)) == (head + For(did, a[1..])) + For(did, b);
    }
  }

  lemma {:induction false} ForIs(did: string, msgs: seq<Message>)
    ensures forall m :: m in For(did, msgs) <==> m in msgs && m.recipient == did
    ensures Increasing(msgs) ==> Increasing(For(did, msgs))
  {
    if msgs != [] {
      ForIs(did, msgs[1..]);
      assert msgs == [msgs[0]] + msgs[1..];
      if Increasing(msgs) {
        forall m | m in msgs[1..] ensures msgs[0].queuedAt < m.queuedAt {
        }
      }
    }
  }

  /** In a store that mirrors an increasing sequence, the oldest message is its first. */
  lemma OldestIsFirst(queues: Queues, kept: seq<Message>, did: string, i: nat)
    requires kept != [] && Increasing(kept)
    requires Mirrors(queues, kept)
    requires Oldest(queues, did, i)
    ensures did == kept[0].recipient && i == 0
  {
    var home := kept[0].recipient;
    ForIs(did, kept);
    assert QueueOf(queues, home)[0] == kept[0];
    var m := queues[did][i];
    assert m in kept && m.recipient == did;
    assert m.queuedAt <= queues[home][0].queuedAt;
    assert m == kept[0];
    assert forall j :: 0 < j < |For(did, kept)| ==> For(did, kept)[0].queuedAt < For(did, kept)[j].queuedAt;
  }

  lemma DropFirst(queues: Queues, kept: seq<Message>)
    requires kept != [] && Mirrors(queues, kept)
    ensures var home := kept[0].recipient;
            home in queues && queues[home] != [] && Mirrors(Put(queues, home, Without(queues[home], 0)), kept[1..])
  {
    var home := kept[0].recipient;
    assert QueueOf(queues, home) == [kept[0]] + For(home, kept[1..]);
    assert Without(queues[home], 0) == For(home, kept[1..]);
    forall d ensures QueueOf(Put(queues, home, For(home, kept[1..])), d) == For(d, kept[1..]) {
      assert QueueOf(queues, d) == For(d, kept);
    }
  }

  lemma EvictDropsFirst(s: State, mid: State, kept: seq<Message>)
    requires kept != [] && Increasing(kept) && kept[0].recipient != ""
    requires Mirrors(s.queues, kept) && Evicts(s, mid)
    ensures mid.total == s.total - 1 && mid.closed == s.closed
    ensures Mirrors(mid.queues, kept[1..])
  {
    DropFirst(s.queues, kept);
    var did: string, i: nat :| Oldest(s.queues, did, i) && mid == if did == "" then s else RemoveAt(s, did, i);
    OldestIsFirst(s.queues, kept, did, i);
  }

  lemma AppendMirrors(s: State, msg: Message, kept: seq<Message>)
    requires Mirrors(s.queues, kept)
    ensures Mirrors(Append(s, msg).queues, kept + [msg])
  {
    forall d ensures QueueOf(Append(s, msg).queues, d) == For(d, kept + [msg]) {
      ForConcat(d, kept, [msg]);
      assert QueueOf(s.queues, d) == For(d, kept);
      assert For(d, [msg]) == if msg.recipient == d then [msg] else [];
    }
  }

  lemma AppendKeepsNewest(s: State, msg: Message, accepted: seq<Message>)
    requires 0 <= s.total <= |accepted| && Mirrors(s.queues, accepted[|accepted| - s.total..])
    ensures Mirrors(Append(s, msg).queues, (accepted + [msg])[|accepted| - s.total..])
  {
    var n := |accepted| - s.total;
    AppendMirrors(s, msg, accepted[n..]);
    assert (accepted + [msg])[n..] == accepted[n..] + [msg];
  }

  lemma EvictKeepsNewest(s: State, mid: State, accepted: seq<Message>)
    requires 0 < s.total <= |accepted| && Mirrors(s.queues, accepted[|accepted| - s.total..]) && Evicts(s, mid)
    requires Increasing(accepted) && accepted[|accepted| - s.total].recipient != ""
    ensures mid.total == s.total - 1 && mid.closed == s.closed
    ensures Mirrors(mid.queues, accepted[|accepted| - mid.total..])
  {
    var n := |accepted| - s.total;
    EvictDropsFirst(s, mid, accepted[n..]);
    assert accepted[n..][1..] == accepted[n + 1..];
  }

  lemma EnqueueMakesRoom(cfg: Config, s: State, msg: Message, end: State, accepted: seq<Message>) returns (mid: State)
    requires HoldsNewest(cfg, s, accepted) && Enqueues(cfg, s, msg, end, NoError) && Increasing(accepted)
    requires forall i :: 0 <= i < |accepted| ==> accepted[i].recipient != ""
    ensures end == Append(mid, msg) && !mid.closed && mid.total == Kept(cfg, |accepted| + 1) - 1
    ensures Mirrors(mid.queues, accepted[|accepted| - mid.total..])
  {
    mid :| (if AtCapacity(cfg, s) then Evicts(s, mid) else mid == s) && end == Append(mid, msg);
    if AtCapacity(cfg, s) {
      EvictKeepsNewest(s, mid, accepted);
    }
  }

  lemma EnqueueKeepsNewest(cfg: Config, s: State, msg: Message, end: State, accepted: seq<Message>)
    requires HoldsNewest(cfg, s, accepted) && Enqueues(cfg, s, msg, end, NoError) && Increasing(accepted)
    requires forall i :: 0 <= i < |accepted| ==> accepted[i].recipient != ""
    ensures HoldsNewest(cfg, end, accepted + [msg])
  {
    var mid := EnqueueMakesRoom(cfg, s, msg, end, accepted);
    AppendKeepsNewest(mid, msg, accepted);
  }

  lemma {:induction false} AcceptedAre(msgs: seq<Message>, errs: seq<Error>)
    requires |msgs| == |errs|
    ensures forall m :: m in Accepted(msgs, errs) ==> m in msgs
  {
    if msgs != [] {
      var n := |msgs| - 1;
      AcceptedAre(msgs[..n], errs[..n]);
      assert msgs == msgs[..n] + [msgs[n]];
    }
  }

  lemma {:induction false} AcceptedIncrease(msgs: seq<Message>, errs: seq<Error>)
    requires |msgs| == |errs| && Increasing(msgs)
    ensures Increasing(Accepted(msgs, errs))
  {
    if msgs != [] {
      var n := |msgs| - 1;
      AcceptedIncrease(msgs[..n], errs[..n]);
      AcceptedAre(msgs[..n], errs[..n]);
      forall m | m in Accepted(msgs[..n], errs[..n]) ensures m.queuedAt < msgs[n].queuedAt {
        assert m in msgs[..n];
      }
    }
  }

  lemma AcceptedNext(msgs: seq<Message>, errs: seq<Error>, n: nat)
    requires |msgs| == |errs| && n < |msgs|
    ensures var ms := Accepted(msgs[..n], errs[..n]);
            Accepted(msgs[..n + 1], errs[..n + 1]) == if errs[n] == NoError then ms + [msgs[n]] else ms
  {
    assert msgs[..n + 1][..n] == msgs[..n] && errs[..n + 1][..n] == errs[..n];
  }

  lemma AcceptedFit(msgs: seq<Message>, errs: seq<Error>, n: nat)
    requires |msgs| == |errs| && n <= |msgs| && Increasing(msgs)
    requires forall i :: 0 <= i < |msgs| ==> msgs[i].recipient != ""
    ensures Increasing(Accepted(msgs[..n], errs[..n]))
    ensures var ms := Accepted(msgs[..n], errs[..n]); forall i :: 0 <= i < |ms| ==> ms[i].recipient != ""
  {
    var ms := Accepted(msgs[..n], errs[..n]);
    AcceptedAre(msgs[..n], errs[..n]);
    AcceptedIncrease(msgs[..n], errs[..n]);
    forall i | 0 <= i < |ms| ensures ms[i].recipient != "" {
      assert ms[i] in msgs[..n];
    }
  }

  /**
    Enqueues alone, with increasing times and named recipients, leave exactly the newest
    `maxTotal` accepted messages (all of them if there is no limit), queue by queue in order.
   */
  lemma {:induction false} NewestAreKept(cfg: Config, msgs: seq<Message>, states: seq<State>, errs: seq<Error>, k: nat)
    requires EnqueueRun(cfg, msgs, states, errs) && Increasing(msgs) && k <= |msgs|
    requires forall i :: 0 <= i < |msgs| ==> msgs[i].recipient != ""
    ensures HoldsNewest(cfg, states[k], Accepted(msgs[..k], errs[..k]))
  {
    if k > 0 {
      var n := k - 1;
      NewestAreKept(cfg, msgs, states, errs, n);
      AcceptedNext(msgs, errs, n);
      assert Enqueues(cfg, states[n], msgs[n], states[n + 1], errs[n]);
      if errs[n] == NoError {
        AcceptedFit(msgs, errs, n);
        EnqueueKeepsNewest(cfg, states[n], msgs[n], states[k], Accepted(msgs[..n], errs[..n]));
      }
    }
  }
}
