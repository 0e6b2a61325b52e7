/**
  `MemoryStore` of `pkg/queue/memory.go`, method by method, against the relations of
  `QueueModel`. Each method runs under the store's mutex, so it is one step of a run. The time
  that `time.Now` would give is a parameter.
 */
module OfflineQueue {
  import opened Basics
  import opened QueueModel
  import opened Sorting

  // ----- Sorting and splitting -----

  method SortByQueuedAt(q: seq<Message>) returns (sorted: seq<Message>)
    ensures Sorted(sorted) && multiset(sorted) == multiset(q)
  {
    sorted := SortBy(q, (m: Message) => m.queuedAt);
    assert forall i, j :: 0 <= i < j < |sorted| ==> sorted[i].queuedAt <= sorted[j].queuedAt;
  }

  lemma SortedAppend(q: seq<Message>, m: Message)
    requires Sorted(q) && forall x :: x in q ==> x.queuedAt <= m.queuedAt
    ensures Sorted(q + [m])
  {
    forall i | 0 <= i < |q| ensures q[i].queuedAt <= m.queuedAt {
      assert q[i] in q;
    }
  }

  lemma LeaveNext(q: seq<Message>, now: int, msgs: seq<Message>, rest: seq<Message>, m: Message)
    requires TakenFrom(q, now, msgs, rest) && forall x :: x in msgs ==> x.queuedAt <= m.queuedAt
    ensures TakenFrom(q + [m], now, msgs, rest + [m])
  {
  }

  lemma TakeNext(q: seq<Message>, now: int, msgs: seq<Message>, rest: seq<Message>, m: Message)
    requires TakenFrom(q, now, msgs, rest) && !m.Expired(now)
    requires (forall x :: x in msgs ==> x.queuedAt <= m.queuedAt) && forall r :: r in rest ==> r.Expired(now)
    ensures TakenFrom(q + [m], now, msgs + [m], rest)
  {
    SortedAppend(msgs, m);
  }

  lemma SplitLeaves(q: seq<Message>, limit: int, now: int, msgs: seq<Message>, rest: seq<Message>, m: Message)
    requires Splits(q, limit, now, msgs, rest) && (m.Expired(now) || 0 < limit <= |msgs|)
    requires forall x :: x in msgs || x in rest ==> x.queuedAt <= m.queuedAt
    ensures Splits(q + [m], limit, now, msgs, rest + [m])
  {
    LeaveNext(q, now, msgs, rest, m);
    SortedAppend(rest, m);
  }

  lemma SplitTakesOne(q: seq<Message>, limit: int, now: int, msgs: seq<Message>, rest: seq<Message>, m: Message)
    requires Splits(q, limit, now, msgs, rest) && !m.Expired(now) && !(0 < limit <= |msgs|)
    requires forall x :: x in msgs ==> x.queuedAt <= m.queuedAt
    ensures Splits(q + [m], limit, now, msgs + [m], rest)
  {
    assert forall r :: r in rest ==> r.Expired(now);
    TakeNext(q, now, msgs, rest, m);
  }

  lemma SplitNext(q: seq<Message>, limit: int, now: int, msgs: seq<Message>, rest: seq<Message>, m: Message)
    requires Splits(q, limit, now, msgs, rest)
    requires forall x :: x in q ==> x.queuedAt <= m.queuedAt
    ensures if m.Expired(now) || 0 < limit <= |msgs| then Splits(q + [m], limit, now, msgs, rest + [m])
            else Splits(q + [m], limit, now, msgs + [m], rest)
  {
    SplitSizes(q, limit, now, msgs, rest);
    if m.Expired(now) || 0 < limit <= |msgs| {
      SplitLeaves(q, limit, now, msgs, rest, m);
    } else {
      SplitTakesOne(q, limit, now, msgs, rest, m);
    }
  }

  lemma SplitOfNothing(q: seq<Message>, limit: int, now: int)
    requires q == []
    ensures Splits(q, limit, now, [], [])
  {
  }

  lemma SortedPrefix(sorted: seq<Message>, i: nat)
    requires Sorted(sorted) && i < |sorted|
    ensures forall x :: x in sorted[..i] ==> x.queuedAt <= sorted[i].queuedAt
    ensures sorted[..i + 1] == sorted[..i] + [sorted[i]]
  {
  }

  ghost predicate CanSplit(q: seq<Message>, limit: int, now: int, msgs: seq<Message>) {
    exists rest :: Splits(q, limit, now, msgs, rest)
  }

  /** Once the limit is reached, the messages not looked at stay where they are. */
  lemma {:induction false} SplitFinished(sorted: seq<Message>, i: nat, limit: int, now: int, msgs: seq<Message>, rest: seq<Message>)
    requires Sorted(sorted) && i <= |sorted| && Splits(sorted[..i], limit, now, msgs, rest) && 0 < limit <= |msgs|
    ensures CanSplit(sorted, limit, now, msgs)
    decreases |sorted| - i
  {
    if i < |sorted| {
      SortedPrefix(sorted, i);
      SplitNext(sorted[..i], limit, now, msgs, rest, sorted[i]);
      SplitFinished(sorted, i + 1, limit, now, msgs, rest + [sorted[i]]);
    } else {
      assert sorted[..i] == sorted;
    }
  }

  /** The outcome of a split depends on what is in the queue, not on its order. */
  lemma SplitIgnoresOrder(q: seq<Message>, q': seq<Message>, limit: int, now: int, msgs: seq<Message>, rest: seq<Message>)
    requires Splits(q, limit, now, msgs, rest) && multiset(q) == multiset(q')
    ensures Splits(q', limit, now, msgs, rest)
  {
  }

  /** The queues while `Cleanup` has still to look at those in `todo`. */
  function PartlySwept(queues: Queues, todo: set<string>, now: int): Queues {
    map d | d in queues && (d in todo || Unexpired(queues[d], now) != []) ::
      if d in todo then queues[d] else Unexpired(queues[d], now)
  }

  lemma SweepNext(queues: Queues, todo: set<string>, did: string, now: int)
    requires did in todo && todo <= queues.Keys
    ensures PartlySwept(queues, todo - {did}, now) == Put(PartlySwept(queues, todo, now), did, Unexpired(queues[did], now))
  {
  }

  class MemoryStore {
    const config: Config
    var queues: Queues
    var dlq: map<string, seq<DeadLetter>>
    var totalCount: int
    var closed: bool

    ghost function View(): State
      reads this
    {
      State(queues, dlq, totalCount, closed)
    }

    constructor (config: Config)
      ensures View() == Empty && this.config == config && Valid(config, View())
    {
      this.config := config;
      queues, dlq, totalCount, closed := map[], map[], 0, false;
      new;
      NothingCounts(queues);
    }

    method Enqueue(msg: Message) returns (err: Error)
      requires Valid(config, View())
      modifies this
      ensures Enqueues(config, old(View()), msg, View(), err)
      ensures Valid(config, View())
    {
      ghost var before := View();
      if closed {
        return ErrQueueClosed;
      }
      if config.maxQueueSize > 0 && |QueueOf(queues, msg.recipient)| >= config.maxQueueSize {
        return ErrQueueFull;
      }
      if config.maxTotal > 0 && totalCount >= config.maxTotal {
        EvictOldest();
      }
      ghost var mid := View();
      queues := queues[msg.recipient := QueueOf(queues, msg.recipient) + [msg]];
      totalCount := totalCount + 1;
      err := NoError;
      assert View() == Append(mid, msg);
      EnqueueKeeps(config, before, msg, View(), err);
    }

    /** `oldest` is the first message met with the least time among the queues outside `todo`. */
    ghost predicate OldestOutside(todo: set<string>, did: string, i: nat, time: int)
      reads this
    {
      && did in queues && i < |queues[did]| && queues[did][i].queuedAt == time
      && forall d, j :: d in queues && d !in todo && 0 <= j < |queues[d]| ==> time <= queues[d][j].queuedAt
    }

    method EvictOldest()
      requires !closed
      modifies this`queues, this`totalCount
      ensures Evicts(old(View()), View())
    {
      var oldestTime, oldestDID, oldestIdx, first := 0, "", 0, true;
      var todo := queues.Keys;
      while todo != {}
        invariant todo <= queues.Keys && unchanged(this)
        invariant first ==> forall d :: d in queues && d !in todo ==> queues[d] == []
        invariant !first ==> OldestOutside(todo, oldestDID, oldestIdx, oldestTime)
      {
        var did :| did in todo;
        var queue := queues[did];
        for i := 0 to |queue|
          invariant unchanged(this)
          invariant first ==> i == 0 && forall d :: d in queues && d !in todo ==> queues[d] == []
          invariant !first ==> OldestOutside(todo, oldestDID, oldestIdx, oldestTime)
          invariant !first ==> forall j :: 0 <= j < i ==> oldestTime <= queue[j].queuedAt
        {
          if first || queue[i].queuedAt < oldestTime {
            oldestTime, oldestDID, oldestIdx, first := queue[i].queuedAt, did, i, false;
          }
        }
        todo := todo - {did};
      }
      assert !first ==> Oldest(queues, oldestDID, oldestIdx);
      if !first && oldestDID != "" {
        Delete(oldestDID, oldestIdx);
      }
    }

    /** `slices.Delete` on one queue, which is dropped when it becomes empty. */
    method Delete(did: string, i: nat)
      requires did in queues && i < |queues[did]|
      modifies this`queues, this`totalCount
      ensures View() == RemoveAt(old(View()), did, i)
    {
      totalCount := totalCount - 1;
      File(did, queues[did][..i] + queues[did][i + 1..]);
    }

    /** Put a queue back, or drop it when nothing is left in it. */
    method File(did: string, queue: seq<Message>)
      modifies this`queues
      ensures queues == Put(old(queues), did, queue)
    {
      queues := queues[did := queue];
      if |queue| == 0 {
        queues := queues - {did};
      }
    }

    method Dequeue(did: string, limit: int, now: int) returns (result: seq<Message>, err: Error)
      requires Valid(config, View())
      modifies this`queues, this`totalCount
      ensures Dequeues(old(View()), did, limit, now, View(), result, err)
      ensures Valid(config, View())
    {
      ghost var before := View();
      if closed {
        return [], ErrQueueClosed;
      }
      var queue := QueueOf(queues, did);
      if |queue| == 0 {
        SplitOfNothing(queue, limit, now);
        assert Put(queues, did, []) == queues;
        return [], NoError;
      }
      var sorted := SortByQueuedAt(queue);
      var remaining;
      result, remaining := Partition(sorted, limit, now);
      SplitIgnoresOrder(sorted, queue, limit, now, result, remaining);
      totalCount := totalCount - |result|;
      File(did, remaining);
      err := NoError;
      DequeueKeeps(config, before, did, limit, now, View(), result, err);
    }

    static method Partition(sorted: seq<Message>, limit: int, now: int) returns (result: seq<Message>, remaining: seq<Message>)
      requires Sorted(sorted)
      ensures Splits(sorted, limit, now, result, remaining)
    {
      result, remaining := [], [];
      for i := 0 to |sorted|
        invariant Splits(sorted[..i], limit, now, result, remaining)
      {
        SortedPrefix(sorted, i);
        SplitNext(sorted[..i], limit, now, result, remaining, sorted[i]);
        if sorted[i].Expired(now) || (limit > 0 && |result| >= limit) {
          remaining := remaining + [sorted[i]];
        } else {
          result := result + [sorted[i]];
        }
      }
      assert sorted[..|sorted|] == sorted;
    }

    method Peek(did: string, limit: int, now: int) returns (result: seq<Message>, err: Error)
      requires Valid(config, View())
      ensures Peeks(View(), did, limit, now, result, err)
    {
      if closed {
        return [], ErrQueueClosed;
      }
      var queue := QueueOf(queues, did);
      if |queue| == 0 {
        SplitOfNothing(queue, limit, now);
        return [], NoError;
      }
      var sorted := SortByQueuedAt(queue);
      result := FirstPending(sorted, limit, now);
      err := NoError;
      ghost var rest :| Splits(sorted, limit, now, result, rest);
      SplitIgnoresOrder(sorted, queue, limit, now, result, rest);
    }

    static method FirstPending(sorted: seq<Message>, limit: int, now: int) returns (result: seq<Message>)
      requires Sorted(sorted)
      ensures exists rest :: Splits(sorted, limit, now, result, rest)
    {
      result := [];
      ghost var remaining := [];
      for i := 0 to |sorted|
        invariant Splits(sorted[..i], limit, now, result, remaining)
      {
        SortedPrefix(sorted, i);
        SplitNext(sorted[..i], limit, now, result, remaining, sorted[i]);
        if sorted[i].Expired(now) {
          remaining := remaining + [sorted[i]];
        } else if limit > 0 && |result| >= limit {
          SplitFinished(sorted, i, limit, now, result, remaining);
          break;
        } else {
          result := result + [sorted[i]];
        }
      }
      assert sorted[..|sorted|] == sorted;
    }

    /** The nested loops of `Ack` and `Nack`: some queue's first message with this id. */
    method Find(id: string) returns (found: bool, did: string, i: nat)
      ensures found ==> FirstWithId(queues, id, did, i)
      ensures !found ==> NoneWithId(queues, id)
    {
      found, did, i := false, "", 0;
      var todo := queues.Keys;
      while todo != {}
        invariant todo <= queues.Keys
        invariant forall d, j :: d in queues && d !in todo && 0 <= j < |queues[d]| ==> queues[d][j].id != id
      {
        did :| did in todo;
        i := 0;
        while i < |queues[did]|
          invariant i <= |queues[did]|
          invariant forall j :: 0 <= j < i ==> queues[did][j].id != id
        {
          if queues[did][i].id == id {
            found := true;
            return;
          }
          i := i + 1;
        }
        todo := todo - {did};
      }
    }

    method Ack(id: string) returns (err: Error)
      requires Valid(config, View())
      modifies this`queues, this`totalCount
      ensures Acks(old(View()), id, View(), err)
      ensures Valid(config, View())
    {
      ghost var before := View();
      if closed {
        return ErrQueueClosed;
      }
      var found, did, i := Find(id);
      if !found {
        return ErrNotFound;
      }
      Delete(did, i);
      err := NoError;
      assert !NoneWithId(before.queues, id);
      AckKeeps(config, before, id, View(), err);
    }

    method Nack(id: string, reason: string, now: int) returns (err: Error)
      requires Valid(config, View())
      modifies this`queues, this`totalCount, this`dlq
      ensures Nacks(config, old(View()), id, reason, now, View(), err)
      ensures Valid(config, View())
    {
      ghost var before := View();
      if closed {
        return ErrQueueClosed;
      }
      var found, did, i := Find(id);
      if !found {
        return ErrNotFound;
      }
      assert !NoneWithId(before.queues, id);
      var m := queues[did][i];
      m := m.(attempts := m.attempts + 1, lastAttempt := Some(now));
      if config.maxAttempts > 0 && m.attempts >= config.maxAttempts {
        if config.enableDLQ {
          dlq := dlq[did := (if did in dlq then dlq[did] else []) + [DeadLetter(m, reason, now)]];
        }
        Delete(did, i);
      } else {
        queues := queues[did := queues[did][i := m]];
      }
      err := NoError;
      assert View() == Nacked(config, before, did, i, reason, now);
      NackKeeps(config, before, id, reason, now, View(), err);
    }

    method Cleanup(now: int) returns (removed: int, err: Error)
      requires Valid(config, View())
      modifies this`queues, this`totalCount
      ensures Cleans(old(View()), now, View(), removed, err)
      ensures Valid(config, View())
    {
      ghost var before := View();
      if closed {
        return 0, ErrQueueClosed;
      }
      removed := SweepAll(now);
      err := NoError;
      CleanKeeps(config, before, now, View(), removed, err);
    }

    method SweepAll(now: int) returns (removed: int)
      modifies this`queues, this`totalCount
      ensures queues == Swept(old(queues), now)
      ensures removed == Count(old(queues)) - Count(queues) && totalCount == old(totalCount) - removed
    {
      ghost var before := queues;
      removed := 0;
      var todo := queues.Keys;
      while todo != {}
        invariant todo <= before.Keys && queues == PartlySwept(before, todo, now)
        invariant removed == Count(before) - Count(queues) && totalCount == old(totalCount) - removed
      {
        var did :| did in todo;
        var remaining, n := Sweep(queues[did], now);
        removed := removed + n;
        totalCount := totalCount - n;
        PutCount(queues, did, remaining);
        SweepNext(before, todo, did, now);
        File(did, remaining);
        todo := todo - {did};
      }
    }

    /** The inner loop of `Cleanup` over one queue. */
    static method Sweep(queue: seq<Message>, now: int) returns (remaining: seq<Message>, removed: int)
      ensures remaining == Unexpired(queue, now) && removed == |queue| - |remaining|
    {
      remaining, removed := [], 0;
      for i := 0 to |queue|
        invariant remaining == Unexpired(queue[..i], now) && removed == i - |remaining|
      {
        assert queue[..i + 1][..i] == queue[..i];
        if queue[i].Expired(now) {
          removed := removed + 1;
        } else {
          remaining := remaining + [queue[i]];
        }
      }
      assert queue[..|queue|] == queue;
    }

    method Close()
      modifies this
      ensures View() == Shut(old(View()))
    {
      closed := true;
      queues, dlq := map[], map[];
    }
  }
}
