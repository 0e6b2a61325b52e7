/**
  `deliverQueuedMessages` of `cmd/relay/client.go`: a client that comes online drains its
  queue in batches of 100 into its send channel, skips what has expired since it was dequeued,
  and stops at the first message the channel has no room for.

  `full` are the offers that the channel has no room for, counted from 0, so any capacity and
  any pace of the reader are covered. `clock` are the readings of the clock, one for each dequeue
  and one for each message looked at. Nothing is enqueued meanwhile.
 */
module RelayDelivery {
  import opened QueueModel
  import opened QueueRuns
  import opened OfflineQueue

  const BATCH := 100

  // ----- The clock -----

  /** What the clock read at each dequeue, and for each message looked at. */
  datatype Clock = Clock(dequeues: seq<int>, looks: seq<int>)

  /** Past the end of its readings the clock stands still. */
  function Reading(times: seq<int>, k: nat): int {
    if times == [] then 0 else if k < |times| then times[k] else times[|times| - 1]
  }

  predicate Steady(times: seq<int>) {
    forall i, j :: 0 <= i < j < |times| ==> times[i] <= times[j]
  }

  lemma ReadingsRise(times: seq<int>, i: nat, j: nat)
    requires Steady(times) && i <= j
    ensures Reading(times, i) <= Reading(times, j)
  {
  }

  /** When the batch was dequeued that holds, or would hold, position `n` of what the drain takes. */
  function DequeuedAt(clock: Clock, n: nat): int {
    Reading(clock.dequeues, n / BATCH)
  }

  /** When the message at position `n` is looked at. */
  function LookedAt(clock: Clock, n: nat): int {
    Reading(clock.looks, n)
  }

  // ----- What a drain does -----

  /** Of the first `n` messages, looked at from position `offset` on, those that had not expired by then. */
  function Live(clock: Clock, offset: nat, msgs: seq<Message>, n: nat): seq<Message>
    requires n <= |msgs|
  {
    if n == 0 then [] else Live(clock, offset, msgs, n - 1) + LiveOne(clock, offset + n - 1, msgs[n - 1])
  }

  function LiveOne(clock: Clock, n: nat, m: Message): seq<Message> {
    if m.Expired(LookedAt(clock, n)) then [] else [m]
  }

  /**
    `taken` went from `q`, over a time in which `rest` stayed: nothing is lost or made up, and what
    was taken is in order, had not expired at first, and is not later than anything that could
    still have been taken at last.
   */
  ghost predicate TakenOver(q: seq<Message>, first: int, last: int, taken: seq<Message>, rest: seq<Message>) {
    && multiset(q) == multiset(taken) + multiset(rest)
    && Sorted(taken)
    && (forall m :: m in taken ==> !m.Expired(first))
    && (forall m, r :: m in taken && r in rest && !r.Expired(last) ==> m.queuedAt <= r.queuedAt)
  }

  /** From the first dequeue to that of the batch of position `n`. */
  ghost predicate Took(q: seq<Message>, clock: Clock, n: nat, taken: seq<Message>, rest: seq<Message>) {
    exists first, last ::
      first == DequeuedAt(clock, 0) && last == DequeuedAt(clock, n) && TakenOver(q, first, last, taken, rest)
  }

  /** The channel has room for the offers from `i` up to `j`. */
  ghost predicate Room(full: set<nat>, i: nat, j: nat) {
    forall k :: i <= k < j ==> k !in full
  }

  /** The channel had room for the live ones among the first `n`, and refused the next one, if there is one. */
  ghost predicate Served(clock: Clock, taken: seq<Message>, n: nat, full: set<nat>, delivered: seq<Message>) {
    && n <= |taken| && delivered == Live(clock, 0, taken, n)
    && Room(full, 0, |delivered|)
    && (n < |taken| ==> !taken[n].Expired(LookedAt(clock, n)) && |delivered| in full)
  }

  ghost predicate Exhausted(rest: seq<Message>, now: int) {
    forall m :: m in rest ==> m.Expired(now)
  }

  /** `n` is a position of the last batch, which is full unless nothing was left to take. */
  ghost predicate InLastBatch(clock: Clock, n: nat, taken: seq<Message>, rest: seq<Message>) {
    && n <= |taken| <= n / BATCH * BATCH + BATCH
    && (n == |taken| || |taken| % BATCH != 0 ==> Exhausted(rest, DequeuedAt(clock, n)))
  }

  function Leaving(before: State, did: string, left: seq<Message>, gone: int): State {
    before.(queues := Put(before.queues, did, left), total := before.total - gone)
  }

  /** A refused message is enqueued again. */
  ghost predicate Ends(cfg: Config, s: State, taken: seq<Message>, n: nat, after: State) {
    if n < |taken| then Enqueues(cfg, s, taken[n], after, NoError) else after == s
  }

  /**
    The drain took `taken` off the queue and left `rest`. It looked at the first `n`, delivered
    those that had not expired by then, and put the next one back if the channel refused it.
   */
  ghost predicate DeliversOver(cfg: Config, before: State, did: string, clock: Clock, full: set<nat>, after: State,
                               delivered: seq<Message>, taken: seq<Message>, n: nat, rest: seq<Message>) {
    if before.closed || did == "" then after == before && delivered == []
    else
      && Took(QueueOf(before.queues, did), clock, n, taken, rest)
      && Sorted(rest)
      && Served(clock, taken, n, full, delivered)
      && InLastBatch(clock, n, taken, rest)
      && Ends(cfg, Leaving(before, did, rest, |taken|), taken, n, after)
  }

  ghost predicate DrainsOver(cfg: Config, before: State, did: string, clock: Clock, full: set<nat>, after: State,
                             delivered: seq<Message>) {
    exists taken, n: nat, rest :: DeliversOver(cfg, before, did, clock, full, after, delivered, taken, n, rest)
  }

  // ----- The loop -----

  /** Taking from what an earlier taking has left. */
  lemma TakesMore(q: seq<Message>, first: int, last: int, taken: seq<Message>, mid: seq<Message>, now: int,
                  msgs: seq<Message>, rest: seq<Message>)
    requires TakenOver(q, first, last, taken, mid) && TakenFrom(mid, now, msgs, rest) && first <= now && last <= now
    ensures TakenOver(q, first, now, taken + msgs, rest)
  {
    forall m ensures m in mid <==> m in msgs || m in rest {
      assert m in multiset(mid) <==> m in multiset(msgs) || m in multiset(rest);
    }
  }

  lemma TakenLater(q: seq<Message>, first: int, last: int, later: int, taken: seq<Message>, rest: seq<Message>)
    requires TakenOver(q, first, last, taken, rest) && last <= later
    ensures TakenOver(q, first, later, taken, rest)
  {
  }

  /** A queue after a batch was taken off it, and after a refused message was put back. */
  lemma PutTwice(queues: Queues, did: string, q: seq<Message>, q': seq<Message>)
    ensures Put(Put(queues, did, q), did, q') == Put(queues, did, q')
    ensures QueueOf(Put(queues, did, q), did) == q
  {
  }

  lemma LeavingTwice(before: State, did: string, q: seq<Message>, n: int, q': seq<Message>, n': int)
    ensures Leaving(Leaving(before, did, q, n), did, q', n') == Leaving(before, did, q', n + n')
    ensures QueueOf(Leaving(before, did, q, n).queues, did) == q
  {
    PutTwice(before.queues, did, q, q');
  }

  /** A drain that has taken `taken`, in full batches, and looked at all of it. */
  ghost predicate Drained(before: State, did: string, clock: Clock, s: State, taken: seq<Message>, q: seq<Message>) {
    && !s.closed
    && s == Leaving(before, did, q, |taken|) && QueueOf(s.queues, did) == q
    && Took(QueueOf(before.queues, did), clock, |taken|, taken, q)
    && |taken| % BATCH == 0
  }

  ghost predicate UnderWay(before: State, did: string, clock: Clock, full: set<nat>, s: State, looked: nat,
                           delivered: seq<Message>) {
    exists taken, q ::
      Drained(before, did, clock, s, taken, q) && looked == |taken| && Served(clock, taken, looked, full, delivered)
  }

  lemma DrainStarts(before: State, did: string, clock: Clock, full: set<nat>, cfg: Config)
    requires !before.closed && Valid(cfg, before)
    ensures UnderWay(before, did, clock, full, before, 0, [])
  {
    var q := QueueOf(before.queues, did);
    assert Put(before.queues, did, q) == before.queues;
    assert TakenOver(q, DequeuedAt(clock, 0), DequeuedAt(clock, 0), [], q);
    assert Drained(before, did, clock, before, [], q);
    assert Served(clock, [], 0, full, []);
  }

  /** Just after a batch was dequeued. */
  ghost predicate BatchOut(before: State, did: string, clock: Clock, s: State, taken: seq<Message>, msgs: seq<Message>,
                           rest: seq<Message>) {
    && !s.closed
    && s == Leaving(before, did, rest, |taken + msgs|) && QueueOf(s.queues, did) == rest
    && Took(QueueOf(before.queues, did), clock, |taken|, taken + msgs, rest)
    && Sorted(rest) && |taken| % BATCH == 0 && |msgs| <= BATCH
    && (|msgs| < BATCH ==> Exhausted(rest, DequeuedAt(clock, |taken|)))
  }

  lemma TakenBatch(before: State, did: string, clock: Clock, was: State, taken: seq<Message>, q: seq<Message>,
                   s: State, msgs: seq<Message>) returns (rest: seq<Message>)
    requires Steady(clock.dequeues) && Drained(before, did, clock, was, taken, q)
    requires Dequeues(was, did, BATCH, DequeuedAt(clock, |taken|), s, msgs, NoError)
    ensures BatchOut(before, did, clock, s, taken, msgs, rest)
    ensures |rest| == |q| - |msgs| && forall m :: m in msgs ==> m in q
  {
    var now := DequeuedAt(clock, |taken|);
    rest :| Splits(q, BATCH, now, msgs, rest) && s == was.(queues := Put(was.queues, did, rest), total := was.total - |msgs|);
    LeavingTwice(before, did, q, |taken|, rest, |msgs|);
    LeavingTwice(before, did, rest, |taken + msgs|, rest, 0);
    ReadingsRise(clock.dequeues, 0, |taken| / BATCH);
    TakesMore(QueueOf(before.queues, did), DequeuedAt(clock, 0), now, taken, q, now, msgs, rest);
    SplitSizes(q, BATCH, now, msgs, rest);
  }

  /** Its queue has room for a message that has just left it. */
  lemma RoomAfterDequeue(cfg: Config, was: State, did: string, msgs: seq<Message>, s: State)
    requires Valid(cfg, was) && !was.closed && msgs != []
    requires |QueueOf(s.queues, did)| == |QueueOf(was.queues, did)| - |msgs|
    requires forall m :: m in msgs ==> m in QueueOf(was.queues, did)
    ensures !Full(cfg, s, did)
    ensures forall m :: m in msgs ==> m.recipient == did
  {
    assert msgs[0] in msgs;
  }

  lemma Associates(x: seq<Message>, y: seq<Message>, z: seq<Message>)
    ensures x + (y + z) == x + y + z
  {
  }

  lemma {:induction false} LiveOfPrefix(clock: Clock, a: seq<Message>, b: seq<Message>, n: nat)
    requires n <= |a|
    ensures Live(clock, 0, a + b, n) == Live(clock, 0, a, n)
  {
    if n > 0 {
      LiveOfPrefix(clock, a, b, n - 1);
    }
  }

  lemma {:induction false} LiveConcat(clock: Clock, a: seq<Message>, b: seq<Message>, n: nat)
    requires n <= |b|
    ensures Live(clock, 0, a + b, |a| + n) == Live(clock, 0, a, |a|) + Live(clock, |a|, b, n)
  {
    if n == 0 {
      LiveOfPrefix(clock, a, b, |a|);
    } else {
      LiveConcat(clock, a, b, n - 1);
      Associates(Live(clock, 0, a, |a|), Live(clock, |a|, b, n - 1), LiveOne(clock, |a| + n - 1, b[n - 1]));
    }
  }

  /**
    Of a batch looked at from position `offset` on, `sent` went to the channel, after `count` others,
    before it had no room for message `stop`.
   */
  ghost predicate Offered(clock: Clock, full: set<nat>, offset: nat, count: nat, msgs: seq<Message>, stop: nat,
                          sent: seq<Message>) {
    && stop <= |msgs| && sent == Live(clock, offset, msgs, stop)
    && Room(full, count, count + |sent|)
    && (stop < |msgs| ==> !msgs[stop].Expired(LookedAt(clock, offset + stop)) && count + |sent| in full)
  }

  /** Offers a batch to the channel, one live message at a time, up to the first it has no room for. */
  method Offer(clock: Clock, full: set<nat>, offset: nat, count: nat, msgs: seq<Message>)
    returns (sent: seq<Message>, stop: nat)
    ensures Offered(clock, full, offset, count, msgs, stop, sent)
  {
    sent, stop := [], 0;
    while stop < |msgs|
      invariant stop <= |msgs| && sent == Live(clock, offset, msgs, stop)
      invariant Room(full, count, count + |sent|)
    {
      if !msgs[stop].Expired(LookedAt(clock, offset + stop)) {
        if count + |sent| in full {
          return;
        }
        sent := sent + [msgs[stop]];
      }
      stop := stop + 1;
    }
  }

  lemma ServedMore(clock: Clock, full: set<nat>, taken: seq<Message>, done: seq<Message>, msgs: seq<Message>, stop: nat,
                   sent: seq<Message>)
    requires Served(clock, taken, |taken|, full, done) && Offered(clock, full, |taken|, |done|, msgs, stop, sent)
    ensures Served(clock, taken + msgs, |taken| + stop, full, done + sent)
  {
    LiveConcat(clock, taken, msgs, stop);
  }

  lemma SameBatch(looked: nat, i: nat)
    requires looked % BATCH == 0 && i < BATCH
    ensures (looked + i) / BATCH == looked / BATCH && (looked + i) / BATCH * BATCH == looked
  {
  }

  /** A full batch without a refusal: the drain goes on with what is left. */
  lemma BatchDone(before: State, did: string, clock: Clock, full: set<nat>, s: State, taken: seq<Message>,
                  msgs: seq<Message>, rest: seq<Message>, delivered: seq<Message>)
    requires Steady(clock.dequeues) && BatchOut(before, did, clock, s, taken, msgs, rest) && |msgs| == BATCH
    requires Served(clock, taken + msgs, |taken| + |msgs|, full, delivered)
    ensures UnderWay(before, did, clock, full, s, |taken| + |msgs|, delivered)
  {
    var all := taken + msgs;
    assert |all| == |taken| + BATCH && |all| % BATCH == 0 && |all| / BATCH == |taken| / BATCH + 1;
    ReadingsRise(clock.dequeues, |taken| / BATCH, |all| / BATCH);
    TakenLater(QueueOf(before.queues, did), DequeuedAt(clock, 0), DequeuedAt(clock, |taken|), DequeuedAt(clock, |all|), all, rest);
    assert Drained(before, did, clock, s, all, rest);
  }

  lemma LastOfBatches(clock: Clock, taken: seq<Message>, msgs: seq<Message>, rest: seq<Message>, stop: nat)
    requires |taken| % BATCH == 0 && stop <= |msgs| <= BATCH && stop < BATCH
    requires |msgs| < BATCH ==> Exhausted(rest, DequeuedAt(clock, |taken|))
    ensures DequeuedAt(clock, |taken| + stop) == DequeuedAt(clock, |taken|)
    ensures InLastBatch(clock, |taken| + stop, taken + msgs, rest)
  {
    SameBatch(|taken|, stop);
    assert |taken + msgs| == |taken| + |msgs|;
    if |msgs| == BATCH {
      assert (|taken| + BATCH) % BATCH == 0;
    }
  }

  lemma DrainsOverBy(cfg: Config, before: State, did: string, clock: Clock, full: set<nat>, after: State,
                     delivered: seq<Message>, taken: seq<Message>, n: nat, rest: seq<Message>)
    requires !before.closed && did != ""
    requires Took(QueueOf(before.queues, did), clock, n, taken, rest) && Sorted(rest)
    requires Served(clock, taken, n, full, delivered) && InLastBatch(clock, n, taken, rest)
    requires Ends(cfg, Leaving(before, did, rest, |taken|), taken, n, after)
    ensures DrainsOver(cfg, before, did, clock, full, after, delivered)
  {
    assert DeliversOver(cfg, before, did, clock, full, after, delivered, taken, n, rest);
  }

  lemma EndsInBatch(cfg: Config, s: State, taken: seq<Message>, msgs: seq<Message>, stop: nat, after: State)
    requires stop <= |msgs| && Ends(cfg, s, msgs, stop, after)
    ensures Ends(cfg, s, taken + msgs, |taken| + stop, after)
  {
  }

  /** Any other batch is the last. */
  lemma BatchEnds(cfg: Config, before: State, did: string, clock: Clock, full: set<nat>, s: State, taken: seq<Message>,
                  msgs: seq<Message>, rest: seq<Message>, stop: nat, after: State, delivered: seq<Message>)
    requires !before.closed && did != "" && BatchOut(before, did, clock, s, taken, msgs, rest)
    requires stop <= |msgs| && stop < BATCH && Served(clock, taken + msgs, |taken| + stop, full, delivered)
    requires Ends(cfg, s, msgs, stop, after)
    ensures DrainsOver(cfg, before, did, clock, full, after, delivered)
  {
    LastOfBatches(clock, taken, msgs, rest, stop);
    EndsInBatch(cfg, s, taken, msgs, stop, after);
    DrainsOverBy(cfg, before, did, clock, full, after, delivered, taken + msgs, |taken| + stop, rest);
  }

  ghost predicate Dequeued(before: State, did: string, clock: Clock, full: set<nat>, s: State, looked: nat,
                           done: seq<Message>, msgs: seq<Message>) {
    exists taken, rest ::
      BatchOut(before, did, clock, s, taken, msgs, rest) && looked == |taken| && Served(clock, taken, looked, full, done)
  }

  lemma DequeueBatch(before: State, did: string, clock: Clock, full: set<nat>, cfg: Config, was: State, looked: nat,
                     done: seq<Message>, s: State, msgs: seq<Message>)
    requires Steady(clock.dequeues) && UnderWay(before, did, clock, full, was, looked, done) && Valid(cfg, was)
    requires Dequeues(was, did, BATCH, DequeuedAt(clock, looked), s, msgs, NoError)
    ensures Dequeued(before, did, clock, full, s, looked, done, msgs)
    ensures |msgs| <= BATCH && |QueueOf(s.queues, did)| == |QueueOf(was.queues, did)| - |msgs|
    ensures forall i :: 0 <= i < |msgs| ==> msgs[i].recipient == did && !Full(cfg, s, did)
  {
    var taken, q :|
      Drained(before, did, clock, was, taken, q) && looked == |taken| && Served(clock, taken, looked, full, done);
    var rest := TakenBatch(before, did, clock, was, taken, q, s, msgs);
    if msgs != [] {
      RoomAfterDequeue(cfg, was, did, msgs, s);
      assert forall i :: 0 <= i < |msgs| ==> msgs[i] in msgs;
    }
  }

  /** A full batch without a refusal goes on; anything else ends the drain. */
  ghost predicate Settles(cfg: Config, before: State, did: string, clock: Clock, full: set<nat>, after: State, looked: nat,
                          delivered: seq<Message>, more: bool) {
    if more then UnderWay(before, did, clock, full, after, looked, delivered)
    else DrainsOver(cfg, before, did, clock, full, after, delivered)
  }

  lemma BatchSettles(cfg: Config, before: State, did: string, clock: Clock, full: set<nat>, s: State, looked: nat,
                     done: seq<Message>, msgs: seq<Message>, stop: nat, sent: seq<Message>, after: State)
    requires Steady(clock.dequeues) && !before.closed && did != "" && Dequeued(before, did, clock, full, s, looked, done, msgs)
    requires Offered(clock, full, looked, |done|, msgs, stop, sent) && |msgs| <= BATCH && Ends(cfg, s, msgs, stop, after)
    ensures Settles(cfg, before, did, clock, full, after, looked + stop, done + sent, stop == |msgs| == BATCH)
  {
    var taken, rest :|
      BatchOut(before, did, clock, s, taken, msgs, rest) && looked == |taken| && Served(clock, taken, looked, full, done);
    ServedMore(clock, full, taken, done, msgs, stop, sent);
    if stop == |msgs| == BATCH {
      assert after == s;
      BatchDone(before, did, clock, full, s, taken, msgs, rest, done + sent);
    } else {
      BatchEnds(cfg, before, did, clock, full, s, taken, msgs, rest, stop, after, done + sent);
    }
  }

  /** A refused message, just dequeued, is never refused by its queue. */
  method Requeue(store: MemoryStore, msgs: seq<Message>, stop: nat)
    requires Valid(store.config, store.View()) && !store.closed && stop <= |msgs|
    requires stop < |msgs| ==> !Full(store.config, store.View(), msgs[stop].recipient)
    modifies store
    ensures Valid(store.config, store.View()) && !store.closed
    ensures Ends(store.config, old(store.View()), msgs, stop, store.View())
  {
    if stop < |msgs| {
      var err := store.Enqueue(msgs[stop]);
    }
  }

  /** One round of the loop: a batch, looked at whole or up to the first refusal. */
  method DeliverBatch(store: MemoryStore, did: string, clock: Clock, full: set<nat>, looked: nat, done: seq<Message>,
                      ghost before: State)
    returns (delivered: seq<Message>, looked': nat, more: bool)
    requires Steady(clock.dequeues) && Valid(store.config, store.View()) && !store.closed && !before.closed && did != ""
    requires UnderWay(before, did, clock, full, store.View(), looked, done)
    modifies store
    ensures Valid(store.config, store.View()) && !store.closed
    ensures Settles(store.config, before, did, clock, full, store.View(), looked', delivered, more)
    ensures more ==> |QueueOf(store.queues, did)| < |QueueOf(old(store.queues), did)|
  {
    ghost var was := store.View();
    var msgs, err := store.Dequeue(did, BATCH, DequeuedAt(clock, looked));
    ghost var s := store.View();
    DequeueBatch(before, did, clock, full, store.config, was, looked, done, s, msgs);
    var sent, stop := Offer(clock, full, looked, |done|, msgs);
    Requeue(store, msgs, stop);
    BatchSettles(store.config, before, did, clock, full, s, looked, done, msgs, stop, sent, store.View());
    delivered, looked', more := done + sent, looked + stop, stop == |msgs| && |msgs| >= BATCH;
  }

  method DeliverQueuedMessages(store: MemoryStore, did: string, clock: Clock, full: set<nat>)
    returns (delivered: seq<Message>)
    requires Steady(clock.dequeues) && Valid(store.config, store.View())
    modifies store
    ensures DrainsOver(store.config, old(store.View()), did, clock, full, store.View(), delivered)
    ensures did == "" || old(store.closed) ==> delivered == [] && store.View() == old(store.View())
    ensures Valid(store.config, store.View())
  {
    ghost var before := store.View();
    delivered := [];
    if did == "" || store.closed {
      assert DeliversOver(store.config, before, did, clock, full, before, [], [], 0, []);
      return;
    }
    DrainStarts(before, did, clock, full, store.config);
    var looked, more := 0, true;
    while more
      invariant Valid(store.config, store.View()) && !store.closed
      invariant Settles(store.config, before, did, clock, full, store.View(), looked, delivered, more)
      decreases more, |QueueOf(store.queues, did)|
    {
      delivered, looked, more := DeliverBatch(store, did, clock, full, looked, delivered, before);
    }
  }

  // ----- What becomes of each message -----

  /** The messages among the first `n` that had expired when looked at: they are neither delivered nor put back. */
  function Lapsed(clock: Clock, msgs: seq<Message>, n: nat): multiset<Message>
    requires n <= |msgs|
  {
    if n == 0 then multiset{} else Lapsed(clock, msgs, n - 1) + LapsedOne(clock, n - 1, msgs[n - 1])
  }

  function LapsedOne(clock: Clock, n: nat, m: Message): multiset<Message> {
    if m.Expired(LookedAt(clock, n)) then multiset{m} else multiset{}
  }

  /** The messages dequeued and not looked at: the rest of the batch in which the channel refused one. */
  function Dropped(taken: seq<Message>, n: nat): seq<Message> {
    if n < |taken| then taken[n + 1..] else []
  }

  /** What the queue holds in the end. */
  function Kept(taken: seq<Message>, n: nat, rest: seq<Message>): seq<Message> {
    if n < |taken| then rest + [taken[n]] else rest
  }

  function Firsts(msgs: seq<Message>, n: nat): multiset<Message>
    requires n <= |msgs|
  {
    if n == 0 then multiset{} else Firsts(msgs, n - 1) + multiset{msgs[n - 1]}
  }

  lemma {:induction false} FirstsAre(msgs: seq<Message>, n: nat)
    requires n <= |msgs|
    ensures Firsts(msgs, n) == multiset(msgs[..n])
  {
    if n > 0 {
      FirstsAre(msgs, n - 1);
      assert msgs[..n] == msgs[..n - 1] + [msgs[n - 1]];
    }
  }

  lemma LiveOrLapsedOne(clock: Clock, s: seq<Message>, n: nat, m: Message)
    ensures multiset(s + LiveOne(clock, n, m)) + LapsedOne(clock, n, m) == multiset(s) + multiset{m}
  {
  }

  lemma SumsGrow(live': multiset<Message>, live: multiset<Message>, lapsed: multiset<Message>, one: multiset<Message>,
                 m: multiset<Message>, firsts: multiset<Message>)
    requires live' + one == live + m && live + lapsed == firsts
    ensures live' + (lapsed + one) == firsts + m
  {
    assert live' + (lapsed + one) == (live' + one) + lapsed;
    assert (live + m) + lapsed == (live + lapsed) + m;
  }

  lemma OneMoreLooked(clock: Clock, n: nat, live: seq<Message>, lapsed: multiset<Message>, firsts: multiset<Message>, m: Message)
    requires multiset(live) + lapsed == firsts
    ensures multiset(live + LiveOne(clock, n, m)) + (lapsed + LapsedOne(clock, n, m)) == firsts + multiset{m}
  {
    LiveOrLapsedOne(clock, live, n, m);
    SumsGrow(multiset(live + LiveOne(clock, n, m)), multiset(live), lapsed, LapsedOne(clock, n, m), multiset{m}, firsts);
  }

  lemma LiveGrows(clock: Clock, msgs: seq<Message>, n: nat, lapsed: multiset<Message>, firsts: multiset<Message>)
    requires 0 < n <= |msgs| && multiset(Live(clock, 0, msgs, n - 1)) + lapsed == firsts
    ensures multiset(Live(clock, 0, msgs, n)) + (lapsed + LapsedOne(clock, n - 1, msgs[n - 1])) == firsts + multiset{msgs[n - 1]}
  {
    OneMoreLooked(clock, n - 1, Live(clock, 0, msgs, n - 1), lapsed, firsts, msgs[n - 1]);
    assert Live(clock, 0, msgs, n) == Live(clock, 0, msgs, n - 1) + LiveOne(clock, n - 1, msgs[n - 1]);
  }

  /** The first `n` messages are made up of the live and the lapsed. */
  ghost predicate Divided(clock: Clock, msgs: seq<Message>, n: nat)
    requires n <= |msgs|
  {
    exists lapsed :: lapsed == Lapsed(clock, msgs, n) && Sum(multiset(Live(clock, 0, msgs, n)), lapsed, Firsts(msgs, n))
  }

  ghost predicate Sum(a: multiset<Message>, b: multiset<Message>, sum: multiset<Message>) {
    a + b == sum
  }

  lemma DividedMore(clock: Clock, msgs: seq<Message>, n: nat)
    requires 0 < n <= |msgs| && Divided(clock, msgs, n - 1)
    ensures Divided(clock, msgs, n)
  {
    LiveGrows(clock, msgs, n, Lapsed(clock, msgs, n - 1), Firsts(msgs, n - 1));
    assert Sum(multiset(Live(clock, 0, msgs, n)), Lapsed(clock, msgs, n), Firsts(msgs, n));
  }

  lemma DividedAtFirst(clock: Clock, msgs: seq<Message>)
    ensures Divided(clock, msgs, 0)
  {
    assert Live(clock, 0, msgs, 0) == [];
    assert Sum(multiset([]), Lapsed(clock, msgs, 0), Firsts(msgs, 0));
  }

  lemma {:induction false} LiveOrLapsed(clock: Clock, msgs: seq<Message>, n: nat)
    requires n <= |msgs|
    ensures Divided(clock, msgs, n)
  {
    if n == 0 {
      DividedAtFirst(clock, msgs);
    } else {
      LiveOrLapsed(clock, msgs, n - 1);
      DividedMore(clock, msgs, n);
    }
  }

  lemma TakenParts(taken: seq<Message>, n: nat, rest: seq<Message>)
    requires n <= |taken|
    ensures multiset(taken) + multiset(rest) ==
            multiset(taken[..n]) + multiset(Dropped(taken, n)) + multiset(Kept(taken, n, rest))
  {
    if n < |taken| {
      assert taken == taken[..n] + [taken[n]] + taken[n + 1..];
    } else {
      assert taken[..n] == taken;
    }
  }

  lemma {:induction false} LiveSorted(clock: Clock, msgs: seq<Message>, n: nat)
    requires Sorted(msgs) && n <= |msgs|
    ensures Sorted(Live(clock, 0, msgs, n)) && forall m :: m in Live(clock, 0, msgs, n) ==> m in msgs[..n]
  {
    if n > 0 {
      LiveSorted(clock, msgs, n - 1);
      assert msgs[..n] == msgs[..n - 1] + [msgs[n - 1]];
      forall m | m in msgs[..n - 1] ensures m.queuedAt <= msgs[n - 1].queuedAt {
      }
    }
  }

  /**
    Whatever the clock and the channel do, the queue is made up of what was delivered, oldest
    first, what expired before it was offered, the rest of the batch in which the channel refused a
    message, which is less than a batch, and what is in the queue in the end.
   */
  lemma DrainAccountsForAll(cfg: Config, before: State, did: string, clock: Clock, full: set<nat>, after: State,
                            delivered: seq<Message>, taken: seq<Message>, n: nat, rest: seq<Message>)
    requires DeliversOver(cfg, before, did, clock, full, after, delivered, taken, n, rest) && !before.closed && did != ""
    ensures n <= |taken| && Sorted(delivered)
    ensures multiset(QueueOf(before.queues, did)) ==
            multiset(delivered) + Lapsed(clock, taken, n) + multiset(Dropped(taken, n)) + multiset(Kept(taken, n, rest))
    ensures |Dropped(taken, n)| < BATCH
  {
    TakenParts(taken, n, rest);
    LiveOrLapsed(clock, taken, n);
    FirstsAre(taken, n);
    LiveSorted(clock, taken, n);
  }

  lemma AppendLeaves(before: State, did: string, rest: seq<Message>, n: int, m: Message)
    requires m.recipient == did
    ensures Append(Leaving(before, did, rest, n), m) == Leaving(before, did, rest + [m], n - 1)
  {
    PutTwice(before.queues, did, rest, rest + [m]);
  }

  lemma TakenFiled(cfg: Config, s: State, did: string, first: int, last: int, taken: seq<Message>, rest: seq<Message>, m: Message)
    requires Valid(cfg, s) && !s.closed && TakenOver(QueueOf(s.queues, did), first, last, taken, rest) && m in taken
    ensures m.recipient == did
  {
    assert m in multiset(taken);
    assert m in multiset(QueueOf(s.queues, did));
  }

  /** In a store within its limit the refused message is put back at nobody's expense, and nothing else changes. */
  lemma PutBackFits(cfg: Config, before: State, did: string, clock: Clock, full: set<nat>, after: State,
                    delivered: seq<Message>, taken: seq<Message>, n: nat, rest: seq<Message>)
    requires DeliversOver(cfg, before, did, clock, full, after, delivered, taken, n, rest) && !before.closed && did != ""
    requires Valid(cfg, before) && WithinCapacity(cfg, before)
    ensures after == Leaving(before, did, Kept(taken, n, rest), |taken| - if n < |taken| then 1 else 0)
    ensures QueueOf(after.queues, did) == Kept(taken, n, rest)
    ensures forall d :: d != did ==> QueueOf(after.queues, d) == QueueOf(before.queues, d)
  {
    if n < |taken| {
      var s, m := Leaving(before, did, rest, |taken|), taken[n];
      TakenFiled(cfg, before, did, DequeuedAt(clock, 0), DequeuedAt(clock, n), taken, rest, m);
      AppendLeaves(before, did, rest, |taken|, m);
      assert !AtCapacity(cfg, s);
    }
    PutTwice(before.queues, did, Kept(taken, n, rest), rest);
  }

  lemma SameSumIff(a: multiset<Message>, b: multiset<Message>)
    ensures a + b == a <==> b == multiset{}
  {
    assert |a + b| == |a| + |b|;
  }

  lemma LossIff(q: multiset<Message>, delivered: multiset<Message>, a: multiset<Message>, b: seq<Message>, kept: multiset<Message>)
    requires q == delivered + a + multiset(b) + kept
    ensures q == delivered + kept <==> a == multiset{} && b == []
  {
    assert q == delivered + kept + (a + multiset(b));
    SameSumIff(delivered + kept, a + multiset(b));
    assert |a + multiset(b)| == |a| + |b|;
  }

  /** So a drain loses no message exactly when none expires on its way and a refused one is the last of its batch. */
  lemma NothingLostOverIff(cfg: Config, before: State, did: string, clock: Clock, full: set<nat>, after: State,
                           delivered: seq<Message>, taken: seq<Message>, n: nat, rest: seq<Message>)
    requires DeliversOver(cfg, before, did, clock, full, after, delivered, taken, n, rest) && !before.closed && did != ""
    requires Valid(cfg, before) && WithinCapacity(cfg, before)
    ensures n <= |taken|
    ensures multiset(QueueOf(before.queues, did)) == multiset(delivered) + multiset(QueueOf(after.queues, did)) <==>
            Lapsed(clock, taken, n) == multiset{} && n + 1 >= |taken|
  {
    DrainAccountsForAll(cfg, before, did, clock, full, after, delivered, taken, n, rest);
    PutBackFits(cfg, before, did, clock, full, after, delivered, taken, n, rest);
    LossIff(multiset(QueueOf(before.queues, did)), multiset(delivered), Lapsed(clock, taken, n), Dropped(taken, n),
            multiset(QueueOf(after.queues, did)));
  }

  // ----- A drain during which nothing expires -----

  /** Where the batch that holds position `n` of the order ends. */
  function BatchEnd(n: nat, len: nat): nat {
    var end := (n / BATCH + 1) * BATCH;
    if end < len then end else len
  }

  /** The messages the code neither delivers nor puts back: the rest of the batch it stopped in. */
  function Lost(order: seq<Message>, n: nat): seq<Message>
    requires n <= |order|
  {
    if n == |order| then [] else order[n + 1..BatchEnd(n, |order|)]
  }

  /** The channel took the first messages of the order, and refused the next one, if there is one. */
  ghost predicate DeliveredPrefix(order: seq<Message>, delivered: seq<Message>, full: set<nat>) {
    && |delivered| <= |order| && delivered == order[..|delivered|]
    && (forall k :: 0 <= k < |delivered| ==> k !in full)
    && (|delivered| < |order| ==> |delivered| in full)
  }

  /** A refused message is the last of the queue again. */
  ghost predicate PutBack(order: seq<Message>, n: nat, left: seq<Message>) {
    n < |order| ==> left != [] && left[|left| - 1] == order[n]
  }

  ghost predicate Accounted(q: seq<Message>, delivered: seq<Message>, lost: seq<Message>, left: seq<Message>) {
    multiset(q) == multiset(delivered) + multiset(lost) + multiset(left)
  }

  /**
    `order` is the queue's unexpired messages, oldest first. The first `|delivered|` of them are
    delivered; the next one, if the channel refused it, goes to the end of the queue.
   */
  ghost predicate Delivers(before: State, did: string, now: int, full: set<nat>, after: State,
                           delivered: seq<Message>, order: seq<Message>, left: seq<Message>) {
    if before.closed || did == "" then after == before && delivered == []
    else
      && PendingOrder(QueueOf(before.queues, did), now, order)
      && DeliveredPrefix(order, delivered, full)
      && PutBack(order, |delivered|, left)
      && Accounted(QueueOf(before.queues, did), delivered, Lost(order, |delivered|), left)
      && after == Leaving(before, did, left, |delivered| + |Lost(order, |delivered|)|)
  }

  ghost predicate Drains(before: State, did: string, now: int, full: set<nat>, after: State, delivered: seq<Message>) {
    exists order, left :: Delivers(before, did, now, full, after, delivered, order, left)
  }

  lemma DrainsBy(before: State, did: string, now: int, full: set<nat>, after: State,
                 delivered: seq<Message>, order: seq<Message>, left: seq<Message>, lost: seq<Message>)
    requires !before.closed && did != "" && PendingOrder(QueueOf(before.queues, did), now, order)
    requires DeliveredPrefix(order, delivered, full) && PutBack(order, |delivered|, left)
    requires lost == Lost(order, |delivered|) && Accounted(QueueOf(before.queues, did), delivered, lost, left)
    requires after == Leaving(before, did, left, |delivered| + |lost|)
    ensures Drains(before, did, now, full, after, delivered)
  {
    assert Delivers(before, did, now, full, after, delivered, order, left);
  }

  /** What has expired by now had expired at that time, and nothing else. */
  ghost predicate SameAt(q: seq<Message>, now: int, time: int) {
    forall m :: m in q ==> (m.Expired(time) <==> m.Expired(now))
  }

  ghost predicate NothingExpires(q: seq<Message>, clock: Clock, now: int) {
    forall n: nat :: SameAt(q, now, DequeuedAt(clock, n)) && SameAt(q, now, LookedAt(clock, n))
  }

  lemma {:induction false} AllLive(clock: Clock, msgs: seq<Message>, n: nat)
    requires n <= |msgs| && forall i :: 0 <= i < |msgs| ==> !msgs[i].Expired(LookedAt(clock, i))
    ensures Live(clock, 0, msgs, n) == msgs[..n]
  {
    if n > 0 {
      AllLive(clock, msgs, n - 1);
      assert msgs[..n] == msgs[..n - 1] + [msgs[n - 1]];
    }
  }

  lemma TakenAtOnce(q: seq<Message>, clock: Clock, now: int, n: nat, taken: seq<Message>, rest: seq<Message>)
    requires NothingExpires(q, clock, now) && Took(q, clock, n, taken, rest)
    ensures TakenFrom(q, now, taken, rest) && SameAt(rest, now, DequeuedAt(clock, n))
    ensures forall i :: 0 <= i < |taken| ==> !taken[i].Expired(LookedAt(clock, i))
  {
    forall m ensures m in q <==> m in taken || m in rest {
      assert m in multiset(q) <==> m in multiset(taken) || m in multiset(rest);
    }
    assert SameAt(q, now, DequeuedAt(clock, 0)) && SameAt(q, now, DequeuedAt(clock, n));
    forall i | 0 <= i < |taken| ensures !taken[i].Expired(LookedAt(clock, i)) {
      assert taken[i] in taken && SameAt(q, now, LookedAt(clock, i));
    }
  }

  lemma NoneUnexpired(rest: seq<Message>, now: int, time: int)
    requires SameAt(rest, now, time) && Exhausted(rest, time)
    ensures Unexpired(rest, now) == []
  {
    UnexpiredIs(rest, now);
    assert forall m :: m !in Unexpired(rest, now);
  }

  lemma BatchEndIs(n: nat, len: nat, later: nat)
    requires n < len <= n / BATCH * BATCH + BATCH && (len % BATCH != 0 ==> later == 0)
    ensures BatchEnd(n, len + later) == len
  {
  }

  lemma OrderServed(order: seq<Message>, taken: seq<Message>, later: seq<Message>, n: nat, full: set<nat>, rest: seq<Message>)
    requires order == taken + later && n <= |taken| <= n / BATCH * BATCH + BATCH && Room(full, 0, n)
    requires n == |taken| || |taken| % BATCH != 0 ==> later == []
    requires n < |taken| ==> n in full
    ensures DeliveredPrefix(order, taken[..n], full) && PutBack(order, n, Kept(taken, n, rest))
    ensures Lost(order, n) == Dropped(taken, n)
  {
    assert order[..n] == taken[..n];
    if n < |taken| {
      BatchEndIs(n, |taken|, |later|);
      assert order[n + 1..|taken|] == taken[n + 1..];
    }
  }

  lemma OrderOfDrain(q: seq<Message>, clock: Clock, now: int, full: set<nat>, delivered: seq<Message>,
                     taken: seq<Message>, n: nat, rest: seq<Message>)
    requires NothingExpires(q, clock, now) && Took(q, clock, n, taken, rest) && Sorted(rest)
    requires Served(clock, taken, n, full, delivered) && InLastBatch(clock, n, taken, rest)
    ensures var order := taken + Unexpired(rest, now);
            && delivered == taken[..n] && |delivered| == n && PendingOrder(q, now, order)
            && DeliveredPrefix(order, delivered, full) && PutBack(order, n, Kept(taken, n, rest))
            && Lost(order, n) == Dropped(taken, n)
  {
    TakenAtOnce(q, clock, now, n, taken, rest);
    AllLive(clock, taken, n);
    if Exhausted(rest, DequeuedAt(clock, n)) {
      NoneUnexpired(rest, now, DequeuedAt(clock, n));
    }
    TakenIsPrefix(q, now, taken, rest);
    OrderServed(taken + Unexpired(rest, now), taken, Unexpired(rest, now), n, full, rest);
  }

  /** If nothing in the queue expires meanwhile, a drain is as if it happened at one instant. */
  lemma DrainsAsAtOnce(cfg: Config, before: State, did: string, clock: Clock, now: int, full: set<nat>, after: State,
                       delivered: seq<Message>)
    requires DrainsOver(cfg, before, did, clock, full, after, delivered) && !before.closed && did != ""
    requires Valid(cfg, before) && WithinCapacity(cfg, before)
    requires NothingExpires(QueueOf(before.queues, did), clock, now)
    ensures Drains(before, did, now, full, after, delivered)
  {
    var taken, n: nat, rest :| DeliversOver(cfg, before, did, clock, full, after, delivered, taken, n, rest);
    var q, order := QueueOf(before.queues, did), taken + Unexpired(rest, now);
    OrderOfDrain(q, clock, now, full, delivered, taken, n, rest);
    PutBackFits(cfg, before, did, clock, full, after, delivered, taken, n, rest);
    TakenParts(taken, n, rest);
    DrainsBy(before, did, now, full, after, delivered, order, Kept(taken, n, rest), Dropped(taken, n));
  }

  /** Delivered, put back, still queued and lost make up the queue; fewer than a batch are lost. */
  lemma AccountsAtOnce(before: State, did: string, now: int, full: set<nat>, after: State,
                       delivered: seq<Message>, order: seq<Message>, left: seq<Message>)
    requires Delivers(before, did, now, full, after, delivered, order, left) && !before.closed && did != ""
    ensures multiset(QueueOf(before.queues, did)) ==
            multiset(delivered) + multiset(QueueOf(after.queues, did)) + multiset(Lost(order, |delivered|))
    ensures |Lost(order, |delivered|)| <= BATCH - 1
    ensures forall d :: d != did ==> QueueOf(after.queues, d) == QueueOf(before.queues, d)
  {
    assert QueueOf(after.queues, did) == left;
    var n := |delivered|;
    assert n < |order| ==> BatchEnd(n, |order|) <= n + BATCH;
  }

  lemma LostIff(order: seq<Message>, n: nat)
    requires n <= |order|
    ensures Lost(order, n) == [] <==> n == |order| || n + 1 == |order| || (n + 1) % BATCH == 0
  {
    var b := n / BATCH;
    assert b * BATCH <= n < (b + 1) * BATCH;
    if n < |order| {
      assert Lost(order, n) == [] <==> n + 1 == BatchEnd(n, |order|);
      if (n + 1) % BATCH == 0 {
        assert n + 1 == (b + 1) * BATCH;
      }
    }
  }

  /** The first of `pending` messages that the channel has no room for. */
  ghost predicate FirstRefused(full: set<nat>, pending: nat, n: nat) {
    n < pending && n in full && forall k :: 0 <= k < n ==> k !in full
  }

  /** All that a drain delivers is a matter of the queue and the channel. */
  lemma DeliveredUpTo(before: State, did: string, now: int, full: set<nat>, after: State,
                      delivered: seq<Message>, order: seq<Message>, left: seq<Message>)
    requires Delivers(before, did, now, full, after, delivered, order, left) && !before.closed && did != ""
    ensures |order| == |Unexpired(QueueOf(before.queues, did), now)|
    ensures |delivered| < |order| ==> FirstRefused(full, |order|, |delivered|)
    ensures forall n: nat :: FirstRefused(full, |order|, n) ==> n == |delivered|
  {
    assert |multiset(order)| == |multiset(Unexpired(QueueOf(before.queues, did), now))|;
  }

  /**
    A drain loses no message exactly when the channel has room for all that is pending, or the
    first message it refuses is the last one pending or the last of a batch: at position `n`
    with `n + 1` a multiple of 100.
   */
  lemma NothingLostIff(before: State, did: string, now: int, full: set<nat>, after: State, delivered: seq<Message>)
    requires Drains(before, did, now, full, after, delivered) && !before.closed && did != ""
    ensures var q := QueueOf(before.queues, did);
            multiset(q) == multiset(delivered) + multiset(QueueOf(after.queues, did)) <==>
            forall n: nat :: FirstRefused(full, |Unexpired(q, now)|, n) ==> n + 1 == |Unexpired(q, now)| || (n + 1) % BATCH == 0
  {
    var order, left :| Delivers(before, did, now, full, after, delivered, order, left);
    var lost := Lost(order, |delivered|);
    DeliveredUpTo(before, did, now, full, after, delivered, order, left);
    AccountsAtOnce(before, did, now, full, after, delivered, order, left);
    LostIff(order, |delivered|);
    assert multiset(lost) == multiset{} <==> lost == [] by {
      assert |multiset(lost)| == |lost|;
    }
    SameSumIff(multiset(delivered) + multiset(QueueOf(after.queues, did)), multiset(lost));
  }

  lemma BothUnexpired(a: Message, b: Message, now: int)
    requires !a.Expired(now) && !b.Expired(now)
    ensures Unexpired([a, b], now) == [a, b]
  {
    assert [a, b][..1] == [a] && Unexpired([a], now) == [a];
  }

  /** A loss: two messages wait, the channel has no room for the first, and the second is gone. */
  lemma SecondOfTwoLost(a: Message, b: Message, did: string, now: int)
    requires did != "" && a.queuedAt <= b.queuedAt && !a.Expired(now) && !b.Expired(now)
    ensures var before, after := State(map[did := [a, b]], map[], 2, false), State(map[did := [a]], map[], 1, false);
            Drains(before, did, now, {0}, after, []) && multiset([a, b]) != multiset(QueueOf(after.queues, did))
  {
    var before, after := State(map[did := [a, b]], map[], 2, false), State(map[did := [a]], map[], 1, false);
    BothUnexpired(a, b, now);
    assert BatchEnd(0, 2) == 2 && Lost([a, b], 0) == [b];
    assert after == Leaving(before, did, [a], 1);
    DrainsBy(before, did, now, {0}, after, [], [a, b], [a], [b]);
    assert |multiset([a, b])| == 2 && |multiset([a])| == 1;
  }

  /** Another: a message that has not expired when it is dequeued, and has when it is looked at. */
  lemma LapsedMessageLost(cfg: Config, m: Message, did: string)
    requires did != ""
    ensures var before, after := State(map[did := [m]], map[], 1, false), State(map[], map[], 0, false);
            DrainsOver(cfg, before, did, Clock([m.expiresAt], [m.expiresAt + 1]), {}, after, [])
  {
    var before, after := State(map[did := [m]], map[], 1, false), State(map[], map[], 0, false);
    var clock := Clock([m.expiresAt], [m.expiresAt + 1]);
    assert Live(clock, 0, [m], 1) == [];
    assert TakenOver([m], DequeuedAt(clock, 0), DequeuedAt(clock, 1), [m], []);
    assert after == Leaving(before, did, [], 1);
    DrainsOverBy(cfg, before, did, clock, {}, after, [], [m], 1, []);
  }
}
