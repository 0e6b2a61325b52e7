/**
  The conversation store without its indexes and without composed keys: threads, messages, and
  receipts by message and recipient. The store with its indexes does what this one does, call by
  call, so its indexes and key prefixes are never seen from outside.
 */
module ConversationPlain {
  import opened Basics
  import opened Conversation

  datatype Plain = Plain(threads: map<Uuid, Thread>, messages: map<Uuid, Message>, receipts: map<(Uuid, string), Receipt>,
                         closed: bool)

  const EmptyPlain := Plain(map[], map[], map[], false)

  /** Nothing but the messages that these are about goes. */
  function WithoutMessages(p: Plain, gone: set<Uuid>): Plain {
    p.(messages := map id | id in p.messages && id !in gone :: p.messages[id],
       receipts := map key | key in p.receipts && key.0 !in gone :: p.receipts[key])
  }

  function CountBy(p: Plain, tid: Uuid, d: int): Plain {
    if tid in p.threads
    then p.(threads := p.threads[tid := p.threads[tid].(messageCount := p.threads[tid].messageCount + d)])
    else p
  }

  function Receipted(p: Plain, id: Uuid, did: string, now: int, read: bool): Plain {
    var was := if (id, did) in p.receipts then p.receipts[(id, did)] else Receipt(id, did, None, None);
    var delivered := if was.deliveredAt.Some? then was.deliveredAt else Some(now);
    p.(receipts := p.receipts[(id, did) := Receipt(was.messageId, was.recipient, delivered, if read then Some(now) else was.readAt)])
  }

  function Do(p: Plain, op: Op, now: int): Plain {
    if op.Close? then Plain(map[], map[], map[], true)
    else if p.closed then p
    else
      match op
      case CreateThread(t) => p.(threads := p.threads[t.id := t])
      case UpdateThread(t) => if t.id in p.threads then p.(threads := p.threads[t.id := t]) else p
      case DeleteThread(id) =>
        if id in p.threads
        then WithoutMessages(p.(threads := p.threads - {id}), set x | x in p.messages && p.messages[x].threadId == id)
        else p
      case SaveMessage(m) =>
        if m.threadId in p.threads then
          var t := p.threads[m.threadId];
          p.(messages := p.messages[m.id := m],
             threads := p.threads[m.threadId := Thread(t.id, t.title, t.participants, now, Some(m.timestamp), t.messageCount + 1)])
        else p
      case DeleteMessage(id) =>
        if id in p.messages then WithoutMessages(CountBy(p, p.messages[id].threadId, -1), {id}) else p
      case MarkDelivered(id, did) => if id in p.messages then Receipted(p, id, did, now, false) else p
      case MarkRead(id, did) => if id in p.messages then Receipted(p, id, did, now, true) else p
      case Close => p
  }

  // ----- Refinement -----

  function Get(receipts: map<string, Receipt>, key: string): Option<Receipt> {
    if key in receipts then Some(receipts[key]) else None
  }

  function GetPlain(receipts: map<(Uuid, string), Receipt>, id: Uuid, did: string): Option<Receipt> {
    if (id, did) in receipts then Some(receipts[(id, did)]) else None
  }

  ghost predicate SameReceipts(receipts: map<string, Receipt>, plain: map<(Uuid, string), Receipt>) {
    forall id: Uuid, did: string :: Get(receipts, ReceiptKey(id, did)) == GetPlain(plain, id, did)
  }

  ghost predicate Refines(b: Book, p: Plain) {
    b.threads == p.threads && b.messages == p.messages && b.closed == p.closed && SameReceipts(b.receipts, p.receipts)
  }

  lemma ForgetRefines(b: Book, p: Plain, gone: set<Uuid>)
    requires ReceiptsAnchored(b.messages, b.receipts) && SameReceipts(b.receipts, p.receipts)
    ensures SameReceipts(Forget(b.receipts, gone), WithoutMessages(p, gone).receipts)
  {
    ForgetKeepsAnchored(b.messages, b.receipts, gone);
    forall id: Uuid, did: string
      ensures Get(Forget(b.receipts, gone), ReceiptKey(id, did)) == GetPlain(WithoutMessages(p, gone).receipts, id, did)
    {
      var key := ReceiptKey(id, did);
      assert Get(b.receipts, key) == GetPlain(p.receipts, id, did);
      if key in b.receipts {
        assert Anchored(b.messages, key, b.receipts[key]);
        ReceiptKeyInjective(id, did, b.receipts[key].messageId, b.receipts[key].recipient);
      }
    }
  }

  lemma MarkRefines(receipts: map<string, Receipt>, plain: map<(Uuid, string), Receipt>, id: Uuid, did: string, r: Receipt)
    requires SameReceipts(receipts, plain)
    ensures SameReceipts(receipts[ReceiptKey(id, did) := r], plain[(id, did) := r])
  {
    forall x: Uuid, y: string
      ensures Get(receipts[ReceiptKey(id, did) := r], ReceiptKey(x, y)) == GetPlain(plain[(id, did) := r], x, y)
    {
      ReceiptKeyInjective(id, did, x, y);
      assert Get(receipts, ReceiptKey(x, y)) == GetPlain(plain, x, y);
    }
  }

  lemma ReceiptRefines(b: Book, p: Plain, id: Uuid, did: string, now: int, read: bool)
    requires SameReceipts(b.receipts, p.receipts)
    ensures SameReceipts(if read then Read(b.receipts, id, did, now) else Delivered(b.receipts, id, did, now),
                         Receipted(p, id, did, now, read).receipts)
  {
    var key := ReceiptKey(id, did);
    assert Get(b.receipts, key) == GetPlain(p.receipts, id, did);
    MarkRefines(b.receipts, p.receipts, id, did, Receipted(p, id, did, now, read).receipts[(id, did)]);
    var marked := if read then Read(b.receipts, id, did, now) else Delivered(b.receipts, id, did, now);
    assert marked == b.receipts[key := Receipted(p, id, did, now, read).receipts[(id, did)]];
  }

  lemma DeleteRefines(b: Book, p: Plain, id: Uuid)
    requires Agree(b) && Refines(b, p) && id in b.threads
    ensures Refines(Deleted(b, id), WithoutMessages(p.(threads := p.threads - {id}), set x | x in p.messages && p.messages[x].threadId == id))
  {
    var gone, theirs := Elements(List(b.byThread, id)), set x | x in p.messages && p.messages[x].threadId == id;
    DeletesItsMessages(b, id);
    forall mid: Uuid ensures mid in gone <==> mid in theirs {
      assert Times(b.byThread, id, mid) == if Sits(b.messages, id, mid) then 1 else 0;
    }
    assert gone == theirs;
    ForgetRefines(b, p, gone);
  }

  lemma DeleteMessageRefines(b: Book, p: Plain, id: Uuid)
    requires Agree(b) && Refines(b, p) && id in b.messages
    ensures Refines(MessageDeleted(b, id), WithoutMessages(CountBy(p, p.messages[id].threadId, -1), {id}))
  {
    ForgetRefines(b, p, {id});
  }

  lemma StepRefines(b: Book, p: Plain, op: Op, now: int)
    requires Agree(b) && Refines(b, p)
    ensures Refines(Apply(b, op, now), Do(p, op, now))
  {
    if !b.closed {
      match op
      case DeleteThread(id) =>
        if id in b.threads {
          DeleteRefines(b, p, id);
        }
      case DeleteMessage(id) =>
        if id in b.messages {
          DeleteMessageRefines(b, p, id);
        }
      case MarkDelivered(id, did) => ReceiptRefines(b, p, id, did, now, false);
      case MarkRead(id, did) => ReceiptRefines(b, p, id, did, now, true);
      case _ =>
    }
  }

  function DoAll(p: Plain, steps: seq<Step>): Plain
    decreases |steps|
  {
    if steps == [] then p else DoAll(Do(p, steps[0].op, steps[0].now), steps[1..])
  }

  /** Through every run of careful calls the store holds what the plain one holds. */
  lemma {:induction false} RunRefines(b: Book, now: int, steps: seq<Step>, end: Book, p: Plain)
    requires Agree(b) && Refines(b, p) && Runs(b, now, steps, end)
    ensures Refines(end, DoAll(p, steps))
    decreases |steps|
  {
    if steps != [] {
      StepAgrees(b, steps[0].op, steps[0].now);
      StepRefines(b, p, steps[0].op, steps[0].now);
      RunRefines(Apply(b, steps[0].op, steps[0].now), steps[0].now, steps[1..], end, Do(p, steps[0].op, steps[0].now));
    }
  }

  lemma EmptyRefines()
    ensures Refines(EmptyBook, EmptyPlain)
  {
  }

  // ----- What the calls are for -----

  /** After a call that succeeds, the receipt says read now, and delivered then or before; it is the only one that changes. */
  lemma MarkReadIsRead(b: Book, id: Uuid, did: string, now: int)
    requires !b.closed && id in b.messages
    ensures var end, key := Apply(b, MarkRead(id, did), now), ReceiptKey(id, did);
            && key in end.receipts && end.receipts[key].readAt == Some(now) && end.receipts[key].deliveredAt.Some?
            && (key !in b.receipts || b.receipts[key].deliveredAt.None? ==> end.receipts[key].deliveredAt == Some(now))
            && (key in b.receipts && b.receipts[key].deliveredAt.Some? ==> end.receipts[key].deliveredAt == b.receipts[key].deliveredAt)
            && (forall k :: k != key ==> Get(end.receipts, k) == Get(b.receipts, k))
            && end == b.(receipts := end.receipts)
  {
  }

  lemma MarkDeliveredIsDelivered(b: Book, id: Uuid, did: string, now: int)
    requires !b.closed && id in b.messages
    ensures var end, key := Apply(b, MarkDelivered(id, did), now), ReceiptKey(id, did);
            && key in end.receipts && end.receipts[key].deliveredAt.Some?
            && (key !in b.receipts || b.receipts[key].deliveredAt.None? ==> end.receipts[key].deliveredAt == Some(now))
            && (key in b.receipts && b.receipts[key].deliveredAt.Some? ==> end.receipts[key] == b.receipts[key])
            && (forall k :: k != key ==> Get(end.receipts, k) == Get(b.receipts, k))
            && end == b.(receipts := end.receipts)
  {
  }

  /** No thread was updated at or after `now`. */
  ghost predicate AllBefore(b: Book, now: int) {
    forall id :: id in b.threads ==> b.threads[id].updatedAt < now
  }

  /** A message saved now brings its thread to the front of every listing that it belongs to. */
  lemma SavedComesFirst(b: Book, m: Message, now: int, f: ThreadFilter, page: seq<Thread>)
    requires Agree(b) && !b.closed && m.threadId in b.threads && m.id !in b.messages && AllBefore(b, now)
    requires f.did == "" || f.did in b.threads[m.threadId].participants
    requires (f.since.Some? ==> f.since.value <= now) && f.offset <= 0
    requires ListsThreads(Apply(b, SaveMessage(m), now), f, page)
    ensures page != [] && page[0].id == m.threadId && page[0].updatedAt == now && page[0].lastMessage == Some(m.timestamp)
    ensures page[0].messageCount == b.threads[m.threadId].messageCount + 1
  {
    var end := Apply(b, SaveMessage(m), now);
    StepAgrees(b, SaveMessage(m), now);
    SavedIsNewest(b, m, now, f);
    IndexedListIsScan(end, f, page);
    FirstOfPage(end, f, page, end.threads[m.threadId]);
  }

  lemma SavedIsNewest(b: Book, m: Message, now: int, f: ThreadFilter)
    requires !b.closed && m.threadId in b.threads && AllBefore(b, now)
    requires f.did == "" || f.did in b.threads[m.threadId].participants
    requires f.since.Some? ==> f.since.value <= now
    requires forall id :: id in b.threads ==> b.threads[id].id == id
    ensures var end := Apply(b, SaveMessage(m), now);
            && m.threadId in end.threads
            && var t := end.threads[m.threadId];
               && t.id == m.threadId && t.updatedAt == now && t.lastMessage == Some(m.timestamp)
               && t.messageCount == b.threads[m.threadId].messageCount + 1
               && Leads(end, f, t)
  {
  }

  /** The thread is asked for, and was updated after every other that is. */
  ghost predicate Leads(b: Book, f: ThreadFilter, t: Thread) {
    t in ThreadScan(b, f) && forall u :: u in ThreadScan(b, f) && u != t ==> u.updatedAt < t.updatedAt
  }

  lemma FirstOfPage(b: Book, f: ThreadFilter, page: seq<Thread>, t: Thread)
    requires Leads(b, f, t) && f.offset <= 0
    requires exists sorted ::
               multiset(sorted) == multiset(ThreadScan(b, f)) && NewestFirst(sorted) && page == Page(sorted, f.offset, f.limit)
    ensures page != [] && page[0] == t
  {
    var sorted :| multiset(sorted) == multiset(ThreadScan(b, f)) && NewestFirst(sorted) && page == Page(sorted, f.offset, f.limit);
    NewestIsFirst(b, f, sorted, t);
  }

  lemma NewestIsFirst(b: Book, f: ThreadFilter, sorted: seq<Thread>, t: Thread)
    requires multiset(sorted) == multiset(ThreadScan(b, f)) && NewestFirst(sorted) && Leads(b, f, t)
    ensures sorted != [] && sorted[0] == t
  {
    assert t in multiset(sorted);
    var i :| 0 <= i < |sorted| && sorted[i] == t;
    assert sorted[0] in multiset(sorted);
    assert i > 0 ==> sorted[0].updatedAt >= sorted[i].updatedAt;
  }

  // ----- What a listing without limit shows -----

  /** A listing of a thread shows exactly the messages of it in the span of time asked for, of the kinds asked for. */
  lemma ShowsMessagesAskedFor(b: Book, f: MessageFilter, page: seq<Message>, m: Message)
    requires Agree(b) && ListsMessages(b, f, page) && f.limit <= 0 && f.offset <= 0
    ensures m in page <==>
            && m.id in b.messages && b.messages[m.id] == m && m.threadId == f.threadId
            && (f.since == None || f.since.value <= m.timestamp) && (f.before == None || m.timestamp <= f.before.value)
            && (|f.kinds| == 0 || exists k :: 0 <= k < |f.kinds| && f.kinds[k] == m.kind)
  {
    IndexedMessagesAreScan(b, f, page);
    var sorted :| multiset(sorted) == multiset(MessageScan(b, f)) && InSequence(sorted) && page == Page(sorted, f.offset, f.limit);
    assert m in sorted <==> m in multiset(sorted);
    assert m in MessageScan(b, f) <==>
           m.id in b.messages && b.messages[m.id] == m && m.threadId == f.threadId && MessageMatches(m, f);
  }

  /** A listing of threads shows exactly those of the participant asked for that were updated since. */
  lemma ShowsThreadsAskedFor(b: Book, f: ThreadFilter, page: seq<Thread>, t: Thread)
    requires Agree(b) && ListsThreads(b, f, page) && f.limit <= 0 && f.offset <= 0
    ensures t in page <==>
            && t.id in b.threads && b.threads[t.id] == t && (f.did == "" || exists k :: 0 <= k < |t.participants| && t.participants[k] == f.did)
            && (f.since == None || f.since.value <= t.updatedAt)
  {
    IndexedListIsScan(b, f, page);
    var sorted :| multiset(sorted) == multiset(ThreadScan(b, f)) && NewestFirst(sorted) && page == Page(sorted, f.offset, f.limit);
    assert t in sorted <==> t in multiset(sorted);
    assert t in ThreadScan(b, f) <==>
           t.id in b.threads && b.threads[t.id] == t && (f.did != "" ==> f.did in t.participants) && ThreadMatches(t, f);
  }

  // ----- Message counts -----

  function MessagesOf(messages: map<Uuid, Message>, tid: Uuid): set<Uuid> {
    set x | x in messages && messages[x].threadId == tid
  }

  /** Every message is in a stored thread, and every thread counts its messages. */
  ghost predicate Counted(p: Plain) {
    && (forall x :: x in p.messages ==> p.messages[x].threadId in p.threads)
    && (forall tid :: tid in p.threads ==> p.threads[tid].messageCount == |MessagesOf(p.messages, tid)|)
  }

  /** New threads start at zero, and an update leaves the count as it found it. */
  predicate CountKept(p: Plain, op: Op) {
    match op
    case CreateThread(t) => t.id !in p.threads && t.messageCount == 0
    case UpdateThread(t) => t.id in p.threads ==> t.messageCount == p.threads[t.id].messageCount
    case SaveMessage(m) => m.id !in p.messages
    case _ => true
  }

  lemma SaveCounts(messages: map<Uuid, Message>, m: Message, tid: Uuid)
    requires m.id !in messages
    ensures |MessagesOf(messages[m.id := m], tid)| == |MessagesOf(messages, tid)| + if tid == m.threadId then 1 else 0
  {
    var was, now := MessagesOf(messages, tid), MessagesOf(messages[m.id := m], tid);
    if tid == m.threadId {
      assert now == was + {m.id} && m.id !in was;
    } else {
      assert now == was;
    }
  }

  lemma MessagesLeft(messages: map<Uuid, Message>, left: map<Uuid, Message>, id: Uuid, tid: Uuid)
    requires left.Keys == messages.Keys - {id} && forall x :: x in left ==> left[x] == messages[x]
    ensures MessagesOf(left, tid) == MessagesOf(messages, tid) - {id}
  {
  }

  lemma DeleteCounts(messages: map<Uuid, Message>, left: map<Uuid, Message>, id: Uuid, tid: Uuid)
    requires id in messages && left.Keys == messages.Keys - {id} && forall x :: x in left ==> left[x] == messages[x]
    ensures |MessagesOf(left, tid)| == |MessagesOf(messages, tid)| - if tid == messages[id].threadId then 1 else 0
  {
    MessagesLeft(messages, left, id, tid);
    var was := MessagesOf(messages, tid);
    assert id in was <==> tid == messages[id].threadId;
    assert id !in was ==> was - {id} == was;
  }

  lemma DeleteThreadCounts(p: Plain, id: Uuid, now: int, tid: Uuid)
    requires id in p.threads && !p.closed && tid != id
    ensures MessagesOf(Do(p, DeleteThread(id), now).messages, tid) == MessagesOf(p.messages, tid)
  {
  }

  lemma OthersCount(p: Plain, op: Op, now: int, tid: Uuid)
    requires !p.closed && !op.SaveMessage? && !op.DeleteMessage? && !op.DeleteThread? && !op.Close?
    ensures MessagesOf(Do(p, op, now).messages, tid) == MessagesOf(p.messages, tid)
  {
  }

  lemma StepCounted(p: Plain, op: Op, now: int)
    requires Counted(p) && CountKept(p, op)
    ensures Counted(Do(p, op, now))
  {
    var end := Do(p, op, now);
    if !p.closed && end != p && !op.Close? {
      StepKeepsThreads(p, op, now);
      forall tid | tid in end.threads ensures end.threads[tid].messageCount == |MessagesOf(end.messages, tid)| {
        match op
        case SaveMessage(m) => SaveCounts(p.messages, m, tid);
        case DeleteMessage(id) => DeleteCounts(p.messages, end.messages, id, tid);
        case DeleteThread(id) => DeleteThreadCounts(p, id, now, tid);
        case _ =>
          OthersCount(p, op, now, tid);
          NewThreadIsEmpty(p, tid);
      }
    }
  }

  lemma StepKeepsThreads(p: Plain, op: Op, now: int)
    requires forall x :: x in p.messages ==> p.messages[x].threadId in p.threads
    ensures var end := Do(p, op, now); forall x :: x in end.messages ==> end.messages[x].threadId in end.threads
  {
  }

  lemma NewThreadIsEmpty(p: Plain, tid: Uuid)
    requires Counted(p)
    ensures tid !in p.threads ==> MessagesOf(p.messages, tid) == {}
  {
  }

  ghost predicate AllKept(p: Plain, steps: seq<Step>)
    decreases |steps|
  {
    steps == [] || (CountKept(p, steps[0].op) && AllKept(Do(p, steps[0].op, steps[0].now), steps[1..]))
  }

  /** If no caller meddles with the count of a thread, it is the number of its messages in every run. */
  lemma {:induction false} CountsAreRight(p: Plain, steps: seq<Step>)
    requires Counted(p) && AllKept(p, steps)
    ensures Counted(DoAll(p, steps))
    decreases |steps|
  {
    if steps != [] {
      StepCounted(p, steps[0].op, steps[0].now);
      CountsAreRight(Do(p, steps[0].op, steps[0].now), steps[1..]);
    }
  }

  /** So every store that was ever new holds what the plain one holds, and counts right if nobody meddles. */
  lemma EveryStoreIsPlain(now: int, steps: seq<Step>, end: Book)
    requires Runs(EmptyBook, now, steps, end)
    ensures Refines(end, DoAll(EmptyPlain, steps))
    ensures AllKept(EmptyPlain, steps) ==>
              forall tid :: tid in end.threads ==> end.threads[tid].messageCount == |MessagesOf(end.messages, tid)|
  {
    EmptyAgrees();
    EmptyRefines();
    RunRefines(EmptyBook, now, steps, end, EmptyPlain);
    if AllKept(EmptyPlain, steps) {
      CountsAreRight(EmptyPlain, steps);
    }
  }
}
