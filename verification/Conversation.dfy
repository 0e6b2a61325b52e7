/**
  The conversation store of `pkg/conversation/memory.go`: threads, messages and receipts, and two
  indexes kept by hand, from participants to threads and from threads to messages. Here are the
  operations as functions on values, what the indexes must agree with, exactly which calls keep
  that agreement, and what the listings then return.

  Every operation runs under the store's lock. A UUID is its canonical text of 36 characters.
 */
module Conversation {
  import opened Basics
  import opened Sorting

  type Uuid = s: string | |s| == 36 witness seq(36, _ => '0')

  datatype Thread = Thread(id: Uuid, title: string, participants: seq<string>, updatedAt: int,
                           lastMessage: Option<int>, messageCount: int)

  datatype Message = Message(id: Uuid, threadId: Uuid, kind: string, timestamp: int, seqNo: int, body: string)

  datatype Receipt = Receipt(messageId: Uuid, recipient: string, deliveredAt: Option<int>, readAt: Option<int>)

  type Index<!K> = map<K, seq<Uuid>>

  datatype Book = Book(threads: map<Uuid, Thread>, messages: map<Uuid, Message>, receipts: map<string, Receipt>,
                       byThread: Index<Uuid>, byDid: Index<string>, closed: bool)

  const EmptyBook := Book(map[], map[], map[], map[], map[], false)

  datatype Error = NoError | ErrStoreClosed | ErrThreadNotFound | ErrMessageNotFound

  // ----- Indexes -----

  /** A missing entry reads as an empty list. */
  function List<K(==)>(index: Index<K>, k: K): seq<Uuid> {
    if k in index then index[k] else []
  }

  function Append<K(==)>(index: Index<K>, k: K, id: Uuid): Index<K> {
    index[k := List(index, k) + [id]]
  }

  function RemoveFirst(list: seq<Uuid>, id: Uuid): seq<Uuid> {
    if list == [] then [] else if list[0] == id then list[1..] else [list[0]] + RemoveFirst(list[1..], id)
  }

  function Drop<K(==)>(index: Index<K>, k: K, id: Uuid): Index<K> {
    if id in List(index, k) then index[k := RemoveFirst(index[k], id)] else index
  }

  /** `id` appended for every participant in turn that is not excepted. */
  function Linked(index: Index<string>, dids: seq<string>, except: seq<string>, id: Uuid): Index<string> {
    if dids == [] then index
    else
      var before, did := Linked(index, dids[..|dids| - 1], except, id), dids[|dids| - 1];
      if did in except then before else Append(before, did, id)
  }

  /** `id` dropped for every participant in turn that is not excepted. */
  function Unlinked(index: Index<string>, dids: seq<string>, except: seq<string>, id: Uuid): Index<string> {
    if dids == [] then index
    else
      var before, did := Unlinked(index, dids[..|dids| - 1], except, id), dids[|dids| - 1];
      if did in except then before else Drop(before, did, id)
  }

  // ----- Operations -----

  function ReceiptKey(messageId: Uuid, did: string): string {
    messageId + ":" + did
  }

  /** The test by which the receipts of deleted messages are found. */
  predicate Concerns(key: string, ids: set<Uuid>) {
    |key| > 36 && key[..36] in ids
  }

  function Forget(receipts: map<string, Receipt>, ids: set<Uuid>): map<string, Receipt> {
    map key | key in receipts && !Concerns(key, ids) :: receipts[key]
  }

  function Elements(list: seq<Uuid>): set<Uuid> { set id | id in list }

  datatype Op =
    | CreateThread(thread: Thread)
    | UpdateThread(thread: Thread)
    | DeleteThread(id: Uuid)
    | SaveMessage(msg: Message)
    | DeleteMessage(id: Uuid)
    | MarkDelivered(id: Uuid, did: string)
    | MarkRead(id: Uuid, did: string)
    | Close

  function Outcome(b: Book, op: Op): Error {
    match op
    case Close => NoError
    case CreateThread(_) => if b.closed then ErrStoreClosed else NoError
    case UpdateThread(t) => if b.closed then ErrStoreClosed else if t.id in b.threads then NoError else ErrThreadNotFound
    case DeleteThread(id) => if b.closed then ErrStoreClosed else if id in b.threads then NoError else ErrThreadNotFound
    case SaveMessage(m) => if b.closed then ErrStoreClosed else if m.threadId in b.threads then NoError else ErrThreadNotFound
    case _ => if b.closed then ErrStoreClosed else if op.id in b.messages then NoError else ErrMessageNotFound
  }

  function Updated(b: Book, t: Thread): Book
    requires t.id in b.threads
  {
    var was := b.threads[t.id].participants;
    b.(threads := b.threads[t.id := t],
       byDid := Linked(Unlinked(b.byDid, was, t.participants, t.id), t.participants, was, t.id))
  }

  function Deleted(b: Book, id: Uuid): Book
    requires id in b.threads
  {
    var gone := Elements(List(b.byThread, id));
    b.(threads := b.threads - {id}, messages := b.messages - gone, receipts := Forget(b.receipts, gone),
       byThread := b.byThread - {id}, byDid := Unlinked(b.byDid, b.threads[id].participants, [], id))
  }

  function Saved(b: Book, m: Message, now: int): Book
    requires m.threadId in b.threads
  {
    var t := b.threads[m.threadId];
    b.(messages := b.messages[m.id := m], byThread := Append(b.byThread, m.threadId, m.id),
       threads := b.threads[m.threadId :=
         t.(messageCount := t.messageCount + 1, lastMessage := Some(m.timestamp), updatedAt := now)])
  }

  function MessageDeleted(b: Book, id: Uuid): Book
    requires id in b.messages
  {
    var tid := b.messages[id].threadId;
    b.(messages := b.messages - {id}, receipts := Forget(b.receipts, {id}), byThread := Drop(b.byThread, tid, id),
       threads := if tid in b.threads
                  then b.threads[tid := b.threads[tid].(messageCount := b.threads[tid].messageCount - 1)]
                  else b.threads)
  }

  function Delivered(receipts: map<string, Receipt>, id: Uuid, did: string, now: int): map<string, Receipt> {
    var key := ReceiptKey(id, did);
    if key !in receipts then receipts[key := Receipt(id, did, Some(now), None)]
    else if receipts[key].deliveredAt.None? then receipts[key := receipts[key].(deliveredAt := Some(now))]
    else receipts
  }

  function Read(receipts: map<string, Receipt>, id: Uuid, did: string, now: int): map<string, Receipt> {
    var key := ReceiptKey(id, did);
    if key !in receipts then receipts[key := Receipt(id, did, Some(now), Some(now))]
    else
      var r := receipts[key];
      receipts[key := r.(deliveredAt := if r.deliveredAt.None? then Some(now) else r.deliveredAt, readAt := Some(now))]
  }

  function Apply(b: Book, op: Op, now: int): Book {
    if Outcome(b, op) != NoError then b
    else match op
      case CreateThread(t) => b.(threads := b.threads[t.id := t], byDid := Linked(b.byDid, t.participants, [], t.id))
      case UpdateThread(t) => Updated(b, t)
      case DeleteThread(id) => Deleted(b, id)
      case SaveMessage(m) => Saved(b, m, now)
      case DeleteMessage(id) => MessageDeleted(b, id)
      case MarkDelivered(id, did) => b.(receipts := Delivered(b.receipts, id, did, now))
      case MarkRead(id, did) => b.(receipts := Read(b.receipts, id, did, now))
      case Close => EmptyBook.(closed := true)
  }

  // ----- How often an index lists an id -----

  ghost function Times<K>(index: Index<K>, k: K, id: Uuid): nat {
    multiset(List(index, k))[id]
  }

  lemma AppendTimes<K>(index: Index<K>, k: K, id: Uuid, k': K, id': Uuid)
    ensures Times(Append(index, k, id), k', id') == Times(index, k', id') + if k == k' && id == id' then 1 else 0
  {
  }

  lemma {:induction false} RemoveFirstTimes(list: seq<Uuid>, id: Uuid, id': Uuid)
    ensures multiset(RemoveFirst(list, id))[id'] == Minus(multiset(list)[id'], if id == id' then 1 else 0)
  {
    if list != [] {
      RemoveFirstTimes(list[1..], id, id');
      assert list == [list[0]] + list[1..];
    }
  }

  function Minus(a: nat, b: nat): nat { if a < b then 0 else a - b }

  lemma DropTimes<K>(index: Index<K>, k: K, id: Uuid, k': K, id': Uuid)
    ensures Times(Drop(index, k, id), k', id') == Minus(Times(index, k', id'), if k == k' && id == id' then 1 else 0)
  {
    RemoveFirstTimes(List(index, k), id, id');
  }

  /** How often the loop over `dids` meets `did`. */
  ghost function Met(dids: seq<string>, except: seq<string>, did: string): nat {
    if did in except then 0 else multiset(dids)[did]
  }

  lemma MetNext(dids: seq<string>, except: seq<string>, did: string)
    requires dids != []
    ensures var last := dids[|dids| - 1];
            Met(dids, except, did) == Met(dids[..|dids| - 1], except, did) + if last == did && did !in except then 1 else 0
  {
    assert dids == dids[..|dids| - 1] + [dids[|dids| - 1]];
  }

  lemma {:induction false} LinkedTimes(index: Index<string>, dids: seq<string>, except: seq<string>, id: Uuid, did: string, id': Uuid)
    ensures Times(Linked(index, dids, except, id), did, id')
            == Times(index, did, id') + if id == id' then Met(dids, except, did) else 0
    decreases |dids|
  {
    if dids != [] {
      var front := dids[..|dids| - 1];
      LinkedTimes(index, front, except, id, did, id');
      MetNext(dids, except, did);
      AppendTimes(Linked(index, front, except, id), dids[|dids| - 1], id, did, id');
    }
  }

  lemma {:induction false} UnlinkedTimes(index: Index<string>, dids: seq<string>, except: seq<string>, id: Uuid, did: string, id': Uuid)
    ensures Times(Unlinked(index, dids, except, id), did, id')
            == Minus(Times(index, did, id'), if id == id' then Met(dids, except, did) else 0)
    decreases |dids|
  {
    if dids != [] {
      var front := dids[..|dids| - 1];
      UnlinkedTimes(index, front, except, id, did, id');
      MetNext(dids, except, did);
      DropTimes(Unlinked(index, front, except, id), dids[|dids| - 1], id, did, id');
    }
  }

  // ----- Agreement of participants and threads -----

  predicate Takes(threads: map<Uuid, Thread>, did: string, id: Uuid) {
    id in threads && did in threads[id].participants
  }

  /** A thread is listed once for each participant it has, and nothing else is listed. */
  ghost predicate ThreadsIndexed(threads: map<Uuid, Thread>, byDid: Index<string>) {
    forall did: string, id: Uuid :: Times(byDid, did, id) == if Takes(threads, did, id) then 1 else 0
  }

  /** Nobody is named twice, and a thread is replaced only if nobody was in it. */
  ghost predicate CleanCreate(b: Book, t: Thread) {
    && (forall did :: multiset(t.participants)[did] <= 1)
    && (t.id in b.threads ==> b.threads[t.id].participants == [])
  }

  /** Nobody who is new to the thread is named twice. */
  ghost predicate CleanUpdate(b: Book, t: Thread) {
    t.id in b.threads ==>
      forall did :: did !in b.threads[t.id].participants ==> multiset(t.participants)[did] <= 1
  }

  lemma CleanCreateKeepsIndex(threads: map<Uuid, Thread>, byDid: Index<string>, t: Thread)
    requires ThreadsIndexed(threads, byDid) && (forall did :: multiset(t.participants)[did] <= 1)
    requires t.id in threads ==> threads[t.id].participants == []
    ensures ThreadsIndexed(threads[t.id := t], Linked(byDid, t.participants, [], t.id))
  {
    forall did: string, id: Uuid
      ensures Times(Linked(byDid, t.participants, [], t.id), did, id)
              == if Takes(threads[t.id := t], did, id) then 1 else 0
    {
      LinkedTimes(byDid, t.participants, [], t.id, did, id);
      assert multiset(t.participants)[did] <= 1;
      assert Times(byDid, did, id) == if Takes(threads, did, id) then 1 else 0;
    }
  }

  lemma KeptIndexWasCleanCreate(threads: map<Uuid, Thread>, byDid: Index<string>, t: Thread, did: string)
    requires ThreadsIndexed(threads, byDid)
    requires ThreadsIndexed(threads[t.id := t], Linked(byDid, t.participants, [], t.id))
    ensures multiset(t.participants)[did] <= 1 && !Takes(threads, did, t.id)
  {
    LinkedTimes(byDid, t.participants, [], t.id, did, t.id);
    assert Times(byDid, did, t.id) == if Takes(threads, did, t.id) then 1 else 0;
    assert Times(Linked(byDid, t.participants, [], t.id), did, t.id)
        == if Takes(threads[t.id := t], did, t.id) then 1 else 0;
    assert did in t.participants <==> multiset(t.participants)[did] > 0;
  }

  lemma CreateKeepsIndexIff(b: Book, t: Thread, now: int)
    requires !b.closed && ThreadsIndexed(b.threads, b.byDid)
    ensures var b' := Apply(b, CreateThread(t), now);
            ThreadsIndexed(b'.threads, b'.byDid) <==> CleanCreate(b, t)
  {
    var b' := Apply(b, CreateThread(t), now);
    if ThreadsIndexed(b'.threads, b'.byDid) {
      forall did ensures multiset(t.participants)[did] <= 1 && !Takes(b.threads, did, t.id) {
        KeptIndexWasCleanCreate(b.threads, b.byDid, t, did);
      }
      if t.id in b.threads {
        var was := b.threads[t.id].participants;
        assert was != [] ==> Takes(b.threads, was[0], t.id);
      }
    }
    if CleanCreate(b, t) {
      CleanCreateKeepsIndex(b.threads, b.byDid, t);
    }
  }

  lemma UpdateKeepsIndexIff(b: Book, t: Thread, now: int)
    requires !b.closed && ThreadsIndexed(b.threads, b.byDid) && t.id in b.threads
    ensures var b' := Apply(b, UpdateThread(t), now);
            ThreadsIndexed(b'.threads, b'.byDid) <==> CleanUpdate(b, t)
  {
    var b' := Apply(b, UpdateThread(t), now);
    var was := b.threads[t.id].participants;
    forall did: string, id: Uuid
      ensures Times(b'.byDid, did, id) == UpdatedTimes(b, t, did, id)
    {
      UnlinkedTimes(b.byDid, was, t.participants, t.id, did, id);
      LinkedTimes(Unlinked(b.byDid, was, t.participants, t.id), t.participants, was, t.id, did, id);
    }
    if ThreadsIndexed(b'.threads, b'.byDid) {
      forall did | did !in was ensures multiset(t.participants)[did] <= 1 {
        assert Times(b'.byDid, did, t.id) <= 1;
      }
    }
    if CleanUpdate(b, t) {
      forall did: string, id: Uuid
        ensures Times(b'.byDid, did, id) == if Takes(b'.threads, did, id) then 1 else 0
      {
        UpdatedTimesAre(b, t, did, id);
      }
    }
  }

  ghost function UpdatedTimes(b: Book, t: Thread, did: string, id: Uuid): nat
    requires t.id in b.threads
  {
    var was := b.threads[t.id].participants;
    if id != t.id then Times(b.byDid, did, id)
    else Minus(Times(b.byDid, did, id), Met(was, t.participants, did)) + Met(t.participants, was, did)
  }

  lemma UpdatedTimesAre(b: Book, t: Thread, did: string, id: Uuid)
    requires ThreadsIndexed(b.threads, b.byDid) && t.id in b.threads && CleanUpdate(b, t)
    ensures UpdatedTimes(b, t, did, id) == if Takes(b.threads[t.id := t], did, id) then 1 else 0
  {
    assert Times(b.byDid, did, id) == if Takes(b.threads, did, id) then 1 else 0;
    var was := b.threads[t.id].participants;
    assert did in was <==> multiset(was)[did] > 0;
    assert did in t.participants <==> multiset(t.participants)[did] > 0;
  }

  lemma DeleteKeepsThreadIndex(b: Book, id: Uuid)
    requires ThreadsIndexed(b.threads, b.byDid) && id in b.threads
    ensures ThreadsIndexed(Deleted(b, id).threads, Deleted(b, id).byDid)
  {
    var b', was := Deleted(b, id), b.threads[id].participants;
    forall did: string, x: Uuid
      ensures Times(b'.byDid, did, x) == if Takes(b'.threads, did, x) then 1 else 0
    {
      UnlinkedTimes(b.byDid, was, [], id, did, x);
      assert did in was <==> multiset(was)[did] > 0;
      assert Times(b.byDid, did, x) == if Takes(b.threads, did, x) then 1 else 0;
    }
  }

  /** Changing what else a thread says does not matter to the index. */
  lemma SameParticipants(threads: map<Uuid, Thread>, byDid: Index<string>, id: Uuid, t: Thread)
    requires ThreadsIndexed(threads, byDid) && id in threads && t.participants == threads[id].participants
    ensures ThreadsIndexed(threads[id := t], byDid)
  {
    forall did: string, x: Uuid
      ensures Times(byDid, did, x) == if Takes(threads[id := t], did, x) then 1 else 0
    {
      assert Takes(threads[id := t], did, x) <==> Takes(threads, did, x);
    }
  }

  /** Naming somebody twice when a thread is created lists the thread twice. */
  lemma TwiceNamedOnCreate(id: Uuid, did: string, now: int)
    ensures var b := Apply(EmptyBook, CreateThread(Thread(id, "", [did, did], now, None, 0)), now);
            ThreadsIndexed(EmptyBook.threads, EmptyBook.byDid) && !ThreadsIndexed(b.threads, b.byDid)
  {
    var t := Thread(id, "", [did, did], now, None, 0);
    assert multiset(t.participants)[did] == 2;
    CreateKeepsIndexIff(EmptyBook, t, now);
  }

  /** So does naming somebody new twice in an update. */
  lemma TwiceNamedOnUpdate(id: Uuid, did: string, now: int)
    ensures var b := Apply(EmptyBook, CreateThread(Thread(id, "", [], now, None, 0)), now);
            var b' := Apply(b, UpdateThread(Thread(id, "", [did, did], now, None, 0)), now);
            ThreadsIndexed(b.threads, b.byDid) && !ThreadsIndexed(b'.threads, b'.byDid)
  {
    var t0, t := Thread(id, "", [], now, None, 0), Thread(id, "", [did, did], now, None, 0);
    var b := Apply(EmptyBook, CreateThread(t0), now);
    CreateKeepsIndexIff(EmptyBook, t0, now);
    assert multiset(t.participants)[did] == 2 && did !in b.threads[id].participants;
    UpdateKeepsIndexIff(b, t, now);
  }

  // ----- Agreement of threads and messages -----

  predicate Sits(messages: map<Uuid, Message>, tid: Uuid, id: Uuid) {
    id in messages && messages[id].threadId == tid
  }

  /** A message is listed once, by its thread. */
  ghost predicate MessagesIndexed(messages: map<Uuid, Message>, byThread: Index<Uuid>) {
    forall tid: Uuid, id: Uuid :: Times(byThread, tid, id) == if Sits(messages, tid, id) then 1 else 0
  }

  lemma SavedTimes(b: Book, m: Message, now: int, tid: Uuid, id: Uuid)
    requires MessagesIndexed(b.messages, b.byThread) && m.threadId in b.threads
    ensures Times(b.byThread, tid, id) == if Sits(b.messages, tid, id) then 1 else 0
    ensures Times(Saved(b, m, now).byThread, tid, id) ==
            Times(b.byThread, tid, id) + if tid == m.threadId && id == m.id then 1 else 0
  {
    AppendTimes(b.byThread, m.threadId, m.id, tid, id);
  }

  lemma SaveKeepsIndexIff(b: Book, m: Message, now: int)
    requires MessagesIndexed(b.messages, b.byThread) && m.threadId in b.threads
    ensures var b' := Saved(b, m, now);
            MessagesIndexed(b'.messages, b'.byThread) <==> m.id !in b.messages
  {
    var b' := Saved(b, m, now);
    if m.id in b.messages {
      var tid := b.messages[m.id].threadId;
      SavedTimes(b, m, now, tid, m.id);
      assert Sits(b.messages, tid, m.id);
      assert Times(b'.byThread, tid, m.id) != if Sits(b'.messages, tid, m.id) then 1 else 0;
    } else {
      forall tid: Uuid, id: Uuid ensures Times(b'.byThread, tid, id) == if Sits(b'.messages, tid, id) then 1 else 0 {
        SavedTimes(b, m, now, tid, id);
        assert Sits(b'.messages, tid, id) <==> Sits(b.messages, tid, id) || (tid == m.threadId && id == m.id);
      }
    }
  }

  /** A message saved twice is listed twice. */
  lemma SavedTwice(b: Book, m: Message, now: int)
    requires MessagesIndexed(b.messages, b.byThread) && m.threadId in b.threads && m.id !in b.messages
    ensures var once := Saved(b, m, now);
            var twice := Saved(once, m, now);
            MessagesIndexed(once.messages, once.byThread) && !MessagesIndexed(twice.messages, twice.byThread)
  {
    SaveKeepsIndexIff(b, m, now);
    SaveKeepsIndexIff(Saved(b, m, now), m, now);
  }

  lemma DeletesItsMessages(b: Book, id: Uuid)
    requires MessagesIndexed(b.messages, b.byThread) && id in b.threads
    ensures var b' := Deleted(b, id);
            && MessagesIndexed(b'.messages, b'.byThread)
            && (forall mid :: mid in b'.messages <==> mid in b.messages && b.messages[mid].threadId != id)
  {
    var b', gone := Deleted(b, id), Elements(List(b.byThread, id));
    forall mid: Uuid ensures mid in gone <==> Sits(b.messages, id, mid) {
      assert Times(b.byThread, id, mid) == if Sits(b.messages, id, mid) then 1 else 0;
    }
    forall tid: Uuid, mid: Uuid
      ensures Times(b'.byThread, tid, mid) == if Sits(b'.messages, tid, mid) then 1 else 0
    {
      assert Times(b.byThread, tid, mid) == if Sits(b.messages, tid, mid) then 1 else 0;
      assert tid != id ==> List(b'.byThread, tid) == List(b.byThread, tid);
    }
  }

  lemma DeleteMessageKeepsIndex(b: Book, id: Uuid)
    requires MessagesIndexed(b.messages, b.byThread) && id in b.messages
    ensures MessagesIndexed(MessageDeleted(b, id).messages, MessageDeleted(b, id).byThread)
  {
    var b', tid := MessageDeleted(b, id), b.messages[id].threadId;
    forall t: Uuid, x: Uuid
      ensures Times(b'.byThread, t, x) == if Sits(b'.messages, t, x) then 1 else 0
    {
      DropTimes(b.byThread, tid, id, t, x);
      assert Times(b.byThread, t, x) == if Sits(b.messages, t, x) then 1 else 0;
    }
  }

  // ----- Receipts -----

  /** A key can be read back: the first 36 characters are the message, the rest the recipient. */
  lemma ReceiptKeyInjective(id: Uuid, did: string, id': Uuid, did': string)
    ensures ReceiptKey(id, did)[..36] == id && ReceiptKey(id, did)[37..] == did
    ensures ReceiptKey(id, did) == ReceiptKey(id', did') <==> id == id' && did == did'
  {
  }

  predicate Anchored(messages: map<Uuid, Message>, key: string, r: Receipt) {
    key == ReceiptKey(r.messageId, r.recipient) && r.messageId in messages
  }

  /** Every receipt is filed under its own key and is for a stored message. */
  ghost predicate ReceiptsAnchored(messages: map<Uuid, Message>, receipts: map<string, Receipt>) {
    forall key :: key in receipts ==> Anchored(messages, key, receipts[key])
  }

  lemma ForgetKeepsAnchored(messages: map<Uuid, Message>, receipts: map<string, Receipt>, gone: set<Uuid>)
    requires ReceiptsAnchored(messages, receipts)
    ensures ReceiptsAnchored(messages - gone, Forget(receipts, gone))
    ensures forall key :: key in receipts ==> (key in Forget(receipts, gone) <==> receipts[key].messageId !in gone)
  {
    forall key | key in receipts ensures Concerns(key, gone) <==> receipts[key].messageId in gone {
      var r := receipts[key];
      assert Anchored(messages, key, r);
      ReceiptKeyInjective(r.messageId, r.recipient, r.messageId, r.recipient);
    }
  }

  /** Delivered, not after it was read, and neither in the future. */
  predicate Ordered(r: Receipt, now: int) {
    && r.deliveredAt.Some? && r.deliveredAt.value <= now
    && (r.readAt.Some? ==> r.deliveredAt.value <= r.readAt.value <= now)
  }

  ghost predicate ReceiptsOrdered(receipts: map<string, Receipt>, now: int) {
    forall key :: key in receipts ==> Ordered(receipts[key], now)
  }

  // ----- Every run -----

  ghost predicate Agree(b: Book) {
    && (forall id :: id in b.threads ==> b.threads[id].id == id)
    && (forall id :: id in b.messages ==> b.messages[id].id == id && b.messages[id].threadId in b.threads)
    && ThreadsIndexed(b.threads, b.byDid)
    && MessagesIndexed(b.messages, b.byThread)
    && ReceiptsAnchored(b.messages, b.receipts)
  }

  /** What callers owe the store. Ids that `uuid.NewV7` just made and lists without repetition do. */
  ghost predicate Careful(b: Book, op: Op) {
    match op
    case CreateThread(t) => CleanCreate(b, t)
    case UpdateThread(t) => CleanUpdate(b, t)
    case SaveMessage(m) => m.id !in b.messages
    case _ => true
  }

  lemma CreateAgrees(b: Book, t: Thread, now: int)
    requires Agree(b) && CleanCreate(b, t)
    ensures Agree(Apply(b, CreateThread(t), now))
  {
    if !b.closed {
      CreateKeepsIndexIff(b, t, now);
    }
  }

  lemma UpdateAgrees(b: Book, t: Thread, now: int)
    requires Agree(b) && CleanUpdate(b, t)
    ensures Agree(Apply(b, UpdateThread(t), now))
  {
    if !b.closed && t.id in b.threads {
      UpdateKeepsIndexIff(b, t, now);
    }
  }

  lemma DeleteAgrees(b: Book, id: Uuid)
    requires Agree(b) && id in b.threads
    ensures Agree(Deleted(b, id))
  {
    DeleteKeepsThreadIndex(b, id);
    DeletesItsMessages(b, id);
    ForgetKeepsAnchored(b.messages, b.receipts, Elements(List(b.byThread, id)));
  }

  lemma SaveAgrees(b: Book, m: Message, now: int)
    requires Agree(b) && m.threadId in b.threads && m.id !in b.messages
    ensures Agree(Saved(b, m, now))
  {
    var b' := Saved(b, m, now);
    SaveKeepsIndexIff(b, m, now);
    SameParticipants(b.threads, b.byDid, m.threadId, b'.threads[m.threadId]);
    forall key | key in b'.receipts ensures Anchored(b'.messages, key, b'.receipts[key]) {
      assert Anchored(b.messages, key, b.receipts[key]);
    }
  }

  lemma DeleteMessageAgrees(b: Book, id: Uuid)
    requires Agree(b) && id in b.messages
    ensures Agree(MessageDeleted(b, id))
  {
    var tid := b.messages[id].threadId;
    DeleteMessageKeepsIndex(b, id);
    ForgetKeepsAnchored(b.messages, b.receipts, {id});
    SameParticipants(b.threads, b.byDid, tid, MessageDeleted(b, id).threads[tid]);
  }

  lemma StepAgrees(b: Book, op: Op, now: int)
    requires Agree(b) && Careful(b, op)
    ensures Agree(Apply(b, op, now))
  {
    if Outcome(b, op) == NoError {
      match op
      case CreateThread(t) => CreateAgrees(b, t, now);
      case UpdateThread(t) => UpdateAgrees(b, t, now);
      case DeleteThread(id) => DeleteAgrees(b, id);
      case SaveMessage(m) => SaveAgrees(b, m, now);
      case DeleteMessage(id) => DeleteMessageAgrees(b, id);
      case Close => EmptyAgrees();
      case _ =>
    }
  }

  lemma EmptyAgrees()
    ensures Agree(EmptyBook)
  {
  }

  datatype Step = Step(op: Op, now: int)

  /** A run of careful calls at times that do not go back. */
  ghost predicate Runs(b: Book, now: int, steps: seq<Step>, end: Book)
    decreases |steps|
  {
    if steps == [] then b == end
    else
      && Careful(b, steps[0].op) && now <= steps[0].now
      && Runs(Apply(b, steps[0].op, steps[0].now), steps[0].now, steps[1..], end)
  }

  function LastTime(now: int, steps: seq<Step>): int {
    if steps == [] then now else steps[|steps| - 1].now
  }

  lemma StepOrdersReceipts(b: Book, before: int, op: Op, now: int)
    requires ReceiptsOrdered(b.receipts, before) && before <= now
    ensures ReceiptsOrdered(Apply(b, op, now).receipts, now)
  {
  }

  /**
    In every reachable state both indexes agree with the stored threads and messages, every
    receipt is for a stored message, and no receipt says read before delivered.
   */
  lemma {:induction false} EveryRunAgrees(b: Book, now: int, steps: seq<Step>, end: Book)
    requires Agree(b) && ReceiptsOrdered(b.receipts, now) && Runs(b, now, steps, end)
    ensures Agree(end) && ReceiptsOrdered(end.receipts, LastTime(now, steps))
    decreases |steps|
  {
    if steps != [] {
      StepAgrees(b, steps[0].op, steps[0].now);
      StepOrdersReceipts(b, now, steps[0].op, steps[0].now);
      EveryRunAgrees(Apply(b, steps[0].op, steps[0].now), steps[0].now, steps[1..], end);
    }
  }

  /** The receipt is there before, between and after the steps. */
  ghost predicate Throughout(b: Book, steps: seq<Step>, key: string)
    decreases |steps|
  {
    key in b.receipts && (steps == [] || Throughout(Apply(b, steps[0].op, steps[0].now), steps[1..], key))
  }

  lemma StepKeepsDelivery(b: Book, before: int, op: Op, now: int, key: string)
    requires ReceiptsOrdered(b.receipts, before) && before <= now
    requires key in b.receipts && key in Apply(b, op, now).receipts
    ensures var r, r' := b.receipts[key], Apply(b, op, now).receipts[key];
            && r'.deliveredAt == r.deliveredAt
            && (r.readAt.Some? ==> r'.readAt.Some? && r.readAt.value <= r'.readAt.value)
  {
  }

  /** As long as a receipt exists its delivery time stands and its read time only moves forward. */
  lemma {:induction false} DeliveredOnce(b: Book, now: int, steps: seq<Step>, end: Book, key: string)
    requires ReceiptsOrdered(b.receipts, now) && Runs(b, now, steps, end) && Throughout(b, steps, key)
    ensures key in end.receipts && end.receipts[key].deliveredAt == b.receipts[key].deliveredAt
    ensures b.receipts[key].readAt.Some? ==>
              end.receipts[key].readAt.Some? && b.receipts[key].readAt.value <= end.receipts[key].readAt.value
    decreases |steps|
  {
    if steps != [] {
      var b' := Apply(b, steps[0].op, steps[0].now);
      StepOrdersReceipts(b, now, steps[0].op, steps[0].now);
      StepKeepsDelivery(b, now, steps[0].op, steps[0].now, key);
      DeliveredOnce(b', steps[0].now, steps[1..], end, key);
    }
  }

  // ----- Listings -----

  datatype ThreadFilter = ThreadFilter(did: string, since: Option<int>, limit: int, offset: int)

  datatype MessageFilter = MessageFilter(threadId: Uuid, since: Option<int>, before: Option<int>,
                                         kinds: seq<string>, limit: int, offset: int)

  predicate ThreadMatches(t: Thread, f: ThreadFilter) {
    f.since.Some? ==> t.updatedAt >= f.since.value
  }

  predicate MessageMatches(m: Message, f: MessageFilter) {
    && (f.since.Some? ==> m.timestamp >= f.since.value)
    && (f.before.Some? ==> m.timestamp <= f.before.value)
    && (f.kinds != [] ==> m.kind in f.kinds)
  }

  function Page<T>(s: seq<T>, offset: int, limit: int): seq<T> {
    var rest := if offset <= 0 then s else if offset >= |s| then [] else s[offset..];
    if 0 < limit < |rest| then rest[..limit] else rest
  }

  function Concat<T>(pages: seq<seq<T>>): seq<T> {
    if pages == [] then [] else Concat(pages[..|pages| - 1]) + pages[|pages| - 1]
  }

  function Upto<T>(s: seq<T>, n: nat): seq<T> {
    if n < |s| then s[..n] else s
  }

  lemma OnePageMore<T>(s: seq<T>, n: nat, limit: nat)
    requires limit > 0
    ensures Upto(s, n) + Page(s, n, limit) == Upto(s, n + limit)
  {
    if n < |s| {
      assert s[0..] == s;
      if n + limit < |s| {
        assert s[..n] + s[n..][..limit] == s[..n + limit];
      }
    } else {
      assert s == [] ==> Page(s, n, limit) == [];
    }
  }

  /** Where a caller is that has raised its offset `k` times. */
  function Offset(k: nat, limit: nat): nat {
    if k == 0 then 0 else Offset(k - 1, limit) + limit
  }

  ghost predicate ArePages<T>(s: seq<T>, pages: seq<seq<T>>, limit: nat) {
    forall k :: 0 <= k < |pages| ==> pages[k] == Page(s, Offset(k, limit), limit)
  }

  lemma FewerPages<T>(s: seq<T>, pages: seq<seq<T>>, n: nat, limit: nat)
    requires n < |pages| && ArePages(s, pages, limit)
    ensures ArePages(s, pages[..n], limit) && pages[n] == Page(s, Offset(n, limit), limit)
  {
  }

  /** Pages of a list, turned by raising the offset by the limit, show it from the start, once and in order. */
  lemma {:induction false} PagesMakeList<T>(s: seq<T>, pages: seq<seq<T>>, limit: nat)
    requires limit > 0 && ArePages(s, pages, limit)
    ensures Concat(pages) == Upto(s, Offset(|pages|, limit))
  {
    if pages == [] {
      assert Upto(s, 0) == [];
    } else {
      var n := |pages| - 1;
      FewerPages(s, pages, n, limit);
      PagesMakeList(s, pages[..n], limit);
      OnePageMore(s, Offset(n, limit), limit);
    }
  }

  /** What looking up `ids` in turn finds, as far as it is wanted. */
  function Pick<T>(store: map<Uuid, T>, ids: seq<Uuid>, wanted: set<Uuid>): seq<T> {
    if ids == [] then []
    else
      var before, id := Pick(store, ids[..|ids| - 1], wanted), ids[|ids| - 1];
      if id in store && id in wanted then before + [store[id]] else before
  }

  ghost predicate Distinct<T(!new)>(store: map<Uuid, T>) {
    forall id, id' :: id in store && id' in store && store[id] == store[id'] ==> id == id'
  }

  lemma CountAppended<T>(s: seq<T>, x: T, y: T)
    ensures multiset(s + [x])[y] == multiset(s)[y] + if x == y then 1 else 0
  {
  }

  lemma {:induction false} PickTimes<T(!new)>(store: map<Uuid, T>, ids: seq<Uuid>, wanted: set<Uuid>, id: Uuid)
    requires Distinct(store) && id in store
    ensures multiset(Pick(store, ids, wanted))[store[id]] == if id in wanted then multiset(ids)[id] else 0
    decreases |ids|
  {
    if ids != [] {
      var front, last := ids[..|ids| - 1], ids[|ids| - 1];
      PickTimes(store, front, wanted, id);
      assert ids == front + [last];
      CountAppended(front, last, id);
      if last in store && last in wanted {
        CountAppended(Pick(store, front, wanted), store[last], store[id]);
        assert store[last] == store[id] ==> last == id;
      }
    }
  }

  lemma {:induction false} PickedIsStored<T(!new)>(store: map<Uuid, T>, ids: seq<Uuid>, wanted: set<Uuid>, x: T)
    requires x in Pick(store, ids, wanted)
    ensures exists id :: id in store && store[id] == x
    decreases |ids|
  {
    if ids != [] {
      var front, last := ids[..|ids| - 1], ids[|ids| - 1];
      if x in Pick(store, front, wanted) {
        PickedIsStored(store, front, wanted, x);
      }
    }
  }

  /** Looking up a list that names every id of `all` once finds what scanning the store finds. */
  lemma PickIsScan<T(!new)>(store: map<Uuid, T>, ids: seq<Uuid>, wanted: set<Uuid>, all: set<Uuid>)
    requires Distinct(store)
    requires forall id :: id in store ==> multiset(ids)[id] == if id in all then 1 else 0
    ensures multiset(Pick(store, ids, wanted)) == multiset(set id | id in store && id in wanted && id in all :: store[id])
  {
    var picked, scan := multiset(Pick(store, ids, wanted)), set id | id in store && id in wanted && id in all :: store[id];
    forall x ensures picked[x] == multiset(scan)[x] {
      if x in Pick(store, ids, wanted) {
        PickedIsStored(store, ids, wanted, x);
      }
      if id :| id in store && store[id] == x {
        PickTimes(store, ids, wanted, id);
      }
    }
  }

  /** Every id once. */
  ghost predicate Enumerates(ids: seq<Uuid>, keys: set<Uuid>) {
    multiset(ids) == multiset(keys)
  }

  function MatchingThreads(threads: map<Uuid, Thread>, f: ThreadFilter): set<Uuid> {
    set id | id in threads && ThreadMatches(threads[id], f)
  }

  function MatchingMessages(messages: map<Uuid, Message>, f: MessageFilter): set<Uuid> {
    set id | id in messages && MessageMatches(messages[id], f)
  }

  ghost predicate NewestFirst(ts: seq<Thread>) {
    forall i, j :: 0 <= i < j < |ts| ==> ts[i].updatedAt >= ts[j].updatedAt
  }

  ghost predicate InSequence(ms: seq<Message>) {
    forall i, j :: 0 <= i < j < |ms| ==> ms[i].seqNo <= ms[j].seqNo
  }

  /** The ids that `ListThreads` goes through: the participant's list, or the map in some order. */
  ghost predicate ThreadSource(b: Book, f: ThreadFilter, ids: seq<Uuid>) {
    if f.did != "" then ids == List(b.byDid, f.did) else Enumerates(ids, b.threads.Keys)
  }

  /** What `ListThreads` may return, by way of the index. */
  ghost predicate ListsThreads(b: Book, f: ThreadFilter, page: seq<Thread>) {
    exists ids, sorted ::
      ThreadSource(b, f, ids) && multiset(sorted) == multiset(Pick(b.threads, ids, MatchingThreads(b.threads, f)))
      && NewestFirst(sorted) && page == Page(sorted, f.offset, f.limit)
  }

  /** What `GetMessages` may return, by way of the index. */
  ghost predicate ListsMessages(b: Book, f: MessageFilter, page: seq<Message>) {
    exists sorted ::
      multiset(sorted) == multiset(Pick(b.messages, List(b.byThread, f.threadId), MatchingMessages(b.messages, f)))
      && InSequence(sorted) && page == Page(sorted, f.offset, f.limit)
  }

  /** All threads that match, found by looking at every thread. */
  function ThreadScan(b: Book, f: ThreadFilter): set<Thread> {
    set id | id in b.threads && (f.did != "" ==> f.did in b.threads[id].participants) && ThreadMatches(b.threads[id], f)
      :: b.threads[id]
  }

  function MessageScan(b: Book, f: MessageFilter): set<Message> {
    set id | id in b.messages && b.messages[id].threadId == f.threadId && MessageMatches(b.messages[id], f) :: b.messages[id]
  }

  /** The threads with the participant, or all threads if none is asked for. */
  function Taking(threads: map<Uuid, Thread>, did: string): set<Uuid> {
    set id | id in threads && (did != "" ==> did in threads[id].participants)
  }

  lemma SourceListsOnce(b: Book, f: ThreadFilter, ids: seq<Uuid>, id: Uuid)
    requires ThreadsIndexed(b.threads, b.byDid) && ThreadSource(b, f, ids) && id in b.threads
    ensures multiset(ids)[id] == if id in Taking(b.threads, f.did) then 1 else 0
  {
    if f.did != "" {
      assert Times(b.byDid, f.did, id) == if Takes(b.threads, f.did, id) then 1 else 0;
    }
  }

  lemma ThreadPickIsScan(b: Book, f: ThreadFilter, ids: seq<Uuid>)
    requires Distinct(b.threads) && ThreadsIndexed(b.threads, b.byDid) && ThreadSource(b, f, ids)
    ensures multiset(Pick(b.threads, ids, MatchingThreads(b.threads, f))) == multiset(ThreadScan(b, f))
  {
    var all, wanted := Taking(b.threads, f.did), MatchingThreads(b.threads, f);
    forall id | id in b.threads ensures multiset(ids)[id] == if id in all then 1 else 0 {
      SourceListsOnce(b, f, ids, id);
    }
    PickIsScan(b.threads, ids, wanted, all);
    assert (set id | id in b.threads && id in wanted && id in all :: b.threads[id]) == ThreadScan(b, f);
  }

  /**
    The listing by participant index is the listing by full scan: the page is cut from a
    newest-first arrangement of exactly the threads that have the participant and match.
   */
  lemma IndexedListIsScan(b: Book, f: ThreadFilter, page: seq<Thread>)
    requires Agree(b) && ListsThreads(b, f, page)
    ensures exists sorted ::
              multiset(sorted) == multiset(ThreadScan(b, f)) && NewestFirst(sorted) && page == Page(sorted, f.offset, f.limit)
  {
    var ids, sorted :|
      ThreadSource(b, f, ids) && multiset(sorted) == multiset(Pick(b.threads, ids, MatchingThreads(b.threads, f)))
      && NewestFirst(sorted) && page == Page(sorted, f.offset, f.limit);
    ThreadPickIsScan(b, f, ids);
  }

  lemma MessagePickIsScan(b: Book, f: MessageFilter)
    requires Agree(b)
    ensures multiset(Pick(b.messages, List(b.byThread, f.threadId), MatchingMessages(b.messages, f))) == multiset(MessageScan(b, f))
  {
    var all := set id | id in b.messages && b.messages[id].threadId == f.threadId;
    forall id | id in b.messages ensures multiset(List(b.byThread, f.threadId))[id] == if id in all then 1 else 0 {
      assert Times(b.byThread, f.threadId, id) == if Sits(b.messages, f.threadId, id) then 1 else 0;
    }
    var wanted := MatchingMessages(b.messages, f);
    PickIsScan(b.messages, List(b.byThread, f.threadId), wanted, all);
    assert (set id | id in b.messages && id in wanted && id in all :: b.messages[id]) == MessageScan(b, f);
  }

  lemma IndexedMessagesAreScan(b: Book, f: MessageFilter, page: seq<Message>)
    requires Agree(b) && ListsMessages(b, f, page)
    ensures exists sorted ::
              multiset(sorted) == multiset(MessageScan(b, f)) && InSequence(sorted) && page == Page(sorted, f.offset, f.limit)
  {
    var sorted :|
      multiset(sorted) == multiset(Pick(b.messages, List(b.byThread, f.threadId), MatchingMessages(b.messages, f)))
      && InSequence(sorted) && page == Page(sorted, f.offset, f.limit);
    MessagePickIsScan(b, f);
  }

  // ----- Turning the pages of a listing -----

  function PageOfThreads(f: ThreadFilter, k: nat, limit: nat): ThreadFilter {
    f.(offset := Offset(k, limit), limit := limit)
  }

  function PageOfMessages(f: MessageFilter, k: nat, limit: nat): MessageFilter {
    f.(offset := Offset(k, limit), limit := limit)
  }

  ghost predicate UpdatesDiffer(ts: set<Thread>) {
    forall t, u :: t in ts && u in ts && t.updatedAt == u.updatedAt ==> t == u
  }

  ghost predicate NumbersDiffer(ms: set<Message>) {
    forall m, n :: m in ms && n in ms && m.seqNo == n.seqNo ==> m == n
  }

  ghost predicate ArrangesThreads(ts: seq<Thread>, all: set<Thread>) {
    multiset(ts) == multiset(all) && NewestFirst(ts)
  }

  ghost predicate ArrangesMessages(ms: seq<Message>, all: set<Message>) {
    multiset(ms) == multiset(all) && InSequence(ms)
  }

  lemma OneArrangementOfThreads(a: seq<Thread>, b: seq<Thread>, all: set<Thread>)
    requires ArrangesThreads(a, all) && ArrangesThreads(b, all) && UpdatesDiffer(all)
    ensures a == b
  {
    var key := (t: Thread) => -t.updatedAt;
    forall t | t in a ensures t in all {
      assert t in multiset(a);
    }
    SortedUnique(a, b, key);
  }

  lemma OneArrangementOfMessages(a: seq<Message>, b: seq<Message>, all: set<Message>)
    requires ArrangesMessages(a, all) && ArrangesMessages(b, all) && NumbersDiffer(all)
    ensures a == b
  {
    var key := (m: Message) => m.seqNo;
    forall m | m in a ensures m in all {
      assert m in multiset(a);
    }
    SortedUnique(a, b, key);
  }

  /**
    Successive calls of `ListThreads` sort anew each, and not stably. Yet over an unchanged store
    in which no two of the threads asked for were updated at the same time, pages turned by the
    limit are the start of the scan, newest first; with enough pages they are all of it.
   */
  lemma ThreadPagesMakeScan(b: Book, f: ThreadFilter, limit: nat, pages: seq<seq<Thread>>)
    requires Agree(b) && limit > 0 && UpdatesDiffer(ThreadScan(b, f)) && pages != []
    requires Turned(b, f, limit, pages)
    ensures exists all :: ArrangesThreads(all, ThreadScan(b, f)) && Concat(pages) == Upto(all, Offset(|pages|, limit))
    ensures Offset(|pages|, limit) >= |ThreadScan(b, f)| ==> ArrangesThreads(Concat(pages), ThreadScan(b, f))
  {
    var all := ThreadPage(b, f, 0, limit, pages[0]);
    forall k | 0 <= k < |pages| ensures pages[k] == Page(all, Offset(k, limit), limit) {
      var other := ThreadPage(b, f, k, limit, pages[k]);
      OneArrangementOfThreads(all, other, ThreadScan(b, f));
    }
    PagesMakeList(all, pages, limit);
    assert |all| == |multiset(all)| == |ThreadScan(b, f)|;
  }

  lemma ThreadPage(b: Book, f: ThreadFilter, k: nat, limit: nat, page: seq<Thread>) returns (sorted: seq<Thread>)
    requires Agree(b) && ListsThreads(b, PageOfThreads(f, k, limit), page)
    ensures ArrangesThreads(sorted, ThreadScan(b, f)) && page == Page(sorted, Offset(k, limit), limit)
  {
    var g := PageOfThreads(f, k, limit);
    IndexedListIsScan(b, g, page);
    assert ThreadScan(b, g) == ThreadScan(b, f);
    sorted :| multiset(sorted) == multiset(ThreadScan(b, g)) && NewestFirst(sorted) && page == Page(sorted, g.offset, g.limit);
  }

  lemma MessagePage(b: Book, f: MessageFilter, k: nat, limit: nat, page: seq<Message>) returns (sorted: seq<Message>)
    requires Agree(b) && ListsMessages(b, PageOfMessages(f, k, limit), page)
    ensures ArrangesMessages(sorted, MessageScan(b, f)) && page == Page(sorted, Offset(k, limit), limit)
  {
    var g := PageOfMessages(f, k, limit);
    IndexedMessagesAreScan(b, g, page);
    assert MessageScan(b, g) == MessageScan(b, f);
    sorted :| multiset(sorted) == multiset(MessageScan(b, g)) && InSequence(sorted) && page == Page(sorted, g.offset, g.limit);
  }

  /** The same for `GetMessages` and sequence numbers. */
  lemma MessagePagesMakeScan(b: Book, f: MessageFilter, limit: nat, pages: seq<seq<Message>>)
    requires Agree(b) && limit > 0 && NumbersDiffer(MessageScan(b, f)) && pages != []
    requires forall k :: 0 <= k < |pages| ==> ListsMessages(b, PageOfMessages(f, k, limit), pages[k])
    ensures exists all :: ArrangesMessages(all, MessageScan(b, f)) && Concat(pages) == Upto(all, Offset(|pages|, limit))
    ensures Offset(|pages|, limit) >= |MessageScan(b, f)| ==> ArrangesMessages(Concat(pages), MessageScan(b, f))
  {
    var all := MessagePage(b, f, 0, limit, pages[0]);
    forall k | 0 <= k < |pages| ensures pages[k] == Page(all, Offset(k, limit), limit) {
      var other := MessagePage(b, f, k, limit, pages[k]);
      OneArrangementOfMessages(all, other, MessageScan(b, f));
    }
    PagesMakeList(all, pages, limit);
    assert |all| == |multiset(all)| == |MessageScan(b, f)|;
  }

  // ----- Ties between pages -----

  lemma {:induction false} SomeOrder(keys: set<Uuid>) returns (ids: seq<Uuid>)
    ensures Enumerates(ids, keys)
    decreases |keys|
  {
    if keys == {} {
      ids := [];
    } else {
      var id :| id in keys;
      var rest := SomeOrder(keys - {id});
      ids := rest + [id];
      assert keys == (keys - {id}) + {id};
    }
  }

  /** Whatever page is cut from whatever arrangement of the scan, the call may return it. */
  lemma ScanCanBeListed(b: Book, f: ThreadFilter, sorted: seq<Thread>)
    requires Agree(b) && ArrangesThreads(sorted, ThreadScan(b, f))
    ensures ListsThreads(b, f, Page(sorted, f.offset, f.limit))
  {
    var ids := List(b.byDid, f.did);
    if f.did == "" {
      ids := SomeOrder(b.threads.Keys);
    }
    ThreadPickIsScan(b, f, ids);
  }

  lemma PlaceFor(s: seq<Thread>, t: Thread) returns (n: nat)
    requires NewestFirst(s)
    ensures n <= |s|
    ensures forall k :: 0 <= k < n ==> s[k].updatedAt >= t.updatedAt
    ensures forall k :: n <= k < |s| ==> t.updatedAt >= s[k].updatedAt
  {
    n := |s|;
    while n > 0 && s[n - 1].updatedAt < t.updatedAt
      invariant n <= |s| && forall k :: n <= k < |s| ==> t.updatedAt >= s[k].updatedAt
    {
      n := n - 1;
    }
  }

  lemma InsertArranges(s: seq<Thread>, n: nat, t: Thread, all: set<Thread>)
    requires n <= |s| && t !in all && ArrangesThreads(s, all)
    requires forall k :: 0 <= k < n ==> s[k].updatedAt >= t.updatedAt
    requires forall k :: n <= k < |s| ==> t.updatedAt >= s[k].updatedAt
    ensures ArrangesThreads(s[..n] + [t] + s[n..], all + {t})
  {
    var key := (t: Thread) => -t.updatedAt;
    InsertAt(s, n, t, key);
    InsertAdds(s, n, t);
    assert SortedBy(s[..n] + [t] + s[n..], key);
  }

  lemma {:induction false} Arrangement(all: set<Thread>) returns (s: seq<Thread>)
    ensures ArrangesThreads(s, all)
    decreases |all|
  {
    if all == {} {
      s := [];
    } else {
      var t :| t in all;
      var rest := Arrangement(all - {t});
      var n := PlaceFor(rest, t);
      InsertArranges(rest, n, t, all - {t});
      assert all == (all - {t}) + {t};
      s := rest[..n] + [t] + rest[n..];
    }
  }

  lemma InsertBeside(s: seq<Thread>, n: nat, u: Thread, all: set<Thread>)
    requires n < |s| && u !in all && ArrangesThreads(s, all) && s[n].updatedAt == u.updatedAt
    ensures ArrangesThreads(s[..n + 1] + [u] + s[n + 1..], all + {u})
    ensures ArrangesThreads(s[..n] + [u] + s[n..], all + {u})
  {
    InsertArranges(s, n + 1, u, all);
    InsertArranges(s, n, u, all);
  }

  /** Threads updated at the same time may stand next to each other, either one first. */
  lemma TiedEitherWay(all: set<Thread>, t: Thread, u: Thread) returns (a: seq<Thread>, b: seq<Thread>, n: nat)
    requires t in all && u in all && t != u && t.updatedAt == u.updatedAt
    ensures ArrangesThreads(a, all) && ArrangesThreads(b, all)
    ensures |a| == |b| && n + 1 < |a| && a[n + 1] == u && b[n + 1] == t
  {
    var others := Arrangement(all - {u});
    assert t in multiset(others);
    n :| 0 <= n < |others| && others[n] == t;
    InsertBeside(others, n, u, all - {u});
    assert all == (all - {u}) + {u};
    a := others[..n + 1] + [u] + others[n + 1..];
    b := others[..n] + [u] + others[n..];
  }

  ghost predicate Turned(b: Book, f: ThreadFilter, limit: nat, pages: seq<seq<Thread>>) {
    forall k :: 0 <= k < |pages| ==> ListsThreads(b, PageOfThreads(f, k, limit), pages[k])
  }

  /** Enough pages of any size, turned over an unchanged store, show what is asked for, each thread once. */
  ghost predicate PagesShowAll(b: Book, f: ThreadFilter) {
    forall limit: nat, pages ::
      limit > 0 && Turned(b, f, limit, pages) && Offset(|pages|, limit) >= |ThreadScan(b, f)| ==>
        multiset(Concat(pages)) == multiset(ThreadScan(b, f))
  }

  lemma {:induction false} OffsetByOne(k: nat)
    ensures Offset(k, 1) == k
  {
    if k > 0 {
      OffsetByOne(k - 1);
    }
  }

  lemma {:induction false} InConcat<T>(pages: seq<seq<T>>, x: T)
    requires x in Concat(pages)
    ensures exists k :: 0 <= k < |pages| && x in pages[k]
  {
    if pages != [] && x in Concat(pages[..|pages| - 1]) {
      InConcat(pages[..|pages| - 1], x);
    }
  }

  lemma PageOfOne<T>(s: seq<T>, k: nat)
    requires k < |s|
    ensures Page(s, k, 1) == [s[k]]
  {
    assert s[0..] == s;
  }

  lemma OnePageOf(b: Book, f: ThreadFilter, sorted: seq<Thread>, k: nat)
    requires Agree(b) && ArrangesThreads(sorted, ThreadScan(b, f)) && k < |sorted|
    ensures ListsThreads(b, PageOfThreads(f, k, 1), [sorted[k]])
  {
    var g := PageOfThreads(f, k, 1);
    OffsetByOne(k);
    assert ThreadScan(b, g) == ThreadScan(b, f);
    ScanCanBeListed(b, g, sorted);
    PageOfOne(sorted, k);
  }

  /** Pages of one, from one listing but for the page `n`. */
  function Mixed(x: seq<Thread>, y: seq<Thread>, n: nat): seq<seq<Thread>>
    requires |x| == |y|
  {
    seq(|x|, k requires 0 <= k < |x| => [if k == n then y[k] else x[k]])
  }

  lemma MixedIsTurned(b: Book, f: ThreadFilter, x: seq<Thread>, y: seq<Thread>, n: nat)
    requires Agree(b) && ArrangesThreads(x, ThreadScan(b, f)) && ArrangesThreads(y, ThreadScan(b, f)) && |x| == |y|
    ensures Turned(b, f, 1, Mixed(x, y, n))
  {
    forall k | 0 <= k < |x| ensures ListsThreads(b, PageOfThreads(f, k, 1), Mixed(x, y, n)[k]) {
      OnePageOf(b, f, if k == n then y else x, k);
    }
  }

  lemma OnlyOnce(s: seq<Thread>, all: set<Thread>, i: nat, j: nat)
    requires multiset(s) == multiset(all) && i < |s| && j < |s| && s[i] == s[j]
    ensures i == j
  {
    if i < j {
      TwiceCounts(s, i, j);
    } else if j < i {
      TwiceCounts(s, j, i);
    }
  }

  lemma MixedMisses(x: seq<Thread>, y: seq<Thread>, all: set<Thread>, n: nat)
    requires multiset(x) == multiset(all) && |x| == |y| && n < |x| && x[n] != y[n]
    ensures x[n] !in Concat(Mixed(x, y, n))
  {
    var pages := Mixed(x, y, n);
    if x[n] in Concat(pages) {
      InConcat(pages, x[n]);
      var k :| 0 <= k < |pages| && x[n] in pages[k];
      OnlyOnce(x, all, k, n);
    }
  }

  /** One listing puts `u` where the other puts `t`, and page by page `u` is missed. */
  lemma TiedThreadMissed(b: Book, f: ThreadFilter, t: Thread, u: Thread) returns (pages: seq<seq<Thread>>)
    requires Agree(b) && t in ThreadScan(b, f) && u in ThreadScan(b, f) && t != u && t.updatedAt == u.updatedAt
    ensures Turned(b, f, 1, pages) && Offset(|pages|, 1) == |ThreadScan(b, f)| && u !in Concat(pages)
  {
    var all := ThreadScan(b, f);
    var x, y, n := TiedEitherWay(all, t, u);
    pages := Mixed(x, y, n + 1);
    MixedIsTurned(b, f, x, y, n + 1);
    MixedMisses(x, y, all, n + 1);
    OffsetByOne(|pages|);
    assert |x| == |multiset(x)| == |all|;
  }

  /** Turning pages shows everything, each thread once, exactly when no two threads asked for tie. */
  lemma PagesShowAllIff(b: Book, f: ThreadFilter)
    requires Agree(b)
    ensures PagesShowAll(b, f) <==> UpdatesDiffer(ThreadScan(b, f))
  {
    var all := ThreadScan(b, f);
    if UpdatesDiffer(all) {
      forall limit: nat, pages | limit > 0 && Turned(b, f, limit, pages) && Offset(|pages|, limit) >= |all|
        ensures multiset(Concat(pages)) == multiset(all)
      {
        if pages == [] {
          assert Offset(0, limit) == 0 && all == {};
        } else {
          ThreadPagesMakeScan(b, f, limit, pages);
        }
      }
    } else {
      var t, u :| t in all && u in all && t.updatedAt == u.updatedAt && t != u;
      var pages := TiedThreadMissed(b, f, t, u);
      assert u in multiset(all) && u !in multiset(Concat(pages));
    }
  }
}
