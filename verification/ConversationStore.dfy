/**
  `MemoryStore` of `pkg/conversation/memory.go`, method by method, against the functions and
  relations of `Conversation`. Threads and messages are values here: that the store and a caller
  may share a slice of participants is not followed.
 */
module ConversationStore {
  import opened Basics
  import opened Conversation
  import opened Sorting

  datatype Result<T> = Ok(value: T) | Err(error: Error)

  /** Offset and limit, as both listings apply them. */
  method Paginate<T>(s: seq<T>, offset: int, limit: int) returns (page: seq<T>)
    ensures page == Page(s, offset, limit)
    ensures var from := if offset < 0 then 0 else if offset > |s| then |s| else offset;
            && |page| == (if 0 < limit < |s| - from then limit else |s| - from)
            && forall i :: 0 <= i < |page| ==> page[i] == s[from + i]
  {
    page := s;
    if offset > 0 {
      if offset >= |page| {
        return [];
      }
      page := page[offset..];
    }
    if limit > 0 && |page| > limit {
      page := page[..limit];
    }
  }

  // ----- Loops over lists and maps -----

  lemma {:induction false} RemoveFirstAt(list: seq<Uuid>, i: nat)
    requires i < |list| && list[i] !in list[..i]
    ensures RemoveFirst(list, list[i]) == list[..i] + list[i + 1..]
    decreases i
  {
    if i > 0 {
      assert list[0] in list[..i];
      assert list[1..][..i - 1] == list[..i][1..];
      RemoveFirstAt(list[1..], i - 1);
      assert list[1..][i..] == list[i + 1..];
      assert [list[0]] + list[1..][..i - 1] == list[..i];
    }
  }

  /** The search for an id in a list of ids, and its removal where it is first found. */
  method RemoveFrom<K(==)>(index: Index<K>, k: K, id: Uuid) returns (r: Index<K>)
    ensures r == Drop(index, k, id)
  {
    var ids := List(index, k);
    for i := 0 to |ids|
      invariant id !in ids[..i]
    {
      if ids[i] == id {
        RemoveFirstAt(ids, i);
        return index[k := ids[..i] + ids[i + 1..]];
      }
    }
    assert ids[..|ids|] == ids;
    return index;
  }

  /** The loop over all receipts that deletes those of one message. */
  method ForgetOne(receipts: map<string, Receipt>, id: Uuid) returns (left: map<string, Receipt>)
    ensures left == Forget(receipts, {id})
  {
    left := receipts;
    var todo := receipts.Keys;
    while todo != {}
      invariant todo <= receipts.Keys
      invariant left == map key | key in receipts && (key in todo || !Concerns(key, {id})) :: receipts[key]
    {
      var key :| key in todo;
      if |key| > 36 && key[..36] == id {
        left := left - {key};
      }
      todo := todo - {key};
    }
  }

  lemma ForgetMore(receipts: map<string, Receipt>, ids: set<Uuid>, id: Uuid)
    ensures Forget(Forget(receipts, ids), {id}) == Forget(receipts, ids + {id})
    ensures Forget(receipts, {}) == receipts
  {
  }

  class MemoryStore {
    var threads: map<Uuid, Thread>
    var messages: map<Uuid, Message>
    var receipts: map<string, Receipt>
    var byThread: Index<Uuid>
    var byDid: Index<string>
    var closed: bool

    constructor ()
      ensures View() == EmptyBook && Agree(View())
    {
      threads, messages, receipts, byThread, byDid, closed := map[], map[], map[], map[], map[], false;
      new;
      EmptyAgrees();
    }

    function View(): Book
      reads this
    {
      Book(threads, messages, receipts, byThread, byDid, closed)
    }

    method CreateThread(t: Thread, ghost now: int) returns (err: Error)
      modifies this
      ensures View() == Apply(old(View()), Op.CreateThread(t), now)
      ensures err == Outcome(old(View()), Op.CreateThread(t))
    {
      if closed {
        return ErrStoreClosed;
      }
      threads := threads[t.id := t];
      Link(t.participants, [], t.id);
      return NoError;
    }

    method UpdateThread(t: Thread, ghost now: int) returns (err: Error)
      modifies this
      ensures View() == Apply(old(View()), Op.UpdateThread(t), now)
      ensures err == Outcome(old(View()), Op.UpdateThread(t))
    {
      if closed {
        return ErrStoreClosed;
      }
      if t.id !in threads {
        return ErrThreadNotFound;
      }
      var was := threads[t.id].participants;
      Unlink(was, t.participants, t.id);
      Link(t.participants, was, t.id);
      threads := threads[t.id := t];
      return NoError;
    }

    /** Takes the thread out of the list of everyone in `dids` who is not in `except`. */
    method Unlink(dids: seq<string>, except: seq<string>, id: Uuid)
      modifies this`byDid
      ensures byDid == Unlinked(old(byDid), dids, except, id)
    {
      for i := 0 to |dids|
        invariant byDid == Unlinked(old(byDid), dids[..i], except, id)
      {
        assert dids[..i + 1][..i] == dids[..i];
        if dids[i] !in except {
          byDid := RemoveFrom(byDid, dids[i], id);
        }
      }
      assert dids[..|dids|] == dids;
    }

    /** Puts the thread on the list of everyone in `dids` who is not in `except`. */
    method Link(dids: seq<string>, except: seq<string>, id: Uuid)
      modifies this`byDid
      ensures byDid == Linked(old(byDid), dids, except, id)
    {
      for i := 0 to |dids|
        invariant byDid == Linked(old(byDid), dids[..i], except, id)
      {
        assert dids[..i + 1][..i] == dids[..i];
        if dids[i] !in except {
          byDid := Append(byDid, dids[i], id);
        }
      }
      assert dids[..|dids|] == dids;
    }

    method DeleteThread(id: Uuid, ghost now: int) returns (err: Error)
      modifies this
      ensures View() == Apply(old(View()), Op.DeleteThread(id), now)
      ensures err == Outcome(old(View()), Op.DeleteThread(id))
    {
      if closed {
        return ErrStoreClosed;
      }
      if id !in threads {
        return ErrThreadNotFound;
      }
      Unlink(threads[id].participants, [], id);
      DeleteMessages(List(byThread, id));
      byThread := byThread - {id};
      threads := threads - {id};
      return NoError;
    }

    /** Deletes the messages and, for each, its receipts. */
    method DeleteMessages(ids: seq<Uuid>)
      modifies this`messages, this`receipts
      ensures messages == old(messages) - Elements(ids) && receipts == Forget(old(receipts), Elements(ids))
    {
      ForgetMore(receipts, {}, seq(36, _ => '0'));
      for i := 0 to |ids|
        invariant messages == old(messages) - Elements(ids[..i])
        invariant receipts == Forget(old(receipts), Elements(ids[..i]))
      {
        assert Elements(ids[..i + 1]) == Elements(ids[..i]) + {ids[i]};
        messages := messages - {ids[i]};
        receipts := ForgetOne(receipts, ids[i]);
        ForgetMore(old(receipts), Elements(ids[..i]), ids[i]);
      }
      assert ids[..|ids|] == ids;
    }

    method SaveMessage(m: Message, now: int) returns (err: Error)
      modifies this
      ensures View() == Apply(old(View()), Op.SaveMessage(m), now)
      ensures err == Outcome(old(View()), Op.SaveMessage(m))
    {
      if closed {
        return ErrStoreClosed;
      }
      if m.threadId !in threads {
        return ErrThreadNotFound;
      }
      messages := messages[m.id := m];
      byThread := Append(byThread, m.threadId, m.id);
      var t := threads[m.threadId];
      threads := threads[m.threadId :=
        t.(messageCount := t.messageCount + 1, lastMessage := Some(m.timestamp), updatedAt := now)];
      return NoError;
    }

    method DeleteMessage(id: Uuid, ghost now: int) returns (err: Error)
      modifies this
      ensures View() == Apply(old(View()), Op.DeleteMessage(id), now)
      ensures err == Outcome(old(View()), Op.DeleteMessage(id))
    {
      if closed {
        return ErrStoreClosed;
      }
      if id !in messages {
        return ErrMessageNotFound;
      }
      var tid := messages[id].threadId;
      byThread := RemoveFrom(byThread, tid, id);
      if tid in threads {
        threads := threads[tid := threads[tid].(messageCount := threads[tid].messageCount - 1)];
      }
      receipts := ForgetOne(receipts, id);
      messages := messages - {id};
      return NoError;
    }

    method MarkDelivered(id: Uuid, did: string, now: int) returns (err: Error)
      modifies this
      ensures View() == Apply(old(View()), Op.MarkDelivered(id, did), now)
      ensures err == Outcome(old(View()), Op.MarkDelivered(id, did))
    {
      if closed {
        return ErrStoreClosed;
      }
      if id !in messages {
        return ErrMessageNotFound;
      }
      var key := ReceiptKey(id, did);
      if key !in receipts {
        receipts := receipts[key := Receipt(id, did, Some(now), None)];
      } else if receipts[key].deliveredAt.None? {
        receipts := receipts[key := receipts[key].(deliveredAt := Some(now))];
      }
      return NoError;
    }

    method MarkRead(id: Uuid, did: string, now: int) returns (err: Error)
      modifies this
      ensures View() == Apply(old(View()), Op.MarkRead(id, did), now)
      ensures err == Outcome(old(View()), Op.MarkRead(id, did))
    {
      if closed {
        return ErrStoreClosed;
      }
      if id !in messages {
        return ErrMessageNotFound;
      }
      var key := ReceiptKey(id, did);
      if key !in receipts {
        receipts := receipts[key := Receipt(id, did, Some(now), Some(now))];
      } else {
        var r := receipts[key];
        if r.deliveredAt.None? {
          r := r.(deliveredAt := Some(now));
        }
        receipts := receipts[key := r.(readAt := Some(now))];
      }
      return NoError;
    }

    method Close(ghost now: int)
      modifies this
      ensures View() == Apply(old(View()), Op.Close, now)
    {
      closed := true;
      threads, messages, receipts, byThread, byDid := map[], map[], map[], map[], map[];
    }

    method ListThreads(f: ThreadFilter) returns (r: Result<seq<Thread>>)
      ensures r.Err? <==> closed
      ensures r.Err? ==> r.error == ErrStoreClosed
      ensures r.Ok? ==> ListsThreads(View(), f, r.value)
    {
      if closed {
        return Err(ErrStoreClosed);
      }
      var ids := List(byDid, f.did);
      if f.did == "" {
        ids := EnumerateThreads();
      }
      var found := CollectThreads(ids, f);
      var sorted := SortBy(found, (t: Thread) => -t.updatedAt);
      var page := Paginate(sorted, f.offset, f.limit);
      assert NewestFirst(sorted);
      assert ThreadSource(View(), f, ids);
      return Ok(page);
    }

    /** The keys of the thread map in some order. */
    method EnumerateThreads() returns (ids: seq<Uuid>)
      ensures Enumerates(ids, threads.Keys)
    {
      ids := [];
      var todo := threads.Keys;
      while todo != {}
        invariant todo <= threads.Keys && multiset(ids) == multiset(threads.Keys - todo)
      {
        var id :| id in todo;
        assert threads.Keys - (todo - {id}) == (threads.Keys - todo) + {id};
        ids, todo := ids + [id], todo - {id};
      }
      assert threads.Keys - todo == threads.Keys;
    }

    method CollectThreads(ids: seq<Uuid>, f: ThreadFilter) returns (found: seq<Thread>)
      ensures found == Pick(threads, ids, MatchingThreads(threads, f))
    {
      found := [];
      for i := 0 to |ids|
        invariant found == Pick(threads, ids[..i], MatchingThreads(threads, f))
      {
        assert ids[..i + 1][..i] == ids[..i];
        if ids[i] in threads && ThreadMatches(threads[ids[i]], f) {
          found := found + [threads[ids[i]]];
        }
      }
      assert ids[..|ids|] == ids;
    }

    method GetMessages(f: MessageFilter) returns (r: Result<seq<Message>>)
      ensures r.Err? <==> closed
      ensures r.Err? ==> r.error == ErrStoreClosed
      ensures r.Ok? ==> ListsMessages(View(), f, r.value)
    {
      if closed {
        return Err(ErrStoreClosed);
      }
      var ids := List(byThread, f.threadId);
      var found := [];
      for i := 0 to |ids|
        invariant found == Pick(messages, ids[..i], MatchingMessages(messages, f))
      {
        assert ids[..i + 1][..i] == ids[..i];
        if ids[i] in messages && MessageMatches(messages[ids[i]], f) {
          found := found + [messages[ids[i]]];
        }
      }
      assert ids[..|ids|] == ids;
      var sorted := SortBy(found, (m: Message) => m.seqNo);
      var page := Paginate(sorted, f.offset, f.limit);
      assert InSequence(sorted);
      return Ok(page);
    }
  }
}
