/**
  How long a bucket must be left idle before collecting it is safe. With a whole token in the
  bucket at all, the condition of `IdleBuckets` is exact: if the idle time does not refill a
  bucket, some client can tell that its bucket was collected.
 */
module IdleLimits {
  import opened TokenBucket
  import opened IdleBuckets

  /** What a limiter offers: key creation has one call that answers and takes, authentication has one for each. */
  datatype Interface = Taking | Charging

  predicate Offers(i: Interface, op: Op) {
    op.Sweep? || if i.Taking? then op.Take? else op.Peek? || op.Charge?
  }

  predicate OnlyOffered(i: Interface, ops: seq<Op>) {
    forall k :: 0 <= k < |ops| ==> Offers(i, ops[k])
  }

  /** No schedule of calls and collections gives an answer that it would not give without the collections. */
  ghost predicate Invisible(p: Policy, i: Interface) {
    forall start, ops :: Clocked(start, ops) && OnlyOffered(i, ops) ==>
      Answers(p, map[], WithoutSweeps(ops)) == Answers(p, map[], ops)
  }

  predicate Sensible(p: Policy) {
    p.limits.rate >= 0.0 && p.limits.size >= 0.0 && p.idle >= 0.0
  }

  // ----- A bucket smaller than a token -----

  lemma {:induction false} SmallAlwaysRefuses(p: Policy, kept: Table, swept: Table, ops: seq<Op>)
    requires p.limits.size < 1.0
    ensures Answers(p, kept, WithoutSweeps(ops)) == Answers(p, swept, ops)
    decreases |ops|
  {
    if ops != [] {
      var op, rest := ops[0], WithoutSweeps(ops[1..]);
      if op.Sweep? {
        SmallAlwaysRefuses(p, kept, Apply(p, swept, op), ops[1..]);
        assert WithoutSweeps(ops) == rest;
      } else {
        SmallAlwaysRefuses(p, Apply(p, kept, op), Apply(p, swept, op), ops[1..]);
        assert WithoutSweeps(ops) == [op] + rest && ([op] + rest)[1..] == rest;
      }
    }
  }

  // ----- Telling two tables apart -----

  ghost predicate Differs(p: Policy, i: Interface, kept: Table, swept: Table, start: real, ops: seq<Op>) {
    Clocked(start, ops) && OnlyOffered(i, ops) && Answers(p, kept, WithoutSweeps(ops)) != Answers(p, swept, ops)
  }

  /** Some calls and collections from `start` on are answered differently. */
  ghost predicate Tellable(p: Policy, i: Interface, kept: Table, swept: Table, start: real) {
    exists ops :: Differs(p, i, kept, swept, start, ops)
  }

  lemma Shifted<T>(a: seq<T>, b: seq<T>, x: seq<T>, y: seq<T>)
    requires |a| == |b| && x != y
    ensures a + x != b + y
  {
    assert (a + x)[|a|..] == x && (b + y)[|b|..] == y;
  }

  lemma TellAfter(p: Policy, i: Interface, kept: Table, swept: Table, start: real, op: Op)
    requires !op.Sweep? && Offers(i, op) && start <= op.now
    requires Tellable(p, i, Apply(p, kept, op), Apply(p, swept, op), op.now)
    ensures Tellable(p, i, kept, swept, start)
  {
    var ops :| Differs(p, i, Apply(p, kept, op), Apply(p, swept, op), op.now, ops);
    var all := [op] + ops;
    assert all[1..] == ops;
    assert WithoutSweeps(all) == [op] + WithoutSweeps(ops) && ([op] + WithoutSweeps(ops))[1..] == WithoutSweeps(ops);
    Shifted(Answer(p, kept, op), Answer(p, swept, op),
            Answers(p, Apply(p, kept, op), WithoutSweeps(ops)), Answers(p, Apply(p, swept, op), ops));
    assert Differs(p, i, kept, swept, start, all);
  }

  lemma TellAfterSweep(p: Policy, i: Interface, kept: Table, swept: Table, start: real, now: real)
    requires start <= now && Tellable(p, i, kept, Swept(p, swept, now), now)
    ensures Tellable(p, i, kept, swept, start)
  {
    var ops :| Differs(p, i, kept, Swept(p, swept, now), now, ops);
    var all := [Sweep(now)] + ops;
    assert all[1..] == ops;
    assert WithoutSweeps(all) == WithoutSweeps(ops);
    assert Answers(p, swept, all) == Answers(p, Swept(p, swept, now), ops);
    assert Differs(p, i, kept, swept, start, all);
  }

  lemma OneAnswer(p: Policy, t: Table, op: Op)
    ensures Answers(p, t, [op]) == Answer(p, t, op)
  {
    assert [op][1..] == [] && Answer(p, t, op) + [] == Answer(p, t, op);
  }

  lemma TellNow(p: Policy, i: Interface, kept: Table, swept: Table, start: real, op: Op)
    requires !op.Sweep? && Offers(i, op) && start <= op.now && Answer(p, kept, op) != Answer(p, swept, op)
    ensures Tellable(p, i, kept, swept, start)
  {
    assert [op][1..] == [] && WithoutSweeps([op]) == [op];
    OneAnswer(p, kept, op);
    OneAnswer(p, swept, op);
    assert Differs(p, i, kept, swept, start, [op]);
  }

  // ----- One client -----

  function One(tokens: real, at: real): Table {
    map["client" := Entry(Bucket(tokens, at), at)]
  }

  /** How the client asks, and how it uses up a token. */
  function Ask(i: Interface, now: real): Op {
    if i.Taking? then Take("client", now) else Peek("client", now)
  }

  function Use(i: Interface, now: real): Op {
    if i.Taking? then Take("client", now) else Charge("client", now)
  }

  lemma Division(x: real, r: real)
    requires r > 0.0
    ensures (x / r) * r == x && (x >= 0.0 ==> x / r >= 0.0)
  {
  }

  /** How long a bucket takes to gain `x` tokens. */
  lemma TimeToGain(l: Limits, at: real, x: real) returns (now: real)
    requires l.rate > 0.0 && x >= 0.0
    ensures now >= at && Gain(l, at, now) == x
  {
    Division(x, l.rate);
    now := at + x / l.rate;
    assert now - at == x / l.rate;
  }

  /** What a call finds in the bucket, below its size, and what it leaves. */
  lemma Calls(p: Policy, i: Interface, tokens: real, at: real, now: real)
    requires tokens + Gain(p.limits, at, now) <= p.limits.size
    ensures var found := tokens + Gain(p.limits, at, now);
            && Answer(p, One(tokens, at), Ask(i, now)) == [found >= 1.0]
            && (found >= 1.0 ==> Apply(p, One(tokens, at), Use(i, now)) == One(found - 1.0, now))
  {
  }

  /** A call at the moment of the last one finds the bucket as it was left. */
  lemma CallsNow(p: Policy, i: Interface, tokens: real, at: real)
    requires tokens <= p.limits.size
    ensures Answer(p, One(tokens, at), Ask(i, at)) == [tokens >= 1.0]
    ensures tokens >= 1.0 ==> Apply(p, One(tokens, at), Use(i, at)) == One(tokens - 1.0, at)
  {
    assert Gain(p.limits, at, at) == 0.0;
    Calls(p, i, tokens, at, at);
  }

  lemma FirstCalls(p: Policy, i: Interface, now: real)
    requires p.limits.size >= 1.0
    ensures Answer(p, map[], Ask(i, now)) == [true]
    ensures Apply(p, map[], Use(i, now)) == One(p.limits.size - 1.0, now)
  {
    NewIsFull(p, now);
  }

  /** Two clients that differ by any amount can be told apart, now or when one of them gets its next token. */
  lemma {:induction false} Unequal(p: Policy, i: Interface, k: real, s: real, at: real)
    requires Sensible(p) && 0.0 <= k < s <= p.limits.size && p.limits.size >= 1.0 && (p.limits.rate > 0.0 || k < 1.0 <= s)
    ensures Tellable(p, i, One(k, at), One(s, at), at)
    decreases k.Floor
  {
    CallsNow(p, i, k, at);
    CallsNow(p, i, s, at);
    if k >= 1.0 {
      Unequal(p, i, k - 1.0, s - 1.0, at);
      TellAfter(p, i, One(k, at), One(s, at), at, Use(i, at));
    } else if s >= 1.0 {
      TellNow(p, i, One(k, at), One(s, at), at, Ask(i, at));
    } else {
      var now := TimeToGain(p.limits, at, 1.0 - s);
      Calls(p, i, k, at, now);
      Calls(p, i, s, at, now);
      TellNow(p, i, One(k, at), One(s, at), at, Ask(i, now));
    }
  }

  /** A moment at which the bucket is collected and would not have been full. */
  lemma CollectedTooEarly(p: Policy, z: real, at: real) returns (now: real)
    requires Sensible(p) && z + Gain(p.limits, 0.0, p.idle) < p.limits.size
    ensures now - p.idle > at && z + Gain(p.limits, at, now) < p.limits.size
  {
    var l := p.limits;
    if l.rate == 0.0 {
      now := at + p.idle + 1.0;
    } else {
      var spare := (l.size - z - Gain(l, 0.0, p.idle)) / 2.0;
      var later := TimeToGain(l, at + p.idle, spare);
      GainShift(l, at, at + p.idle);
      GainAdds(l, at, at + p.idle, later);
      assert Gain(l, at + p.idle, at + p.idle) == 0.0 < spare;
      now := later;
    }
  }

  /** A client whose bucket would hold `k` tokens meets a new one instead. */
  lemma TellFromNew(p: Policy, i: Interface, z: real, at: real, now: real)
    requires Sensible(p) && p.limits.size >= 1.0 && at <= now
    requires 0.0 <= z + Gain(p.limits, at, now) < p.limits.size && (p.limits.rate > 0.0 || z < 1.0)
    ensures Tellable(p, i, One(z, at), map[], now)
  {
    var k := z + Gain(p.limits, at, now);
    Calls(p, i, z, at, now);
    FirstCalls(p, i, now);
    if k < 1.0 {
      TellNow(p, i, One(z, at), map[], now, Ask(i, now));
    } else {
      Unequal(p, i, k - 1.0, p.limits.size - 1.0, now);
      TellAfter(p, i, One(z, at), map[], now, Use(i, now));
    }
  }

  /** A bucket too empty to refill in the idle time can be told from a new one once it is collected. */
  lemma TellCollected(p: Policy, i: Interface, z: real, at: real)
    requires Sensible(p) && z >= 0.0 && z + Gain(p.limits, 0.0, p.idle) < p.limits.size && p.limits.size >= 1.0
    requires p.limits.rate > 0.0 || z < 1.0
    ensures Tellable(p, i, One(z, at), One(z, at), at)
  {
    var now := CollectedTooEarly(p, z, at);
    assert Swept(p, One(z, at), now) == map[];
    GainMonotone(p.limits, at, at, now, now);
    TellFromNew(p, i, z, at, now);
    TellAfterSweep(p, i, One(z, at), One(z, at), at, now);
  }

  lemma {:induction false} TellDrained(p: Policy, i: Interface, x: real, at: real)
    requires Sensible(p) && 0.0 <= x <= p.limits.size && p.limits.size >= 1.0 && Gain(p.limits, 0.0, p.idle) < p.limits.size
    ensures Tellable(p, i, One(x, at), One(x, at), at)
    decreases x.Floor
  {
    if x >= 1.0 {
      CallsNow(p, i, x, at);
      TellDrained(p, i, x - 1.0, at);
      TellAfter(p, i, One(x, at), One(x, at), at, Use(i, at));
    } else if p.limits.rate == 0.0 {
      assert Gain(p.limits, 0.0, p.idle) == 0.0;
      TellCollected(p, i, x, at);
    } else {
      var now := TimeToGain(p.limits, at, 1.0 - x);
      Calls(p, i, x, at, now);
      TellCollected(p, i, 0.0, now);
      TellAfter(p, i, One(x, at), One(x, at), at, Use(i, now));
    }
  }

  /**
    Collection is invisible to the callers of either limiter exactly when the idle time refills a
    bucket, or no bucket ever holds a token.
   */
  lemma InvisibleIff(p: Policy, i: Interface)
    requires Sensible(p)
    ensures Invisible(p, i) <==> IdleRefills(p) || p.limits.size < 1.0
  {
    if IdleRefills(p) || p.limits.size < 1.0 {
      forall start, ops | Clocked(start, ops) && OnlyOffered(i, ops)
        ensures Answers(p, map[], WithoutSweeps(ops)) == Answers(p, map[], ops)
      {
        if IdleRefills(p) {
          SweepsAreInvisible(p, start, ops);
        } else {
          SmallAlwaysRefuses(p, map[], map[], ops);
        }
      }
    } else {
      FirstCalls(p, i, 0.0);
      TellDrained(p, i, p.limits.size - 1.0, 0.0);
      TellAfter(p, i, map[], map[], 0.0, Use(i, 0.0));
      var ops :| Differs(p, i, map[], map[], 0.0, ops);
    }
  }

  // ----- Each client has a bucket of its own -----

  /** The table after a client's calls: its bucket is that of a limiter of its own, made at its first call. */
  ghost predicate HasOwn(p: Policy, t: Table, id: string, times: seq<real>) {
    if times == [] then id !in t
    else id in t && t[id] == Entry(After(p.limits, times[0], times), times[|times| - 1])
  }

  lemma NextOwn(p: Policy, t: Table, id: string, times: seq<real>, now: real)
    requires HasOwn(p, t, id, times)
    ensures var all := times + [now];
            && HasOwn(p, Apply(p, t, Take(id, now)), id, all)
            && Answer(p, t, Take(id, now)) == [Allowed(p.limits, all[0], all, |times|)]
  {
    var all := times + [now];
    assert all[..|times|] == times;
  }

  lemma OthersKeepOwn(p: Policy, t: Table, id: string, times: seq<real>, op: Op)
    requires HasOwn(p, t, id, times) && !op.Sweep? && op.id != id
    ensures HasOwn(p, Apply(p, t, op), id, times)
  {
  }

  /** The times of a client's calls, and the answers to them, in any schedule of all clients' calls. */
  function TimesOf(ops: seq<Op>, id: string): seq<real> {
    if ops == [] then []
    else
      var n := |ops| - 1;
      TimesOf(ops[..n], id) + if ops[n].Take? && ops[n].id == id then [ops[n].now] else []
  }

  ghost predicate OnlyTakes(ops: seq<Op>) {
    forall i :: 0 <= i < |ops| ==> ops[i].Take?
  }

  lemma {:induction false} OwnAfter(p: Policy, ops: seq<Op>, id: string)
    requires OnlyTakes(ops)
    ensures HasOwn(p, AfterAll(p, map[], ops), id, TimesOf(ops, id))
  {
    if ops != [] {
      var n := |ops| - 1;
      OwnAfter(p, ops[..n], id);
      LastOfAll(p, map[], ops);
      if ops[n].id == id {
        NextOwn(p, AfterAll(p, map[], ops[..n]), id, TimesOf(ops[..n], id), ops[n].now);
      } else {
        OthersKeepOwn(p, AfterAll(p, map[], ops[..n]), id, TimesOf(ops[..n], id), ops[n]);
        assert TimesOf(ops[..n], id) + [] == TimesOf(ops[..n], id);
      }
    }
  }

  lemma {:induction false} LastOfAll(p: Policy, t: Table, ops: seq<Op>)
    requires ops != []
    ensures var n := |ops| - 1; AfterAll(p, t, ops) == Apply(p, AfterAll(p, t, ops[..n]), ops[n])
    decreases |ops|
  {
    var n := |ops| - 1;
    if n > 0 {
      LastOfAll(p, Apply(p, t, ops[0]), ops[1..]);
      assert ops[1..][..n - 1] == ops[..n][1..];
    }
  }

  /**
    Whatever the others do, a client is answered as by a limiter of its own that was made at its
    first call; so what is known of one token bucket holds for each client of a table.
   */
  lemma ClientsApart(p: Policy, ops: seq<Op>, id: string, now: real)
    requires OnlyTakes(ops)
    ensures var times := TimesOf(ops, id) + [now];
            Answer(p, AfterAll(p, map[], ops), Take(id, now)) == [Allowed(p.limits, times[0], times, |times| - 1)]
  {
    OwnAfter(p, ops, id);
    NextOwn(p, AfterAll(p, map[], ops), id, TimesOf(ops, id), now);
  }
}
