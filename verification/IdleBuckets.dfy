/**
  The two limiters that keep one token bucket per client and throw idle ones away: the key
  creation limiter of `cmd/dashboard/middleware.go` and the authentication limiter of
  `pkg/billing/auth_limiter.go`. Buckets are created full on first sight, so deleting one forgets
  what its client has used up. The theorem is that no client can tell: with the constants of
  either limiter, whatever the schedule of collections, every answer is the one a limiter that
  never deletes would give.
 */
module IdleBuckets {
  import opened TokenBucket

  datatype Policy = Policy(limits: Limits, idle: real)

  datatype Entry = Entry(bucket: Bucket, lastSeen: real)

  type Table = map<string, Entry>

  /** 10 per hour, up to 10 at once; collected after two hours. */
  const KEY_CREATE := Policy(Limits(10.0 / 3600.0, 10.0), 7200.0)

  /** One per second, up to 10 at once; collected after one hour. */
  const AUTH := Policy(Limits(1.0, 10.0), 3600.0)

  datatype Op =
    | Take(id: string, now: real)   // answer, and use up a token if there is one
    | Peek(id: string, now: real)   // only answer
    | Charge(id: string, now: real) // only use up a token
    | Sweep(now: real)              // delete the idle buckets

  function Lookup(p: Policy, t: Table, id: string, now: real): Bucket {
    if id in t then t[id].bucket else Bucket(p.limits.size, now)
  }

  function Touched(p: Policy, b: Bucket, peek: bool, now: real): Entry {
    Entry(if peek then Bucket(Refilled(p.limits, b, now), now) else Next(p.limits, b, now), now)
  }

  function Swept(p: Policy, t: Table, now: real): Table {
    map id | id in t && t[id].lastSeen >= now - p.idle :: t[id]
  }

  function Apply(p: Policy, t: Table, op: Op): Table {
    if op.Sweep? then Swept(p, t, op.now)
    else t[op.id := Touched(p, Lookup(p, t, op.id, op.now), op.Peek?, op.now)]
  }

  function Answer(p: Policy, t: Table, op: Op): seq<bool> {
    if op.Take? || op.Peek? then [Allows(p.limits, Lookup(p, t, op.id, op.now), op.now)] else []
  }

  function Answers(p: Policy, t: Table, ops: seq<Op>): seq<bool>
    decreases |ops|
  {
    if ops == [] then [] else Answer(p, t, ops[0]) + Answers(p, Apply(p, t, ops[0]), ops[1..])
  }

  function WithoutSweeps(ops: seq<Op>): seq<Op> {
    if ops == [] then []
    else (if ops[0].Sweep? then [] else [ops[0]]) + WithoutSweeps(ops[1..])
  }

  /** No operation is earlier than `start` or than the one before it. */
  predicate Clocked(start: real, ops: seq<Op>)
    decreases |ops|
  {
    ops == [] || (start <= ops[0].now && Clocked(ops[0].now, ops[1..]))
  }

  // ----- Why nobody can tell -----

  /** A bucket left alone for the idle time is full again, however empty it was. */
  predicate IdleRefills(p: Policy) {
    p.limits.rate >= 0.0 && p.limits.size >= 0.0 && p.idle >= 0.0 && Gain(p.limits, 0.0, p.idle) >= p.limits.size
  }

  ghost predicate Sane(p: Policy, t: Table, now: real) {
    forall id :: id in t ==>
      t[id].bucket.tokens >= 0.0 && t[id].bucket.lastUpdate == t[id].lastSeen <= now
  }

  predicate FullAt(p: Policy, b: Bucket, now: real) {
    Refilled(p.limits, b, now) == p.limits.size
  }

  /** The table that was swept lacks only buckets that would be full by now. */
  ghost predicate Matches(p: Policy, kept: Table, swept: Table, now: real) {
    && (forall id :: id in swept ==> id in kept && kept[id] == swept[id])
    && (forall id :: id in kept && id !in swept ==> FullAt(p, kept[id].bucket, now))
  }

  lemma StaysFull(p: Policy, b: Bucket, now: real, later: real)
    requires p.limits.rate >= 0.0 && now <= later && FullAt(p, b, now)
    ensures FullAt(p, b, later)
  {
    GainAdds(p.limits, b.lastUpdate, now, later);
    GainMonotone(p.limits, now, now, later, later);
  }

  lemma NewIsFull(p: Policy, now: real)
    ensures FullAt(p, Bucket(p.limits.size, now), now)
  {
    assert Gain(p.limits, now, now) == 0.0;
  }

  lemma GainShift(l: Limits, a: real, b: real)
    ensures Gain(l, a, b) == Gain(l, 0.0, b - a)
  {
  }

  lemma IdleIsFull(p: Policy, b: Bucket, now: real)
    requires IdleRefills(p) && b.tokens >= 0.0 && b.lastUpdate < now - p.idle
    ensures FullAt(p, b, now)
  {
    GainShift(p.limits, b.lastUpdate, now);
    GainMonotone(p.limits, 0.0, 0.0, p.idle, now - b.lastUpdate);
  }

  lemma TouchStaysSane(p: Policy, b: Bucket, peek: bool, now: real)
    requires IdleRefills(p) && b.tokens >= 0.0 && b.lastUpdate <= now
    ensures Touched(p, b, peek, now).bucket.tokens >= 0.0
  {
    GainMonotone(p.limits, b.lastUpdate, b.lastUpdate, now, now);
  }

  lemma ApplyStaysSane(p: Policy, t: Table, before: real, op: Op)
    requires IdleRefills(p) && Sane(p, t, before) && before <= op.now
    ensures Sane(p, Apply(p, t, op), op.now)
  {
    if !op.Sweep? {
      TouchStaysSane(p, Lookup(p, t, op.id, op.now), op.Peek?, op.now);
    }
  }

  /** A client whose bucket was deleted meets a new one that answers and continues alike. */
  lemma SameBucketInUse(p: Policy, kept: Table, swept: Table, before: real, op: Op)
    requires IdleRefills(p) && Matches(p, kept, swept, before) && before <= op.now && !op.Sweep?
    ensures var k, s := Lookup(p, kept, op.id, op.now), Lookup(p, swept, op.id, op.now);
            Refilled(p.limits, k, op.now) == Refilled(p.limits, s, op.now)
  {
    NewIsFull(p, op.now);
    if op.id in kept && op.id !in swept {
      StaysFull(p, kept[op.id].bucket, before, op.now);
    }
  }

  lemma UseKeepsMatch(p: Policy, kept: Table, swept: Table, before: real, op: Op)
    requires IdleRefills(p) && Matches(p, kept, swept, before) && before <= op.now && !op.Sweep?
    ensures Matches(p, Apply(p, kept, op), Apply(p, swept, op), op.now)
    ensures Answer(p, kept, op) == Answer(p, swept, op)
  {
    SameBucketInUse(p, kept, swept, before, op);
    forall id | id in kept && id !in swept && id != op.id ensures FullAt(p, kept[id].bucket, op.now) {
      StaysFull(p, kept[id].bucket, before, op.now);
    }
  }

  lemma SweepKeepsMatch(p: Policy, kept: Table, swept: Table, before: real, now: real)
    requires IdleRefills(p) && Sane(p, kept, before) && Matches(p, kept, swept, before) && before <= now
    ensures Matches(p, kept, Swept(p, swept, now), now)
  {
    forall id | id in kept && id !in Swept(p, swept, now) ensures FullAt(p, kept[id].bucket, now) {
      if id in swept {
        IdleIsFull(p, kept[id].bucket, now);
      } else {
        StaysFull(p, kept[id].bucket, before, now);
      }
    }
  }

  lemma {:induction false} MatchingTablesAnswerAlike(p: Policy, kept: Table, swept: Table, before: real, ops: seq<Op>)
    requires IdleRefills(p) && Sane(p, kept, before) && Matches(p, kept, swept, before) && Clocked(before, ops)
    ensures Answers(p, kept, WithoutSweeps(ops)) == Answers(p, swept, ops)
    decreases |ops|
  {
    if ops != [] {
      var op, rest := ops[0], WithoutSweeps(ops[1..]);
      if op.Sweep? {
        SweepKeepsMatch(p, kept, swept, before, op.now);
        MatchingTablesAnswerAlike(p, kept, Apply(p, swept, op), op.now, ops[1..]);
        assert WithoutSweeps(ops) == rest;
      } else {
        UseKeepsMatch(p, kept, swept, before, op);
        ApplyStaysSane(p, kept, before, op);
        MatchingTablesAnswerAlike(p, Apply(p, kept, op), Apply(p, swept, op), op.now, ops[1..]);
        assert WithoutSweeps(ops) == [op] + rest;
        assert ([op] + rest)[1..] == rest;
      }
    }
  }

  /** Collecting idle buckets, at whatever moments, changes no answer. */
  lemma SweepsAreInvisible(p: Policy, start: real, ops: seq<Op>)
    requires IdleRefills(p) && Clocked(start, ops)
    ensures Answers(p, map[], WithoutSweeps(ops)) == Answers(p, map[], ops)
  {
    MatchingTablesAnswerAlike(p, map[], map[], start, ops);
  }

  /** The constants of both limiters leave enough idle time. */
  lemma BothLimitersRefill(start: real, ops: seq<Op>)
    requires Clocked(start, ops)
    ensures Answers(KEY_CREATE, map[], WithoutSweeps(ops)) == Answers(KEY_CREATE, map[], ops)
    ensures Answers(AUTH, map[], WithoutSweeps(ops)) == Answers(AUTH, map[], ops)
  {
    assert Gain(KEY_CREATE.limits, 0.0, KEY_CREATE.idle) == 20.0;
    assert Gain(AUTH.limits, 0.0, AUTH.idle) == 3600.0;
    SweepsAreInvisible(KEY_CREATE, start, ops);
    SweepsAreInvisible(AUTH, start, ops);
  }

  // ----- Why asking costs nothing -----

  /** What a client would find in its bucket at that time. */
  function Level(p: Policy, t: Table, id: string, time: real): real {
    Refilled(p.limits, Lookup(p, t, id, time), time)
  }

  /** From `now` on every client finds the same in both. */
  ghost predicate Alike(p: Policy, a: Table, b: Table, now: real) {
    forall id, time :: time >= now ==> Level(p, a, id, time) == Level(p, b, id, time)
  }

  /** Refilling at one time and again later is refilling later. */
  lemma RefillTwice(l: Limits, b: Bucket, t: real, u: real)
    requires l.rate >= 0.0 && t <= u
    ensures Refilled(l, Bucket(Refilled(l, b, t), t), u) == Refilled(l, b, u)
  {
    GainAdds(l, b.lastUpdate, t, u);
    GainMonotone(l, t, t, u, u);
    assert Gain(l, t, t) == 0.0;
  }

  lemma PeekAlike(p: Policy, t: Table, id: string, now: real)
    requires p.limits.rate >= 0.0
    ensures Alike(p, Apply(p, t, Peek(id, now)), t, now)
  {
    var after := Apply(p, t, Peek(id, now));
    forall x, time | time >= now ensures Level(p, after, x, time) == Level(p, t, x, time) {
      if x == id {
        NewIsFull(p, now);
        NewIsFull(p, time);
        RefillTwice(p.limits, Lookup(p, t, id, now), now, time);
        if id !in t {
          StaysFull(p, Bucket(p.limits.size, now), now, time);
        }
      }
    }
  }

  lemma UseAlike(p: Policy, a: Table, b: Table, before: real, op: Op)
    requires Alike(p, a, b, before) && before <= op.now && !op.Sweep?
    ensures Answer(p, a, op) == Answer(p, b, op) && Alike(p, Apply(p, a, op), Apply(p, b, op), op.now)
  {
    assert Level(p, a, op.id, op.now) == Level(p, b, op.id, op.now);
    assert Touched(p, Lookup(p, a, op.id, op.now), op.Peek?, op.now) == Touched(p, Lookup(p, b, op.id, op.now), op.Peek?, op.now);
    forall x, time | time >= op.now ensures Level(p, Apply(p, a, op), x, time) == Level(p, Apply(p, b, op), x, time) {
      assert x != op.id ==> Level(p, a, x, time) == Level(p, b, x, time);
    }
  }

  lemma {:induction false} AlikeAnswers(p: Policy, a: Table, b: Table, now: real, ops: seq<Op>)
    requires Alike(p, a, b, now) && Clocked(now, ops) && forall i :: 0 <= i < |ops| ==> !ops[i].Sweep?
    ensures Answers(p, a, ops) == Answers(p, b, ops)
    decreases |ops|
  {
    if ops != [] {
      UseAlike(p, a, b, now, ops[0]);
      AlikeAnswers(p, Apply(p, a, ops[0]), Apply(p, b, ops[0]), ops[0].now, ops[1..]);
    }
  }

  function AfterAll(p: Policy, t: Table, ops: seq<Op>): Table
    decreases |ops|
  {
    if ops == [] then t else AfterAll(p, Apply(p, t, ops[0]), ops[1..])
  }

  ghost predicate OnlyPeeks(ops: seq<Op>) {
    forall i :: 0 <= i < |ops| ==> ops[i].Peek?
  }

  lemma AlikeTransitive(p: Policy, a: Table, b: Table, c: Table, now: real, later: real)
    requires Alike(p, a, b, later) && Alike(p, b, c, now) && now <= later
    ensures Alike(p, a, c, later)
  {
    forall id, time | time >= later ensures Level(p, a, id, time) == Level(p, c, id, time) {
      assert Level(p, a, id, time) == Level(p, b, id, time);
    }
  }

  function LastTime(start: real, ops: seq<Op>): real {
    if ops == [] then start else ops[|ops| - 1].now
  }

  lemma {:induction false} PeeksAlike(p: Policy, t: Table, start: real, peeks: seq<Op>)
    requires p.limits.rate >= 0.0 && Clocked(start, peeks) && OnlyPeeks(peeks)
    ensures start <= LastTime(start, peeks) && Alike(p, AfterAll(p, t, peeks), t, LastTime(start, peeks))
    decreases |peeks|
  {
    if peeks != [] {
      var op, next := peeks[0], Apply(p, t, peeks[0]);
      PeekAlike(p, t, op.id, op.now);
      PeeksAlike(p, next, op.now, peeks[1..]);
      AlikeTransitive(p, AfterAll(p, next, peeks[1..]), next, t, op.now, LastTime(op.now, peeks[1..]));
    }
  }

  /** Asking any number of times changes no later answer, whoever asks and whatever is in the table. */
  lemma PeeksChangeNothing(p: Policy, t: Table, start: real, peeks: seq<Op>, ops: seq<Op>)
    requires p.limits.rate >= 0.0 && Clocked(start, peeks) && OnlyPeeks(peeks)
    requires Clocked(LastTime(start, peeks), ops) && forall i :: 0 <= i < |ops| ==> !ops[i].Sweep?
    ensures Answers(p, AfterAll(p, t, peeks), ops) == Answers(p, t, ops)
  {
    PeeksAlike(p, t, start, peeks);
    AlikeAnswers(p, AfterAll(p, t, peeks), t, LastTime(start, peeks), ops);
  }

  // ----- The objects -----

  /** The loop of both collectors: every bucket last seen before the cutoff goes. */
  method Collect(p: Policy, buckets: Table, now: real) returns (left: Table)
    ensures left == Swept(p, buckets, now)
  {
    left := buckets;
    var cutoff, todo := now - p.idle, buckets.Keys;
    while todo != {}
      invariant todo <= buckets.Keys
      invariant left == map id | id in buckets && (id in todo || buckets[id].lastSeen >= cutoff) :: buckets[id]
    {
      var id :| id in todo;
      if left[id].lastSeen < cutoff {
        left := left - {id};
      }
      todo := todo - {id};
    }
  }

  class KeyCreateLimiter {
    var buckets: Table

    constructor ()
      ensures buckets == map[]
    {
      buckets := map[];
    }

    method Allow(tenant: string, now: real) returns (ok: bool)
      modifies this
      ensures buckets == Apply(KEY_CREATE, old(buckets), Take(tenant, now))
      ensures [ok] == Answer(KEY_CREATE, old(buckets), Take(tenant, now))
    {
      var l := KEY_CREATE.limits;
      if tenant !in buckets {
        buckets := buckets[tenant := Entry(Bucket(l.size, now), now)];
      }
      var b := buckets[tenant].bucket;
      var tokens := b.tokens + Gain(l, b.lastUpdate, now);
      if tokens > l.size {
        tokens := l.size;
      }
      if tokens < 1.0 {
        buckets := buckets[tenant := Entry(Bucket(tokens, now), now)];
        return false;
      }
      buckets := buckets[tenant := Entry(Bucket(tokens - 1.0, now), now)];
      return true;
    }

    method CollectIdle(now: real)
      modifies this
      ensures buckets == Apply(KEY_CREATE, old(buckets), Sweep(now))
    {
      buckets := Collect(KEY_CREATE, buckets, now);
    }
  }

  class AuthLimiter {
    var buckets: Table

    constructor ()
      ensures buckets == map[]
    {
      buckets := map[];
    }

    method GetOrCreate(ip: string, now: real) returns (b: Bucket)
      modifies this
      ensures b == Lookup(AUTH, old(buckets), ip, now) && buckets == old(buckets)[ip := Entry(b, now)]
    {
      b := if ip in buckets then buckets[ip].bucket else Bucket(AUTH.limits.size, now);
      buckets := buckets[ip := Entry(b, now)];
    }

    static method Refill(b: Bucket, now: real) returns (full: Bucket)
      ensures full == Bucket(Refilled(AUTH.limits, b, now), now)
    {
      var tokens := b.tokens + Gain(AUTH.limits, b.lastUpdate, now);
      if tokens > AUTH.limits.size {
        tokens := AUTH.limits.size;
      }
      full := Bucket(tokens, now);
    }

    method Allow(ip: string, now: real) returns (ok: bool)
      modifies this
      ensures buckets == Apply(AUTH, old(buckets), Peek(ip, now))
      ensures [ok] == Answer(AUTH, old(buckets), Peek(ip, now))
    {
      var b := GetOrCreate(ip, now);
      b := Refill(b, now);
      buckets := buckets[ip := Entry(b, now)];
      ok := b.tokens >= 1.0;
    }

    method Consume(ip: string, now: real)
      modifies this
      ensures buckets == Apply(AUTH, old(buckets), Charge(ip, now))
    {
      var b := GetOrCreate(ip, now);
      b := Refill(b, now);
      if b.tokens >= 1.0 {
        b := Bucket(b.tokens - 1.0, now);
      }
      buckets := buckets[ip := Entry(b, now)];
    }

    method CollectIdle(now: real)
      modifies this
      ensures buckets == Apply(AUTH, old(buckets), Sweep(now))
    {
      buckets := Collect(AUTH, buckets, now);
    }
  }
}
