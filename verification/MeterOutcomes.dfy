/**
  How the calls of the meter end. A decision is told from the value that the call's own addition
  gave, in every interleaving; a call that runs alone is a plain bounded counter.
 */
module MeterOutcomes {
  import opened Basics
  import opened Meter

  // ----- Reading off the actions -----

  /** The call that was begun under this number. */
  function Begun(actions: seq<Action>, id: nat): Option<Call> {
    if actions == [] then None
    else
      var n := |actions| - 1;
      if actions[n].Begin? && actions[n].id == id then Some(actions[n].call) else Begun(actions[..n], id)
  }

  /** What the counter of `key` was made with: what the first restore found, or nothing if a caller was first. */
  function Started(actions: seq<Action>, key: Key): Option<nat> {
    if actions == [] then None
    else
      var n := |actions| - 1;
      var a, was := actions[n], Started(actions[..n], key);
      if was.Some? then was
      else if a.Restore? && a.key == key then Some(a.count)
      else if a.Create? && Begun(actions[..n], a.id).Some? && Begun(actions[..n], a.id).value.key == key then Some(0)
      else None
  }

  lemma {:induction false} LastStep(m: Meter, actions: seq<Action>, end: Meter) returns (mid: Meter)
    requires Runs(m, actions, end) && actions != []
    ensures var n := |actions| - 1;
            Runs(m, actions[..n], mid) && Enabled(mid, actions[n]) && end == Apply(mid, actions[n])
    decreases |actions|
  {
    var n := |actions| - 1;
    if n == 0 {
      mid := m;
      assert actions[..n] == [];
    } else {
      mid := LastStep(Apply(m, actions[0]), actions[1..], end);
      assert actions[1..][..n - 1] == actions[..n][1..];
    }
  }

  ghost predicate AsBegun(m: Meter, actions: seq<Action>, id: nat) {
    if id in m.calls then Begun(actions, id).Some? && m.calls[id] == Begun(actions, id).value.(phase := m.calls[id].phase)
    else Begun(actions, id) == None
  }

  lemma StepAsBegun(m: Meter, actions: seq<Action>, a: Action, id: nat)
    requires Enabled(m, a) && AsBegun(m, actions, id)
    ensures AsBegun(Apply(m, a), actions + [a], id)
  {
    assert (actions + [a])[..|actions|] == actions;
  }

  /** Key, kind, limit and delta of a call never change. */
  lemma {:induction false} CallsAsBegun(actions: seq<Action>, m: Meter, id: nat)
    requires Runs(NewMeter, actions, m)
    ensures AsBegun(m, actions, id)
    decreases |actions|
  {
    if actions != [] {
      var n := |actions| - 1;
      var mid := LastStep(NewMeter, actions, m);
      CallsAsBegun(actions[..n], mid, id);
      StepAsBegun(mid, actions[..n], actions[n], id);
      assert actions == actions[..n] + [actions[n]];
    }
  }

  ghost predicate AsStarted(m: Meter, actions: seq<Action>, key: Key) {
    if key in m.counters then key in m.base && Started(actions, key) == Some(m.base[key])
    else key !in m.base && Started(actions, key) == None
  }

  lemma StepAsStarted(m: Meter, actions: seq<Action>, a: Action, key: Key)
    requires Enabled(m, a) && AsStarted(m, actions, key) && (a.Create? ==> AsBegun(m, actions, a.id))
    ensures AsStarted(Apply(m, a), actions + [a], key)
  {
    assert (actions + [a])[..|actions|] == actions;
  }

  /** The base of a counter is what it was made with, by whoever came first. */
  lemma {:induction false} BaseAsStarted(actions: seq<Action>, m: Meter, key: Key)
    requires Runs(NewMeter, actions, m)
    ensures AsStarted(m, actions, key)
    decreases |actions|
  {
    if actions != [] {
      var n := |actions| - 1;
      var mid := LastStep(NewMeter, actions, m);
      BaseAsStarted(actions[..n], mid, key);
      if actions[n].Create? {
        CallsAsBegun(actions[..n], mid, actions[n].id);
      }
      StepAsStarted(mid, actions[..n], actions[n], key);
      assert actions == actions[..n] + [actions[n]];
    }
  }

  // ----- Decisions -----

  predicate Exceeds(limit: int, value: int) {
    0 < limit < value
  }

  /** Where a call may be whose addition gave `value`. */
  ghost predicate Fated(c: Call, value: int) {
    c.kind.TryConsume? &&
    match c.phase
    case Entering(_) => false
    case Recorded => false
    case Added(_, v) => v == value
    case Refused => Exceeds(c.kind.limit, value)
    case _ => !Exceeds(c.kind.limit, value)
  }

  lemma StepFated(m: Meter, a: Action, id: nat, value: int)
    requires Enabled(m, a) && id in m.calls && Fated(m.calls[id], value)
    ensures id in Apply(m, a).calls && Fated(Apply(m, a).calls[id], value)
  {
  }

  lemma {:induction false} RunFated(m: Meter, actions: seq<Action>, end: Meter, id: nat, value: int)
    requires Runs(m, actions, end) && id in m.calls && Fated(m.calls[id], value)
    ensures id in end.calls && Fated(end.calls[id], value)
    decreases |actions|
  {
    if actions != [] {
      StepFated(m, actions[0], id, value);
      RunFated(Apply(m, actions[0]), actions[1..], end, id, value);
    }
  }

  /** An addition moves its own counter by the delta and no other counter, and learns the new value. */
  lemma AddCounts(m: Meter, id: nat)
    requires OneCounter(m) && Enabled(m, Add(id))
    ensures var c, end := m.calls[id], Apply(m, Add(id));
            && (forall k :: k != c.key ==> Value(end, k) == Value(m, k))
            && Value(end, c.key) == Value(m, c.key) + (if c.phase.Leaving? then -(c.delta as int) else c.delta)
            && end.calls == m.calls[id := end.calls[id]] && end.calls[id] == c.(phase := end.calls[id].phase)
            && if c.phase.Leaving? then end.calls[id].phase.Released?
               else if c.kind.Record? then end.calls[id].phase.Recorded?
               else end.calls[id].phase.Added? && end.calls[id].phase.value == Value(end, c.key)
  {
    var c, end := m.calls[id], Apply(m, Add(id));
    assert Located(m, c);
    forall k ensures Value(end, k) == Value(m, k) + if k == c.key then (if c.phase.Leaving? then -(c.delta as int) else c.delta) else 0 {
      BumpMoves(m, c.key, if c.phase.Leaving? then -(c.delta as int) else c.delta, end, k);
    }
  }

  /** The addition that a call owes its decision to. */
  ghost predicate AddedAt(actions: seq<Action>, i: nat, m: Meter, id: nat) {
    && i < |actions| && actions[i] == Add(id)
    && Runs(NewMeter, actions[..i], m) && Enabled(m, Add(id)) && m.calls[id].phase.Entering?
  }

  lemma {:induction false} FindAdd(actions: seq<Action>, end: Meter, id: nat) returns (i: nat, m: Meter)
    requires Runs(NewMeter, actions, end) && id in end.calls && !end.calls[id].phase.Entering?
    ensures AddedAt(actions, i, m, id) && Runs(Apply(m, Add(id)), actions[i + 1..], end)
    decreases |actions|
  {
    var n := |actions| - 1;
    var mid := LastStep(NewMeter, actions, end);
    if id in mid.calls && !mid.calls[id].phase.Entering? {
      i, m := FindAdd(actions[..n], mid, id);
      assert actions[..n][..i] == actions[..i];
      RunOn(Apply(m, Add(id)), actions[..n][i + 1..], mid, actions[n]);
      assert actions[i + 1..] == actions[..n][i + 1..] + [actions[n]];
    } else {
      i, m := n, mid;
      assert actions[n + 1..] == [];
    }
  }

  /**
    In every interleaving, a call that has been decided made its addition at some point of the run,
    and was refused exactly when its limit is positive and less than the value of the counter that
    this addition gave. Otherwise it is admitted, or on its way to being released again.
   */
  lemma DecidedExactly(actions: seq<Action>, end: Meter, id: nat) returns (i: nat, m: Meter)
    requires Runs(NewMeter, actions, end) && id in end.calls && end.calls[id].kind.TryConsume?
    requires !end.calls[id].phase.Entering? && !end.calls[id].phase.Added?
    ensures AddedAt(actions, i, m, id) && m.calls[id] == end.calls[id].(phase := m.calls[id].phase)
    ensures var c, value := end.calls[id], Value(Apply(m, Add(id)), end.calls[id].key);
            && value == Value(m, c.key) + c.delta
            && (c.phase.Refused? <==> 0 < c.kind.limit < value)
            && (!c.phase.Refused? <==> c.phase.Admitted? || c.phase.Leaving? || c.phase.Released?)
  {
    i, m := FindAdd(actions, end, id);
    NewMeterInv();
    NoCounterIsLost(NewMeter, actions[..i], m);
    SameData(actions, end, i, m, id);
    AddCounts(m, id);
    RunFated(Apply(m, Add(id)), actions[i + 1..], end, id, Value(Apply(m, Add(id)), m.calls[id].key));
  }

  lemma SameData(actions: seq<Action>, end: Meter, i: nat, m: Meter, id: nat)
    requires AddedAt(actions, i, m, id) && Runs(Apply(m, Add(id)), actions[i + 1..], end)
    ensures id in end.calls && m.calls[id] == end.calls[id].(phase := m.calls[id].phase)
  {
    KeepsData(Apply(m, Add(id)), actions[i + 1..], end, id);
  }

  lemma {:induction false} KeepsData(m: Meter, actions: seq<Action>, end: Meter, id: nat)
    requires Runs(m, actions, end) && id in m.calls
    ensures id in end.calls && end.calls[id] == m.calls[id].(phase := end.calls[id].phase)
    decreases |actions|
  {
    if actions != [] {
      KeepsData(Apply(m, actions[0]), actions[1..], end, id);
    }
  }

  /**
    In terms of what the counter holds: a decided request was refused exactly when the limit is
    positive and too small for it on top of base, recorded, admitted and not released, and the
    additions in flight at its own addition, including those about to be taken back.
   */
  lemma RefusedExactly(actions: seq<Action>, end: Meter, id: nat) returns (i: nat, m: Meter)
    requires Runs(NewMeter, actions, end) && id in end.calls && end.calls[id].kind.TryConsume?
    requires !end.calls[id].phase.Entering? && !end.calls[id].phase.Added?
    ensures AddedAt(actions, i, m, id)
    ensures var c := end.calls[id];
            c.phase.Refused? <==> 0 < c.kind.limit < Base(m, c.key) + Total(WasRecorded, m.calls, c.key) + Live(m, c.key)
                                                     + Total(Doomed, m.calls, c.key) + c.delta
  {
    i, m := DecidedExactly(actions, end, id);
    NewMeterInv();
    NoCounterIsLost(NewMeter, actions[..i], m);
    assert Balanced(m, end.calls[id].key);
  }

  // ----- One call at a time -----

  /** Only steps of this call. */
  ghost predicate OnlyOf(actions: seq<Action>, id: nat) {
    forall i :: 0 <= i < |actions| ==> !actions[i].Restore? && actions[i].id == id
  }

  /** What a call has made of its counter, which stood at `was` before. */
  ghost predicate Progress(c: Call, was: int, now: int) {
    match c.phase
    case Entering(_) => now == was
    case Added(_, v) => c.kind.TryConsume? && now == v == was + c.delta
    case Refused => c.kind.TryConsume? && Exceeds(c.kind.limit, was + c.delta) && now == was
    case Admitted => c.kind.TryConsume? && !Exceeds(c.kind.limit, was + c.delta) && now == was + c.delta
    case Recorded => c.kind.Record? && now == was + c.delta
    case Leaving(_) => c.kind.TryConsume? && !Exceeds(c.kind.limit, was + c.delta) && now == was + c.delta
    case Released => c.kind.TryConsume? && !Exceeds(c.kind.limit, was + c.delta) && now == was
  }

  ghost predicate Sole(before: Meter, m: Meter, id: nat, call: Call) {
    && id in m.calls && m.calls[id] == call.(phase := m.calls[id].phase)
    && (forall k :: k != call.key ==> Value(m, k) == Value(before, k))
    && Progress(m.calls[id], Value(before, call.key), Value(m, call.key))
  }

  lemma SoleDecides(before: Meter, m: Meter, id: nat, call: Call)
    requires OneCounter(m) && Sole(before, m, id, call) && Enabled(m, Decide(id))
    ensures Sole(before, Apply(m, Decide(id)), id, call)
  {
    var c, end := m.calls[id], Apply(m, Decide(id));
    assert Located(m, c);
    if Over(c.kind, c.phase.value) {
      forall k ensures Value(end, k) == Value(m, k) - if k == c.key then c.delta else 0 {
        BumpMoves(m, c.key, -(c.delta as int), end, k);
      }
    } else {
      assert forall k :: Value(end, k) == Value(m, k);
    }
  }

  lemma SoleSearches(before: Meter, m: Meter, a: Action, id: nat, call: Call)
    requires OneCounter(m) && Sole(before, m, id, call) && Enabled(m, a)
    requires a == LookUp(id) || a == Create(id) || a == Release(id)
    ensures Sole(before, Apply(m, a), id, call)
  {
    var end := Apply(m, a);
    forall k ensures Value(end, k) == Value(m, k) {
    }
  }

  lemma StepSole(before: Meter, m: Meter, a: Action, id: nat, call: Call)
    requires OneCounter(m) && Sole(before, m, id, call) && Enabled(m, a) && !a.Restore? && a.id == id
    ensures Sole(before, Apply(m, a), id, call)
  {
    match a
    case Add(_) => AddCounts(m, id);
    case Decide(_) => SoleDecides(before, m, id, call);
    case _ => SoleSearches(before, m, a, id, call);
  }

  lemma {:induction false} RunSole(before: Meter, m: Meter, actions: seq<Action>, end: Meter, id: nat, call: Call)
    requires OneCounter(m) && Sole(before, m, id, call) && Runs(m, actions, end) && OnlyOf(actions, id)
    ensures Sole(before, end, id, call)
    decreases |actions|
  {
    if actions != [] {
      StepSole(before, m, actions[0], id, call);
      StepOneCounter(m, actions[0]);
      assert OnlyOf(actions[1..], id);
      RunSole(before, Apply(m, actions[0]), actions[1..], end, id, call);
    }
  }

  predicate Undecided(p: Phase) {
    p.Entering? || p.Added?
  }

  /**
    A call that runs alone, in any reachable state: `TryConsume` admits exactly what fits on top of
    the counter and counts it, and counts nothing if it refuses; `Record` always counts; and a
    release brings the counter back to where it was. No other counter moves.
   */
  lemma AloneIsExact(before: seq<Action>, m: Meter, id: nat, call: Call, actions: seq<Action>, end: Meter)
    requires Runs(NewMeter, before, m) && Enabled(m, Begin(id, call))
    requires Runs(Apply(m, Begin(id, call)), actions, end) && OnlyOf(actions, id)
    ensures id in end.calls && end.calls[id] == call.(phase := end.calls[id].phase)
    ensures forall k :: k != call.key ==> Value(end, k) == Value(m, k)
    ensures var p, was, now := end.calls[id].phase, Value(m, call.key), Value(end, call.key);
            !Undecided(p) ==>
              if call.kind.Record? then p.Recorded? && now == was + call.delta
              else if call.kind.limit <= 0 || was + call.delta <= call.kind.limit then
                if p.Released? then now == was else (p.Admitted? || p.Leaving?) && now == was + call.delta
              else p.Refused? && now == was
  {
    NewMeterInv();
    NoCounterIsLost(NewMeter, before, m);
    StepOneCounter(m, Begin(id, call));
    assert Sole(m, Apply(m, Begin(id, call)), id, call);
    RunSole(m, Apply(m, Begin(id, call)), actions, end, id, call);
  }

  /** A step that the call can take by itself, nearer to its decision. */
  function NextStep(p: Phase, id: nat): Action
    requires Undecided(p)
  {
    if p.Added? then Decide(id)
    else match p.search
      case Looking => LookUp(id)
      case Missing => Create(id)
      case Found(_) => Add(id)
  }

  function StepsLeft(p: Phase): nat {
    if p.Added? then 1
    else if p.Entering? then (match p.search case Looking => 4 case Missing => 3 case Found(_) => 2)
    else 0
  }

  lemma NextStepNearer(m: Meter, id: nat)
    requires id in m.calls && Undecided(m.calls[id].phase)
    ensures var a := NextStep(m.calls[id].phase, id);
            Enabled(m, a) && id in Apply(m, a).calls && StepsLeft(Apply(m, a).calls[id].phase) < StepsLeft(m.calls[id].phase)
  {
  }

  /** No call waits for another: whatever others are doing, it can go on to its decision in at most four steps. */
  lemma {:induction false} CanFinishAlone(m: Meter, id: nat) returns (actions: seq<Action>, end: Meter)
    requires id in m.calls
    ensures Runs(m, actions, end) && OnlyOf(actions, id) && |actions| <= 4
    ensures id in end.calls && !Undecided(end.calls[id].phase)
    ensures |actions| <= StepsLeft(m.calls[id].phase)
    decreases StepsLeft(m.calls[id].phase)
  {
    if Undecided(m.calls[id].phase) {
      var a := NextStep(m.calls[id].phase, id);
      NextStepNearer(m, id);
      var rest, last := CanFinishAlone(Apply(m, a), id);
      actions, end := [a] + rest, last;
      assert actions[1..] == rest;
    } else {
      actions, end := [], m;
    }
  }
}
