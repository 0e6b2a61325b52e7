/**
  The quota counters of `pkg/billing/meter.go` within one month. A counter is an atomic integer
  that callers find through a map under a read lock, or create under the write lock after looking
  again. `TryConsume` adds first and takes its addition back if the new value is over the limit,
  so other callers may see a value that counts requests which are about to be refused.

  Any number of callers interleave, each a step at a time. One step is one critical section or
  one atomic addition. A call is kept after it returns, so that what has been recorded, admitted
  and released can be read off the calls. An admitted call may later give its quota back with
  `ReleaseQuota`, as the middleware does when the handler fails.
 */
module Meter {
  import opened Sums

  datatype Key = Key(tenant: string, period: string, event: string)

  /** How far `getOrCreateCounter` has got. */
  datatype Search = Looking | Missing | Found(cell: nat)

  datatype Phase =
    | Entering(search: Search)         // Record or TryConsume, looking for the counter
    | Added(cell: nat, value: int)     // TryConsume, after its addition
    | Refused                          // TryConsume returned an error
    | Admitted                         // TryConsume returned nil
    | Recorded                         // Record returned
    | Leaving(search: Search)          // ReleaseQuota, looking for the counter
    | Released                         // ReleaseQuota returned

  datatype Kind = Record | TryConsume(limit: int)

  datatype Call = Call(key: Key, kind: Kind, delta: nat, phase: Phase)

  /** `base` is what `RestoreFromAggregates` put into a counter when it created it. */
  datatype Meter = Meter(counters: map<Key, nat>, cells: seq<int>, base: map<Key, nat>, calls: map<nat, Call>)

  const NewMeter := Meter(map[], [], map[], map[])

  datatype Action =
    | Begin(id: nat, call: Call)
    | Restore(key: Key, count: nat)
    | LookUp(id: nat)
    | Create(id: nat)
    | Add(id: nat)
    | Decide(id: nat)
    | Release(id: nat)

  // ----- Steps -----

  predicate Searching(p: Phase) { p.Entering? || p.Leaving? }

  function WithSearch(p: Phase, search: Search): Phase {
    if p.Leaving? then Leaving(search) else Entering(search)
  }

  /** Over the limit: what makes `TryConsume` take its addition back. */
  predicate Over(kind: Kind, value: int) {
    kind.TryConsume? && kind.limit > 0 && value > kind.limit
  }

  predicate Enabled(m: Meter, a: Action) {
    match a
    case Begin(id, call) => id !in m.calls && call.phase == Entering(Looking)
    case Restore(_, _) => true
    case LookUp(id) => id in m.calls && Searching(m.calls[id].phase) && m.calls[id].phase.search.Looking?
    case Create(id) => id in m.calls && Searching(m.calls[id].phase) && m.calls[id].phase.search.Missing?
    case Add(id) => id in m.calls && Searching(m.calls[id].phase) && m.calls[id].phase.search.Found?
    case Decide(id) => id in m.calls && m.calls[id].phase.Added?
    case Release(id) => id in m.calls && m.calls[id].phase.Admitted?
  }

  function Cell(cells: seq<int>, i: nat): int { if i < |cells| then cells[i] else 0 }

  function Bump(cells: seq<int>, i: nat, d: int): seq<int> {
    if i < |cells| then cells[i := cells[i] + d] else cells
  }

  function WithPhase(m: Meter, id: nat, p: Phase): Meter
    requires id in m.calls
  {
    m.(calls := m.calls[id := m.calls[id].(phase := p)])
  }

  /** The counter of `key`, made with `value` in it if there is none. */
  function Ensured(m: Meter, key: Key, value: nat): Meter {
    if key in m.counters then m
    else m.(counters := m.counters[key := |m.cells|], cells := m.cells + [value], base := m.base[key := value])
  }

  function Apply(m: Meter, a: Action): Meter
    requires Enabled(m, a)
  {
    match a
    case Begin(id, call) => m.(calls := m.calls[id := call])
    case Restore(key, count) => Ensured(m, key, count)
    case LookUp(id) =>
      var c := m.calls[id];
      var search := if c.key in m.counters then Found(m.counters[c.key]) else Missing;
      WithPhase(m, id, WithSearch(c.phase, search))
    case Create(id) =>
      var c := m.calls[id];
      var m' := Ensured(m, c.key, 0);
      WithPhase(m', id, WithSearch(c.phase, Found(m'.counters[c.key])))
    case Add(id) =>
      var c := m.calls[id];
      var cell := c.phase.search.cell;
      if c.phase.Leaving? then
        WithPhase(m.(cells := Bump(m.cells, cell, -(c.delta as int))), id, Phase.Released)
      else
        var value := Cell(m.cells, cell) + c.delta;
        WithPhase(m.(cells := Bump(m.cells, cell, c.delta)), id, if c.kind.Record? then Recorded else Added(cell, value))
    case Decide(id) =>
      var c := m.calls[id];
      if Over(c.kind, c.phase.value) then
        WithPhase(m.(cells := Bump(m.cells, c.phase.cell, -(c.delta as int))), id, Refused)
      else
        WithPhase(m, id, Admitted)
    case Release(id) => WithPhase(m, id, Leaving(Looking))
  }

  ghost predicate Runs(m: Meter, actions: seq<Action>, end: Meter)
    decreases |actions|
  {
    if actions == [] then m == end
    else Enabled(m, actions[0]) && Runs(Apply(m, actions[0]), actions[1..], end)
  }

  // ----- What the calls amount to -----

  /**
    What the delta of a call has become. A held delta was admitted and not released; a staying
    one has been added and will be admitted; a doomed one has been added and will be taken back.
   */
  datatype Fate = Outside | WasRecorded | Held | WasReleased | Staying | Doomed

  function FateOf(c: Call): Fate {
    match c.phase
    case Recorded => WasRecorded
    case Admitted => Held
    case Leaving(_) => Held
    case Released => WasReleased
    case Added(_, value) => if Over(c.kind, value) then Doomed else Staying
    case _ => Outside
  }

  function Part(fate: Fate, c: Call, key: Key): nat {
    if c.key == key && FateOf(c) == fate then c.delta else 0
  }

  function Parts(fate: Fate, calls: map<nat, Call>, key: Key): map<nat, int> {
    map id | id in calls :: Part(fate, calls[id], key)
  }

  /** The sum of the deltas on `key` that met this fate. */
  ghost function Total(fate: Fate, calls: map<nat, Call>, key: Key): int {
    Sum(Parts(fate, calls, key))
  }

  function Value(m: Meter, key: Key): int {
    if key in m.counters then Cell(m.cells, m.counters[key]) else 0
  }

  function Base(m: Meter, key: Key): nat {
    if key in m.base then m.base[key] else 0
  }

  lemma TotalUpdate(fate: Fate, calls: map<nat, Call>, key: Key, id: nat, c: Call)
    ensures Total(fate, calls[id := c], key)
            == Total(fate, calls, key) - (if id in calls then Part(fate, calls[id], key) else 0) + Part(fate, c, key)
  {
    assert Parts(fate, calls[id := c], key) == Parts(fate, calls, key)[id := Part(fate, c, key)];
    SumUpdate(Parts(fate, calls, key), id, Part(fate, c, key));
  }

  lemma TotalNonNegative(fate: Fate, calls: map<nat, Call>, key: Key)
    ensures Total(fate, calls, key) >= 0
  {
    SumNonNegative(Parts(fate, calls, key));
  }

  // ----- Every caller of a key works on the one counter of that key -----

  predicate Located(m: Meter, c: Call) {
    && (Searching(c.phase) && c.phase.search.Found? ==> c.key in m.counters && m.counters[c.key] == c.phase.search.cell)
    && (c.phase.Added? ==> c.key in m.counters && m.counters[c.key] == c.phase.cell)
  }

  ghost predicate OwnCells(m: Meter) {
    && m.counters.Keys == m.base.Keys
    && (forall k :: k in m.counters ==> m.counters[k] < |m.cells|)
    && (forall k, k' :: k in m.counters && k' in m.counters && m.counters[k] == m.counters[k'] ==> k == k')
  }

  ghost predicate OneCounter(m: Meter) {
    OwnCells(m) && forall id :: id in m.calls ==> Located(m, m.calls[id])
  }

  /** Counters are only ever added to the map. */
  predicate Keeps(m: Meter, m': Meter) {
    forall k :: k in m.counters ==> k in m'.counters && m'.counters[k] == m.counters[k]
  }

  lemma EnsuredOwnCells(m: Meter, key: Key, value: nat)
    requires OwnCells(m)
    ensures OwnCells(Ensured(m, key, value)) && Keeps(m, Ensured(m, key, value))
  {
  }

  /** The map as it was, and one call in a new phase. */
  ghost predicate Moves(m: Meter, m': Meter, id: nat) {
    && m'.counters == m.counters && m'.base == m.base && |m'.cells| == |m.cells|
    && id in m'.calls && m'.calls == m.calls[id := m'.calls[id]]
  }

  lemma MoveOneCounter(m: Meter, m': Meter, id: nat)
    requires OneCounter(m) && Moves(m, m', id) && Located(m, m'.calls[id])
    ensures OneCounter(m') && Keeps(m, m')
  {
  }

  lemma EnsuredOneCounter(m: Meter, key: Key, value: nat)
    requires OneCounter(m)
    ensures OneCounter(Ensured(m, key, value)) && Keeps(m, Ensured(m, key, value))
  {
    EnsuredOwnCells(m, key, value);
  }

  /** Every step but a restore moves one call, after making sure of its counter if it creates. */
  function Prepared(m: Meter, a: Action): Meter {
    match a
    case Restore(key, count) => Ensured(m, key, count)
    case Create(id) => if id in m.calls then Ensured(m, m.calls[id].key, 0) else m
    case _ => m
  }

  lemma StepMoves(m: Meter, a: Action)
    requires OneCounter(m) && Enabled(m, a)
    ensures a.Restore? ==> Apply(m, a) == Prepared(m, a)
    ensures !a.Restore? ==> Moves(Prepared(m, a), Apply(m, a), a.id) && Located(Apply(m, a), Apply(m, a).calls[a.id])
  {
    if !a.Begin? && !a.Restore? {
      assert Located(m, m.calls[a.id]);
    }
  }

  lemma StepOneCounter(m: Meter, a: Action)
    requires OneCounter(m) && Enabled(m, a)
    ensures OneCounter(Apply(m, a)) && Keeps(m, Apply(m, a))
  {
    StepMoves(m, a);
    match a
    case Restore(key, count) => EnsuredOneCounter(m, key, count);
    case Create(id) =>
      EnsuredOneCounter(m, m.calls[id].key, 0);
      MoveOneCounter(Prepared(m, a), Apply(m, a), id);
    case _ => MoveOneCounter(m, Apply(m, a), a.id);
  }

  // ----- Conservation -----

  /** The counter is its base and every delta that is in it. */
  ghost predicate Balanced(m: Meter, key: Key) {
    Value(m, key) == Base(m, key) + Total(WasRecorded, m.calls, key) + Total(Held, m.calls, key)
                     + Total(Staying, m.calls, key) + Total(Doomed, m.calls, key)
  }

  /** The part of a call's delta that is in the counter. */
  function InCounter(c: Call, key: Key): int {
    Part(WasRecorded, c, key) + Part(Held, c, key) + Part(Staying, c, key) + Part(Doomed, c, key)
  }

  /** The counter moves by as much as the part that the call has in it. */
  predicate Shifts(m: Meter, m': Meter, id: nat, key: Key)
    requires id in m'.calls
  {
    Value(m', key) - Value(m, key)
    == InCounter(m'.calls[id], key) - (if id in m.calls then InCounter(m.calls[id], key) else 0)
  }

  /** A step that changes one call and moves the counter by as much keeps the balance. */
  lemma MoveBalances(m: Meter, m': Meter, id: nat, key: Key)
    requires Balanced(m, key) && Moves(m, m', id) && Shifts(m, m', id, key)
    ensures Balanced(m', key)
  {
    TotalUpdate(WasRecorded, m.calls, key, id, m'.calls[id]);
    TotalUpdate(Held, m.calls, key, id, m'.calls[id]);
    TotalUpdate(Staying, m.calls, key, id, m'.calls[id]);
    TotalUpdate(Doomed, m.calls, key, id, m'.calls[id]);
  }

  lemma EnsuredBalances(m: Meter, key: Key, value: nat, k: Key)
    requires OwnCells(m) && Balanced(m, k)
    ensures Balanced(Ensured(m, key, value), k)
  {
    assert key !in m.counters ==> Value(m, key) == 0 == Base(m, key);
  }

  lemma BumpMoves(m: Meter, key: Key, d: int, m': Meter, k: Key)
    requires OwnCells(m) && key in m.counters
    requires m'.counters == m.counters && m'.cells == Bump(m.cells, m.counters[key], d)
    ensures Value(m', k) == Value(m, k) + if k == key then d else 0
  {
  }

  lemma AddMoves(m: Meter, id: nat, k: Key)
    requires OneCounter(m) && Enabled(m, Add(id))
    ensures Shifts(m, Apply(m, Add(id)), id, k)
  {
    var c := m.calls[id];
    assert Located(m, c);
    BumpMoves(m, c.key, if c.phase.Leaving? then -(c.delta as int) else c.delta, Apply(m, Add(id)), k);
  }

  lemma DecideMoves(m: Meter, id: nat, k: Key)
    requires OneCounter(m) && Enabled(m, Decide(id))
    ensures Shifts(m, Apply(m, Decide(id)), id, k)
  {
    var c := m.calls[id];
    assert Located(m, c);
    if Over(c.kind, c.phase.value) {
      BumpMoves(m, c.key, -(c.delta as int), Apply(m, Decide(id)), k);
    }
  }

  lemma OthersDoNotMove(m: Meter, a: Action, k: Key)
    requires Enabled(m, a) && !a.Restore? && !a.Add? && !a.Decide?
    ensures a.id in Apply(m, a).calls && Shifts(Prepared(m, a), Apply(m, a), a.id, k)
  {
  }

  lemma StepShifts(m: Meter, a: Action, k: Key)
    requires OneCounter(m) && Enabled(m, a) && !a.Restore?
    ensures a.id in Apply(m, a).calls && Shifts(Prepared(m, a), Apply(m, a), a.id, k)
  {
    match a
    case Add(id) => AddMoves(m, id, k);
    case Decide(id) => DecideMoves(m, id, k);
    case _ => OthersDoNotMove(m, a, k);
  }

  lemma PreparedBalances(m: Meter, a: Action, k: Key)
    requires OwnCells(m) && Balanced(m, k)
    ensures Balanced(Prepared(m, a), k)
  {
    match a
    case Restore(key, count) => EnsuredBalances(m, key, count, k);
    case Create(id) =>
      if id in m.calls {
        EnsuredBalances(m, m.calls[id].key, 0, k);
      }
    case _ =>
  }

  lemma StepBalances(m: Meter, a: Action, k: Key)
    requires OneCounter(m) && Balanced(m, k) && Enabled(m, a)
    ensures Balanced(Apply(m, a), k)
  {
    StepMoves(m, a);
    PreparedBalances(m, a, k);
    if !a.Restore? {
      StepShifts(m, a, k);
      MoveBalances(Prepared(m, a), Apply(m, a), a.id, k);
    }
  }

  ghost predicate Inv(m: Meter) {
    OneCounter(m) && forall k :: Balanced(m, k)
  }

  lemma StepKeepsInv(m: Meter, a: Action)
    requires Inv(m) && Enabled(m, a)
    ensures Inv(Apply(m, a))
  {
    StepOneCounter(m, a);
    forall k ensures Balanced(Apply(m, a), k) {
      StepBalances(m, a, k);
    }
  }

  lemma NewMeterInv()
    ensures Inv(NewMeter)
  {
    forall k ensures Balanced(NewMeter, k) {
      assert forall fate :: Parts(fate, NewMeter.calls, k) == map[];
    }
  }

  /**
    No interleaving loses a counter or an addition: a key keeps the counter it first got, every
    caller works on that one, and the counter is what was restored, plus what was recorded, plus
    what was admitted and not released, plus what callers in the middle of `TryConsume` have added.
   */
  lemma {:induction false} NoCounterIsLost(m: Meter, actions: seq<Action>, end: Meter)
    requires Inv(m) && Runs(m, actions, end)
    ensures Inv(end) && Keeps(m, end)
    decreases |actions|
  {
    if actions != [] {
      StepKeepsInv(m, actions[0]);
      StepOneCounter(m, actions[0]);
      NoCounterIsLost(Apply(m, actions[0]), actions[1..], end);
    }
  }

  // ----- Between calls -----

  /** No call on `key` stands between its addition and its decision. */
  ghost predicate Quiet(m: Meter, key: Key) {
    forall id :: id in m.calls && m.calls[id].key == key ==> !m.calls[id].phase.Added?
  }

  /** The total of what `TryConsume` has ever admitted on `key`. */
  ghost function EverAdmitted(m: Meter, key: Key): int {
    Total(Held, m.calls, key) + Total(WasReleased, m.calls, key)
  }

  lemma QuietTotals(m: Meter, key: Key)
    requires Quiet(m, key)
    ensures Total(Staying, m.calls, key) == 0 && Total(Doomed, m.calls, key) == 0
  {
    SumZero(Parts(Staying, m.calls, key));
    SumZero(Parts(Doomed, m.calls, key));
  }

  /** When no call is between its addition and its decision, the counter is exact. */
  lemma QuietValue(m: Meter, actions: seq<Action>, key: Key)
    requires Runs(NewMeter, actions, m) && Quiet(m, key)
    ensures Value(m, key) == Base(m, key) + Total(WasRecorded, m.calls, key)
                             + EverAdmitted(m, key) - Total(WasReleased, m.calls, key)
  {
    NewMeterInv();
    NoCounterIsLost(NewMeter, actions, m);
    QuietTotals(m, key);
    assert Balanced(m, key);
  }

  // ----- Never over the limit -----

  /** Every `TryConsume` on `key` is given a positive limit of at most `limit`. */
  ghost predicate Limited(actions: seq<Action>, key: Key, limit: int) {
    forall i :: 0 <= i < |actions| && actions[i].Begin? ==> FitsLimit(actions[i].call, key, limit)
  }

  predicate FitsLimit(c: Call, key: Key, limit: int) {
    c.key == key && c.kind.TryConsume? ==> 0 < c.kind.limit <= limit
  }

  ghost predicate CallsLimited(m: Meter, key: Key, limit: int) {
    forall id :: id in m.calls ==> FitsLimit(m.calls[id], key, limit)
  }

  ghost function Live(m: Meter, key: Key): int {
    Total(Held, m.calls, key) + Total(Staying, m.calls, key)
  }

  ghost predicate WithinLimit(m: Meter, key: Key, limit: int) {
    Live(m, key) <= 0 || Base(m, key) + Live(m, key) <= limit
  }

  lemma LiveInCounter(m: Meter, key: Key)
    requires Balanced(m, key)
    ensures 0 <= Live(m, key) && Base(m, key) + Live(m, key) <= Value(m, key)
  {
    TotalNonNegative(Held, m.calls, key);
    TotalNonNegative(Staying, m.calls, key);
    TotalNonNegative(WasRecorded, m.calls, key);
    TotalNonNegative(Doomed, m.calls, key);
  }

  function LivePart(c: Call, key: Key): nat { Part(Held, c, key) + Part(Staying, c, key) }

  lemma LiveUpdate(m: Meter, m': Meter, id: nat, key: Key)
    requires Moves(m, m', id)
    ensures Live(m', key) == Live(m, key) + LivePart(m'.calls[id], key) - (if id in m.calls then LivePart(m.calls[id], key) else 0)
  {
    TotalUpdate(Held, m.calls, key, id, m'.calls[id]);
    TotalUpdate(Staying, m.calls, key, id, m'.calls[id]);
  }

  lemma AddWithinLimit(m: Meter, id: nat, key: Key, limit: int)
    requires Inv(m) && WithinLimit(m, key, limit) && CallsLimited(m, key, limit) && Enabled(m, Add(id))
    ensures var c := Apply(m, Add(id)).calls[id];
            LivePart(c, key) > LivePart(m.calls[id], key) ==> Value(m, key) + LivePart(c, key) <= limit
  {
    assert Located(m, m.calls[id]) && FitsLimit(m.calls[id], key, limit);
  }

  lemma EnsuredWithinLimit(m: Meter, k: Key, value: nat, key: Key, limit: int)
    requires Inv(m) && WithinLimit(m, key, limit)
    ensures WithinLimit(Ensured(m, k, value), key, limit)
  {
    assert Balanced(m, key);
    LiveInCounter(m, key);
  }

  lemma OthersOnlyShrink(m: Meter, a: Action, key: Key)
    requires Enabled(m, a) && !a.Add? && !a.Restore?
    ensures a.id in Apply(m, a).calls
    ensures LivePart(Apply(m, a).calls[a.id], key) <= if a.id in m.calls then LivePart(m.calls[a.id], key) else 0
  {
  }

  lemma PreparedWithinLimit(m: Meter, a: Action, key: Key, limit: int)
    requires Inv(m) && WithinLimit(m, key, limit)
    ensures WithinLimit(Prepared(m, a), key, limit)
  {
    match a
    case Restore(k, count) => EnsuredWithinLimit(m, k, count, key, limit);
    case Create(id) =>
      if id in m.calls {
        EnsuredWithinLimit(m, m.calls[id].key, 0, key, limit);
      }
    case _ =>
  }

  /** Live deltas that do not grow, or that the counter could still take, stay within the limit. */
  lemma LiveMoves(m: Meter, m': Meter, id: nat, key: Key, limit: int)
    requires Moves(m, m', id) && Balanced(m, key) && WithinLimit(m, key, limit)
    requires var was := if id in m.calls then LivePart(m.calls[id], key) else 0;
             LivePart(m'.calls[id], key) > was ==> Value(m, key) + LivePart(m'.calls[id], key) <= limit
    ensures WithinLimit(m', key, limit)
  {
    LiveInCounter(m, key);
    LiveUpdate(m, m', id, key);
  }

  lemma StepWithinLimit(m: Meter, a: Action, key: Key, limit: int)
    requires Inv(m) && WithinLimit(m, key, limit) && CallsLimited(m, key, limit) && Enabled(m, a)
    ensures WithinLimit(Apply(m, a), key, limit)
  {
    StepMoves(m, a);
    assert Balanced(m, key);
    PreparedWithinLimit(m, a, key, limit);
    PreparedBalances(m, a, key);
    if a.Add? {
      AddWithinLimit(m, a.id, key, limit);
      LiveMoves(m, Apply(m, a), a.id, key, limit);
    } else if !a.Restore? {
      OthersOnlyShrink(m, a, key);
      LiveMoves(Prepared(m, a), Apply(m, a), a.id, key, limit);
    }
  }

  lemma StepCallsLimited(m: Meter, a: Action, key: Key, limit: int)
    requires CallsLimited(m, key, limit) && Enabled(m, a) && (a.Begin? ==> FitsLimit(a.call, key, limit))
    ensures CallsLimited(Apply(m, a), key, limit)
  {
  }

  lemma {:induction false} RunWithinLimit(m: Meter, actions: seq<Action>, end: Meter, key: Key, limit: int)
    requires Inv(m) && Runs(m, actions, end) && Limited(actions, key, limit)
    requires WithinLimit(m, key, limit) && CallsLimited(m, key, limit)
    ensures Inv(end) && WithinLimit(end, key, limit)
    decreases |actions|
  {
    if actions != [] {
      var a := actions[0];
      StepKeepsInv(m, a);
      StepWithinLimit(m, a, key, limit);
      StepCallsLimited(m, a, key, limit);
      RunWithinLimit(Apply(m, a), actions[1..], end, key, limit);
    }
  }

  /**
    Under every interleaving, what was admitted and not released stays within the limit, together
    with what was restored at the start, even counting calls that have not yet returned.
   */
  lemma NeverOverAdmits(actions: seq<Action>, end: Meter, key: Key, limit: nat)
    requires Runs(NewMeter, actions, end) && Limited(actions, key, limit)
    ensures EverAdmitted(end, key) - Total(WasReleased, end.calls, key) <= limit
    ensures EverAdmitted(end, key) > Total(WasReleased, end.calls, key) ==>
              Base(end, key) + EverAdmitted(end, key) - Total(WasReleased, end.calls, key) <= limit
  {
    NewMeterInv();
    assert Live(NewMeter, key) == 0 by {
      SumZero(Parts(Held, NewMeter.calls, key));
      SumZero(Parts(Staying, NewMeter.calls, key));
    }
    RunWithinLimit(NewMeter, actions, end, key, limit);
    TotalNonNegative(Staying, end.calls, key);
  }

  // ----- Who is refused -----

  /**
    A request is bound to be refused exactly when the limit is positive and too small for it on top
    of what the counter holds, and the counter also holds what other requests are about to take back.
   */
  lemma DoomedExactly(m: Meter, actions: seq<Action>, id: nat)
    requires Runs(NewMeter, actions, m) && Enabled(m, Add(id))
    requires m.calls[id].phase.Entering? && m.calls[id].kind.TryConsume?
    ensures var c := m.calls[id];
            FateOf(Apply(m, Add(id)).calls[id]) ==
            (if 0 < c.kind.limit < Base(m, c.key) + Total(WasRecorded, m.calls, c.key) + Live(m, c.key)
                                   + Total(Doomed, m.calls, c.key) + c.delta
             then Doomed else Staying)
  {
    NewMeterInv();
    NoCounterIsLost(NewMeter, actions, m);
    assert Located(m, m.calls[id]) && Balanced(m, m.calls[id].key);
  }

  lemma {:induction false} RunOn(m: Meter, actions: seq<Action>, end: Meter, a: Action)
    requires Runs(m, actions, end) && Enabled(end, a)
    ensures Runs(m, actions + [a], Apply(end, a))
    decreases |actions|
  {
    if actions != [] {
      assert (actions + [a])[1..] == actions[1..] + [a];
      RunOn(Apply(m, actions[0]), actions[1..], end, a);
    } else {
      assert (actions + [a])[1..] == [];
    }
  }

  /** One more step of a run in which no limit is over ten. */
  lemma GoesOn(key: Key, actions: seq<Action>, m: Meter, a: Action) returns (more: seq<Action>, m': Meter)
    requires Runs(NewMeter, actions, m) && Limited(actions, key, 10) && Enabled(m, a)
    requires a.Begin? ==> FitsLimit(a.call, key, 10)
    ensures Runs(NewMeter, more, m') && Limited(more, key, 10) && m' == Apply(m, a)
  {
    RunOn(NewMeter, actions, m, a);
    more, m' := actions + [a], Apply(m, a);
  }

  /** Two calls, for five and for one, on a counter that stands at `value`. */
  predicate Scene(key: Key, m: Meter, value: int, five: Phase, one: Phase) {
    && key in m.counters && m.counters[key] == 0 && m.cells == [value] && m.calls.Keys == {0, 1}
    && m.calls[0] == Call(key, TryConsume(10), 5, five) && m.calls[1] == Call(key, TryConsume(10), 1, one)
  }

  lemma BothArrive(key: Key) returns (actions: seq<Action>, m: Meter)
    ensures Runs(NewMeter, actions, m) && Limited(actions, key, 10)
    ensures Scene(key, m, 9, Entering(Looking), Entering(Looking))
  {
    var start := Entering(Looking);
    actions, m := GoesOn(key, [], NewMeter, Restore(key, 9));
    actions, m := GoesOn(key, actions, m, Begin(0, Call(key, TryConsume(10), 5, start)));
    actions, m := GoesOn(key, actions, m, Begin(1, Call(key, TryConsume(10), 1, start)));
  }

  lemma BothLookUp(key: Key) returns (actions: seq<Action>, m: Meter)
    ensures Runs(NewMeter, actions, m) && Limited(actions, key, 10)
    ensures Scene(key, m, 9, Entering(Found(0)), Entering(Found(0)))
  {
    actions, m := BothArrive(key);
    actions, m := GoesOn(key, actions, m, LookUp(0));
    assert Scene(key, m, 9, Entering(Found(0)), Entering(Looking));
    actions, m := GoesOn(key, actions, m, LookUp(1));
  }

  lemma BothAdd(key: Key) returns (actions: seq<Action>, m: Meter)
    ensures Runs(NewMeter, actions, m) && Limited(actions, key, 10)
    ensures Scene(key, m, 15, Added(0, 14), Added(0, 15))
  {
    actions, m := BothLookUp(key);
    actions, m := GoesOn(key, actions, m, Add(0));
    assert Scene(key, m, 14, Added(0, 14), Entering(Found(0)));
    actions, m := GoesOn(key, actions, m, Add(1));
  }

  /**
    The other half: a request that fits may be refused, because another that does not fit is in
    between. Nine of ten are used; five more and one more arrive together, and both are refused.
   */
  lemma TransientRefusal(key: Key) returns (actions: seq<Action>, end: Meter)
    ensures Runs(NewMeter, actions, end) && Limited(actions, key, 10)
    ensures Scene(key, end, 9, Refused, Refused)
    ensures Quiet(end, key) && Value(end, key) + end.calls[1].delta <= 10
  {
    actions, end := BothAdd(key);
    actions, end := GoesOn(key, actions, end, Decide(0));
    assert Scene(key, end, 10, Refused, Added(0, 15));
    actions, end := GoesOn(key, actions, end, Decide(1));
  }
}
