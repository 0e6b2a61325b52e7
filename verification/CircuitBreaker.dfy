/**
  `CircuitBreaker` of `pkg/messaging/reliability.go`. `Execute` asks for admission, runs the
  caller's function outside the lock and then reports the outcome, so outcomes may arrive late
  and in any order: a run is any sequence of asks, failures, successes and resets.

  The breaker keeps three numbers. The theorems say, for every sequence of events, what its state
  means; `MeaningOfModes` puts it in terms of the events alone.
 */
module CircuitBreaker {
  import opened Basics

  datatype Config = Config(maxFailures: int, resetTimeout: int, halfOpenMax: int)

  datatype Mode = Closed | Open | HalfOpen

  datatype Breaker = Breaker(mode: Mode, failures: int, successes: int, lastFailure: int)

  datatype Event = Asked(now: int) | Failed(now: int) | Succeeded | Reset

  /** A new breaker; the zero time stands for a failure that never was. */
  const Fresh := Breaker(Closed, 0, 0, 0)

  predicate Admits(c: Config, b: Breaker, now: int) {
    b.mode.Open? ==> now - b.lastFailure > c.resetTimeout
  }

  function Next(c: Config, b: Breaker, e: Event): Breaker {
    match e
    case Asked(now) =>
      if b.mode.Open? && Admits(c, b, now) then b.(mode := HalfOpen, successes := 0) else b
    case Failed(now) =>
      b.(failures := b.failures + 1, lastFailure := now,
         mode := if b.mode.HalfOpen? || b.failures + 1 >= c.maxFailures then Open else b.mode)
    case Succeeded =>
      if !b.mode.HalfOpen? then b.(failures := 0)
      else if b.successes + 1 < c.halfOpenMax then b.(successes := b.successes + 1)
      else b.(mode := Closed, successes := b.successes + 1, failures := 0)
    case Reset => b.(mode := Closed, failures := 0, successes := 0)
  }

  // ----- What a sequence of events says -----

  function After(c: Config, es: seq<Event>): Breaker {
    if es == [] then Fresh else Next(c, After(c, es[..|es| - 1]), es[|es| - 1])
  }

  /** Failures reported since the last success or reset. */
  function FailStreak(es: seq<Event>): nat {
    if es == [] then 0
    else match es[|es| - 1]
      case Failed(_) => FailStreak(es[..|es| - 1]) + 1
      case Asked(_) => FailStreak(es[..|es| - 1])
      case _ => 0
  }

  /** The time of the latest failure reported, in whatever state. */
  function LastFailure(es: seq<Event>): int {
    if es == [] then 0
    else if es[|es| - 1].Failed? then es[|es| - 1].now
    else LastFailure(es[..|es| - 1])
  }

  function Successes(es: seq<Event>): nat {
    if es == [] then 0
    else Successes(es[..|es| - 1]) + if es[|es| - 1].Succeeded? then 1 else 0
  }

  /** The events that are not asks. */
  function Outcomes(es: seq<Event>): seq<Event> {
    if es == [] then []
    else Outcomes(es[..|es| - 1]) + if es[|es| - 1].Asked? then [] else [es[|es| - 1]]
  }

  /** A streak of `n` means that the last `n` outcomes are failures. */
  lemma {:induction false} StreakMeansLast(es: seq<Event>, n: nat)
    ensures var out := Outcomes(es);
            n <= FailStreak(es) <==> n <= |out| && forall k :: |out| - n <= k < |out| ==> out[k].Failed?
    decreases |es|
  {
    if es != [] && n > 0 {
      var before, e, out := es[..|es| - 1], es[|es| - 1], Outcomes(es);
      if e.Asked? {
        assert out == Outcomes(before);
        StreakMeansLast(before, n);
      } else {
        var prev := Outcomes(before);
        assert out == prev + [e] && out[|prev|] == e;
        assert forall k :: 0 <= k < |prev| ==> out[k] == prev[k];
        StreakMeansLast(before, n - 1);
      }
    }
  }

  // ----- Closed -----

  lemma {:induction false} ClosedCounts(c: Config, es: seq<Event>)
    ensures After(c, es).lastFailure == LastFailure(es)
    ensures After(c, es).mode.Closed? ==> After(c, es).failures == FailStreak(es) < AtLeastOne(c.maxFailures)
    decreases |es|
  {
    if es != [] {
      ClosedCounts(c, es[..|es| - 1]);
    }
  }

  /** A closed breaker opens exactly on the failure that completes `maxFailures` in a row. */
  lemma OpensExactly(c: Config, es: seq<Event>, e: Event)
    requires After(c, es).mode.Closed?
    ensures After(c, es + [e]).mode ==
            if e.Failed? && FailStreak(es + [e]) == AtLeastOne(c.maxFailures) then Open else Closed
  {
    assert (es + [e])[..|es|] == es;
    ClosedCounts(c, es);
  }

  // ----- Half open -----

  /**
    The ask at `i` came when the latest failure was longer ago than the timeout. Since then
    nothing failed and fewer than `halfOpenMax` successes came in.
   */
  ghost predicate HalfOpensAt(c: Config, es: seq<Event>, i: nat)
    requires i < |es|
  {
    && es[i].Asked? && es[i].now - LastFailure(es[..i]) > c.resetTimeout
    && (forall k :: i < k < |es| ==> es[k].Asked? || es[k].Succeeded?)
    && Successes(es[i + 1..]) < AtLeastOne(c.halfOpenMax)
  }

  /** The breaker was open and became half open on such an ask. */
  ghost predicate HalfOpenSince(c: Config, es: seq<Event>, i: nat) {
    i < |es| && After(c, es[..i]).mode.Open? && HalfOpensAt(c, es, i)
  }

  lemma LastOfTail(es: seq<Event>, i: nat)
    requires i < |es|
    ensures es[i..][..|es| - i - 1] == es[..|es| - 1][i..]
    ensures es[i..][|es| - i - 1] == es[|es| - 1]
  {
  }

  lemma {:induction false} HalfOpenHolds(c: Config, es: seq<Event>, i: nat)
    requires HalfOpenSince(c, es, i)
    ensures After(c, es).mode.HalfOpen? && After(c, es).successes == Successes(es[i + 1..])
    decreases |es|
  {
    var before := es[..|es| - 1];
    ClosedCounts(c, before);
    if i == |es| - 1 {
      assert es[i + 1..] == [];
    } else {
      LastOfTail(es, i + 1);
      assert before[..i] == es[..i];
      HalfOpenHolds(c, before, i);
    }
  }

  lemma HalfOpenLonger(c: Config, es: seq<Event>, i: nat)
    requires i < |es| - 1 && HalfOpensAt(c, es[..|es| - 1], i)
    requires es[|es| - 1].Asked? || es[|es| - 1].Succeeded?
    requires Successes(es[i + 1..]) < AtLeastOne(c.halfOpenMax)
    ensures HalfOpensAt(c, es, i)
  {
    var before := es[..|es| - 1];
    assert before[..i] == es[..i];
    assert forall k :: i < k < |before| ==> es[k] == before[k];
  }

  lemma {:induction false} HalfOpenEntered(c: Config, es: seq<Event>) returns (i: nat)
    requires After(c, es).mode.HalfOpen?
    ensures HalfOpenSince(c, es, i)
    decreases |es|
  {
    var before := es[..|es| - 1];
    ClosedCounts(c, before);
    if After(c, before).mode.HalfOpen? {
      i := HalfOpenEntered(c, before);
      HalfOpenHolds(c, before, i);
      LastOfTail(es, i + 1);
      HalfOpenLonger(c, es, i);
      assert before[..i] == es[..i];
    } else {
      i := |es| - 1;
      assert es[i + 1..] == [];
    }
  }

  /** Half open, exactly when some ask opened it halfway and no failure or closing came since. */
  lemma HalfOpenIff(c: Config, es: seq<Event>)
    ensures After(c, es).mode.HalfOpen? <==> exists i :: HalfOpenSince(c, es, i)
  {
    if After(c, es).mode.HalfOpen? {
      var i := HalfOpenEntered(c, es);
    }
    forall i | HalfOpenSince(c, es, i) ensures After(c, es).mode.HalfOpen? {
      HalfOpenHolds(c, es, i);
    }
  }

  /**
    A half open breaker closes exactly on the `halfOpenMax`-th success since it became half open
    (or a reset), and opens again on any failure.
   */
  lemma ClosesExactly(c: Config, es: seq<Event>, i: nat, e: Event)
    requires HalfOpenSince(c, es, i)
    ensures After(c, es + [e]).mode ==
            if e.Failed? then Open
            else if e.Reset? || Successes((es + [e])[i + 1..]) == AtLeastOne(c.halfOpenMax) then Closed
            else HalfOpen
  {
    assert (es + [e])[..|es|] == es;
    LastOfTail(es + [e], i + 1);
    HalfOpenHolds(c, es, i);
  }

  // ----- Open -----

  /**
    The failure at `i` came when the circuit was half open, or it completed the streak of a closed
    one. Since then there was no reset, and every ask came within the timeout of the failure that
    was then the latest.
   */
  ghost predicate OpensAt(c: Config, es: seq<Event>, i: nat, halfOpen: bool, open: bool)
    requires i < |es|
  {
    && es[i].Failed? && (halfOpen || (!open && FailStreak(es[..i + 1]) == AtLeastOne(c.maxFailures)))
    && forall k :: i < k < |es| ==> StaysOpen(c, es, k)
  }

  /** The breaker opened on such a failure. */
  ghost predicate OpenSince(c: Config, es: seq<Event>, i: nat) {
    i < |es| && OpensAt(c, es, i, After(c, es[..i]).mode.HalfOpen?, After(c, es[..i]).mode.Open?)
  }

  predicate StaysOpen(c: Config, es: seq<Event>, k: nat)
    requires k < |es|
  {
    !es[k].Reset? && (es[k].Asked? ==> es[k].now - LastFailure(es[..k]) <= c.resetTimeout)
  }

  lemma {:induction false} OpenHolds(c: Config, es: seq<Event>, i: nat)
    requires OpenSince(c, es, i)
    ensures After(c, es).mode.Open?
    decreases |es|
  {
    var before := es[..|es| - 1];
    ClosedCounts(c, before);
    if i == |es| - 1 {
      assert es[..i + 1] == es;
    } else {
      OpenSinceShorter(c, es, i);
      OpenHolds(c, before, i);
      assert StaysOpen(c, es, |es| - 1);
    }
  }

  lemma OpenSinceShorter(c: Config, es: seq<Event>, i: nat)
    requires i < |es| - 1
    ensures OpenSince(c, es, i) <==> OpenSince(c, es[..|es| - 1], i) && StaysOpen(c, es, |es| - 1)
  {
    var before := es[..|es| - 1];
    assert before[..i] == es[..i] && before[..i + 1] == es[..i + 1];
    forall k | i < k < |before| ensures StaysOpen(c, before, k) <==> StaysOpen(c, es, k) {
      assert before[..k] == es[..k];
    }
  }

  lemma {:induction false} OpenEntered(c: Config, es: seq<Event>) returns (i: nat)
    requires After(c, es).mode.Open?
    ensures OpenSince(c, es, i)
    decreases |es|
  {
    var before := es[..|es| - 1];
    ClosedCounts(c, before);
    if After(c, before).mode.Open? {
      i := OpenEntered(c, before);
      OpenSinceShorter(c, es, i);
    } else {
      i := |es| - 1;
      assert es[..i + 1] == es;
    }
  }

  lemma OpenIff(c: Config, es: seq<Event>)
    ensures After(c, es).mode.Open? <==> exists i :: OpenSince(c, es, i)
  {
    if After(c, es).mode.Open? {
      var i := OpenEntered(c, es);
    }
    forall i | OpenSince(c, es, i) ensures After(c, es).mode.Open? {
      OpenHolds(c, es, i);
    }
  }

  /**
    A request is refused exactly when the breaker opened and stayed open, and no more than the
    timeout has passed since the latest failure, however late that failure was reported.
   */
  lemma RefusedIff(c: Config, es: seq<Event>, now: int)
    ensures !Admits(c, After(c, es), now) <==>
            now - LastFailure(es) <= c.resetTimeout && exists i :: OpenSince(c, es, i)
  {
    ClosedCounts(c, es);
    OpenIff(c, es);
  }

  /** From the opening failure on, every ask within the window was refused. */
  lemma OpenRefuses(c: Config, es: seq<Event>, i: nat, j: nat)
    requires OpenSince(c, es, i) && i < j < |es| && es[j].Asked?
    ensures !Admits(c, After(c, es[..j]), es[j].now)
  {
    var upTo := es[..j];
    assert StaysOpen(c, es, j);
    assert upTo[..i] == es[..i] && upTo[..i + 1] == es[..i + 1];
    forall k | i < k < |upTo| ensures StaysOpen(c, upTo, k) {
      assert StaysOpen(c, es, k) && upTo[..k] == es[..k];
    }
    assert OpenSince(c, upTo, i);
    RefusedIff(c, upTo, es[j].now);
  }

  // ----- What the modes mean, from the events alone -----

  /** Some failure opened the circuit, and nothing has ended that. */
  ghost predicate IsOpen(c: Config, es: seq<Event>)
    decreases |es|
  {
    exists i {:trigger es[i]} :: 0 <= i < |es| && OpensAt(c, es, i, IsHalfOpen(c, es[..i]), IsOpen(c, es[..i]))
  }

  /** Some ask half opened an open circuit, and nothing has ended that. */
  ghost predicate IsHalfOpen(c: Config, es: seq<Event>)
    decreases |es|
  {
    exists i {:trigger es[i]} :: 0 <= i < |es| && IsOpen(c, es[..i]) && HalfOpensAt(c, es, i)
  }

  lemma {:induction false} MeaningOfModes(c: Config, es: seq<Event>)
    ensures IsOpen(c, es) <==> After(c, es).mode.Open?
    ensures IsHalfOpen(c, es) <==> After(c, es).mode.HalfOpen?
    decreases |es|
  {
    forall i | 0 <= i < |es|
      ensures IsOpen(c, es[..i]) == After(c, es[..i]).mode.Open?
      ensures IsHalfOpen(c, es[..i]) == After(c, es[..i]).mode.HalfOpen?
    {
      MeaningOfModes(c, es[..i]);
    }
    OpenIff(c, es);
    HalfOpenIff(c, es);
    if i: nat :| OpenSince(c, es, i) {
      assert es[i].Failed? && IsOpen(c, es);
    }
    if i: nat :| HalfOpenSince(c, es, i) {
      assert es[i].Asked? && IsHalfOpen(c, es);
    }
    if IsOpen(c, es) {
      var i: nat :| i < |es| && OpensAt(c, es, i, IsHalfOpen(c, es[..i]), IsOpen(c, es[..i]));
      assert OpenSince(c, es, i);
    }
    if IsHalfOpen(c, es) {
      var i: nat :| i < |es| && IsOpen(c, es[..i]) && HalfOpensAt(c, es, i);
      assert HalfOpenSince(c, es, i);
    }
  }

  // ----- The object -----

  class CircuitBreaker {
    const config: Config
    var mode: Mode
    var failures: int
    var successes: int
    var lastFailure: int

    constructor (config: Config)
      ensures View() == After(config, []) && this.config == config
    {
      this.config := config;
      mode, failures, successes, lastFailure := Closed, 0, 0, 0;
    }

    function View(): Breaker
      reads this
    {
      Breaker(mode, failures, successes, lastFailure)
    }

    method AllowRequest(now: int) returns (ok: bool)
      modifies this
      ensures View() == Next(config, old(View()), Asked(now))
      ensures ok == Admits(config, old(View()), now)
    {
      match mode
      case Open =>
        if now - lastFailure > config.resetTimeout {
          mode, successes := HalfOpen, 0;
          return true;
        }
        return false;
      case _ =>
        return true;
    }

    method RecordFailure(now: int)
      modifies this
      ensures View() == Next(config, old(View()), Failed(now))
    {
      failures, lastFailure := failures + 1, now;
      if mode.HalfOpen? {
        mode := Open;
        return;
      }
      if failures >= config.maxFailures {
        mode := Open;
      }
    }

    method RecordSuccess()
      modifies this
      ensures View() == Next(config, old(View()), Succeeded)
    {
      if mode.HalfOpen? {
        successes := successes + 1;
        if successes >= config.halfOpenMax {
          mode, failures := Closed, 0;
        }
        return;
      }
      failures := 0;
    }

    method ResetBreaker()
      modifies this
      ensures View() == Next(config, old(View()), Reset)
    {
      mode, failures, successes := Closed, 0, 0;
    }
  }
}
