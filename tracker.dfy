/**
 * The throughput tracker: a clock that is started once and stopped once,
 * and a counter of work done while it runs. The clock is a parameter of
 * `start` and `stop` (Java's `now()` reads the system time).
 */
module Trackers {
  import opened Wrappers
  import opened JavaInts
  import Decimal

  const E_STARTED := "Tracker already started"
  const E_STOPPED := "Tracker already stopped"
  const E_NOT_RUNNING := "Tracker clock not running"
  const E_LESS_THAN_ONE := "amount must be 1 or more"
  const NA := "n/a"
  const ZERO := "0.00/s"

  /** The exact sum of some increments. */
  function Sum(amounts: seq<Int64>): int
  {
    if amounts == [] then 0 else Sum(amounts[..|amounts| - 1]) + amounts[|amounts| - 1]
  }

  /** Increments that are all at least one add up to at least their number. */
  lemma {:induction false} SumAtLeastLength(amounts: seq<Int64>)
    requires forall i :: 0 <= i < |amounts| ==> amounts[i] >= 1
    ensures Sum(amounts) >= |amounts|
  {
    if amounts != [] {
      SumAtLeastLength(amounts[..|amounts| - 1]);
    }
  }

  /**
   * What `perSecond()` returns: a fixed text, or the rate `count` per
   * `durationMs` milliseconds formatted with two decimals and "/s".
   */
  datatype Throughput = Text(text: string) | Rate(count: Int64, durationMs: Int64)

  /** A 64-bit difference of two longs is zero only when they are equal. */
  lemma DifferenceZero(a: Int64, b: Int64)
    ensures ToInt64(a - b) == 0 <==> a == b
  {
    if ToInt64(a - b) == 0 {
      var d := a - b;
      assert d % TWO_64 == 0;
      assert -TWO_64 < d < TWO_64;
    }
  }

  /** `Tracker`: the clock readings, the two state flags and the count. */
  class Tracker {
    var startedAt: Int64
    var stoppedAt: Int64
    var started: bool
    var stopped: bool
    var count: Int64
    /** The amounts `inc` has accepted, in order. */
    ghost var accepted: seq<Int64>

    /** The count is the sum of the accepted amounts in 64-bit arithmetic; a stopped clock was started first. */
    ghost predicate Valid()
      reads this
    {
      count == ToInt64(Sum(accepted)) &&
      (stopped ==> started) &&
      (!started ==> accepted == []) &&
      (forall i :: 0 <= i < |accepted| ==> accepted[i] >= 1)
    }

    /** `new Tracker()`: neither started nor stopped, count zero. */
    constructor ()
      ensures Valid() && !started && !stopped && count == 0 && accepted == []
      ensures startedAt == 0 && stoppedAt == 0
    {
      startedAt := 0;
      stoppedAt := 0;
      started := false;
      stopped := false;
      count := 0;
      accepted := [];
    }

    /** `start()` at clock reading `now`: only once. */
    method Start(now: Int64) returns (o: Outcome)
      requires Valid()
      modifies this
      ensures Valid()
      ensures old(started) ==> (o == Fail(IllegalState(E_STARTED)) &&
        started && stopped == old(stopped) && startedAt == old(startedAt) && count == old(count))
      ensures !old(started) ==> o == Pass && started && !stopped && startedAt == now && count == 0
      ensures stoppedAt == old(stoppedAt) && accepted == old(accepted)
    {
      if started {
        return Fail(IllegalState(E_STARTED));
      }
      started := true;
      startedAt := now;
      return Pass;
    }

    /**
     * `inc(amount)`: an amount below one is refused first, then a clock
     * that is not running; otherwise the count grows by the amount.
     */
    method Inc(amount: Int64) returns (o: Outcome)
      requires Valid()
      modifies this
      ensures Valid()
      ensures amount < 1 ==> o == Fail(IllegalArgument(E_LESS_THAN_ONE))
      ensures amount >= 1 && (!started || stopped) ==> o == Fail(IllegalState(E_NOT_RUNNING))
      ensures o.Pass? <==> amount >= 1 && started && !stopped
      ensures o.Pass? ==> accepted == old(accepted) + [amount] && count == ToInt64(old(count) + amount)
      ensures o.Fail? ==> accepted == old(accepted) && count == old(count)
      ensures started == old(started) && stopped == old(stopped)
      ensures startedAt == old(startedAt) && stoppedAt == old(stoppedAt)
    {
      if amount < 1 {
        return Fail(IllegalArgument(E_LESS_THAN_ONE));
      }
      if !started || stopped {
        return Fail(IllegalState(E_NOT_RUNNING));
      }
      var total := old(Sum(accepted)) + amount;
      ToInt64Congruent(count + amount, total);
      accepted := accepted + [amount];
      assert accepted[..|accepted| - 1] == old(accepted);
      count := ToInt64(count + amount);
      return Pass;
    }

    /** `inc()`: `inc(1)`. */
    method IncOne() returns (o: Outcome)
      requires Valid()
      modifies this
      ensures Valid()
      ensures o.Pass? <==> started && !stopped
      ensures o.Fail? ==> o.error == IllegalState(E_NOT_RUNNING) && accepted == old(accepted) && count == old(count)
      ensures o.Pass? ==> accepted == old(accepted) + [1] && count == ToInt64(old(count) + 1)
      ensures started == old(started) && stopped == old(stopped)
    {
      o := Inc(1);
    }

    /** `stop()` at clock reading `now`: only after `start`, and only once. */
    method Stop(now: Int64) returns (o: Outcome)
      requires Valid()
      modifies this
      ensures Valid()
      ensures !old(started) ==> o == Fail(IllegalState(E_NOT_RUNNING))
      ensures old(started) && old(stopped) ==> o == Fail(IllegalState(E_STOPPED))
      ensures o.Pass? <==> old(started) && !old(stopped)
      ensures o.Pass? ==> stopped && stoppedAt == now
      ensures o.Fail? ==> stopped == old(stopped) && stoppedAt == old(stoppedAt)
      ensures started == old(started) && startedAt == old(startedAt)
      ensures count == old(count) && accepted == old(accepted)
    {
      if !started {
        return Fail(IllegalState(E_NOT_RUNNING));
      }
      if stopped {
        return Fail(IllegalState(E_STOPPED));
      }
      stopped := true;
      stoppedAt := now;
      return Pass;
    }

    /** `count()`: the accepted amounts added up; exact while the sum fits a long, and at least their number then. */
    function Count(): (n: Int64)
      requires Valid()
      reads this
      ensures n == ToInt64(Sum(accepted))
      ensures IsInt64(Sum(accepted)) ==> n == Sum(accepted) >= |accepted|
    {
      SumAtLeastLength(accepted);
      count
    }

    /** The elapsed milliseconds, `stoppedAt - startedAt` in 64-bit arithmetic. */
    function DurationMs(): (d: Int64)
      reads this
      ensures d == 0 <==> stoppedAt == startedAt
      ensures IsInt64(stoppedAt - startedAt) ==> d == stoppedAt - startedAt
    {
      DifferenceZero(stoppedAt, startedAt);
      ToInt64(stoppedAt - startedAt)
    }

    /** `perSecond()`: "n/a" until stopped, "0.00/s" for a zero duration, otherwise the rate. */
    function PerSecond(): (r: Throughput)
      reads this
      ensures r == Text(NA) <==> !stopped
      ensures r == Text(ZERO) <==> stopped && stoppedAt == startedAt
      ensures r.Rate? <==> stopped && stoppedAt != startedAt
      ensures r.Rate? ==> r.count == count && r.durationMs == DurationMs() != 0
    {
      if !stopped then Text(NA)
      else if DurationMs() == 0 then Text(ZERO)
      else Rate(count, DurationMs())
    }

    /** `duration()`: the elapsed milliseconds followed by "ms", which reads back as the elapsed time. */
    function Duration(): (s: string)
      reads this
      ensures |s| > 2 && s[|s| - 2..] == "ms"
      ensures Decimal.ParseLong(s[..|s| - 2]) == Success(DurationMs())
    {
      var digits := Decimal.IntToString(DurationMs());
      Decimal.ParseLongToString(DurationMs());
      assert (digits + "ms")[..|digits|] == digits;
      digits + "ms"
    }
  }
}
