/**
 * The three per-tuple pacing functions of PlumbingStreams: blockingDelay,
 * blockingThrottle and blockingOneShotDelay.
 *
 * The clock and Thread.sleep are replaced by inputs and outputs: a step gets
 * the clock reading `now` (milliseconds, as System.currentTimeMillis), returns
 * the amount it asks Thread.sleep for, and is told by `interrupted` whether that
 * sleep call, if made, throws InterruptedException. An interrupted sleep makes
 * the function throw a RuntimeException, modelled as the outcome Interrupted.
 * Delays are already converted to whole milliseconds.
 */
module Pacing {

  /** What a pacing function does with its tuple: forwards it, or throws. */
  datatype Paced<T> = Forward(tuple: T) | Interrupted

  function Max(a: int, b: int): int { if a < b then b else a }

  // ---------------------------------------------------------------------------
  // blockingDelay: a fixed sleep before every tuple
  // ---------------------------------------------------------------------------

  /** One call of the blockingDelay closure: the sleep it asks for and its outcome. */
  function DelayStep<T>(t: T, delay: nat, interrupted: bool): (r: (nat, Paced<T>))
    ensures r.0 == delay
    ensures r.1 == Forward(t) <==> !interrupted
    ensures r.1.Forward? ==> r.1.tuple == t
  {
    (delay, if interrupted then Interrupted else Forward(t))
  }

  /** blockingDelay run over a whole stream whose sleeps are not interrupted. */
  function DelayStream<T>(ts: seq<T>, delay: nat): (r: seq<(nat, Paced<T>)>)
    ensures |r| == |ts|
  {
    if ts == [] then [] else [DelayStep(ts[0], delay, false)] + DelayStream(ts[1..], delay)
  }

  /** Every tuple passes unchanged and every tuple is delayed by the same amount. */
  lemma {:induction false} DelayStreamIsUniform<T>(ts: seq<T>, delay: nat)
    ensures forall k :: 0 <= k < |ts| ==> DelayStream(ts, delay)[k] == (delay, Forward(ts[k]))
  {
    if ts != [] {
      DelayStreamIsUniform(ts[1..], delay);
      forall k | 0 <= k < |ts|
        ensures DelayStream(ts, delay)[k] == (delay, Forward(ts[k]))
      {
        if k > 0 {
          assert DelayStream(ts, delay)[k] == DelayStream(ts[1..], delay)[k - 1];
        }
      }
    }
  }

  /**
   * Forwarding times of blockingDelay when tuple ts[k] reaches it at
   * arrivals[k]: each tuple leaves after the sleep its DelayStep asks for.
   */
  function DelayForwards<T>(ts: seq<T>, arrivals: seq<nat>, delay: nat): (f: seq<nat>)
    requires |arrivals| == |ts|
    ensures |f| == |arrivals|
    decreases |ts|
  {
    if ts == [] then []
    else [arrivals[0] + DelayStep(ts[0], delay, false).0] + DelayForwards(ts[1..], arrivals[1..], delay)
  }

  /**
   * blockingDelay does not absorb downstream time: each forward is the whole
   * delay after its arrival, so the gap between two forwards is the time the
   * thread spent since the previous forward plus the whole delay.
   */
  lemma {:induction false} DelayGap<T>(ts: seq<T>, arrivals: seq<nat>, delay: nat)
    requires |arrivals| == |ts|
    ensures var f := DelayForwards(ts, arrivals, delay);
      && (forall k :: 0 <= k < |f| ==> f[k] == arrivals[k] + delay)
      && (forall k :: 1 <= k < |f| ==> f[k] as int - f[k - 1] == (arrivals[k] as int - f[k - 1]) + delay)
    decreases |ts|
  {
    if ts != [] {
      DelayGap(ts[1..], arrivals[1..], delay);
      var f := DelayForwards(ts, arrivals, delay);
      forall k | 1 <= k < |f|
        ensures f[k] == arrivals[k] + delay
      {
        assert f[k] == DelayForwards(ts[1..], arrivals[1..], delay)[k - 1];
      }
    }
  }

  // ---------------------------------------------------------------------------
  // blockingThrottle: keep forwards `delay` apart, absorbing downstream time
  // ---------------------------------------------------------------------------

  /** Whether the throttle calls Thread.sleep: a deadline is set and is still ahead. */
  predicate ThrottleSleeps(deadline: nat, now: nat)
  {
    deadline != 0 && now < deadline
  }

  /** The amount the throttle sleeps for a tuple arriving at `now`. */
  function ThrottleSleep(deadline: nat, now: nat): (s: nat)
    ensures s > 0 <==> ThrottleSleeps(deadline, now)
    ensures s > 0 ==> now + s == deadline
    ensures deadline == 0 ==> s == 0
  {
    if ThrottleSleeps(deadline, now) then deadline - now else 0
  }

  /**
   * The deadline after a forwarded tuple: the clock reading once the throttle
   * is done (re-read as `woke` after a sleep) plus the delay.
   */
  function ThrottleDeadline(deadline: nat, now: nat, woke: nat, delay: nat): (d: nat)
    ensures !ThrottleSleeps(deadline, now) ==> d == now + delay
    ensures ThrottleSleeps(deadline, now) ==> d == woke + delay
    // a sleep that lasted at least what was asked pushes the deadline past max(now, old deadline) + delay
    ensures woke >= now + ThrottleSleep(deadline, now) ==> d >= Max(now, deadline) + delay
    // an exact sleep puts it exactly there
    ensures deadline != 0 && woke == now + ThrottleSleep(deadline, now) ==> d == Max(now, deadline) + delay
  {
    (if ThrottleSleeps(deadline, now) then woke else now) + delay
  }

  /** The blockingThrottle closure: one per-instance deadline, nextTupleTime[0]. */
  class Throttle {
    const delay: nat
    /** 0 while no tuple has been forwarded. */
    var nextTupleTime: nat

    constructor (delay: nat)
      ensures this.delay == delay && nextTupleTime == 0
    {
      this.delay := delay;
      nextTupleTime := 0;
    }

    /**
     * Handle tuple t arriving at clock reading `now`. `woke` is the clock
     * reading taken after the sleep; it is not read when there is no sleep.
     * An interrupted sleep throws before the deadline is written.
     */
    method Apply<T>(t: T, now: nat, interrupted: bool, woke: nat) returns (sleep: nat, r: Paced<T>)
      modifies this
      ensures sleep == ThrottleSleep(old(nextTupleTime), now)
      ensures ThrottleSleeps(old(nextTupleTime), now) && interrupted ==>
        r == Interrupted && nextTupleTime == old(nextTupleTime)
      ensures !(ThrottleSleeps(old(nextTupleTime), now) && interrupted) ==>
        r == Forward(t) && nextTupleTime == ThrottleDeadline(old(nextTupleTime), now, woke, delay)
    {
      var clock := now;
      sleep := 0;
      if nextTupleTime != 0 {
        if clock < nextTupleTime {
          sleep := nextTupleTime - clock;
          if interrupted {
            return sleep, Interrupted;
          }
          clock := woke;
        }
      }
      nextTupleTime := clock + delay;
      r := Forward(t);
    }
  }

  /**
   * Forwarding times of a throttle whose deadline is `deadline` when the
   * tuples arrive at `arrivals`, every sleep lasting exactly what was asked.
   */
  function ThrottleForwards(deadline: nat, arrivals: seq<nat>, delay: nat): (f: seq<nat>)
    ensures |f| == |arrivals|
    // the first tuple leaves neither before it arrived nor before a pending deadline
    ensures |f| > 0 ==> f[0] >= arrivals[0] && f[0] >= deadline
    decreases |arrivals|
  {
    if arrivals == [] then []
    else
      var now := arrivals[0];
      var woke := now + ThrottleSleep(deadline, now);
      [woke] + ThrottleForwards(ThrottleDeadline(deadline, now, woke, delay), arrivals[1..], delay)
  }

  /** The first forward of a trace: immediate without a deadline, else at max(arrival, deadline). */
  lemma ThrottleFirstForward(deadline: nat, arrivals: seq<nat>, delay: nat)
    requires arrivals != []
    ensures deadline == 0 ==> ThrottleForwards(deadline, arrivals, delay)[0] == arrivals[0]
    ensures deadline != 0 ==> ThrottleForwards(deadline, arrivals, delay)[0] == Max(arrivals[0], deadline)
  {
  }

  /**
   * The throttle's cadence: every forward after the first happens at the later
   * of its arrival and `delay` after the previous forward. So forwards are at
   * least `delay` apart, no tuple leaves before it arrived, a tuple arriving
   * after the delay has elapsed leaves at once, and a tuple that arrives within
   * the delay leaves exactly `delay` after the previous one.
   */
  lemma {:induction false} ThrottleCadence(deadline: nat, arrivals: seq<nat>, delay: nat)
    ensures var f := ThrottleForwards(deadline, arrivals, delay);
      forall k :: 1 <= k < |f| ==> f[k] == Max(arrivals[k], f[k - 1] + delay)
    decreases |arrivals|
  {
    if |arrivals| > 1 {
      var now := arrivals[0];
      var woke := now + ThrottleSleep(deadline, now);
      var d := ThrottleDeadline(deadline, now, woke, delay);
      var g := ThrottleForwards(d, arrivals[1..], delay);
      assert ThrottleForwards(deadline, arrivals, delay) == [woke] + g;
      assert d == woke + delay;
      ThrottleFirstForward(d, arrivals[1..], delay);
      assert g[0] == Max(arrivals[1], d);
      ThrottleCadence(d, arrivals[1..], delay);
      CadenceCons(woke, g, arrivals, delay);
    }
  }

  /** Putting a forward at `woke` in front of a trace keeping the cadence from woke + delay on. */
  lemma CadenceCons(woke: nat, g: seq<nat>, arrivals: seq<nat>, delay: nat)
    requires |g| > 0 && |arrivals| == |g| + 1
    requires g[0] == Max(arrivals[1], woke + delay)
    requires forall k :: 1 <= k < |g| ==> g[k] == Max(arrivals[1..][k], g[k - 1] + delay)
    ensures var f := [woke] + g;
      forall k :: 1 <= k < |f| ==> f[k] == Max(arrivals[k], f[k - 1] + delay)
  {
    var f := [woke] + g;
    forall k | 1 <= k < |f|
      ensures f[k] == Max(arrivals[k], f[k - 1] + delay)
    {
      if k > 1 {
        assert arrivals[1..][k - 1] == arrivals[k];
      }
    }
  }

  /** Consequences of the cadence for a fresh throttle (deadline 0). */
  lemma ThrottleSpacing(arrivals: seq<nat>, delay: nat)
    ensures var f := ThrottleForwards(0, arrivals, delay);
      && (|f| > 0 ==> f[0] == arrivals[0])
      && (forall k :: 0 <= k < |f| ==> f[k] >= arrivals[k])
      && (forall k :: 1 <= k < |f| ==> f[k] - f[k - 1] >= delay)
      && (forall k :: 1 <= k < |f| && arrivals[k] >= f[k - 1] + delay ==> f[k] == arrivals[k])
      && (forall k :: 1 <= k < |f| && arrivals[k] <= f[k - 1] + delay ==> f[k] - f[k - 1] == delay)
  {
    ThrottleCadence(0, arrivals, delay);
    var f := ThrottleForwards(0, arrivals, delay);
    if arrivals != [] {
      ThrottleFirstForward(0, arrivals, delay);
    }
    forall k | 1 <= k < |f|
      ensures f[k] >= arrivals[k]
      ensures f[k] - f[k - 1] >= delay
      ensures arrivals[k] >= f[k - 1] + delay ==> f[k] == arrivals[k]
      ensures arrivals[k] <= f[k - 1] + delay ==> f[k] - f[k - 1] == delay
    {
      assert f[k] == Max(arrivals[k], f[k - 1] + delay);
    }
  }

  // ---------------------------------------------------------------------------
  // blockingOneShotDelay: sleep before the first tuple only
  // ---------------------------------------------------------------------------

  /** The flag value meaning "the initial delay has been done". */
  const Done: int := -1

  /** The sleep the one-shot closure asks for, given its flag. */
  function OneShotSleep(flag: int): (s: nat)
    requires flag >= Done
    ensures flag == Done ==> s == 0
    ensures flag != Done ==> s == flag
  {
    if flag == Done then 0 else flag
  }

  /** The flag after one call: cleared once a sleep completes, kept when the sleep throws. */
  function OneShotNext(flag: int, interrupted: bool): (f: int)
    requires flag >= Done
    ensures f >= Done
    ensures f == Done <==> flag == Done || !interrupted
    ensures f != Done ==> f == flag
  {
    if flag != Done && interrupted then flag else Done
  }

  /** The blockingOneShotDelay closure: one per-instance field, initialDelay[0]. */
  class OneShotDelay {
    var initialDelay: int

    ghost predicate Valid()
      reads this
    {
      initialDelay >= Done
    }

    constructor (delay: nat)
      ensures Valid() && initialDelay == delay
    {
      initialDelay := delay;
    }

    /** Handle tuple t; `interrupted` says whether the sleep, if made, throws. */
    method Apply<T>(t: T, interrupted: bool) returns (sleep: nat, r: Paced<T>)
      requires Valid()
      modifies this
      ensures Valid()
      ensures sleep == OneShotSleep(old(initialDelay))
      ensures initialDelay == OneShotNext(old(initialDelay), interrupted)
      ensures r == if old(initialDelay) != Done && interrupted then Interrupted else Forward(t)
    {
      sleep := 0;
      if initialDelay != Done {
        sleep := initialDelay;
        if interrupted {
          return sleep, Interrupted;
        }
        initialDelay := Done;
      }
      r := Forward(t);
    }
  }

  /** The sleeps of a one-shot delay over a run, `interrupts[k]` telling whether call k's sleep throws. */
  function OneShotSleeps(flag: int, interrupts: seq<bool>): (s: seq<nat>)
    requires flag >= Done
    ensures |s| == |interrupts|
  {
    if interrupts == [] then []
    else [OneShotSleep(flag)] + OneShotSleeps(OneShotNext(flag, interrupts[0]), interrupts[1..])
  }

  /** Without interruptions only the first tuple is delayed, by the whole initial delay. */
  lemma {:induction false} OneShotDelaysFirstOnly(delay: nat, interrupts: seq<bool>)
    requires forall k :: 0 <= k < |interrupts| ==> !interrupts[k]
    ensures var s := OneShotSleeps(delay, interrupts);
      && (|s| > 0 ==> s[0] == delay)
      && (forall k :: 1 <= k < |s| ==> s[k] == 0)
  {
    if |interrupts| > 0 {
      OneShotDoneNeverSleeps(interrupts[1..]);
    }
  }

  /** Once the flag is Done no call sleeps again, interrupted or not. */
  lemma {:induction false} OneShotDoneNeverSleeps(interrupts: seq<bool>)
    ensures forall k :: 0 <= k < |interrupts| ==> OneShotSleeps(Done, interrupts)[k] == 0
  {
    if interrupts != [] {
      OneShotDoneNeverSleeps(interrupts[1..]);
      var s := OneShotSleeps(Done, interrupts);
      forall k | 0 <= k < |interrupts|
        ensures s[k] == 0
      {
        if k > 0 {
          assert s[k] == OneShotSleeps(Done, interrupts[1..])[k - 1];
        }
      }
    }
  }
}
