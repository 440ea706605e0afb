/**
 * The countdown component: `timeLeft` starts at `duration`, an interval
 * lowers it by one per second, and the tick that moves it from 1 to 0 clears
 * the interval and calls `onTimeUp`.
 */
module ProgressTimer {

  /**
   * What the component holds between ticks: the displayed seconds, whether
   * an interval is installed, and how many times `onTimeUp` has been called
   * since the last restart.
   */
  datatype Clock = Clock(timeLeft: int, running: bool, timeUps: nat)

  /** The state right after `startTimer` for the given duration. */
  function Started(duration: int): Clock {
    Clock(duration, true, 0)
  }

  /**
   * One interval callback. Without an interval nothing happens; otherwise
   * the seconds drop by one, and when they were 1 the interval is cleared
   * and `onTimeUp` is called.
   */
  function TickRule(c: Clock): (d: Clock)
    ensures c.running ==> d.timeLeft == c.timeLeft - 1
    ensures !c.running ==> d == c
    ensures d.timeUps == c.timeUps + (if c.running && c.timeLeft == 1 then 1 else 0)
    ensures d.running == (c.running && c.timeLeft != 1)
  {
    if !c.running then c
    else if c.timeLeft == 1 then Clock(0, false, c.timeUps + 1)
    else Clock(c.timeLeft - 1, true, c.timeUps)
  }

  /** The clock after n interval callbacks. */
  function Ticks(c: Clock, n: nat): Clock
    decreases n
  {
    if n == 0 then c else Ticks(TickRule(c), n - 1)
  }

  /**
   * From a restart with `duration` >= 1, the n-th tick for n < duration
   * leaves the countdown running at duration - n without calling
   * `onTimeUp`; from tick number duration on, the interval is gone, the
   * display shows 0 and `onTimeUp` has been called exactly once. A duration
   * of 0 or less never reaches the 1 -> 0 tick, so it counts down forever.
   */
  lemma {:induction false} CountdownFiresOnce(duration: int, n: nat)
    ensures Ticks(Started(duration), n) ==
      if 1 <= duration <= n then Clock(0, false, 1) else Clock(duration - n, true, 0)
  {
    TicksFrom(duration, 0, n);
  }

  /** The general form of the countdown lemma, from any running count. */
  lemma {:induction false} TicksFrom(t: int, fired: nat, n: nat)
    ensures Ticks(Clock(t, true, fired), n) ==
      if 1 <= t <= n then Clock(0, false, fired + 1) else Clock(t - n, true, fired)
    decreases n
  {
    if n > 0 {
      if t == 1 {
        StoppedStays(Clock(0, false, fired + 1), n - 1);
      } else {
        TicksFrom(t - 1, fired, n - 1);
      }
    }
  }

  /** Once the interval is cleared, further callbacks change nothing. */
  lemma {:induction false} StoppedStays(c: Clock, n: nat)
    requires !c.running
    ensures Ticks(c, n) == c
    decreases n
  {
    if n > 0 {
      StoppedStays(TickRule(c), n - 1);
    }
  }

  /** The display turns red exactly when fewer than 5 seconds are left. */
  predicate ShowsWarning(timeLeft: int) {
    timeLeft < 5
  }

  /**
   * For every duration and number of ticks, the warning colour shows exactly
   * from the tick that leaves 4 seconds on: from the start when the duration
   * is below 5, and on to the 0 shown after the time is up.
   */
  lemma WarningInLastSeconds(duration: int, n: nat)
    ensures ShowsWarning(Ticks(Started(duration), n).timeLeft) <==> n > duration - 5
  {
    CountdownFiresOnce(duration, n);
  }

  /**
   * The component. `duration` is its prop; `running` stands for the
   * interval stored in `intervalRef`; `timeUps` is a ghost observer of the
   * `onTimeUp` calls since the last restart.
   */
  class Countdown {
    const duration: int
    var timeLeft: int
    var running: bool
    ghost var timeUps: nat

    ghost function State(): Clock
      reads this
    {
      Clock(timeLeft, running, timeUps)
    }

    /** Mounting: the state starts at `duration` and the effect runs `startTimer`. */
    constructor (duration: int)
      ensures this.duration == duration
      ensures State() == Started(duration)
    {
      this.duration := duration;
      timeLeft := duration;
      running := true;
      timeUps := 0;
    }

    /**
     * A new `currentQuestion`: the effect clean-up clears the old interval
     * and `startTimer` sets `timeLeft` back to `duration` with a new one.
     */
    method Reset()
      modifies this
      ensures State() == Started(duration)
    {
      timeLeft := duration;
      running := true;
      timeUps := 0;
    }

    /** One interval callback; `timeUp` tells whether `onTimeUp` was called. */
    method Tick() returns (timeUp: bool)
      modifies this
      ensures State() == TickRule(old(State()))
      ensures timeUp == (old(running) && old(timeLeft) == 1)
    {
      timeUp := false;
      if running {
        var prev := timeLeft;
        if prev == 1 {
          running := false;
          timeUp := true;
          timeUps := timeUps + 1;
        }
        timeLeft := prev - 1;
      }
    }

    /** Unmounting: the effect clean-up clears the interval. */
    method Unmount()
      modifies this
      ensures State() == old(State()).(running := false)
    {
      running := false;
    }
  }
}
