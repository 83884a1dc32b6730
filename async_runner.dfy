/** `AsyncRunner` (web/client/scripts/util.js): runs an asynchronous action
    (the re-render of the preview) on a periodic timer whenever the document
    is stale, never more than one round at a time, and optionally adapts the
    timer period to how long the recent rounds took.

    The timer, the clock and the action are outside the model: a timer tick
    is a call of `Update`, the end of a round is a call of `Complete` with the
    round's outcome and duration, the `isStale` callback's answer is a
    parameter, and the action invocations are recorded in `actions`. Rates
    and durations are milliseconds as exact reals. */
module UpdateScheduler {

  /** How many round durations the running average is taken over. */
  const TimesSamples: nat := 10
  const MinRefreshRate: real := 100.0
  const MaxRefreshRate: real := 1000.0
  /** The period used when the constructor is given none (or 0). */
  const DefaultRefreshRate: real := 1000.0

  function Sum(ts: seq<real>): real
  {
    if ts == [] then 0.0 else Sum(ts[..|ts| - 1]) + ts[|ts| - 1]
  }

  function Mean(ts: seq<real>): real
    requires |ts| > 0
  {
    Sum(ts) / (|ts| as real)
  }

  /** The mean of samples that all lie in [lo, hi] lies in [lo, hi]. */
  lemma {:induction false} SumBounds(ts: seq<real>, lo: real, hi: real)
    requires forall i :: 0 <= i < |ts| ==> lo <= ts[i] <= hi
    ensures (|ts| as real) * lo <= Sum(ts) <= (|ts| as real) * hi
  {
    if ts != [] {
      SumBounds(ts[..|ts| - 1], lo, hi);
    }
  }

  lemma MeanBounds(ts: seq<real>, lo: real, hi: real)
    requires |ts| > 0
    requires forall i :: 0 <= i < |ts| ==> lo <= ts[i] <= hi
    ensures lo <= Mean(ts) <= hi
  {
    SumBounds(ts, lo, hi);
    var n := |ts| as real;
    assert n * lo <= Sum(ts) <= n * hi;
    assert Mean(ts) * n == Sum(ts);
  }

  /** `times.push(t)` followed by one `shift()` when the window is full: the
      newest samples, at most `TimesSamples` of them once the window was
      within its bound, ending with `t`. */
  function PushSample(ts: seq<real>, t: real): (r: seq<real>)
    ensures 0 < |r| <= |ts| + 1 && r[|r| - 1] == t
    ensures |ts| <= TimesSamples ==> |r| == if |ts| < TimesSamples then |ts| + 1 else TimesSamples
    ensures r == (ts + [t])[|ts| + 1 - |r|..]
  {
    var s := ts + [t];
    if |s| > TimesSamples then s[1..] else s
  }

  function MinReal(a: real, b: real): real { if a <= b then a else b }
  function MaxReal(a: real, b: real): real { if a >= b then a else b }

  /** `resume(rate)` keeps the current period when given 0 (a falsy rate). */
  function ResumedRate(rate: real, current: real): real
  {
    if rate == 0.0 then current else rate
  }

  /** The period after a successful round whose running average is `avg`,
      with dynamic adjustment on: grow by half (up to the maximum) when the
      rounds take more than 66% of the period, shrink to 66% (down to the
      minimum) when they take less than 33%, otherwise keep it. */
  function NextRate(avg: real, rate: real): real
  {
    if avg > 0.66 * rate && rate < MaxRefreshRate then
      ResumedRate(MinReal(MaxRefreshRate, 1.5 * rate), rate)
    else if avg < 0.33 * rate && rate > MinRefreshRate then
      ResumedRate(MaxReal(MinRefreshRate, 0.66 * rate), rate)
    else rate
  }

  /** Whether the adaptive step calls `resume`, which re-arms the timer even
      when the period it computes equals the current one. */
  predicate Resumes(avg: real, rate: real)
  {
    || (avg > 0.66 * rate && rate < MaxRefreshRate)
    || (avg < 0.33 * rate && rate > MinRefreshRate)
  }

  /** For a positive period, the adaptive step calls `resume` exactly when it
      changes the period. */
  lemma ResumesIffChanged(avg: real, rate: real)
    requires rate > 0.0
    ensures Resumes(avg, rate) <==> NextRate(avg, rate) != rate
  {
  }

  /** A period within [MinRefreshRate, MaxRefreshRate] stays there. */
  lemma NextRateInBand(avg: real, rate: real)
    requires MinRefreshRate <= rate <= MaxRefreshRate
    ensures MinRefreshRate <= NextRate(avg, rate) <= MaxRefreshRate
  {
  }

  /** The period only grows when the rounds are slow relative to it and only
      shrinks when they are fast, and each step is bounded: at most half
      again, and never below 66% or below the minimum. */
  lemma NextRateDirection(avg: real, rate: real)
    requires rate > 0.0
    ensures NextRate(avg, rate) > rate ==> avg > 0.66 * rate && rate < MaxRefreshRate
    ensures NextRate(avg, rate) < rate ==> avg < 0.33 * rate && rate > MinRefreshRate
    ensures 0.33 * rate <= avg <= 0.66 * rate ==> NextRate(avg, rate) == rate
    ensures 0.66 * rate <= NextRate(avg, rate) <= 1.5 * rate
    ensures NextRate(avg, rate) < rate ==> NextRate(avg, rate) >= MinRefreshRate
    ensures NextRate(avg, rate) > rate ==> NextRate(avg, rate) <= MaxRefreshRate
  {
  }

  /** A period outside the band moves towards it and never past it: below
      the minimum it can only grow, above the maximum it can only shrink. */
  lemma NextRateTowardsBand(avg: real, rate: real)
    requires rate > 0.0
    ensures rate < MinRefreshRate ==> rate <= NextRate(avg, rate) <= MaxRefreshRate
    ensures rate > MaxRefreshRate ==> MinRefreshRate <= NextRate(avg, rate) <= rate
  {
  }

  class AsyncRunner {
    /** The number of rounds started. */
    var round: int
    /** The highest round that has completed. */
    var lastRound: int
    var stale: bool
    /** The timer period. */
    var refreshRate: real
    /** Assigned by clients; off after construction. */
    var dynamicRefreshRate: bool
    /** Durations of the most recent successful rounds (initially the period). */
    var times: seq<real>
    /** Whether the periodic timer is armed (`ival` is non-zero). */
    var timerActive: bool
    /** Whether a spinner callback was given, and its last setting. */
    const hasSpinner: bool
    var spinning: bool
    /** Whether an `isStale` callback was given. */
    const hasIsStale: bool
    /** The round numbers the action has been invoked with, in order. */
    var actions: seq<int>

    /** At most one round is in flight (started, not completed); rounds are
        numbered 1, 2, … in the order they start; the spinner is on exactly
        while a round is in flight; the sample window is never empty or
        over-full. */
    ghost predicate Valid()
      reads this
    {
      && 0 <= lastRound <= round <= lastRound + 1
      && |actions| == round
      && (forall k :: 0 <= k < |actions| ==> actions[k] == k + 1)
      && spinning == (hasSpinner && round == lastRound + 1)
      && 1 <= |times| <= TimesSamples
    }

    predicate InFlight()
      reads this
    {
      round == lastRound + 1
    }

    /** `new AsyncRunner(refreshRate, spinner, isStale, action)`: no rounds,
        not stale, the given period (or the default for 0), one sample equal
        to the period, and the timer armed by `resume`. */
    constructor (rate: real, spinner: bool, isStale: bool)
      ensures Valid() && !InFlight()
      ensures round == 0 && lastRound == 0 && !stale && actions == []
      ensures refreshRate == (if rate == 0.0 then DefaultRefreshRate else rate)
      ensures times == [refreshRate] && timerActive && !dynamicRefreshRate
      ensures hasSpinner == spinner && hasIsStale == isStale && !spinning
    {
      round := 0;
      lastRound := 0;
      stale := false;
      hasSpinner := spinner;
      hasIsStale := isStale;
      spinning := false;
      var r := if rate == 0.0 then DefaultRefreshRate else rate;
      refreshRate := r;
      dynamicRefreshRate := false;
      times := [r];
      actions := [];
      timerActive := true;
    }

    /** `resume(rate)`: re-arm the timer with period `rate`, or with the
        current period when `rate` is 0. */
    method Resume(rate: real)
      modifies this
      ensures refreshRate == ResumedRate(rate, old(refreshRate)) && timerActive
      ensures round == old(round) && lastRound == old(lastRound) && stale == old(stale)
      ensures times == old(times) && spinning == old(spinning) && actions == old(actions)
      ensures dynamicRefreshRate == old(dynamicRefreshRate)
    {
      if timerActive {
        Pause();
      }
      refreshRate := ResumedRate(rate, refreshRate);
      timerActive := true;
    }

    /** `pause()`: disarm the timer. */
    method Pause()
      modifies this
      ensures !timerActive
      ensures refreshRate == old(refreshRate) && round == old(round) && lastRound == old(lastRound)
      ensures stale == old(stale) && times == old(times) && spinning == old(spinning) && actions == old(actions)
      ensures dynamicRefreshRate == old(dynamicRefreshRate)
    {
      timerActive := false;
    }

    /** Clients switch the adaptive period on or off by assigning the field. */
    method SetDynamicRefreshRate(on: bool)
      modifies this
      ensures dynamicRefreshRate == on
      ensures refreshRate == old(refreshRate) && round == old(round) && lastRound == old(lastRound)
      ensures stale == old(stale) && times == old(times) && spinning == old(spinning)
      ensures actions == old(actions) && timerActive == old(timerActive)
    {
      dynamicRefreshRate := on;
    }

    /** `run(force)`: start the next round when forced or stale and no round
        is in flight, clearing the stale flag; otherwise do nothing. */
    method Run(force: bool) returns (started: bool)
      requires Valid()
      modifies this
      ensures Valid()
      ensures started <==> (force || old(stale)) && !old(InFlight())
      ensures started ==> round == old(round) + 1 && !stale && actions == old(actions) + [round] && InFlight()
      ensures !started ==> round == old(round) && stale == old(stale) && actions == old(actions)
      ensures lastRound == old(lastRound) && refreshRate == old(refreshRate) && times == old(times)
      ensures timerActive == old(timerActive) && dynamicRefreshRate == old(dynamicRefreshRate)
    {
      started := (force || stale) && round <= lastRound;
      if started {
        stale := false;
        round := round + 1;
        if hasSpinner {
          spinning := true;
        }
        actions := actions + [round];
      }
    }

    /** `setStale()`: mark stale and try to run. */
    method SetStale() returns (started: bool)
      requires Valid()
      modifies this
      ensures Valid()
      ensures started <==> !old(InFlight())
      ensures started ==> round == old(round) + 1 && !stale && actions == old(actions) + [round]
      ensures !started ==> stale && round == old(round) && actions == old(actions)
      ensures lastRound == old(lastRound) && refreshRate == old(refreshRate) && times == old(times)
    {
      stale := true;
      started := Run(false);
    }

    /** `clearStale()`. */
    method ClearStale()
      modifies this
      ensures !stale
      ensures round == old(round) && lastRound == old(lastRound) && refreshRate == old(refreshRate)
      ensures times == old(times) && spinning == old(spinning) && actions == old(actions)
      ensures timerActive == old(timerActive) && dynamicRefreshRate == old(dynamicRefreshRate)
    {
      stale := false;
    }

    /** A timer tick, `update()`: when not already stale, ask the `isStale`
        callback (if any; its answer is `polled`), then try to run. */
    method Update(polled: bool) returns (started: bool)
      requires Valid()
      modifies this
      ensures Valid()
      ensures var st := old(stale) || (hasIsStale && polled);
        && (started <==> st && !old(InFlight()))
        && (started ==> round == old(round) + 1 && !stale && actions == old(actions) + [round])
        && (!started ==> stale == st && round == old(round) && actions == old(actions))
      ensures lastRound == old(lastRound) && refreshRate == old(refreshRate) && times == old(times)
    {
      if !stale && hasIsStale {
        stale := polled;
      }
      started := Run(false);
    }

    /** The adaptive step after a successful round whose running average is
        `avg`: `resume` with the grown or shrunk period, or leave the timer. */
    method AdaptRate(avg: real)
      modifies this
      ensures refreshRate == NextRate(avg, old(refreshRate))
      ensures timerActive == (old(timerActive) || Resumes(avg, old(refreshRate)))
      ensures refreshRate != old(refreshRate) ==> timerActive
      ensures old(refreshRate) > 0.0 && refreshRate == old(refreshRate) ==> timerActive == old(timerActive)
      ensures round == old(round) && lastRound == old(lastRound) && stale == old(stale)
      ensures times == old(times) && spinning == old(spinning) && actions == old(actions)
      ensures dynamicRefreshRate == old(dynamicRefreshRate)
    {
      var rate := refreshRate;
      if rate > 0.0 {
        ResumesIffChanged(avg, rate);
      }
      if avg > 0.66 * rate && rate < MaxRefreshRate {
        Resume(MinReal(MaxRefreshRate, 1.5 * rate));
      } else if avg < 0.33 * rate && rate > MinRefreshRate {
        Resume(MaxReal(MinRefreshRate, 0.66 * rate));
      }
    }

    /** The promise of round `r`, the one in flight, settles after `elapsed`
        ms, successfully when `ok`. On success the duration joins the sample
        window and, when adaptive, the period follows `NextRate`; either way
        the round counts as completed and the spinner goes off. */
    method Complete(r: int, ok: bool, elapsed: real)
      requires Valid() && InFlight() && r == round
      modifies this
      ensures Valid() && !InFlight()
      ensures lastRound == old(round) && round == old(round) && stale == old(stale) && actions == old(actions)
      ensures times == if ok then PushSample(old(times), elapsed) else old(times)
      ensures refreshRate == if ok && dynamicRefreshRate then NextRate(Mean(times), old(refreshRate)) else old(refreshRate)
      ensures timerActive == (old(timerActive) || (ok && dynamicRefreshRate && Resumes(Mean(times), old(refreshRate))))
      ensures refreshRate != old(refreshRate) ==> timerActive
      ensures old(refreshRate) > 0.0 && refreshRate == old(refreshRate) ==> timerActive == old(timerActive)
      ensures (MinRefreshRate <= old(refreshRate) <= MaxRefreshRate) ==> MinRefreshRate <= refreshRate <= MaxRefreshRate
      ensures dynamicRefreshRate == old(dynamicRefreshRate)
    {
      if ok {
        times := PushSample(times, elapsed);
        if dynamicRefreshRate {
          AdaptRate(Mean(times));
        }
      }
      if lastRound < r {
        lastRound := r;
        if hasSpinner {
          spinning := false;
        }
      }
      if ok && dynamicRefreshRate && MinRefreshRate <= old(refreshRate) <= MaxRefreshRate {
        NextRateInBand(Mean(times), old(refreshRate));
      }
    }
  }

  /** A tick while a round is in flight does not start another one, however
      stale the document is; the next tick after completion does. */
  method OneRoundAtATime() returns (first: bool, during: bool, after: bool, rounds: seq<int>)
    ensures first && !during && after && rounds == [1, 2]
  {
    var r := new AsyncRunner(250.0, true, true);
    first := r.SetStale();
    during := r.Update(true);
    r.Complete(1, true, 40.0);
    after := r.Update(false);
    rounds := r.actions;
  }
}
