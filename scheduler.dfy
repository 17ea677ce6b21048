/** The frame scheduler: frames arrive from the browser at display rate,
    the simulation runs at most at its target rate, the ripple block size
    grows with load, the time step is capped, and an idle pond steps its
    ripples only on every other frame. */
module Scheduler {
  import opened Numeric

  /** Target frame period, 30 frames per second. */
  const TargetFrameMs: real := 1000.0 / 30.0
  /** Time without pointer movement after which the pond counts as idle. */
  const IdleThresholdMs: real := 5000.0
  const MinBlock: int := 8
  const MaxBlock: int := 24
  const MaxBoost: int := 10
  const MaxDt: real := 0.05

  /** The block size the settings ask for: at least 8 pixels. */
  function BaseStep(ripplePixelSize: real): (b: int)
    ensures b >= MinBlock
    ensures ripplePixelSize.Floor >= MinBlock ==> b == ripplePixelSize.Floor
  {
    MaxInt(MinBlock, ripplePixelSize.Floor)
  }

  /** Extra block size for a frame-time average over the target: one pixel
      per 2.2 ms of overload, at most 10. */
  function AdaptiveBoost(frameDtEma: real, targetFrameMs: real): (k: int)
    ensures 0 <= k <= MaxBoost
    ensures frameDtEma <= targetFrameMs ==> k == 0
    ensures frameDtEma - targetFrameMs >= 22.0 ==> k == MaxBoost
  {
    MinInt(MaxBoost, (Max(0.0, frameDtEma - targetFrameMs) / 2.2).Floor)
  }

  /** `sim.effectiveRippleStep`: the base block size plus the boost,
      capped at 24. */
  function EffectiveRippleStep(frameDtEma: real, targetFrameMs: real, ripplePixelSize: real): (s: int)
    ensures MinInt(MaxBlock, BaseStep(ripplePixelSize)) <= s <= MaxBlock
    ensures MinBlock <= s
    ensures frameDtEma <= targetFrameMs ==> s == MinInt(MaxBlock, BaseStep(ripplePixelSize))
  {
    MinInt(MaxBlock, BaseStep(ripplePixelSize) + AdaptiveBoost(frameDtEma, targetFrameMs))
  }

  /** A slower average never gives a smaller block. */
  lemma StepMonotone(e1: real, e2: real, targetFrameMs: real, ripplePixelSize: real)
    requires e1 <= e2
    ensures EffectiveRippleStep(e1, targetFrameMs, ripplePixelSize)
         <= EffectiveRippleStep(e2, targetFrameMs, ripplePixelSize)
  {
    var o1, o2 := Max(0.0, e1 - targetFrameMs), Max(0.0, e2 - targetFrameMs);
    assert o1 / 2.2 <= o2 / 2.2;
    FloorMonotone(o1 / 2.2, o2 / 2.2);
  }

  /** The time step of a frame: the elapsed time in seconds, capped at
      0.05 s. */
  function FrameDt(elapsedMs: real): (dt: real)
    ensures dt <= MaxDt
    ensures elapsedMs > 0.0 ==> dt > 0.0
    ensures elapsedMs <= 50.0 ==> dt == elapsedMs / 1000.0
    ensures elapsedMs >= 50.0 ==> dt == MaxDt
  {
    Min(MaxDt, elapsedMs / 1000.0)
  }

  /** The exponential moving average of the frame time, weight 0.1 on the
      newest sample. */
  function Ema(frameDtEma: real, elapsedMs: real): (e: real)
    ensures Min(frameDtEma, elapsedMs) <= e <= Max(frameDtEma, elapsedMs)
    ensures frameDtEma == elapsedMs ==> e == elapsedMs
  {
    frameDtEma * 0.9 + elapsedMs * 0.1
  }

  /** Whether a frame steps the height field: always when the pond is
      active, on even frames only when it is idle. */
  predicate StepsRipples(isIdle: bool, frameIndex: nat)
  {
    !isIdle || frameIndex % 2 == 0
  }

  /** Of two consecutive idle frames exactly one steps the ripples, and
      an active frame always does. */
  lemma IdleAlternates(frameIndex: nat)
    ensures StepsRipples(true, frameIndex) != StepsRipples(true, frameIndex + 1)
    ensures StepsRipples(false, frameIndex)
  {
  }

  /** Number of frames that step the ripples among the `n` frames after
      `frameIndex`, all idle. */
  function IdleSteps(frameIndex: nat, n: nat): nat
    decreases n
  {
    if n == 0 then 0 else (if StepsRipples(true, frameIndex + 1) then 1 else 0) + IdleSteps(frameIndex + 1, n - 1)
  }

  /** Over any run of idle frames the ripples step on half of them,
      rounded one way or the other: the simulation runs at half rate. */
  lemma {:induction false} IdleHalfRate(frameIndex: nat, n: nat)
    ensures n / 2 <= IdleSteps(frameIndex, n) <= (n + 1) / 2
    ensures frameIndex % 2 == 1 ==> IdleSteps(frameIndex, n) == (n + 1) / 2
    decreases n
  {
    if n > 0 {
      IdleHalfRate(frameIndex + 1, n - 1);
      if n > 1 {
        IdleHalfRate(frameIndex + 2, n - 2);
        assert IdleSteps(frameIndex, n) == IdleSteps(frameIndex + 2, n - 2) + 1 by {
          IdleAlternates(frameIndex + 1);
        }
      }
    }
  }

  /** What one call of `frame` does: nothing while paused, only
      rescheduling before the target period has passed, otherwise a
      simulation step with time step `dt`, ripple stepping decided by the
      idle rule, and ripple highlights drawn only when not idle. */
  datatype FrameOutcome = Stopped | Waiting | Ran(dt: real, stepRipples: bool, drawHighlights: bool)

  /** The timing fields of `sim` that `frame`, `pauseSimulation`,
      `resumeSimulation` and the pointer handler update. */
  class FrameClock {
    var paused: bool
    var lastTime: real
    var frameDtEma: real
    var effectiveRippleStep: int
    var frameIndex: nat
    var isIdle: bool
    var lastPointerMoveTime: real
    var time: real

    ghost predicate Valid()
      reads this
    {
      MinBlock <= effectiveRippleStep <= MaxBlock && time >= 0.0
    }

    /** The page-load state at time `now`. */
    constructor (now: real)
      ensures Valid()
      ensures !paused && lastTime == now && frameDtEma == TargetFrameMs && effectiveRippleStep == MinBlock
      ensures frameIndex == 0 && !isIdle && lastPointerMoveTime == now && time == 0.0
    {
      paused := false;
      lastTime := now;
      frameDtEma := TargetFrameMs;
      effectiveRippleStep := MinBlock;
      frameIndex := 0;
      isIdle := false;
      lastPointerMoveTime := now;
      time := 0.0;
    }

    /** `pauseSimulation`; cancelling the pending animation frame is not
        modelled. */
    method PauseSimulation()
      requires Valid()
      modifies this
      ensures Valid()
      ensures paused
      ensures lastTime == old(lastTime) && frameDtEma == old(frameDtEma) && frameIndex == old(frameIndex)
      ensures effectiveRippleStep == old(effectiveRippleStep) && isIdle == old(isIdle)
      ensures lastPointerMoveTime == old(lastPointerMoveTime) && time == old(time)
    {
      paused := true;
    }

    /** `resumeSimulation` at time `now`: the clock restarts from `now`
        with a fresh average and frame count. */
    method ResumeSimulation(now: real)
      requires Valid()
      modifies this
      ensures Valid()
      ensures !paused && lastTime == now && frameDtEma == TargetFrameMs && frameIndex == 0
      ensures effectiveRippleStep == old(effectiveRippleStep) && isIdle == old(isIdle)
      ensures lastPointerMoveTime == old(lastPointerMoveTime) && time == old(time)
    {
      paused := false;
      lastTime := now;
      frameDtEma := TargetFrameMs;
      frameIndex := 0;
    }

    /** The clock part of `onPointerMove` at time `now`. */
    method PointerMoved(now: real)
      requires Valid()
      modifies this
      ensures Valid()
      ensures lastPointerMoveTime == now && !isIdle
      ensures paused == old(paused) && lastTime == old(lastTime) && frameDtEma == old(frameDtEma)
      ensures frameIndex == old(frameIndex) && effectiveRippleStep == old(effectiveRippleStep) && time == old(time)
    {
      lastPointerMoveTime := now;
      isIdle := false;
    }

    /** The scheduling arithmetic of `frame(now)` with the block size the
        settings ask for. */
    method Frame(now: real, ripplePixelSize: real) returns (outcome: FrameOutcome)
      requires Valid()
      modifies this
      ensures Valid()
      ensures old(paused) ==> outcome == Stopped
      ensures !old(paused) && now - old(lastTime) < TargetFrameMs ==> outcome == Waiting
      ensures outcome.Stopped? || outcome.Waiting? ==>
        && paused == old(paused) && lastTime == old(lastTime) && frameDtEma == old(frameDtEma)
        && frameIndex == old(frameIndex) && effectiveRippleStep == old(effectiveRippleStep)
        && isIdle == old(isIdle) && time == old(time)
      ensures !old(paused) && now - old(lastTime) >= TargetFrameMs ==>
        var elapsed := now - old(lastTime);
        && frameIndex == old(frameIndex) + 1
        && isIdle == (now - old(lastPointerMoveTime) > IdleThresholdMs)
        && frameDtEma == Ema(old(frameDtEma), elapsed)
        && effectiveRippleStep == EffectiveRippleStep(frameDtEma, TargetFrameMs, ripplePixelSize)
        && lastTime == now
        && time == old(time) + FrameDt(elapsed)
        && outcome == Ran(FrameDt(elapsed), StepsRipples(isIdle, frameIndex), !isIdle)
        && 0.0 < outcome.dt <= MaxDt
      ensures paused == old(paused) && lastPointerMoveTime == old(lastPointerMoveTime)
    {
      if paused {
        return Stopped;
      }
      var elapsedMs := now - lastTime;
      if elapsedMs < TargetFrameMs {
        return Waiting;
      }
      frameIndex := frameIndex + 1;
      isIdle := now - lastPointerMoveTime > IdleThresholdMs;
      frameDtEma := frameDtEma * 0.9 + elapsedMs * 0.1;
      var baseStep := MaxInt(8, ripplePixelSize.Floor);
      var overload := Max(0.0, frameDtEma - TargetFrameMs);
      var adaptiveBoost := MinInt(10, (overload / 2.2).Floor);
      effectiveRippleStep := MinInt(24, baseStep + adaptiveBoost);
      var dt := Min(0.05, elapsedMs / 1000.0);
      lastTime := now;
      time := time + dt;
      outcome := Ran(dt, !isIdle || frameIndex % 2 == 0, !isIdle);
    }
  }
}
