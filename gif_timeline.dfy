/** Playback of an animated reflection image: the decoded frames with their
    display durations, the start time of each frame on a looping timeline,
    and the choice of the frame to show at a given moment. */
module GifTimeline {
  import opened Numeric

  /** Display time of one decoded frame, in milliseconds, from the
      decoder's duration in microseconds (0 when the decoder gives none):
      100 ms when there is none, and never less than 16 ms. */
  function FrameDuration(durationUs: real): (ms: real)
    ensures ms >= 16.0
    ensures durationUs == 0.0 ==> ms == 100.0
    ensures durationUs != 0.0 && durationUs / 1000.0 >= 16.0 ==> ms == durationUs / 1000.0
    ensures durationUs != 0.0 && durationUs / 1000.0 < 16.0 ==> ms == 16.0
  {
    Max(16.0, if durationUs != 0.0 then durationUs / 1000.0 else 100.0)
  }

  /** Sum of the frame durations: the length of one loop. */
  function Total(frames: seq<real>): real
  {
    if frames == [] then 0.0 else Total(frames[..|frames| - 1]) + frames[|frames| - 1]
  }

  /** The timeline: the time at which each frame starts, the running sum
      of the durations before it. */
  function Starts(frames: seq<real>): (t: seq<real>)
    ensures |t| == |frames|
  {
    if frames == [] then [] else Starts(frames[..|frames| - 1]) + [Total(frames[..|frames| - 1])]
  }

  predicate AllAtLeast16(frames: seq<real>)
  {
    forall i :: 0 <= i < |frames| ==> frames[i] >= 16.0
  }

  /** The frame durations `loadGifPlayback` stores for the decoder's
      durations. */
  function Durations(raw: seq<real>): (ds: seq<real>)
    ensures |ds| == |raw| && AllAtLeast16(ds)
    ensures forall i :: 0 <= i < |raw| ==> ds[i] == FrameDuration(raw[i])
  {
    seq(|raw|, i requires 0 <= i < |raw| => FrameDuration(raw[i]))
  }

  /** Appending the next decoded frame extends the durations by its
      duration, the timeline by the current total, and the total by the
      duration. */
  lemma AppendFrame(raw: seq<real>, i: nat, frames: seq<real>)
    requires i < |raw| && frames == Durations(raw[..i])
    ensures frames + [FrameDuration(raw[i])] == Durations(raw[..i + 1])
    ensures Starts(frames + [FrameDuration(raw[i])]) == Starts(frames) + [Total(frames)]
    ensures Total(frames + [FrameDuration(raw[i])]) == Total(frames) + FrameDuration(raw[i])
  {
    var g := frames + [FrameDuration(raw[i])];
    assert g[..|frames|] == frames;
  }

  /** The timeline starts at 0 and each frame starts where the previous one
      ends; the last one ends at the total. With durations of at least
      16 ms the starts strictly increase. */
  lemma {:induction false} StartsShape(frames: seq<real>)
    requires AllAtLeast16(frames)
    ensures frames != [] ==> Starts(frames)[0] == 0.0
    ensures forall i :: 0 <= i < |frames| - 1 ==> Starts(frames)[i] + frames[i] == Starts(frames)[i + 1]
    ensures frames != [] ==> Starts(frames)[|frames| - 1] + frames[|frames| - 1] == Total(frames)
    ensures forall i :: 0 <= i < |frames| ==> Starts(frames)[i] >= 16.0 * i as real
    ensures Total(frames) >= 16.0 * |frames| as real
  {
    if frames != [] {
      var p := frames[..|frames| - 1];
      assert AllAtLeast16(p) by {
        forall i | 0 <= i < |p| ensures p[i] >= 16.0 {
          assert p[i] == frames[i];
        }
      }
      StartsShape(p);
      assert Starts(frames) == Starts(p) + [Total(p)];
      if p != [] {
        assert Starts(frames)[|p| - 1] == Starts(p)[|p| - 1];
      }
    }
  }

  /** Index of the first timeline entry after `elapsed`, searching from
      `from`; `|timeline|` when there is none. */
  function FirstAfter(timeline: seq<real>, elapsed: real, from: nat): (i: nat)
    requires from <= |timeline|
    ensures from <= i <= |timeline|
    ensures forall j :: from <= j < i ==> timeline[j] <= elapsed
    ensures i < |timeline| ==> elapsed < timeline[i]
    decreases |timeline| - from
  {
    if from == |timeline| then from
    else if elapsed < timeline[from] then from
    else FirstAfter(timeline, elapsed, from + 1)
  }

  /** The frame `updateGifFrame` shows: the one before the first start
      after `elapsed` (but never before frame 0), or the last frame when
      every start is at or before `elapsed`. */
  function ChosenFrame(timeline: seq<real>, frameCount: nat, elapsed: real): int
  {
    var i := FirstAfter(timeline, elapsed, 0);
    if i < |timeline| then MaxInt(0, i - 1) else frameCount - 1
  }

  /** On a timeline built from the frames, for a moment inside the loop,
      the chosen frame is the one whose display interval holds that
      moment. */
  lemma ChosenFrameCovers(frames: seq<real>, elapsed: real)
    requires frames != [] && AllAtLeast16(frames)
    requires 0.0 <= elapsed < Total(frames)
    ensures var k := ChosenFrame(Starts(frames), |frames|, elapsed);
      && 0 <= k < |frames|
      && Starts(frames)[k] <= elapsed < Starts(frames)[k] + frames[k]
  {
    StartsShape(frames);
    var t := Starts(frames);
    var i := FirstAfter(t, elapsed, 0);
    if i < |t| {
      assert i > 0;
      assert t[i - 1] + frames[i - 1] == t[i];
    }
  }

  /** `%` on JavaScript numbers: the remainder of truncating division,
      carrying the sign of `a`. */
  function JsRem(a: real, b: real): (r: real)
    requires b > 0.0
  {
    if a >= 0.0 then a - ((a / b).Floor as real) * b
    else -((-a) - (((-a) / b).Floor as real) * b)
  }

  /** The remainder of a non-negative `a` lies in [0, b); of a negative
      one in (-b, 0]. */
  lemma JsRemBounds(a: real, b: real)
    requires b > 0.0
    ensures a >= 0.0 ==> 0.0 <= JsRem(a, b) < b
    ensures a < 0.0 ==> -b < JsRem(a, b) <= 0.0
  {
    if a >= 0.0 {
      FloorTimes(a, b);
    } else {
      FloorTimes(-a, b);
    }
  }

  /** `floor(m / b) * b` is the largest multiple of `b` not above `m`. */
  lemma FloorTimes(m: real, b: real)
    requires m >= 0.0 && b > 0.0
    ensures ((m / b).Floor as real) * b <= m < ((m / b).Floor as real) * b + b
  {
    var q := m / b;
    assert q * b == m;
    WholePart(m, b, q, (m / b).Floor as real);
  }

  /** If `m == q * b` and `f` is the integer part of `q`, then `m` lies
      between `f * b` and `f * b + b`. */
  lemma WholePart(m: real, b: real, q: real, f: real)
    requires b > 0.0 && q * b == m && f <= q < f + 1.0
    ensures f * b <= m < f * b + b
  {
    var e := q - f;
    assert m - f * b == e * b;
    assert 0.0 <= e * b;
    assert e * b < 1.0 * b;
  }

  /** `sim.reflectionGif`: the decoded frames (their durations; the images
      themselves are not modelled), their timeline, the loop length and
      the moment playback started. */
  class GifPlayback {
    var active: bool
    var frames: seq<real>
    var timeline: seq<real>
    var totalDuration: real
    var startTime: real

    ghost predicate Valid()
      reads this
    {
      && AllAtLeast16(frames)
      && timeline == Starts(frames)
      && (active ==> frames != [] && totalDuration == Total(frames))
    }

    /** No playback. */
    constructor ()
      ensures Valid() && !active && frames == [] && timeline == [] && totalDuration == 0.0 && startTime == 0.0
    {
      active := false;
      frames := [];
      timeline := [];
      totalDuration := 0.0;
      startTime := 0.0;
    }

    /** `clearGifPlayback`: drop every frame and stop, unless there is
        nothing to clear. */
    method ClearGifPlayback()
      requires Valid()
      modifies this
      ensures !active && frames == [] && timeline == [] && Valid()
      ensures old(active) || old(frames) != [] ==> totalDuration == 0.0 && startTime == 0.0
      ensures !old(active) && old(frames) == [] ==> totalDuration == old(totalDuration) && startTime == old(startTime)
      ensures !old(active) && old(frames) == [] ==> timeline == old(timeline)
    {
      if !active && |frames| == 0 {
        return;
      }
      active := false;
      frames := [];
      timeline := [];
      totalDuration := 0.0;
      startTime := 0.0;
    }

    /** The bookkeeping of `loadGifPlayback` once the decoder has given the
        durations `raw` of its frames (in microseconds, 0 for none), at time
        `now`. An image without frames is refused and changes nothing;
        otherwise the old playback is cleared, every frame is appended with
        its start on the timeline, and playback starts. */
    method LoadGifPlayback(raw: seq<real>, now: real) returns (ok: bool)
      requires Valid()
      modifies this
      ensures Valid()
      ensures ok <==> raw != []
      ensures !ok ==> active == old(active) && frames == old(frames) && timeline == old(timeline)
                      && totalDuration == old(totalDuration) && startTime == old(startTime)
      ensures ok ==> active && frames == Durations(raw) && timeline == Starts(frames)
                     && totalDuration == Total(frames) && startTime == now
    {
      if |raw| <= 0 {
        return false;
      }
      ClearGifPlayback();
      var t := 0.0;
      var i := 0;
      while i < |raw|
        invariant 0 <= i <= |raw|
        invariant frames == Durations(raw[..i]) && timeline == Starts(frames) && t == Total(frames)
        invariant !active
      {
        var duration := FrameDuration(raw[i]);
        AppendFrame(raw, i, frames);
        frames := frames + [duration];
        timeline := timeline + [t];
        t := t + duration;
        i := i + 1;
      }
      assert raw[..i] == raw;
      totalDuration := t;
      startTime := now;
      active := true;
      ok := true;
    }

    /** `updateGifFrame(now)`: no frame when playback is off, otherwise the
        frame chosen for the time elapsed since the start, taken modulo the
        loop length; the linear search stops at the first start after it. */
    method UpdateGifFrame(now: real) returns (shown: Option<nat>)
      requires Valid()
      ensures shown.None? <==> !active || frames == [] || totalDuration <= 0.0
      ensures shown.Some? ==>
        && shown.value < |frames|
        && shown.value == ChosenFrame(timeline, |frames|, JsRem(now - startTime, totalDuration))
      ensures shown.Some? && now >= startTime ==>
        var e := JsRem(now - startTime, totalDuration);
        timeline[shown.value] <= e < timeline[shown.value] + frames[shown.value]
    {
      if !active || |frames| == 0 || totalDuration <= 0.0 {
        return None;
      }
      var elapsed := JsRem(now - startTime, totalDuration);
      var idx := |frames| - 1;
      var i := 0;
      while i < |timeline|
        invariant 0 <= i <= |timeline|
        invariant FirstAfter(timeline, elapsed, 0) == FirstAfter(timeline, elapsed, i)
        invariant idx == |frames| - 1
      {
        if elapsed < timeline[i] {
          idx := MaxInt(0, i - 1);
          break;
        }
        i := i + 1;
      }
      if now >= startTime {
        JsRemBounds(now - startTime, totalDuration);
        ChosenFrameCovers(frames, elapsed);
      }
      shown := Some(idx);
    }
  }
}
