/** Choice of the refraction backend and the ripple texture. The WebGL path
    is tried on every frame unless it has been disabled; any failure while
    setting it up or drawing with it disables it for good, and the frame
    falls back to the CPU path. The ripple texture quantises each height
    to one byte, 128 meaning flat water. */
module Refraction {
  import opened Numeric

  datatype Backend = WebGl | Cpu

  /** What the browser does on one attempt: whether a WebGL context can be
      created, whether compiling and linking the shaders and creating the
      buffers succeeds, whether the sky canvas has a size, whether the GL
      calls before the ripple upload (canvas resize, program and buffer
      binding, the sky texture upload) raise no error, and whether the calls
      from the ripple upload on (uniforms, the draw, `getError`) raise none. */
  datatype Attempt = Attempt(contextAvailable: bool, setupSucceeds: bool, skyHasSize: bool,
                             preUploadSucceeds: bool, drawSucceeds: bool)

  /** The `ready` and `disabled` flags of `sim.gl`. */
  datatype GlState = GlState(ready: bool, disabled: bool)

  /** A disabled backend is never ready. */
  predicate Coherent(st: GlState)
  {
    st.disabled ==> !st.ready
  }

  /** `initRefractionGl`: the new flags and whether WebGL can be used. */
  function InitStep(st: GlState, a: Attempt): (r: (GlState, bool))
    ensures r.1 ==> r.0.ready && !r.0.disabled
    ensures st.disabled ==> r == (st, false)
    ensures st.ready && !st.disabled ==> r == (st, true)
  {
    if st.disabled then (st, false)
    else if st.ready then (st, true)
    else if !a.contextAvailable then (st, false)
    else if !a.setupSucceeds then (GlState(false, true), false)
    else (GlState(true, false), true)
  }

  /** `renderRefractionWebgl`: the new flags and whether the frame was drawn
      with WebGL. */
  function RenderStep(st: GlState, a: Attempt): (r: (GlState, bool))
    ensures r.1 ==> r.0.ready && !r.0.disabled
  {
    var (s1, ok) := InitStep(st, a);
    if !ok then (s1, false)
    else if !a.skyHasSize then (s1, false)
    else if !a.preUploadSucceeds || !a.drawSucceeds then (GlState(false, true), false)
    else (s1, true)
  }

  /** One attempt keeps the flags coherent, never clears `disabled`, and a
      disabled backend never draws. WebGL is used exactly when the
      backend was not disabled, it is or becomes ready, the sky has a size
      and drawing succeeds. */
  lemma RenderLatch(st: GlState, a: Attempt)
    ensures Coherent(st) ==> Coherent(RenderStep(st, a).0)
    ensures st.disabled ==> RenderStep(st, a).0.disabled && !RenderStep(st, a).1
    ensures RenderStep(st, a).1 <==>
      !st.disabled && (st.ready || (a.contextAvailable && a.setupSucceeds)) && a.skyHasSize
      && a.preUploadSucceeds && a.drawSucceeds
    ensures !RenderStep(st, a).0.disabled ==> !st.disabled
  {
  }

  /** The flags after a run of attempts. */
  function Final(st: GlState, attempts: seq<Attempt>): GlState
  {
    if attempts == [] then st
    else RenderStep(Final(st, attempts[..|attempts| - 1]), attempts[|attempts| - 1]).0
  }

  /** The backend frame `i` of a run uses (`drawReflectedSky`). */
  function BackendAt(st: GlState, attempts: seq<Attempt>, i: nat): Backend
    requires i < |attempts|
  {
    if RenderStep(Final(st, attempts[..i]), attempts[i]).1 then WebGl else Cpu
  }

  /** One more attempt after a prefix of the run. */
  lemma FinalStep(st: GlState, attempts: seq<Attempt>, i: nat)
    requires i < |attempts|
    ensures Final(st, attempts[..i + 1]) == RenderStep(Final(st, attempts[..i]), attempts[i]).0
  {
    assert attempts[..i + 1][..i] == attempts[..i];
  }

  /** Once disabled, the backend stays disabled for the rest of the run:
      if it is disabled before frame `j` it is disabled before every later
      frame `i`. */
  lemma {:induction false} DisabledStays(st: GlState, attempts: seq<Attempt>, j: nat, i: nat)
    requires j <= i <= |attempts|
    requires Final(st, attempts[..j]).disabled
    ensures Final(st, attempts[..i]).disabled
    decreases i - j
  {
    if j < i {
      FinalStep(st, attempts, j);
      RenderLatch(Final(st, attempts[..j]), attempts[j]);
      DisabledStays(st, attempts, j + 1, i);
    }
  }

  /** A backend disabled before frame `j` falls back to the CPU on frame
      `j` and on every frame after it. */
  lemma StickyCpu(st: GlState, attempts: seq<Attempt>, j: nat, i: nat)
    requires j <= i < |attempts|
    requires Final(st, attempts[..j]).disabled
    ensures BackendAt(st, attempts, i) == Cpu
  {
    DisabledStays(st, attempts, j, i);
  }

  /** With the shipped default (`disabled` from the start) every frame is
      drawn on the CPU. */
  lemma DefaultAlwaysCpu(attempts: seq<Attempt>, i: nat)
    requires i < |attempts|
    ensures BackendAt(GlState(false, true), attempts, i) == Cpu
  {
    assert attempts[..0] == [];
    StickyCpu(GlState(false, true), attempts, 0, i);
  }

  /** A failed draw, before or after the ripple upload, disables the
      backend: the next frame is on the CPU, and so is every one after. */
  lemma FailureIsFinal(st: GlState, attempts: seq<Attempt>, j: nat, i: nat)
    requires j < i < |attempts|
    requires var s := Final(st, attempts[..j]);
      InitStep(s, attempts[j]).1 && attempts[j].skyHasSize
      && !(attempts[j].preUploadSucceeds && attempts[j].drawSucceeds)
    ensures BackendAt(st, attempts, i) == Cpu
  {
    FinalStep(st, attempts, j);
    StickyCpu(st, attempts, j + 1, i);
  }

  /** The byte a height is quantised to: `floor(v * 127 + 128)` clamped into
      [0, 255]. */
  function RippleByte(v: real): (b: int)
    ensures 0 <= b <= 255
    ensures v == 0.0 ==> b == 128
    ensures 0 <= (v * 127.0 + 128.0).Floor <= 255 ==> b == (v * 127.0 + 128.0).Floor
    ensures v >= 1.0 ==> b == 255
    ensures v <= -1.0 ==> b <= 1
    ensures v > 0.0 ==> b >= 128
    ensures v < 0.0 ==> b <= 128
  {
    MaxInt(0, MinInt(255, (v * 127.0 + 128.0).Floor))
  }

  /** Higher water never gives a darker byte: the quantisation is
      monotone. */
  lemma RippleByteMonotone(v1: real, v2: real)
    requires v1 <= v2
    ensures RippleByte(v1) <= RippleByte(v2)
  {
    FloorMonotone(v1 * 127.0 + 128.0, v2 * 127.0 + 128.0);
  }

  /** The bytes for the whole height buffer, as far as both arrays reach. */
  predicate TextureMatches(data: seq<int>, heights: seq<real>)
  {
    forall i :: 0 <= i < |data| && i < |heights| ==> data[i] == RippleByte(heights[i])
  }

  /** `sim.gl`: the two flags of the backend latch and the ripple texture
      buffer with the size it was made for. */
  class GlBackend {
    var ready: bool
    var disabled: bool
    var rippleData: array<int>
    var rippleW: int
    var rippleH: int

    ghost predicate Valid()
      reads this
    {
      Coherent(GlState(ready, disabled))
    }

    /** The initial flags: not ready, and disabled as given (`true` in the
        shipped code); no texture buffer yet. */
    constructor (startDisabled: bool)
      ensures Valid() && !ready && disabled == startDisabled && rippleW == 0 && rippleH == 0
      ensures rippleData.Length == 0 && fresh(rippleData)
    {
      ready := false;
      disabled := startDisabled;
      rippleData := new int[0];
      rippleW, rippleH := 0, 0;
    }

    /** `initRefractionGl` for the attempt `a`. */
    method InitRefractionGl(a: Attempt) returns (ok: bool)
      requires Valid()
      modifies this
      ensures Valid()
      ensures (GlState(ready, disabled), ok) == InitStep(GlState(old(ready), old(disabled)), a)
      ensures rippleData == old(rippleData) && rippleW == old(rippleW) && rippleH == old(rippleH)
    {
      if disabled {
        return false;
      }
      if ready {
        return true;
      }
      if !a.contextAvailable {
        return false;
      }
      if !a.setupSucceeds {
        ready := false;
        disabled := true;
        return false;
      }
      ready := true;
      return true;
    }

    /** `updateRippleTexture`: a new zeroed buffer when the grid size
        changed, then one byte per height. Writes past the end of the
        buffer are dropped, as a typed array drops them. */
    method UpdateRippleTexture(current: array<real>, cols: int, rows: int)
      requires cols >= 0 && rows >= 0
      modifies this, rippleData
      ensures ready == old(ready) && disabled == old(disabled)
      ensures cols == 0 || rows == 0 ==>
        rippleData == old(rippleData) && rippleW == old(rippleW) && rippleH == old(rippleH)
        && rippleData[..] == old(rippleData[..])
      ensures cols > 0 && rows > 0 ==>
        && rippleW == cols && rippleH == rows
        && (old(rippleW) == cols && old(rippleH) == rows ==> rippleData == old(rippleData))
        && (old(rippleW) != cols || old(rippleH) != rows ==> fresh(rippleData) && rippleData.Length == cols * rows)
        && TextureMatches(rippleData[..], current[..])
        && (forall i :: current.Length <= i < rippleData.Length ==>
              rippleData[i] == if rippleData == old(rippleData) then old(rippleData[i]) else 0)
    {
      if cols == 0 || rows == 0 {
        return;
      }
      if rippleW != cols || rippleH != rows {
        rippleData := new int[cols * rows](_ => 0);
        rippleW := cols;
        rippleH := rows;
      }
      ghost var before := rippleData[..];
      var i := 0;
      while i < current.Length
        invariant 0 <= i <= current.Length
        invariant forall k :: 0 <= k < rippleData.Length && k < i ==> rippleData[k] == RippleByte(current[k])
        invariant forall k :: i <= k < rippleData.Length ==> rippleData[k] == before[k]
        modifies rippleData
      {
        var v := current[i];
        var normalized := MaxInt(0, MinInt(255, (v * 127.0 + 128.0).Floor));
        if i < rippleData.Length {
          rippleData[i] := normalized;
        }
        i := i + 1;
      }
    }

    /** `renderRefractionWebgl` for the attempt `a`, uploading the heights
        `current` of a `cols` by `rows` grid once the backend is ready and
        the sky has a size. */
    method RenderRefractionWebgl(a: Attempt, current: array<real>, cols: int, rows: int) returns (ok: bool)
      requires Valid() && cols >= 0 && rows >= 0
      modifies this, rippleData
      ensures Valid()
      ensures (GlState(ready, disabled), ok) == RenderStep(GlState(old(ready), old(disabled)), a)
      ensures (InitStep(GlState(old(ready), old(disabled)), a).1 && a.skyHasSize && a.preUploadSucceeds
               && cols > 0 && rows > 0) ==>
        rippleW == cols && rippleH == rows && TextureMatches(rippleData[..], current[..])
      ensures !(InitStep(GlState(old(ready), old(disabled)), a).1 && a.skyHasSize && a.preUploadSucceeds) ==>
        rippleData == old(rippleData) && rippleData[..] == old(rippleData[..])
        && rippleW == old(rippleW) && rippleH == old(rippleH)
    {
      ok := InitRefractionGl(a);
      if !ok {
        return false;
      }
      if !a.skyHasSize {
        return false;
      }
      if !a.preUploadSucceeds {
        ready := false;
        disabled := true;
        return false;
      }
      UpdateRippleTexture(current, cols, rows);
      if !a.drawSucceeds {
        ready := false;
        disabled := true;
        return false;
      }
      return true;
    }

    /** `drawReflectedSky`: WebGL when it draws, the CPU path otherwise. */
    method DrawReflectedSky(a: Attempt, current: array<real>, cols: int, rows: int) returns (backend: Backend)
      requires Valid() && cols >= 0 && rows >= 0
      modifies this, rippleData
      ensures Valid()
      ensures GlState(ready, disabled) == RenderStep(GlState(old(ready), old(disabled)), a).0
      ensures backend == (if RenderStep(GlState(old(ready), old(disabled)), a).1 then WebGl else Cpu)
      ensures old(disabled) ==> disabled && backend == Cpu
      ensures (InitStep(GlState(old(ready), old(disabled)), a).1 && a.skyHasSize && a.preUploadSucceeds
               && cols > 0 && rows > 0) ==>
        rippleW == cols && rippleH == rows && TextureMatches(rippleData[..], current[..])
      ensures !(InitStep(GlState(old(ready), old(disabled)), a).1 && a.skyHasSize && a.preUploadSucceeds) ==>
        rippleData == old(rippleData) && rippleData[..] == old(rippleData[..])
        && rippleW == old(rippleW) && rippleH == old(rippleH)
    {
      var ok := RenderRefractionWebgl(a, current, cols, rows);
      backend := if ok then WebGl else Cpu;
    }
  }
}
