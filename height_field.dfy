/** The wave height field: two equal-sized row-major buffers `current` and
    `previous` of `cols * rows` cells, a damped leapfrog step over the
    interior cells followed by a swap of the two buffers, splashes that only
    reach interior cells, and a periodic ambient disturbance. */
module HeightField {
  import opened Numeric
  import opened Grid
  import RippleSources

  /** Global amplitude decay per step (`sim.damp`). */
  const Damp: real := 0.983

  /** The ambient counter fires when it exceeds this value. */
  const AmbientPeriod: int := 42

  predicate AllZero(s: seq<real>)
  {
    forall i :: 0 <= i < |s| ==> s[i] == 0.0
  }

  /** Every border cell of the buffer holds 0. */
  predicate BorderZero(s: seq<real>, cols: int, rows: int)
    requires cols > 0
  {
    forall k :: 0 <= k < |s| && !InteriorIndex(k, cols, rows) ==> s[k] == 0.0
  }

  /** The leapfrog update of one cell with value `c`, older value `p` and
      neighbour average `neighborAvg`: the average minus the older value,
      approached from `c` by the factor `travel`, then damped. */
  function Blend(c: real, neighborAvg: real, p: real, travel: real, damp: real): real
  {
    var propagated := neighborAvg - p;
    var blended := c + (propagated - c) * travel;
    blended * damp
  }

  /** The value the stencil loop computes for interior cell `k`, from a
      cell value `c`, an older value `p` and the average `avg` of the four
      neighbours read from the buffers, is the stepped value of that cell. */
  lemma CellMatches(cur: seq<real>, prev: seq<real>, cols: int, rows: int, travel: real, damp: real,
                    k: int, c: real, p: real, left: real, right: real, up: real, down: real, avg: real)
    requires cols >= 1 && |cur| == cols * rows && |prev| == cols * rows
    requires 0 <= k < cols * rows && InteriorIndex(k, cols, rows)
    requires 0 <= k - cols && k + cols < cols * rows
    requires c == cur[k] && p == prev[k]
    requires left == cur[k - 1] && right == cur[k + 1] && up == cur[k - cols] && down == cur[k + cols]
    requires avg == (left + right + up + down) * 0.5
    ensures Blend(c, avg, p, travel, damp) == Stepped(cur, prev, cols, rows, travel, damp)[k]
  {
    SteppedAt(cur, prev, cols, rows, travel, damp, k);
  }

  /** The new value of interior cell `k`. */
  function StepCell(cur: seq<real>, prev: seq<real>, k: int, cols: int, travel: real, damp: real): real
    requires cols >= 1 && 0 <= k - cols && k + cols < |cur| && k < |prev|
  {
    Blend(cur[k], (cur[k - 1] + cur[k + 1] + cur[k - cols] + cur[k + cols]) * 0.5, prev[k], travel, damp)
  }

  /** The `previous` buffer after the stencil pass: interior cells hold the
      stepped value, border cells keep their old value. */
  function Stepped(cur: seq<real>, prev: seq<real>, cols: int, rows: int, travel: real, damp: real): (r: seq<real>)
    requires cols >= 1 && |cur| == cols * rows && |prev| == cols * rows
    ensures |r| == |prev|
  {
    seq(|prev|, k requires 0 <= k < |prev| =>
      if InteriorIndex(k, cols, rows) then
        InteriorNeighbours(k, cols, rows);
        StepCell(cur, prev, k, cols, travel, damp)
      else prev[k])
  }

  /** The buffer after a splash of `amount` at world point (x, y): the one
      interior cell covering the point grows by `amount`, and nothing happens
      when the point is over the border or outside the grid. */
  function Splashed(buf: seq<real>, cols: int, rows: int, x: real, y: real, amount: real): (r: seq<real>)
    requires |buf| == cols * rows
    ensures |r| == |buf|
  {
    var col, row := CellOf(x), CellOf(y);
    if col < 1 || row < 1 || col > cols - 2 || row > rows - 2 then buf
    else
      InteriorCellIndex(col, row, cols, rows);
      buf[Idx(col, row, cols) := buf[Idx(col, row, cols)] + amount]
  }

  /** Splash safety: a splash changes at most one cell, that cell is
      interior and covers (x, y), and it grows by exactly `amount`; a point
      over the border changes nothing. Hence a zero border stays zero. */
  lemma SplashSafety(buf: seq<real>, cols: int, rows: int, x: real, y: real, amount: real)
    requires cols >= 1 && |buf| == cols * rows
    ensures var r := Splashed(buf, cols, rows, x, y, amount);
      && (forall k :: 0 <= k < |buf| && r[k] != buf[k] ==>
            InteriorIndex(k, cols, rows) && k == Idx(CellOf(x), CellOf(y), cols))
      && (!InteriorCell(CellOf(x), CellOf(y), cols, rows) ==> r == buf)
      && (InteriorCell(CellOf(x), CellOf(y), cols, rows) ==>
            var i := Idx(CellOf(x), CellOf(y), cols);
            0 <= i < |buf| && r[i] == buf[i] + amount)
      && (BorderZero(buf, cols, rows) ==> BorderZero(r, cols, rows))
  {
    var col, row := CellOf(x), CellOf(y);
    var r := Splashed(buf, cols, rows, x, y, amount);
    if InteriorCell(col, row, cols, rows) {
      InteriorCellIndex(col, row, cols, rows);
      var i := Idx(col, row, cols);
      assert r == buf[i := buf[i] + amount];
      assert forall k :: 0 <= k < |buf| && r[k] != buf[k] ==> k == i;
    } else {
      assert r == buf;
    }
  }

  /** The stencil pass writes interior cells only: a zero border of the
      older buffer is still zero afterwards. */
  lemma SteppedKeepsBorder(cur: seq<real>, prev: seq<real>, cols: int, rows: int, travel: real, damp: real)
    requires cols >= 1 && |cur| == cols * rows && |prev| == cols * rows
    ensures forall k :: 0 <= k < |prev| && !InteriorIndex(k, cols, rows) ==>
      Stepped(cur, prev, cols, rows, travel, damp)[k] == prev[k]
    ensures BorderZero(prev, cols, rows) ==> BorderZero(Stepped(cur, prev, cols, rows, travel, damp), cols, rows)
  {
  }

  /** Zero-input stability: a field at rest stays at rest under the step. */
  lemma SteppedAtRest(cur: seq<real>, prev: seq<real>, cols: int, rows: int, travel: real, damp: real)
    requires cols >= 1 && |cur| == cols * rows && |prev| == cols * rows
    requires AllZero(cur) && AllZero(prev)
    ensures AllZero(Stepped(cur, prev, cols, rows, travel, damp))
  {
    var r := Stepped(cur, prev, cols, rows, travel, damp);
    forall k | 0 <= k < |r|
      ensures r[k] == 0.0
    {
      if InteriorIndex(k, cols, rows) {
        InteriorNeighbours(k, cols, rows);
        assert cur[k - 1] == 0.0 && cur[k + 1] == 0.0 && cur[k - cols] == 0.0 && cur[k + cols] == 0.0;
        assert cur[k] == 0.0 && prev[k] == 0.0;
      }
    }
  }

  function Scale(a: real, s: seq<real>): (r: seq<real>)
    ensures |r| == |s|
  {
    seq(|s|, i requires 0 <= i < |s| => a * s[i])
  }

  /** Linearity: scaling both buffers by `a` scales the stepped buffer by
      `a`, so the response to a splash is proportional to its amount. */
  lemma SteppedIsLinear(a: real, cur: seq<real>, prev: seq<real>, cols: int, rows: int, travel: real, damp: real)
    requires cols >= 1 && |cur| == cols * rows && |prev| == cols * rows
    ensures Stepped(Scale(a, cur), Scale(a, prev), cols, rows, travel, damp)
         == Scale(a, Stepped(cur, prev, cols, rows, travel, damp))
  {
    var l := Stepped(Scale(a, cur), Scale(a, prev), cols, rows, travel, damp);
    var r := Scale(a, Stepped(cur, prev, cols, rows, travel, damp));
    forall k | 0 <= k < |l|
      ensures l[k] == r[k]
    {
      if InteriorIndex(k, cols, rows) {
        SteppedAt(cur, prev, cols, rows, travel, damp, k);
        SteppedAt(Scale(a, cur), Scale(a, prev), cols, rows, travel, damp, k);
        var avg := (cur[k - 1] + cur[k + 1] + cur[k - cols] + cur[k + cols]) * 0.5;
        assert (Scale(a, cur)[k - 1] + Scale(a, cur)[k + 1] + Scale(a, cur)[k - cols] + Scale(a, cur)[k + cols]) * 0.5 == a * avg;
        CellIsLinear(a, cur[k], avg, prev[k], travel, damp);
      }
    }
  }

  lemma CellIsLinear(a: real, c: real, avg: real, p: real, travel: real, damp: real)
    ensures Blend(a * c, a * avg, a * p, travel, damp) == a * Blend(c, avg, p, travel, damp)
  {
  }

  /** A resting buffer of `n` cells. */
  function Zeros(n: nat): (r: seq<real>)
    ensures |r| == n && AllZero(r)
  {
    seq(n, _ => 0.0)
  }

  /** One interior cell of the stepped buffer. */
  lemma SteppedAt(cur: seq<real>, prev: seq<real>, cols: int, rows: int, travel: real, damp: real, k: int)
    requires cols >= 1 && |cur| == cols * rows && |prev| == cols * rows
    requires 0 <= k < cols * rows && InteriorIndex(k, cols, rows)
    ensures 0 <= k - cols && k + cols < cols * rows && 0 <= k - 1 && k + 1 < cols * rows
    ensures Stepped(cur, prev, cols, rows, travel, damp)[k]
         == Blend(cur[k], (cur[k - 1] + cur[k + 1] + cur[k - cols] + cur[k + cols]) * 0.5, prev[k], travel, damp)
  {
    InteriorNeighbours(k, cols, rows);
  }

  /** A single impulse of `amount` in `previous` at interior cell `k` of an
      otherwise resting field: after one step only cell `k` is non-zero
      (it holds `-travel * damp * amount`); the neighbours are still 0
      because the stencil reads them from `current`. */
  lemma ImpulseFirstStep(cols: int, rows: int, k: int, amount: real, travel: real, damp: real)
    requires cols >= 1 && rows >= 1 && 0 <= k < cols * rows && InteriorIndex(k, cols, rows)
    ensures var s1 := Stepped(Zeros(cols * rows), Zeros(cols * rows)[k := amount], cols, rows, travel, damp);
      && s1[k] == -travel * damp * amount
      && forall j :: 0 <= j < cols * rows && j != k ==> s1[j] == 0.0
  {
    var zero := Zeros(cols * rows);
    var s1 := Stepped(zero, zero[k := amount], cols, rows, travel, damp);
    BlendValues(travel, damp, amount);
    SteppedAt(zero, zero[k := amount], cols, rows, travel, damp, k);
    assert s1[k] == Blend(0.0, 0.0, amount, travel, damp);
    forall j | 0 <= j < cols * rows && j != k
      ensures s1[j] == 0.0
    {
      if InteriorIndex(j, cols, rows) {
        SteppedAt(zero, zero[k := amount], cols, rows, travel, damp, j);
        assert s1[j] == Blend(0.0, 0.0, 0.0, travel, damp);
      }
    }
  }

  /** The second step after a single impulse: each of the four neighbours
      of `k` that is itself interior now holds `-0.5 * travel^2 * damp^2 *
      amount`, the same non-zero value (for non-zero travel, damp, amount). */
  lemma ImpulseSecondStep(cols: int, rows: int, k: int, amount: real, travel: real, damp: real, j: int)
    requires cols >= 1 && rows >= 1 && 0 <= k < cols * rows && InteriorIndex(k, cols, rows)
    requires j == k - 1 || j == k + 1 || j == k - cols || j == k + cols
    requires InteriorIndex(j, cols, rows)
    ensures var s1 := Stepped(Zeros(cols * rows), Zeros(cols * rows)[k := amount], cols, rows, travel, damp);
      && 0 <= j < cols * rows
      && Stepped(s1, Zeros(cols * rows), cols, rows, travel, damp)[j] == -0.5 * travel * travel * damp * damp * amount
  {
    var zero := Zeros(cols * rows);
    var s1 := Stepped(zero, zero[k := amount], cols, rows, travel, damp);
    ImpulseFirstStep(cols, rows, k, amount, travel, damp);
    InteriorNeighbours(k, cols, rows);
    SteppedAt(s1, zero, cols, rows, travel, damp, j);
    var v := -travel * damp * amount;
    var nb := s1[j - 1] + s1[j + 1] + s1[j - cols] + s1[j + cols];
    assert s1[j] == 0.0 && zero[j] == 0.0;
    assert nb == v by {
      if j == k - 1 {
        assert s1[j + 1] == v && s1[j - 1] == 0.0 && s1[j - cols] == 0.0 && s1[j + cols] == 0.0;
      } else if j == k + 1 {
        assert s1[j - 1] == v && s1[j + 1] == 0.0 && s1[j - cols] == 0.0 && s1[j + cols] == 0.0;
      } else if j == k - cols {
        assert s1[j + cols] == v && s1[j - 1] == 0.0 && s1[j + 1] == 0.0 && s1[j - cols] == 0.0;
      } else {
        assert s1[j - cols] == v && s1[j - 1] == 0.0 && s1[j + 1] == 0.0 && s1[j + cols] == 0.0;
      }
    }
    assert Stepped(s1, zero, cols, rows, travel, damp)[j] == Blend(0.0, v * 0.5, 0.0, travel, damp);
    BlendValues(travel, damp, amount);
  }

  lemma BlendValues(travel: real, damp: real, amount: real)
    ensures Blend(0.0, 0.0, 0.0, travel, damp) == 0.0
    ensures Blend(0.0, 0.0, amount, travel, damp) == -travel * damp * amount
    ensures Blend(0.0, (-travel * damp * amount) * 0.5, 0.0, travel, damp) == -0.5 * travel * travel * damp * damp * amount
  {
  }

  /** The buffer `a` holds `s` before index `b` and `p` from `b` on. */
  ghost predicate WrittenUpTo(a: seq<real>, s: seq<real>, p: seq<real>, b: int)
  {
    |a| == |s| == |p| && forall k :: 0 <= k < |a| ==> a[k] == if k < b then s[k] else p[k]
  }

  /** Writing `s[b]` at the boundary moves it one cell to the right. */
  lemma WriteNext(a: seq<real>, s: seq<real>, p: seq<real>, b: int)
    requires WrittenUpTo(a, s, p, b) && 0 <= b < |a|
    ensures a[b] == p[b]
    ensures WrittenUpTo(a[b := s[b]], s, p, b + 1)
  {
  }

  /** A cell where `s` and `p` agree can be skipped. */
  lemma SkipAgreeing(a: seq<real>, s: seq<real>, p: seq<real>, b: int)
    requires WrittenUpTo(a, s, p, b) && 0 <= b < |a| && s[b] == p[b]
    ensures WrittenUpTo(a, s, p, b + 1)
  {
  }

  /** The first row is border: before any write the older buffer already
      agrees with the stepped one up to the first interior row. */
  lemma FirstRowAgrees(s: seq<real>, p: seq<real>, cols: int, rows: int)
    requires cols >= 1 && rows >= 1 && |s| == cols * rows && |p| == cols * rows
    requires forall k :: 0 <= k < |p| && !InteriorIndex(k, cols, rows) ==> s[k] == p[k]
    ensures WrittenUpTo(p, s, p, Idx(0, 1, cols))
  {
    forall k | 0 <= k < |p| && k < cols
      ensures s[k] == p[k]
    {
      IdxDecompose(k, 0, cols);
    }
  }

  /** The last row is border: once every row above it is written, the
      buffer is the stepped buffer. */
  lemma LastRowAgrees(a: seq<real>, s: seq<real>, p: seq<real>, cols: int, rows: int)
    requires cols >= 1 && rows >= 1 && |s| == cols * rows && |p| == cols * rows
    requires forall k :: 0 <= k < |p| && !InteriorIndex(k, cols, rows) ==> s[k] == p[k]
    requires WrittenUpTo(a, s, p, Idx(0, rows - 1, cols))
    ensures a == s
  {
    forall k | 0 <= k < |p|
      ensures a[k] == s[k]
    {
      if InteriorIndex(k, cols, rows) {
        InteriorBeforeLastRow(k, cols, rows);
      }
    }
  }

  /** The ambient counter: it fires when the incremented value exceeds 42,
      and is then reset to 0. */
  function AmbientNext(timer: int): int
  {
    if timer + 1 > AmbientPeriod then 0 else timer + 1
  }

  predicate AmbientFires(timer: int)
  {
    timer + 1 > AmbientPeriod
  }

  /** How many times the counter fires in `n` steps starting from `timer`. */
  function AmbientFirings(timer: int, n: nat): nat
    decreases n
  {
    if n == 0 then 0
    else (if AmbientFires(timer) then 1 else 0) + AmbientFirings(AmbientNext(timer), n - 1)
  }

  /** Starting anywhere in its range, the counter fires exactly once every 43
      steps: in `n` steps from `timer` it fires `(timer + n) / 43` times. */
  lemma {:induction false} AmbientFiringsCount(timer: int, n: nat)
    requires 0 <= timer <= AmbientPeriod
    ensures AmbientFirings(timer, n) == (timer + n) / (AmbientPeriod + 1)
    decreases n
  {
    if n > 0 {
      AmbientFiringsCount(AmbientNext(timer), n - 1);
      if AmbientFires(timer) {
        assert timer == 42;
        assert (timer + n) / 43 == 1 + (n - 1) / 43;
      } else {
        assert (timer + n) / 43 == (timer + 1 + (n - 1)) / 43;
      }
    }
  }

  /** The position and amount of the ambient disturbance, from the three
      `Math.random()` draws `rx`, `ry`, `ra`. */
  function AmbientX(width: int, rx: real): real { width as real * (0.1 + rx * 0.8) }
  function AmbientY(height: int, ry: real): real { height as real * (0.1 + ry * 0.8) }
  function AmbientAmount(rippleStrength: real, ra: real): real { (0.09 + ra * 0.14) * rippleStrength }

  /** The height field of `sim`: grid dimensions, the two buffers, and the
      ambient counter. */
  class Field {
    var width: int
    var height: int
    var cols: int
    var rows: int
    var current: array<real>
    var previous: array<real>
    var ambientTimer: int

    ghost predicate Valid()
      reads this
    {
      && 2 <= cols && 2 <= rows
      && current.Length == cols * rows && previous.Length == cols * rows
      && current != previous
      && 0 <= ambientTimer <= AmbientPeriod
    }

    /** Border cells of both buffers hold 0. */
    ghost predicate BorderAtRest()
      reads this, current, previous
      requires Valid()
    {
      BorderZero(current[..], cols, rows) && BorderZero(previous[..], cols, rows)
    }

    /** The whole field is at rest. */
    ghost predicate AtRest()
      reads this, current, previous
    {
      AllZero(current[..]) && AllZero(previous[..])
    }

    /** The field as `resize` first allocates it for a `w` by `h` viewport;
        the ambient counter starts at 0. */
    constructor (w: nat, h: nat)
      ensures Valid() && AtRest() && BorderAtRest()
      ensures width == w && height == h && ambientTimer == 0
      ensures cols == w / 16 + 2 && rows == h / 16 + 2
    {
      width, height := w, h;
      cols := w / 16 + 2;
      rows := h / 16 + 2;
      current := new real[(w / 16 + 2) * (h / 16 + 2)](_ => 0.0);
      previous := new real[(w / 16 + 2) * (h / 16 + 2)](_ => 0.0);
      ambientTimer := 0;
    }

    /** `resize`: new dimensions and two fresh zeroed buffers; the ambient
        counter carries over. */
    method Resize(w: nat, h: nat)
      requires Valid()
      modifies this
      ensures Valid() && AtRest() && BorderAtRest()
      ensures fresh(current) && fresh(previous)
      ensures width == w && height == h && ambientTimer == old(ambientTimer)
      ensures cols == w / 16 + 2 && rows == h / 16 + 2
    {
      width, height := w, h;
      cols := w / 16 + 2;
      rows := h / 16 + 2;
      current := new real[cols * rows](_ => 0.0);
      previous := new real[cols * rows](_ => 0.0);
    }

    /** `splashAtWorld`: add `amount` to the interior cell of `previous`
        covering (x, y), if there is one. */
    method SplashAtWorld(x: real, y: real, amount: real)
      requires Valid()
      modifies previous
      ensures previous[..] == Splashed(old(previous[..]), cols, rows, x, y, amount)
      ensures old(BorderZero(previous[..], cols, rows)) ==> BorderZero(previous[..], cols, rows)
    {
      SplashSafety(previous[..], cols, rows, x, y, amount);
      var col := CellOf(x);
      var row := CellOf(y);
      if col < 1 || row < 1 || col > cols - 2 || row > rows - 2 {
        return;
      }
      InteriorCellIndex(col, row, cols, rows);
      var i := Idx(col, row, cols);
      previous[i] := previous[i] + amount;
    }

    /** `sampleHeightWorld`: the height of the cell nearest to (x, y)
        among the interior cells. */
    function SampleHeightWorld(x: real, y: real): (h: real)
      reads this, current
      requires Valid()
      ensures 0 <= SampledCell(x, y, cols, rows) < current.Length
      ensures h == current[SampledCell(x, y, cols, rows)]
      ensures AllZero(current[..]) ==> h == 0.0
    {
      SampledCellInRange(x, y, cols, rows);
      var cx := ClampInterior(CellOf(x), cols);
      var cy := ClampInterior(CellOf(y), rows);
      current[Idx(cx, cy, cols)]
    }

    /** `sampleGradientWorld`, as intended: the central differences around
        the sampled interior cell, right minus left and down minus up; a
        grid without interior cells (a viewport narrower or shorter than
        one cell) has no gradient. */
    function SampleGradientWorld(x: real, y: real): (g: (real, real))
      reads this, current
      requires Valid()
      ensures cols < 3 || rows < 3 ==> g == (0.0, 0.0)
      ensures cols >= 3 && rows >= 3 ==>
        var c := SampledCell(x, y, cols, rows);
        && InteriorIndex(c, cols, rows)
        && 0 <= c - cols && c + cols < current.Length
        && g == (current[c + 1] - current[c - 1], current[c + cols] - current[c - cols])
      ensures AllZero(current[..]) ==> g == (0.0, 0.0)
    {
      if cols < 3 || rows < 3 then (0.0, 0.0)
      else
        GradientTapsInRange(x, y, cols, rows);
        var t := GradientTaps(x, y, cols, rows);
        (current[t[1]] - current[t[0]], current[t[3]] - current[t[2]])
    }

    /** The stencil pass of `updateRipples`: every interior cell of
        `previous` gets its stepped value, computed from `current` and its
        own older value, row by row; border cells are not written. */
    method StepInterior(travel: real)
      requires Valid()
      modifies previous
      ensures previous[..] == Stepped(current[..], old(previous[..]), cols, rows, travel, Damp)
    {
      ghost var c0, p0 := current[..], previous[..];
      ghost var s := Stepped(c0, p0, cols, rows, travel, Damp);
      SteppedKeepsBorder(c0, p0, cols, rows, travel, Damp);
      FirstRowAgrees(s, p0, cols, rows);
      var y := 1;
      while y < rows - 1
        invariant 1 <= y <= rows - 1
        invariant WrittenUpTo(previous[..], s, p0, Idx(0, y, cols))
      {
        RowEnds(y, cols, rows);
        IdxInRange(0, y, cols, rows);
        SkipAgreeing(previous[..], s, p0, Idx(0, y, cols));
        var x := 1;
        while x < cols - 1
          invariant 1 <= x <= cols - 1
          invariant WrittenUpTo(previous[..], s, p0, Idx(x, y, cols))
        {
          var i := Idx(x, y, cols);
          InteriorCellIndex(x, y, cols, rows);
          InteriorNeighbours(i, cols, rows);
          IdxDecompose(x, y, cols);
          ghost var before := previous[..];
          WriteNext(before, s, p0, i);
          assert Idx(x - 1, y, cols) == i - 1 && Idx(x + 1, y, cols) == i + 1;
          assert Idx(x, y - 1, cols) == i - cols && Idx(x, y + 1, cols) == i + cols;
          var neighborAvg := (current[Idx(x - 1, y, cols)] + current[Idx(x + 1, y, cols)] +
                              current[Idx(x, y - 1, cols)] + current[Idx(x, y + 1, cols)]) * 0.5;
          CellMatches(c0, p0, cols, rows, travel, Damp, i, current[i], previous[i],
                      current[Idx(x - 1, y, cols)], current[Idx(x + 1, y, cols)],
                      current[Idx(x, y - 1, cols)], current[Idx(x, y + 1, cols)], neighborAvg);
          previous[i] := Blend(current[i], neighborAvg, previous[i], travel, Damp);
          assert previous[..] == before[i := s[i]];
          x := x + 1;
        }
        IdxInRange(cols - 1, y, cols, rows);
        SkipAgreeing(previous[..], s, p0, Idx(cols - 1, y, cols));
        NextRowStart(y, cols);
        y := y + 1;
      }
      LastRowAgrees(previous[..], s, p0, cols, rows);
    }

    /** `updateRipples`: the stencil pass, the swap of the two buffers (no
        copy), then the ambient counter, which on firing splashes into the
        new `previous` (the old `current`) and registers a ripple source.
        `rx`, `ry`, `ra` are the three `Math.random()` draws of the ambient
        disturbance. */
    method UpdateRipples(travel: real, rippleStrength: real, rx: real, ry: real, ra: real,
                         registry: RippleSources.Registry)
      requires Valid() && registry.Valid()
      modifies this, current, previous, registry
      ensures Valid() && registry.Valid()
      ensures cols == old(cols) && rows == old(rows) && width == old(width) && height == old(height)
      ensures current == old(previous) && previous == old(current)
      ensures current[..] == Stepped(old(current[..]), old(previous[..]), cols, rows, travel, Damp)
      ensures ambientTimer == AmbientNext(old(ambientTimer))
      ensures var ax, ay, amount := AmbientX(width, rx), AmbientY(height, ry), AmbientAmount(rippleStrength, ra);
        if AmbientFires(old(ambientTimer)) then
          && previous[..] == Splashed(old(current[..]), cols, rows, ax, ay, amount)
          && registry.sources == RippleSources.Registered(old(registry.sources), RippleSources.NewSource(ax, ay, amount))
        else
          previous[..] == old(current[..]) && registry.sources == old(registry.sources)
      ensures old(BorderAtRest()) ==> BorderAtRest()
      ensures old(AtRest()) && !AmbientFires(old(ambientTimer)) ==> AtRest()
    {
      ghost var c0, p0 := current[..], previous[..];
      StepInterior(travel);
      SteppedKeepsBorder(c0, p0, cols, rows, travel, Damp);
      if AllZero(c0) && AllZero(p0) {
        SteppedAtRest(c0, p0, cols, rows, travel, Damp);
      }

      current, previous := previous, current;

      AmbientTick(rippleStrength, rx, ry, ra, registry);
    }

    /** The ambient disturbance of `updateRipples`: advance the counter and,
        when it fires, splash into `previous` at a random point inside the
        central 80% of the viewport and register a ripple source there. */
    method AmbientTick(rippleStrength: real, rx: real, ry: real, ra: real, registry: RippleSources.Registry)
      requires Valid() && registry.Valid()
      modifies this, previous, registry
      ensures Valid() && registry.Valid()
      ensures cols == old(cols) && rows == old(rows) && width == old(width) && height == old(height)
      ensures current == old(current) && previous == old(previous)
      ensures ambientTimer == AmbientNext(old(ambientTimer))
      ensures var ax, ay, amount := AmbientX(width, rx), AmbientY(height, ry), AmbientAmount(rippleStrength, ra);
        if AmbientFires(old(ambientTimer)) then
          && previous[..] == Splashed(old(previous[..]), cols, rows, ax, ay, amount)
          && registry.sources == RippleSources.Registered(old(registry.sources), RippleSources.NewSource(ax, ay, amount))
        else
          previous[..] == old(previous[..]) && registry.sources == old(registry.sources)
      ensures old(BorderZero(previous[..], cols, rows)) ==> BorderZero(previous[..], cols, rows)
    {
      ambientTimer := ambientTimer + 1;
      if ambientTimer > 42 {
        ambientTimer := 0;
        var ax := width as real * (0.1 + rx * 0.8);
        var ay := height as real * (0.1 + ry * 0.8);
        var amount := (0.09 + ra * 0.14) * rippleStrength;
        SplashAtWorld(ax, ay, amount);
        registry.RegisterRippleSource(ax, ay, amount);
      }
    }
  }
}
