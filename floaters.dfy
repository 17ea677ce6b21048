/** The floating items of the pond: notes the user writes on, and the
    "nature" items (leaves and flowers) that drift in from the edges. The
    list `sim.floaters` holds both kinds in one order; the bookkeeping here
    adds and removes one kind without disturbing the other, runs the small
    nature-arrival state machine, and keeps notes inside the viewport. */
module Floaters {
  import opened Numeric

  datatype Kind = Note | Leaf | Flower

  /** `isNatureFloater`. */
  predicate IsNature(k: Kind)
  {
    k == Leaf || k == Flower
  }

  const DefaultNoteColor: string := "#F4F4F4"

  datatype Floater = Floater(
    kind: Kind,
    x: real, y: real, vx: real, vy: real,
    angle: real, spin: real,
    radius: real, mass: real, size: real, noteW: real, noteH: real,
    text: string, noteColor: string)

  /** The size-dependent metrics of `getItemMetrics`, without the radius. */
  datatype Metrics = Metrics(noteW: real, noteH: real, mass: real)

  /** `getItemMetrics`: the footprint and the mass of an item of `kind` at
      scale `size`. Every item has positive mass; at the same positive size
      a note is heavier than a flower and a flower heavier than a leaf. */
  function ItemMetrics(kind: Kind, size: real): (m: Metrics)
    ensures size >= 0.0 ==> m.mass > 0.0 && m.noteW >= 0.0 && m.noteH >= 0.0
    ensures size > 0.0 && kind == Leaf ==> m.noteH > m.noteW
    ensures size > 0.0 && kind != Leaf ==> m.noteH == m.noteW
  {
    match kind
    case Leaf => Metrics(46.0 * size, 90.0 * size, 1.6 + size)
    case Flower => Metrics(68.0 * size, 68.0 * size, 1.8 + size * 1.1)
    case Note => Metrics(76.0 * size, 76.0 * size, 2.0 + size * 1.4)
  }

  lemma MassOrder(size: real)
    requires size > 0.0
    ensures ItemMetrics(Leaf, size).mass < ItemMetrics(Flower, size).mass < ItemMetrics(Note, size).mass
  {
  }

  /** `randomBetween(min, max)` for the draw `r` of `Math.random()`. */
  function RandomBetween(lo: real, hi: real, r: real): (v: real)
    ensures lo <= hi && 0.0 <= r < 1.0 ==> lo <= v <= hi
    ensures lo < hi && 0.0 <= r < 1.0 ==> v < hi
  {
    var span := hi - lo;
    ScaleWithin(r, span);
    lo + r * span
  }

  lemma NonNegProduct(a: real, b: real)
    requires a >= 0.0 && b >= 0.0
    ensures a * b >= 0.0
  {
  }

  lemma PosProduct(a: real, b: real)
    requires a > 0.0 && b > 0.0
    ensures a * b > 0.0
  {
  }

  /** A fraction in [0, 1) of a non-negative span lies within the span. */
  lemma ScaleWithin(r: real, d: real)
    ensures 0.0 <= r < 1.0 && d >= 0.0 ==> 0.0 <= r * d <= d
    ensures 0.0 <= r < 1.0 && d > 0.0 ==> r * d < d
  {
    if 0.0 <= r < 1.0 && d >= 0.0 {
      NonNegProduct(r, d);
      NonNegProduct(1.0 - r, d);
      assert d - r * d == (1.0 - r) * d;
    }
    if 0.0 <= r < 1.0 && d > 0.0 {
      PosProduct(1.0 - r, d);
    }
  }

  /** The floaters of one class, in list order: the nature items when
      `nature` holds, the notes otherwise. */
  function OfClass(s: seq<Floater>, nature: bool): (r: seq<Floater>)
    ensures |r| <= |s|
    ensures forall i :: 0 <= i < |r| ==> IsNature(r[i].kind) == nature
  {
    if s == [] then []
    else OfClass(s[..|s| - 1], nature) + (if IsNature(s[|s| - 1].kind) == nature then [s[|s| - 1]] else [])
  }

  /** `getNoteCount` is `|OfClass(s, false)|`, `getNatureCount` is
      `|OfClass(s, true)|`; together they count every floater. */
  lemma {:induction false} ClassesPartition(s: seq<Floater>)
    ensures |OfClass(s, false)| + |OfClass(s, true)| == |s|
  {
    if s != [] {
      ClassesPartition(s[..|s| - 1]);
    }
  }

  /** Filtering a list with one more floater at the end. */
  lemma OfClassSnoc(p: seq<Floater>, f: Floater, nature: bool)
    ensures OfClass(p + [f], nature) == OfClass(p, nature) + (if IsNature(f.kind) == nature then [f] else [])
  {
    assert (p + [f])[..|p|] == p;
  }

  /** Filtering distributes over concatenation. */
  lemma {:induction false} OfClassAppend(s: seq<Floater>, t: seq<Floater>, nature: bool)
    ensures OfClass(s + t, nature) == OfClass(s, nature) + OfClass(t, nature)
    decreases |t|
  {
    if t == [] {
      assert s + t == s;
    } else {
      var u, f := t[..|t| - 1], t[|t| - 1];
      assert t == u + [f];
      assert s + t == (s + u) + [f];
      OfClassAppend(s, u, nature);
      OfClassSnoc(s + u, f, nature);
      OfClassSnoc(u, f, nature);
    }
  }

  /** A list holding one class only filters to itself for that class and to
      nothing for the other. */
  lemma {:induction false} OfClassUniform(t: seq<Floater>, nature: bool)
    requires forall i :: 0 <= i < |t| ==> IsNature(t[i].kind) == nature
    ensures OfClass(t, nature) == t
    ensures OfClass(t, !nature) == []
  {
    if t != [] {
      OfClassUniform(t[..|t| - 1], nature);
    }
  }

  /** The list after removing, walking from the back, the `m` newest
      floaters of one class (or all of them, if there are fewer). */
  function DropNewest(s: seq<Floater>, nature: bool, m: nat): seq<Floater>
  {
    if s == [] || m == 0 then s
    else if IsNature(s[|s| - 1].kind) == nature then DropNewest(s[..|s| - 1], nature, m - 1)
    else DropNewest(s[..|s| - 1], nature, m) + [s[|s| - 1]]
  }

  /** One unfolding of `DropNewest` at the last floater of `p + [f]`. */
  lemma DropNewestSnoc(p: seq<Floater>, f: Floater, nature: bool, m: nat)
    requires m > 0
    ensures DropNewest(p + [f], nature, m)
         == if IsNature(f.kind) == nature then DropNewest(p, nature, m - 1) else DropNewest(p, nature, m) + [f]
  {
    assert (p + [f])[..|p|] == p;
  }

  /** Removing the newest floaters of one class keeps the other class
      exactly: same items, same order. */
  lemma {:induction false} DropNewestKeepsOther(s: seq<Floater>, nature: bool, m: nat)
    ensures OfClass(DropNewest(s, nature, m), !nature) == OfClass(s, !nature)
  {
    if s != [] && m != 0 {
      var p, f := s[..|s| - 1], s[|s| - 1];
      assert s == p + [f];
      DropNewestSnoc(p, f, nature, m);
      OfClassSnoc(p, f, !nature);
      if IsNature(f.kind) == nature {
        DropNewestKeepsOther(p, nature, m - 1);
      } else {
        DropNewestKeepsOther(p, nature, m);
        OfClassSnoc(DropNewest(p, nature, m), f, !nature);
      }
    }
  }

  /** Removing the `m` newest floaters of one class keeps exactly its
      oldest members, in order: all but the last `m` of them. */
  predicate KeepsOldest(s: seq<Floater>, nature: bool, m: nat)
  {
    OfClass(DropNewest(s, nature, m), nature) == OfClass(s, nature)[..MaxInt(0, |OfClass(s, nature)| - m)]
  }

  lemma {:induction false} DropNewestKeepsOldest(s: seq<Floater>, nature: bool, m: nat)
    ensures KeepsOldest(s, nature, m)
  {
    if s == [] || m == 0 {
      assert OfClass(s, nature)[..|OfClass(s, nature)|] == OfClass(s, nature);
    } else {
      var p, f := s[..|s| - 1], s[|s| - 1];
      assert s == p + [f];
      if IsNature(f.kind) == nature {
        DropNewestKeepsOldest(p, nature, m - 1);
        KeepsOldestDropped(p, f, nature, m);
      } else {
        DropNewestKeepsOldest(p, nature, m);
        KeepsOldestSkipped(p, f, nature, m);
      }
    }
  }

  /** The step of `DropNewestKeepsOldest` when the last floater is removed. */
  lemma KeepsOldestDropped(p: seq<Floater>, f: Floater, nature: bool, m: nat)
    requires m > 0 && IsNature(f.kind) == nature && KeepsOldest(p, nature, m - 1)
    ensures KeepsOldest(p + [f], nature, m)
  {
    DropNewestSnoc(p, f, nature, m);
    OfClassSnoc(p, f, nature);
    var op := OfClass(p, nature);
    var k := MaxInt(0, |op| - (m - 1));
    assert (op + [f])[..k] == op[..k];
  }

  /** The step of `DropNewestKeepsOldest` when the last floater is kept. */
  lemma KeepsOldestSkipped(p: seq<Floater>, f: Floater, nature: bool, m: nat)
    requires m > 0 && IsNature(f.kind) != nature && KeepsOldest(p, nature, m)
    ensures KeepsOldest(p + [f], nature, m)
  {
    DropNewestSnoc(p, f, nature, m);
    OfClassSnoc(p, f, nature);
    OfClassSnoc(DropNewest(p, nature, m), f, nature);
    assert OfClass(p, nature) + [] == OfClass(p, nature);
    assert OfClass(DropNewest(p, nature, m), nature) + [] == OfClass(DropNewest(p, nature, m), nature);
  }

  /** The first `n` items drawn from a stream of freshly created floaters. */
  function Spawned(make: nat -> Floater, n: nat): (r: seq<Floater>)
    ensures |r| == n && forall i :: 0 <= i < n ==> r[i] == make(i)
  {
    seq(n, i requires 0 <= i => make(i))
  }

  /** The list after `syncFloaterCount` / `syncNatureCount` brings the
      count of one class to `clamped`: new floaters appended at the end, or
      the newest of that class removed. */
  function Synced(s: seq<Floater>, nature: bool, clamped: nat, make: nat -> Floater): seq<Floater>
  {
    var c := |OfClass(s, nature)|;
    if c < clamped then s + Spawned(make, clamped - c)
    else DropNewest(s, nature, c - clamped)
  }

  /** Appending floaters of one class extends that class by them and leaves
      the other class as it was. */
  lemma AppendUniform(s: seq<Floater>, t: seq<Floater>, nature: bool)
    requires forall i :: 0 <= i < |t| ==> IsNature(t[i].kind) == nature
    ensures OfClass(s + t, nature) == OfClass(s, nature) + t
    ensures OfClass(s + t, !nature) == OfClass(s, !nature)
  {
    OfClassAppend(s, t, nature);
    OfClassAppend(s, t, !nature);
    OfClassUniform(t, nature);
  }

  /** After a sync the class has exactly `clamped` members, the other class
      is untouched and in order, and the class's surviving old members are
      its oldest ones, in order. */
  lemma SyncedCounts(s: seq<Floater>, nature: bool, clamped: nat, make: nat -> Floater)
    requires forall i :: IsNature(make(i).kind) == nature
    ensures |OfClass(Synced(s, nature, clamped, make), nature)| == clamped
    ensures OfClass(Synced(s, nature, clamped, make), !nature) == OfClass(s, !nature)
    ensures var c := |OfClass(s, nature)|;
      OfClass(Synced(s, nature, clamped, make), nature)[..MinInt(c, clamped)]
        == OfClass(s, nature)[..MinInt(c, clamped)]
  {
    var c := |OfClass(s, nature)|;
    var r := Synced(s, nature, clamped, make);
    if c < clamped {
      var t := Spawned(make, clamped - c);
      assert r == s + t;
      AppendUniform(s, t, nature);
      assert OfClass(r, nature) == OfClass(s, nature) + t;
      assert (OfClass(s, nature) + t)[..c] == OfClass(s, nature);
    } else {
      var m := c - clamped;
      assert r == DropNewest(s, nature, m);
      DropNewestKeepsOther(s, nature, m);
      DropNewestKeepsOldest(s, nature, m);
      assert MaxInt(0, c - m) == clamped;
      assert OfClass(r, nature) == OfClass(s, nature)[..clamped];
    }
  }

  /** The state of the nature-arrival plan (`sim.natureArrivalPlan`). */
  datatype ArrivalPlan = ArrivalPlan(enabled: bool, spawned: nat, nextTime: real)

  /** Arrivals a plan may still produce before it disables itself. */
  const ArrivalLimit: nat := 2

  /** The plan the page starts with: idle. */
  const IdlePlan: ArrivalPlan := ArrivalPlan(false, 0, 0.0)

  /** An enabled plan has not yet reached its limit. */
  predicate PlanOk(p: ArrivalPlan)
  {
    p.enabled ==> p.spawned < ArrivalLimit
  }

  /** `resetNatureArrivalPlan` at simulation time `time` with the draw `r`:
      enabled, nothing spawned, first arrival 3 to 15 seconds away. */
  function PlanReset(time: real, r: real): (p: ArrivalPlan)
    ensures PlanOk(p) && p.enabled && p.spawned == 0
    ensures 0.0 <= r < 1.0 ==> time + 3.0 <= p.nextTime < time + 15.0
  {
    ArrivalPlan(true, 0, time + RandomBetween(3.0, 15.0, r))
  }

  /** The plan spawns in this step: it is enabled and its time has come. */
  predicate Fires(p: ArrivalPlan, time: real)
  {
    p.enabled && time >= p.nextTime
  }

  /** The plan after one `updateNatureArrivalPlan` at `time` with the draw
      `r`. */
  function PlanStep(p: ArrivalPlan, time: real, r: real): (q: ArrivalPlan)
    ensures !Fires(p, time) ==> q == p
    ensures Fires(p, time) ==> q.spawned == p.spawned + 1
    ensures Fires(p, time) && q.spawned >= ArrivalLimit ==> !q.enabled && q.nextTime == p.nextTime
    ensures Fires(p, time) && q.spawned < ArrivalLimit ==>
      q.enabled && (0.0 <= r < 1.0 ==> time + 2.0 <= q.nextTime < time + 5.0)
  {
    if !Fires(p, time) then p
    else if p.spawned + 1 >= ArrivalLimit then p.(spawned := p.spawned + 1, enabled := false)
    else p.(spawned := p.spawned + 1, nextTime := time + RandomBetween(2.0, 5.0, r))
  }

  /** How many more arrivals the plan allows. */
  function Budget(p: ArrivalPlan): nat
    requires PlanOk(p)
  {
    if p.enabled then ArrivalLimit - p.spawned else 0
  }

  /** One step keeps the plan well formed and spends one unit of budget
      exactly when it spawns; a disabled plan never spawns. */
  lemma PlanStepBudget(p: ArrivalPlan, time: real, r: real)
    requires PlanOk(p)
    ensures PlanOk(PlanStep(p, time, r))
    ensures Fires(p, time) ==> Budget(p) >= 1 && Budget(PlanStep(p, time, r)) == Budget(p) - 1
    ensures !Fires(p, time) ==> Budget(PlanStep(p, time, r)) == Budget(p)
  {
  }

  /** Number of arrivals over a run of steps, each given as its simulation
      time and its `Math.random()` draw. */
  function Arrivals(p: ArrivalPlan, steps: seq<(real, real)>): nat
    decreases |steps|
  {
    if steps == [] then 0
    else (if Fires(p, steps[0].0) then 1 else 0) + Arrivals(PlanStep(p, steps[0].0, steps[0].1), steps[1..])
  }

  /** However long the run, a plan spawns at most its budget. */
  lemma {:induction false} ArrivalsWithinBudget(p: ArrivalPlan, steps: seq<(real, real)>)
    requires PlanOk(p)
    ensures Arrivals(p, steps) <= Budget(p)
    decreases |steps|
  {
    if steps != [] {
      PlanStepBudget(p, steps[0].0, steps[0].1);
      ArrivalsWithinBudget(PlanStep(p, steps[0].0, steps[0].1), steps[1..]);
    }
  }

  /** A reset yields at most two arrivals, whatever follows. */
  lemma ResetYieldsAtMostTwo(time: real, r: real, steps: seq<(real, real)>)
    ensures Arrivals(PlanReset(time, r), steps) <= 2
  {
    ArrivalsWithinBudget(PlanReset(time, r), steps);
  }

  /** `Math.max(lo, Math.min(hi, v))`. Within [lo, hi] when the interval is
      not empty; `lo` wins when it is. */
  function ClampCoord(v: real, lo: real, hi: real): (c: real)
    ensures c >= lo
    ensures lo <= hi ==> c <= hi
    ensures lo <= v <= hi ==> c == v
    ensures v < lo ==> c == lo
    ensures lo <= hi < v ==> c == hi
    ensures hi < lo ==> c == lo
  {
    Max(lo, Min(hi, v))
  }

  /** What `constrainFloaterBounds` does on one axis whose allowed interval
      is [lo, hi]: a position outside is brought back to the edge and the
      velocity on that axis reverses and keeps 70%. When the interval is
      empty (the viewport is narrower than the item) both tests fire or
      only the second does, and the item ends at `hi`. */
  predicate Bounced(pos: real, vel: real, lo: real, hi: real, pos': real, vel': real)
  {
    if lo <= hi then
      pos' == ClampCoord(pos, lo, hi) && vel' == (if pos < lo || pos > hi then -0.7 * vel else vel)
    else
      pos' == hi && vel' == (if pos < lo then 0.49 * vel else -0.7 * vel)
  }

  /** `constrainFloaterBounds`: four tests in sequence; the floater comes
      back with only its position and velocity changed. */
  method ConstrainFloaterBounds(f: Floater, width: real, height: real) returns (g: Floater)
    ensures g == f.(x := g.x, y := g.y, vx := g.vx, vy := g.vy)
    ensures Bounced(f.x, f.vx, f.radius, width - f.radius, g.x, g.vx)
    ensures Bounced(f.y, f.vy, f.radius, height - f.radius, g.y, g.vy)
    ensures width >= 2.0 * f.radius ==> f.radius <= g.x <= width - f.radius
    ensures height >= 2.0 * f.radius ==> f.radius <= g.y <= height - f.radius
  {
    g := f;
    if g.x < g.radius {
      g := g.(x := g.radius);
      g := g.(vx := g.vx * -0.7);
    }
    if g.x > width - g.radius {
      g := g.(x := width - g.radius);
      g := g.(vx := g.vx * -0.7);
    }
    if g.y < g.radius {
      g := g.(y := g.radius);
      g := g.(vy := g.vy * -0.7);
    }
    if g.y > height - g.radius {
      g := g.(y := height - g.radius);
      g := g.(vy := g.vy * -0.7);
    }
  }

  /** A note brought inside a `width` by `height` viewport, as `resize`
      and `hydrateNoteFromStored` do; nature items are left alone. */
  function FitNote(f: Floater, width: real, height: real): (g: Floater)
    ensures g == f.(x := g.x, y := g.y)
    ensures IsNature(f.kind) ==> g == f
    ensures !IsNature(f.kind) ==> g.x == ClampCoord(f.x, f.radius, width - f.radius)
    ensures !IsNature(f.kind) ==> g.y == ClampCoord(f.y, f.radius, height - f.radius)
  {
    if IsNature(f.kind) then f
    else f.(x := Max(f.radius, Min(width - f.radius, f.x)), y := Max(f.radius, Min(height - f.radius, f.y)))
  }

  /** On a viewport at least as large as the note, fitting puts it where
      bouncing would, and with the same velocity when it was already
      inside. */
  lemma FitAgreesWithBounce(f: Floater, width: real, height: real)
    requires !IsNature(f.kind) && width >= 2.0 * f.radius && height >= 2.0 * f.radius
    ensures var g := FitNote(f, width, height);
      && f.radius <= g.x <= width - f.radius
      && f.radius <= g.y <= height - f.radius
      && Bounced(f.x, f.vx, f.radius, width - f.radius, g.x,
                 if f.x < f.radius || f.x > width - f.radius then -0.7 * f.vx else f.vx)
      && Bounced(f.y, f.vy, f.radius, height - f.radius, g.y,
                 if f.y < f.radius || f.y > height - f.radius then -0.7 * f.vy else f.vy)
  {
  }

  /** The notes the page starts with: the first carries today's label and
      the default colour, the others are as drawn. */
  function InitialNotes(make: nat -> Floater, today: string, n: nat): (r: seq<Floater>)
    ensures |r| == n
    ensures n > 0 ==> r[0] == make(0).(text := today, noteColor := DefaultNoteColor)
    ensures forall i :: 0 < i < n ==> r[i] == make(i)
  {
    seq(n, i requires 0 <= i => if i == 0 then make(0).(text := today, noteColor := DefaultNoteColor) else make(i))
  }

  /** The floater list `initFloaters` builds. */
  function InitialFloaters(noteCount: int, natureCount: int, today: string,
                           freshNote: nat -> Floater, freshNature: nat -> Floater): seq<Floater>
  {
    InitialNotes(freshNote, today, MaxInt(0, noteCount)) + Spawned(freshNature, MaxInt(0, natureCount))
  }

  /** The initial list holds `noteCount` notes followed by `natureCount`
      nature items (a negative count builds none), and the first note is
      today's. */
  lemma InitialCounts(noteCount: int, natureCount: int, today: string,
                      freshNote: nat -> Floater, freshNature: nat -> Floater)
    requires forall i :: freshNote(i).kind == Note
    requires forall i :: IsNature(freshNature(i).kind)
    ensures var s := InitialFloaters(noteCount, natureCount, today, freshNote, freshNature);
      && |OfClass(s, false)| == MaxInt(0, noteCount)
      && |OfClass(s, true)| == MaxInt(0, natureCount)
      && (noteCount > 0 ==> s[0].kind == Note && s[0].text == today)
  {
    var a := InitialNotes(freshNote, today, MaxInt(0, noteCount));
    var b := Spawned(freshNature, MaxInt(0, natureCount));
    OfClassAppend(a, b, false);
    OfClassAppend(a, b, true);
    OfClassUniform(a, false);
    OfClassUniform(b, true);
  }

  /** The floater list and the nature-arrival plan of `sim`, with the
      viewport size the notes are kept within. */
  class FloaterSystem {
    var floaters: seq<Floater>
    var plan: ArrivalPlan
    var width: real
    var height: real

    ghost predicate Valid()
      reads this
    {
      PlanOk(plan)
    }

    /** The empty pond: no floaters, the idle plan. */
    constructor (w: real, h: real)
      ensures Valid() && floaters == [] && plan == IdlePlan && width == w && height == h
    {
      floaters := [];
      plan := IdlePlan;
      width, height := w, h;
    }

    /** `getNoteCount` (for `nature == false`) and `getNatureCount` (for
        `nature == true`): one pass counting the floaters of the class. */
    method CountClass(nature: bool) returns (n: nat)
      ensures n == |OfClass(floaters, nature)|
    {
      n := 0;
      var i := 0;
      while i < |floaters|
        invariant 0 <= i <= |floaters|
        invariant n == |OfClass(floaters[..i], nature)|
      {
        assert floaters[..i + 1][..i] == floaters[..i];
        if IsNature(floaters[i].kind) == nature {
          n := n + 1;
        }
        i := i + 1;
      }
      assert floaters[..i] == floaters;
    }

    /** Walk from the back and splice out floaters of the class until
        `count` reaches `clamped` or the front is passed. */
    method RemoveNewest(nature: bool, count: nat, clamped: nat)
      requires clamped < count
      modifies this
      ensures floaters == DropNewest(old(floaters), nature, count - clamped)
      ensures plan == old(plan) && width == old(width) && height == old(height)
    {
      ghost var s0 := floaters;
      assert floaters[..|floaters|] == floaters;
      var left := count;
      var i := |floaters| - 1;
      while i >= 0 && left > clamped
        invariant -1 <= i < |floaters|
        invariant clamped <= left
        invariant DropNewest(s0, nature, count - clamped)
               == DropNewest(floaters[..i + 1], nature, left - clamped) + floaters[i + 1..]
        invariant plan == old(plan) && width == old(width) && height == old(height)
      {
        ghost var p, f, rest := floaters[..i], floaters[i], floaters[i + 1..];
        assert floaters[..i + 1] == p + [f];
        assert floaters[i..] == [f] + rest;
        DropNewestSnoc(p, f, nature, left - clamped);
        if IsNature(floaters[i].kind) == nature {
          floaters := floaters[..i] + floaters[i + 1..];
          assert floaters[..i] == p && floaters[i..] == rest;
          left := left - 1;
        } else {
          assert DropNewest(p + [f], nature, left - clamped) + rest
              == DropNewest(p, nature, left - clamped) + floaters[i..];
        }
        i := i - 1;
      }
      assert floaters == floaters[..i + 1] + floaters[i + 1..];
    }

    /** Append `clamped - count` floaters drawn from `make`. */
    method AppendFresh(count: nat, clamped: nat, make: nat -> Floater)
      requires count < clamped
      modifies this
      ensures floaters == old(floaters) + Spawned(make, clamped - count)
      ensures plan == old(plan) && width == old(width) && height == old(height)
    {
      var k := 0;
      while count + k < clamped
        invariant count + k <= clamped
        invariant floaters == old(floaters) + Spawned(make, k)
        invariant plan == old(plan) && width == old(width) && height == old(height)
      {
        assert Spawned(make, k + 1) == Spawned(make, k) + [make(k)];
        floaters := floaters + [make(k)];
        k := k + 1;
      }
    }

    /** The common shape of `syncFloaterCount` and `syncNatureCount`. */
    method SyncClass(nature: bool, clamped: nat, make: nat -> Floater)
      modifies this
      ensures floaters == Synced(old(floaters), nature, clamped, make)
      ensures plan == old(plan) && width == old(width) && height == old(height)
    {
      var count := CountClass(nature);
      if count < clamped {
        AppendFresh(count, clamped, make);
      } else if count > clamped {
        RemoveNewest(nature, count, clamped);
      }
    }

    /** `syncFloaterCount(targetCount)`: the note count becomes
        `max(1, targetCount)`; new notes come from `make`. */
    method SyncFloaterCount(targetCount: int, make: nat -> Floater)
      requires Valid()
      requires forall i :: make(i).kind == Note
      modifies this
      ensures Valid()
      ensures floaters == Synced(old(floaters), false, MaxInt(1, targetCount), make)
      ensures |OfClass(floaters, false)| == MaxInt(1, targetCount)
      ensures OfClass(floaters, true) == OfClass(old(floaters), true)
      ensures plan == old(plan) && width == old(width) && height == old(height)
    {
      SyncedCounts(floaters, false, MaxInt(1, targetCount), make);
      SyncClass(false, MaxInt(1, targetCount), make);
    }

    /** `syncNatureCount(targetCount)`: the nature count becomes
        `max(0, targetCount)`; new items come from `make`. */
    method SyncNatureCount(targetCount: int, make: nat -> Floater)
      requires Valid()
      requires forall i :: IsNature(make(i).kind)
      modifies this
      ensures Valid()
      ensures floaters == Synced(old(floaters), true, MaxInt(0, targetCount), make)
      ensures |OfClass(floaters, true)| == MaxInt(0, targetCount)
      ensures OfClass(floaters, false) == OfClass(old(floaters), false)
      ensures plan == old(plan) && width == old(width) && height == old(height)
    {
      SyncedCounts(floaters, true, MaxInt(0, targetCount), make);
      SyncClass(true, MaxInt(0, targetCount), make);
    }

    /** `resetNatureArrivalPlan` at simulation time `time`, with the draw
        `r` of `randomBetween(3, 15)`. */
    method ResetNatureArrivalPlan(time: real, r: real)
      modifies this
      ensures Valid()
      ensures plan == PlanReset(time, r)
      ensures floaters == old(floaters) && width == old(width) && height == old(height)
    {
      plan := plan.(enabled := true);
      plan := plan.(spawned := 0);
      plan := plan.(nextTime := time + RandomBetween(3.0, 15.0, r));
    }

    /** `updateNatureArrivalPlan` at simulation time `time`; `arrival` is
        the item `spawnNatureFloater` would return and `r` the draw of
        `randomBetween(2, 5)`. Exactly one item is appended when the plan
        fires, none otherwise. */
    method UpdateNatureArrivalPlan(time: real, r: real, arrival: Floater)
      requires Valid()
      modifies this
      ensures Valid()
      ensures plan == PlanStep(old(plan), time, r)
      ensures floaters == old(floaters) + (if Fires(old(plan), time) then [arrival] else [])
      ensures width == old(width) && height == old(height)
    {
      if !plan.enabled {
        return;
      }
      if time < plan.nextTime {
        return;
      }
      floaters := floaters + [arrival];
      plan := plan.(spawned := plan.spawned + 1);
      if plan.spawned >= 2 {
        plan := plan.(enabled := false);
        return;
      }
      plan := plan.(nextTime := time + RandomBetween(2.0, 5.0, r));
    }

    /** `initFloaters`: `noteCount` notes (the first labelled `today`),
        then `natureCount` nature items, replacing the list; then a fresh
        arrival plan. */
    method InitFloaters(noteCount: int, natureCount: int, today: string,
                        freshNote: nat -> Floater, freshNature: nat -> Floater, time: real, r: real)
      modifies this
      ensures Valid()
      ensures floaters == InitialFloaters(noteCount, natureCount, today, freshNote, freshNature)
      ensures plan == PlanReset(time, r)
      ensures width == old(width) && height == old(height)
    {
      var next: seq<Floater> := [];
      var i := 0;
      while i < noteCount
        invariant 0 <= i <= MaxInt(0, noteCount)
        invariant next == InitialNotes(freshNote, today, i)
      {
        var note := freshNote(i);
        if i == 0 {
          note := note.(text := today, noteColor := DefaultNoteColor);
        }
        next := next + [note];
        i := i + 1;
      }
      ghost var notes := next;
      var j := 0;
      while j < natureCount
        invariant 0 <= j <= MaxInt(0, natureCount)
        invariant next == notes + Spawned(freshNature, j)
      {
        next := next + [freshNature(j)];
        j := j + 1;
      }
      floaters := next;
      ResetNatureArrivalPlan(time, r);
    }

    /** The note-clamping pass of `resize`: every note is brought inside
        the viewport, nature items and the order are untouched. */
    method FitNotesToViewport()
      modifies this
      ensures |floaters| == |old(floaters)|
      ensures forall i :: 0 <= i < |floaters| ==> floaters[i] == FitNote(old(floaters)[i], width, height)
      ensures plan == old(plan) && width == old(width) && height == old(height)
    {
      var i := 0;
      while i < |floaters|
        invariant 0 <= i <= |floaters| == |old(floaters)|
        invariant forall j :: 0 <= j < i ==> floaters[j] == FitNote(old(floaters)[j], width, height)
        invariant forall j :: i <= j < |floaters| ==> floaters[j] == old(floaters)[j]
        invariant plan == old(plan) && width == old(width) && height == old(height)
      {
        var f := floaters[i];
        if !IsNature(f.kind) {
          f := f.(x := Max(f.radius, Min(width - f.radius, f.x)));
          f := f.(y := Max(f.radius, Min(height - f.radius, f.y)));
          floaters := floaters[i := f];
        }
        i := i + 1;
      }
    }

    /** The floater part of `resize`: the new viewport, then either the
        initial population (when the pond is empty) or the note clamp. */
    method Resize(w: real, h: real, noteCount: int, natureCount: int, today: string,
                  freshNote: nat -> Floater, freshNature: nat -> Floater, time: real, r: real)
      requires Valid()
      modifies this
      ensures Valid() && width == w && height == h
      ensures old(floaters) == [] ==>
        floaters == InitialFloaters(noteCount, natureCount, today, freshNote, freshNature) && plan == PlanReset(time, r)
      ensures old(floaters) != [] ==>
        && plan == old(plan) && |floaters| == |old(floaters)|
        && forall i :: 0 <= i < |floaters| ==> floaters[i] == FitNote(old(floaters)[i], w, h)
    {
      width, height := w, h;
      if |floaters| == 0 {
        InitFloaters(noteCount, natureCount, today, freshNote, freshNature, time, r);
      } else {
        FitNotesToViewport();
      }
    }
  }
}
