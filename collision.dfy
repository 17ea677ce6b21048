/** The velocity part of the pairwise collision response: two overlapping
    floaters exchange an impulse along the contact normal, but only while
    they are moving towards each other. */
module Collision {
  import opened Floaters

  /** `COLLISION_RESTITUTION`. */
  const Restitution: real := 0.4

  /** Relative velocity of `b` with respect to `a` along the normal
      (nx, ny). */
  function VelAlongNormal(a: Floater, b: Floater, nx: real, ny: real): real
  {
    (b.vx - a.vx) * nx + (b.vy - a.vy) * ny
  }

  /** Size of the impulse for the inverse masses `invA` and `invB`. */
  function Impulse(velAlongNormal: real, invA: real, invB: real): real
    requires invA + invB > 0.0
  {
    (-(1.0 + Restitution) * velAlongNormal) / (invA + invB)
  }

  /** The velocity update of `resolveFloaterCollisions` for the pair
      (a, b) with unit contact normal (nx, ny) pointing from `a` to `b`,
      after the positional correction (not modelled). */
  function ApplyImpulse(a: Floater, b: Floater, nx: real, ny: real): (r: (Floater, Floater))
    requires a.mass > 0.0 && b.mass > 0.0
    ensures r.0 == a.(vx := r.0.vx, vy := r.0.vy) && r.1 == b.(vx := r.1.vx, vy := r.1.vy)
    ensures VelAlongNormal(a, b, nx, ny) >= 0.0 ==> r == (a, b)
  {
    var invA, invB := 1.0 / a.mass, 1.0 / b.mass;
    PositiveInverse(a.mass);
    PositiveInverse(b.mass);
    var vn := VelAlongNormal(a, b, nx, ny);
    if vn < 0.0 then
      var j := Impulse(vn, invA, invB);
      var ix, iy := j * nx, j * ny;
      (a.(vx := a.vx - ix * invA, vy := a.vy - iy * invA),
       b.(vx := b.vx + ix * invB, vy := b.vy + iy * invB))
    else (a, b)
  }

  lemma PositiveInverse(m: real)
    requires m > 0.0
    ensures 1.0 / m > 0.0
  {
  }

  /** The impulse pushes the pair apart: when it approaches, the impulse
      is positive. */
  lemma ImpulsePositive(vn: real, invA: real, invB: real)
    requires vn < 0.0 && invA + invB > 0.0
    ensures Impulse(vn, invA, invB) > 0.0
  {
    var num := -(1.0 + Restitution) * vn;
    assert num > 0.0;
    PositiveInverse(invA + invB);
    assert num / (invA + invB) == num * (1.0 / (invA + invB));
  }

  /** The exchange conserves momentum on both axes. */
  lemma MomentumConserved(a: Floater, b: Floater, nx: real, ny: real)
    requires a.mass > 0.0 && b.mass > 0.0
    ensures var (a2, b2) := ApplyImpulse(a, b, nx, ny);
      && a.mass * a2.vx + b.mass * b2.vx == a.mass * a.vx + b.mass * b.vx
      && a.mass * a2.vy + b.mass * b2.vy == a.mass * a.vy + b.mass * b.vy
  {
  }

  /** Along a unit normal, the approach speed is reversed and scaled by the
      restitution: the pair leaves the contact at 0.4 times the speed it
      arrived with, so it separates afterwards. */
  lemma RestitutionAlongNormal(a: Floater, b: Floater, nx: real, ny: real)
    requires a.mass > 0.0 && b.mass > 0.0
    requires nx * nx + ny * ny == 1.0
    requires VelAlongNormal(a, b, nx, ny) < 0.0
    ensures var (a2, b2) := ApplyImpulse(a, b, nx, ny);
      VelAlongNormal(a2, b2, nx, ny) == -Restitution * VelAlongNormal(a, b, nx, ny)
      && VelAlongNormal(a2, b2, nx, ny) > 0.0
  {
  }
}
