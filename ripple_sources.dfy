/** The excitation registry: short-lived ripple sources that drive the ring
    highlights and the CPU refraction path. A bounded ordered list, oldest
    first, at most `MaxSources` long; a source is dropped once its age passes
    `MaxAge` seconds. */
module RippleSources {
  import opened Numeric

  const MaxSources: nat := 16
  const MaxAge: real := 2.8
  const MinStrength: real := 0.35
  const MaxStrength: real := 1.5

  datatype Source = Source(x: real, y: real, strength: real, age: real, radius: real)

  /** Strength of a source registered with `amount`: `amount * 0.42` clamped
      into [0.35, 1.5]. */
  function ClampStrength(amount: real): (s: real)
    ensures MinStrength <= s <= MaxStrength
    ensures MinStrength <= amount * 0.42 <= MaxStrength ==> s == amount * 0.42
    ensures amount * 0.42 < MinStrength ==> s == MinStrength
    ensures amount * 0.42 > MaxStrength ==> s == MaxStrength
  {
    Min(MaxStrength, Max(MinStrength, amount * 0.42))
  }

  /** The source `registerRippleSource(x, y, amount)` creates. */
  function NewSource(x: real, y: real, amount: real): Source
  {
    Source(x, y, ClampStrength(amount), 0.0, 170.0 + amount * 80.0)
  }

  /** The list after appending `src` and evicting from the front down to
      `MaxSources` entries. */
  function Registered(s: seq<Source>, src: Source): seq<Source>
  {
    var t := s + [src];
    if |t| > MaxSources then t[|t| - MaxSources..] else t
  }

  /** The list after one aging pass: every source is `dt` older, and those
      now older than `MaxAge` are gone. */
  function Aged(s: seq<Source>, dt: real): seq<Source>
  {
    if s == [] then []
    else
      var a := s[0].(age := s[0].age + dt);
      (if a.age > MaxAge then [] else [a]) + Aged(s[1..], dt)
  }

  predicate WellFormed(src: Source)
  {
    MinStrength <= src.strength <= MaxStrength && src.age <= MaxAge
  }

  predicate AllWellFormed(s: seq<Source>)
  {
    forall i :: 0 <= i < |s| ==> WellFormed(s[i])
  }

  /** Registration keeps at most 16 sources, puts the new one last and
      evicts only the oldest entries: the result is the newest part of
      the old list followed by the new source. */
  lemma RegisteredShape(s: seq<Source>, src: Source)
    ensures var r := Registered(s, src);
      && |r| == MinInt(MaxSources, |s| + 1)
      && r[|r| - 1] == src
      && r[..|r| - 1] == s[|s| + 1 - |r|..]
      && (|s| < MaxSources ==> r == s + [src])
  {
    var t := s + [src];
    var r := Registered(s, src);
    assert r == t[|t| - |r|..];
    assert r[..|r| - 1] == t[|t| - |r|..|t| - 1];
    assert t[..|s|] == s;
  }

  /** A freshly registered source is well formed, and registration keeps a
      well-formed list well formed. */
  lemma RegisteredWellFormed(s: seq<Source>, x: real, y: real, amount: real)
    requires AllWellFormed(s)
    ensures AllWellFormed(Registered(s, NewSource(x, y, amount)))
    ensures |Registered(s, NewSource(x, y, amount))| <= MaxSources
  {
    var t := s + [NewSource(x, y, amount)];
    assert AllWellFormed(t);
  }

  /** Aging never lengthens the list, leaves every survivor at most `MaxAge`
      old, and changes nothing but the age. */
  lemma {:induction false} AgedBounds(s: seq<Source>, dt: real)
    ensures |Aged(s, dt)| <= |s|
    ensures forall i :: 0 <= i < |Aged(s, dt)| ==> Aged(s, dt)[i].age <= MaxAge
    ensures AllWellFormed(s) ==> AllWellFormed(Aged(s, dt))
  {
    if s != [] {
      AgedBounds(s[1..], dt);
      var a := s[0].(age := s[0].age + dt);
      var head := if a.age > MaxAge then [] else [a];
      assert Aged(s, dt) == head + Aged(s[1..], dt);
      assert AllWellFormed(s) ==> AllWellFormed(s[1..]);
    }
  }

  /** Aging works source by source: aging a concatenation ages each part,
      so survivors keep their relative order. */
  lemma {:induction false} AgedConcat(a: seq<Source>, b: seq<Source>, dt: real)
    ensures Aged(a + b, dt) == Aged(a, dt) + Aged(b, dt)
  {
    if a != [] {
      AgedConcat(a[1..], b, dt);
      assert (a + b)[1..] == a[1..] + b;
      assert (a + b)[0] == a[0];
    } else {
      assert a + b == b;
    }
  }

  /** A single source survives, exactly `dt` older, when its raised age is
      at most `MaxAge`, and disappears otherwise. */
  lemma AgedSingle(src: Source, dt: real)
    ensures Aged([src], dt) == if src.age + dt <= MaxAge then [src.(age := src.age + dt)] else []
  {
    assert [src][1..] == [];
  }

  /** What survives is exactly the non-expired sources, each `dt` older:
      a source is in the aged list if and only if it is an old source with
      its age raised by `dt` to at most `MaxAge`. */
  lemma {:induction false} AgedMembers(s: seq<Source>, dt: real, src: Source)
    ensures src in Aged(s, dt) <==>
      exists i :: 0 <= i < |s| && src == s[i].(age := s[i].age + dt) && src.age <= MaxAge
  {
    if s != [] {
      AgedMembers(s[1..], dt, src);
      var a := s[0].(age := s[0].age + dt);
      assert Aged(s, dt) == (if a.age > MaxAge then [] else [a]) + Aged(s[1..], dt);
      if exists i :: 0 <= i < |s[1..]| && src == s[1..][i].(age := s[1..][i].age + dt) && src.age <= MaxAge {
        var i :| 0 <= i < |s[1..]| && src == s[1..][i].(age := s[1..][i].age + dt) && src.age <= MaxAge;
        assert s[i + 1] == s[1..][i];
      }
      if exists i :: 0 <= i < |s| && src == s[i].(age := s[i].age + dt) && src.age <= MaxAge {
        var i :| 0 <= i < |s| && src == s[i].(age := s[i].age + dt) && src.age <= MaxAge;
        if i > 0 {
          assert s[1..][i - 1] == s[i];
        }
      }
    }
  }

  /** One unfolding of `Aged` at position `i` of `s`. */
  lemma AgedAt(s: seq<Source>, i: nat, dt: real)
    requires i < |s|
    ensures Aged(s[i..], dt)
         == (if s[i].age + dt > MaxAge then [] else [s[i].(age := s[i].age + dt)]) + Aged(s[i + 1..], dt)
  {
    assert s[i..][0] == s[i];
    assert s[i..][1..] == s[i + 1..];
  }

  /** The registry, as the fields `sim.rippleSources` updates in place. */
  class Registry {
    var sources: seq<Source>

    ghost predicate Valid()
      reads this
    {
      |sources| <= MaxSources && AllWellFormed(sources)
    }

    constructor ()
      ensures Valid() && sources == []
    {
      sources := [];
    }

    /** `registerRippleSource`: append a clamped source, evict the oldest
        beyond 16. */
    method RegisterRippleSource(x: real, y: real, amount: real)
      requires Valid()
      modifies this
      ensures Valid()
      ensures sources == Registered(old(sources), NewSource(x, y, amount))
    {
      RegisteredWellFormed(sources, x, y, amount);
      var strength := Min(1.5, Max(0.35, amount * 0.42));
      sources := sources + [Source(x, y, strength, 0.0, 170.0 + amount * 80.0)];
      if |sources| > 16 {
        sources := sources[|sources| - 16..];
      }
    }

    /** `updateRippleSources`: walk the list from the back, age each source
        in place and splice out those older than 2.8 seconds. */
    method UpdateRippleSources(dt: real)
      requires Valid()
      modifies this
      ensures Valid()
      ensures sources == Aged(old(sources), dt)
    {
      ghost var s0 := sources;
      AgedBounds(s0, dt);
      var i := |sources|;
      while i > 0
        invariant 0 <= i <= |s0| && i <= |sources|
        invariant sources[..i] == s0[..i]
        invariant sources[i..] == Aged(s0[i..], dt)
      {
        i := i - 1;
        AgedAt(s0, i, dt);
        assert sources[i] == s0[i] by {
          assert sources[..i + 1][i] == s0[..i + 1][i];
        }
        ghost var rest := sources[i + 1..];
        var source := sources[i].(age := sources[i].age + dt);
        if source.age > 2.8 {
          sources := sources[..i] + sources[i + 1..];
          assert sources[i..] == rest;
        } else {
          sources := sources[..i] + [source] + sources[i + 1..];
          assert sources[i..] == [source] + rest;
        }
      }
      assert sources == sources[..0] + sources[0..];
      assert s0[0..] == s0;
    }
  }
}
