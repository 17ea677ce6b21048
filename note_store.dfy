/** Saving and restoring the user's notes: `serializeCurrentNotes` turns the
    notes among the floaters into plain records with rounded coordinates,
    and `hydrateNoteFromStored` turns a stored row back into a note,
    falling back to freshly drawn values for missing or non-finite numbers
    and keeping the note inside the viewport. */
module NoteStore {
  import opened Numeric
  import opened Floaters

  /** Magnitude from which `toFixed` stops rounding and prints the number
      in exponent form, so that `Number(v.toFixed(d))` is `v` again. */
  const FixedLimit: real := 1000000000000000000000.0

  /** `Number(v.toFixed(d))` on exact reals, with `scale` standing for
      `10^d`: the magnitude is rounded to the nearest multiple of
      `1/scale`, halves upward, and the sign put back; values of magnitude
      `10^21` or more come back unchanged. */
  function ToFixed(v: real, scale: real): real
    requires scale >= 1.0
  {
    if v >= FixedLimit || v <= -FixedLimit then v
    else if v < 0.0 then -((((-v) * scale + 0.5).Floor as real) / scale)
    else ((v * scale + 0.5).Floor as real) / scale
  }

  /** Rounding to 3 decimals (positions) moves a value by at most half a
      unit in the last kept decimal and never changes its sign. */
  lemma ToFixed3Close(v: real)
    ensures Abs(ToFixed(v, 1000.0) - v) <= 0.0005
    ensures v >= 0.0 ==> ToFixed(v, 1000.0) >= 0.0
    ensures v <= 0.0 ==> ToFixed(v, 1000.0) <= 0.0
  {
  }

  /** Rounding to 4 decimals (angle, velocity) moves a value by at most
      half a unit in the last kept decimal and never changes its sign. */
  lemma ToFixed4Close(v: real)
    ensures Abs(ToFixed(v, 10000.0) - v) <= 0.00005
    ensures v >= 0.0 ==> ToFixed(v, 10000.0) >= 0.0
    ensures v <= 0.0 ==> ToFixed(v, 10000.0) <= 0.0
  {
  }

  /** A value already rounded to 3 decimals rounds to itself. */
  lemma ToFixed3Idempotent(v: real)
    ensures ToFixed(ToFixed(v, 1000.0), 1000.0) == ToFixed(v, 1000.0)
  {
    if -FixedLimit < v < FixedLimit {
      var n := ((if v < 0.0 then -v else v) * 1000.0 + 0.5).Floor;
      assert n >= 0;
      assert (n as real + 0.5).Floor == n;
      var q := n as real / 1000.0;
      assert ToFixed(q, 1000.0) == q;
      if v < 0.0 && n > 0 {
        assert ToFixed(-q, 1000.0) == -q;
      }
    }
  }

  /** A value already rounded to 4 decimals rounds to itself. */
  lemma ToFixed4Idempotent(v: real)
    ensures ToFixed(ToFixed(v, 10000.0), 10000.0) == ToFixed(v, 10000.0)
  {
    if -FixedLimit < v < FixedLimit {
      var n := ((if v < 0.0 then -v else v) * 10000.0 + 0.5).Floor;
      assert n >= 0;
      assert (n as real + 0.5).Floor == n;
      var q := n as real / 10000.0;
      assert ToFixed(q, 10000.0) == q;
      if v < 0.0 && n > 0 {
        assert ToFixed(-q, 10000.0) == -q;
      }
    }
  }

  /** A note as `serializeCurrentNotes` writes it. */
  datatype StoredNote = StoredNote(
    text: string, noteColor: string,
    x: real, y: real, angle: real, vx: real, vy: real)

  /** `value || fallback` on strings: the empty string is falsy. */
  function OrElse(value: string, fallback: string): string
  {
    if value != "" then value else fallback
  }

  /** The record one note is saved as: its text and colour (the default
      colour when it has none), positions rounded to 3 decimals, angle and
      velocity to 4. */
  function SerializeNote(f: Floater): StoredNote
  {
    StoredNote(OrElse(f.text, ""), OrElse(f.noteColor, DefaultNoteColor),
               ToFixed(f.x, 1000.0), ToFixed(f.y, 1000.0), ToFixed(f.angle, 10000.0),
               ToFixed(f.vx, 10000.0), ToFixed(f.vy, 10000.0))
  }

  /** `serializeCurrentNotes`: the notes among the floaters, in list order,
      each as its saved record. */
  function SerializeCurrentNotes(floaters: seq<Floater>): (r: seq<StoredNote>)
    ensures |r| == |OfClass(floaters, false)| <= |floaters|
  {
    var notes := OfClass(floaters, false);
    seq(|notes|, i requires 0 <= i < |notes| => SerializeNote(notes[i]))
  }

  /** Every saved record comes from a note of the list, in order, carries
      that note's text and a non-empty colour, and its numbers are within
      rounding of the note's. */
  lemma SerializedRecords(floaters: seq<Floater>, i: int)
    requires 0 <= i < |SerializeCurrentNotes(floaters)|
    ensures var f := OfClass(floaters, false)[i];
      var n := SerializeCurrentNotes(floaters)[i];
      && f.kind == Note
      && n.text == f.text && n.noteColor != ""
      && (f.noteColor != "" ==> n.noteColor == f.noteColor)
      && (f.noteColor == "" ==> n.noteColor == DefaultNoteColor)
      && Abs(n.x - f.x) <= 0.0005 && Abs(n.y - f.y) <= 0.0005
      && Abs(n.vx - f.vx) <= 0.00005 && Abs(n.vy - f.vy) <= 0.00005
      && Abs(n.angle - f.angle) <= 0.00005
  {
    var f := OfClass(floaters, false)[i];
    assert !IsNature(f.kind);
    ToFixed3Close(f.x);
    ToFixed3Close(f.y);
    ToFixed4Close(f.vx);
    ToFixed4Close(f.vy);
    ToFixed4Close(f.angle);
  }

  /** Nature items never reach storage: adding or removing them, as
      `syncNatureCount` and the arrival plan do, saves the same records. */
  lemma SerializeIgnoresNature(s: seq<Floater>, target: int, make: nat -> Floater, arrival: Floater)
    requires forall i :: IsNature(make(i).kind)
    requires IsNature(arrival.kind)
    ensures SerializeCurrentNotes(Synced(s, true, MaxInt(0, target), make)) == SerializeCurrentNotes(s)
    ensures SerializeCurrentNotes(s + [arrival]) == SerializeCurrentNotes(s)
  {
    SyncedCounts(s, true, MaxInt(0, target), make);
    OfClassSnoc(s, arrival, false);
    assert OfClass(s, false) + [] == OfClass(s, false);
  }

  /** A saved note read back from storage. Missing or non-finite numbers
      are `None`; a missing string is the empty string. */
  datatype StoredRow = StoredRow(
    text: string, noteColor: string,
    x: Option<real>, y: Option<real>, vx: Option<real>, vy: Option<real>, angle: Option<real>)

  /** The row `persistUserNotes` inserts for a saved record: every number
      is finite. */
  function AsRow(n: StoredNote): StoredRow
  {
    StoredRow(n.text, n.noteColor, Some(n.x), Some(n.y), Some(n.vx), Some(n.vy), Some(n.angle))
  }

  /** `Number.isFinite(v) ? v : fallback`. */
  function Finite(v: Option<real>, fallback: real): real
  {
    if v.Some? then v.value else fallback
  }

  /** `hydrateNoteFromStored(item)`, where `drawn` is the note
      `randomFloater` draws for it: the stored text and colour (default
      colour when empty), each finite stored number in place of the drawn
      one, then the position clamped into the viewport. */
  function HydrateNoteFromStored(item: StoredRow, drawn: Floater, width: real, height: real): (n: Floater)
    requires drawn.kind == Note
    ensures n.kind == Note && n.text == item.text && n.noteColor != ""
    ensures n.noteColor == OrElse(item.noteColor, DefaultNoteColor)
    ensures n.vx == Finite(item.vx, drawn.vx) && n.vy == Finite(item.vy, drawn.vy)
    ensures n.angle == Finite(item.angle, drawn.angle)
    ensures n.x == ClampCoord(Finite(item.x, drawn.x), drawn.radius, width - drawn.radius)
    ensures n.y == ClampCoord(Finite(item.y, drawn.y), drawn.radius, height - drawn.radius)
    ensures n == FitNote(n, width, height)
    ensures n.radius == drawn.radius && n.mass == drawn.mass && n.size == drawn.size && n.spin == drawn.spin
    ensures width >= 2.0 * drawn.radius ==> drawn.radius <= n.x <= width - drawn.radius
    ensures height >= 2.0 * drawn.radius ==> drawn.radius <= n.y <= height - drawn.radius
    ensures item.x.Some? && drawn.radius <= item.x.value <= width - drawn.radius ==> n.x == item.x.value
    ensures item.y.Some? && drawn.radius <= item.y.value <= height - drawn.radius ==> n.y == item.y.value
  {
    var note := drawn.(noteColor := OrElse(item.noteColor, DefaultNoteColor), text := OrElse(item.text, ""));
    var note := note.(x := Finite(item.x, note.x), y := Finite(item.y, note.y),
                      vx := Finite(item.vx, note.vx), vy := Finite(item.vy, note.vy),
                      angle := Finite(item.angle, note.angle));
    var note := note.(x := Max(note.radius, Min(width - note.radius, note.x)));
    note.(y := Max(note.radius, Min(height - note.radius, note.y)))
  }

  /** Clamping into an interval never moves two points further apart, so a
      point already inside stays as close to the clamp of a nearby one. */
  lemma ClampNonExpansive(a: real, b: real, lo: real, hi: real)
    requires lo <= b <= hi
    ensures Abs(ClampCoord(a, lo, hi) - b) <= Abs(a - b)
  {
  }

  /** Saving a note and restoring it gives back a note with the same text
      and colour (the default one if it had none) whose position and
      velocity are within rounding of the original, whenever the original
      lay inside the viewport and the newly drawn note has its size. */
  lemma SaveRestoreRoundTrip(f: Floater, drawn: Floater, width: real, height: real)
    requires f.kind == Note && drawn.kind == Note && drawn.radius == f.radius
    requires f.radius <= f.x <= width - f.radius && f.radius <= f.y <= height - f.radius
    ensures var n := HydrateNoteFromStored(AsRow(SerializeNote(f)), drawn, width, height);
      && n.text == f.text
      && n.noteColor == OrElse(f.noteColor, DefaultNoteColor)
      && Abs(n.x - f.x) <= 0.0005 && Abs(n.y - f.y) <= 0.0005
      && Abs(n.vx - f.vx) <= 0.00005 && Abs(n.vy - f.vy) <= 0.00005
      && Abs(n.angle - f.angle) <= 0.00005
  {
    var s := SerializeNote(f);
    ToFixed3Close(f.x);
    ToFixed3Close(f.y);
    ToFixed4Close(f.vx);
    ToFixed4Close(f.vy);
    ToFixed4Close(f.angle);
    ClampNonExpansive(s.x, f.x, f.radius, width - f.radius);
    ClampNonExpansive(s.y, f.y, f.radius, height - f.radius);
  }

  /** Saving is stable: once a note has been restored, saving it again
      stores exactly the numbers that were read back, provided the restore
      did not have to move it. */
  lemma ResaveStable(f: Floater, drawn: Floater, width: real, height: real)
    requires f.kind == Note && drawn.kind == Note
    requires var s := SerializeNote(f);
      drawn.radius <= s.x <= width - drawn.radius && drawn.radius <= s.y <= height - drawn.radius
    ensures SerializeNote(HydrateNoteFromStored(AsRow(SerializeNote(f)), drawn, width, height)) == SerializeNote(f)
  {
    ToFixed3Idempotent(f.x);
    ToFixed3Idempotent(f.y);
    ToFixed4Idempotent(f.vx);
    ToFixed4Idempotent(f.vy);
    ToFixed4Idempotent(f.angle);
  }
}
