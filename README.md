# Pond simulation — bookkeeping and bounded arithmetic

pondnote draws a pond: a wave height field on a coarse grid, short-lived
ripple sources, and notes, leaves and flowers floating on the water. This
project models, in Dafny, the discrete core of its `app.js`:

- the height-field grid (`Grid`, `HeightField`): the row-major index, splashes
  that reach only interior cells, samplers that clamp into the interior, and
  the leapfrog step over two buffers that swaps them instead of copying, with
  its ambient counter;
- the ripple-source registry (`RippleSources`): a FIFO of at most 16 sources,
  aged in place and dropped after 2.8 s;
- the floater list (`Floaters`): count sync of one class without disturbing
  the other, the nature-arrival state machine, the note bounds clamp, and
  the initial population;
- saving and restoring notes (`NoteStore`);
- the pairwise collision impulse (`Collision`);
- the frame scheduler (`Scheduler`): frame gating, the adaptive ripple block
  size, the capped time step, and idle alternate-frame stepping;
- the refraction backend latch and the ripple texture bytes (`Refraction`);
- the looping timeline of an animated reflection image (`GifTimeline`).

JavaScript numbers are modelled as `real`. Every `Math.random()` draw, the
clock (`performance.now()`), the date label and every freshly created floater
(`randomFloater`, `spawnNatureFloater`) is a parameter. Where the source
updates the simulation state's own fields and lists in place, the model is a
class with `modifies` clauses. These are `HeightField.Field`,
`RippleSources.Registry`, `Floaters.FloaterSystem`, `Scheduler.FrameClock`,
`GifTimeline.GifPlayback` and `Refraction.GlBackend`. The two height buffers
and the ripple texture are arrays. The floaters and ripple sources inside
those lists are values (datatypes): where the source mutates one floater
object's fields, the model replaces the element of the sequence.

A splash goes into `previous`, while the stencil reads the neighbours from
`current`. So after one step only the splashed cell itself is non-zero
(`HeightField.ImpulseFirstStep`). Its neighbours become non-zero on the
second step (`HeightField.ImpulseSecondStep`).

## Model

| member | source | states |
|---|---|---|
| Grid.IdxInRange | app.js:903-905 | every cell (col, row) of a `cols` by `rows` grid has a flat index inside the `cols * rows` buffers |
| Grid.IdxDecompose | app.js:903-905 | the flat index gives back its column as remainder and its row as quotient |
| Grid.IdxInjective | app.js:903-905 | two different cells never share a flat index |
| Grid.Idx | app.js:903-905 | the row-major flat index `row * cols + col`; its range, decomposition and injectivity are `IdxInRange`, `IdxDecompose` and `IdxInjective` |
| Grid.InteriorNeighbours | app.js:936-944 | an interior index has its four stencil neighbours inside the buffers, and they are the cells left, right, above and below it |
| Grid.ClampInterior | app.js:915-916 | the clamped cell lies in [1, n-2] when the dimension has an interior and in [0, n) when n >= 2; it is the input when that is already interior, and otherwise the interior cell nearest to it |
| Grid.SampledCellInRange | app.js:914-918 | the sampled cell is inside the buffers on every grid of at least 2x2 and interior when the grid has an interior |
| Grid.GradientTapsInRange | app.js:920-933 | with an interior, the gradient reads the four neighbours of the interior sampled cell, all in bounds |
| Grid.GradientTapPastEndWhenTwoRows | app.js:920-928 | on a grid two rows high the "down" tap indexes past the end of the buffers |
| Grid.GradientTapWrapsWhenTwoColumns | app.js:920-926 | on a grid two columns wide the "right" tap is an even index: exactly the cell at column 0 of the row below the sampled cell |
| RippleSources.ClampStrength | app.js:775 | stored strength is within [0.35, 1.5], is `amount * 0.42` when that is in range, and is the nearer bound otherwise |
| RippleSources.NewSource | app.js:775-782 | a new source at the point, age 0, strength clamped as `ClampStrength` states, radius 170 + 80 * amount |
| RippleSources.Registered | app.js:776-785 | the list after the push and the front eviction; its shape is `RegisteredShape` |
| RippleSources.RegisteredShape | app.js:774-786 | after registration the list has min(16, n+1) entries, the new source is last, and what precedes it is the newest part of the old list, so only the oldest entries are evicted |
| RippleSources.RegisteredWellFormed | app.js:774-786 | registration keeps the list at most 16 long and every source with strength in range and age at most 2.8 |
| RippleSources.AgedBounds | app.js:788-796 | aging never lengthens the list and leaves every survivor at most 2.8 old |
| RippleSources.AgedConcat | app.js:788-796 | aging works source by source, so survivors keep their relative order |
| RippleSources.AgedMembers | app.js:788-796 | a source survives exactly when its age plus dt is at most 2.8, and it comes back exactly dt older |
| RippleSources.AgedSingle | app.js:790-794 | one source is kept exactly dt older or is dropped |
| RippleSources.Aged | app.js:788-796 | the list after one aging pass; `AgedBounds`, `AgedConcat` and `AgedMembers` state what survives and how |
| RippleSources.Registry.RegisterRippleSource | app.js:774-786 | the new list is the registration of the clamped source; the registry invariant is kept |
| RippleSources.Registry.UpdateRippleSources | app.js:788-796 | the back-to-front splice loop leaves exactly the aged list; the invariant is kept |
| RippleSources.Registry.constructor | app.js:167 | an empty, well-formed list of sources |
| HeightField.Field.constructor | app.js:814-817 | the grid has w/16+2 by h/16+2 cells, both buffers are zero, and the ambient counter is 0 |
| HeightField.Field.Resize | app.js:814-817 | new dimensions and two fresh zeroed buffers |
| HeightField.Splashed | app.js:907-912 | a splash keeps the buffer length |
| HeightField.SplashSafety | app.js:907-912 | at most one cell changes; it is interior, covers the point and grows by exactly the amount; a point over the border changes nothing; a zero border stays zero |
| HeightField.Field.SplashAtWorld | app.js:907-912 | `previous` becomes the splashed buffer, and a zero border stays zero |
| HeightField.Field.SampleHeightWorld | app.js:914-918 | the result is the height of the clamped interior cell, read in bounds; a resting field gives 0 |
| HeightField.Field.SampleGradientWorld | app.js:920-933 | the corrected sampler: central differences around the interior sampled cell, all reads in bounds; zero gradient on a grid without interior or at rest |
| HeightField.Stepped | app.js:936-949 | the stencil pass keeps the buffer length |
| HeightField.SteppedKeepsBorder | app.js:936-949 | the stencil writes interior cells only, so a zero border of `previous` stays zero |
| HeightField.SteppedAtRest | app.js:936-949 | a field at rest stays at rest under the step |
| HeightField.SteppedIsLinear | app.js:936-949 | scaling both buffers by a scales the step's result by a |
| HeightField.SteppedAt | app.js:938-947 | an interior cell of the stepped buffer is the damped blend of its stencil |
| HeightField.Blend | app.js:946-947 | the damped blend of one cell; `SteppedAt` and `CellMatches` tie it to the stepped buffer |
| HeightField.CellMatches | app.js:938-947 | the loop's per-cell computation from the buffer reads equals the stepped value |
| HeightField.ImpulseFirstStep | app.js:907-953 | a single splash in `previous` on a resting field: after one step only that cell is non-zero, at -travel*damp*amount |
| HeightField.ImpulseSecondStep | app.js:936-953 | after the second step each interior neighbour holds -0.5*travel^2*damp^2*amount |
| HeightField.Zeros | app.js:816-817 | a fresh buffer of n cells is all zero |
| HeightField.Field.StepInterior | app.js:936-949 | the nested loops turn `previous` into exactly the stepped buffer |
| HeightField.Field.UpdateRipples | app.js:935-964 | the buffers are swapped, not copied; the new `current` is the stepped buffer; the counter advances and on firing splashes into the new `previous` and registers one source there; a zero border stays zero; a resting field stays at rest when the counter does not fire |
| HeightField.Field.AmbientTick | app.js:955-963 | the counter increments and resets after 42; exactly one splash and one registration when it fires, none otherwise |
| HeightField.AmbientFiringsCount | app.js:955-957 | starting in range, the counter fires (timer + n) / 43 times in n steps: once every 43 steps |
| Floaters.ItemMetrics | app.js:295-315 | positive mass and non-negative footprint for a non-negative size; leaves are taller than wide, notes and flowers square |
| Floaters.MassOrder | app.js:295-315 | at equal size a leaf is lighter than a flower, a flower lighter than a note |
| Floaters.RandomBetween | app.js:348-350 | for a draw in [0, 1) the value lies in [min, max), or is min when the interval is a point |
| Floaters.OfClass | app.js:344-346 | the class filter keeps only that class and is no longer than the list |
| Floaters.ClassesPartition | app.js:468-482 | the note count and the nature count add up to the list length |
| Floaters.OfClassAppend | app.js:344-346 | filtering distributes over concatenation |
| Floaters.DropNewestKeepsOther | app.js:860-866 | removing the newest floaters of one class keeps the other class exactly, in order |
| Floaters.DropNewestKeepsOldest | app.js:860-866 | removing the m newest of a class keeps exactly its oldest members, in order |
| Floaters.DropNewest | app.js:860-866 | the list with the m newest members of one class removed; its properties are `DropNewestKeepsOther` and `DropNewestKeepsOldest` |
| Floaters.SyncedCounts | app.js:851-885 | after a sync the class has exactly `clamped` members, the other class is unchanged and in order, and the surviving old members are the oldest ones |
| Floaters.Synced | app.js:851-885 | the list after a count sync of one class; its properties are `SyncedCounts` |
| Floaters.FloaterSystem.CountClass | app.js:468-482 | the counting loop returns the size of the class |
| Floaters.FloaterSystem.RemoveNewest | app.js:860-866 | the back-to-front splice loop leaves the list with the newest of the class removed |
| Floaters.FloaterSystem.AppendFresh | app.js:854-858 | the push loop appends exactly the missing number of fresh items |
| Floaters.FloaterSystem.SyncClass | app.js:851-885 | the list becomes the synced list |
| Floaters.FloaterSystem.SyncFloaterCount | app.js:851-867 | the note count becomes max(1, t), and the nature items are untouched and in order |
| Floaters.FloaterSystem.SyncNatureCount | app.js:869-885 | the nature count becomes max(0, t), and the notes are untouched and in order |
| Floaters.PlanReset | app.js:529-533 | the reset plan is enabled with nothing spawned, and its first arrival is 3 to 15 s away |
| Floaters.PlanStep | app.js:535-549 | a plan that does not fire is unchanged; one that fires counts one more spawn, and it disables itself at 2 or otherwise schedules the next arrival 2 to 5 s away |
| Floaters.PlanStepBudget | app.js:535-549 | a step keeps the plan well formed and spends one unit of its budget exactly when it fires |
| Floaters.ArrivalsWithinBudget | app.js:535-549 | over any run of steps the plan spawns at most its remaining budget |
| Floaters.ResetYieldsAtMostTwo | app.js:529-549 | a reset yields at most two arrivals, whatever follows |
| Floaters.FloaterSystem.ResetNatureArrivalPlan | app.js:529-533 | the plan becomes the reset plan; the list is unchanged |
| Floaters.FloaterSystem.UpdateNatureArrivalPlan | app.js:535-549 | the plan takes one step; exactly one item is appended when it fires and none when it is disabled or its time has not come |
| Floaters.ClampCoord | app.js:415-416 | the clamp lies within [lo, hi] when the interval is not empty, is the input when that is inside, and is the bound it crossed otherwise |
| Floaters.ConstrainFloaterBounds | app.js:1063-1080 | only position and velocity change; on each axis the position is clamped and the velocity negated and scaled by 0.7 exactly when it was out; x is in [r, W-r] and y in [r, H-r] when the viewport is at least 2r; the degenerate narrow viewport is described too |
| Floaters.FitNote | app.js:827-828 | a note is clamped into the viewport on both axes with nothing else changed; a nature item is left alone |
| Floaters.FitAgreesWithBounce | app.js:825-830 | on a viewport at least the note's size, fitting puts the note where the bounce would |
| Floaters.InitialNotes | app.js:834-842 | n notes; the first carries today's label and the default colour, the others are as created |
| Floaters.InitialCounts | app.js:834-849 | the initial list holds the requested numbers of notes and nature items, and the first note is today's |
| Floaters.InitialFloaters | app.js:834-849 | the initial notes followed by the fresh nature items; its counts are `InitialCounts` |
| Floaters.FloaterSystem.InitFloaters | app.js:834-849 | the list becomes the initial population and the plan is reset |
| Floaters.FloaterSystem.FitNotesToViewport | app.js:825-830 | every note is fitted into the viewport, and nature items and the order are untouched |
| Floaters.FloaterSystem.Resize | app.js:822-831 | an empty pond gets the initial population; otherwise every note is fitted and the plan is kept |
| Floaters.FloaterSystem.constructor | app.js:120-131 | no floaters, a disabled arrival plan, and the given viewport |
| NoteStore.ToFixed3Close | app.js:370-371 | rounding to 3 decimals moves a value by at most 0.0005 and keeps its sign |
| NoteStore.ToFixed4Close | app.js:372-374 | rounding to 4 decimals moves a value by at most 0.00005 and keeps its sign |
| NoteStore.ToFixed3Idempotent | app.js:370-371 | a value already rounded to 3 decimals rounds to itself |
| NoteStore.ToFixed4Idempotent | app.js:372-374 | a value already rounded to 4 decimals rounds to itself |
| NoteStore.ToFixed | app.js:370-374 | `toFixed` rounding of one number; its error bound and idempotence are `ToFixed3Close`, `ToFixed4Close`, `ToFixed3Idempotent` and `ToFixed4Idempotent` |
| NoteStore.SerializeCurrentNotes | app.js:364-376 | one record per note, never more records than floaters |
| NoteStore.SerializeNote | app.js:365-375 | the record of one note; `SerializedRecords` states what it keeps |
| NoteStore.SerializedRecords | app.js:364-376 | each record comes from the note at the same position among the notes, keeps its text, has the note's colour (or the default when it has none), and its position, angle and velocity are within rounding (0.0005 for position, 0.00005 for the rest) |
| NoteStore.SerializeIgnoresNature | app.js:364-376 | adding or removing nature items (sync, arrival) saves the same records |
| NoteStore.HydrateNoteFromStored | app.js:404-418 | the restored note has the stored text and colour (default when empty) and the stored finite numbers (the drawn ones otherwise); each coordinate is the stored or drawn one clamped to [radius, size - radius], so the note is already fitted, inside the viewport when it is large enough, and an in-range stored position is kept |
| NoteStore.SaveRestoreRoundTrip | app.js:364-418 | a note inside the viewport, saved and restored, has the same text and colour and position, velocity and angle within rounding |
| NoteStore.ResaveStable | app.js:364-418 | re-saving a restored note stores the same record when no clamp was needed |
| NoteStore.ClampNonExpansive | app.js:415-416 | clamping does not move a point farther from one inside the interval |
| Collision.ApplyImpulse | app.js:1143-1155 | only velocities change, and nothing changes when the pair does not approach along the normal |
| Collision.ImpulsePositive | app.js:1146-1147 | an approaching pair gets a positive impulse |
| Collision.MomentumConserved | app.js:1143-1155 | the exchange conserves momentum on both axes |
| Collision.RestitutionAlongNormal | app.js:1143-1155 | with a unit normal, the pair separates at 0.4 times its approach speed |
| Scheduler.BaseStep | app.js:1909 | the requested block size is at least 8, and it is the floor of the setting from 8 up |
| Scheduler.AdaptiveBoost | app.js:1910-1911 | the boost lies in [0, 10]; it is 0 when the average is on target and 10 from 22 ms of overload |
| Scheduler.EffectiveRippleStep | app.js:1908-1912 | the block lies in [min(24, max(8, floor(setting))), 24]; it is the requested size when on target |
| Scheduler.StepMonotone | app.js:1908-1912 | a slower frame-time average never gives a smaller block |
| Scheduler.FrameDt | app.js:1914 | dt is at most 0.05, positive for positive elapsed time, and elapsed/1000 below 50 ms |
| Scheduler.Ema | app.js:1908 | the average lies between the old average and the new sample |
| Scheduler.IdleAlternates | app.js:1919 | of two consecutive idle frames exactly one steps the ripples; an active frame always does |
| Scheduler.IdleHalfRate | app.js:1919 | over n idle frames the ripples step between n/2 and (n+1)/2 times |
| Scheduler.StepsRipples | app.js:1919 | the idle gate; `IdleAlternates` and `IdleHalfRate` state its rate |
| Scheduler.FrameClock.constructor | app.js:98-109 | the page-load clock: not paused, average on target, block 8, frame 0 |
| Scheduler.FrameClock.PauseSimulation | app.js:1881-1887 | paused, and nothing else changes |
| Scheduler.FrameClock.ResumeSimulation | app.js:1889-1895 | not paused, with the clock restarted, a fresh average and frame 0 |
| Scheduler.FrameClock.PointerMoved | app.js:1955-1956 | the last pointer-move time is taken and the pond stops being idle |
| Scheduler.FrameClock.Frame | app.js:1897-1920 | nothing happens while paused or before the target period; otherwise the frame count, idle flag, average, block and time advance as stated, dt is in (0, 0.05], and the idle rule decides the ripple step |
| Refraction.InitStep | app.js:1235-1329 | a disabled backend stays off; a ready one stays ready; success means ready and not disabled |
| Refraction.RenderStep | app.js:1350-1395 | drawing with WebGL means ready and not disabled |
| Refraction.RenderLatch | app.js:1235-1395 | one attempt keeps the flags coherent and never clears `disabled`; WebGL draws exactly when it is not disabled, becomes ready, the sky has a size, and no GL call before or after the ripple upload fails |
| Refraction.DisabledStays | app.js:1235-1395 | once disabled, the backend is disabled before every later frame |
| Refraction.StickyCpu | app.js:1446-1451 | every frame from the one where it is disabled on uses the CPU path |
| Refraction.DefaultAlwaysCpu | app.js:172-175 | with the shipped default (disabled) every frame is drawn on the CPU |
| Refraction.FailureIsFinal | app.js:1390-1394 | a draw that fails, before or after the ripple upload, puts every later frame on the CPU |
| Refraction.RippleByte | app.js:1343 | the byte is in [0, 255], 128 for flat water, at least 128 above it and at most 128 below; it saturates at 255 from height 1 and is at most 1 below height -1 |
| Refraction.RippleByteMonotone | app.js:1343 | higher water never gives a smaller byte |
| Refraction.GlBackend.constructor | app.js:172-175 | not ready, disabled as given, no texture yet |
| Refraction.GlBackend.InitRefractionGl | app.js:1235-1329 | the flags and result are those of `InitStep` |
| Refraction.GlBackend.UpdateRippleTexture | app.js:1329-1349 | nothing for an empty grid; a new zeroed buffer when the size changed; every byte within both arrays is the quantised height |
| Refraction.GlBackend.RenderRefractionWebgl | app.js:1350-1395 | the flags and result are those of `RenderStep`; once setup succeeds, the sky has a size and the GL calls before the ripple upload succeed, the texture holds the heights of the grid; otherwise it is untouched |
| Refraction.GlBackend.DrawReflectedSky | app.js:1446-1451 | WebGL exactly when the render step draws, the CPU otherwise, and always the CPU once disabled; the texture holds the heights once the ripple upload is reached and is untouched otherwise |
| GifTimeline.FrameDuration | app.js:712-713 | a duration is at least 16 ms, 100 ms when the decoder gives none, and the converted duration from 16 ms up |
| GifTimeline.Durations | app.js:708-718 | one duration of at least 16 ms per decoded frame |
| GifTimeline.Total | app.js:708-718 | the sum of the durations; `StartsShape` ties it to the timeline |
| GifTimeline.Starts | app.js:708-718 | one start per frame; `StartsShape` states that each start is the sum of the durations before it |
| GifTimeline.StartsShape | app.js:708-718 | the timeline starts at 0, each frame starts where the previous ends, the last ends at the total, and the starts grow by at least 16 ms |
| GifTimeline.FirstAfter | app.js:735-740 | the search stops at the first start after the moment, or at the end |
| GifTimeline.ChosenFrameCovers | app.js:734-740 | for a moment within the loop, the chosen frame is the one whose display interval holds it |
| GifTimeline.ChosenFrame | app.js:734-740 | the frame the search picks; `ChosenFrameCovers` states that its interval holds the moment |
| GifTimeline.JsRemBounds | app.js:733 | JavaScript `%` of a non-negative value lies in [0, b), of a negative one in (-b, 0] |
| GifTimeline.JsRem | app.js:733 | JavaScript `%` on reals; its range is `JsRemBounds` |
| GifTimeline.GifPlayback.ClearGifPlayback | app.js:680-695 | stopped with no frames; nothing is touched when there was nothing to clear |
| GifTimeline.GifPlayback.LoadGifPlayback | app.js:697-728 | an image without frames is refused and changes nothing; otherwise the frames are the durations, their timeline and total are built, and playback starts |
| GifTimeline.GifPlayback.UpdateGifFrame | app.js:730-745 | no frame when playback is off; otherwise the linear search gives the chosen frame, in range, whose interval holds the elapsed time |
| GifTimeline.GifPlayback.constructor | app.js:148-156 | playback off, no frames, an empty timeline, total and start 0 |

## Left out

- Object identity and aliasing: floaters and ripple sources are values in sequences. A reference to one floater held elsewhere (the note dialog's `editingNote`, app.js:2322-2393, which it edits in place and finds again with `indexOf`) is not modelled. In the model an update to a floater is a replacement of the element.
- Floating point: numbers are exact reals. `Float32Array` rounding of the height buffers, NaN and Infinity are not modelled. The one exception is a stored number that is not finite, which is `None` in `NoteStore.StoredRow`.
- NoteStore.ToFixed: `toFixed` rounds the binary double, not the exact decimal. The model rounds halves upward on the exact magnitude.
- NoteStore.HydrateNoteFromStored: a missing text or colour (`undefined` or `null`) is modelled as the empty string, which the source treats the same way.
- Floaters.ItemMetrics: the collision radius (`Math.hypot` of the half footprint) is left out because it is a square root. Radii are fields of the floater.
- Random geometry of new floaters (`randomFloater`, `spawnNatureFloater`, `recycleNatureFloater`, `randomItemKind`): these need the viewport and random draws. The floaters they create are parameters.
- `applyNoteSizeToFloaters` is not modelled. Its clamp is the same as `Floaters.FitNote`, but its metrics need the radius.
- Continuous physics (`updateFloaters`, `processPointer`) and the positional part of `resolveFloaterCollisions` are left out: they need square roots and trigonometry. The collision sweep over all pairs, and its cull margins, is not modelled either. Only the velocity impulse of one pair is (`Collision`).
- Collision.ApplyImpulse takes the contact normal as an input and assumes positive masses, rather than computing the normal with `Math.hypot`.
- `resize` is split between `HeightField.Field.Resize` and `Floaters.FloaterSystem.Resize`. The device-pixel-ratio and canvas sizing are left out, and so are the noise pattern and the reflection texture it triggers (drawing).
- Scheduler.FrameClock.Frame: it covers the scheduling arithmetic of `frame`. The calls it makes each frame (pointer, ripples, sources, floaters, arrivals, collisions, drawing) are modelled by their own members, not chained here. `requestAnimationFrame` and `cancelAnimationFrame` are left out.
- WebGL setup, shaders and texture uploads are foreign GPU calls. They are reduced to the `Attempt` outcomes of `Refraction`, and the CPU refraction fallback (`drawReflectedSkyCpuFallback`) is left out as trigonometric drawing.
- GIF decoding (`ImageDecoder`, bitmaps, the canvas) is browser I/O. The decoder's frame durations are the input of `LoadGifPlayback`, and `UpdateGifFrame` returns the chosen index instead of drawing it.
- Every `draw*` function, the shadow cache, text layout, DOM and event wiring, asset loading and the graphics worker are not modelled: they are drawing and I/O.
- Account handling and persistence to the database (`persistUserNotes`, `setLoggedInScene`, authentication) are network I/O. Only the record mapping (`NoteStore.AsRow`) is kept.
- `getTodayNoteLabel` uses `Intl` date formatting. It is a string parameter.

## Findings

| source | as written | input that shows it | evidently intended | confidence | as-written member | corrected member |
|---|---|---|---|---|---|---|
| app.js:920-928 | `sampleGradientWorld` clamps the cell into [1, n-2] and reads `idx(cx, cy + 1)` and `idx(cx + 1, cy)` without checking that the grid has an interior | a viewport less than 16 px tall gives `rows == 2`: the clamp yields `cy == 1`, and the "down" tap `idx(cx, 2)` is at least `cols * 2`, past the end, so the read is `undefined` and the gradient is NaN; with `cols == 2` the "right" tap wraps to column 0 of the next row | read only in-bounds neighbours, giving zero gradient when the grid has no interior | not executed | Grid.GradientTapPastEndWhenTwoRows, Grid.GradientTapWrapsWhenTwoColumns | HeightField.Field.SampleGradientWorld |
