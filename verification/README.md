# Music colour wheel: verified model of its deterministic core

The program (`script.js`) draws a wheel of the twelve chromatic notes in
four rings and plays a sine tone for each segment that is clicked or
touched. It can also play preset chords and scales and songs with a chord
accompaniment, and it lights the segments that sound. This project models the parts
of that program that are plain logic and proves what they promise:

- **Pitch** (`pitch.dfy`): the note list and the integer semitone offset
  `halfSteps` from A4, the exponent in `noteToFrequency`'s
  440 · 2^(halfSteps / 12).
- **Loudness** (`loudness.dfy`): the final clamp of the equal-loudness
  compensation. The A-weighting value is a parameter.
- **SegmentKey** (`segment_key.dfy`): the `"note-ring"` keys of the
  highlight list. It covers their decimal rendering, `split('-')`, and
  `getCurrentChordNotes`.
- **Geometry** (`geometry.dfy`): the pointer mapping shared by the hover
  handler and the click/touch handler, and the wedge and ring bounds
  `drawWheel` draws. Angles are in turns, and reals are exact.
- **Timeline** (`timeline.dfy`): what one call sets in motion, as a list of
  timestamped events:
  - play a tone,
  - overwrite the highlight list,
  - clean up.

  Time is in integer milliseconds counted from the call. The highlight list
  at moment `x` is the fold of the events at or before `x`.
- **Playback** (`playback.dfy`): `playChord`, `playMelodyWithChords`, the
  older `playMelody`, and one frame of the glissando animation.
- **Presets** (`presets.dfy`): the chord and scale tables and
  `playChordType` / `playScaleType`. An unknown name gives the logged
  message and no timeline.
- **Interaction** (`interaction.dfy`): the hover state and
  `handleCanvasTouch` with its 150 ms debounce. The clock is a parameter.

Nothing is cancelled in the program, so two overlapping calls are simply
two independent timelines.

The two melody players place their events differently. Take two 400 ms
notes (C4, then G4) with no chords:

- `playMelodyWithChords` requests the tones at 50 ms and 500 ms. Its melody
  callback runs 50 ms after the step's cursor.
- `playMelody` requests them at 0 ms and 450 ms.
- Both clean up at 1100 ms: 2 × (400 + 50) + 200.

## Model

| member | source | states |
|---|---|---|
| `Pitch.IndexOf` | script.js:18 | `notes.indexOf`: -1 exactly for a name outside the twelve; otherwise the position holding that name |
| `Pitch.IndexOfName` | script.js:18 | the twelve names are distinct, so each is found at its own position |
| `Pitch.HalfSteps` | script.js:30-37 | for a known name, the semitone offset decodes (through `PitchOf`) back to the same name and octave |
| `Pitch.PitchOfRoundTrip` | script.js:35 | every integer offset is the offset of exactly the pitch `PitchOf` names: the offset is a bijection between named pitches and integers |
| `Pitch.CalibrationPoints` | script.js:32-35 | A4 is offset 0 (440 Hz); C4 is -9; C3 is -21; C6 is 15 |
| `Pitch.OctaveStep` | script.js:35-36 | one octave up adds exactly 12 semitones, so the frequency doubles per octave |
| `Pitch.UnknownNoteActsAsLowerB` | script.js:31-35 | an unknown name (index -1) sounds as B one octave lower |
| `Pitch.HalfStepsOrder` | script.js:35 | offsets order pitches by octave first and chromatic position second, in both directions |
| `Loudness.Compensation` | script.js:413-415 | the compensation always lies in [0.3, 2.0]; it is 0.5/aWeight when that ratio lies in the band and the nearer bound otherwise; a zero weight gives 2.0 |
| `Loudness.EqualLoudnessVolume` | script.js:417 | a non-negative base volume is scaled by a factor between 0.3 and 2.0 |
| `Loudness.CompensationMonotone` | script.js:415 | a larger weight never gets a larger compensation |
| `Loudness.ReferenceIsUnity` | script.js:414-417 | at the reference weight 0.5 the volume passes through unchanged |
| `SegmentKey.NatToString` | script.js:164 | a ring renders as a non-empty run of decimal digits |
| `SegmentKey.ParseRing` | script.js:110 | the ring text parses exactly when it is a non-empty run of digits |
| `SegmentKey.NatToStringRoundTrip` | script.js:110 | parsing the rendering of a ring gives the ring back |
| `SegmentKey.Split` | script.js:102 | `split('-')` yields at least one piece, and no piece contains the separator |
| `SegmentKey.JoinSplit` | script.js:102 | the pieces of a split, rejoined with the separator, are the original string: nothing is lost |
| `SegmentKey.SplitHead` | script.js:102 | the first piece of `split` is a prefix of the text, and when it is shorter than the text the separator follows it |
| `SegmentKey.SplitNoSeparator` | script.js:102 | a text without the separator splits into itself alone |
| `SegmentKey.SplitJoin` | script.js:141 | joining separator-free pieces and splitting again gives the same pieces |
| `SegmentKey.Key` | script.js:164 | the template `${note}-${ring}`: the note, then the separator, then the ring in decimal; what decoding gives back is stated by `KeyRoundTrip` and `KeyInjective` |
| `SegmentKey.KeyNote` | script.js:141 | the note part of a key is free of the separator, is a prefix of the key, and is followed by the separator whenever it is shorter than the key |
| `SegmentKey.KeyRing` | script.js:102-110 | a key without a separator has no ring part and gives no ring; for keys the program builds the ring comes back exactly (`KeyRoundTrip`) |
| `SegmentKey.KeyRoundTrip` | script.js:164 | a key built from a separator-free note and a ring splits into exactly the note and the ring text; its note part is the note and its ring part parses to the ring |
| `SegmentKey.KeyInjective` | script.js:165 | two keys are equal exactly when their notes and rings are, so `includes` picks out exactly the written segments |
| `SegmentKey.Keys` | script.js:559 | `notes.map(...)` gives one key per note, in order, each on the given ring |
| `SegmentKey.NoteNameSeparatorFree` | script.js:18 | none of the twelve note names contains the key separator, so every key built from one decodes back to it |
| `SegmentKey.CurrentChordNotes` | script.js:136-146 | one entry per highlighted key, in order and with repeats; each entry is that key's note part; an empty list gives an empty result |
| `SegmentKey.NoteNamesSeparatorFree` | script.js:18 | a list made only of wheel note names has no name containing the separator |
| `SegmentKey.KeysNotesRoundTrip` | script.js:1240 | reading the note parts of a chord's keys gives back the chord's notes, and each ring part gives back the ring |
| `Geometry.Principal` | script.js:1333 | `atan2` reports the one representative of a direction that lies in (-1/2, 1/2] turn and differs from it by whole turns |
| `Geometry.CenterRadius` | script.js:151 | `maxRadius * 0.2`: for a positive radius the centre disc lies strictly inside the wheel |
| `Geometry.RingWidth` | script.js:152-153 | the four rings exactly fill the space between the centre disc and `maxRadius`, and each has positive width |
| `Geometry.RingInner` | script.js:155-156 | ring 0 starts at the centre disc (0.2·maxRadius) |
| `Geometry.RingOuter` | script.js:155-157 | each ring ends exactly where the next begins, and the outer edge of ring 3 is `maxRadius` |
| `Geometry.WedgeStart` | script.js:160 | wedge 0 starts at the top (−¼ turn), and the twelve wedges start within one turn of it |
| `Geometry.WedgeEnd` | script.js:161 | each wedge ends exactly where the next starts, and the last ends one full turn after the first starts, so the wedges tile the circle |
| `Geometry.PrincipalUnique` | script.js:1333 | that representative is unique |
| `Geometry.NormalizedTurns` | script.js:1333-1334 | the normalised angle lies in [0, 1) turn and is the atan2 angle plus 1/4 turn, or plus 1 1/4 turns when negative |
| `Geometry.Locate` | script.js:1336-1342 | a point hits a segment exactly when 0.2·maxRadius ≤ distance ≤ maxRadius; a hit has a note index in 0..11 and a ring in 0..4; the ring is 4 exactly when the distance equals maxRadius |
| `Geometry.RingRange` | script.js:1338-1341 | inside the band the ring index lies in 0..4, and only the rim itself gives 4 |
| `Geometry.RingBounds` | script.js:1341 | the ring index computed from a distance is `r` exactly when the distance lies between the drawn inner and outer radius of ring `r` |
| `Geometry.AngleInWedge` | script.js:1342 | a polar angle inside the drawn wedge of note `i` comes back as note index `i` |
| `Geometry.DrawnSegmentHits` | script.js:151-161 | every point of the drawn segment of note `i`, ring `r` (r in 0..3) maps back to note `i`, ring `r` |
| `Geometry.HitLiesInDrawnSegment` | script.js:1338-1342 | conversely, a hit on note `i` in a drawn ring `r` lies inside that ring's drawn bounds, at an angle inside wedge `i` that represents the pointer's direction |
| `Geometry.WedgeCentreRoundTrip` | script.js:151-161 | the centre of every drawn segment maps back to its own note and ring |
| `Interaction.Hover` | script.js:1338-1368 | the hover is set exactly inside the ring band, and then holds a wheel note name and a ring in 0..4; elsewhere it is cleared |
| `Interaction.HoverShowsSegment` | script.js:1344-1354 | hovering anywhere over the drawn segment of note `i` in ring `r` shows that note and ring, and the pitch sounds `i` semitones above C in octave r + 3 |
| `Interaction.HandleTouch` | script.js:1375-1432 | a touch within 150 ms of the last accepted one changes nothing; an accepted touch becomes the last one even when it misses; events are started exactly for an accepted touch inside the band |
| `Interaction.FirstTouchAccepted` | script.js:1372-1383 | with `lastTouchTime` still 0 a touch is accepted exactly when its clock reading is at least 150, and it then becomes the last accepted time |
| `Interaction.HandleTouches` | script.js:1375-1383 | running `handleCanvasTouch` over a run leaves the start state or one of the run's times, at least 150 ms after the start; `HandleTouchesDebounce` equates it with `DebounceState` |
| `Interaction.HandleTouchesDebounce` | script.js:1375-1383 | running `handleCanvasTouch` over a run of touches leaves the same last accepted time as the debounce alone: the pointer never influences it |
| `Interaction.ClickEvents` | script.js:1414-1430 | a click's events run in time order, between the click and the 500 ms clear; its highlight window is stated by `ClickWindow` |
| `Interaction.ClickWindow` | script.js:1414-1430 | a click's highlight is untouched before the click, is exactly its own key for 500 ms, and is empty from then on; one tone is requested |
| `Interaction.TouchHighlightWindow` | script.js:1399-1430 | an accepted touch on a segment lights exactly that segment's key for 500 ms; the key decodes to the note and ring under the pointer; the tone is played at octave ring + 3 for 500 ms at volume 0.3 |
| `Interaction.MissStillBlocks` | script.js:1380-1383 | an accepted touch outside the band plays nothing but still blocks every touch in the next 150 ms |
| `Interaction.DebounceState` | script.js:1372-1383 | the `lastTouchTime` after a run is the starting value or one of the run's times, at least 150 ms later; `AcceptedTimes` and `DebounceSpacing` say which time |
| `Interaction.AcceptedTimes` | script.js:1380-1383 | the accepted times are a subsequence of the run, in order; with none accepted the state is unchanged, and otherwise the state is the last accepted time |
| `Interaction.SubsequenceMembers` | script.js:1380-1383 | every element of a subsequence occurs in the whole sequence |
| `Interaction.AcceptedTimesInRun` | script.js:1380-1383 | every accepted time is the time of one of the run's touches |
| `Interaction.AcceptedTimesFront` | script.js:1380-1383 | an accepted first touch heads the accepted times, and the rest are judged against it |
| `Interaction.DebounceSpacing` | script.js:1372-1383 | over any run of touches, accepted ones are at least 150 ms after the starting state and after each other; the final state is the last accepted touch, or the initial one if none was accepted |
| `Interaction.SpacedTouchesAccepted` | script.js:1380-1383 | a run of touches every two of which are at least 150 ms apart, the first 150 ms after the last accepted one, is accepted in full |
| `Interaction.ConsecutiveSpacing` | script.js:1380-1383 | spacing each touch 150 ms after the one before spaces every pair of touches that far apart, so consecutive spacing suffices for `SpacedTouchesAccepted` |
| `Playback.VisualRing` | script.js:1252 | octaves 3..6 show on rings 0..3; lower octaves stick to ring 0 and higher ones to ring 3 |
| `Playback.VisualRingOfAudioOctave` | script.js:1239 | the octave a drawn ring plays (ring + 3) maps back to that ring |
| `Playback.Tones` | script.js:1216-1221 | one tone per chord note, in note order, all at the same moment and with the chord's octave, duration and volume |
| `Playback.TonesFacts` | script.js:1216-1221 | a chord's tones are exactly as many as its notes, request tones only, and all fall at the same moment |
| `Playback.PlayChord` | script.js:1214-1222 | `playChord` called at `now` requests every note at `now + delay` with the given octave, duration and volume |
| `Playback.CursorIncreases` | script.js:1273 | each later step's cursor is at least one 50 ms gap after an earlier one, even for zero durations, so melody callbacks strictly increase |
| `Playback.Cursor` | script.js:1273 | the cursor before step `i` is at least `i` gaps of 50 ms: every earlier step adds its duration plus the gap |
| `Playback.StepHighlight` | script.js:1255-1262 | a step lights one key per chord note followed by the melody key, the melody key last |
| `Playback.Schedule` | script.js:1225-1284 | one call's timeline: the clear, the steps, the cleanup 200 ms after the last cursor; its order, tones and highlight windows are stated by `ScheduleShape`, `ScheduleTones`, `ClearedAtStart`, `MelodyHighlightWindow` and `ClearedAfterCleanup` |
| `Playback.MelodyWithChords` | script.js:1225-1284 | `playMelodyWithChords` as the chord-accompanied schedule; its properties are the `Schedule` lemmas listed here and `TwoNoteExample` |
| `Playback.Melody` | script.js:1287-1324 | `playMelody` as the plain schedule without chords; its properties are stated by `NoChordTones`, `MelodyShape`, `MelodyNoteHighlight`, `MelodyTones` and `PlainTwoNoteExample` |
| `Playback.ChordEvents` | script.js:1234-1243 | a chord callback runs entirely at its cursor: the chord-key highlight first, then one tone per chord note; no chord gives no events. Order and tone count are stated by `ChordEventsFacts` |
| `Playback.MelodyCallback` | script.js:1247-1269 | a melody callback is two events at the cursor plus the style's offset: the tone of its own note, then a highlight whose last key is the melody key |
| `Playback.ChordEventsFacts` | script.js:1234-1243 | a chord callback runs entirely at its cursor and requests one tone per chord note (none without a chord) |
| `Playback.StepEventsFacts` | script.js:1232-1269 | one step's callbacks run in time order, from the step's first callback to its melody callback; they request one melody tone plus the chord's notes |
| `Playback.StepBlockOrdered` | script.js:1232-1269 | a step's events run in time order inside its own window, which starts no later than it ends |
| `Playback.StepsChained` | script.js:1232-1274 | each step runs within its own window, and each window ends no later than the next one starts |
| `Playback.StepsOrdered` | script.js:1232-1269 | every step of a call runs in time order inside its own window |
| `Playback.StepWindowsFollow` | script.js:1232-1274 | each step's window ends no later than the next step's window starts |
| `Playback.StepWindowBefore` | script.js:1269-1273 | step `i`'s melody callback comes no later than the first callback of step `i + 1`, because the cursor advances by the duration plus the 50 ms gap |
| `Playback.LaterSteps` | script.js:1232-1274 | the steps from any `k` on run in time order, after step `k` starts and no later than the final cursor |
| `Playback.StepsToneCount` | script.js:1232-1274 | the first `k` steps request `k` melody tones plus every chord note of those steps |
| `Playback.WholeSteps` | script.js:1232-1274 | all steps of a call run in time order between the call and the final cursor, with one melody tone per step plus every chord tone |
| `Playback.TimelineAroundStep` | script.js:1226-1283 | a call's timeline is the clear and the earlier steps, then step `i`, then the later steps and the cleanup |
| `Playback.ScheduleShape` | script.js:1225-1284 | a melody call's events run in time order; the cleanup is last and strictly after every other event; exactly one tone per melody note plus one per chord note is requested |
| `Playback.ScheduleTones` | script.js:1236-1249 | every melody note is requested at its melody callback at the call's melody volume, and every chord note at its step's cursor at volume 0.12 |
| `Playback.StepMelodyTone` | script.js:1248-1249 | a step's melody callback requests its note |
| `Playback.StepChordTone` | script.js:1236 | a step's chord callback requests each of its chord's notes |
| `Playback.InStep` | script.js:1232-1274 | every event of a step is an event of the call |
| `Playback.ClearedAtStart` | script.js:1227 | the highlight is cleared as soon as the call is made and stays clear until the first callback (or, with no notes, the cleanup) |
| `Playback.UntouchedBeforeCall` | script.js:1225-1227 | before the call its timeline has changed nothing |
| `Playback.SuffixFacts` | script.js:1232-1283 | everything after step `i` happens no earlier than the moment step `i`'s highlight is replaced |
| `Playback.ChordHighlightWindow` | script.js:1241 | between a step's chord callback and its melody callback, the highlight is exactly the chord's keys |
| `Playback.MelodyHighlightWindow` | script.js:1255-1262 | from a step's melody callback until the next overwrite, the highlight is the chord keys followed by the melody key, duplicates kept; it is the melody key alone when the chord list, or that entry, is missing or the list is too short |
| `Playback.ClearedAfterCleanup` | script.js:1277-1283 | from the cleanup on the highlight is empty |
| `Playback.StepRingsDrawn` | script.js:1239-1261 | every key one step writes decodes to a drawn ring 0..3 |
| `Playback.HighlightRingsDrawn` | script.js:1239-1261 | every key a whole call writes decodes to a drawn ring 0..3 |
| `Playback.NoChordTones` | script.js:1287-1324 | without chords no accompaniment tone is counted |
| `Playback.MelodyShape` | script.js:1287-1324 | `playMelody`'s events run in time order, the cleanup is last, and exactly one tone per note is requested |
| `Playback.MelodyNoteHighlight` | script.js:1296-1313 | `playMelody` lights note `i` alone from its cursor until the next note's cursor, or after the last note until the cleanup |
| `Playback.MelodyTones` | script.js:1297-1298 | `playMelody` requests note `i` at its cursor at volume 0.25 |
| `Playback.TwoNoteExample` | script.js:1225-1283 | two 400 ms notes without chords: tones at 50 and 500 ms, each followed by its single-key highlight, cleanup at 1100 ms |
| `Playback.PlainTwoNoteExample` | script.js:1287-1323 | the same notes through `playMelody`: tones at 0 and 450 ms, cleanup at 1100 ms |
| `Playback.GlissandoFrame` | script.js:1184-1202 | past frame 35 the highlight is cleared; otherwise it holds the frame's note on the three rings r, r+1, r+2 (r = frame div 12); every key decodes to that note and to a ring of at most 4 |
| `Playback.RingKeys` | script.js:1199-1202 | the loop over rings `first..last` builds one key per ring in ring order, each decoding back to the frame's note and its ring |
| `Presets.PlayChordType` | script.js:547-553 | an unknown chord name gives exactly the logged message and no timeline; a known one gives a timeline |
| `Presets.ChordTimeline` | script.js:555-579 | a chord's events run in time order from the call to the clear at 1500 ms, which comes last, and request one tone per chord note |
| `Presets.PlayScaleType` | script.js:583-589 | an unknown scale name gives exactly the logged message and no timeline; a known one gives a timeline |
| `Presets.ScaleStep` | script.js:600-621 | one scale note's events: the tone and its single key at 200·i ms, and after the last note the clear; order and tone count are stated by `ScaleStepFacts` |
| `Presets.ScaleFrom` | script.js:600-623 | the events of notes `i` onward; their order, tones and highlight windows are stated by `ScaleFromFacts`, `ScaleWindowFrom`, `ScaleClearedFrom` and `ScaleToneFrom` |
| `Presets.TablesUseNoteNames` | script.js:449-544 | every note of both tables is one of the twelve wheel names |
| `Presets.ChordTableUsesNoteNames` | script.js:449-500 | every note of the chord table is a wheel name |
| `Presets.ScaleTableUsesNoteNames` | script.js:503-544 | every note of the scale table is a wheel name |
| `Presets.ChordTypeTimeline` | script.js:555-579 | a known chord leaves the highlight untouched before the call; from the call until 1500 ms it lights exactly its notes on ring 1, each key decoding to its note and ring; afterwards it is clear; one tone per note at octave 4 for 1500 ms at volume 0.2 |
| `Presets.ChordTimelineFacts` | script.js:555-579 | for any chord: the highlight is untouched before the call, lights exactly the chord's keys until 1500 ms and is empty after, and every note is requested at the call |
| `Presets.ScaleStepFacts` | script.js:600-621 | one scale note's events run in time order at 200·i ms (its clear 300 ms later) and request one tone |
| `Presets.ScaleFromFacts` | script.js:600-623 | the notes from `i` on run in time order from 200·i ms and request one tone each |
| `Presets.ScaleWindowFrom` | script.js:606 | from note `i`'s moment until the next note (or the clear), the highlight is that note alone on ring 1 |
| `Presets.ScaleClearedFrom` | script.js:612-619 | from 200·(n-1) + 300 ms on the highlight is empty |
| `Presets.ScaleTypeTimeline` | script.js:591-623 | a known scale's events run in time order and leave the highlight untouched before the call; note `i` is requested at 200·i ms and lit alone on ring 1 until the next note, or for 300 ms after the last; then the highlight is clear; one tone per note |
| `Presets.ScaleToneFrom` | script.js:602-603 | note `i` of the scale is requested at 200·i ms at octave 4 for 300 ms |

## Left out

- Canvas rendering and colour: `drawWheel`'s fills, strokes and gradients, `noteToHue`, `hslToRgb`, `rgbToHsl` and `blendChordColors`. They only affect the view and use floating point with `log`, `pow` and rounding.
- Web Audio: `initAudio`, the oscillator and gain envelope of `playNote`, and the frequency ramp of `playGlissando`. These are calls into the browser. A requested tone is recorded as a `PlayTone` event instead.
- The exponential `440 * 2^(halfSteps/12)`. Only its integer exponent is modelled, because the frequency is floating point.
- The A-weighting formula of `getEqualLoudnessVolume`, which uses floating point and a square root. The weight is a non-negative parameter, and only the clamp and the scaling are modelled.
- Floating point in the pointer mapping. Reals here are exact, so rounding near a wedge or ring edge is not modelled.
- `Math.atan2` and `Math.sqrt` are not computed. A pointer is given by its distance and its atan2 angle in turns.
- The canvas-to-centre coordinate transform is left out, and so is the case `maxRadius ≤ 0`. The model requires a positive radius, since a zero radius would make the ring index NaN.
- Timers, `Date.now` and the interleaving of callbacks from different calls. Time is an explicit integer, and each call is its own timeline.
- The glissando's `setInterval` timing and its step interval. Only one frame's highlight is modelled.
- Ring 4 in the glissando. Frames 24..35 write a key on ring 4, which `drawWheel` never draws. The model states this bound (at most 4) rather than 0..3.
- The hover handler's and click handler's DOM text and colour updates, `showTab`, the menu toggles, event-listener registration and canvas resizing. They only affect the page.
- The literal song tables. The melody players are modelled for every input instead.
- Chord recognition and multi-touch tracking. The program does not do either.
- Playback.HighlightRingsDrawn: requires the note names to be free of `-`. A name containing `-` would make `split('-')` read a different ring text. The ring each key is built with is always 0..3, as `Playback.VisualRing` states for any name.
- Presets.PlayChordType: a name inherited from the object prototype (such as `toString`) is treated as unknown. In the program the lookup finds an inherited value, `chord.notes` reads `undefined`, and `chordNotes.map` then throws a `TypeError` (script.js:555-559) before anything is lit or played.
- Presets.PlayScaleType: a name inherited from the object prototype is treated as unknown. In the program the page first shows "Starting " followed by the inherited value's `name`, and then `scaleNotes.forEach` throws on `undefined` (script.js:596-600).
- SegmentKey.ParseRing: only a non-empty run of decimal digits reads as a ring. Text that `Number` would also accept, such as signs, surrounding spaces, decimals, hexadecimal or exponents, gives None here. The program only ever writes digit runs as ring parts.
- Playback.Cursor: note and chord durations are natural numbers, while the program accepts any JavaScript number. Every song table passes positive integer durations, so fractional or negative ones are not modelled.
- SegmentKey.KeyRing: a key with an empty ring part gives no ring. `Number('')` would give 0, but no key the program builds has an empty ring part.
- Interaction.HandleTouch: the touch position comes from `e.touches[0]` or the mouse event. Only the resulting distance and angle are modelled.
