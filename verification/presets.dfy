/** The preset players: `playChordType` (script.js:547-580) and
    `playScaleType` (script.js:583-624) over the lookup tables
    `CHORD_DEFINITIONS` (script.js:449-500) and `SCALE_DEFINITIONS`
    (script.js:503-544). A known name yields a timeline; an unknown one
    yields the message the program logs and nothing else happens. */
module Presets {
  import opened Wrappers
  import opened SegmentKey
  import opened Timeline
  import Pitch
  import Playback

  /** One table entry: the notes, plus the title and subtitle it shows. */
  datatype Preset = Preset(notes: seq<string>, name: string, description: string)

  const ChordDefinitions: map<string, Preset> := map[
    "major" := Preset(["C", "E", "G"], "C Major", "C - E - G (Happy chord)"),
    "minor" := Preset(["C", "D#", "G"], "C Minor", "C - E\U{266D} - G (Sad chord)"),
    "diminished" := Preset(["C", "D#", "F#"], "C Diminished", "C - E\U{266D} - G\U{266D} (Tense chord)"),
    "augmented" := Preset(["C", "E", "G#"], "C Augmented", "C - E - G# (Mysterious chord)"),
    "maj7" := Preset(["C", "E", "G", "B"], "C Major 7th", "C - E - G - B (Jazzy chord)"),
    "min7" := Preset(["C", "D#", "G", "A#"], "C Minor 7th", "C - E\U{266D} - G - B\U{266D} (Smooth chord)"),
    "dom7" := Preset(["C", "E", "G", "A#"], "C Dominant 7th", "C - E - G - B\U{266D} (Bluesy chord)"),
    "sus2" := Preset(["C", "D", "G"], "C Suspended 2nd", "C - D - G (Floating chord)"),
    "sus4" := Preset(["C", "F", "G"], "C Suspended 4th", "C - F - G (Unresolved chord)"),
    "add9" := Preset(["C", "E", "G", "D"], "C Add 9", "C - E - G - D (Colorful chord)")
  ]

  const ScaleDefinitions: map<string, Preset> := map[
    "chromatic" := Preset(["C", "C#", "D", "D#", "E", "F", "F#", "G", "G#", "A", "A#", "B"],
                          "Chromatic Scale", "All 12 semitones"),
    "major" := Preset(["C", "D", "E", "F", "G", "A", "B"], "C Major Scale", "Do-Re-Mi-Fa-Sol-La-Ti (Happy scale)"),
    "minor" := Preset(["C", "D", "D#", "F", "G", "G#", "A#"], "C Minor Scale", "Natural minor (Sad scale)"),
    "pentatonic" := Preset(["C", "D", "E", "G", "A"], "C Pentatonic Scale", "5-note scale (Universal scale)"),
    "harmonic" := Preset(["C", "D", "D#", "F", "G", "G#", "B"], "C Harmonic Minor", "Exotic scale with augmented 2nd"),
    "chromatic_desc" := Preset(["C", "B", "A#", "A", "G#", "G", "F#", "F", "E", "D#", "D", "C#"],
                               "Chromatic Descending", "All 12 semitones descending"),
    "blues" := Preset(["C", "D#", "F", "F#", "G", "A#"], "C Blues Scale", "Minor pentatonic + blue note"),
    "wholetone" := Preset(["C", "D", "E", "F#", "G#", "A#"], "C Whole Tone Scale", "Dreamy impressionist scale")
  ]

  /** Presets sound in octave 4, which the wheel draws as ring 1. */
  const PresetOctave: int := 4
  const PresetRing: nat := 1
  const ChordDurationMs: nat := 1500
  const ChordVolume: real := 0.2
  /** The chord's highlight is cleared this long after the call. */
  const ChordClearMs: nat := 1500
  const ScaleNoteDelayMs: nat := 200
  const ScaleNoteDurationMs: nat := 300
  /** `playNote`'s default volume, used by the scale notes. */
  const DefaultVolume: real := 0.3
  /** The last scale note's callback clears the highlight this much later. */
  const ScaleClearDelayMs: nat := 300

  /** Every note of every preset is one of the twelve wheel names. */
  predicate UsesNoteNames(table: map<string, Preset>) {
    forall name :: name in table ==> forall k :: 0 <= k < |table[name].notes| ==> Pitch.IsNoteName(table[name].notes[k])
  }

  /** The timeline of a known chord: highlight its notes on ring 1, play
      them all at once, clear 1500 ms later. */
  function ChordTimeline(chordNotes: seq<string>): (tl: seq<Event>)
    ensures Sorted(tl) && AllFrom(tl, 0) && AllUntil(tl, ChordClearMs)
    ensures |tl| > 0 && tl[|tl| - 1] == Event(ChordClearMs, Cleanup)
    ensures ToneCount(tl) == |chordNotes|
  {
    var open := Event(0, SetHighlight(Keys(chordNotes, PresetRing)));
    var tones := Playback.Tones(0, chordNotes, PresetOctave, ChordDurationMs, ChordVolume);
    var close := Event(ChordClearMs, Cleanup);
    Playback.TonesFacts(0, chordNotes, PresetOctave, ChordDurationMs, ChordVolume);
    Framed(open, tones, close, 0);
    ToneCountConcat([open], tones);
    ToneCountConcat([open] + tones, [close]);
    [open] + tones + [close]
  }

  /** `playChordType(chordType)`. */
  function PlayChordType(chordType: string): (r: Result<seq<Event>, string>)
    ensures r.Failure? <==> chordType !in ChordDefinitions
    ensures r.Failure? ==> r.error == "Unknown chord type: " + chordType
  {
    if chordType in ChordDefinitions then Success(ChordTimeline(ChordDefinitions[chordType].notes))
    else Failure("Unknown chord type: " + chordType)
  }

  /** The events of scale note `i`: the tone and the single-key highlight
      at 200·i ms, and after the last note the clear 300 ms later. */
  function ScaleStep(scaleNotes: seq<string>, i: nat): seq<Event>
    requires i < |scaleNotes|
  {
    var at := ScaleNoteDelayMs * i;
    [Event(at, PlayTone(scaleNotes[i], PresetOctave, ScaleNoteDurationMs, DefaultVolume)),
     Event(at, SetHighlight([Key(scaleNotes[i], PresetRing)]))]
    + (if i + 1 == |scaleNotes| then [Event(at + ScaleClearDelayMs, Cleanup)] else [])
  }

  /** The events of scale notes `i` onward. */
  function ScaleFrom(scaleNotes: seq<string>, i: nat): seq<Event>
    requires i <= |scaleNotes|
    decreases |scaleNotes| - i
  {
    if i == |scaleNotes| then [] else ScaleStep(scaleNotes, i) + ScaleFrom(scaleNotes, i + 1)
  }

  /** `playScaleType(scaleType)`. */
  function PlayScaleType(scaleType: string): (r: Result<seq<Event>, string>)
    ensures r.Failure? <==> scaleType !in ScaleDefinitions
    ensures r.Failure? ==> r.error == "Unknown scale type: " + scaleType
  {
    if scaleType in ScaleDefinitions then Success(ScaleFrom(ScaleDefinitions[scaleType].notes, 0))
    else Failure("Unknown scale type: " + scaleType)
  }

  /** Both tables name only wheel notes, so every key they light decodes
      back to its note and to ring 1. */
  lemma TablesUseNoteNames()
    ensures UsesNoteNames(ChordDefinitions) && UsesNoteNames(ScaleDefinitions)
  {
    ChordTableUsesNoteNames();
    ScaleTableUsesNoteNames();
  }

  lemma ChordTableUsesNoteNames()
    ensures UsesNoteNames(ChordDefinitions)
  {
    assert Pitch.NoteNames == ["C", "C#", "D", "D#", "E", "F", "F#", "G", "G#", "A", "A#", "B"];
  }

  lemma ScaleTableUsesNoteNames()
    ensures UsesNoteNames(ScaleDefinitions)
  {
    assert Pitch.NoteNames == ["C", "C#", "D", "D#", "E", "F", "F#", "G", "G#", "A", "A#", "B"];
  }

  /** A known chord: before the call the highlight is untouched; from the
      call until 1500 ms it lights exactly the chord's notes on ring 1,
      each key decoding back to its note and ring; afterwards it is clear.
      One tone per chord note is requested, at octave 4 for 1500 ms. */
  lemma ChordTypeTimeline(chordType: string, x: int, h: seq<string>)
    requires chordType in ChordDefinitions
    ensures var tl := PlayChordType(chordType).value;
      var chordNotes := ChordDefinitions[chordType].notes;
      && (x < 0 ==> HighlightAt(tl, x, h) == h)
      && (0 <= x < ChordClearMs ==> HighlightAt(tl, x, h) == Keys(chordNotes, PresetRing))
      && (ChordClearMs <= x ==> HighlightAt(tl, x, h) == [])
      && ToneCount(tl) == |chordNotes|
      && (forall k :: 0 <= k < |chordNotes| ==>
            Event(0, PlayTone(chordNotes[k], PresetOctave, ChordDurationMs, ChordVolume)) in tl)
      && (forall k :: 0 <= k < |chordNotes| ==>
            KeyNote(Keys(chordNotes, PresetRing)[k]) == chordNotes[k]
            && KeyRing(Keys(chordNotes, PresetRing)[k]) == Some(PresetRing))
  {
    var chordNotes := ChordDefinitions[chordType].notes;
    TablesUseNoteNames();
    ChordTimelineFacts(chordNotes, x, h);
    NoteNamesSeparatorFree(chordNotes);
    KeysNotesRoundTrip(chordNotes, PresetRing);
  }

  /** The timeline of any chord, as stated for the table's chords above:
      its highlight window and the tones it requests. */
  lemma ChordTimelineFacts(chordNotes: seq<string>, x: int, h: seq<string>)
    ensures var tl := ChordTimeline(chordNotes);
      && (x < 0 ==> HighlightAt(tl, x, h) == h)
      && (0 <= x < ChordClearMs ==> HighlightAt(tl, x, h) == Keys(chordNotes, PresetRing))
      && (ChordClearMs <= x ==> HighlightAt(tl, x, h) == [])
      && (forall k :: 0 <= k < |chordNotes| ==>
            Event(0, PlayTone(chordNotes[k], PresetOctave, ChordDurationMs, ChordVolume)) in tl)
  {
    var head := [Event(0, SetHighlight(Keys(chordNotes, PresetRing)))];
    var tones := Playback.Tones(0, chordNotes, PresetOctave, ChordDurationMs, ChordVolume);
    var last := [Event(ChordClearMs, Cleanup)];
    var tl := head + tones + last;
    assert ChordTimeline(chordNotes) == tl;
    Playback.TonesFacts(0, chordNotes, PresetOctave, ChordDurationMs, ChordVolume);
    HighlightAtConcat(head + tones, last, x, h);
    HighlightAtConcat(head, tones, x, h);
    HighlightAtTonesOnly(tones, x, HighlightAt(head, x, h));
    if x < 0 {
      HighlightAtBeforeAll(head, x, h);
      HighlightAtBeforeAll(last, x, h);
    } else if x < ChordClearMs {
      HighlightAtBeforeAll(last, x, Keys(chordNotes, PresetRing));
    }
    assert forall k :: 0 <= k < |tones| ==> tones[k] in tl;
  }

  /** The events of one scale note are in time order and request one tone. */
  lemma ScaleStepFacts(scaleNotes: seq<string>, i: nat)
    requires i < |scaleNotes|
    ensures var step := ScaleStep(scaleNotes, i);
      var at := ScaleNoteDelayMs * i;
      && Sorted(step) && AllFrom(step, at)
      && AllUntil(step, if i + 1 == |scaleNotes| then at + ScaleClearDelayMs else at)
      && ToneCount(step) == 1
  {
    var step := ScaleStep(scaleNotes, i);
    var at := ScaleNoteDelayMs * i;
    var tone := Event(at, PlayTone(scaleNotes[i], PresetOctave, ScaleNoteDurationMs, DefaultVolume));
    var hl := Event(at, SetHighlight([Key(scaleNotes[i], PresetRing)]));
    var tail: seq<Event> := if i + 1 == |scaleNotes| then [Event(at + ScaleClearDelayMs, Cleanup)] else [];
    assert step == [tone] + ([hl] + tail);
    assert ToneCount(tail) == 0;
    ToneCountConcat([hl], tail);
    ToneCountConcat([tone], [hl] + tail);
  }

  /** The notes from `i` on run in time order from 200·i ms and request one
      tone each. */
  lemma {:induction false} ScaleFromFacts(scaleNotes: seq<string>, i: nat)
    requires i <= |scaleNotes|
    ensures AllFrom(ScaleFrom(scaleNotes, i), ScaleNoteDelayMs * i)
    ensures Sorted(ScaleFrom(scaleNotes, i))
    ensures ToneCount(ScaleFrom(scaleNotes, i)) == |scaleNotes| - i
    decreases |scaleNotes| - i
  {
    if i < |scaleNotes| {
      var step := ScaleStep(scaleNotes, i);
      var rest := ScaleFrom(scaleNotes, i + 1);
      var at := ScaleNoteDelayMs * i;
      assert ScaleFrom(scaleNotes, i) == step + rest;
      ScaleStepFacts(scaleNotes, i);
      ScaleFromFacts(scaleNotes, i + 1);
      if i + 1 == |scaleNotes| {
        assert rest == [];
        SortedConcat(step, rest, at + ScaleClearDelayMs);
      } else {
        AllFromWeaken(rest, at, ScaleNoteDelayMs * (i + 1));
        SortedConcat(step, rest, at);
      }
      ToneCountConcat(step, rest);
    }
  }

  /** When the highlight of scale note `i` is replaced: by the next note,
      or after the last note by the clear. */
  function ScaleHeldUntil(scaleNotes: seq<string>, i: nat): int
    requires i < |scaleNotes|
  {
    if i + 1 == |scaleNotes| then ScaleNoteDelayMs * i + ScaleClearDelayMs else ScaleNoteDelayMs * (i + 1)
  }

  lemma {:induction false} ScaleWindowFrom(scaleNotes: seq<string>, j: nat, i: nat, x: int, h: seq<string>)
    requires j <= i < |scaleNotes|
    requires ScaleNoteDelayMs * i <= x < ScaleHeldUntil(scaleNotes, i)
    ensures HighlightAt(ScaleFrom(scaleNotes, j), x, h) == [Key(scaleNotes[i], PresetRing)]
    decreases i - j
  {
    var step := ScaleStep(scaleNotes, j);
    var rest := ScaleFrom(scaleNotes, j + 1);
    assert ScaleFrom(scaleNotes, j) == step + rest;
    HighlightAtConcat(step, rest, x, h);
    if j < i {
      ScaleWindowFrom(scaleNotes, j + 1, i, x, HighlightAt(step, x, h));
    } else {
      var at := ScaleNoteDelayMs * i;
      var keys := [Key(scaleNotes[i], PresetRing)];
      var tone := Event(at, PlayTone(scaleNotes[i], PresetOctave, ScaleNoteDurationMs, DefaultVolume));
      var tail: seq<Event> := if i + 1 == |scaleNotes| then [Event(at + ScaleClearDelayMs, Cleanup)] else [];
      assert step == ([tone] + [Event(at, SetHighlight(keys))]) + tail;
      HighlightAtConcat([tone] + [Event(at, SetHighlight(keys))], tail, x, h);
      HighlightAtEndsWith([tone], at, keys, x, h);
      HighlightAtBeforeAll(tail, x, keys);
      ScaleFromFacts(scaleNotes, j + 1);
      HighlightAtBeforeAll(rest, x, keys);
    }
  }

  lemma {:induction false} ScaleClearedFrom(scaleNotes: seq<string>, j: nat, x: int, h: seq<string>)
    requires j < |scaleNotes|
    requires ScaleNoteDelayMs * (|scaleNotes| - 1) + ScaleClearDelayMs <= x
    ensures HighlightAt(ScaleFrom(scaleNotes, j), x, h) == []
    decreases |scaleNotes| - j
  {
    var step := ScaleStep(scaleNotes, j);
    var rest := ScaleFrom(scaleNotes, j + 1);
    assert ScaleFrom(scaleNotes, j) == step + rest;
    HighlightAtConcat(step, rest, x, h);
    if j + 1 < |scaleNotes| {
      ScaleClearedFrom(scaleNotes, j + 1, x, HighlightAt(step, x, h));
    } else {
      var at := ScaleNoteDelayMs * j;
      assert step == step[..2] + [Event(at + ScaleClearDelayMs, Cleanup)];
      HighlightAtConcat(step[..2], [Event(at + ScaleClearDelayMs, Cleanup)], x, h);
      assert rest == [];
    }
  }

  /** A known scale: before the call the highlight is untouched; from note
      i's moment 200·i ms until the next note (or, after the last note,
      for 300 ms) exactly that note is lit on ring 1; afterwards the
      highlight is clear. Events run in time order and one tone per note
      is requested, note i at 200·i ms. */
  lemma ScaleTypeTimeline(scaleType: string, x: int, h: seq<string>)
    requires scaleType in ScaleDefinitions
    ensures var tl := PlayScaleType(scaleType).value;
      var scaleNotes := ScaleDefinitions[scaleType].notes;
      && Sorted(tl)
      && ToneCount(tl) == |scaleNotes|
      && (x < 0 ==> HighlightAt(tl, x, h) == h)
      && (forall i :: 0 <= i < |scaleNotes| && ScaleNoteDelayMs * i <= x < ScaleHeldUntil(scaleNotes, i) ==>
            HighlightAt(tl, x, h) == [Key(scaleNotes[i], PresetRing)])
      && (ScaleNoteDelayMs * (|scaleNotes| - 1) + ScaleClearDelayMs <= x ==> HighlightAt(tl, x, h) == [])
      && (forall i :: 0 <= i < |scaleNotes| ==>
            Event(ScaleNoteDelayMs * i, PlayTone(scaleNotes[i], PresetOctave, ScaleNoteDurationMs, DefaultVolume)) in tl)
  {
    var scaleNotes := ScaleDefinitions[scaleType].notes;
    var tl := ScaleFrom(scaleNotes, 0);
    assert PlayScaleType(scaleType).value == tl;
    ScaleFromFacts(scaleNotes, 0);
    if x < 0 {
      HighlightAtBeforeAll(tl, x, h);
    }
    forall i | 0 <= i < |scaleNotes| && ScaleNoteDelayMs * i <= x < ScaleHeldUntil(scaleNotes, i)
      ensures HighlightAt(tl, x, h) == [Key(scaleNotes[i], PresetRing)]
    {
      ScaleWindowFrom(scaleNotes, 0, i, x, h);
    }
    assert |scaleNotes| > 0;
    if ScaleNoteDelayMs * (|scaleNotes| - 1) + ScaleClearDelayMs <= x {
      ScaleClearedFrom(scaleNotes, 0, x, h);
    }
    forall i | 0 <= i < |scaleNotes|
      ensures Event(ScaleNoteDelayMs * i, PlayTone(scaleNotes[i], PresetOctave, ScaleNoteDurationMs, DefaultVolume)) in tl
    {
      ScaleToneFrom(scaleNotes, 0, i);
    }
  }

  lemma {:induction false} ScaleToneFrom(scaleNotes: seq<string>, j: nat, i: nat)
    requires j <= i < |scaleNotes|
    ensures Event(ScaleNoteDelayMs * i, PlayTone(scaleNotes[i], PresetOctave, ScaleNoteDurationMs, DefaultVolume))
            in ScaleFrom(scaleNotes, j)
    decreases i - j
  {
    var step := ScaleStep(scaleNotes, j);
    var rest := ScaleFrom(scaleNotes, j + 1);
    assert ScaleFrom(scaleNotes, j) == step + rest;
    if j < i {
      ScaleToneFrom(scaleNotes, j + 1, i);
    } else {
      assert step[0] in step;
    }
  }
}
