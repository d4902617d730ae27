/** The playback timelines of the wheel: `playChord` (script.js:1214-1222),
    `playMelodyWithChords` (script.js:1225-1284), the older `playMelody`
    (script.js:1287-1324) and the highlight frame of the glissando
    animation (script.js:1183-1205). Each call becomes a list of
    timestamped events; nothing is cancelled, so overlapping calls are
    independent lists. */
module Playback {
  import opened Wrappers
  import opened SegmentKey
  import opened Timeline
  import Pitch

  /** One melody entry `{note, octave, duration}`. */
  datatype MelodyNote = MelodyNote(note: string, octave: int, duration: nat)

  /** One chord entry `{notes, octave, duration}`. */
  datatype ChordStep = ChordStep(notes: seq<string>, octave: int, duration: nat)

  /** How a melody schedule voices its notes. `playMelodyWithChords` runs
      each melody callback 50 ms after the step's cursor at volume 0.3;
      `playMelody` runs it at the cursor at volume 0.25 and has no chords.
      Both advance the cursor the same way and clean up the same way. */
  datatype Style = Style(melodyOffset: nat, melodyVolume: real)

  /** Pause added after every melody note: `delay += duration + 50`. */
  const GapMs: nat := 50
  /** The melody callback of a step runs this long after its chord callback. */
  const MelodyOffsetMs: nat := 50
  /** The cleanup callback runs this long after the final cursor. */
  const CleanupDelayMs: nat := 200
  const MelodyVolume: real := 0.3
  const AccompanimentVolume: real := 0.12
  const PlainMelodyVolume: real := 0.25
  /** The last drawn ring. */
  const MaxVisualRing: nat := 3

  const WithChords: Style := Style(MelodyOffsetMs, MelodyVolume)
  const Plain: Style := Style(0, PlainMelodyVolume)

  /** The melody callback of a step runs no later than the next step's cursor. */
  predicate ValidStyle(st: Style) {
    st.melodyOffset <= GapMs
  }

  /** `Math.max(0, Math.min(3, octave - 3))`: the ring that shows an audio
      octave. Octaves 3..6 are rings 0..3; lower and higher octaves stick
      to the innermost and outermost ring. */
  function VisualRing(octave: int): (ring: nat)
    ensures ring <= MaxVisualRing
    ensures 3 <= octave <= 6 ==> ring + 3 == octave
    ensures octave < 3 ==> ring == 0
    ensures octave > 6 ==> ring == MaxVisualRing
  {
    var capped := if octave - 3 < 3 then octave - 3 else 3;
    if 0 < capped then capped else 0
  }

  /** The wheel plays ring `r` at octave r + 3; the clamp maps that octave
      back to the same ring. */
  lemma VisualRingOfAudioOctave(ring: nat)
    requires ring <= MaxVisualRing
    ensures VisualRing(ring + 3) == ring
  {
  }

  /** `notes.forEach(note => playNote(noteToFrequency(note, octave), ...))`
      at moment `at`: one tone per note, in order. */
  function Tones(at: int, chordNotes: seq<string>, octave: int, duration: nat, volume: real): (tl: seq<Event>)
    ensures |tl| == |chordNotes|
    ensures forall k :: 0 <= k < |tl| ==> tl[k] == Event(at, PlayTone(chordNotes[k], octave, duration, volume))
    decreases |chordNotes|
  {
    if |chordNotes| == 0 then []
    else [Event(at, PlayTone(chordNotes[0], octave, duration, volume))] + Tones(at, chordNotes[1..], octave, duration, volume)
  }

  /** A chord's tones are tones only, one per note, all at the same moment. */
  lemma {:induction false} TonesFacts(at: int, chordNotes: seq<string>, octave: int, duration: nat, volume: real)
    ensures var tl := Tones(at, chordNotes, octave, duration, volume);
      && ToneCount(tl) == |chordNotes|
      && TonesOnly(tl) && Sorted(tl) && AllFrom(tl, at) && AllUntil(tl, at)
    decreases |chordNotes|
  {
    if |chordNotes| > 0 {
      var head := [Event(at, PlayTone(chordNotes[0], octave, duration, volume))];
      var rest := Tones(at, chordNotes[1..], octave, duration, volume);
      TonesFacts(at, chordNotes[1..], octave, duration, volume);
      assert Tones(at, chordNotes, octave, duration, volume) == head + rest;
      ToneCountConcat(head, rest);
    }
  }

  /** `playChord(notes, octave, duration, volume, delay)` called at `now`:
      one timer per note, all firing at now + delay. */
  function PlayChord(now: int, chordNotes: seq<string>, octave: int, duration: nat, volume: real, delay: nat)
    : (tl: seq<Event>)
    ensures |tl| == |chordNotes|
    ensures forall k :: 0 <= k < |tl| ==> tl[k] == Event(now + delay, PlayTone(chordNotes[k], octave, duration, volume))
  {
    Tones(now + delay, chordNotes, octave, duration, volume)
  }

  /** `chords && chords[i]`: the chord of step `i`, absent when there is no
      chord list, when the list is too short, or when the entry is null. */
  function ChordAt(chords: Option<seq<Option<ChordStep>>>, i: nat): Option<ChordStep> {
    if chords.None? || i >= |chords.value| then None else chords.value[i]
  }

  /** The keys a chord lights: every chord note on the chord's visual ring. */
  function ChordKeys(c: ChordStep): seq<string> {
    Keys(c.notes, VisualRing(c.octave))
  }

  /** The key a melody note lights. */
  function MelodyKey(n: MelodyNote): string {
    Key(n.note, VisualRing(n.octave))
  }

  /** The highlight written by the melody callback of step `i`: the chord's
      keys followed by the melody key, or the melody key alone. */
  function StepHighlight(melody: seq<MelodyNote>, chords: Option<seq<Option<ChordStep>>>, i: nat): (keys: seq<string>)
    requires i < |melody|
    ensures |keys| == ChordSize(ChordAt(chords, i)) + 1
    ensures keys[|keys| - 1] == MelodyKey(melody[i])
  {
    match ChordAt(chords, i)
    case Some(c) => ChordKeys(c) + [MelodyKey(melody[i])]
    case None => [MelodyKey(melody[i])]
  }

  /** The cursor `delay` before step `i`: the durations of the earlier
      notes, each followed by the gap, so at least one gap per earlier note. */
  function Cursor(melody: seq<MelodyNote>, i: nat): (c: int)
    requires i <= |melody|
    ensures c >= GapMs * i
  {
    if i == 0 then 0 else Cursor(melody, i - 1) + melody[i - 1].duration + GapMs
  }

  /** Consecutive steps are at least one gap apart, so the cursor (and with
      it every melody callback) strictly increases, even for zero durations. */
  lemma {:induction false} CursorIncreases(melody: seq<MelodyNote>, i: nat, j: nat)
    requires i < j <= |melody|
    ensures Cursor(melody, i) + GapMs <= Cursor(melody, j)
    decreases j - i
  {
    if j > i + 1 {
      CursorIncreases(melody, i, j - 1);
    }
  }

  /** The chord callback of a step: it asks for the chord tones through
      playChord with delay 0 and overwrites the highlight with the chord
      keys; the tones' zero-delay timers fire after the callback. */
  function ChordEvents(chord: Option<ChordStep>, t: int): (evs: seq<Event>)
    ensures |evs| == (if chord.Some? then ChordSize(chord) + 1 else 0)
    ensures forall k :: 0 <= k < |evs| ==> evs[k].at == t
    ensures chord.Some? ==> evs[0] == Event(t, SetHighlight(ChordKeys(chord.value)))
  {
    match chord
    case None => []
    case Some(c) =>
      [Event(t, SetHighlight(ChordKeys(c)))]
      + PlayChord(t, c.notes, c.octave, c.duration, AccompanimentVolume, 0)
  }

  /** The melody callback of step `i`: its tone, then its highlight. */
  function MelodyCallback(st: Style, melody: seq<MelodyNote>, chords: Option<seq<Option<ChordStep>>>, i: nat, t: int)
    : (evs: seq<Event>)
    requires i < |melody|
    ensures |evs| == 2 && evs[0].at == t + st.melodyOffset && evs[1].at == t + st.melodyOffset
    ensures evs[0].action.PlayTone? && evs[0].action.note == melody[i].note
    ensures evs[1].action.SetHighlight? && |evs[1].action.keys| > 0 && evs[1].action.keys[|evs[1].action.keys| - 1] == MelodyKey(melody[i])
  {
    [Event(t + st.melodyOffset, PlayTone(melody[i].note, melody[i].octave, melody[i].duration, st.melodyVolume))]
    + [Event(t + st.melodyOffset, SetHighlight(StepHighlight(melody, chords, i)))]
  }

  /** The callbacks of step `i` scheduled at cursor `t`. */
  function StepEvents(st: Style, melody: seq<MelodyNote>, chords: Option<seq<Option<ChordStep>>>, i: nat, t: int)
    : seq<Event>
    requires i < |melody|
  {
    ChordEvents(ChordAt(chords, i), t) + MelodyCallback(st, melody, chords, i, t)
  }

  /** Step `i` at its cursor, with the window its callbacks run in: from
      its first callback to its melody callback. */
  function StepBlock(st: Style, melody: seq<MelodyNote>, chords: Option<seq<Option<ChordStep>>>, i: nat): Block
    requires i < |melody|
  {
    Block(StepEvents(st, melody, chords, i, Cursor(melody, i)),
          StepStart(st, melody, chords, i), Cursor(melody, i) + st.melodyOffset)
  }

  /** The first `k` steps, step by step. */
  function StepsUpTo(st: Style, melody: seq<MelodyNote>, chords: Option<seq<Option<ChordStep>>>, k: nat)
    : (bs: seq<Block>)
    requires k <= |melody|
    ensures |bs| == k
  {
    if k == 0 then [] else StepsUpTo(st, melody, chords, k - 1) + [StepBlock(st, melody, chords, k - 1)]
  }

  /** Every step of a call. */
  function Steps(st: Style, melody: seq<MelodyNote>, chords: Option<seq<Option<ChordStep>>>): (bs: seq<Block>)
    ensures |bs| == |melody|
  {
    StepsUpTo(st, melody, chords, |melody|)
  }

  lemma {:induction false} StepsUpToAt(st: Style, melody: seq<MelodyNote>, chords: Option<seq<Option<ChordStep>>>, k: nat, i: nat)
    requires i < k <= |melody|
    ensures StepsUpTo(st, melody, chords, k)[i] == StepBlock(st, melody, chords, i)
  {
    var prev := StepsUpTo(st, melody, chords, k - 1);
    var last := StepBlock(st, melody, chords, k - 1);
    assert StepsUpTo(st, melody, chords, k) == prev + [last];
    if i < k - 1 {
      StepsUpToAt(st, melody, chords, k - 1, i);
      assert (prev + [last])[i] == prev[i];
    } else {
      assert (prev + [last])[i] == last;
    }
  }

  /** Block `i` of a call is step `i`. */
  lemma StepAt(st: Style, melody: seq<MelodyNote>, chords: Option<seq<Option<ChordStep>>>, i: nat)
    requires i < |melody|
    ensures Steps(st, melody, chords)[i] == StepBlock(st, melody, chords, i)
  {
    StepsUpToAt(st, melody, chords, |melody|, i);
  }

  /** A melody call: clear the highlight at once, run the steps, and clean
      up 200 ms after the final cursor. */
  function Schedule(st: Style, melody: seq<MelodyNote>, chords: Option<seq<Option<ChordStep>>>): seq<Event> {
    [Event(0, SetHighlight([]))]
    + Flatten(Steps(st, melody, chords))
    + [Event(Cursor(melody, |melody|) + CleanupDelayMs, Cleanup)]
  }

  /** `playMelodyWithChords(melody, chords, title)`. */
  function MelodyWithChords(melody: seq<MelodyNote>, chords: Option<seq<Option<ChordStep>>>): seq<Event> {
    Schedule(WithChords, melody, chords)
  }

  /** `playMelody(melody, title)`. */
  function Melody(melody: seq<MelodyNote>): seq<Event> {
    Schedule(Plain, melody, None)
  }

  /** Number of notes of a step's chord, 0 without one. */
  function ChordSize(chord: Option<ChordStep>): nat {
    if chord.Some? then |chord.value.notes| else 0
  }

  /** Number of accompaniment tones the first `k` steps request. */
  function ChordTones(chords: Option<seq<Option<ChordStep>>>, k: nat): nat {
    if k == 0 then 0 else ChordTones(chords, k - 1) + ChordSize(ChordAt(chords, k - 1))
  }

  /** When the first callback of step `i` fires: the chord callback at the
      cursor, or, without a chord, the melody callback. */
  function StepStart(st: Style, melody: seq<MelodyNote>, chords: Option<seq<Option<ChordStep>>>, i: nat): int
    requires i <= |melody|
  {
    Cursor(melody, i) + (if ChordAt(chords, i).Some? then 0 else st.melodyOffset)
  }

  /** The chord callback of a step and its tones all run at the cursor. */
  lemma ChordEventsFacts(chord: Option<ChordStep>, t: int)
    ensures var ce := ChordEvents(chord, t);
      && Sorted(ce) && AllFrom(ce, t) && AllUntil(ce, t)
      && ToneCount(ce) == ChordSize(chord)
  {
    if chord.Some? {
      var c := chord.value;
      var head := [Event(t, SetHighlight(ChordKeys(c)))];
      var tones := PlayChord(t, c.notes, c.octave, c.duration, AccompanimentVolume, 0);
      TonesFacts(t, c.notes, c.octave, c.duration, AccompanimentVolume);
      Sequence(head, tones, t, t, t);
    }
  }

  /** The callbacks of one step run in time order between the step's start
      and its melody callback, and request one melody tone plus the chord. */
  lemma StepEventsFacts(st: Style, melody: seq<MelodyNote>, chords: Option<seq<Option<ChordStep>>>, i: nat)
    requires i < |melody|
    ensures var s := StepEvents(st, melody, chords, i, Cursor(melody, i));
      && Sorted(s)
      && AllFrom(s, StepStart(st, melody, chords, i))
      && AllUntil(s, Cursor(melody, i) + st.melodyOffset)
      && ToneCount(s) == 1 + ChordSize(ChordAt(chords, i))
  {
    var t := Cursor(melody, i);
    var ce := ChordEvents(ChordAt(chords, i), t);
    var mc := MelodyCallback(st, melody, chords, i, t);
    ChordEventsFacts(ChordAt(chords, i), t);
    assert AllFrom(ce, StepStart(st, melody, chords, i));
    Sequence(mc[..1], mc[1..], t + st.melodyOffset, t + st.melodyOffset, t + st.melodyOffset);
    assert mc[..1] + mc[1..] == mc;
    Sequence(ce, mc, StepStart(st, melody, chords, i), t + st.melodyOffset, t + st.melodyOffset);
  }

  /** Each step runs in order within its window, and the windows follow
      each other. */
  lemma StepsChained(st: Style, melody: seq<MelodyNote>, chords: Option<seq<Option<ChordStep>>>)
    requires ValidStyle(st)
    ensures Chained(Steps(st, melody, chords))
  {
    StepsOrdered(st, melody, chords);
    StepWindowsFollow(st, melody, chords);
  }

  /** Every step runs in time order within its own window. */
  lemma StepsOrdered(st: Style, melody: seq<MelodyNote>, chords: Option<seq<Option<ChordStep>>>)
    requires ValidStyle(st)
    ensures var bs := Steps(st, melody, chords);
      forall i :: 0 <= i < |bs| ==>
        Sorted(bs[i].events) && AllFrom(bs[i].events, bs[i].from) && AllUntil(bs[i].events, bs[i].until)
        && bs[i].from <= bs[i].until
  {
    var bs := Steps(st, melody, chords);
    forall i | 0 <= i < |bs|
      ensures Sorted(bs[i].events) && AllFrom(bs[i].events, bs[i].from) && AllUntil(bs[i].events, bs[i].until)
      ensures bs[i].from <= bs[i].until
    {
      StepAt(st, melody, chords, i);
      StepBlockOrdered(st, melody, chords, i);
    }
  }

  /** Each step's window ends no later than the next one starts. */
  lemma StepWindowsFollow(st: Style, melody: seq<MelodyNote>, chords: Option<seq<Option<ChordStep>>>)
    requires ValidStyle(st)
    ensures var bs := Steps(st, melody, chords);
      forall i :: 0 <= i < |bs| - 1 ==> bs[i].until <= bs[i + 1].from
  {
    var bs := Steps(st, melody, chords);
    forall i | 0 <= i < |bs| - 1
      ensures bs[i].until <= bs[i + 1].from
    {
      StepAt(st, melody, chords, i);
      StepAt(st, melody, chords, i + 1);
      StepWindowBefore(st, melody, chords, i);
    }
  }

  /** Step `i`'s window ends no later than step `i + 1`'s starts. */
  lemma StepWindowBefore(st: Style, melody: seq<MelodyNote>, chords: Option<seq<Option<ChordStep>>>, i: nat)
    requires ValidStyle(st) && i + 1 < |melody|
    ensures StepBlock(st, melody, chords, i).until <= StepBlock(st, melody, chords, i + 1).from
  {
    CursorIncreases(melody, i, i + 1);
  }

  /** One step's block runs in time order within its own window. */
  lemma StepBlockOrdered(st: Style, melody: seq<MelodyNote>, chords: Option<seq<Option<ChordStep>>>, i: nat)
    requires ValidStyle(st) && i < |melody|
    ensures var b := StepBlock(st, melody, chords, i);
      Sorted(b.events) && AllFrom(b.events, b.from) && AllUntil(b.events, b.until) && b.from <= b.until
  {
    StepEventsFacts(st, melody, chords, i);
  }

  /** The steps from `k` on run in time order, after the start of step `k`
      and no later than the final cursor. */
  lemma LaterSteps(st: Style, melody: seq<MelodyNote>, chords: Option<seq<Option<ChordStep>>>, k: nat)
    requires ValidStyle(st) && k <= |melody|
    ensures var s := Flatten(Steps(st, melody, chords)[k..]);
      && Sorted(s)
      && AllUntil(s, Cursor(melody, |melody|))
      && (k < |melody| ==> AllFrom(s, StepStart(st, melody, chords, k)))
  {
    var n := |melody|;
    var bs := Steps(st, melody, chords);
    assert |bs| == n;
    if n > 0 {
      StepAt(st, melody, chords, n - 1);
      CursorIncreases(melody, n - 1, n);
    }
    if k < n {
      StepAt(st, melody, chords, k);
    }
    StepsChained(st, melody, chords);
    ChainedTail(bs, k, Cursor(melody, n));
  }

  /** The first `k` steps request one melody tone per step plus every
      chord tone. */
  lemma {:induction false} StepsToneCount(st: Style, melody: seq<MelodyNote>, chords: Option<seq<Option<ChordStep>>>, k: nat)
    requires k <= |melody|
    ensures ToneCount(Flatten(StepsUpTo(st, melody, chords, k))) == k + ChordTones(chords, k)
  {
    if k > 0 {
      StepsUpToTones(st, melody, chords, k);
      StepsToneCount(st, melody, chords, k - 1);
    } else {
      assert StepsUpTo(st, melody, chords, k) == [];
    }
  }

  /** The first `k` steps hold the tones of the first `k - 1`, plus the
      melody tone and the chord tones of step `k - 1`. */
  lemma StepsUpToTones(st: Style, melody: seq<MelodyNote>, chords: Option<seq<Option<ChordStep>>>, k: nat)
    requires 0 < k <= |melody|
    ensures ToneCount(Flatten(StepsUpTo(st, melody, chords, k)))
         == ToneCount(Flatten(StepsUpTo(st, melody, chords, k - 1)))
          + 1 + ChordSize(ChordAt(chords, k - 1))
  {
    var prev := StepsUpTo(st, melody, chords, k - 1);
    var last := StepBlock(st, melody, chords, k - 1);
    assert StepsUpTo(st, melody, chords, k) == prev + [last];
    FlattenSnocTones(prev, last);
    StepBlockTones(st, melody, chords, k - 1);
  }

  /** One step plays its melody note and its chord's notes. */
  lemma StepBlockTones(st: Style, melody: seq<MelodyNote>, chords: Option<seq<Option<ChordStep>>>, i: nat)
    requires i < |melody|
    ensures ToneCount(StepBlock(st, melody, chords, i).events) == 1 + ChordSize(ChordAt(chords, i))
  {
    StepEventsFacts(st, melody, chords, i);
  }

  lemma ConcatAssoc<T>(a: seq<T>, b: seq<T>, c: seq<T>)
    ensures a + (b + c) == (a + b) + c
  {
  }

  /** What a call schedules before step `i`: the immediate clear and the
      callbacks of the earlier steps. */
  function Prefix(st: Style, melody: seq<MelodyNote>, chords: Option<seq<Option<ChordStep>>>, i: nat): seq<Event>
    requires i <= |melody|
  {
    [Event(0, SetHighlight([]))] + Flatten(Steps(st, melody, chords)[..i])
  }

  /** What a call schedules after step `i`: the later steps and the cleanup. */
  function Suffix(st: Style, melody: seq<MelodyNote>, chords: Option<seq<Option<ChordStep>>>, i: nat): seq<Event>
    requires i < |melody|
  {
    Flatten(Steps(st, melody, chords)[i + 1..])
    + [Event(Cursor(melody, |melody|) + CleanupDelayMs, Cleanup)]
  }

  lemma Regroup<T>(first: seq<T>, s: seq<T>, before: seq<T>, e: seq<T>, after: seq<T>, last: seq<T>)
    requires s == before + (e + after)
    ensures first + s + last == (first + before) + (e + (after + last))
  {
  }

  /** The whole timeline around step `i`. */
  lemma TimelineAroundStep(st: Style, melody: seq<MelodyNote>, chords: Option<seq<Option<ChordStep>>>, i: nat)
    requires i < |melody|
    ensures Schedule(st, melody, chords)
         == Prefix(st, melody, chords, i) + (StepEvents(st, melody, chords, i, Cursor(melody, i)) + Suffix(st, melody, chords, i))
  {
    var bs := Steps(st, melody, chords);
    var first := [Event(0, SetHighlight([]))];
    var last := [Event(Cursor(melody, |melody|) + CleanupDelayMs, Cleanup)];
    FlattenAround(bs, i);
    StepAt(st, melody, chords, i);
    Regroup(first, Flatten(bs), Flatten(bs[..i]), bs[i].events, Flatten(bs[i + 1..]), last);
  }

  /** All steps of a call: in time order, from the call on until the final
      cursor, with one melody tone per step plus every chord tone. */
  lemma WholeSteps(st: Style, melody: seq<MelodyNote>, chords: Option<seq<Option<ChordStep>>>)
    requires ValidStyle(st)
    ensures var s := Flatten(Steps(st, melody, chords));
      && Sorted(s) && AllFrom(s, 0) && AllUntil(s, Cursor(melody, |melody|))
      && (|melody| > 0 ==> AllFrom(s, StepStart(st, melody, chords, 0)))
      && ToneCount(s) == |melody| + ChordTones(chords, |melody|)
      && 0 <= Cursor(melody, |melody|)
  {
    var n := |melody|;
    var bs := Steps(st, melody, chords);
    var s := Flatten(bs);
    assert Sorted(s) && AllUntil(s, Cursor(melody, n)) && (n > 0 ==> AllFrom(s, StepStart(st, melody, chords, 0))) by {
      LaterSteps(st, melody, chords, 0);
      assert bs[0..] == bs;
    }
    if n > 0 {
      AllFromWeaken(s, 0, StepStart(st, melody, chords, 0));
      CursorIncreases(melody, 0, n);
    } else {
      assert s == [];
    }
    assert ToneCount(s) == n + ChordTones(chords, n) by {
      assert bs == StepsUpTo(st, melody, chords, n);
      StepsToneCount(st, melody, chords, n);
    }
  }

  /** Shape of a call: its events are in time order, the cleanup is the
      last event and comes strictly after every other one, and exactly
      one tone per melody note plus one per chord note is requested. */
  lemma ScheduleShape(st: Style, melody: seq<MelodyNote>, chords: Option<seq<Option<ChordStep>>>)
    requires ValidStyle(st)
    ensures var tl := Schedule(st, melody, chords);
      && Sorted(tl)
      && tl[|tl| - 1] == Event(Cursor(melody, |melody|) + CleanupDelayMs, Cleanup)
      && AllUntil(tl[..|tl| - 1], Cursor(melody, |melody|))
      && ToneCount(tl) == |melody| + ChordTones(chords, |melody|)
  {
    var open := Event(0, SetHighlight([]));
    var s := Flatten(Steps(st, melody, chords));
    var close := Event(Cursor(melody, |melody|) + CleanupDelayMs, Cleanup);
    WholeSteps(st, melody, chords);
    Framed(open, s, close, Cursor(melody, |melody|));
    assert Schedule(st, melody, chords) == [open] + s + [close];
  }

  /** Every melody note is requested at its callback with the style's
      volume, and every chord note of the step at the cursor with volume
      0.12. */
  lemma ScheduleTones(st: Style, melody: seq<MelodyNote>, chords: Option<seq<Option<ChordStep>>>, i: nat, t: int)
    requires i < |melody| && t == Cursor(melody, i)
    ensures Event(t + st.melodyOffset, PlayTone(melody[i].note, melody[i].octave, melody[i].duration, st.melodyVolume))
            in Schedule(st, melody, chords)
    ensures ChordAt(chords, i).Some? ==>
      var c := ChordAt(chords, i).value;
      forall k :: 0 <= k < |c.notes| ==>
        Event(t, PlayTone(c.notes[k], c.octave, c.duration, AccompanimentVolume)) in Schedule(st, melody, chords)
  {
    StepMelodyTone(st, melody, chords, i, t);
    InStep(st, melody, chords, i,
           Event(t + st.melodyOffset, PlayTone(melody[i].note, melody[i].octave, melody[i].duration, st.melodyVolume)));
    if ChordAt(chords, i).Some? {
      var c := ChordAt(chords, i).value;
      forall k | 0 <= k < |c.notes|
        ensures Event(t, PlayTone(c.notes[k], c.octave, c.duration, AccompanimentVolume)) in Schedule(st, melody, chords)
      {
        StepChordTone(st, melody, chords, i, t, k);
        InStep(st, melody, chords, i, Event(t, PlayTone(c.notes[k], c.octave, c.duration, AccompanimentVolume)));
      }
    }
  }

  /** The melody tone of a step is requested by its melody callback. */
  lemma StepMelodyTone(st: Style, melody: seq<MelodyNote>, chords: Option<seq<Option<ChordStep>>>, i: nat, t: int)
    requires i < |melody|
    ensures Event(t + st.melodyOffset, PlayTone(melody[i].note, melody[i].octave, melody[i].duration, st.melodyVolume))
            in StepEvents(st, melody, chords, i, t)
  {
    var ce := ChordEvents(ChordAt(chords, i), t);
    var mc := MelodyCallback(st, melody, chords, i, t);
    assert StepEvents(st, melody, chords, i, t) == ce + mc;
    assert mc[0] in mc;
  }

  /** Note `k` of a step's chord is requested at the step's cursor. */
  lemma StepChordTone(st: Style, melody: seq<MelodyNote>, chords: Option<seq<Option<ChordStep>>>, i: nat, t: int, k: nat)
    requires i < |melody| && ChordAt(chords, i).Some? && k < |ChordAt(chords, i).value.notes|
    ensures var c := ChordAt(chords, i).value;
      Event(t, PlayTone(c.notes[k], c.octave, c.duration, AccompanimentVolume)) in StepEvents(st, melody, chords, i, t)
  {
    var c := ChordAt(chords, i).value;
    var tones := PlayChord(t, c.notes, c.octave, c.duration, AccompanimentVolume, 0);
    var ce := [Event(t, SetHighlight(ChordKeys(c)))] + tones;
    assert ChordEvents(ChordAt(chords, i), t) == ce;
    assert StepEvents(st, melody, chords, i, t) == ce + MelodyCallback(st, melody, chords, i, t);
    assert tones[k] in ce;
  }

  /** An event of step `i` is an event of the whole call. */
  lemma InStep(st: Style, melody: seq<MelodyNote>, chords: Option<seq<Option<ChordStep>>>, i: nat, e: Event)
    requires i < |melody| && e in StepEvents(st, melody, chords, i, Cursor(melody, i))
    ensures e in Schedule(st, melody, chords)
  {
    var steps := Flatten(Steps(st, melody, chords));
    StepAt(st, melody, chords, i);
    FlattenMember(Steps(st, melody, chords), i, e);
    assert Schedule(st, melody, chords)
        == [Event(0, SetHighlight([]))] + steps + [Event(Cursor(melody, |melody|) + CleanupDelayMs, Cleanup)];
  }

  /** The highlight is cleared as soon as the call is made and stays clear
      until the first callback. */
  lemma ClearedAtStart(st: Style, melody: seq<MelodyNote>, chords: Option<seq<Option<ChordStep>>>, x: int, h: seq<string>)
    requires ValidStyle(st) && 0 <= x
    requires |melody| == 0 ==> x < CleanupDelayMs
    requires |melody| > 0 ==> x < StepStart(st, melody, chords, 0)
    ensures HighlightAt(Schedule(st, melody, chords), x, h) == []
  {
    var first := [Event(0, SetHighlight([]))];
    var steps := Flatten(Steps(st, melody, chords));
    var close := Event(Cursor(melody, |melody|) + CleanupDelayMs, Cleanup);
    var rest := steps + [close];
    assert Schedule(st, melody, chords) == first + rest;
    WholeSteps(st, melody, chords);
    if |melody| > 0 {
      AllFromWeaken(steps, x + 1, StepStart(st, melody, chords, 0));
      CursorIncreases(melody, 0, |melody|);
    } else {
      assert steps == [];
    }
    assert AllFrom(rest, x + 1);
    HighlightAtConcat(first, rest, x, h);
    HighlightAtBeforeAll(rest, x, []);
  }

  /** Before the call its timeline has changed nothing. */
  lemma UntouchedBeforeCall(st: Style, melody: seq<MelodyNote>, chords: Option<seq<Option<ChordStep>>>, x: int, h: seq<string>)
    requires ValidStyle(st) && x < 0
    ensures HighlightAt(Schedule(st, melody, chords), x, h) == h
  {
    var open := Event(0, SetHighlight([]));
    var s := Flatten(Steps(st, melody, chords));
    var close := Event(Cursor(melody, |melody|) + CleanupDelayMs, Cleanup);
    WholeSteps(st, melody, chords);
    Framed(open, s, close, Cursor(melody, |melody|));
    var tl := Schedule(st, melody, chords);
    assert tl == [open] + s + [close];
    HighlightAtBeforeAll(tl, x, h);
  }

  /** When the highlight written by the melody callback of step `i` is next
      overwritten: by the next step's first callback, or, after the last
      step, by the cleanup. */
  function HeldUntil(st: Style, melody: seq<MelodyNote>, chords: Option<seq<Option<ChordStep>>>, i: nat): int
    requires i < |melody|
  {
    if i + 1 == |melody| then Cursor(melody, |melody|) + CleanupDelayMs else StepStart(st, melody, chords, i + 1)
  }

  /** Everything after step `i` happens once the highlight of step `i` has
      been replaced, and at the latest at the cleanup. */
  lemma SuffixFacts(st: Style, melody: seq<MelodyNote>, chords: Option<seq<Option<ChordStep>>>, i: nat)
    requires ValidStyle(st) && i < |melody|
    ensures AllFrom(Suffix(st, melody, chords, i), HeldUntil(st, melody, chords, i))
  {
    LaterSteps(st, melody, chords, i + 1);
    if i + 1 < |melody| {
      CursorIncreases(melody, i + 1, |melody|);
    }
    var s := Flatten(Steps(st, melody, chords)[i + 1..]);
    var last := [Event(Cursor(melody, |melody|) + CleanupDelayMs, Cleanup)];
    assert Suffix(st, melody, chords, i) == s + last;
  }

  /** While a step's chord sounds before its melody callback, the
      highlight is the chord's keys. */
  lemma ChordHighlightWindow(st: Style, melody: seq<MelodyNote>, chords: Option<seq<Option<ChordStep>>>,
                             i: nat, x: int, h: seq<string>)
    requires ValidStyle(st) && i < |melody| && ChordAt(chords, i).Some?
    requires Cursor(melody, i) <= x < Cursor(melody, i) + st.melodyOffset
    ensures HighlightAt(Schedule(st, melody, chords), x, h) == ChordKeys(ChordAt(chords, i).value)
  {
    var c := ChordAt(chords, i).value;
    var t := Cursor(melody, i);
    TimelineAroundStep(st, melody, chords, i);
    var tones := PlayChord(t, c.notes, c.octave, c.duration, AccompanimentVolume, 0);
    var mc := MelodyCallback(st, melody, chords, i, t);
    TonesFacts(t, c.notes, c.octave, c.duration, AccompanimentVolume);
    assert StepEvents(st, melody, chords, i, t) == ([Event(t, SetHighlight(ChordKeys(c)))] + tones) + mc;
    SuffixFacts(st, melody, chords, i);
    CursorIncreases(melody, i, i + 1);
    assert AllFrom(mc, x + 1);
    assert AllFrom(Suffix(st, melody, chords, i), x + 1);
    ObserveFirstOverwrite(Prefix(st, melody, chords, i), t, ChordKeys(c), tones, mc, Suffix(st, melody, chords, i), x, h);
  }

  /** From a step's melody callback until the next overwrite the highlight
      is the chord keys followed by the melody key (duplicates kept), or
      the melody key alone when the step has no chord. */
  lemma MelodyHighlightWindow(st: Style, melody: seq<MelodyNote>, chords: Option<seq<Option<ChordStep>>>,
                              i: nat, x: int, h: seq<string>)
    requires ValidStyle(st) && i < |melody|
    requires Cursor(melody, i) + st.melodyOffset <= x < HeldUntil(st, melody, chords, i)
    ensures HighlightAt(Schedule(st, melody, chords), x, h) == StepHighlight(melody, chords, i)
  {
    var t := Cursor(melody, i);
    TimelineAroundStep(st, melody, chords, i);
    var ce := ChordEvents(ChordAt(chords, i), t);
    var tone := Event(t + st.melodyOffset, PlayTone(melody[i].note, melody[i].octave, melody[i].duration, st.melodyVolume));
    var keys := StepHighlight(melody, chords, i);
    ConcatAssoc(ce, [tone], [Event(t + st.melodyOffset, SetHighlight(keys))]);
    assert StepEvents(st, melody, chords, i, t) == (ce + [tone]) + [Event(t + st.melodyOffset, SetHighlight(keys))];
    SuffixFacts(st, melody, chords, i);
    ObserveLastOverwrite(Prefix(st, melody, chords, i), ce + [tone], t + st.melodyOffset, keys,
                         Suffix(st, melody, chords, i), x, h);
  }

  /** From the cleanup on the highlight is empty. */
  lemma ClearedAfterCleanup(st: Style, melody: seq<MelodyNote>, chords: Option<seq<Option<ChordStep>>>, x: int, h: seq<string>)
    requires Cursor(melody, |melody|) + CleanupDelayMs <= x
    ensures HighlightAt(Schedule(st, melody, chords), x, h) == []
  {
    var front := [Event(0, SetHighlight([]))] + Flatten(Steps(st, melody, chords));
    HighlightAtConcat(front, [Event(Cursor(melody, |melody|) + CleanupDelayMs, Cleanup)], x, h);
  }

  /** No melody or chord note name contains the key separator. */
  predicate NamesSeparatorFree(melody: seq<MelodyNote>, chords: Option<seq<Option<ChordStep>>>) {
    && (forall i :: 0 <= i < |melody| ==> Separator !in melody[i].note)
    && (forall i :: 0 <= i < |melody| && ChordAt(chords, i).Some? ==> SeparatorFree(ChordAt(chords, i).value.notes))
  }

  /** The highlights of one step name drawn rings only. */
  lemma StepRingsDrawn(st: Style, melody: seq<MelodyNote>, chords: Option<seq<Option<ChordStep>>>, i: nat, t: int)
    requires i < |melody| && NamesSeparatorFree(melody, chords)
    ensures HighlightsWithinRings(StepEvents(st, melody, chords, i, t), MaxVisualRing)
  {
    var melodyKey := [MelodyKey(melody[i])];
    KeyRoundTrip(melody[i].note, VisualRing(melody[i].octave));
    assert KeysWithinRings(melodyKey, MaxVisualRing);
    var ce := ChordEvents(ChordAt(chords, i), t);
    if ChordAt(chords, i).Some? {
      var c := ChordAt(chords, i).value;
      var head := [Event(t, SetHighlight(ChordKeys(c)))];
      var tones := PlayChord(t, c.notes, c.octave, c.duration, AccompanimentVolume, 0);
      KeysRings(c.notes, VisualRing(c.octave), MaxVisualRing);
      assert HighlightsWithinRings(head, MaxVisualRing);
      assert HighlightsWithinRings(tones, MaxVisualRing);
      HighlightsWithinRingsConcat(head, tones, MaxVisualRing);
      KeysWithinRingsConcat(ChordKeys(c), melodyKey, MaxVisualRing);
    }
    assert KeysWithinRings(StepHighlight(melody, chords, i), MaxVisualRing);
    var mc := MelodyCallback(st, melody, chords, i, t);
    assert HighlightsWithinRings(mc, MaxVisualRing);
    HighlightsWithinRingsConcat(ce, mc, MaxVisualRing);
  }

  /** Every key a call writes decodes to one of the drawn rings 0..3, as
      long as the note names are free of the separator. */
  lemma HighlightRingsDrawn(st: Style, melody: seq<MelodyNote>, chords: Option<seq<Option<ChordStep>>>)
    requires NamesSeparatorFree(melody, chords)
    ensures HighlightsWithinRings(Schedule(st, melody, chords), MaxVisualRing)
  {
    var first := [Event(0, SetHighlight([]))];
    var bs := Steps(st, melody, chords);
    var steps := Flatten(bs);
    var last := [Event(Cursor(melody, |melody|) + CleanupDelayMs, Cleanup)];
    forall i | 0 <= i < |bs|
      ensures HighlightsWithinRings(bs[i].events, MaxVisualRing)
    {
      StepAt(st, melody, chords, i);
      StepRingsDrawn(st, melody, chords, i, Cursor(melody, i));
    }
    FlattenRings(bs, MaxVisualRing);
    assert HighlightsWithinRings(first, MaxVisualRing);
    HighlightsWithinRingsConcat(first, steps, MaxVisualRing);
    assert HighlightsWithinRings(last, MaxVisualRing);
    HighlightsWithinRingsConcat(first + steps, last, MaxVisualRing);
  }

  /** Without chords no accompaniment tone is requested. */
  lemma {:induction false} NoChordTones(k: nat)
    ensures ChordTones(None, k) == 0
  {
    if k > 0 {
      NoChordTones(k - 1);
    }
  }

  /** `playMelody`: events in time order, one tone per note, the cleanup
      last; from note i's callback until the next one (or the cleanup) the
      highlight is that note's key alone. */
  lemma MelodyShape(melody: seq<MelodyNote>)
    ensures var tl := Melody(melody);
      && Sorted(tl)
      && tl[|tl| - 1] == Event(Cursor(melody, |melody|) + CleanupDelayMs, Cleanup)
      && ToneCount(tl) == |melody|
  {
    ScheduleShape(Plain, melody, None);
    NoChordTones(|melody|);
  }

  /** `playMelody` highlights note i alone from its cursor until the next
      note's cursor, or after the last note until the cleanup. */
  lemma MelodyNoteHighlight(melody: seq<MelodyNote>, i: nat, x: int, h: seq<string>)
    requires i < |melody|
    requires Cursor(melody, i) <= x
    requires x < (if i + 1 == |melody| then Cursor(melody, |melody|) + CleanupDelayMs else Cursor(melody, i + 1))
    ensures HighlightAt(Melody(melody), x, h) == [MelodyKey(melody[i])]
  {
    MelodyHighlightWindow(Plain, melody, None, i, x, h);
  }

  /** `playMelody` requests note i at its cursor with volume 0.25. */
  lemma MelodyTones(melody: seq<MelodyNote>, i: nat, t: int)
    requires i < |melody| && t == Cursor(melody, i)
    ensures Event(t, PlayTone(melody[i].note, melody[i].octave, melody[i].duration, PlainMelodyVolume)) in Melody(melody)
  {
    ScheduleTones(Plain, melody, None, i, t);
    PlainTone(melody[i], t);
  }

  lemma PlainTone(n: MelodyNote, t: int)
    ensures Event(t + Plain.melodyOffset, PlayTone(n.note, n.octave, n.duration, Plain.melodyVolume))
         == Event(t, PlayTone(n.note, n.octave, n.duration, PlainMelodyVolume))
  {
  }

  /** Two 400 ms notes without chords: `playMelodyWithChords` requests the
      tones at 50 and 500 ms and cleans up at 1100 ms. */
  lemma TwoNoteExample()
    ensures var tl := MelodyWithChords([MelodyNote("C", 4, 400), MelodyNote("G", 4, 400)], None);
      tl == [Event(0, SetHighlight([])),
             Event(50, PlayTone("C", 4, 400, 0.3)), Event(50, SetHighlight([Key("C", 1)])),
             Event(500, PlayTone("G", 4, 400, 0.3)), Event(500, SetHighlight([Key("G", 1)])),
             Event(1100, Cleanup)]
  {
    var melody := [MelodyNote("C", 4, 400), MelodyNote("G", 4, 400)];
    assert Cursor(melody, 1) == 450 && Cursor(melody, 2) == 900;
    var bs := Steps(WithChords, melody, None);
    StepAt(WithChords, melody, None, 0);
    StepAt(WithChords, melody, None, 1);
    assert bs[1..][0] == bs[1] && bs[1..][1..] == [];
    assert Flatten(bs[1..]) == bs[1].events + Flatten(bs[1..][1..]);
    assert Flatten(bs) == bs[0].events + bs[1].events;
  }

  /** The same two notes through `playMelody`: tones at 0 and 450 ms,
      cleanup at 1100 ms. */
  lemma PlainTwoNoteExample()
    ensures var tl := Melody([MelodyNote("C", 4, 400), MelodyNote("G", 4, 400)]);
      tl == [Event(0, SetHighlight([])),
             Event(0, PlayTone("C", 4, 400, 0.25)), Event(0, SetHighlight([Key("C", 1)])),
             Event(450, PlayTone("G", 4, 400, 0.25)), Event(450, SetHighlight([Key("G", 1)])),
             Event(1100, Cleanup)]
  {
    var melody := [MelodyNote("C", 4, 400), MelodyNote("G", 4, 400)];
    assert Cursor(melody, 1) == 450 && Cursor(melody, 2) == 900;
    var bs := Steps(Plain, melody, None);
    StepAt(Plain, melody, None, 0);
    StepAt(Plain, melody, None, 1);
    assert bs[1..][0] == bs[1] && bs[1..][1..] == [];
    assert Flatten(bs[1..]) == bs[1].events + Flatten(bs[1..][1..]);
    assert Flatten(bs) == bs[0].events + bs[1].events;
  }

  /** The glissando animation runs 36 frames, three octaves of notes. */
  const GlissandoSteps: nat := 36

  /** The highest ring index the glissando frame loop may write. */
  const GlissandoMaxRing: nat := 4

  function Max(a: int, b: int): int {
    if a < b then b else a
  }

  function Min(a: int, b: int): int {
    if a < b then a else b
  }

  /** One frame of the glissando animation: past the last step the
      highlight is cleared; otherwise it lights the frame's note on rings
      max(0, r) .. min(4, r + 2), r = currentNote div 12, which for frames
      0..35 are always the three rings r, r + 1, r + 2. */
  method GlissandoFrame(currentNote: nat) returns (highlight: seq<string>)
    ensures currentNote >= GlissandoSteps ==> highlight == []
    ensures currentNote < GlissandoSteps ==>
      && |highlight| == 3
      && (forall k :: 0 <= k < 3 ==> highlight[k] == Key(Pitch.NoteNames[currentNote % Pitch.NoteCount], currentNote / Pitch.NoteCount + k))
      && KeysWithinRings(highlight, GlissandoMaxRing)
      && (forall k :: 0 <= k < 3 ==> KeyNote(highlight[k]) == Pitch.NoteNames[currentNote % Pitch.NoteCount])
  {
    if currentNote >= GlissandoSteps {
      return [];
    }
    var noteIndex := currentNote % Pitch.NoteCount;
    var octaveRing := currentNote / Pitch.NoteCount;
    var note := Pitch.NoteNames[noteIndex];
    NoteNameSeparatorFree(note);
    var first := Max(0, octaveRing);
    var last := Min(GlissandoMaxRing, octaveRing + 2);
    assert first == octaveRing && last == octaveRing + 2 <= GlissandoMaxRing;
    highlight := RingKeys(note, first, last);
    forall k | 0 <= k < 3
      ensures highlight[k] == Key(note, octaveRing + k)
      ensures KeyRing(highlight[k]).Some? && KeyRing(highlight[k]).value <= GlissandoMaxRing
    {
    }
  }

  /** The keys of `note` on rings `first` .. `last`, in ring order, each
      decoding back to its note and ring. */
  method RingKeys(note: string, first: nat, last: nat) returns (keys: seq<string>)
    requires Separator !in note && first <= last + 1
    ensures |keys| == last + 1 - first
    ensures forall k :: 0 <= k < |keys| ==> keys[k] == Key(note, first + k)
    ensures forall k :: 0 <= k < |keys| ==> KeyNote(keys[k]) == note && KeyRing(keys[k]) == Some(first + k)
  {
    keys := [];
    var ring := first;
    while ring <= last
      invariant first <= ring <= last + 1
      invariant |keys| == ring - first
      invariant forall k :: 0 <= k < |keys| ==> keys[k] == Key(note, first + k)
      decreases last + 1 - ring
    {
      keys := keys + [Key(note, ring)];
      ring := ring + 1;
    }
    forall k | 0 <= k < |keys|
      ensures KeyNote(keys[k]) == note && KeyRing(keys[k]) == Some(first + k)
    {
      KeyRoundTrip(note, first + k);
    }
  }
}
