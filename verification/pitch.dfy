/** Pitch arithmetic of the note wheel: the chromatic note names and the
    equal-tempered semitone offset from A4 that `noteToFrequency` feeds to
    the exponential (script.js:18, 30-37). The frequency itself,
    440 * 2^(halfSteps/12), is not modelled; only its integer exponent is. */
module Pitch {

  /** The twelve note names in chromatic order, starting at C. */
  const NoteNames: seq<string> := ["C", "C#", "D", "D#", "E", "F", "F#", "G", "G#", "A", "A#", "B"]

  /** Number of pitch classes (`notes.length`). */
  const NoteCount: nat := 12

  /** Position of A in `NoteNames`. */
  const AIndex: int := 9

  /** Octave of the reference pitch A4 = 440 Hz. */
  const ReferenceOctave: int := 4

  predicate IsNoteName(s: string) {
    s in NoteNames
  }

  /** `notes.indexOf(note)`: the position of `note` in `NoteNames`, or -1
      when it is not one of the twelve names. */
  function IndexOf(note: string): (i: int)
    ensures -1 <= i < NoteCount
    ensures i == -1 <==> !IsNoteName(note)
    ensures 0 <= i ==> NoteNames[i] == note
  {
    if note == "C" then 0 else if note == "C#" then 1
    else if note == "D" then 2 else if note == "D#" then 3
    else if note == "E" then 4 else if note == "F" then 5
    else if note == "F#" then 6 else if note == "G" then 7
    else if note == "G#" then 8 else if note == "A" then 9
    else if note == "A#" then 10 else if note == "B" then 11
    else -1
  }

  /** The names are pairwise distinct, so `indexOf` finds each at its own position. */
  lemma IndexOfName(k: int)
    requires 0 <= k < NoteCount
    ensures IndexOf(NoteNames[k]) == k
  {
  }

  /** `halfSteps` of noteToFrequency: the signed semitone distance from A4. */
  function HalfSteps(note: string, octave: int): (h: int)
    ensures IsNoteName(note) ==> PitchOf(h) == (note, octave)
  {
    var i := IndexOf(note);
    if 0 <= i then
      assert NoteNames[i] == note;
      assert (i - AIndex + (octave - ReferenceOctave) * 12 + AIndex) == i + (octave - ReferenceOctave) * 12;
      i - AIndex + (octave - ReferenceOctave) * 12
    else
      i - AIndex + (octave - ReferenceOctave) * 12
  }

  /** The pitch that lies `h` semitones from A4: the inverse of `HalfSteps`. */
  function PitchOf(h: int): (p: (string, int))
    ensures IsNoteName(p.0)
  {
    (NoteNames[(h + AIndex) % NoteCount], ReferenceOctave + (h + AIndex) / NoteCount)
  }

  /** Every semitone offset comes from exactly one named pitch. */
  lemma {:induction false} PitchOfRoundTrip(h: int)
    ensures HalfSteps(PitchOf(h).0, PitchOf(h).1) == h
  {
    var k := (h + AIndex) % NoteCount;
    IndexOfName(k);
  }

  /** The calibration points: A4 is the reference, C4 sits nine semitones
      below it, C3 and C6 one octave below and two above C4. */
  lemma CalibrationPoints()
    ensures HalfSteps("A", 4) == 0
    ensures HalfSteps("C", 4) == -9
    ensures HalfSteps("C", 3) == -21
    ensures HalfSteps("C", 6) == 15
  {
    IndexOfName(9);
    IndexOfName(0);
  }

  /** One octave up adds exactly twelve semitones, which is what doubles
      440 * 2^(halfSteps/12). */
  lemma OctaveStep(note: string, octave: int)
    ensures HalfSteps(note, octave + 1) == HalfSteps(note, octave) + 12
  {
  }

  /** A name outside the list makes `indexOf` return -1, which the formula
      treats like B one octave lower. */
  lemma UnknownNoteActsAsLowerB(note: string, octave: int)
    requires !IsNoteName(note)
    ensures HalfSteps(note, octave) == HalfSteps("B", octave - 1)
  {
    IndexOfName(11);
  }

  /** Within an octave the offset grows with the chromatic position, and
      between octaves with the octave: pitches are totally ordered. */
  lemma HalfStepsOrder(a: int, oa: int, b: int, ob: int)
    requires 0 <= a < NoteCount && 0 <= b < NoteCount
    ensures HalfSteps(NoteNames[a], oa) < HalfSteps(NoteNames[b], ob)
        <==> oa < ob || (oa == ob && a < b)
  {
    IndexOfName(a);
    IndexOfName(b);
  }
}
