/** Segment keys: the `"note-ring"` strings that name one wedge of one ring
    in the highlight list (built at script.js:164, 559, 1240, 1253, 1417 and
    parsed with `split('-')` at script.js:102 and 141). */
module SegmentKey {
  import opened Wrappers
  import Pitch

  /** The separator between the note part and the ring part of a key. */
  const Separator: char := '-'

  predicate IsDigit(c: char) {
    '0' <= c <= '9'
  }

  predicate AllDigits(s: string) {
    forall i :: 0 <= i < |s| ==> IsDigit(s[i])
  }

  /** The decimal character for a digit. */
  function DigitChar(d: nat): (c: char)
    requires d < 10
    ensures IsDigit(c) && c as int - '0' as int == d
  {
    ('0' as int + d) as char
  }

  /** Template-literal rendering `${ring}` of a non-negative integer:
      decimal digits with no leading zero. */
  function NatToString(n: nat): (s: string)
    ensures |s| >= 1 && AllDigits(s)
    decreases n
  {
    if n < 10 then [DigitChar(n)] else NatToString(n / 10) + [DigitChar(n % 10)]
  }

  /** The number a string of decimal digits denotes. */
  function DigitsValue(s: string): nat
    requires AllDigits(s)
    decreases |s|
  {
    if |s| == 0 then 0
    else DigitsValue(s[..|s| - 1]) * 10 + (s[|s| - 1] as int - '0' as int)
  }

  /** The ring number read from the ring part of a key: the value of a
      non-empty run of decimal digits, and None for any other text. This
      agrees with `Number(text)` on digit runs, the only ring parts the
      program writes. */
  function ParseRing(s: string): (r: Option<nat>)
    ensures r.Some? <==> |s| >= 1 && AllDigits(s)
  {
    if |s| >= 1 && AllDigits(s) then Some(DigitsValue(s)) else None
  }

  /** Reading back the decimal rendering of a ring gives the ring. */
  lemma {:induction false} NatToStringRoundTrip(n: nat)
    ensures ParseRing(NatToString(n)) == Some(n)
    decreases n
  {
    var s := NatToString(n);
    if n < 10 {
      assert s[..|s| - 1] == [];
    } else {
      NatToStringRoundTrip(n / 10);
      assert s[..|s| - 1] == NatToString(n / 10);
      assert DigitsValue(s) == (n / 10) * 10 + n % 10;
    }
  }

  /** `String.prototype.split` with a one-character separator: the maximal
      separator-free pieces, empty ones included. */
  function Split(s: string, sep: char): (parts: seq<string>)
    ensures |parts| >= 1
    ensures forall i :: 0 <= i < |parts| ==> sep !in parts[i]
    decreases |s|
  {
    if |s| == 0 then [""]
    else
      var rest := Split(s[1..], sep);
      if s[0] == sep then [""] + rest
      else [[s[0]] + rest[0]] + rest[1..]
  }

  /** `Array.prototype.join` with a one-character separator. */
  function Join(parts: seq<string>, sep: char): string
    requires |parts| >= 1
    decreases |parts|
  {
    if |parts| == 1 then parts[0] else parts[0] + [sep] + Join(parts[1..], sep)
  }

  /** Joining the pieces of a split restores the string. */
  lemma {:induction false} JoinSplit(s: string, sep: char)
    ensures Join(Split(s, sep), sep) == s
    decreases |s|
  {
    if |s| > 0 {
      JoinSplit(s[1..], sep);
      var rest := Split(s[1..], sep);
      if s[0] != sep && |rest| > 1 {
        assert Join(rest, sep) == rest[0] + [sep] + Join(rest[1..], sep);
      }
    }
  }

  /** A separator-free string splits into itself alone. */
  lemma {:induction false} SplitPlain(p: string, sep: char)
    requires sep !in p
    ensures Split(p, sep) == [p]
    decreases |p|
  {
    if |p| > 0 {
      SplitPlain(p[1..], sep);
      assert [p[0]] + p[1..] == p;
    }
  }

  /** A separator-free piece followed by the separator splits off whole. */
  lemma {:induction false} SplitAfterPiece(p: string, sep: char, x: string)
    requires sep !in p
    ensures Split(p + [sep] + x, sep) == [p] + Split(x, sep)
    decreases |p|
  {
    if |p| == 0 {
      assert (p + [sep] + x)[1..] == x;
    } else {
      assert (p + [sep] + x)[1..] == p[1..] + [sep] + x;
      SplitAfterPiece(p[1..], sep, x);
      assert [p[0]] + p[1..] == p;
    }
  }

  /** Splitting a join of separator-free pieces gives the pieces back. */
  lemma {:induction false} SplitJoin(parts: seq<string>, sep: char)
    requires |parts| >= 1
    requires forall i :: 0 <= i < |parts| ==> sep !in parts[i]
    ensures Split(Join(parts, sep), sep) == parts
    decreases |parts|
  {
    if |parts| == 1 {
      SplitPlain(parts[0], sep);
    } else {
      SplitJoin(parts[1..], sep);
      SplitAfterPiece(parts[0], sep, Join(parts[1..], sep));
    }
  }

  /** The first piece of a split is the longest separator-free prefix:
      the string either ends there or goes on with the separator. */
  lemma {:induction false} SplitHead(s: string, sep: char)
    ensures Split(s, sep)[0] <= s
    ensures |Split(s, sep)[0]| < |s| ==> s[|Split(s, sep)[0]|] == sep
    decreases |s|
  {
    if |s| > 0 && s[0] != sep {
      SplitHead(s[1..], sep);
      assert s == [s[0]] + s[1..];
    }
  }

  /** A string without the separator is one piece. */
  lemma SplitNoSeparator(s: string, sep: char)
    ensures sep !in s ==> Split(s, sep) == [s]
  {
    if sep !in s {
      SplitPlain(s, sep);
    }
  }

  /** The segment key `${note}-${ring}`. */
  function Key(note: string, ring: nat): string {
    note + [Separator] + NatToString(ring)
  }

  /** The note part of a key: element 0 of `key.split('-')`, which is the
      longest prefix free of the separator. */
  function KeyNote(key: string): (note: string)
    ensures Separator !in note && note <= key
    ensures |note| < |key| ==> key[|note|] == Separator
  {
    SplitHead(key, Separator);
    Split(key, Separator)[0]
  }

  /** The ring part of a key: `Number` of element 1 of `key.split('-')`,
      or None when the key has no separator. */
  function KeyRing(key: string): (r: Option<nat>)
    ensures Separator !in key ==> r.None?
  {
    SplitNoSeparator(key, Separator);
    var parts := Split(key, Separator);
    if |parts| < 2 then None else ParseRing(parts[1])
  }

  /** A note name free of '-' and a ring survive the key round trip. */
  lemma KeyRoundTrip(note: string, ring: nat)
    requires Separator !in note
    ensures Split(Key(note, ring), Separator) == [note, NatToString(ring)]
    ensures KeyNote(Key(note, ring)) == note
    ensures KeyRing(Key(note, ring)) == Some(ring)
  {
    var digits := NatToString(ring);
    assert forall i :: 0 <= i < |digits| ==> digits[i] != Separator;
    SplitAfterPiece(note, Separator, digits);
    SplitPlain(digits, Separator);
    NatToStringRoundTrip(ring);
  }

  /** Distinct segments have distinct keys, so `includes` on the highlight
      list singles out exactly the segments that were written into it. */
  lemma KeyInjective(n1: string, r1: nat, n2: string, r2: nat)
    requires Separator !in n1 && Separator !in n2
    ensures Key(n1, r1) == Key(n2, r2) <==> n1 == n2 && r1 == r2
  {
    KeyRoundTrip(n1, r1);
    KeyRoundTrip(n2, r2);
  }

  /** `notes.map(note => `${note}-${ring}`)`: one key per note, in order. */
  function Keys(notes: seq<string>, ring: nat): (keys: seq<string>)
    ensures |keys| == |notes|
    ensures forall i :: 0 <= i < |notes| ==> keys[i] == Key(notes[i], ring)
    decreases |notes|
  {
    if |notes| == 0 then [] else [Key(notes[0], ring)] + Keys(notes[1..], ring)
  }

  /** True when no name in the list contains the separator. */
  predicate SeparatorFree(notes: seq<string>) {
    forall i :: 0 <= i < |notes| ==> Separator !in notes[i]
  }

  /** No wheel note name contains the separator, so every key built from
      one splits back into the name and the ring. */
  lemma NoteNameSeparatorFree(s: string)
    requires Pitch.IsNoteName(s)
    ensures Separator !in s
  {
    var k :| 0 <= k < |Pitch.NoteNames| && Pitch.NoteNames[k] == s;
    assert forall j :: 0 <= j < |Pitch.NoteNames| ==> Separator !in Pitch.NoteNames[j];
  }
  /** A list of wheel note names is separator-free. */
  lemma NoteNamesSeparatorFree(notes: seq<string>)
    requires forall k :: 0 <= k < |notes| ==> Pitch.IsNoteName(notes[k])
    ensures SeparatorFree(notes)
  {
    forall k | 0 <= k < |notes|
      ensures Separator !in notes[k]
    {
      NoteNameSeparatorFree(notes[k]);
    }
  }


  /** `getCurrentChordNotes` (script.js:136-146): the note part of every
      highlighted key, in order and with repetitions. */
  method CurrentChordNotes(highlight: seq<string>) returns (chordNotes: seq<string>)
    ensures |chordNotes| == |highlight|
    ensures forall i :: 0 <= i < |highlight| ==> chordNotes[i] == KeyNote(highlight[i])
  {
    if |highlight| == 0 {
      return [];
    }
    chordNotes := [];
    var k := 0;
    while k < |highlight|
      invariant 0 <= k <= |highlight|
      invariant |chordNotes| == k
      invariant forall i :: 0 <= i < k ==> chordNotes[i] == KeyNote(highlight[i])
    {
      var parts := Split(highlight[k], Separator);
      chordNotes := chordNotes + [parts[0]];
      k := k + 1;
    }
  }

  /** The note parts of the keys of a chord are the chord's notes: reading a
      highlight written as `Keys(notes, ring)` yields `notes` again. */
  lemma {:induction false} KeysNotesRoundTrip(notes: seq<string>, ring: nat)
    requires SeparatorFree(notes)
    ensures forall i :: 0 <= i < |notes| ==> KeyNote(Keys(notes, ring)[i]) == notes[i]
    ensures forall i :: 0 <= i < |notes| ==> KeyRing(Keys(notes, ring)[i]) == Some(ring)
  {
    forall i | 0 <= i < |notes|
      ensures KeyNote(Keys(notes, ring)[i]) == notes[i]
      ensures KeyRing(Keys(notes, ring)[i]) == Some(ring)
    {
      KeyRoundTrip(notes[i], ring);
    }
  }
}
