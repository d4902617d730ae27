/** Pointer input on the wheel: the `mousemove` hover handler
    (script.js:1327-1369) and the click/touch handler `handleCanvasTouch`
    with its debounce (script.js:1372-1432). The pointer is already
    reduced to distance and atan2 (see Geometry); the clock is the `now`
    parameter, in integer milliseconds. */
module Interaction {
  import opened Wrappers
  import opened SegmentKey
  import opened Timeline
  import Pitch
  import Geometry

  /** `hoveredNote` / `hoveredOctave`: both null, or a name and a ring. */
  datatype HoverState = NoHover | Hovered(note: string, ring: int)

  /** The hover handler: over the ring band it selects the note and ring
      under the pointer and shows the pitch at octave ring + 3; elsewhere
      it clears the hover. */
  function Hover(p: Geometry.Pointer, maxRadius: real): (s: HoverState)
    requires Geometry.ValidPointer(p) && maxRadius > 0.0
    ensures s.Hovered? <==> Geometry.CenterRadius(maxRadius) <= p.distance <= maxRadius
    ensures s.Hovered? ==> Pitch.IsNoteName(s.note) && 0 <= s.ring <= Geometry.RingCount
  {
    match Geometry.Locate(p, maxRadius)
    case Miss => NoHover
    case Segment(i, r) => Hovered(Pitch.NoteNames[i], r)
  }

  /** The audio octave the handlers play or show for a ring. */
  function AudioOctave(ring: int): int {
    ring + 3
  }

  /** Hovering anywhere over the drawn segment of note `i` in ring `r`
      shows that note, and the pitch shown is `i` semitones above C in
      octave r + 3. */
  lemma HoverShowsSegment(maxRadius: real, i: int, r: int, d: real, t: real)
    requires maxRadius > 0.0
    requires 0 <= i < Pitch.NoteCount && 0 <= r < Geometry.RingCount
    requires Geometry.RingInner(maxRadius, r) <= d < Geometry.RingOuter(maxRadius, r)
    requires Geometry.WedgeStart(i) <= t < Geometry.WedgeEnd(i)
    ensures Hover(Geometry.Pointer(d, Geometry.Principal(t)), maxRadius) == Hovered(Pitch.NoteNames[i], r)
    ensures Pitch.HalfSteps(Pitch.NoteNames[i], AudioOctave(r)) == Pitch.HalfSteps("C", AudioOctave(r)) + i
  {
    Geometry.DrawnSegmentHits(maxRadius, i, r, d, t);
    assert Geometry.ValidPointer(Geometry.Pointer(d, Geometry.Principal(t))) by {
      assert 0.0 <= Geometry.CenterRadius(maxRadius) <= Geometry.RingInner(maxRadius, r) by {
        assert r as real * Geometry.RingWidth(maxRadius) >= 0.0;
      }
    }
    Pitch.IndexOfName(i);
    Pitch.IndexOfName(0);
  }

  /** `TOUCH_DEBOUNCE_MS`. */
  const TouchDebounceMs: int := 150
  /** A click plays its note for 500 ms at volume 0.3 ... */
  const ClickDurationMs: nat := 500
  const ClickVolume: real := 0.3
  /** ... and clears the highlight 500 ms after the click. */
  const ClickClearMs: nat := 500

  /** `lastTouchTime`. */
  datatype TouchState = TouchState(lastTouchTime: int)

  /** The state at page load: `let lastTouchTime = 0`. */
  const InitialTouchState: TouchState := TouchState(0)

  /** Whether a click or touch at `now` passes the debounce. */
  predicate Accepted(s: TouchState, now: int) {
    now - s.lastTouchTime >= TouchDebounceMs
  }

  /** What one call of the handler leaves: the new state and the events it
      starts, timed from the call. */
  datatype TouchOutcome = TouchOutcome(state: TouchState, events: seq<Event>)

  /** `handleCanvasTouch` at time `now`. A touch within 150 ms of the last
      accepted one is ignored. Otherwise it becomes the last accepted touch
      before the ring band is checked; a touch on a segment plays its note
      at octave ring + 3, lights only that segment, and clears the
      highlight 500 ms later. */
  function HandleTouch(s: TouchState, now: int, p: Geometry.Pointer, maxRadius: real): (o: TouchOutcome)
    requires Geometry.ValidPointer(p) && maxRadius > 0.0
    ensures !Accepted(s, now) ==> o == TouchOutcome(s, [])
    ensures Accepted(s, now) ==> o.state == TouchState(now)
    ensures o.events != [] <==> Accepted(s, now) && Geometry.CenterRadius(maxRadius) <= p.distance <= maxRadius
  {
    if now - s.lastTouchTime < TouchDebounceMs then TouchOutcome(s, [])
    else
      var s' := TouchState(now);
      match Geometry.Locate(p, maxRadius)
      case Miss => TouchOutcome(s', [])
      case Segment(i, r) =>
        TouchOutcome(s', ClickEvents(Pitch.NoteNames[i], r))
  }

  /** What a click on the segment of `note` in ring `ring` starts. */
  function ClickEvents(note: string, ring: nat): (tl: seq<Event>)
    ensures Sorted(tl) && AllFrom(tl, 0) && AllUntil(tl, ClickClearMs)
  {
    [Event(0, PlayTone(note, AudioOctave(ring), ClickDurationMs, ClickVolume)),
     Event(0, SetHighlight([Key(note, ring)])),
     Event(ClickClearMs, SetHighlight([]))]
  }

  lemma ClickWindow(note: string, ring: nat, x: int, h: seq<string>)
    ensures var tl := ClickEvents(note, ring);
      && (x < 0 ==> HighlightAt(tl, x, h) == h)
      && (0 <= x < ClickClearMs ==> HighlightAt(tl, x, h) == [Key(note, ring)])
      && (ClickClearMs <= x ==> HighlightAt(tl, x, h) == [])
      && ToneCount(tl) == 1
  {
    var tone := [Event(0, PlayTone(note, AudioOctave(ring), ClickDurationMs, ClickVolume))];
    var lit := [Event(0, SetHighlight([Key(note, ring)]))];
    var clear := [Event(ClickClearMs, SetHighlight([]))];
    var tl := ClickEvents(note, ring);
    assert tl == (tone + lit) + clear;
    if x < 0 {
      HighlightAtBeforeAll(tl, x, h);
    } else if x < ClickClearMs {
      HighlightAtConcat(tone + lit, clear, x, h);
      HighlightAtEndsWith(tone, 0, [Key(note, ring)], x, h);
      HighlightAtBeforeAll(clear, x, [Key(note, ring)]);
    } else {
      HighlightAtEndsWith(tone + lit, ClickClearMs, [], x, h);
    }
    ToneCountConcat(tone + lit, clear);
    ToneCountConcat(tone, lit);
  }

  /** An accepted touch on a segment: the highlight holds exactly that
      segment's key for 500 ms, the key decodes back to the note and ring
      under the pointer, then the highlight is empty; one tone is played,
      at the ring's audio octave. */
  lemma TouchHighlightWindow(s: TouchState, now: int, p: Geometry.Pointer, maxRadius: real, x: int, h: seq<string>)
    requires Geometry.ValidPointer(p) && maxRadius > 0.0
    requires Accepted(s, now) && Geometry.CenterRadius(maxRadius) <= p.distance <= maxRadius
    ensures var hit := Geometry.Locate(p, maxRadius);
      var tl := HandleTouch(s, now, p, maxRadius).events;
      var key := Key(Pitch.NoteNames[hit.noteIndex], hit.ring);
      && (x < 0 ==> HighlightAt(tl, x, h) == h)
      && (0 <= x < ClickClearMs ==> HighlightAt(tl, x, h) == [key])
      && (ClickClearMs <= x ==> HighlightAt(tl, x, h) == [])
      && KeyNote(key) == Pitch.NoteNames[hit.noteIndex] && KeyRing(key) == Some(hit.ring)
      && ToneCount(tl) == 1
      && Event(0, PlayTone(Pitch.NoteNames[hit.noteIndex], AudioOctave(hit.ring), ClickDurationMs, ClickVolume)) in tl
  {
    var hit := Geometry.Locate(p, maxRadius);
    var note := Pitch.NoteNames[hit.noteIndex];
    assert HandleTouch(s, now, p, maxRadius).events == ClickEvents(note, hit.ring);
    ClickWindow(note, hit.ring, x, h);
    NoteNameSeparatorFree(note);
    KeyRoundTrip(note, hit.ring);
    assert ClickEvents(note, hit.ring)[0] in ClickEvents(note, hit.ring);
  }

  /** A touch that passes the debounce but misses the band plays nothing,
      yet still blocks every touch of the next 150 ms. */
  lemma MissStillBlocks(s: TouchState, now: int, p: Geometry.Pointer, maxRadius: real, later: int, q: Geometry.Pointer)
    requires Geometry.ValidPointer(p) && Geometry.ValidPointer(q) && maxRadius > 0.0
    requires Accepted(s, now) && Geometry.Locate(p, maxRadius).Miss?
    requires later < now + TouchDebounceMs
    ensures HandleTouch(s, now, p, maxRadius).events == []
    ensures var s' := HandleTouch(s, now, p, maxRadius).state;
      HandleTouch(s', later, q, maxRadius) == TouchOutcome(s', [])
  {
  }

  /** At page load `lastTouchTime` is 0, so the first touch is accepted
      exactly when the clock reads at least 150 ms, as `Date.now()` always
      does; it then becomes the last accepted touch. */
  lemma FirstTouchAccepted(now: int, p: Geometry.Pointer, maxRadius: real)
    requires Geometry.ValidPointer(p) && maxRadius > 0.0
    ensures Accepted(InitialTouchState, now) <==> now >= TouchDebounceMs
    ensures now >= TouchDebounceMs ==> HandleTouch(InitialTouchState, now, p, maxRadius).state == TouchState(now)
  {
  }

  /** The state after the handler has run on each touch of a run in turn,
      touch `k` at time `times[k]` and position `ps[k]`. */
  function HandleTouches(s: TouchState, times: seq<int>, ps: seq<Geometry.Pointer>, maxRadius: real): (r: TouchState)
    requires |ps| == |times| && maxRadius > 0.0
    requires forall k :: 0 <= k < |ps| ==> Geometry.ValidPointer(ps[k])
    ensures r == s || (r.lastTouchTime in times && r.lastTouchTime >= s.lastTouchTime + TouchDebounceMs)
    decreases |times|
  {
    if |times| == 0 then s
    else HandleTouches(HandleTouch(s, times[0], ps[0], maxRadius).state, times[1..], ps[1..], maxRadius)
  }

  /** Wherever the touches land, the handler's state follows the debounce
      rule alone: running the handler over a run gives `DebounceState`. */
  lemma {:induction false} HandleTouchesDebounce(s: TouchState, times: seq<int>, ps: seq<Geometry.Pointer>, maxRadius: real)
    requires |ps| == |times| && maxRadius > 0.0
    requires forall k :: 0 <= k < |ps| ==> Geometry.ValidPointer(ps[k])
    ensures HandleTouches(s, times, ps, maxRadius) == DebounceState(s, times)
    decreases |times|
  {
    if |times| > 0 {
      var s' := HandleTouch(s, times[0], ps[0], maxRadius).state;
      assert s' == (if Accepted(s, times[0]) then TouchState(times[0]) else s);
      HandleTouchesDebounce(s', times[1..], ps[1..], maxRadius);
    }
  }

  /** The state after a run of touches at the given times: either the
      starting state or a later touch of the run. */
  function DebounceState(s: TouchState, times: seq<int>): (r: TouchState)
    ensures r == s || (r.lastTouchTime in times && r.lastTouchTime >= s.lastTouchTime + TouchDebounceMs)
    decreases |times|
  {
    if |times| == 0 then s
    else DebounceState(if Accepted(s, times[0]) then TouchState(times[0]) else s, times[1..])
  }

  /** `a` is `b` with some elements left out: its elements appear in `b`
      in the same order. */
  predicate IsSubsequence(a: seq<int>, b: seq<int>)
    decreases |b|
  {
    if |a| == 0 then true
    else if |b| == 0 then false
    else (a[0] == b[0] && IsSubsequence(a[1..], b[1..])) || IsSubsequence(a, b[1..])
  }

  /** The times of a run that pass the debounce: a subsequence of the run,
      in order, whose last element is the state the run leaves. */
  function AcceptedTimes(s: TouchState, times: seq<int>): (acc: seq<int>)
    ensures IsSubsequence(acc, times)
    ensures |acc| == 0 ==> DebounceState(s, times) == s
    ensures |acc| > 0 ==> DebounceState(s, times) == TouchState(acc[|acc| - 1])
    decreases |times|
  {
    if |times| == 0 then []
    else if Accepted(s, times[0]) then [times[0]] + AcceptedTimes(TouchState(times[0]), times[1..])
    else AcceptedTimes(s, times[1..])
  }

  /** Every element of a subsequence is an element of the whole. */
  lemma {:induction false} SubsequenceMembers(a: seq<int>, b: seq<int>)
    requires IsSubsequence(a, b)
    ensures forall k :: 0 <= k < |a| ==> a[k] in b
    decreases |b|
  {
    if |a| > 0 {
      assert |b| > 0;
      if a[0] == b[0] && IsSubsequence(a[1..], b[1..]) {
        SubsequenceMembers(a[1..], b[1..]);
        forall k | 0 <= k < |a|
          ensures a[k] in b
        {
          if k > 0 {
            assert a[k] == a[1..][k - 1];
            assert a[k] in b[1..];
          }
        }
      } else {
        SubsequenceMembers(a, b[1..]);
        forall k | 0 <= k < |a|
          ensures a[k] in b
        {
          assert a[k] in b[1..];
        }
      }
    }
  }

  /** Every accepted time is the time of one of the run's touches. */
  lemma AcceptedTimesInRun(s: TouchState, times: seq<int>)
    ensures var acc := AcceptedTimes(s, times);
      forall k :: 0 <= k < |acc| ==> acc[k] in times
  {
    SubsequenceMembers(AcceptedTimes(s, times), times);
  }

  /** Accepted touches are at least 150 ms apart, and after the last
      accepted touch of a run (if any) it is the state; otherwise the state
      is unchanged. */
  lemma {:induction false} DebounceSpacing(s: TouchState, times: seq<int>)
    ensures var acc := AcceptedTimes(s, times);
      && (|acc| > 0 ==> s.lastTouchTime + TouchDebounceMs <= acc[0])
      && (forall k :: 0 <= k < |acc| - 1 ==> acc[k] + TouchDebounceMs <= acc[k + 1])
      && DebounceState(s, times) == (if |acc| == 0 then s else TouchState(acc[|acc| - 1]))
    decreases |times|
  {
    if |times| > 0 {
      if Accepted(s, times[0]) {
        var s' := TouchState(times[0]);
        DebounceSpacing(s', times[1..]);
        var rest := AcceptedTimes(s', times[1..]);
        assert AcceptedTimes(s, times) == [times[0]] + rest;
      } else {
        DebounceSpacing(s, times[1..]);
      }
    }
  }

  /** A run of touches that pass the debounce one after another needs them
      150 ms apart: every touch of a run spaced that widely is accepted. */
  lemma {:induction false} SpacedTouchesAccepted(s: TouchState, times: seq<int>)
    requires |times| > 0 ==> s.lastTouchTime + TouchDebounceMs <= times[0]
    requires forall i, j :: 0 <= i < j < |times| ==> times[i] + TouchDebounceMs <= times[j]
    ensures AcceptedTimes(s, times) == times
    decreases |times|
  {
    if |times| > 0 {
      assert Accepted(s, times[0]);
      SpacedTouchesAccepted(TouchState(times[0]), times[1..]);
      AcceptedTimesFront(s, times);
    }
  }

  /** An accepted first touch heads the accepted times. */
  lemma AcceptedTimesFront(s: TouchState, times: seq<int>)
    requires |times| > 0 && Accepted(s, times[0])
    ensures AcceptedTimes(s, times) == [times[0]] + AcceptedTimes(TouchState(times[0]), times[1..])
  {
  }

  /** Spacing consecutive touches 150 ms apart spaces every pair of them:
      the pairwise condition above is the consecutive one. */
  lemma {:induction false} ConsecutiveSpacing(times: seq<int>)
    requires forall k :: 0 <= k < |times| - 1 ==> times[k] + TouchDebounceMs <= times[k + 1]
    ensures forall i, j :: 0 <= i < j < |times| ==> times[i] + TouchDebounceMs <= times[j]
    decreases |times|
  {
    if |times| > 1 {
      var rest := times[1..];
      assert forall k :: 0 <= k < |rest| - 1 ==> rest[k] + TouchDebounceMs <= rest[k + 1] by {
        forall k | 0 <= k < |rest| - 1
          ensures rest[k] + TouchDebounceMs <= rest[k + 1]
        {
          assert rest[k] == times[k + 1] && rest[k + 1] == times[k + 2];
        }
      }
      ConsecutiveSpacing(rest);
      forall i, j | 0 <= i < j < |times|
        ensures times[i] + TouchDebounceMs <= times[j]
      {
        if i > 0 {
          assert times[i] == rest[i - 1] && times[j] == rest[j - 1];
        } else if j > 1 {
          assert times[1] == rest[0] && times[j] == rest[j - 1];
        }
      }
    }
  }
}
