/** Pointer-to-segment mapping of the wheel, measured in turns instead of
    radians (one turn = 2π), and the wedge and ring bounds `drawWheel`
    draws (script.js:151-161, 1332-1342, 1393-1403). Reals are exact here;
    the browser's floating point is not modelled. */
module Geometry {
  import Pitch

  /** `octaves`: the number of drawn rings. */
  const RingCount: nat := 4

  /** The centre disc takes this fraction of `maxRadius`. */
  const CenterFraction: real := 0.2

  /** `maxRadius * 0.2`: the radius of the centre disc, the inner edge of ring 0. */
  function CenterRadius(maxRadius: real): (c: real)
    ensures maxRadius > 0.0 ==> 0.0 < c < maxRadius
  {
    maxRadius * CenterFraction
  }

  /** `availableRadius / octaves`: the width of one ring. The four rings
      exactly fill the space between the centre disc and `maxRadius`. */
  function RingWidth(maxRadius: real): (w: real)
    ensures CenterRadius(maxRadius) + RingCount as real * w == maxRadius
    ensures maxRadius > 0.0 ==> w > 0.0
  {
    (maxRadius - CenterRadius(maxRadius)) / RingCount as real
  }

  /** `baseInnerRadius` of ring `ring` in drawWheel: ring 0 starts at the
      centre disc. */
  function RingInner(maxRadius: real, ring: int): (ri: real)
    ensures ring == 0 ==> ri == CenterRadius(maxRadius)
  {
    CenterRadius(maxRadius) + ring as real * RingWidth(maxRadius)
  }

  /** `baseOuterRadius` of ring `ring` in drawWheel: each ring ends where
      the next begins, and the last drawn ring ends at `maxRadius`. */
  function RingOuter(maxRadius: real, ring: int): (ro: real)
    ensures ro == RingInner(maxRadius, ring + 1)
    ensures ring + 1 == RingCount ==> ro == maxRadius
  {
    CenterRadius(maxRadius) + (ring + 1) as real * RingWidth(maxRadius)
  }

  /** `startAngle` of wedge `i` in turns: (i/12)·2π − π/2 radians. Wedge 0
      starts at the top, and the twelve wedges start within one turn. */
  function WedgeStart(i: int): (a: real)
    ensures i == 0 ==> a == -0.25
    ensures 0 <= i < Pitch.NoteCount ==> -0.25 <= a < 0.75
  {
    i as real / Pitch.NoteCount as real - 0.25
  }

  /** `endAngle` of wedge `i` in turns: ((i+1)/12)·2π − π/2 radians. Each
      wedge ends where the next starts, and the last one ends a full turn
      after the first one starts. */
  function WedgeEnd(i: int): (e: real)
    ensures e == WedgeStart(i + 1)
    ensures i + 1 == Pitch.NoteCount ==> e == WedgeStart(0) + 1.0
  {
    (i + 1) as real / Pitch.NoteCount as real - 0.25
  }

  /** What `Math.atan2` reports, in turns, for a point whose polar angle is
      `t` turns: the representative of `t` modulo whole turns that lies in
      (−1/2, 1/2]. */
  function Principal(t: real): (a: real)
    ensures -0.5 < a <= 0.5
    ensures (t - a).Floor as real == t - a
  {
    var k := -((0.5 - t).Floor);
    t - k as real
  }

  /** A pointer position relative to the wheel centre: `distance` is
      `Math.sqrt(x*x + y*y)` and `atanTurns` is `Math.atan2(y, x)` in turns. */
  datatype Pointer = Pointer(distance: real, atanTurns: real)

  /** The ranges `Math.sqrt` and `Math.atan2` return. */
  predicate ValidPointer(p: Pointer) {
    0.0 <= p.distance && -0.5 < p.atanTurns <= 0.5
  }

  /** `angle = atan2 + π/2`, plus a full turn when negative. */
  function NormalizedTurns(a: real): (u: real)
    requires -0.5 < a <= 0.5
    ensures 0.0 <= u < 1.0
    ensures u == a + 0.25 || u == a + 1.25
  {
    var angle := a + 0.25;
    if angle < 0.0 then angle + 1.0 else angle
  }

  /** The outcome of the pointer mapping. `ring` is the visual ring; the
      handlers play octave `ring + 3`. */
  datatype Hit = Miss | Segment(noteIndex: int, ring: int)

  /** x·w ≤ y·w with w > 0 gives x ≤ y, for both strict and weak order. */
  lemma ScaleCancel(x: real, y: real, w: real)
    requires w > 0.0
    ensures x * w <= y * w <==> x <= y
    ensures x * w < y * w <==> x < y
  {
    if x <= y {
      assert (y - x) * w >= 0.0;
    } else {
      assert (x - y) * w > 0.0;
    }
  }

  /** The ring index floor((d − cR) / w) is `r` exactly when d lies
      between the drawn bounds of ring `r`. */
  lemma RingBounds(maxRadius: real, d: real, r: int)
    requires maxRadius > 0.0
    ensures (((d - CenterRadius(maxRadius)) / RingWidth(maxRadius)).Floor == r)
        <==> (RingInner(maxRadius, r) <= d < RingOuter(maxRadius, r))
  {
    var w := RingWidth(maxRadius);
    var q := (d - CenterRadius(maxRadius)) / w;
    assert q * w == d - CenterRadius(maxRadius);
    FloorBand(q, w, r, d - CenterRadius(maxRadius));
  }

  /** floor(q) = r exactly when q·w lies in [r·w, (r+1)·w). */
  lemma FloorBand(q: real, w: real, r: int, x: real)
    requires w > 0.0
    requires q * w == x
    ensures q.Floor == r <==> r as real * w <= x < (r + 1) as real * w
  {
    Cancel(r as real, q, w, r as real * w, x);
    Cancel(q, (r + 1) as real, w, x, (r + 1) as real * w);
    FloorChar(q, r);
  }

  /** ScaleCancel for products already computed. */
  lemma Cancel(a: real, b: real, w: real, aw: real, bw: real)
    requires w > 0.0 && aw == a * w && bw == b * w
    ensures aw <= bw <==> a <= b
    ensures aw < bw <==> a < b
  {
    ScaleCancel(a, b, w);
  }

  /** floor(q) = r exactly when r ≤ q < r + 1. */
  lemma FloorChar(q: real, r: int)
    ensures q.Floor == r <==> r as real <= q < (r + 1) as real
  {
  }

  /** The mapping of the `mousemove` handler and of `handleCanvasTouch`:
      inside the band [0.2·maxRadius, maxRadius] a point selects the note
      wedge by its normalised angle and the ring by its distance past the
      centre disc; anywhere else it is a miss. */
  function Locate(p: Pointer, maxRadius: real): (h: Hit)
    requires ValidPointer(p)
    requires maxRadius > 0.0
    ensures h.Segment? <==> CenterRadius(maxRadius) <= p.distance <= maxRadius
    ensures h.Segment? ==> 0 <= h.noteIndex < Pitch.NoteCount && 0 <= h.ring <= RingCount
    ensures h.Segment? ==> (h.ring == RingCount <==> p.distance == maxRadius)
  {
    var centerRadius := CenterRadius(maxRadius);
    if p.distance <= maxRadius && p.distance >= centerRadius then
      var adjustedDistance := p.distance - centerRadius;
      var availableRadius := maxRadius - centerRadius;
      var ring := (adjustedDistance / (availableRadius / RingCount as real)).Floor;
      var noteIndex := (NormalizedTurns(p.atanTurns) * Pitch.NoteCount as real).Floor % Pitch.NoteCount;
      RingRange(maxRadius, p.distance, ring);
      Segment(noteIndex, ring)
    else
      Miss
  }

  /** Where a distance in the band falls: rings 0..3 cover [cR, maxRadius),
      and only the rim itself yields ring 4. */
  lemma RingRange(maxRadius: real, d: real, r: int)
    requires maxRadius > 0.0
    requires CenterRadius(maxRadius) <= d <= maxRadius
    requires r == ((d - CenterRadius(maxRadius)) / RingWidth(maxRadius)).Floor
    ensures 0 <= r <= RingCount
    ensures r == RingCount <==> d == maxRadius
  {
    var w := RingWidth(maxRadius);
    var q := (d - CenterRadius(maxRadius)) / w;
    assert w > 0.0;
    assert q * w == d - CenterRadius(maxRadius);
    ScaleCancel(0.0, q, w);
    ScaleCancel(q, RingCount as real, w);
    assert 0.0 <= q <= RingCount as real;
    assert q == RingCount as real <==> d == maxRadius;
  }

  /** Two representatives of the same direction are equal. */
  lemma {:induction false} PrincipalUnique(t: real, a: real)
    requires -0.5 < a <= 0.5
    requires (t - a).Floor as real == t - a
    ensures Principal(t) == a
  {
    var b := Principal(t);
    var m := (t - a).Floor - (t - b).Floor;
    assert b - a == m as real;
  }

  /** A polar angle inside the drawn wedge `i` comes back from atan2 and the
      handlers' normalisation as note index `i`. */
  lemma {:induction false} AngleInWedge(t: real, i: int)
    requires 0 <= i < Pitch.NoteCount
    requires WedgeStart(i) <= t < WedgeEnd(i)
    ensures (NormalizedTurns(Principal(t)) * Pitch.NoteCount as real).Floor % Pitch.NoteCount == i
  {
    var a := Principal(t);
    var u := NormalizedTurns(a);
    var k := (t - a).Floor;
    var m := if u == a + 0.25 then -k else 1 - k;
    assert u == t + 0.25 + m as real;
    assert 0.0 <= t + 0.25 < 1.0;
    assert m == 0;
    assert i as real <= u * 12.0 < (i + 1) as real;
  }

  /** Draw/hit agreement: every point of the wedge of note `i` in ring `r`,
      as drawWheel draws it, maps back to note `i` and ring `r`. */
  lemma {:induction false} DrawnSegmentHits(maxRadius: real, i: int, r: int, d: real, t: real)
    requires maxRadius > 0.0
    requires 0 <= i < Pitch.NoteCount && 0 <= r < RingCount
    requires RingInner(maxRadius, r) <= d < RingOuter(maxRadius, r)
    requires WedgeStart(i) <= t < WedgeEnd(i)
    ensures Locate(Pointer(d, Principal(t)), maxRadius) == Segment(i, r)
  {
    RingBounds(maxRadius, d, r);
    assert RingOuter(maxRadius, r) <= RingOuter(maxRadius, RingCount as int - 1) == maxRadius by {
      assert (r + 1) as real * RingWidth(maxRadius) <= RingCount as real * RingWidth(maxRadius);
    }
    assert CenterRadius(maxRadius) <= RingInner(maxRadius, r) by {
      assert r as real * RingWidth(maxRadius) >= 0.0;
    }
    AngleInWedge(t, i);
  }

  /** The converse: a hit on note `i` in a drawn ring `r` lies inside that
      ring's bounds, and its normalised angle, turned back by a quarter,
      is a polar angle of the pointer inside wedge `i`. */
  lemma {:induction false} HitLiesInDrawnSegment(p: Pointer, maxRadius: real, i: int, r: int)
    requires ValidPointer(p) && maxRadius > 0.0
    requires Locate(p, maxRadius) == Segment(i, r)
    requires r < RingCount
    ensures RingInner(maxRadius, r) <= p.distance < RingOuter(maxRadius, r)
    ensures WedgeStart(i) <= NormalizedTurns(p.atanTurns) - 0.25 < WedgeEnd(i)
    ensures Principal(NormalizedTurns(p.atanTurns) - 0.25) == p.atanTurns
  {
    RingBounds(maxRadius, p.distance, r);
    var u := NormalizedTurns(p.atanTurns);
    var f := (u * Pitch.NoteCount as real).Floor;
    assert 0 <= f < Pitch.NoteCount;
    assert f == i;
    if u == p.atanTurns + 0.25 {
      assert (u - 0.25 - p.atanTurns).Floor == 0;
    } else {
      assert (u - 0.25 - p.atanTurns).Floor == 1;
    }
    PrincipalUnique(u - 0.25, p.atanTurns);
  }

  /** The centre of each drawn segment, at angle ((i+½)/12)·2π − π/2 and
      radius cR + (r+½)·w, maps back to note `i` and ring `r`. */
  lemma WedgeCentreRoundTrip(maxRadius: real, i: int, r: int)
    requires maxRadius > 0.0
    requires 0 <= i < Pitch.NoteCount && 0 <= r < RingCount
    ensures Locate(Pointer(CenterRadius(maxRadius) + (r as real + 0.5) * RingWidth(maxRadius),
                           Principal((i as real + 0.5) / Pitch.NoteCount as real - 0.25)), maxRadius)
         == Segment(i, r)
  {
    var w := RingWidth(maxRadius);
    var d := CenterRadius(maxRadius) + (r as real + 0.5) * w;
    var t := (i as real + 0.5) / Pitch.NoteCount as real - 0.25;
    assert RingInner(maxRadius, r) <= d < RingOuter(maxRadius, r) by {
      assert (r as real + 0.5) * w == r as real * w + 0.5 * w;
      assert (r + 1) as real * w == r as real * w + w;
    }
    assert WedgeStart(i) <= t < WedgeEnd(i);
    DrawnSegmentHits(maxRadius, i, r, d, t);
  }
}
