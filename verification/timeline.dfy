/** Timelines: what one call of a playback or input routine sets in motion,
    as a list of timestamped events. Time is integer milliseconds counted
    from the call; the list is in the order the events run, so a timeline
    that is sorted by time lists them as the browser's timer queue would
    fire them. The shared highlight list is observed by folding the events
    up to a moment over an initial highlight. */
module Timeline {
  import opened Wrappers
  import SegmentKey

  /** What an event does. `PlayTone` hands a note to `playNote` (with
      `noteToFrequency` of `note`, `octave`); `SetHighlight` overwrites
      `highlightedSegments`; `Cleanup` clears it and resets the display. */
  datatype Action =
    | PlayTone(note: string, octave: int, durationMs: nat, volume: real)
    | SetHighlight(keys: seq<string>)
    | Cleanup

  datatype Event = Event(at: int, action: Action)

  predicate Sorted(tl: seq<Event>) {
    forall j, k :: 0 <= j < k < |tl| ==> tl[j].at <= tl[k].at
  }

  /** Every event happens at `t` or later. */
  predicate AllFrom(tl: seq<Event>, t: int) {
    forall k :: 0 <= k < |tl| ==> t <= tl[k].at
  }

  /** Every event happens at `t` or earlier. */
  predicate AllUntil(tl: seq<Event>, t: int) {
    forall k :: 0 <= k < |tl| ==> tl[k].at <= t
  }

  /** The highlight list after one action. */
  function Apply(highlight: seq<string>, a: Action): seq<string> {
    match a
    case PlayTone(_, _, _, _) => highlight
    case SetHighlight(keys) => keys
    case Cleanup => []
  }

  /** The highlight list at moment `time`: the events at or before `time`
      applied in order to the highlight `h` that held before the call. */
  function HighlightAt(tl: seq<Event>, time: int, h: seq<string>): seq<string>
    decreases |tl|
  {
    if |tl| == 0 then h
    else if tl[0].at <= time then HighlightAt(tl[1..], time, Apply(h, tl[0].action))
    else HighlightAt(tl[1..], time, h)
  }

  /** Number of `playNote` requests in a timeline. */
  function ToneCount(tl: seq<Event>): nat
    decreases |tl|
  {
    if |tl| == 0 then 0
    else (if tl[0].action.PlayTone? then 1 else 0) + ToneCount(tl[1..])
  }

  /** Observing a concatenation observes the second part from where the
      first part left the highlight. */
  lemma {:induction false} HighlightAtConcat(a: seq<Event>, b: seq<Event>, time: int, h: seq<string>)
    ensures HighlightAt(a + b, time, h) == HighlightAt(b, time, HighlightAt(a, time, h))
    decreases |a|
  {
    if |a| > 0 {
      assert (a + b)[1..] == a[1..] + b;
      var h' := if a[0].at <= time then Apply(h, a[0].action) else h;
      HighlightAtConcat(a[1..], b, time, h');
    } else {
      assert a + b == b;
    }
  }

  /** Events after `time` have not happened yet. */
  lemma {:induction false} HighlightAtBeforeAll(tl: seq<Event>, time: int, h: seq<string>)
    requires AllFrom(tl, time + 1)
    ensures HighlightAt(tl, time, h) == h
    decreases |tl|
  {
    if |tl| > 0 {
      HighlightAtBeforeAll(tl[1..], time, h);
    }
  }

  /** A timeline that has fully run and ends by overwriting the highlight
      with `keys` leaves `keys`, whatever held before. */
  lemma HighlightAtEndsWith(a: seq<Event>, t: int, keys: seq<string>, time: int, h: seq<string>)
    requires t <= time
    ensures HighlightAt(a + [Event(t, SetHighlight(keys))], time, h) == keys
  {
    HighlightAtConcat(a, [Event(t, SetHighlight(keys))], time, h);
  }

  lemma {:induction false} ToneCountConcat(a: seq<Event>, b: seq<Event>)
    ensures ToneCount(a + b) == ToneCount(a) + ToneCount(b)
    decreases |a|
  {
    if |a| > 0 {
      assert (a + b)[1..] == a[1..] + b;
      ToneCountConcat(a[1..], b);
    } else {
      assert a + b == b;
    }
  }

  /** Two sorted timelines, the first ending no later than the second
      starts, run one after the other. */
  lemma SortedConcat(a: seq<Event>, b: seq<Event>, t: int)
    requires Sorted(a) && Sorted(b)
    requires AllUntil(a, t) && AllFrom(b, t)
    ensures Sorted(a + b)
  {
    forall j, k | 0 <= j < k < |a + b|
      ensures (a + b)[j].at <= (a + b)[k].at
    {
      if k < |a| {
      } else if j < |a| {
        assert (a + b)[j] == a[j] && (a + b)[k] == b[k - |a|];
      } else {
        assert (a + b)[j] == b[j - |a|] && (a + b)[k] == b[k - |a|];
      }
    }
  }

  /** Every key decodes to a ring no greater than `maxRing`. */
  predicate KeysWithinRings(keys: seq<string>, maxRing: nat) {
    forall j :: 0 <= j < |keys| ==>
      SegmentKey.KeyRing(keys[j]).Some? && SegmentKey.KeyRing(keys[j]).value <= maxRing
  }

  /** Every highlight the timeline writes names rings up to `maxRing` only. */
  predicate HighlightsWithinRings(tl: seq<Event>, maxRing: nat) {
    forall k :: 0 <= k < |tl| && tl[k].action.SetHighlight? ==>
      KeysWithinRings(tl[k].action.keys, maxRing)
  }

  /** A timeline of tones only leaves the highlight alone. */
  predicate TonesOnly(tl: seq<Event>) {
    forall k :: 0 <= k < |tl| ==> tl[k].action.PlayTone?
  }

  lemma {:induction false} HighlightAtTonesOnly(tl: seq<Event>, time: int, h: seq<string>)
    requires TonesOnly(tl)
    ensures HighlightAt(tl, time, h) == h
    decreases |tl|
  {
    if |tl| > 0 {
      HighlightAtTonesOnly(tl[1..], time, h);
    }
  }

  /** Two timelines run one after the other when the first ends by the
      time the second starts; the bounds and tone counts combine. */
  lemma Sequence(a: seq<Event>, b: seq<Event>, lo: int, mid: int, hi: int)
    requires Sorted(a) && AllFrom(a, lo) && AllUntil(a, mid)
    requires Sorted(b) && AllFrom(b, mid) && AllUntil(b, hi)
    requires lo <= mid <= hi
    ensures Sorted(a + b) && AllFrom(a + b, lo) && AllUntil(a + b, hi)
    ensures ToneCount(a + b) == ToneCount(a) + ToneCount(b)
  {
    SortedConcat(a, b, mid);
    ToneCountConcat(a, b);
  }

  /** Observed after a block that ends by overwriting the highlight with
      `keys`, and before anything later, the highlight is `keys`. */
  lemma ObserveLastOverwrite(pre: seq<Event>, body: seq<Event>, t: int, keys: seq<string>,
                             post: seq<Event>, x: int, h: seq<string>)
    requires t <= x && AllFrom(post, x + 1)
    ensures HighlightAt(pre + ((body + [Event(t, SetHighlight(keys))]) + post), x, h) == keys
  {
    var block := body + [Event(t, SetHighlight(keys))];
    HighlightAtConcat(pre, block + post, x, h);
    HighlightAtConcat(block, post, x, HighlightAt(pre, x, h));
    HighlightAtEndsWith(body, t, keys, x, HighlightAt(pre, x, h));
    HighlightAtBeforeAll(post, x, keys);
  }

  /** Observed after a block's opening overwrite with `keys` and the tones
      that follow it, but before the rest of the block, the highlight is
      `keys`. */
  lemma ObserveFirstOverwrite(pre: seq<Event>, t: int, keys: seq<string>, tones: seq<Event>,
                              later: seq<Event>, post: seq<Event>, x: int, h: seq<string>)
    requires t <= x && TonesOnly(tones) && AllFrom(later, x + 1) && AllFrom(post, x + 1)
    ensures HighlightAt(pre + ((([Event(t, SetHighlight(keys))] + tones) + later) + post), x, h) == keys
  {
    var head := [Event(t, SetHighlight(keys))];
    var h0 := HighlightAt(pre, x, h);
    HighlightAtConcat(pre, ((head + tones) + later) + post, x, h);
    HighlightAtConcat(head + tones, later + post, x, h0);
    assert ((head + tones) + later) + post == (head + tones) + (later + post);
    HighlightAtConcat(head, tones, x, h0);
    HighlightAtTonesOnly(tones, x, keys);
    assert AllFrom(later + post, x + 1);
    HighlightAtBeforeAll(later + post, x, keys);
  }

  /** Keys built from separator-free names on ring `ring` decode to that ring. */
  lemma KeysRings(notes: seq<string>, ring: nat, maxRing: nat)
    requires SegmentKey.SeparatorFree(notes) && ring <= maxRing
    ensures KeysWithinRings(SegmentKey.Keys(notes, ring), maxRing)
  {
    forall j | 0 <= j < |notes|
      ensures SegmentKey.KeyRing(SegmentKey.Keys(notes, ring)[j]) == Some(ring)
    {
      SegmentKey.KeyRoundTrip(notes[j], ring);
    }
  }

  lemma KeysWithinRingsConcat(a: seq<string>, b: seq<string>, maxRing: nat)
    requires KeysWithinRings(a, maxRing) && KeysWithinRings(b, maxRing)
    ensures KeysWithinRings(a + b, maxRing)
  {
    forall j | 0 <= j < |a + b|
      ensures SegmentKey.KeyRing((a + b)[j]).Some? && SegmentKey.KeyRing((a + b)[j]).value <= maxRing
    {
      if j < |a| {
        assert (a + b)[j] == a[j];
      } else {
        assert (a + b)[j] == b[j - |a|];
      }
    }
  }

  lemma HighlightsWithinRingsConcat(a: seq<Event>, b: seq<Event>, maxRing: nat)
    requires HighlightsWithinRings(a, maxRing) && HighlightsWithinRings(b, maxRing)
    ensures HighlightsWithinRings(a + b, maxRing)
  {
    forall k | 0 <= k < |a + b| && (a + b)[k].action.SetHighlight?
      ensures KeysWithinRings((a + b)[k].action.keys, maxRing)
    {
      if k < |a| {
        assert (a + b)[k] == a[k];
      } else {
        assert (a + b)[k] == b[k - |a|];
      }
    }
  }

  lemma AllFromWeaken(tl: seq<Event>, a: int, b: int)
    requires AllFrom(tl, b) && a <= b
    ensures AllFrom(tl, a)
  {
  }

  /** A body of events between an opening event and a closing one that
      comes no earlier than the body ends. */
  lemma Framed(open: Event, body: seq<Event>, close: Event, hi: int)
    requires Sorted(body) && AllFrom(body, open.at) && AllUntil(body, hi) && open.at <= hi <= close.at
    ensures var tl := [open] + body + [close];
      && Sorted(tl) && AllFrom(tl, open.at)
      && tl[|tl| - 1] == close
      && tl[..|tl| - 1] == [open] + body
      && AllUntil([open] + body, hi)
      && ToneCount(tl) == ToneCount([open]) + ToneCount(body) + ToneCount([close])
  {
    Sequence([open], body, open.at, open.at, hi);
    Sequence([open] + body, [close], open.at, hi, close.at);
    assert ([open] + body + [close])[..|[open] + body + [close]| - 1] == [open] + body;
  }

  /** The events of one callback group, with the window they run in. */
  datatype Block = Block(events: seq<Event>, from: int, until: int)

  /** The events of consecutive blocks, block after block. */
  function Flatten(bs: seq<Block>): seq<Event>
    decreases |bs|
  {
    if |bs| == 0 then [] else bs[0].events + Flatten(bs[1..])
  }

  lemma {:induction false} FlattenConcat(a: seq<Block>, b: seq<Block>)
    ensures Flatten(a + b) == Flatten(a) + Flatten(b)
    decreases |a|
  {
    if |a| == 0 {
      assert a + b == b;
    } else {
      assert (a + b)[1..] == a[1..] + b;
      FlattenConcat(a[1..], b);
    }
  }

  lemma FlattenSingle(b: Block)
    ensures Flatten([b]) == b.events
  {
    assert [b][1..] == [];
  }

  /** Appending one block adds its tones to the count. */
  lemma FlattenSnocTones(bs: seq<Block>, b: Block)
    ensures ToneCount(Flatten(bs + [b])) == ToneCount(Flatten(bs)) + ToneCount(b.events)
  {
    FlattenConcat(bs, [b]);
    FlattenSingle(b);
    ToneCountConcat(Flatten(bs), b.events);
  }

  /** The events of the blocks before block `i`, block `i`, and the rest. */
  lemma FlattenAround(bs: seq<Block>, i: nat)
    requires i < |bs|
    ensures Flatten(bs) == Flatten(bs[..i]) + (bs[i].events + Flatten(bs[i + 1..]))
  {
    var tail := bs[i..];
    assert bs == bs[..i] + tail;
    FlattenConcat(bs[..i], tail);
    assert tail[0] == bs[i] && tail[1..] == bs[i + 1..];
  }

  lemma FlattenMember(bs: seq<Block>, i: nat, e: Event)
    requires i < |bs| && e in bs[i].events
    ensures e in Flatten(bs)
  {
    FlattenAround(bs, i);
  }

  /** Each block is sorted and runs within its window, and each window
      ends no later than the next one starts. */
  predicate Chained(bs: seq<Block>) {
    && (forall i :: 0 <= i < |bs| ==>
          Sorted(bs[i].events) && AllFrom(bs[i].events, bs[i].from) && AllUntil(bs[i].events, bs[i].until)
          && bs[i].from <= bs[i].until)
    && (forall i :: 0 <= i < |bs| - 1 ==> bs[i].until <= bs[i + 1].from)
  }

  /** Chained blocks from `k` on run in time order, from block `k`'s start
      until any moment `end` no earlier than the last block's end. */
  lemma {:induction false} ChainedTail(bs: seq<Block>, k: nat, end: int)
    requires Chained(bs) && k <= |bs|
    requires |bs| > 0 ==> bs[|bs| - 1].until <= end
    ensures Sorted(Flatten(bs[k..])) && AllUntil(Flatten(bs[k..]), end)
    ensures k < |bs| ==> AllFrom(Flatten(bs[k..]), bs[k].from) && bs[k].from <= end
    decreases |bs| - k
  {
    if k == |bs| {
      assert bs[k..] == [];
    } else {
      var first := bs[k];
      var rest := Flatten(bs[k + 1..]);
      assert bs[k..][0] == first && bs[k..][1..] == bs[k + 1..];
      assert Flatten(bs[k..]) == first.events + rest;
      assert Sorted(first.events) && AllFrom(first.events, first.from) && AllUntil(first.events, first.until);
      ChainedTail(bs, k + 1, end);
      if k + 1 == |bs| {
        assert bs[k + 1..] == [];
        Sequence(first.events, rest, first.from, first.until, end);
      } else {
        assert first.until <= bs[k + 1].from;
        AllFromWeaken(rest, first.until, bs[k + 1].from);
        Sequence(first.events, rest, first.from, first.until, end);
      }
    }
  }

  lemma {:induction false} FlattenRings(bs: seq<Block>, maxRing: nat)
    requires forall i :: 0 <= i < |bs| ==> HighlightsWithinRings(bs[i].events, maxRing)
    ensures HighlightsWithinRings(Flatten(bs), maxRing)
    decreases |bs|
  {
    if |bs| > 0 {
      FlattenRings(bs[1..], maxRing);
      HighlightsWithinRingsConcat(bs[0].events, Flatten(bs[1..]), maxRing);
    }
  }
}
