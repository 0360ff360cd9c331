/**
 Preedit assembly: the loop of update_preedit that splices the unfinished bopomofo
 into the intervals of the editor and computes the underline segments.
 */
module Preedit {
  import opened Utf16
  import opened EditSession

  /** A conversion interval: symbols `start` to `end` shown as `text`. */
  datatype Interval = Interval(start: nat, end: nat, text: string)

  type Segment = (nat, nat)

  /** What the editor delivers: non-empty intervals, one after the other, one character a symbol. */
  predicate ContiguousFrom(its: seq<Interval>, from: nat) {
    its == [] ||
    (its[0].start == from < its[0].end && |its[0].text| == its[0].end - from && ContiguousFrom(its[1..], its[0].end))
  }

  function TextOf(its: seq<Interval>): string {
    if its == [] then "" else its[0].text + TextOf(its[1..])
  }

  predicate Splits(it: Interval, cursor: nat) {
    it.start <= cursor <= it.end
  }

  function Head(text: string, n: nat): string {
    text[..Min(n, |text|)]
  }

  function Tail(text: string, n: nat): string {
    text[Min(n, |text|)..]
  }

  /** What one turn of the loop appends to the buffer; `need` says the bopomofo is still to be placed. */
  function BufferPiece(it: Interval, cursor: nat, bopomofo: string, need: bool): string {
    if need && Splits(it, cursor) then
      Head(it.text, cursor - it.start) + bopomofo + Tail(it.text, cursor - it.start)
    else
      it.text
  }

  /** What one turn of the loop appends to the segments. */
  function SegmentPiece(it: Interval, cursor: nat, length: nat, need: bool): seq<Segment> {
    if need && Splits(it, cursor) then
      if cursor == it.start then [(cursor, cursor + length), (it.start + length, it.end + length)]
      else if cursor == it.end then [(it.start, it.end), (cursor, cursor + length)]
      else [(it.start, cursor), (cursor, cursor + length), (cursor + length, it.end)]
    else if it.start > cursor && length > 0 then
      [(it.start + length, it.end + length)]
    else
      [(it.start, it.end)]
  }

  /** The buffer that the rest of the loop and the fallback after it append. */
  function Buffer(its: seq<Interval>, cursor: nat, bopomofo: string, need: bool): string {
    if its == [] then
      if need then bopomofo else ""
    else
      BufferPiece(its[0], cursor, bopomofo, need) + Buffer(its[1..], cursor, bopomofo, need && !Splits(its[0], cursor))
  }

  /** The segments that the rest of the loop and the fallback after it append. */
  function Segments(its: seq<Interval>, cursor: nat, length: nat, need: bool): seq<Segment> {
    if its == [] then
      if need then [(0, length)] else []
    else
      SegmentPiece(its[0], cursor, length, need) + Segments(its[1..], cursor, length, need && !Splits(its[0], cursor))
  }

  /** One turn of the loop. */
  method PushInterval(it: Interval, cursor: nat, bopomofo: string, need: bool)
    returns (piece: string, parts: seq<Segment>, stillNeed: bool)
    ensures piece == BufferPiece(it, cursor, bopomofo, need)
    ensures parts == SegmentPiece(it, cursor, |bopomofo|, need)
    ensures stillNeed == (need && !Splits(it, cursor))
  {
    var length := |bopomofo|;
    stillNeed := need;
    if it.start <= cursor && it.end >= cursor && need {
      var headLength := cursor - it.start;
      piece := Head(it.text, headLength);
      piece := piece + bopomofo;
      piece := piece + Tail(it.text, headLength);
      if cursor == it.start {
        parts := [(cursor, cursor + length), (it.start + length, it.end + length)];
      } else if cursor == it.end {
        parts := [(it.start, it.end), (cursor, cursor + length)];
      } else {
        parts := [(it.start, cursor), (cursor, cursor + length), (cursor + length, it.end)];
      }
      stillNeed := false;
    } else {
      piece := it.text;
      if it.start > cursor && bopomofo != "" {
        parts := [(it.start + length, it.end + length)];
      } else {
        parts := [(it.start, it.end)];
      }
    }
  }

  method Assemble(intervals: seq<Interval>, cursor: nat, bopomofo: string)
    returns (buffer: string, segments: seq<Segment>)
    ensures buffer == Buffer(intervals, cursor, bopomofo, bopomofo != "")
    ensures segments == Segments(intervals, cursor, |bopomofo|, bopomofo != "")
  {
    buffer, segments := "", [];
    var needPushBopomofo := bopomofo != "";
    for i := 0 to |intervals|
      invariant buffer + Buffer(intervals[i..], cursor, bopomofo, needPushBopomofo)
             == Buffer(intervals, cursor, bopomofo, bopomofo != "")
      invariant segments + Segments(intervals[i..], cursor, |bopomofo|, needPushBopomofo)
             == Segments(intervals, cursor, |bopomofo|, bopomofo != "")
    {
      ghost var rest := intervals[i..];
      assert rest[0] == intervals[i] && rest[1..] == intervals[i + 1..];
      var piece, parts, stillNeed := PushInterval(intervals[i], cursor, bopomofo, needPushBopomofo);
      Associate(buffer, piece, Buffer(rest[1..], cursor, bopomofo, stillNeed));
      Associate(segments, parts, Segments(rest[1..], cursor, |bopomofo|, stillNeed));
      buffer, segments, needPushBopomofo := buffer + piece, segments + parts, stillNeed;
    }
    if needPushBopomofo {
      segments := segments + [(0, |bopomofo|)];
      buffer := buffer + bopomofo;
    }
  }

  // ----- The buffer -----

  /** The buffer is the converted text with the bopomofo inserted once, at the cursor. */
  lemma SpliceAtCursor(its: seq<Interval>, cursor: nat, bopomofo: string)
    requires ContiguousFrom(its, 0) && cursor <= |TextOf(its)|
    ensures Buffer(its, cursor, bopomofo, bopomofo != "")
         == TextOf(its)[..cursor] + bopomofo + TextOf(its)[cursor..]
  {
    if bopomofo == "" {
      BufferWithoutSplice(its, cursor, bopomofo);
    } else {
      SpliceFrom(its, 0, cursor, bopomofo);
    }
  }

  lemma {:induction false} BufferWithoutSplice(its: seq<Interval>, cursor: nat, bopomofo: string)
    ensures Buffer(its, cursor, bopomofo, false) == TextOf(its)
  {
    if its != [] {
      BufferWithoutSplice(its[1..], cursor, bopomofo);
    }
  }

  lemma {:induction false} SpliceFrom(its: seq<Interval>, from: nat, cursor: nat, bopomofo: string)
    requires ContiguousFrom(its, from) && from <= cursor <= from + |TextOf(its)|
    ensures Buffer(its, cursor, bopomofo, true)
         == TextOf(its)[..cursor - from] + bopomofo + TextOf(its)[cursor - from..]
  {
    if its != [] {
      var k := cursor - from;
      var it, rest := its[0], TextOf(its[1..]);
      if Splits(it, cursor) {
        BufferWithoutSplice(its[1..], cursor, bopomofo);
        assert TextOf(its)[..k] == it.text[..k];
        assert TextOf(its)[k..] == it.text[k..] + rest;
      } else {
        SpliceFrom(its[1..], it.end, cursor, bopomofo);
        assert TextOf(its)[..k] == it.text + rest[..cursor - it.end];
        assert TextOf(its)[k..] == rest[cursor - it.end..];
      }
    }
  }

  /** The fallback after the loop is for an editor without intervals: otherwise one of them splits. */
  lemma {:induction false} SomeIntervalSplits(its: seq<Interval>, from: nat, cursor: nat) returns (k: nat)
    requires ContiguousFrom(its, from) && from <= cursor <= from + |TextOf(its)| && its != []
    ensures k < |its| && Splits(its[k], cursor)
  {
    if Splits(its[0], cursor) {
      k := 0;
    } else {
      var j := SomeIntervalSplits(its[1..], its[0].end, cursor);
      k := j + 1;
    }
  }

  // ----- The segments -----

  predicate Covers(seg: Segment, pos: nat) {
    seg.0 <= pos < seg.1
  }

  predicate Covered(segs: seq<Segment>, pos: nat) {
    exists k | 0 <= k < |segs| :: Covers(segs[k], pos)
  }

  /** Every position of `from` to `to` lies in exactly one segment and no segment reaches beyond. */
  ghost predicate Tile(segs: seq<Segment>, from: nat, to: nat) {
    && (forall pos: nat, k | 0 <= k < |segs| && Covers(segs[k], pos) :: from <= pos < to)
    && (forall pos | from <= pos < to :: Covered(segs, pos))
    && (forall pos, j, k | 0 <= j < k < |segs| :: !(Covers(segs[j], pos) && Covers(segs[k], pos)))
  }

  /** Segments that each begin where the previous one ends. */
  predicate Chain(segs: seq<Segment>, from: nat, to: nat) {
    if segs == [] then from == to
    else segs[0].0 == from <= segs[0].1 && Chain(segs[1..], segs[0].1, to)
  }

  lemma {:induction false} ChainTiles(segs: seq<Segment>, from: nat, to: nat)
    requires Chain(segs, from, to)
    ensures from <= to && Tile(segs, from, to)
    ensures forall k | 0 <= k < |segs| :: from <= segs[k].0 <= segs[k].1 <= to
  {
    if segs != [] {
      var rest := segs[1..];
      ChainTiles(rest, segs[0].1, to);
      assert forall k | 0 < k < |segs| :: segs[k] == rest[k - 1];
      forall pos | from <= pos < to ensures Covered(segs, pos) {
        if !Covers(segs[0], pos) {
          assert Covered(rest, pos);
          var k :| 0 <= k < |rest| && Covers(rest[k], pos);
          assert Covers(segs[k + 1], pos);
        }
      }
    }
  }

  lemma {:induction false} ChainAppend(a: seq<Segment>, b: seq<Segment>, from: nat, mid: nat, to: nat)
    requires Chain(a, from, mid) && Chain(b, mid, to)
    ensures Chain(a + b, from, to)
  {
    if a == [] {
      assert a + b == b;
    } else {
      ChainAppend(a[1..], b, a[0].1, mid, to);
      assert (a + b)[1..] == a[1..] + b;
    }
  }

  /** Once the bopomofo is placed, intervals behind the cursor move by its length. */
  lemma {:induction false} ShiftedChain(its: seq<Interval>, from: nat, cursor: nat, length: nat)
    requires ContiguousFrom(its, from) && (cursor < from || length == 0)
    ensures Chain(Segments(its, cursor, length, false), from + length, from + |TextOf(its)| + length)
  {
    if its != [] {
      ShiftedChain(its[1..], its[0].end, cursor, length);
    }
  }

  lemma {:induction false} EndCursorChain(its: seq<Interval>, from: nat, length: nat)
    requires ContiguousFrom(its, from) && its != []
    ensures Chain(Segments(its, from + |TextOf(its)|, length, true), from, from + |TextOf(its)| + length)
  {
    var cursor := from + |TextOf(its)|;
    if its[1..] == [] {
      assert TextOf(its[1..]) == "";
    } else {
      EndCursorChain(its[1..], its[0].end, length);
    }
  }

  /** A cursor between two intervals: the bopomofo and the interval behind it overlap. */
  lemma {:induction false} BoundaryOverlap(its: seq<Interval>, from: nat, cursor: nat, length: nat, b: nat)
    returns (k: nat)
    requires ContiguousFrom(its, from) && length > 0
    requires from < cursor && b + 1 < |its| && its[b].end == cursor
    ensures var segs := Segments(its, cursor, length, true);
            k + 1 < |segs| && Covers(segs[k], cursor) && Covers(segs[k + 1], cursor)
  {
    OrderedFrom(its, from, b);
    var segs := Segments(its, cursor, length, true);
    if b == 0 {
      k := 1;
      assert Segments(its[1..], cursor, length, false)[0] == (cursor, its[1].end);
      assert segs[1] == (cursor, cursor + length) && segs[2] == (cursor, its[1].end);
    } else {
      OrderedFrom(its[1..], its[0].end, b - 1);
      var j := BoundaryOverlap(its[1..], its[0].end, cursor, length, b - 1);
      k := j + 1;
      assert segs[1..] == Segments(its[1..], cursor, length, true);
    }
  }

  /** A cursor inside an interval: the last position that belongs to the interval is not covered. */
  lemma {:induction false} InteriorGap(its: seq<Interval>, from: nat, cursor: nat, length: nat, b: nat)
    requires ContiguousFrom(its, from) && length > 0
    requires b < |its| && its[b].start < cursor < its[b].end
    ensures forall k | 0 <= k < |Segments(its, cursor, length, true)| ::
              !Covers(Segments(its, cursor, length, true)[k], its[b].end + length - 1)
  {
    OrderedFrom(its, from, b);
    var segs := Segments(its, cursor, length, true);
    if b == 0 {
      ShiftedChain(its[1..], its[0].end, cursor, length);
      var end := its[0].end;
      ChainTiles(Segments(its[1..], cursor, length, false), end + length, end + |TextOf(its[1..])| + length);
      assert segs[3..] == Segments(its[1..], cursor, length, false);
      assert forall k | 3 <= k < |segs| :: segs[k] == segs[3..][k - 3];
    } else {
      InteriorGap(its[1..], its[0].end, cursor, length, b - 1);
      assert segs[1..] == Segments(its[1..], cursor, length, true);
      assert forall k | 1 <= k < |segs| :: segs[k] == segs[1..][k - 1];
    }
  }

  lemma {:induction false} OrderedFrom(its: seq<Interval>, from: nat, b: nat)
    requires ContiguousFrom(its, from) && b < |its|
    ensures from <= its[b].start < its[b].end <= from + |TextOf(its)|
    ensures b > 0 ==> its[0].end <= its[b].start
    ensures b + 1 < |its| ==> its[b].end == its[b + 1].start < from + |TextOf(its)|
    ensures b + 1 == |its| ==> its[b].end == from + |TextOf(its)|
  {
    if b > 0 {
      OrderedFrom(its[1..], its[0].end, b - 1);
    }
  }

  lemma TileAtEnds(its: seq<Interval>, cursor: nat, length: nat)
    requires ContiguousFrom(its, 0) && its != [] && length > 0
    requires cursor == 0 || cursor == |TextOf(its)|
    ensures Tile(Segments(its, cursor, length, true), 0, |TextOf(its)| + length)
  {
    var total := |TextOf(its)|;
    if cursor == 0 {
      ShiftedChain(its[1..], its[0].end, cursor, length);
      ChainAppend(SegmentPiece(its[0], 0, length, true), Segments(its[1..], 0, length, false),
                  0, its[0].end + length, total + length);
    } else {
      EndCursorChain(its, 0, length);
    }
    ChainTiles(Segments(its, cursor, length, true), 0, total + length);
  }

  lemma NoTileInside(its: seq<Interval>, cursor: nat, length: nat)
    requires ContiguousFrom(its, 0) && length > 0
    requires 0 < cursor < |TextOf(its)|
    ensures !Tile(Segments(its, cursor, length, true), 0, |TextOf(its)| + length)
  {
    var segs := Segments(its, cursor, length, true);
    var b := SomeIntervalSplits(its, 0, cursor);
    OrderedFrom(its, 0, b);
    if cursor == its[b].start {
      OrderedFrom(its, 0, b - 1);
      var k := BoundaryOverlap(its, 0, cursor, length, b - 1);
    } else if cursor == its[b].end {
      var k := BoundaryOverlap(its, 0, cursor, length, b);
    } else {
      InteriorGap(its, 0, cursor, length, b);
      assert !Covered(segs, its[b].end + length - 1);
    }
  }

  /**
   The segments tile the preedit without gap or overlap exactly when there is no bopomofo
   or the cursor is at either end of the symbols.
   */
  lemma SegmentsTileIff(its: seq<Interval>, cursor: nat, bopomofo: string)
    requires ContiguousFrom(its, 0) && cursor <= |TextOf(its)|
    ensures Tile(Segments(its, cursor, |bopomofo|, bopomofo != ""), 0, |TextOf(its)| + |bopomofo|)
       <==> (bopomofo == "" || cursor == 0 || cursor == |TextOf(its)|)
  {
    var length := |bopomofo|;
    if bopomofo == "" {
      ShiftedChain(its, 0, cursor, 0);
      ChainTiles(Segments(its, cursor, 0, false), 0, |TextOf(its)|);
    } else if its == [] {
      ChainTiles([(0, length)], 0, length);
    } else if cursor == 0 || cursor == |TextOf(its)| {
      TileAtEnds(its, cursor, length);
    } else {
      NoTileInside(its, cursor, length);
    }
  }

  // ----- The segments in full -----

  /** Intervals in front of the bopomofo keep their place. */
  function Plain(its: seq<Interval>): seq<Segment> {
    seq(|its|, i requires 0 <= i < |its| => (its[i].start, its[i].end))
  }

  /** Intervals behind the bopomofo move by its length. */
  function Shifted(its: seq<Interval>, length: nat): seq<Segment> {
    seq(|its|, i requires 0 <= i < |its| => (its[i].start + length, its[i].end + length))
  }

  lemma {:induction false} BehindCursor(its: seq<Interval>, from: nat, cursor: nat, length: nat)
    requires ContiguousFrom(its, from) && cursor < from && length > 0
    ensures Segments(its, cursor, length, false) == Shifted(its, length)
  {
    if its != [] {
      BehindCursor(its[1..], its[0].end, cursor, length);
      assert Shifted(its, length) == [(its[0].start + length, its[0].end + length)] + Shifted(its[1..], length);
    }
  }

  lemma {:induction false} WithoutBopomofo(its: seq<Interval>, cursor: nat)
    ensures Segments(its, cursor, 0, false) == Plain(its)
  {
    if its != [] {
      WithoutBopomofo(its[1..], cursor);
      assert Plain(its) == [(its[0].start, its[0].end)] + Plain(its[1..]);
    }
  }

  lemma PlainCons(its: seq<Interval>, b: nat)
    requires 0 < b <= |its|
    ensures Plain(its[..b]) == [(its[0].start, its[0].end)] + Plain(its[1..][..b - 1])
  {
    assert its[..b][0] == its[0];
    assert forall i | 0 < i < b :: its[..b][i] == its[1..][..b - 1][i - 1];
  }

  lemma FirstIsPlain(its: seq<Interval>, cursor: nat, length: nat)
    requires its != [] && its[0].start < its[0].end < cursor
    ensures Segments(its, cursor, length, true)
         == [(its[0].start, its[0].end)] + Segments(its[1..], cursor, length, true)
  {
  }

  /** Up to the interval that takes the bopomofo nothing is shifted. */
  lemma {:induction false} UpToSplit(its: seq<Interval>, from: nat, cursor: nat, length: nat, b: nat)
    requires ContiguousFrom(its, from) && b < |its| && its[b].start < cursor
    ensures Segments(its, cursor, length, true) == Plain(its[..b]) + Segments(its[b..], cursor, length, true)
  {
    if b == 0 {
      assert its[0..] == its && Plain(its[..0]) == [];
    } else {
      OrderedFrom(its, from, b);
      var first, rest, last := [(its[0].start, its[0].end)], its[1..], Segments(its[b..], cursor, length, true);
      assert rest[b - 1..] == its[b..];
      UpToSplit(rest, its[0].end, cursor, length, b - 1);
      FirstIsPlain(its, cursor, length);
      PlainCons(its, b);
      Associate(first, Plain(rest[..b - 1]), last);
    }
  }

  lemma {:induction false} ContiguousSuffix(its: seq<Interval>, from: nat, b: nat)
    requires ContiguousFrom(its, from) && b < |its|
    ensures ContiguousFrom(its[b..], its[b].start) && ContiguousFrom(its[b + 1..], its[b].end)
  {
    if b == 0 {
      assert its[0..] == its;
    } else {
      ContiguousSuffix(its[1..], its[0].end, b - 1);
      assert its[1..][b - 1..] == its[b..] && its[1..][b..] == its[b + 1..];
    }
  }

  /** With the cursor inside an interval, this interval falls into two parts, and the second one ends too early. */
  lemma SegmentsInside(its: seq<Interval>, cursor: nat, length: nat, b: nat)
    requires ContiguousFrom(its, 0) && length > 0 && b < |its| && its[b].start < cursor < its[b].end
    ensures Segments(its, cursor, length, true)
         == Plain(its[..b])
            + [(its[b].start, cursor), (cursor, cursor + length), (cursor + length, its[b].end)]
            + Shifted(its[b + 1..], length)
  {
    UpToSplit(its, 0, cursor, length, b);
    ContiguousSuffix(its, 0, b);
    var rest := its[b..];
    assert rest[0] == its[b] && rest[1..] == its[b + 1..];
    BehindCursor(its[b + 1..], its[b].end, cursor, length);
    var piece := [(its[b].start, cursor), (cursor, cursor + length), (cursor + length, its[b].end)];
    assert Segments(rest, cursor, length, true) == piece + Shifted(its[b + 1..], length);
    Associate(Plain(its[..b]), piece, Shifted(its[b + 1..], length));
  }

  /** With the cursor between two intervals, the one behind the bopomofo is not shifted. */
  lemma SegmentsBetween(its: seq<Interval>, cursor: nat, length: nat, b: nat)
    requires ContiguousFrom(its, 0) && length > 0 && b + 1 < |its| && its[b].end == cursor
    ensures Segments(its, cursor, length, true)
         == Plain(its[..b + 1]) + [(cursor, cursor + length), (cursor, its[b + 1].end)] + Shifted(its[b + 2..], length)
  {
    OrderedFrom(its, 0, b);
    UpToSplit(its, 0, cursor, length, b);
    ContiguousSuffix(its, 0, b);
    ContiguousSuffix(its, 0, b + 1);
    var rest, next := its[b..], its[b + 1..];
    assert rest[0] == its[b] && rest[1..] == next && next[0] == its[b + 1] && next[1..] == its[b + 2..];
    BehindCursor(its[b + 2..], its[b + 1].end, cursor, length);
    var far := Shifted(its[b + 2..], length);
    assert Segments(next, cursor, length, false) == [(cursor, its[b + 1].end)] + far;
    assert Plain(its[..b + 1]) == Plain(its[..b]) + [(its[b].start, its[b].end)];
  }

  /** With the cursor at the end, the bopomofo comes last. */
  lemma SegmentsAtEnd(its: seq<Interval>, length: nat)
    requires ContiguousFrom(its, 0) && length > 0 && its != []
    ensures Segments(its, |TextOf(its)|, length, true)
         == Plain(its) + [(|TextOf(its)|, |TextOf(its)| + length)]
  {
    var b, cursor := |its| - 1, |TextOf(its)|;
    OrderedFrom(its, 0, b);
    UpToSplit(its, 0, cursor, length, b);
    var rest := its[b..];
    assert rest[0] == its[b] && rest[1..] == [];
    assert Plain(its) == Plain(its[..b]) + [(its[b].start, its[b].end)];
  }

  /** With the cursor at the beginning, the bopomofo comes first and everything else moves. */
  lemma SegmentsAtStart(its: seq<Interval>, length: nat)
    requires ContiguousFrom(its, 0) && length > 0
    ensures Segments(its, 0, length, true) == [(0, length)] + Shifted(its, length)
  {
    if its != [] {
      BehindCursor(its[1..], its[0].end, 0, length);
      assert Shifted(its, length) == [(its[0].start + length, its[0].end + length)] + Shifted(its[1..], length);
    }
  }

  // ----- How often each position is underlined -----

  function Times(segs: seq<Segment>, pos: nat): nat {
    if segs == [] then 0 else (if Covers(segs[0], pos) then 1 else 0) + Times(segs[1..], pos)
  }

  function Within(from: nat, pos: nat, to: nat): nat {
    if from <= pos < to then 1 else 0
  }

  lemma {:induction false} TimesAppend(a: seq<Segment>, b: seq<Segment>, pos: nat)
    ensures Times(a + b, pos) == Times(a, pos) + Times(b, pos)
  {
    if a == [] {
      assert a + b == b;
    } else {
      TimesAppend(a[1..], b, pos);
      assert (a + b)[1..] == a[1..] + b;
    }
  }

  lemma {:induction false} TimesZeroIff(segs: seq<Segment>, pos: nat)
    ensures Times(segs, pos) > 0 <==> Covered(segs, pos)
  {
    if segs != [] {
      TimesZeroIff(segs[1..], pos);
      if Covered(segs[1..], pos) {
        var k :| 0 <= k < |segs| - 1 && Covers(segs[1..][k], pos);
        assert Covers(segs[k + 1], pos);
      }
      if Covered(segs, pos) && !Covers(segs[0], pos) {
        var k :| 0 <= k < |segs| && Covers(segs[k], pos);
        assert Covers(segs[1..][k - 1], pos);
      }
    }
  }

  lemma {:induction false} TimesPlain(its: seq<Interval>, from: nat, pos: nat)
    requires ContiguousFrom(its, from)
    ensures Times(Plain(its), pos) == Within(from, pos, from + |TextOf(its)|)
  {
    if its != [] {
      TimesPlain(its[1..], its[0].end, pos);
      assert Plain(its) == [(its[0].start, its[0].end)] + Plain(its[1..]);
    }
  }

  lemma {:induction false} TimesShifted(its: seq<Interval>, from: nat, length: nat, pos: nat)
    requires ContiguousFrom(its, from)
    ensures Times(Shifted(its, length), pos) == Within(from + length, pos, from + |TextOf(its)| + length)
  {
    if its != [] {
      TimesShifted(its[1..], its[0].end, length, pos);
      assert Shifted(its, length) == [(its[0].start + length, its[0].end + length)] + Shifted(its[1..], length);
    }
  }

  lemma {:induction false} ContiguousPrefix(its: seq<Interval>, from: nat, b: nat)
    requires ContiguousFrom(its, from) && b <= |its|
    ensures ContiguousFrom(its[..b], from)
    ensures from + |TextOf(its[..b])| == if b < |its| then its[b].start else from + |TextOf(its)|
  {
    if b > 0 {
      ContiguousPrefix(its[1..], its[0].end, b - 1);
      assert its[..b][1..] == its[1..][..b - 1];
    } else if its != [] {
      assert its[..0] == [];
    }
  }

  lemma {:induction false} TextOfSuffix(its: seq<Interval>, from: nat, b: nat)
    requires ContiguousFrom(its, from) && b < |its|
    ensures its[b].end + |TextOf(its[b + 1..])| == from + |TextOf(its)|
  {
    if b > 0 {
      TextOfSuffix(its[1..], its[0].end, b - 1);
      assert its[1..][b..] == its[b + 1..];
    }
  }

  lemma TimesBetween(front: seq<Segment>, x: Segment, y: Segment, far: seq<Segment>, pos: nat)
    ensures Times(front + [x, y] + far, pos) == Times(front, pos) + Times([x], pos) + Times([y], pos) + Times(far, pos)
  {
    TimesAppend(front + [x, y], far, pos);
    TimesAppend(front, [x, y], pos);
    TimesAppend([x], [y], pos);
    assert [x] + [y] == [x, y];
  }

  lemma TimesThree(a: Segment, b: Segment, c: Segment, pos: nat)
    ensures Times([a, b, c], pos) == Times([a], pos) + Times([b], pos) + Times([c], pos)
  {
    TimesAppend([a], [b, c], pos);
    TimesAppend([b], [c], pos);
    assert [a] + [b, c] == [a, b, c] && [b] + [c] == [b, c];
  }

  /**
   With the cursor inside interval `b`, each position of the preedit is underlined once,
   except for the last ones that belong to this interval: those behind its unshifted end and
   behind the bopomofo are not underlined at all.
   */
  lemma CoverageInside(its: seq<Interval>, cursor: nat, length: nat, b: nat, pos: nat)
    requires ContiguousFrom(its, 0) && length > 0 && b < |its| && its[b].start < cursor < its[b].end
    ensures Times(Segments(its, cursor, length, true), pos)
         == if Max(its[b].end, cursor + length) <= pos < its[b].end + length then 0
            else Within(0, pos, |TextOf(its)| + length)
  {
    var front, far := Plain(its[..b]), Shifted(its[b + 1..], length);
    var piece := [(its[b].start, cursor), (cursor, cursor + length), (cursor + length, its[b].end)];
    SegmentsInside(its, cursor, length, b);
    TimesAppend(front + piece, far, pos);
    TimesAppend(front, piece, pos);
    TimesThree(piece[0], piece[1], piece[2], pos);
    OrderedFrom(its, 0, b);
    TimesFront(its, b, pos);
    TimesFar(its, length, b, pos);
  }

  /**
   With the cursor between intervals `b` and `b + 1`, the second one stays where the bopomofo
   is: the positions of both are underlined twice, and those that the second one should have
   moved to not at all.
   */
  lemma CoverageBetween(its: seq<Interval>, cursor: nat, length: nat, b: nat, pos: nat)
    requires ContiguousFrom(its, 0) && length > 0 && b + 1 < |its| && its[b].end == cursor
    ensures var next := its[b + 1].end;
            Times(Segments(its, cursor, length, true), pos)
            == if cursor <= pos < Min(cursor + length, next) then 2
               else if Max(cursor + length, next) <= pos < next + length then 0
               else Within(0, pos, |TextOf(its)| + length)
  {
    var front, far := Plain(its[..b + 1]), Shifted(its[b + 2..], length);
    SegmentsBetween(its, cursor, length, b);
    TimesBetween(front, (cursor, cursor + length), (cursor, its[b + 1].end), far, pos);
    OrderedFrom(its, 0, b);
    OrderedFrom(its, 0, b + 1);
    TimesFront(its, b + 1, pos);
    TimesFar(its, length, b + 1, pos);
  }

  lemma TimesFront(its: seq<Interval>, b: nat, pos: nat)
    requires ContiguousFrom(its, 0) && b < |its|
    ensures Times(Plain(its[..b]), pos) == Within(0, pos, its[b].start)
  {
    ContiguousPrefix(its, 0, b);
    TimesPlain(its[..b], 0, pos);
  }

  lemma TimesFar(its: seq<Interval>, length: nat, b: nat, pos: nat)
    requires ContiguousFrom(its, 0) && b < |its|
    ensures Times(Shifted(its[b + 1..], length), pos) == Within(its[b].end + length, pos, |TextOf(its)| + length)
  {
    ContiguousSuffix(its, 0, b);
    TextOfSuffix(its, 0, b);
    TimesShifted(its[b + 1..], its[b].end, length, pos);
  }

  /** The bopomofo has a segment of its own, wherever the cursor is. */
  lemma BopomofoHasSegment(its: seq<Interval>, cursor: nat, bopomofo: string)
    requires ContiguousFrom(its, 0) && cursor <= |TextOf(its)| && bopomofo != ""
    ensures (cursor, cursor + |bopomofo|) in Segments(its, cursor, |bopomofo|, true)
    ensures forall pos | cursor <= pos < cursor + |bopomofo| ::
              Covered(Segments(its, cursor, |bopomofo|, true), pos)
  {
    var segs, length := Segments(its, cursor, |bopomofo|, true), |bopomofo|;
    if cursor == 0 {
      SegmentsAtStart(its, length);
      assert segs[0] == (cursor, cursor + length);
    } else if cursor == |TextOf(its)| {
      SegmentsAtEnd(its, length);
      assert segs[|its|] == (cursor, cursor + length);
    } else {
      var b := SomeIntervalSplits(its, 0, cursor);
      OrderedFrom(its, 0, b);
      if its[b].start < cursor < its[b].end {
        SegmentsInside(its, cursor, length, b);
        assert segs[b + 1] == (cursor, cursor + length);
      } else {
        var c := if cursor == its[b].end then b else b - 1;
        OrderedFrom(its, 0, c);
        SegmentsBetween(its, cursor, length, c);
        assert segs[c + 1] == (cursor, cursor + length);
      }
    }
    var k :| 0 <= k < |segs| && segs[k] == (cursor, cursor + length);
    forall pos | cursor <= pos < cursor + length ensures Covered(segs, pos) {
      assert Covers(segs[k], pos);
    }
  }

  // ----- The underline in the document -----

  /** No segment reaches beyond the preedit. */
  lemma {:induction false} SegmentsBounded(its: seq<Interval>, from: nat, cursor: nat, length: nat, need: bool, n: nat)
    requires ContiguousFrom(its, from) && from + |TextOf(its)| + length <= n && (need ==> cursor <= n - length)
    ensures forall k | 0 <= k < |Segments(its, cursor, length, need)| ::
              Segments(its, cursor, length, need)[k].0 <= n && Segments(its, cursor, length, need)[k].1 <= n
  {
    if its != [] {
      SegmentsBounded(its[1..], its[0].end, cursor, length, need && !Splits(its[0], cursor), n);
    }
  }

  function Stretches(marks: seq<Mark>): seq<Segment> {
    seq(|marks|, i requires 0 <= i < |marks| => (marks[i].start, marks[i].end))
  }

  /** Display attributes cover what the segments cover, as long as no segment leaves the text. */
  lemma MarksTileAsSegments(segs: seq<Segment>, room: nat, n: nat)
    requires forall k | 0 <= k < |segs| :: segs[k].0 <= room && segs[k].1 <= room
    ensures Tile(Stretches(MarksOf(segs, room)), 0, n) <==> Tile(segs, 0, n)
  {
    var stretches := Stretches(MarksOf(segs, room));
    assert forall k, pos: nat | 0 <= k < |segs| :: Covers(stretches[k], pos) == Covers(segs[k], pos);
    assert forall pos: nat :: Covered(stretches, pos) == Covered(segs, pos);
  }

  /** In the document each position is underlined as often as the segments say. */
  lemma MarksCoverAsSegments(segs: seq<Segment>, room: nat, pos: nat)
    requires forall k | 0 <= k < |segs| :: segs[k].0 <= room && segs[k].1 <= room
    ensures Times(Stretches(MarksOf(segs, room)), pos) == Times(segs, pos)
  {
    SameCoverage(Stretches(MarksOf(segs, room)), segs, pos);
  }

  lemma {:induction false} SameCoverage(a: seq<Segment>, b: seq<Segment>, pos: nat)
    requires |a| == |b| && forall k | 0 <= k < |a| :: Covers(a[k], pos) == Covers(b[k], pos)
    ensures Times(a, pos) == Times(b, pos)
  {
    if a != [] {
      assert Covers(a[0], pos) == Covers(b[0], pos);
      forall k | 0 <= k < |a| - 1 ensures Covers(a[1..][k], pos) == Covers(b[1..][k], pos) {
        assert Covers(a[k + 1], pos) == Covers(b[k + 1], pos);
      }
      SameCoverage(a[1..], b[1..], pos);
    }
  }

  /** The two display attributes take turns, beginning with the first one. */
  lemma MarksAlternate(segs: seq<Segment>, room: nat)
    ensures var marks := MarksOf(segs, room);
            && |marks| == |segs|
            && (forall k | 0 <= k < |marks| :: marks[k].atom == 0 || marks[k].atom == 1)
            && (marks != [] ==> marks[0].atom == 0)
            && (forall k | 0 < k < |marks| :: marks[k].atom != marks[k - 1].atom)
  {
  }
}
