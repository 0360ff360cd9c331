/**
 The edit sessions of edit_session.rs, run against a document that is cut into
 the text left of the composition range, the range itself and the text right of it.
 */
module EditSession {
  import opened Wrappers
  import opened Utf16

  /** CompositionString in the source. */
  datatype Edit = Edit(commit: string, preedit: string, segments: seq<(nat, nat)>, cursor: nat)

  /** A stretch of the composition carrying one of the two display attributes. */
  datatype Mark = Mark(start: nat, end: nat, atom: nat)

  /**
   While a composition is live, `mid` is its range and `marks` and `caret` count from
   its start. Otherwise `mid` is the text selected by the application.
   `live` holds the compositions that have been started and not yet ended.
   */
  datatype Document = Document(
    left: seq<CodeUnit>, mid: seq<CodeUnit>, right: seq<CodeUnit>,
    marks: seq<Mark>, caret: nat, live: set<nat>, started: nat)
  {
    function Text(): seq<CodeUnit> {
      left + mid + right
    }
  }

  function Min(a: nat, b: nat): nat {
    if a < b then a else b
  }

  function Max(a: nat, b: nat): nat {
    if a < b then b else a
  }

  /** The text that an edit fixes in place, in front of the composition. */
  function Fixed(e: Edit): seq<CodeUnit> {
    Encode(e.commit + e.preedit)[..|e.commit|]
  }

  /** The text that an edit leaves in the composition. */
  function Kept(e: Edit): seq<CodeUnit> {
    Encode(e.commit + e.preedit)[|e.commit|..]
  }

  /** Where a segment lands when only `room` code units follow the composition start. */
  function MarkOf(seg: (nat, nat), i: nat, room: nat): Mark {
    Mark(Min(seg.0, room), Max(Min(seg.0, room), Min(seg.1, room)), i % 2)
  }

  function MarksOf(segments: seq<(nat, nat)>, room: nat): seq<Mark> {
    seq(|segments|, i requires 0 <= i < |segments| => MarkOf(segments[i], i, room))
  }

  /** The effect of the second half of SetCompositionString on a live composition. */
  function ApplyEdit(d: Document, e: Edit): Document {
    var room := |Kept(e)| + |d.right|;
    d.(left := d.left + Fixed(e), mid := Kept(e),
       marks := MarksOf(e.segments, room), caret := Min(e.cursor, room))
  }

  /** StartComposition over the current selection. */
  function StartComposition(d: Document): Document {
    d.(live := d.live + {d.started}, started := d.started + 1)
  }

  /** EndComposition: the range collapses to its end, which becomes the selection. */
  function FinishComposition(d: Document, composition: nat): Document {
    d.(left := d.left + d.mid, mid := [], marks := [], caret := 0, live := d.live - {composition})
  }

  /** The document once no composition is live: the application may place the selection anywhere. */
  function Replaced(d: Document, left: seq<CodeUnit>, mid: seq<CodeUnit>, right: seq<CodeUnit>): Document {
    Document(left, mid, right, [], 0, {}, d.started)
  }

  /** An ITfRange: two anchors in the text. */
  class TextRange {
    var start: nat
    var end: nat

    constructor (start: nat, end: nat)
      requires start <= end
      ensures this.start == start && this.end == end
    {
      this.start, this.end := start, end;
    }

    method CollapseToStart()
      modifies this
      ensures start == end == old(start)
    {
      end := start;
    }

    /** Moves the start anchor forwards; it stops at the end of the text and pushes the end anchor. */
    method ShiftStart(count: nat, length: nat)
      requires start <= end <= length
      modifies this
      ensures start == Min(old(start) + count, length)
      ensures end == Max(old(end), start)
    {
      start := Min(start + count, length);
      end := Max(end, start);
    }

    /** Moves the end anchor forwards; it stops at the end of the text. */
    method ShiftEnd(count: nat, length: nat)
      requires start <= end <= length
      modifies this
      ensures start == old(start) && end == Min(old(end) + count, length)
    {
      end := Min(end + count, length);
    }
  }

  /** An ITfContext: it owns the document that sessions write to. */
  class Context {
    var doc: Document

    constructor (doc: Document)
      ensures this.doc == doc
    {
      this.doc := doc;
    }

    /** The loop of DoEditSession over the segments: one display attribute a segment, in turns. */
    method MarkSegments(segments: seq<(nat, nat)>, base: nat, end: nat, length: nat) returns (marks: seq<Mark>)
      requires base <= end <= length
      ensures marks == MarksOf(segments, length - base)
    {
      marks := [];
      for i := 0 to |segments|
        invariant marks == MarksOf(segments, length - base)[..i]
      {
        var segmentRange := new TextRange(base, end);
        segmentRange.CollapseToStart();
        segmentRange.ShiftEnd(segments[i].1, length);
        segmentRange.ShiftStart(segments[i].0, length);
        var mark := Mark(segmentRange.start - base, segmentRange.end - base, i % 2);
        assert mark == MarkOf(segments[i], i, length - base);
        marks := marks + [mark];
      }
    }

    /** The last lines of DoEditSession: the selection collapses at the cursor. */
    method PlaceCaret(cursor: nat, base: nat, end: nat, length: nat) returns (caret: nat)
      requires base <= end <= length
      ensures caret == Min(cursor, length - base)
    {
      var cursorRange := new TextRange(base, end);
      cursorRange.CollapseToStart();
      cursorRange.ShiftEnd(cursor, length);
      cursorRange.ShiftStart(cursor, length);
      caret := cursorRange.start - base;
    }

    /** SetCompositionString::DoEditSession once the composition is known to exist. */
    method SetString(e: Edit)
      modifies this
      ensures doc == ApplyEdit(old(doc), e)
    {
      var range := new TextRange(|doc.left|, |doc.left| + |doc.mid|);
      // SetText replaces the text of the range and keeps the range around the new text.
      var text := Encode(e.commit + e.preedit);
      doc := doc.(mid := text);
      range.end := range.start + |text|;
      var length := |doc.left| + |text| + |doc.right|;
      range.ShiftStart(|e.commit|, length);
      // The start of the composition follows the start of the range.
      var moved := range.start - |doc.left|;
      assert moved == |e.commit|;
      doc := doc.(left := doc.left + text[..moved], mid := text[moved..]);
      var marks := MarkSegments(e.segments, range.start, range.end, length);
      var caret := PlaceCaret(e.cursor, range.start, range.end, length);
      doc := doc.(marks := marks, caret := caret);
    }

    /** ITfComposition::GetRange fails once the composition has been terminated. */
    method GetRange(composition: nat) returns (ok: bool)
      ensures ok == (composition in doc.live)
    {
      ok := composition in doc.live;
    }

    /** The application terminates the composition or edits the document. */
    method Replace(left: seq<CodeUnit>, mid: seq<CodeUnit>, right: seq<CodeUnit>)
      modifies this
      ensures doc == Replaced(old(doc), left, mid, right)
    {
      doc := Document(left, mid, right, [], 0, {}, doc.started);
    }

    method Start() returns (composition: nat)
      modifies this
      ensures composition == old(doc).started && doc == StartComposition(old(doc))
    {
      composition := doc.started;
      doc := doc.(live := doc.live + {composition}, started := composition + 1);
    }

    /** will_end_composition followed by ITfComposition::EndComposition. */
    method Finish(composition: nat)
      modifies this
      ensures doc == FinishComposition(old(doc), composition)
    {
      doc := doc.(marks := []);
      doc := doc.(left := doc.left + doc.mid, mid := [], caret := 0);
      doc := doc.(live := doc.live - {composition});
    }
  }

  lemma FixedAndKept(e: Edit)
    ensures Fixed(e) == Encode(e.commit)[..|e.commit|]
    ensures Kept(e) == Encode(e.commit)[|e.commit|..] + Encode(e.preedit)
  {
    EncodeAppend(e.commit, e.preedit);
  }

  /** Both halves of the text that an edit writes, and where the split falls. */
  lemma SplitText(e: Edit)
    ensures Fixed(e) + Kept(e) == Encode(e.commit) + Encode(e.preedit)
    ensures Kept(e) == Encode(e.preedit) <==> Basic(e.commit)
    ensures Fixed(e) == Encode(e.commit) <==> Basic(e.commit)
  {
    FixedAndKept(e);
    LengthAgreesIffBasic(e.commit);
    var c := Encode(e.commit);
    assert c == c[..|e.commit|] + c[|e.commit|..];
  }

  /**
   After an edit the document reads left, commit, preedit, right. The composition covers
   exactly the preedit if and only if the commit has no supplementary-plane character:
   anchors move by a count of characters over text that is counted in code units.
   */
  lemma CommitSplit(d: Document, e: Edit)
    ensures ApplyEdit(d, e).Text() == d.left + Encode(e.commit) + Encode(e.preedit) + d.right
    ensures ApplyEdit(d, e).mid == Encode(e.preedit) <==> Basic(e.commit)
    ensures ApplyEdit(d, e).left == d.left + Encode(e.commit) <==> Basic(e.commit)
  {
    SplitText(e);
    assert d.left + Fixed(e) + Kept(e) == d.left + (Fixed(e) + Kept(e));
    assert d.left + Encode(e.commit) + Encode(e.preedit) == d.left + (Encode(e.commit) + Encode(e.preedit));
    assert (d.left + Fixed(e))[|d.left|..] == Fixed(e) && (d.left + Encode(e.commit))[|d.left|..] == Encode(e.commit);
  }

  lemma SameMiddle<T>(a: seq<T>, x: seq<T>, y: seq<T>, rest: seq<T>)
    ensures a + x + rest == a + y + rest <==> x == y
  {
    if a + x + rest == a + y + rest {
      assert |x| == |y|;
      assert x == (a + x + rest)[|a|..|a| + |x|];
      assert y == (a + y + rest)[|a|..|a| + |y|];
    }
  }

  lemma TwoEdits(d: Document, e: Edit, next: Edit)
    ensures ApplyEdit(ApplyEdit(d, e), next).Text()
         == d.left + Encode(e.commit)[..|e.commit|] + Encode(next.commit) + Encode(next.preedit) + d.right
  {
    CommitSplit(ApplyEdit(d, e), next);
    FixedAndKept(e);
  }

  /**
   What the misplaced anchor costs: the next edit replaces the composition, so the text
   committed by the first one stays complete if and only if it was free of
   supplementary-plane characters.
   */
  lemma CommitSurvivesNextEdit(d: Document, e: Edit, next: Edit)
    ensures ApplyEdit(ApplyEdit(d, e), next).Text()
         == d.left + Encode(e.commit)[..|e.commit|] + Encode(next.commit) + Encode(next.preedit) + d.right
    ensures Basic(e.commit) <==>
            ApplyEdit(ApplyEdit(d, e), next).Text()
            == d.left + Encode(e.commit) + Encode(next.commit) + Encode(next.preedit) + d.right
  {
    TwoEdits(d, e, next);
    LengthAgreesIffBasic(e.commit);
    var c, rest := Encode(e.commit), Encode(next.commit) + Encode(next.preedit) + d.right;
    SameMiddle(d.left, c[..|e.commit|], c, rest);
    Regroup(d.left + c[..|e.commit|], Encode(next.commit), Encode(next.preedit), d.right);
    Regroup(d.left + c, Encode(next.commit), Encode(next.preedit), d.right);
    assert c[..|e.commit|] == c <==> |c| == |e.commit|;
  }

  lemma Regroup<T>(a: seq<T>, b: seq<T>, c: seq<T>, d: seq<T>)
    ensures a + b + c + d == a + (b + c + d)
  {
  }
}
