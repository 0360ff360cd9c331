/**
 The composition half of ChewingTextService over shared heap cells, proved against the
 steps of module Composition, and update_preedit on top of it.
 */
module CompositionService {
  import opened Wrappers
  import opened Utf16
  import opened EditSession
  import opened Preedit
  import opened Composition
  import opened CompositionRuns
  import opened DeferredTermination

  // ----- update_preedit as a sequence of requests -----

  function PreeditEdit(its: seq<Interval>, cursor: nat, bopomofo: string, commit: string): Edit {
    Edit(commit, Buffer(its, cursor, bopomofo, bopomofo != ""),
         Segments(its, cursor, |bopomofo|, bopomofo != ""), cursor)
  }

  /** update_preedit: show the assembled preedit, or close the composition when there is none. */
  function PreeditRequests(
    s: Service, its: seq<Interval>, cursor: nat, bopomofo: string, commit: string, candidatesShown: bool): Service
    requires WellFormed(s)
  {
    var edit := PreeditEdit(its, cursor, bopomofo, commit);
    if edit.preedit != "" then RequestSet(s, edit)
    else
      var t := if IsComposing(s, candidatesShown) then RequestSet(s, Edit(commit, "", [], 0)) else s;
      if candidatesShown then t else RequestEnd(t)
  }

  /** The document shows this edit and nothing of an earlier one. */
  predicate Shows(d: Document, e: Edit) {
    && d.live != {} && d.mid == Kept(e)
    && d.marks == MarksOf(e.segments, |Kept(e)| + |d.right|)
    && d.caret == Min(e.cursor, |Kept(e)| + |d.right|)
  }

  lemma SetShows(d: Document, e: Edit)
    ensures Shows(Apply(d, Set(e)), e)
  {
  }

  /** When a set was the last request, the drained document shows it, whether it overwrote a queued edit or not. */
  lemma SetRunsLast(s: Service, e: Edit)
    requires Open(s)
    ensures Shows(Drained(RequestSet(s, e)), e)
    ensures Drained(RequestSet(s, e)) == Apply(Drained(Committed(s)), Set(e))
  {
    RunsAfterCommitted(s, e);
    SetShows(Drained(Committed(s)), e);
  }

  /** The service without its pending edit. */
  function Committed(s: Service): Service
    requires WellFormed(s)
  {
    if Upgrades(s) then s.(slots := s.slots[s.pendingEdit.value := None]) else s
  }

  lemma PendingIsLast(s: Service)
    requires Open(s) && Upgrades(s)
    ensures var n, pending := |s.queue| - 1, s.pendingEdit.value;
            && n >= 0 && s.queue[n] == SetString(s.current, pending) && s.slots[pending].Some?
            && WaitingIn(s) == Waiting(s.queue[..n], s) + [Set(s.slots[pending].value)]
            && forall i | 0 <= i < n :: !Holds(s.queue[i], pending)
  {
    SlotIsLast(s);
    assert !Blank(s, |s.queue| - 1);
  }

  lemma BlankedWaiting(s: Service)
    requires Open(s) && Upgrades(s)
    ensures WaitingIn(Committed(s)) == Waiting(s.queue[..|s.queue| - 1], s)
  {
    var t, n := Committed(s), |s.queue| - 1;
    PendingIsLast(s);
    forall i | 0 <= i < n ensures RequestOf(s.queue[i], s) == RequestOf(s.queue[i], t) {
      assert !Holds(s.queue[i], s.pendingEdit.value);
    }
    WaitingFrame(s.queue[..n], s, t);
    assert RequestOf(s.queue[n], t) == [];
  }

  lemma CommittedWaiting(s: Service)
    requires Open(s)
    ensures Upgrades(s) ==> WaitingIn(s) != [] && Last(WaitingIn(s)) == Set(s.slots[s.pendingEdit.value].value)
    ensures WaitingIn(Committed(s)) == if Upgrades(s) then Front(WaitingIn(s)) else WaitingIn(s)
  {
    if Upgrades(s) {
      PendingIsLast(s);
      BlankedWaiting(s);
    }
  }

  lemma RunsAfterCommitted(s: Service, e: Edit)
    requires Open(s)
    ensures Drained(RequestSet(s, e)) == Apply(Drained(Committed(s)), Set(e))
  {
    CommittedWaiting(s);
    if Upgrades(s) {
      OverwriteWaiting(s, e);
    } else {
      NewSessionWaiting(s, Set(e));
    }
    ImmediateSnoc(s.doc, WaitingIn(Committed(s)), Set(e));
  }

  lemma EndRunsLast(s: Service)
    requires Open(s)
    ensures Drained(RequestEnd(s)) == Apply(Drained(s), End)
  {
    NewSessionWaiting(s, End);
    ImmediateSnoc(s.doc, WaitingIn(s), End);
  }

  function Spliced(its: seq<Interval>, cursor: nat, bopomofo: string): string
    requires cursor <= |TextOf(its)|
  {
    TextOf(its)[..cursor] + bopomofo + TextOf(its)[cursor..]
  }

  /** The editor has something to show, if only the candidates. */
  predicate Showing(its: seq<Interval>, bopomofo: string, candidatesShown: bool) {
    its != [] || bopomofo != "" || candidatesShown
  }

  /** An editor that has something to show requests a set of the spliced text. */
  lemma ShowsPreedit(
      s: Service, its: seq<Interval>, cursor: nat, bopomofo: string, commit: string, candidatesShown: bool)
    requires WellFormed(s)
    requires ContiguousFrom(its, 0) && cursor <= |TextOf(its)|
    ensures PreeditEdit(its, cursor, bopomofo, commit).preedit == Spliced(its, cursor, bopomofo)
    ensures its != [] || bopomofo != "" ==>
              PreeditRequests(s, its, cursor, bopomofo, commit, candidatesShown)
              == RequestSet(s, PreeditEdit(its, cursor, bopomofo, commit))
  {
    SpliceAtCursor(its, cursor, bopomofo);
    assert |Spliced(its, cursor, bopomofo)| == |TextOf(its)| + |bopomofo|;
  }

  /** An editor with neither text nor bopomofo. */
  lemma EmptyEditor(s: Service, cursor: nat, commit: string, candidatesShown: bool)
    requires WellFormed(s)
    ensures PreeditRequests(s, [], cursor, "", commit, candidatesShown)
         == if candidatesShown then RequestSet(s, Edit(commit, "", [], 0))
            else if s.cells[s.current].Some? then RequestEnd(RequestSet(s, Edit(commit, "", [], 0)))
            else RequestEnd(s)
  {
    assert Buffer([], cursor, "", false) == "";
  }

  /**
   From the editor to the document, for every state of the editor: once the queue has run, a
   composition is live exactly if there is something to show. It then covers the converted
   text with the bopomofo spliced in at the cursor, if and only if the commit is free of
   supplementary-plane characters.
   */
  lemma PreeditReachesDocument(
      s: Service, its: seq<Interval>, cursor: nat, bopomofo: string, commit: string, candidatesShown: bool)
    requires Open(s)
    requires ContiguousFrom(its, 0) && cursor <= |TextOf(its)|
    ensures var d := Drained(PreeditRequests(s, its, cursor, bopomofo, commit, candidatesShown));
            && (d.live != {} <==> Showing(its, bopomofo, candidatesShown))
            && (Showing(its, bopomofo, candidatesShown) ==>
                  && (d.mid == Encode(Spliced(its, cursor, bopomofo)) <==> Basic(commit))
                  && (d.left == CommittedText(s, commit) <==> Basic(commit)))
  {
    ShowsPreedit(s, its, cursor, bopomofo, commit, candidatesShown);
    if its != [] || bopomofo != "" {
      SetReaches(s, PreeditEdit(its, cursor, bopomofo, commit));
    } else {
      var e := Edit(commit, "", [], 0);
      EmptyEditor(s, cursor, commit, candidatesShown);
      assert Spliced(its, cursor, bopomofo) == "";
      if candidatesShown {
        SetReaches(s, e);
      } else {
        EmptiedEditor(s, cursor, commit);
      }
    }
  }

  /** A set fixes its commit and shows its preedit, both complete, if and only if no anchor is misplaced. */
  lemma SetReaches(s: Service, e: Edit)
    requires Open(s)
    ensures var d := Drained(RequestSet(s, e));
            && d.live != {}
            && (d.mid == Encode(e.preedit) <==> Basic(e.commit))
            && (d.left == CommittedText(s, e.commit) <==> Basic(e.commit))
  {
    SetRunsLast(s, e);
    SplitText(e);
    assert Drained(RequestSet(s, e)).left == Drained(Committed(s)).left + Fixed(e);
    SamePrefix(Drained(Committed(s)).left, Fixed(e), Encode(e.commit));
  }

  /** The edit that is still queued and would be overwritten by another one. */
  function Pending(s: Service): Edit
    requires WellFormed(s)
  {
    if Upgrades(s) && s.slots[s.pendingEdit.value].Some? then s.slots[s.pendingEdit.value].value
    else Edit("", "", [], 0)
  }

  /** What belongs left of the caret once the editor is empty, if the pending edit is given up: also the commit. */
  function CommittedText(s: Service, commit: string): seq<CodeUnit>
    requires WellFormed(s)
  {
    Drained(Committed(s)).left + Encode(commit)
  }

  /**
   When the editor has become empty and no candidates are shown, the composition is closed.
   If it had been started, the commit takes its place and the pending edit is gone. If not,
   the commit is dropped and the text of the pending edit is left behind. So the document has
   just the commit if and only if the composition had been started or the pending edit
   happens to have the same text.
   */
  lemma EmptiedEditor(s: Service, cursor: nat, commit: string)
    requires Open(s)
    ensures var d, p := Drained(PreeditRequests(s, [], cursor, "", commit, false)), Pending(s);
            var started := s.cells[s.current].Some?;
            && d.live == {} && d.right == Drained(Committed(s)).right
            && (started || Upgrades(s) ==> d.mid == [] && d.marks == [] && d.caret == 0)
            && d.left == Drained(Committed(s)).left + Encode(if started then commit else p.commit + p.preedit)
            && (d.left == CommittedText(s, commit) <==> started || p.commit + p.preedit == commit)
  {
    var p := Pending(s);
    EmptyEditor(s, cursor, commit, false);
    EncodeInjective(p.commit + p.preedit, commit);
    SamePrefix(Drained(Committed(s)).left, Encode(p.commit + p.preedit), Encode(commit));
    if s.cells[s.current].Some? {
      ClosedWithCommit(s, commit);
    } else {
      ClosedUnstarted(s);
    }
  }

  /**
   Measured against all that was committed, the commit of the pending edit included: nothing
   is lost and nothing stays that should not if and only if, with a started composition, no
   commit is overwritten, and without one, the commit equals the preedit given up.
   */
  lemma EmptiedKeepsAllIff(s: Service, cursor: nat, commit: string)
    requires Open(s)
    ensures var d, p := Drained(PreeditRequests(s, [], cursor, "", commit, false)), Pending(s);
            d.left == Drained(Committed(s)).left + Encode(p.commit) + Encode(commit)
            <==> if s.cells[s.current].Some? then p.commit == "" else p.preedit == commit
  {
    var p, before := Pending(s), Drained(Committed(s)).left;
    EmptiedEditor(s, cursor, commit);
    EncodeAppend(p.commit, commit);
    Associate(before, Encode(p.commit), Encode(commit));
    if s.cells[s.current].Some? {
      EncodeInjective(commit, p.commit + commit);
      SamePrefix(before, Encode(commit), Encode(p.commit + commit));
    } else {
      EncodeInjective(p.commit + p.preedit, p.commit + commit);
      SamePrefix(before, Encode(p.commit + p.preedit), Encode(p.commit + commit));
      SamePrefix(p.commit, p.preedit, commit);
    }
  }

  lemma SamePrefix<T>(a: seq<T>, x: seq<T>, y: seq<T>)
    ensures a + x == a + y <==> x == y
  {
    if a + x == a + y {
      assert x == (a + x)[|a|..];
      assert y == (a + y)[|a|..];
    }
  }

  lemma DrainedEndsWithPending(s: Service)
    requires Open(s) && Upgrades(s)
    ensures Drained(s) == Apply(Drained(Committed(s)), Set(Pending(s)))
  {
    PendingIsLast(s);
    BlankedWaiting(s);
    ImmediateSnoc(s.doc, WaitingIn(Committed(s)), Set(Pending(s)));
  }

  /** A composition that was never started is closed with the text of its pending edit in it. */
  lemma ClosedUnstarted(s: Service)
    requires Open(s) && s.cells[s.current].None?
    ensures var d, before, p := Drained(RequestEnd(s)), Drained(Committed(s)), Pending(s);
            && d.live == {} && d.left == before.left + Encode(p.commit + p.preedit) && d.right == before.right
            && (Upgrades(s) ==> d.mid == [] && d.marks == [] && d.caret == 0)
  {
    EndRunsLast(s);
    var before := Drained(Committed(s));
    if Upgrades(s) {
      DrainedEndsWithPending(s);
      SetThenClose(before, Pending(s));
    } else {
      NeverStarted(s);
      assert before.left + Encode("") == before.left;
    }
  }

  lemma SetThenClose(d: Document, e: Edit)
    ensures var closed := Apply(Apply(d, Set(e)), End);
            && closed.live == {} && closed.left == d.left + Encode(e.commit + e.preedit) && closed.right == d.right
            && closed.mid == [] && closed.marks == [] && closed.caret == 0
  {
    SetShows(d, e);
    FixedPlusKept(e);
    Associate(d.left, Fixed(e), Kept(e));
  }

  /** A preedit that was queued but not shown yet, and that the editor has given up. */
  predicate LeavesPreedit(s: Service)
    requires WellFormed(s)
  {
    s.cells[s.current].None? && Kept(Pending(s)) != []
  }

  /**
   The preedit given up is gone from the document, unless it was still queued for a
   composition that had not been started: then, and only then, it stays as ordinary text.
   */
  lemma StalePreeditStaysIff(s: Service, cursor: nat, commit: string)
    requires Open(s)
    ensures var d := Drained(PreeditRequests(s, [], cursor, "", commit, false));
            && (s.cells[s.current].None? ==> (d.left != Drained(s).left <==> LeavesPreedit(s)))
            && (LeavesPreedit(s) ==> d.left == Drained(s).left + Kept(Pending(s)))
            && (s.cells[s.current].Some? ==> d.left == CommittedText(s, commit) && d.mid == [])
  {
    EmptyEditor(s, cursor, commit, false);
    CommittedWaiting(s);
    if s.cells[s.current].Some? {
      ClosedWithCommit(s, commit);
    } else {
      EndRunsLast(s);
      NeverStarted(s);
      assert !Upgrades(s) ==> Kept(Pending(s)) == [];
    }
  }

  lemma CommitThenEnd(d: Document, commit: string)
    ensures var closed := Apply(Apply(d, Set(Edit(commit, "", [], 0))), End);
            && closed.live == {} && closed.left == d.left + Encode(commit) && closed.mid == []
            && closed.right == d.right && closed.marks == [] && closed.caret == 0
  {
    var e := Edit(commit, "", [], 0);
    var u := Apply(d, Set(e));
    SetShows(d, e);
    assert u.left == d.left + Fixed(e) && u.right == d.right;
    FixedPlusKept(e);
    assert e.commit + e.preedit == commit;
    Associate(d.left, Fixed(e), Kept(e));
  }

  lemma FixedPlusKept(e: Edit)
    ensures Fixed(e) + Kept(e) == Encode(e.commit + e.preedit)
  {
  }

  lemma ClosedWithCommit(s: Service, commit: string)
    requires Open(s)
    ensures var d, before := Drained(RequestEnd(RequestSet(s, Edit(commit, "", [], 0)))), Drained(Committed(s));
            && d.live == {} && d.left == before.left + Encode(commit) && d.mid == []
            && d.right == before.right && d.marks == [] && d.caret == 0
  {
    var e := Edit(commit, "", [], 0);
    OpenStep(s, Ask(Set(e)));
    RunsAfterCommitted(s, e);
    EndRunsLast(RequestSet(s, e));
    CommitThenEnd(Drained(Committed(s)), commit);
  }

  lemma EndsWithEnd(d: Document, requests: seq<Request>)
    requires requests != [] && Last(requests) == End
    ensures Immediate(d, requests).live == {}
  {
    assert requests == Front(requests) + [End];
    ImmediateSnoc(d, Front(requests), End);
  }

  lemma NothingPending(s: Service)
    requires Open(s) && s.cells[s.current].None? && !Upgrades(s)
    ensures Drained(s).live == {}
  {
    NothingSetOnCurrent(s, |s.queue|);
    assert s.queue[..|s.queue|] == s.queue;
    if WaitingIn(s) == [] {
      FrontIsCurrent(s, |s.queue|);
    } else {
      EndsWithEnd(s.doc, WaitingIn(s));
    }
  }

  /** With an empty current cell only the pending edit can make a composition live. */
  lemma NeverStarted(s: Service)
    requires Open(s) && s.cells[s.current].None?
    ensures Drained(s).live != {} <==> Upgrades(s)
    ensures Upgrades(s) ==> s.slots[s.pendingEdit.value].Some?
                            && Drained(s).mid == Kept(s.slots[s.pendingEdit.value].value)
  {
    if Upgrades(s) {
      PendingIsLast(s);
      DrainedEndsWithPending(s);
      SetShows(Drained(Committed(s)), Pending(s));
    } else {
      NothingPending(s);
    }
  }

  /** Without a pending edit, sessions on the current cell do nothing, so an End is the last thing that waits. */
  lemma {:induction false} NothingSetOnCurrent(s: Service, n: nat)
    requires Open(s) && !Upgrades(s) && n <= |s.queue|
    requires n == |s.queue| || s.queue[n].cell == s.current
    ensures var w := Waiting(s.queue[..n], s);
            w == [] || Last(w) == End
  {
    if n > 0 {
      WaitingPrefix(s, n);
      assert Linked(s, n - 1);
      if s.queue[n - 1].SetString? {
        if !Blank(s, n - 1) {
          assert Holds(s.queue[n - 1], s.pendingEdit.value);
        }
        NothingSetOnCurrent(s, n - 1);
        var w := Waiting(s.queue[..n - 1], s);
        assert w + [] == w;
      }
    }
  }

  /** If nothing waits, no End is queued and the front cell is the current one. */
  lemma {:induction false} FrontIsCurrent(s: Service, n: nat)
    requires Open(s) && n <= |s.queue| && Waiting(s.queue[..n], s) == []
    requires if n == |s.queue| then true else s.queue[n].cell == s.current
    ensures FrontCell(s) == s.current
  {
    if n > 0 {
      WaitingPrefix(s, n);
      assert Linked(s, n - 1);
      FrontIsCurrent(s, n - 1);
    }
  }

  lemma WaitingPrefix(s: Service, n: nat)
    requires 0 < n <= |s.queue|
    ensures Waiting(s.queue[..n], s) == Waiting(s.queue[..n - 1], s) + RequestOf(s.queue[n - 1], s)
  {
    assert s.queue[..n] == s.queue[..n - 1] + [s.queue[n - 1]];
    WaitingSnoc(s.queue[..n - 1], s.queue[n - 1], s);
  }

  lemma EndAlone(d: Document)
    requires d.live == {}
    ensures Immediate(d, [End]) == d
  {
    assert Immediate(d, [End]) == Apply(Immediate(d, []), End);
  }

  lemma ClosedOnDead(s: Service, e: Edit)
    requires Inv(s) && Dead(s, s.current)
    ensures Drained(RequestEnd(RequestSet(s, e))) == s.doc
  {
    var t := RequestSet(s, e);
    assert t.doc == s.doc && t.current == s.current;
    SetOnDeadIsLost(s, e);
    EndOnDead(t);
    DeadMeansNoneLive(s);
    EndAlone(s.doc);
  }

  lemma DeadMeansNoneLive(s: Service)
    requires Inv(s) && Dead(s, s.current)
    ensures s.doc.live == {}
  {
  }

  /** While a termination is outstanding, nothing that update_preedit does reaches the document. */
  lemma PreeditOnDeadIsLost(
      s: Service, its: seq<Interval>, cursor: nat, bopomofo: string, commit: string, candidatesShown: bool)
    requires Inv(s) && Dead(s, s.current)
    ensures Drained(PreeditRequests(s, its, cursor, bopomofo, commit, candidatesShown)) == s.doc
  {
    var e, cleared := PreeditEdit(its, cursor, bopomofo, commit), Edit(commit, "", [], 0);
    if e.preedit != "" {
      SetOnDeadIsLost(s, e);
    } else if candidatesShown {
      SetOnDeadIsLost(s, cleared);
    } else {
      ClosedOnDead(s, cleared);
    }
  }

  lemma AskOne(s: Service, a: Request)
    requires QueueInv(s)
    ensures AskAll(s, [a]) == Step(s, Ask(a))
  {
    assert Front([a]) == [];
    assert AskAll(s, []) == s;
  }

  lemma AskTwo(s: Service, a: Request, b: Request)
    requires QueueInv(s)
    ensures QueueInv(Step(s, Ask(a))) && AskAll(s, [a, b]) == Step(Step(s, Ask(a)), Ask(b))
  {
    StepKeepsQueueInv(s, Ask(a));
    assert Front([a, b]) == [a];
    AskOne(s, a);
  }

  /**
   In particular, when the application terminates the composition while a key is handled, all
   that update_preedit still requests in that callback is lost, the commit included.
   */
  lemma PreeditBeforeTailIsLost(
      s: Service, l: seq<CodeUnit>, m: seq<CodeUnit>, r: seq<CodeUnit>,
      its: seq<Interval>, cursor: nat, bopomofo: string, commit: string, candidatesShown: bool)
    requires Inv(s) && Enabled(s, Terminate(Deferred, l, m, r))
    ensures var u := AfterTerminate(s, Deferred, l, m, r);
            var busy := PreeditRequests(u, its, cursor, bopomofo, commit, candidatesShown);
            WellFormed(busy) && Drained(Step(busy, Tail)) == Replaced(s.doc, l, m, r)
  {
    var u := AfterTerminate(s, Deferred, l, m, r);
    var e, cleared := PreeditEdit(its, cursor, bopomofo, commit), Edit(commit, "", [], 0);
    if e.preedit != "" {
      AskOne(u, Set(e));
      AllLostIff(s, l, m, r, [Set(e)]);
    } else if candidatesShown {
      AskOne(u, Set(cleared));
      AllLostIff(s, l, m, r, [Set(cleared)]);
    } else {
      AskTwo(u, Set(cleared), End);
      AllLostIff(s, l, m, r, [Set(cleared), End]);
    }
  }

  /** A preedit that the user types and deletes again before any session has run stays in the document. */
  lemma DeletedPreeditStays(text: seq<CodeUnit>, preedit: string, segments: seq<Segment>, cursor: nat)
    requires preedit != ""
    ensures var typed := RequestSet(Initial(text), Edit("", preedit, segments, cursor));
            && Open(typed) && LeavesPreedit(typed)
            && Drained(PreeditRequests(typed, [], 0, "", "", false)).left == text + Encode(preedit)
  {
    var e := Edit("", preedit, segments, cursor);
    FirstRequest(text, e);
    SplitText(e);
    assert |Encode(preedit)| >= |preedit|;
    EmptiedEditor(RequestSet(Initial(text), e), 0, "");
    assert e.commit + e.preedit == preedit;
  }

  /** The very first edit is pending, and without it the document is as it was. */
  lemma FirstRequest(text: seq<CodeUnit>, e: Edit)
    ensures var shown := RequestSet(Initial(text), e);
            && Open(shown) && shown.cells[shown.current].None? && Pending(shown) == e
            && Drained(Committed(shown)).left == text
  {
    var shown := RequestSet(Initial(text), e);
    InitialInv(text);
    OpenStep(Initial(text), Ask(Set(e)));
    assert Holds(shown.queue[0], 0);
    BlankedWaiting(shown);
    assert shown.queue[..0] == [];
    assert Drained(Committed(shown)) == Immediate(shown.doc, []);
  }

  /**
   A commit gets lost: candidates were shown for an empty editor, their session has not run
   yet, and the key that closes them commits a text.
   */
  lemma CommitIsDropped(text: seq<CodeUnit>, commit: string)
    ensures var shown := PreeditRequests(Initial(text), [], 0, "", "", true);
            && Open(shown)
            && Drained(PreeditRequests(shown, [], 0, "", commit, false)).left == text
            && CommittedText(shown, commit) == text + Encode(commit)
            && (text == text + Encode(commit) <==> commit == "")
  {
    EmptyEditor(Initial(text), 0, "", true);
    FirstRequest(text, Edit("", "", [], 0));
    EmptiedEditor(RequestSet(Initial(text), Edit("", "", [], 0)), 0, commit);
    assert text + Encode("") == text;
    assert |Encode(commit)| >= |commit|;
  }

  // ----- The underlines -----

  /**
   In the document the underlines tile the first code units of the composition, as many as the
   preedit has characters, exactly when there is no bopomofo or the cursor is at either end of
   the symbols. They tile the whole composition exactly when, moreover, neither the commit nor
   the preedit has supplementary-plane characters.
   */
  lemma UnderlineTilesCompositionIff(
      s: Service, its: seq<Interval>, cursor: nat, bopomofo: string, commit: string, candidatesShown: bool)
    requires Open(s)
    requires ContiguousFrom(its, 0) && cursor <= |TextOf(its)| && (its != [] || bopomofo != "")
    ensures var d := Drained(PreeditRequests(s, its, cursor, bopomofo, commit, candidatesShown));
            var atEnd := bopomofo == "" || cursor == 0 || cursor == |TextOf(its)|;
            var text := Spliced(its, cursor, bopomofo);
            && (Tile(Stretches(d.marks), 0, |text|) <==> atEnd)
            && (Tile(Stretches(d.marks), 0, |d.mid|) <==> atEnd && Basic(commit) && Basic(text))
  {
    ShowsPreedit(s, its, cursor, bopomofo, commit, candidatesShown);
    SetRunsLast(s, PreeditEdit(its, cursor, bopomofo, commit));
    ShownUnderlines(Drained(RequestSet(s, PreeditEdit(its, cursor, bopomofo, commit))), its, cursor, bopomofo, commit);
  }

  /** The composition has as many code units as the preedit has characters, or more. */
  lemma KeptLength(e: Edit)
    ensures |Kept(e)| >= |e.preedit|
    ensures |Kept(e)| == |e.preedit| <==> Basic(e.commit) && Basic(e.preedit)
  {
    FixedAndKept(e);
    LengthAgreesIffBasic(e.commit);
    LengthAgreesIffBasic(e.preedit);
  }

  lemma ShownUnderlines(d: Document, its: seq<Interval>, cursor: nat, bopomofo: string, commit: string)
    requires Shows(d, PreeditEdit(its, cursor, bopomofo, commit))
    requires ContiguousFrom(its, 0) && cursor <= |TextOf(its)|
    ensures var atEnd := bopomofo == "" || cursor == 0 || cursor == |TextOf(its)|;
            var text := Spliced(its, cursor, bopomofo);
            && (Tile(Stretches(d.marks), 0, |text|) <==> atEnd)
            && (Tile(Stretches(d.marks), 0, |d.mid|) <==> atEnd && Basic(commit) && Basic(text))
  {
    var e := PreeditEdit(its, cursor, bopomofo, commit);
    var text := Spliced(its, cursor, bopomofo);
    SegmentsOfText(its, cursor, bopomofo);
    SpliceAtCursor(its, cursor, bopomofo);
    assert e.commit == commit && e.preedit == text;
    assert e.segments == Segments(its, cursor, |bopomofo|, bopomofo != "");
    KeptLength(e);
    assert d.mid == Kept(e);
    ShownSegments(d, e.segments, |text|);
  }

  lemma SegmentsOfText(its: seq<Interval>, cursor: nat, bopomofo: string)
    requires ContiguousFrom(its, 0) && cursor <= |TextOf(its)|
    ensures var segs := Segments(its, cursor, |bopomofo|, bopomofo != "");
            var n := |Spliced(its, cursor, bopomofo)|;
            && (Tile(segs, 0, n) <==> bopomofo == "" || cursor == 0 || cursor == |TextOf(its)|)
            && forall k | 0 <= k < |segs| :: segs[k].0 <= n && segs[k].1 <= n
  {
    var n := |TextOf(its)| + |bopomofo|;
    assert |Spliced(its, cursor, bopomofo)| == n;
    SegmentsBounded(its, 0, cursor, |bopomofo|, bopomofo != "", n);
    SegmentsTileIff(its, cursor, bopomofo);
  }

  /** Underlines in the document tile what the segments tile, and nothing beyond the last one. */
  lemma ShownSegments(d: Document, segs: seq<Segment>, n: nat)
    requires d.marks == MarksOf(segs, |d.mid| + |d.right|) && n <= |d.mid|
    requires forall k | 0 <= k < |segs| :: segs[k].0 <= n && segs[k].1 <= n
    ensures Tile(Stretches(d.marks), 0, n) <==> Tile(segs, 0, n)
    ensures Tile(Stretches(d.marks), 0, |d.mid|) <==> Tile(segs, 0, n) && |d.mid| == n
  {
    MarksTileAsSegments(segs, |d.mid| + |d.right|, n);
    MarksTileAsSegments(segs, |d.mid| + |d.right|, |d.mid|);
    if n < |d.mid| {
      NoTileBeyond(segs, n, |d.mid|);
    }
  }

  /**
   The rest of what the document shows: the caret stands at the editor's cursor, each position
   is underlined as often as the segments say, and the underlines carry the two attributes in
   turns. With nothing but candidates to show there is no underline.
   */
  lemma PreeditLooks(
      s: Service, its: seq<Interval>, cursor: nat, bopomofo: string, commit: string, candidatesShown: bool, pos: nat)
    requires Open(s) && Showing(its, bopomofo, candidatesShown)
    requires ContiguousFrom(its, 0) && cursor <= |TextOf(its)|
    ensures var d := Drained(PreeditRequests(s, its, cursor, bopomofo, commit, candidatesShown));
            && d.caret == cursor
            && (if its == [] && bopomofo == "" then d.marks == []
                else
                  && Times(Stretches(d.marks), pos)
                     == Times(Segments(its, cursor, |bopomofo|, bopomofo != ""), pos)
                  && |d.marks| == |Segments(its, cursor, |bopomofo|, bopomofo != "")|
                  && d.marks[0].atom == 0
                  && forall k | 0 < k < |d.marks| :: d.marks[k].atom == 1 - d.marks[k - 1].atom)
  {
    if its == [] && bopomofo == "" {
      EmptyEditor(s, cursor, commit, candidatesShown);
      SetRunsLast(s, Edit(commit, "", [], 0));
    } else {
      var e := PreeditEdit(its, cursor, bopomofo, commit);
      ShowsPreedit(s, its, cursor, bopomofo, commit, candidatesShown);
      SetRunsLast(s, e);
      ShownLooks(Drained(RequestSet(s, e)), its, cursor, bopomofo, commit, pos);
    }
  }

  lemma ShownLooks(
      d: Document, its: seq<Interval>, cursor: nat, bopomofo: string, commit: string, pos: nat)
    requires Shows(d, PreeditEdit(its, cursor, bopomofo, commit))
    requires ContiguousFrom(its, 0) && cursor <= |TextOf(its)| && (its != [] || bopomofo != "")
    ensures var segs := Segments(its, cursor, |bopomofo|, bopomofo != "");
            && d.caret == cursor
            && Times(Stretches(d.marks), pos) == Times(segs, pos)
            && |d.marks| == |segs| && segs != [] && d.marks[0].atom == 0
            && forall k | 0 < k < |d.marks| :: d.marks[k].atom == 1 - d.marks[k - 1].atom
  {
    var e := PreeditEdit(its, cursor, bopomofo, commit);
    var room := |d.mid| + |d.right|;
    SegmentsOfText(its, cursor, bopomofo);
    SpliceAtCursor(its, cursor, bopomofo);
    KeptLength(e);
    assert |e.preedit| == |TextOf(its)| + |bopomofo|;
    MarksCoverAsSegments(e.segments, room, pos);
    MarksAlternate(e.segments, room);
    SomeSegment(its, cursor, bopomofo);
  }

  lemma SomeSegment(its: seq<Interval>, cursor: nat, bopomofo: string)
    requires its != [] || bopomofo != ""
    ensures Segments(its, cursor, |bopomofo|, bopomofo != "") != []
  {
  }

  lemma NoTileBeyond(segs: seq<Segment>, n: nat, room: nat)
    requires forall k | 0 <= k < |segs| :: segs[k].1 <= n
    requires n < room
    ensures !Tile(segs, 0, room)
  {
    assert !Covered(segs, n);
  }

  /** The flag can be kept beside the rest of the state. */
  lemma FlagBeside(s: Service, flag: bool, ev: Event)
    requires WellFormed(s) && !s.terminated
    ensures Step(s.(terminated := flag), ev)
         == match ev
            case Terminate(h, _, _, _) => Step(s, ev).(terminated := flag || h.Deferred?)
            case Tail => if flag then TerminatedTail(s) else s
            case _ => Step(s, ev).(terminated := flag)
  {
  }

  lemma PerformOneMore(s: Service, events: seq<Event>, i: nat)
    requires i < |events|
    ensures Perform(s, events[..i + 1]) == Do(Perform(s, events[..i]), events[i])
  {
    PerformAppend(s, events[..i], [events[i]]);
    assert events[..i] + [events[i]] == events[..i + 1];
    assert [events[i]][1..] == [];
    assert Perform(Perform(s, events[..i]), [events[i]]) == Perform(Do(Perform(s, events[..i]), events[i]), []);
  }

  // ----- The same protocol over heap cells -----

  /** An Rc<RefCell<Option<T>>>. */
  class Cell<T> {
    var value: Option<T>
    ghost const id: nat

    constructor (ghost id: nat, value: Option<T>)
      ensures this.id == id && this.value == value
    {
      this.value, this.id := value, id;
    }
  }

  type CompositionCell = Cell<nat>

  type EditSlot = Cell<Edit>

  datatype QueuedSession =
    | SetCompositionString(composition: CompositionCell, pending: EditSlot)
    | EndComposition(composition: CompositionCell)

  ghost function Values<T>(cells: seq<Cell<T>>): (r: seq<Option<T>>)
    reads cells
    ensures |r| == |cells| && forall i | 0 <= i < |cells| :: r[i] == cells[i].value
  {
    seq(|cells|, i requires 0 <= i < |cells| reads cells => cells[i].value)
  }

  ghost function Name(session: QueuedSession): Session {
    match session
    case SetCompositionString(c, p) => Session.SetString(c.id, p.id)
    case EndComposition(c) => Session.EndComposition(c.id)
  }

  ghost function Names(queue: seq<QueuedSession>): seq<Session> {
    seq(|queue|, i requires 0 <= i < |queue| => Name(queue[i]))
  }

  class ChewingTextService {
    const context: Context
    var queue: seq<QueuedSession>      // sessions the host has accepted and not yet run
    var composition: CompositionCell
    var pendingEdit: Cell?<Edit>         // a weak reference
    ghost var cells: seq<CompositionCell>
    ghost var slots: seq<EditSlot>

    ghost predicate Valid()
      reads this
    {
      && (forall i | 0 <= i < |cells| :: cells[i].id == i)
      && (forall i | 0 <= i < |slots| :: slots[i].id == i)
      && composition in cells
      && (pendingEdit != null ==> pendingEdit in slots)
      && (forall i | 0 <= i < |queue| ::
            queue[i].composition in cells && (queue[i].SetCompositionString? ==> queue[i].pending in slots))
    }

    /** Every object that the composition half may change. */
    ghost function Footprint(): set<object>
      reads this
    {
      {this, context} + (set c | c in cells) + (set p | p in slots)
    }

    ghost function Model(): (s: Service)
      reads this, context, cells, slots
      requires Valid()
      ensures WellFormed(s)
    {
      Service(context.doc, Values(cells), composition.id, Values(slots),
              if pendingEdit == null then None else Some(pendingEdit.id), Names(queue), false)
    }

    constructor (context: Context)
      ensures Valid() && this.context == context && fresh(cells)
      ensures Model() == Service(context.doc, [None], 0, [], None, [], false)
    {
      var cell := new Cell<nat>(0, None);
      this.context, composition, pendingEdit, queue := context, cell, null, [];
      cells, slots := [cell], [];
    }

    /** Weak::upgrade succeeds: a queued session still owns the slot. */
    method Upgrade() returns (alive: bool)
      requires Valid()
      ensures alive == Upgrades(Model())
    {
      alive := false;
      ghost var names := Names(queue);
      for i := 0 to |queue|
        invariant alive <==> pendingEdit != null && exists j | 0 <= j < i :: Holds(names[j], pendingEdit.id)
      {
        assert names[i] == Name(queue[i]);
        if queue[i].SetCompositionString? && queue[i].pending == pendingEdit {
          assert Holds(names[i], pendingEdit.id);
          alive := true;
        }
      }
    }

    method RequestEditSession(session: QueuedSession)
      requires Valid() && session.composition in cells
      requires session.SetCompositionString? ==> session.pending in slots
      modifies this`queue
      ensures Valid() && Model() == old(Model()).(queue := old(Model()).queue + [Name(session)])
    {
      queue := queue + [session];
    }

    /** The branch of set_composition_string that requests a new session. */
    method QueueEdit(edit: Edit)
      requires Valid() && !Upgrades(Model())
      modifies this
      ensures Valid() && cells == old(cells) && old(slots) <= slots && fresh(slots[|old(slots)|..])
      ensures Model() == RequestSet(old(Model()), edit)
    {
      var pending := new Cell<Edit>(|slots|, Some(edit));
      slots := slots + [pending];
      pendingEdit := pending;
      assert Values(slots) == old(Values(slots)) + [Some(edit)];
      assert Names(queue) == old(Names(queue)) && Values(cells) == old(Values(cells));
      RequestEditSession(QueuedSession.SetCompositionString(composition, pending));
    }

    method SetCompositionString(commit: string, preedit: string, segments: seq<Segment>, cursor: nat)
      requires Valid()
      modifies this, slots
      ensures Valid() && cells == old(cells) && old(slots) <= slots && fresh(slots[|old(slots)|..])
      ensures Model() == RequestSet(old(Model()), Edit(commit, preedit, segments, cursor))
    {
      var edit := Edit(commit, preedit, segments, cursor);
      var alive := Upgrade();
      if alive {
        pendingEdit.value := Some(edit);
        assert Values(slots) == old(Values(slots))[pendingEdit.id := Some(edit)];
        assert Values(cells) == old(Values(cells));
      } else {
        QueueEdit(edit);
      }
    }

    /** The service moves on to a fresh cell and forgets its pending edit. */
    method TakeFreshCell()
      requires Valid()
      modifies `composition, `cells, `pendingEdit
      ensures Valid() && old(cells) <= cells && fresh(cells[|old(cells)|..])
      ensures var s := old(Model());
              Model() == s.(cells := s.cells + [None], current := |s.cells|, pendingEdit := None)
    {
      composition := new Cell<nat>(|cells|, None);
      cells := cells + [composition];
      pendingEdit := null;
      assert Values(cells) == old(Values(cells)) + [None] && Values(slots) == old(Values(slots));
      assert Names(queue) == old(Names(queue));
    }

    method EndComposition()
      requires Valid()
      modifies this
      ensures Valid() && slots == old(slots) && old(cells) <= cells && fresh(cells[|old(cells)|..])
      ensures Model() == RequestEnd(old(Model()))
    {
      var ending := composition;
      TakeFreshCell();
      RequestEditSession(QueuedSession.EndComposition(ending));
    }

    method Put(cell: CompositionCell, value: Option<nat>)
      requires Valid() && cell in cells
      modifies cell
      ensures Valid() && Model() == old(Model()).(cells := old(Model()).cells[cell.id := value])
    {
      cell.value := value;
      assert Values(cells) == old(Values(cells))[cell.id := value];
    }

    /** A session that finds an edit but no composition starts one. */
    method StartIfNeeded(cell: CompositionCell, pending: EditSlot)
      requires Valid() && cell in cells && pending in slots
      modifies context, cell
      ensures Valid()
      ensures var s := old(Model());
              Model() == if s.cells[cell.id].None? && s.slots[pending.id].Some?
                         then s.(doc := StartComposition(s.doc), cells := s.cells[cell.id := Some(s.doc.started)])
                         else s
    {
      if cell.value.None? && pending.value.Some? {
        var started := context.Start();
        Put(cell, Some(started));
      }
    }

    /** It then writes the edit, unless the composition has been terminated. */
    method WriteIfLive(cell: CompositionCell, pending: EditSlot)
      requires Valid() && cell in cells && pending in slots
      modifies context
      ensures Valid()
      ensures var s := old(Model());
              Model() == if Live(s, cell.id) && s.slots[pending.id].Some?
                         then s.(doc := ApplyEdit(s.doc, s.slots[pending.id].value)) else s
    {
      if cell.value.Some? && pending.value.Some? {
        var ok := context.GetRange(cell.value.value);
        if ok {
          context.SetString(pending.value.value);
        }
      }
    }

    /** SetCompositionString::DoEditSession */
    method RunSet(cell: CompositionCell, pending: EditSlot)
      requires Valid() && cell in cells && pending in slots
      modifies context, cell
      ensures Valid() && Model() == Composition.RunSet(old(Model()), cell.id, pending.id)
    {
      StartIfNeeded(cell, pending);
      WriteIfLive(cell, pending);
    }

    /** EndComposition::DoEditSession */
    method RunEnd(cell: CompositionCell)
      requires Valid() && cell in cells
      modifies context, cell
      ensures Valid() && Model() == Composition.RunEnd(old(Model()), cell.id)
    {
      var taken := cell.value;
      Put(cell, None);
      if taken.Some? {
        var ok := context.GetRange(taken.value);
        if ok {
          context.Finish(taken.value);
        }
      }
    }

    /** The host runs the oldest session and releases it. */
    method RunNext()
      requires Valid()
      modifies this, context, cells
      ensures Valid() && cells == old(cells) && slots == old(slots)
      ensures Model() == Composition.RunNext(old(Model()))
    {
      if queue == [] {
        return;
      }
      var session := queue[0];
      queue := queue[1..];
      assert Names(queue) == old(Names(queue))[1..] && old(Names(queue))[0] == Name(session);
      match session {
        case SetCompositionString(cell, pending) => RunSet(cell, pending);
        case EndComposition(cell) => RunEnd(cell);
      }
    }

    /** Pending edits are blanked, to avoid double commits. */
    method ClearPendingEdit()
      requires Valid()
      modifies `pendingEdit, slots
      ensures Valid()
      ensures var s := old(Model());
              Model() == s.(slots := if Upgrades(s) then s.slots[s.pendingEdit.value := None] else s.slots,
                            pendingEdit := None)
    {
      var alive := Upgrade();
      if alive {
        pendingEdit.value := None;
        assert Values(slots) == old(Values(slots))[pendingEdit.id := None];
      } else {
        assert Values(slots) == old(Values(slots));
      }
      assert Values(cells) == old(Values(cells));
      pendingEdit := null;
    }

    /** The application acts on the document. */
    method AppReplaces(left: seq<CodeUnit>, mid: seq<CodeUnit>, right: seq<CodeUnit>)
      requires Valid()
      modifies context
      ensures Valid() && Model() == old(Model()).(doc := Replaced(old(Model()).doc, left, mid, right))
    {
      context.Replace(left, mid, right);
    }

    method OnCompositionTerminatedTail()
      requires Valid()
      modifies this, cells, slots
      ensures Valid() && cells == old(cells) && slots == old(slots)
      ensures Model() == TerminatedTail(old(Model()))
    {
      ClearPendingEdit();
      label cleared:
      composition.value := None;
      assert Values(cells) == old@cleared(Values(cells))[composition.id := None];
      assert Values(slots) == old@cleared(Values(slots));
    }

    // ----- Every event of the protocol, on the heap -----

    method Request(request: Request)
      requires Valid()
      modifies Footprint()
      ensures Valid() && fresh(Footprint() - old(Footprint()))
      ensures Model() == Step(old(Model()), Ask(request))
    {
      match request {
        case Set(e) =>
          SetCompositionString(e.commit, e.preedit, e.segments, e.cursor);
          assert forall i | 0 <= i < |slots| :: slots[i] in old(slots) || slots[i] in slots[|old(slots)|..];
        case End =>
          EndComposition();
          assert forall i | 0 <= i < |cells| :: cells[i] in old(cells) || cells[i] in cells[|old(cells)|..];
      }
    }

    /** The application terminates the composition; the flag of a deferred termination is kept by the caller. */
    method AppTerminates(handling: Handling, left: seq<CodeUnit>, mid: seq<CodeUnit>, right: seq<CodeUnit>)
      requires Valid()
      modifies Footprint()
      ensures Valid() && Footprint() == old(Footprint())
      ensures Model() == Step(old(Model()), Terminate(handling, left, mid, right)).(terminated := false)
    {
      AppReplaces(left, mid, right);
      if handling.AtOnce? {
        OnCompositionTerminatedTail();
      }
    }

    /** The service half and the host together take one step. */
    method Happen(ev: Event, flag: bool) returns (after: bool)
      requires Valid()
      modifies Footprint()
      ensures Valid() && fresh(Footprint() - old(Footprint()))
      ensures Model().(terminated := after) == Step(old(Model()).(terminated := flag), ev)
    {
      after := flag;
      FlagBeside(Model(), flag, ev);
      match ev {
        case Ask(request) => Request(request);
        case RunSession => RunNext();
        case Terminate(h, l, m, r) =>
          AppTerminates(h, l, m, r);
          after := flag || h.Deferred?;
        case Tail =>
          if flag {
            OnCompositionTerminatedTail();
            after := false;
          }
        case AppEdit(l, m, r) => AppReplaces(l, m, r);
      }
    }

    /**
     Any events, such as those of a callback or of a whole run: the heap objects do what the
     protocol on values does.
     */
    method Replay(events: seq<Event>, flag: bool) returns (after: bool)
      requires Valid()
      modifies Footprint()
      ensures Valid() && fresh(Footprint() - old(Footprint()))
      ensures Model().(terminated := after) == Perform(old(Model()).(terminated := flag), events)
    {
      after := flag;
      ghost var start := Model().(terminated := flag);
      for i := 0 to |events|
        invariant Valid() && fresh(Footprint() - old(Footprint()))
        invariant Model().(terminated := after) == Perform(start, events[..i])
      {
        PerformOneMore(start, events, i);
        after := Happen(events[i], after);
      }
      assert events[..|events|] == events;
    }

    method UpdatePreedit(
        intervals: seq<Interval>, cursor: nat, bopomofo: string, commit: string, candidatesShown: bool)
      requires Valid()
      modifies this, slots
      ensures Valid()
      ensures Model() == PreeditRequests(old(Model()), intervals, cursor, bopomofo, commit, candidatesShown)
    {
      var buffer, segments := Assemble(intervals, cursor, bopomofo);
      if buffer != "" {
        SetCompositionString(commit, buffer, segments, cursor);
      } else {
        if composition.value.Some? || candidatesShown {
          SetCompositionString(commit, "", [], 0);
        }
        if !candidatesShown {
          EndComposition();
        }
      }
    }
  }
}
