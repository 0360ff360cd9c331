/**
 A termination that reaches the service while it is busy. Until the tail handler runs, the
 current cell holds a dead composition and the service goes on requesting; then the tail
 handler empties the current cell and blanks the pending edit. What becomes of the requests
 in between?
 */
module DeferredTermination {
  import opened Wrappers
  import opened Utf16
  import opened EditSession
  import opened Composition
  import opened CompositionRuns

  // ----- What one request and one tail handler do to the waiting requests -----

  lemma NothingWaitsIfDead(s: Service)
    requires QueueInv(s) && Dead(s, s.current)
    ensures WaitingIn(s) == []
  {
    AllOnCurrent(s);
    AllMute(s.queue, s);
  }

  lemma {:induction false} AllMute(queue: seq<Session>, s: Service)
    requires forall i | 0 <= i < |queue| :: RequestOf(queue[i], s) == []
    ensures Waiting(queue, s) == []
  {
    if queue != [] {
      AllMute(queue[..|queue| - 1], s);
    }
  }

  /** A set on a dead composition is lost, with its commit. */
  lemma SetOnDeadIsLost(s: Service, e: Edit)
    requires Inv(s) && Dead(s, s.current)
    ensures Inv(RequestSet(s, e)) && Dead(RequestSet(s, e), s.current)
    ensures WaitingIn(RequestSet(s, e)) == [] == WaitingIn(s) && Drained(RequestSet(s, e)) == Drained(s)
  {
    StepKeepsInvIff(s, Ask(Set(e)));
    NothingWaitsIfDead(s);
    NothingWaitsIfDead(RequestSet(s, e));
  }

  lemma EndOnDead(s: Service)
    requires Inv(s) && Dead(s, s.current)
    ensures Open(RequestEnd(s)) && WaitingIn(RequestEnd(s)) == [End]
  {
    var t := RequestEnd(s);
    StepKeepsInvIff(s, Ask(End));
    NothingWaitsIfDead(s);
    AllOnCurrent(s);
    var n := |s.queue|;
    WaitingSnoc(s.queue, t.queue[n], t);
    assert t.queue == s.queue + [t.queue[n]];
    WaitingFrame(s.queue, s, t);
  }

  /** The pending edit can be reached and would be applied. */
  predicate PendingCounts(s: Service) {
    Upgrades(s) && !Dead(s, s.current)
  }

  lemma TailBlanks(s: Service, i: nat)
    requires Inv(s) && s.terminated && !Strands(s, Tail) && i < |s.queue|
    ensures RequestOf(s.queue[i], Step(s, Tail))
         == if Upgrades(s) && i == |s.queue| - 1 then [] else RequestOf(s.queue[i], s)
  {
    var t := Step(s, Tail);
    if Upgrades(s) {
      SlotIsLast(s);
    }
    if s.queue[i].cell == s.current && s.queue[i].SetString? && !Blank(s, i) {
      assert Holds(s.queue[i], s.pendingEdit.value);
    }
  }

  lemma TailWaiting(s: Service)
    requires Inv(s) && s.terminated && !Strands(s, Tail)
    ensures WaitingIn(Step(s, Tail)) == Waiting(if Upgrades(s) then s.queue[..|s.queue| - 1] else s.queue, s)
  {
    var t := Step(s, Tail);
    var n := if Upgrades(s) then |s.queue| - 1 else |s.queue|;
    forall i | 0 <= i < n ensures RequestOf(s.queue[i], s) == RequestOf(s.queue[i], t) {
      TailBlanks(s, i);
    }
    WaitingFrame(s.queue[..n], s, t);
    assert t.queue == s.queue == s.queue[..|s.queue|];
    if Upgrades(s) {
      TailBlanks(s, n);
    }
  }

  lemma PendingWaits(s: Service)
    requires Inv(s) && Upgrades(s)
    ensures var n := |s.queue| - 1;
            n >= 0 && WaitingIn(s) == Waiting(s.queue[..n], s)
                                      + if Dead(s, s.current) then [] else [Set(s.slots[s.pendingEdit.value].value)]
  {
    SlotIsLast(s);
    assert !Blank(s, |s.queue| - 1);
  }

  /** The tail handler loses the pending edit and nothing else, in any state that is not too late for it. */
  lemma TailLosesPending(s: Service)
    requires Inv(s) && s.terminated && !Strands(s, Tail)
    ensures Open(Step(s, Tail)) && Step(s, Tail).doc == s.doc
    ensures PendingCounts(s) ==> WaitingIn(s) != []
    ensures WaitingIn(Step(s, Tail)) == if PendingCounts(s) then Front(WaitingIn(s)) else WaitingIn(s)
  {
    StepKeepsInvIff(s, Tail);
    TailWaiting(s);
    if Upgrades(s) {
      PendingWaits(s);
      var before := Waiting(s.queue[..|s.queue| - 1], s);
      assert before + [] == before;
    }
  }

  // ----- The requests between a termination and its tail handler -----

  function AskAll(s: Service, requests: seq<Request>): (t: Service)
    requires QueueInv(s)
    ensures QueueInv(t)
  {
    if requests == [] then s
    else
      var t := AskAll(s, Front(requests));
      StepKeepsQueueInv(t, Ask(Last(requests)));
      Step(t, Ask(Last(requests)))
  }

  /** Some End comes before this set and another one right after it. */
  predicate Enclosed(requests: seq<Request>, i: nat) {
    && i + 1 < |requests| && requests[i].Set? && requests[i + 1] == End
    && End in requests[..i]
  }

  /** The edits of the enclosed sets among the first `n` requests. */
  function EnclosedEdits(requests: seq<Request>, n: nat): seq<Edit>
    requires n <= |requests|
  {
    if n == 0 then []
    else EnclosedEdits(requests, n - 1) + if Enclosed(requests, n - 1) then [requests[n - 1].edit] else []
  }

  function Texts(edits: seq<Edit>): seq<CodeUnit> {
    if edits == [] then [] else Texts(Front(edits)) + Encode(Last(edits).commit + Last(edits).preedit)
  }

  /** The document once the whole text of each of these edits has been inserted at the selection. */
  function Inserted(d: Document, edits: seq<Edit>): Document {
    if edits == [] then d
    else d.(left := d.left + Texts(edits), mid := [], marks := [], caret := 0, started := d.started + |edits|)
  }

  /** The pending set at the end of a list of requests. */
  function PendingSet(requests: seq<Request>): seq<Request> {
    if requests != [] && Last(requests).Set? && End in requests then [Last(requests)] else []
  }

  /** What the queue has to do for a list of requests, apart from the pending set. */
  function Settled(requests: seq<Request>): seq<Request> {
    if requests == [] then []
    else if Last(requests).Set? then Settled(Front(requests))
    else Settled(Front(requests)) + PendingSet(Front(requests)) + [End]
  }

  lemma {:induction false} EnclosedPrefix(requests: seq<Request>, r: Request, n: nat)
    requires n < |requests|
    ensures EnclosedEdits(requests + [r], n) == EnclosedEdits(requests, n)
  {
    if n > 0 {
      var more := requests + [r];
      assert more[..n - 1] == requests[..n - 1];
      assert Enclosed(more, n - 1) == Enclosed(requests, n - 1);
      EnclosedPrefix(requests, r, n - 1);
    }
  }

  /** One more request encloses the pending set, if it is an End. */
  lemma EnclosedSnoc(requests: seq<Request>, r: Request)
    ensures var more := requests + [r];
            EnclosedEdits(more, |more|)
              == EnclosedEdits(requests, |requests|)
                 + if r == End && PendingSet(requests) != [] then [Last(requests).edit] else []
  {
    var more, n := requests + [r], |requests|;
    assert !Enclosed(more, n);
    if n > 0 {
      EnclosedPrefix(requests, r, n - 1);
      assert more[..n - 1] == requests[..n - 1];
      assert requests == requests[..n - 1] + [Last(requests)];
      assert Last(requests).Set? ==> (End in requests <==> End in requests[..n - 1]);
    }
  }

  /** A set and its End insert the text of the edit at the selection. */
  lemma SetThenEnd(d: Document, e: Edit)
    requires d.live == {}
    ensures Apply(Apply(d, Set(e)), End)
         == d.(left := d.left + Encode(e.commit + e.preedit), mid := [], marks := [], caret := 0,
               started := d.started + 1)
  {
    var text := Encode(e.commit + e.preedit);
    assert Fixed(e) + Kept(e) == text;
    assert d.left + Fixed(e) + Kept(e) == d.left + text;
    assert {d.started} - {d.started} == {};
  }

  lemma InsertedOne(d: Document, edits: seq<Edit>, e: Edit)
    ensures var text := Encode(e.commit + e.preedit);
            var u := Inserted(d, edits);
            Inserted(d, edits + [e])
              == u.(left := u.left + text, mid := [], marks := [], caret := 0, started := u.started + 1)
  {
    var text := Encode(e.commit + e.preedit);
    assert Front(edits + [e]) == edits;
    assert d.left + (Texts(edits) + text) == d.left + Texts(edits) + text;
    if edits == [] {
      assert d.left + Texts([]) == d.left;
    }
  }

  lemma InsertedSnoc(d: Document, edits: seq<Edit>, e: Edit)
    requires d.live == {}
    ensures Inserted(d, edits + [e]) == Apply(Apply(Inserted(d, edits), Set(e)), End)
  {
    SetThenEnd(Inserted(d, edits), e);
    InsertedOne(d, edits, e);
  }

  /** Carrying out the settled requests inserts exactly the enclosed edits. */
  lemma {:induction false} SettledInserts(d: Document, requests: seq<Request>)
    requires d.live == {}
    ensures Immediate(d, Settled(requests)) == Inserted(d, EnclosedEdits(requests, |requests|))
  {
    if requests != [] {
      var front, r := Front(requests), Last(requests);
      assert requests == front + [r];
      SettledInserts(d, front);
      EnclosedSnoc(front, r);
      assert EnclosedEdits(front, |front|) + [] == EnclosedEdits(front, |front|);
      if r == End {
        var before := Settled(front);
        if PendingSet(front) == [] {
          ImmediateSnoc(d, before, End);
          assert before + [] + [End] == before + [End];
          assert Immediate(d, before).live == {};
        } else {
          var e := Last(front).edit;
          ImmediateSnoc(d, before, Set(e));
          ImmediateSnoc(d, before + [Set(e)], End);
          InsertedSnoc(d, EnclosedEdits(front, |front|), e);
        }
      }
    }
  }

  /** No End has come yet: the current cell still holds the dead composition. */
  predicate DeadWindow(s: Service, t: Service) {
    Inv(t) && t.doc == s.doc && t.terminated == s.terminated && Dead(t, t.current)
  }

  /** Some End has come: the current cell is a fresh one. */
  predicate FreshWindow(s: Service, waiting: seq<Request>, pending: bool, t: Service) {
    && Open(t) && t.doc == s.doc && t.terminated == s.terminated && t.cells[t.current].None?
    && WaitingIn(t) == waiting && (Upgrades(t) <==> pending)
  }

  /** The state after some requests on a dead composition. */
  predicate Window(s: Service, requests: seq<Request>, t: Service) {
    if End in requests then FreshWindow(s, Settled(requests) + PendingSet(requests), PendingSet(requests) != [], t)
    else DeadWindow(s, t) && Settled(requests) == []
  }

  lemma FreshWindowEnd(s: Service, waiting: seq<Request>, pending: bool, t: Service)
    requires FreshWindow(s, waiting, pending, t)
    ensures FreshWindow(s, waiting + [End], false, RequestEnd(t))
  {
    OpenStep(t, Ask(End));
    NewSessionWaiting(t, End);
  }

  lemma DeadWindowEnd(s: Service, t: Service)
    requires DeadWindow(s, t)
    ensures FreshWindow(s, [End], false, RequestEnd(t))
  {
    EndOnDead(t);
  }

  lemma SettledEnd(requests: seq<Request>)
    ensures var more := requests + [End];
            && End in more && PendingSet(more) == []
            && Settled(more) == Settled(requests) + PendingSet(requests) + [End]
  {
    assert Front(requests + [End]) == requests;
  }

  lemma WindowEnd(s: Service, requests: seq<Request>, t: Service)
    requires Window(s, requests, t)
    ensures Window(s, requests + [End], RequestEnd(t))
  {
    SettledEnd(requests);
    var waiting := Settled(requests) + PendingSet(requests);
    assert waiting + [End] + [] == waiting + [End];
    if End in requests {
      FreshWindowEnd(s, waiting, PendingSet(requests) != [], t);
    } else {
      DeadWindowEnd(s, t);
    }
  }

  lemma FreshWindowSet(s: Service, settled: seq<Request>, pending: seq<Request>, t: Service, e: Edit)
    requires |pending| <= 1 && FreshWindow(s, settled + pending, pending != [], t)
    ensures FreshWindow(s, settled + [Set(e)], true, RequestSet(t, e))
  {
    OpenStep(t, Ask(Set(e)));
    if Upgrades(t) {
      OverwriteWaiting(t, e);
      assert Front(settled + pending) == settled;
    } else {
      NewSessionWaiting(t, Set(e));
      assert settled + pending == settled;
      assert Holds(RequestSet(t, e).queue[|t.queue|], |t.slots|);
    }
  }

  lemma WindowSet(s: Service, requests: seq<Request>, t: Service, e: Edit)
    requires Window(s, requests, t)
    ensures Window(s, requests + [Set(e)], RequestSet(t, e))
  {
    var more := requests + [Set(e)];
    assert Front(more) == requests;
    assert End in more <==> End in requests;
    if End in requests {
      FreshWindowSet(s, Settled(requests), PendingSet(requests), t, e);
    } else {
      SetOnDeadIsLost(t, e);
    }
  }

  lemma {:induction false} WindowState(s: Service, requests: seq<Request>)
    requires Inv(s) && Dead(s, s.current)
    ensures Window(s, requests, AskAll(s, requests))
  {
    if requests != [] {
      var front, r := Front(requests), Last(requests);
      assert requests == front + [r];
      WindowState(s, front);
      match r
      case Set(e) => WindowSet(s, front, AskAll(s, front), e);
      case End => WindowEnd(s, front, AskAll(s, front));
    }
  }

  lemma WindowTail(s: Service, requests: seq<Request>, t: Service)
    requires Window(s, requests, t) && s.terminated
    ensures Open(Step(t, Tail)) && Step(t, Tail).doc == s.doc && WaitingIn(Step(t, Tail)) == Settled(requests)
  {
    TailLosesPending(t);
    if Dead(t, t.current) {
      NothingWaitsIfDead(t);
    } else if Upgrades(t) {
      assert Front(Settled(requests) + PendingSet(requests)) == Settled(requests);
    }
  }

  /** The state right after a termination that is not handled at once. */
  function AfterTerminate(s: Service, h: Handling, l: seq<CodeUnit>, m: seq<CodeUnit>, r: seq<CodeUnit>): (t: Service)
    requires Inv(s) && Enabled(s, Terminate(h, l, m, r)) && !h.AtOnce?
    ensures Inv(t) && Dead(t, t.current) && t.doc == Replaced(s.doc, l, m, r)
    ensures h.Deferred? ==> t.terminated
  {
    StepKeepsInvIff(s, Terminate(h, l, m, r));
    Step(s, Terminate(h, l, m, r))
  }

  // ----- Main results -----

  /**
   Of everything requested between a termination and its tail handler, the document gets
   exactly the enclosed edits, each one complete. The commit of any other edit is lost: of one
   with no End before it, because its composition is dead; of one that another set follows,
   because it is overwritten; of the last one, because the tail handler blanks it.
   */
  lemma OnlyEnclosedEditsSurvive(
      s: Service, l: seq<CodeUnit>, m: seq<CodeUnit>, r: seq<CodeUnit>, requests: seq<Request>)
    requires Inv(s) && Enabled(s, Terminate(Deferred, l, m, r))
    ensures var t := Step(AskAll(AfterTerminate(s, Deferred, l, m, r), requests), Tail);
            && Inv(t) && !t.terminated && t.cells[t.current].None?
            && Drained(t) == Inserted(Replaced(s.doc, l, m, r), EnclosedEdits(requests, |requests|))
  {
    var u := AfterTerminate(s, Deferred, l, m, r);
    WindowState(u, requests);
    WindowTail(u, requests, AskAll(u, requests));
    SettledInserts(u.doc, requests);
    TailCancels(AskAll(u, requests));
  }

  /** Nothing of the requests reaches the document if and only if none of them is an enclosed set. */
  lemma AllLostIff(s: Service, l: seq<CodeUnit>, m: seq<CodeUnit>, r: seq<CodeUnit>, requests: seq<Request>)
    requires Inv(s) && Enabled(s, Terminate(Deferred, l, m, r))
    ensures Drained(Step(AskAll(AfterTerminate(s, Deferred, l, m, r), requests), Tail)) == Replaced(s.doc, l, m, r)
       <==> forall i | 0 <= i < |requests| :: !Enclosed(requests, i)
  {
    OnlyEnclosedEditsSurvive(s, l, m, r, requests);
    NoneEnclosedIff(requests, |requests|);
  }

  lemma {:induction false} NoneEnclosedIff(requests: seq<Request>, n: nat)
    requires n <= |requests|
    ensures EnclosedEdits(requests, n) == [] <==> forall i | 0 <= i < n :: !Enclosed(requests, i)
  {
    if n > 0 {
      NoneEnclosedIff(requests, n - 1);
    }
  }

  /**
   When the sessions run before any tail handler, because the callback failed or because the
   termination was never noticed, the last set survives as well if some End comes before it.
   */
  lemma SurvivorsWithoutTail(
      s: Service, h: Handling, l: seq<CodeUnit>, m: seq<CodeUnit>, r: seq<CodeUnit>, requests: seq<Request>)
    requires Inv(s) && Enabled(s, Terminate(h, l, m, r)) && !h.AtOnce?
    ensures var inserted := Inserted(Replaced(s.doc, l, m, r), EnclosedEdits(requests, |requests|));
            Drained(AskAll(AfterTerminate(s, h, l, m, r), requests))
              == if PendingSet(requests) == [] then inserted else Apply(inserted, Last(requests))
  {
    var u := AfterTerminate(s, h, l, m, r);
    WindowState(u, requests);
    SettledInserts(u.doc, requests);
    WindowDrained(u, requests, AskAll(u, requests));
  }

  lemma WindowDrained(s: Service, requests: seq<Request>, t: Service)
    requires Window(s, requests, t)
    ensures Drained(t) == if PendingSet(requests) == [] then Immediate(s.doc, Settled(requests))
                          else Apply(Immediate(s.doc, Settled(requests)), Last(requests))
  {
    if Dead(t, t.current) {
      NothingWaitsIfDead(t);
    } else if PendingSet(requests) == [] {
      assert Settled(requests) + [] == Settled(requests);
    } else {
      ImmediateSnoc(s.doc, Settled(requests), Last(requests));
    }
  }
}
