/**
 Whole runs of the composition protocol: reachable states, what a termination cancels, and
 the comparison of queued execution with immediate execution.
 */
module CompositionRuns {
  import opened Wrappers
  import opened Utf16
  import opened EditSession
  import opened Composition

  // ----- Runs -----

  /** Every event is possible when its turn comes. */
  predicate Run(s: Service, events: seq<Event>)
    decreases |events|
  {
    events == [] || (WellFormed(s) && Enabled(s, events[0]) && Run(Step(s, events[0]), events[1..]))
  }

  function Exec(s: Service, events: seq<Event>): Service
    requires Run(s, events)
    decreases |events|
  {
    if events == [] then s else Exec(Step(s, events[0]), events[1..])
  }

  lemma {:induction false} PerformIsExec(s: Service, events: seq<Event>)
    requires Run(s, events)
    ensures Perform(s, events) == Exec(s, events)
    decreases |events|
  {
    if events != [] {
      PerformIsExec(Step(s, events[0]), events[1..]);
    }
  }

  lemma {:induction false} PerformKeepsQueueInv(s: Service, events: seq<Event>)
    requires QueueInv(s)
    ensures QueueInv(Perform(s, events))
    decreases |events|
  {
    if events != [] {
      StepKeepsQueueInv(s, events[0]);
      PerformKeepsQueueInv(Step(s, events[0]), events[1..]);
    }
  }

  lemma {:induction false} PerformAppend(s: Service, a: seq<Event>, b: seq<Event>)
    ensures Perform(s, a + b) == Perform(Perform(s, a), b)
    decreases |a|
  {
    if a == [] {
      assert a + b == b;
    } else {
      PerformAppend(Do(s, a[0]), a[1..], b);
      assert (a + b)[0] == a[0] && (a + b)[1..] == a[1..] + b;
    }
  }

  lemma {:induction false} RunsKeepQueueInv(s: Service, events: seq<Event>)
    requires QueueInv(s) && Run(s, events)
    ensures QueueInv(Exec(s, events))
    decreases |events|
  {
    if events != [] {
      StepKeepsQueueInv(s, events[0]);
      RunsKeepQueueInv(Step(s, events[0]), events[1..]);
    }
  }

  /** No tail handler of the run finds a live composition in the current cell. */
  predicate Timely(s: Service, events: seq<Event>)
    requires Run(s, events)
    decreases |events|
  {
    events == [] || (!Strands(s, events[0]) && Timely(Step(s, events[0]), events[1..]))
  }

  predicate InvThroughout(s: Service, events: seq<Event>)
    requires Run(s, events)
    decreases |events|
  {
    Inv(s) && (events == [] || InvThroughout(Step(s, events[0]), events[1..]))
  }

  /** The full invariant holds in every state of a run if and only if no tail handler comes too late. */
  lemma {:induction false} RunsKeepInvIff(s: Service, events: seq<Event>)
    requires Inv(s) && Run(s, events)
    ensures InvThroughout(s, events) <==> Timely(s, events)
    ensures Timely(s, events) ==> Inv(Exec(s, events))
    decreases |events|
  {
    if events != [] {
      StepKeepsInvIff(s, events[0]);
      if !Strands(s, events[0]) {
        RunsKeepInvIff(Step(s, events[0]), events[1..]);
      } else {
        NotThroughout(Step(s, events[0]), events[1..]);
      }
    }
  }

  lemma NotThroughout(s: Service, events: seq<Event>)
    requires !Inv(s) && Run(s, events)
    ensures !InvThroughout(s, events)
  {
  }

  /** Whenever no tail handler came too late, at most one composition is live, and the one cell in use holds it. */
  lemma OneLiveComposition(text: seq<CodeUnit>, events: seq<Event>)
    requires Run(Initial(text), events) && Timely(Initial(text), events)
    ensures var s := Exec(Initial(text), events);
            && |s.doc.live| <= 1
            && (forall x | x in s.doc.live :: exists c | 0 <= c < |s.cells| :: s.cells[c] == Some(x))
            && (forall c, d | 0 <= c < d < |s.cells| :: s.cells[c].None? || s.cells[d].None?)
            && (WellFormed(s) && RunNext(s).doc.started > s.doc.started ==> s.doc.live == {})
  {
    InitialInv(text);
    RunsKeepInvIff(Initial(text), events);
    var s := Exec(Initial(text), events);
    assert forall x | x in s.doc.live :: s.cells[FrontCell(s)] == Some(x);
  }

  /** Sessions run only while no termination waits for the tail handler. */
  predicate Prompt(s: Service, events: seq<Event>)
    requires Run(s, events)
    decreases |events|
  {
    events == [] || (!(events[0].RunSession? && s.terminated) && Prompt(Step(s, events[0]), events[1..]))
  }

  /** A sufficient condition that the host can see to: then no tail handler comes too late. */
  lemma {:induction false} PromptIsTimely(s: Service, events: seq<Event>)
    requires Inv(s) && Run(s, events) && Prompt(s, events) && (s.terminated ==> !Live(s, s.current))
    ensures Timely(s, events)
    decreases |events|
  {
    if events != [] {
      StepKeepsInvIff(s, events[0]);
      PromptIsTimely(Step(s, events[0]), events[1..]);
    }
  }

  lemma ExecCons(s: Service, ev: Event, events: seq<Event>)
    requires WellFormed(s) && Enabled(s, ev) && Run(Step(s, ev), events)
    ensures Run(s, [ev] + events) && Exec(s, [ev] + events) == Exec(Step(s, ev), events)
    ensures Timely(s, [ev] + events) <==> !Strands(s, ev) && Timely(Step(s, ev), events)
  {
    assert ([ev] + events)[0] == ev && ([ev] + events)[1..] == events;
  }

  /** A termination that is deferred, a composition started before the tail handler comes, and another one after it. */
  function LateTail(e: Edit): seq<Event> {
    [Ask(Set(e))] + ([RunSession] + ([Terminate(Deferred, Fixed(e), Kept(e), [])] + ([Ask(End)] + AfterDeferral(e))))
  }

  function AfterDeferral(e: Edit): seq<Event> {
    [Ask(Set(e))] + ([RunSession] + ([RunSession] + AfterRestart(e)))
  }

  function AfterRestart(e: Edit): seq<Event> {
    [Tail] + ([Ask(Set(e))] + ([RunSession] + []))
  }

  /** The tail handler of `LateTail` is still to come and the first composition is dead. */
  function Awaiting(e: Edit): Service {
    var doc := Document(Fixed(e), Kept(e), [], [], 0, {}, 1);
    Service(doc, [Some(0), None], 1, [Some(e)], None, [EndComposition(0)], true)
  }

  /** The tail handler is still to come and the second composition is live. */
  function Restarted(e: Edit): Service {
    var doc := ApplyEdit(StartComposition(Awaiting(e).doc), e);
    Service(doc, [None, Some(1)], 1, [Some(e), Some(e)], Some(1), [], true)
  }

  /** The tail handler has dropped the second composition. */
  function Dropped(e: Edit): Service {
    Service(Restarted(e).doc, [None, None], 1, [Some(e), Some(e)], None, [], false)
  }

  lemma TailDrops(e: Edit)
    ensures Step(Restarted(e), Tail) == Dropped(e) && Strands(Restarted(e), Tail)
  {
  }

  lemma ThirdStarted(e: Edit)
    ensures var s9 := Step(Dropped(e), Ask(Set(e)));
            WellFormed(s9) && Step(s9, RunSession).doc.live == {1, 2}
  {
    var s9 := Step(Dropped(e), Ask(Set(e)));
    assert s9 == Dropped(e).(slots := [Some(e), Some(e), Some(e)], pendingEdit := Some(2), queue := [SetString(1, 2)]);
  }

  lemma AfterRestartTwoLive(e: Edit)
    ensures Run(Restarted(e), AfterRestart(e)) && !Timely(Restarted(e), AfterRestart(e))
    ensures Exec(Restarted(e), AfterRestart(e)).doc.live == {1, 2}
  {
    TailDrops(e);
    ThirdStarted(e);
    ExecCons(Step(Dropped(e), Ask(Set(e))), RunSession, []);
    ExecCons(Dropped(e), Ask(Set(e)), [RunSession] + []);
    ExecCons(Restarted(e), Tail, [Ask(Set(e))] + ([RunSession] + []));
  }

  /** The first composition has been given up and a session for the second one is queued. */
  function Requested(e: Edit, queue: seq<Session>, front: Option<nat>): Service {
    Service(Awaiting(e).doc, [front, None], 1, [Some(e), Some(e)], Some(1), queue, true)
  }

  lemma SecondRequested(e: Edit)
    ensures Step(Awaiting(e), Ask(Set(e))) == Requested(e, [EndComposition(0), SetString(1, 1)], Some(0))
  {
  }

  lemma DeadOneClosed(e: Edit)
    ensures Step(Requested(e, [EndComposition(0), SetString(1, 1)], Some(0)), RunSession)
         == Requested(e, [SetString(1, 1)], None)
  {
    assert [EndComposition(0), SetString(1, 1)][1..] == [SetString(1, 1)];
  }

  lemma SecondStarted(e: Edit)
    ensures Step(Requested(e, [SetString(1, 1)], None), RunSession) == Restarted(e)
  {
    assert [SetString(1, 1)][1..] == [];
  }

  lemma RestartReached(e: Edit)
    ensures var s5 := Step(Awaiting(e), Ask(Set(e)));
            WellFormed(s5) && WellFormed(Step(s5, RunSession)) && Step(Step(s5, RunSession), RunSession) == Restarted(e)
  {
    SecondRequested(e);
    DeadOneClosed(e);
    SecondStarted(e);
  }

  lemma AfterDeferralTwoLive(e: Edit)
    ensures Run(Awaiting(e), AfterDeferral(e)) && !Timely(Awaiting(e), AfterDeferral(e))
    ensures Exec(Awaiting(e), AfterDeferral(e)).doc.live == {1, 2}
  {
    RestartReached(e);
    AfterRestartTwoLive(e);
    var rest := AfterRestart(e);
    var s5 := Step(Awaiting(e), Ask(Set(e)));
    ExecCons(Step(s5, RunSession), RunSession, rest);
    ExecCons(s5, RunSession, [RunSession] + rest);
    ExecCons(Awaiting(e), Ask(Set(e)), [RunSession] + ([RunSession] + rest));
  }

  /** The condition is needed: with a late tail handler two compositions can be live. */
  lemma TwoCanBeLive(e: Edit)
    ensures Run(Initial([]), LateTail(e)) && !Timely(Initial([]), LateTail(e))
    ensures Exec(Initial([]), LateTail(e)).doc.live == {1, 2}
  {
    var s2 := FirstStarted(e);
    FirstReached(e);
    DeferralReached(e);
    AfterDeferralTwoLive(e);
    var rest := AfterDeferral(e);
    var s1, s3 := Step(Initial([]), Ask(Set(e))), Step(s2, Terminate(Deferred, Fixed(e), Kept(e), []));
    ExecCons(s3, Ask(End), rest);
    ExecCons(s2, Terminate(Deferred, Fixed(e), Kept(e), []), [Ask(End)] + rest);
    ExecCons(s1, RunSession, [Terminate(Deferred, Fixed(e), Kept(e), [])] + ([Ask(End)] + rest));
    ExecCons(Initial([]), Ask(Set(e)),
             [RunSession] + ([Terminate(Deferred, Fixed(e), Kept(e), [])] + ([Ask(End)] + rest)));
  }

  /** The first composition is live. */
  function FirstStarted(e: Edit): Service {
    Service(ApplyEdit(StartComposition(Initial([]).doc), e), [Some(0)], 0, [Some(e)], Some(0), [], false)
  }

  lemma FirstRequested(e: Edit)
    ensures Step(Initial([]), Ask(Set(e)))
         == Service(Initial([]).doc, [None], 0, [Some(e)], Some(0), [SetString(0, 0)], false)
  {
  }

  lemma FirstReached(e: Edit)
    ensures var s1 := Step(Initial([]), Ask(Set(e)));
            WellFormed(s1) && Step(s1, RunSession) == FirstStarted(e)
  {
    FirstRequested(e);
    assert [SetString(0, 0)][1..] == [];
  }

  lemma DeferralReached(e: Edit)
    ensures Enabled(FirstStarted(e), Terminate(Deferred, Fixed(e), Kept(e), []))
    ensures var s3 := Step(FirstStarted(e), Terminate(Deferred, Fixed(e), Kept(e), []));
            WellFormed(s3) && Step(s3, Ask(End)) == Awaiting(e)
  {
    var s2 := FirstStarted(e);
    assert s2.doc.left == Fixed(e) && s2.doc.live == {0};
  }

  /** Ownership in every reachable state; see `Ownership` for the reading of the clauses. */
  lemma OwnershipInEveryRun(text: seq<CodeUnit>, events: seq<Event>, i: nat, j: nat)
    requires Run(Initial(text), events)
    requires i < j < |Exec(Initial(text), events).queue|
    ensures var s := Exec(Initial(text), events);
            && (s.queue[i].SetString? && s.queue[j].SetString? ==> s.queue[i].slot != s.queue[j].slot)
            && (s.queue[i].SetString? && s.queue[j].SetString? && s.queue[i].cell == s.queue[j].cell ==> Blank(s, i))
            && (s.queue[i].EndComposition? ==> s.queue[j].cell != s.queue[i].cell)
            && (s.queue[j].EndComposition? ==> s.queue[j].cell != s.current)
  {
    InitialInv(text);
    RunsKeepQueueInv(Initial(text), events);
    Ownership(Exec(Initial(text), events));
  }

  /** The slot that an event applies to the document, if any. */
  function AppliedBy(s: Service, ev: Event): seq<nat> {
    if ev.RunSession? && s.queue != [] && s.queue[0].SetString? then [s.queue[0].slot] else []
  }

  /** The slots whose sessions run, in order. */
  function AppliedSlots(s: Service, events: seq<Event>): seq<nat>
    requires Run(s, events)
    decreases |events|
  {
    if events == [] then [] else AppliedBy(s, events[0]) + AppliedSlots(Step(s, events[0]), events[1..])
  }

  /** Sessions still to run have slots from `floor` on. */
  predicate SlotsFrom(s: Service, floor: nat) {
    floor <= |s.slots| && forall i | 0 <= i < |s.queue| && s.queue[i].SetString? :: floor <= s.queue[i].slot
  }

  lemma SlotsFromStep(s: Service, ev: Event, floor: nat)
    requires QueueInv(s) && Enabled(s, ev) && SlotsFrom(s, floor)
    ensures SlotsFrom(Step(s, ev), if AppliedBy(s, ev) == [] then floor else AppliedBy(s, ev)[0] + 1)
    ensures AppliedBy(s, ev) != [] ==> AppliedBy(s, ev)[0] >= floor
  {
    if ev.RunSession? && s.queue != [] {
      RunReleases(s);
    }
  }

  /** No composition string is applied twice: over any run the applied slots strictly ascend. */
  lemma {:induction false} AppliedSlotsAscend(s: Service, events: seq<Event>, floor: nat)
    requires QueueInv(s) && Run(s, events) && SlotsFrom(s, floor)
    ensures forall i | 0 <= i < |AppliedSlots(s, events)| :: AppliedSlots(s, events)[i] >= floor
    ensures forall i, j | 0 <= i < j < |AppliedSlots(s, events)| ::
              AppliedSlots(s, events)[i] < AppliedSlots(s, events)[j]
    decreases |events|
  {
    if events != [] {
      var head := AppliedBy(s, events[0]);
      SlotsFromStep(s, events[0], floor);
      StepKeepsQueueInv(s, events[0]);
      AppliedSlotsAscend(Step(s, events[0]), events[1..], if head == [] then floor else head[0] + 1);
    }
  }

  // ----- Cancellation -----

  /** The slot is blank and the service cannot reach it any more. */
  predicate Cancelled(s: Service, slot: nat) {
    slot < |s.slots| && s.slots[slot].None? && s.pendingEdit != Some(slot)
  }

  /** A session with this cell and slot can never write again. */
  predicate Doomed(s: Service, cell: nat, slot: nat) {
    slot < |s.slots| && (Cancelled(s, slot) || Dead(s, cell))
  }

  /** If a session with this slot is still queued, it is doomed. */
  predicate DoomedIfQueued(s: Service, cell: nat, slot: nat) {
    slot < |s.slots|
    && forall i | 0 <= i < |s.queue| && Holds(s.queue[i], slot) :: s.queue[i].cell == cell && Doomed(s, cell, slot)
  }

  lemma TailCancels(s: Service)
    requires QueueInv(s) && s.terminated
    ensures var t := Step(s, Tail);
            && !t.terminated && t.cells[t.current] == None && t.queue == s.queue && t.doc == s.doc
            && forall i | 0 <= i < |t.queue| && t.queue[i].cell == t.current ::
                 t.queue[i].SetString? && Cancelled(t, t.queue[i].slot)
  {
    var t := Step(s, Tail);
    forall i | 0 <= i < |t.queue| && t.queue[i].cell == t.current
      ensures t.queue[i].SetString? && Cancelled(t, t.queue[i].slot)
    {
      CellsAscend(s, i, i);
      if !Blank(s, i) {
        assert Holds(s.queue[i], s.pendingEdit.value);
      }
    }
  }

  /** The application terminates the composition: whatever the service makes of it, all queued sessions are doomed. */
  lemma TerminationDooms(s: Service, h: Handling, l: seq<CodeUnit>, m: seq<CodeUnit>, r: seq<CodeUnit>)
    requires QueueInv(s) && Enabled(s, Terminate(h, l, m, r))
    ensures var t := Step(s, Terminate(h, l, m, r));
            && t.queue == s.queue && t.doc.Text() == s.doc.Text() && t.doc.live == {}
            && forall i | 0 <= i < |t.queue| ::
                 t.queue[i].SetString? && Doomed(t, t.queue[i].cell, t.queue[i].slot)
  {
    AllOnCurrent(s);
    var t := Step(s, Terminate(h, l, m, r));
    forall i | 0 <= i < |t.queue| ensures t.queue[i].SetString? && Doomed(t, t.queue[i].cell, t.queue[i].slot) {
      if h.AtOnce? && !Blank(s, i) {
        assert Holds(s.queue[i], s.pendingEdit.value);
      }
    }
  }

  /** Running a doomed session changes nothing but the queue. */
  lemma DoomedRun(s: Service, cell: nat, slot: nat)
    requires WellFormed(s) && s.queue != [] && s.queue[0] == SetString(cell, slot) && Doomed(s, cell, slot)
    ensures RunNext(s) == s.(queue := s.queue[1..])
  {
  }

  lemma DoomedRequest(s: Service, r: Request, cell: nat, slot: nat)
    requires QueueInv(s) && DoomedIfQueued(s, cell, slot)
    ensures DoomedIfQueued(Step(s, Ask(r)), cell, slot)
  {
  }

  lemma DoomedAfterRun(s: Service, cell: nat, slot: nat)
    requires QueueInv(s) && DoomedIfQueued(s, cell, slot)
    ensures DoomedIfQueued(RunNext(s), cell, slot)
  {
    var t := RunNext(s);
    if s.queue != [] {
      RunReleases(s);
      forall i | 0 <= i < |t.queue| && Holds(t.queue[i], slot)
        ensures t.queue[i].cell == cell && Doomed(t, cell, slot)
      {
        assert Holds(s.queue[i + 1], slot);
        CellsAscend(s, 0, i + 1);
      }
    }
  }

  lemma DoomedTail(s: Service, cell: nat, slot: nat)
    requires QueueInv(s) && DoomedIfQueued(s, cell, slot)
    ensures DoomedIfQueued(TerminatedTail(s), cell, slot)
  {
    var t := TerminatedTail(s);
    forall i | 0 <= i < |t.queue| && Holds(t.queue[i], slot) ensures t.queue[i].cell == cell && Doomed(t, cell, slot) {
      assert Holds(s.queue[i], slot);
      if cell == s.current && !Blank(s, i) {
        assert s.pendingEdit == Some(slot);
      }
    }
  }

  /** Doomed sessions stay doomed through any event. */
  lemma DoomedStep(s: Service, ev: Event, cell: nat, slot: nat)
    requires QueueInv(s) && Enabled(s, ev) && DoomedIfQueued(s, cell, slot)
    ensures DoomedIfQueued(Step(s, ev), cell, slot)
  {
    match ev
    case Ask(r) => DoomedRequest(s, r, cell, slot);
    case RunSession => DoomedAfterRun(s, cell, slot);
    case Terminate(h, l, m, r) =>
      var u := s.(doc := Replaced(s.doc, l, m, r));
      ReplacedKeepsQueueInv(s, l, m, r, s.terminated);
      assert DoomedIfQueued(u, cell, slot);
      DoomedTail(u, cell, slot);
    case Tail => DoomedTail(s, cell, slot);
    case AppEdit(_, _, _) =>
  }

  /** Some run of the session with this slot changes more than the queue. */
  predicate Writes(s: Service, events: seq<Event>, slot: nat)
    requires Run(s, events)
    decreases |events|
  {
    events != [] &&
    ((events[0].RunSession? && s.queue != [] && Holds(s.queue[0], slot)
      && Step(s, events[0]) != s.(queue := s.queue[1..]))
     || Writes(Step(s, events[0]), events[1..], slot))
  }

  /** Whatever follows, new edits on the same cell and late tail handlers included, a doomed session never writes. */
  lemma {:induction false} DoomedNeverWrites(s: Service, events: seq<Event>, cell: nat, slot: nat)
    requires QueueInv(s) && Run(s, events) && DoomedIfQueued(s, cell, slot)
    ensures !Writes(s, events, slot)
    decreases |events|
  {
    if events != [] {
      if events[0].RunSession? && s.queue != [] && Holds(s.queue[0], slot) {
        DoomedRun(s, cell, slot);
      }
      DoomedStep(s, events[0], cell, slot);
      StepKeepsQueueInv(s, events[0]);
      DoomedNeverWrites(Step(s, events[0]), events[1..], cell, slot);
    }
  }

  /**
   Cancellation safety: for every run before and after a termination, handled at once,
   deferred or failed, no session queued before it changes anything when it runs after it.
   */
  lemma TerminationIsSafe(
      text: seq<CodeUnit>, before: seq<Event>, h: Handling, l: seq<CodeUnit>, m: seq<CodeUnit>, r: seq<CodeUnit>,
      after: seq<Event>, i: nat)
    requires Run(Initial(text), before)
    requires var s := Exec(Initial(text), before);
             && WellFormed(s) && Enabled(s, Terminate(h, l, m, r)) && Run(Step(s, Terminate(h, l, m, r)), after)
             && i < |s.queue|
    ensures var s := Exec(Initial(text), before);
            s.queue[i].SetString? && !Writes(Step(s, Terminate(h, l, m, r)), after, s.queue[i].slot)
  {
    InitialInv(text);
    RunsKeepQueueInv(Initial(text), before);
    var s := Exec(Initial(text), before);
    var t := Step(s, Terminate(h, l, m, r));
    TerminationDooms(s, h, l, m, r);
    StepKeepsQueueInv(s, Terminate(h, l, m, r));
    DoomedNeverWrites(t, after, s.queue[i].cell, s.queue[i].slot);
  }

  /** No call fails while the service handles a termination. */
  predicate Faultless(events: seq<Event>) {
    forall i | 0 <= i < |events| :: !(events[i].Terminate? && events[i].handling.Failed?)
  }

  /** Unless a termination waits for the tail handler, the current cell does not hold a dead composition. */
  lemma {:induction false} DeadOnlyWhileDeferred(s: Service, events: seq<Event>)
    requires Inv(s) && Run(s, events) && Timely(s, events) && Faultless(events)
    requires Dead(s, s.current) ==> s.terminated
    ensures Dead(Exec(s, events), Exec(s, events).current) ==> Exec(s, events).terminated
    decreases |events|
  {
    if events != [] {
      assert Faultless(events[1..]);
      StepKeepsInvIff(s, events[0]);
      DeadStep(s, events[0]);
      DeadOnlyWhileDeferred(Step(s, events[0]), events[1..]);
    }
  }

  lemma DeadStep(s: Service, ev: Event)
    requires Inv(s) && Enabled(s, ev) && !(ev.Terminate? && ev.handling.Failed?)
    requires Dead(s, s.current) ==> s.terminated
    ensures Dead(Step(s, ev), Step(s, ev).current) ==> Step(s, ev).terminated
  {
    if ev.RunSession? && s.queue != [] {
      RunReleases(s);
      assert Linked(s, 0);
    }
  }

  // ----- Exactly the late tail handlers break it -----

  predicate WithoutTail(events: seq<Event>) {
    forall i | 0 <= i < |events| :: !events[i].Tail?
  }

  lemma {:induction false} TimelyWithoutTail(s: Service, events: seq<Event>)
    requires Run(s, events) && WithoutTail(events)
    ensures Timely(s, events)
    decreases |events|
  {
    if events != [] {
      TimelyWithoutTail(Step(s, events[0]), events[1..]);
    }
  }

  /** All queued sessions are blank, except for the last one, which will start a composition beside the live one. */
  predicate StartsAnother(s: Service, x: nat) {
    && WellFormed(s) && s.queue != [] && s.doc.live == {x} && x < s.doc.started
    && (forall i | 0 <= i < |s.queue| - 1 :: Blank(s, i))
    && var last := s.queue[|s.queue| - 1];
       last.SetString? && s.cells[last.cell].None? && s.slots[last.slot].Some?
  }

  lemma {:induction false} AnotherStarts(s: Service, x: nat) returns (runs: seq<Event>)
    requires StartsAnother(s, x)
    ensures WithoutTail(runs) && Run(s, runs) && |Exec(s, runs).doc.live| == 2
    decreases |s.queue|
  {
    var t := RunNext(s);
    if |s.queue| == 1 {
      runs := [RunSession] + [];
      ExecCons(s, RunSession, []);
      assert t.doc.live == {x, s.doc.started};
    } else {
      assert Blank(s, 0);
      assert t == s.(queue := s.queue[1..]);
      assert forall i | 0 <= i < |t.queue| :: t.queue[i] == s.queue[i + 1];
      forall i | 0 <= i < |t.queue| - 1 ensures Blank(t, i) {
        assert Blank(s, i + 1);
      }
      var rest := AnotherStarts(t, x);
      ExecCons(s, RunSession, rest);
      runs := [RunSession] + rest;
    }
  }

  lemma StrandedQueue(s: Service, e: Edit)
    requires Inv(s) && Strands(s, Tail)
    ensures WellFormed(Step(s, Tail))
    ensures StartsAnother(Step(Step(s, Tail), Ask(Set(e))), s.cells[s.current].value)
  {
    AllOnCurrent(s);
    TailCancels(s);
    StepKeepsQueueInv(s, Tail);
    var u := Step(s, Tail);
    var v := Step(u, Ask(Set(e)));
    assert u.pendingEdit == None;
    assert v.queue == u.queue + [SetString(u.current, |u.slots|)];
    forall i | 0 <= i < |v.queue| - 1 ensures Blank(v, i) {
      assert v.queue[i] == u.queue[i] == s.queue[i] && Cancelled(u, u.queue[i].slot);
    }
  }

  /** After a late tail handler any next edit leads to two live compositions. */
  lemma LateTailLeadsToTwo(s: Service, e: Edit) returns (more: seq<Event>)
    requires Inv(s) && Strands(s, Tail)
    ensures WellFormed(Step(s, Tail)) && WithoutTail(more) && Run(Step(s, Tail), more)
    ensures |Exec(Step(s, Tail), more).doc.live| == 2
  {
    StrandedQueue(s, e);
    var u := Step(s, Tail);
    var runs := AnotherStarts(Step(u, Ask(Set(e))), s.cells[s.current].value);
    ExecCons(u, Ask(Set(e)), runs);
    more := [Ask(Set(e))] + runs;
    assert forall i | 0 < i < |more| :: more[i] == runs[i - 1];
  }

  /** Until the next tail handler, whatever happens, at most one composition is live. */
  ghost predicate OneLiveAhead(s: Service) {
    forall more | Run(s, more) && WithoutTail(more) :: |Exec(s, more).doc.live| <= 1
  }

  lemma InvMeansOneLiveAhead(s: Service)
    requires Inv(s)
    ensures OneLiveAhead(s)
  {
    forall more | Run(s, more) && WithoutTail(more) ensures |Exec(s, more).doc.live| <= 1 {
      TimelyWithoutTail(s, more);
      RunsKeepInvIff(s, more);
    }
  }

  /** A tail handler is harmless in this respect if and only if it does not come too late. */
  lemma TailHarmlessIff(s: Service)
    requires Inv(s)
    ensures OneLiveAhead(Step(s, Tail)) <==> !Strands(s, Tail)
  {
    StepKeepsInvIff(s, Tail);
    if Strands(s, Tail) {
      var more := LateTailLeadsToTwo(s, Edit("", "", [], 0));
    } else {
      InvMeansOneLiveAhead(Step(s, Tail));
    }
  }

  ghost predicate OneLiveThroughout(s: Service, events: seq<Event>)
    requires Run(s, events)
    decreases |events|
  {
    OneLiveAhead(s) && (events == [] || OneLiveThroughout(Step(s, events[0]), events[1..]))
  }

  /**
   Over every run: that at most one composition is live, now and in whatever follows before
   the next tail handler, holds in every state if and only if no tail handler comes too late.
   */
  lemma {:induction false} OneLiveIffTimely(s: Service, events: seq<Event>)
    requires Inv(s) && Run(s, events)
    ensures OneLiveThroughout(s, events) <==> Timely(s, events)
    decreases |events|
  {
    InvMeansOneLiveAhead(s);
    if events != [] {
      var ev, t := events[0], Step(s, events[0]);
      StepKeepsInvIff(s, ev);
      if Strands(s, ev) {
        TailHarmlessIff(s);
      } else {
        OneLiveIffTimely(t, events[1..]);
      }
    }
  }

  // ----- Runs in parts -----

  lemma {:induction false} RunAppend(s: Service, a: seq<Event>, b: seq<Event>)
    requires Run(s, a) && Run(Exec(s, a), b)
    ensures Run(s, a + b) && Exec(s, a + b) == Exec(Exec(s, a), b)
    decreases |a|
  {
    if a == [] {
      assert a + b == b;
    } else {
      RunAppend(Step(s, a[0]), a[1..], b);
      assert (a + b)[0] == a[0] && (a + b)[1..] == a[1..] + b;
    }
  }

  lemma {:induction false} RunSplit(s: Service, a: seq<Event>, b: seq<Event>)
    requires Run(s, a + b)
    ensures Run(s, a) && Run(Exec(s, a), b)
    decreases |a|
  {
    if a == [] {
      assert a + b == b;
    } else {
      assert (a + b)[0] == a[0] && (a + b)[1..] == a[1..] + b;
      RunSplit(Step(s, a[0]), a[1..], b);
    }
  }

  lemma RunOne(s: Service, ev: Event)
    requires WellFormed(s) && Enabled(s, ev)
    ensures Run(s, [ev]) && Exec(s, [ev]) == Step(s, ev)
  {
    ExecCons(s, ev, []);
    assert [ev] + [] == [ev];
  }

  // ----- Immediate execution: no queue, no cells, no slots -----

  function Apply(d: Document, r: Request): Document {
    match r
    case Set(e) => ApplyEdit(if d.live == {} then StartComposition(d) else d, e)
    case End => if d.live == {} then d else d.(left := d.left + d.mid, mid := [], marks := [], caret := 0, live := {})
  }

  function Immediate(d: Document, requests: seq<Request>): Document {
    if requests == [] then d
    else Apply(Immediate(d, requests[..|requests| - 1]), requests[|requests| - 1])
  }

  lemma ImmediateSnoc(d: Document, requests: seq<Request>, r: Request)
    ensures Immediate(d, requests + [r]) == Apply(Immediate(d, requests), r)
  {
    assert (requests + [r])[..|requests|] == requests;
  }

  lemma {:induction false} ImmediateCons(d: Document, r: Request, requests: seq<Request>)
    ensures Immediate(d, [r] + requests) == Immediate(Apply(d, r), requests)
  {
    if requests == [] {
      assert [r] + requests == [r];
    } else {
      var n := |requests| - 1;
      ImmediateCons(d, r, requests[..n]);
      assert ([r] + requests)[..n + 1] == [r] + requests[..n];
    }
  }

  // ----- What the queue still has to do -----

  /** What a queued session will do: a blank slot and a dead composition make it do nothing. */
  function RequestOf(session: Session, s: Service): seq<Request> {
    match session
    case EndComposition(_) => [End]
    case SetString(cell, slot) =>
      if slot < |s.slots| && s.slots[slot].Some? && !Dead(s, cell) then [Set(s.slots[slot].value)] else []
  }

  function Waiting(queue: seq<Session>, s: Service): seq<Request> {
    if queue == [] then []
    else Waiting(queue[..|queue| - 1], s) + RequestOf(queue[|queue| - 1], s)
  }

  function WaitingIn(s: Service): seq<Request> {
    Waiting(s.queue, s)
  }

  lemma WaitingSnoc(queue: seq<Session>, session: Session, s: Service)
    ensures Waiting(queue + [session], s) == Waiting(queue, s) + RequestOf(session, s)
  {
    assert (queue + [session])[..|queue|] == queue;
  }

  lemma {:induction false} WaitingCons(queue: seq<Session>, s: Service)
    requires queue != []
    ensures Waiting(queue, s) == RequestOf(queue[0], s) + Waiting(queue[1..], s)
  {
    var n := |queue| - 1;
    if n > 0 {
      WaitingCons(queue[..n], s);
      assert queue[1..][..n - 1] == queue[..n][1..];
    }
  }

  /** Only what concerns the sessions of the queue matters. */
  lemma {:induction false} WaitingFrame(queue: seq<Session>, a: Service, b: Service)
    requires forall i | 0 <= i < |queue| :: RequestOf(queue[i], a) == RequestOf(queue[i], b)
    ensures Waiting(queue, a) == Waiting(queue, b)
  {
    if queue != [] {
      WaitingFrame(queue[..|queue| - 1], a, b);
    }
  }

  /** The document after the queue has been run to its end. */
  function Drained(s: Service): Document {
    Immediate(s.doc, WaitingIn(s))
  }

  /** A run of one session does not change what the others will do. */
  lemma RunLeavesOthers(s: Service)
    requires Inv(s) && s.queue != []
    ensures WaitingIn(RunNext(s)) == Waiting(s.queue[1..], s)
  {
    var t := RunNext(s);
    RunReleases(s);
    forall i | 0 <= i < |t.queue| ensures RequestOf(t.queue[i], t) == RequestOf(t.queue[i], s) {
      CellsAscend(s, 0, i + 1);
    }
    WaitingFrame(t.queue, t, s);
  }

  lemma AlonePerforms(d: Document, r: Request)
    ensures Immediate(d, [r]) == Apply(d, r)
  {
    assert [r] == [] + [r];
    ImmediateSnoc(d, [], r);
  }

  lemma RunDocument(s: Service)
    requires Inv(s) && s.queue != []
    ensures RunNext(s).doc == Immediate(s.doc, RequestOf(s.queue[0], s))
  {
    var r := RequestOf(s.queue[0], s);
    assert Linked(s, 0);
    if r != [] {
      assert r == [r[0]];
      AlonePerforms(s.doc, r[0]);
    }
  }

  /** Running the oldest session does on the document what its request does at once. */
  lemma RunIsApply(s: Service)
    requires Inv(s) && s.queue != []
    ensures RunNext(s).doc == Immediate(s.doc, RequestOf(s.queue[0], s))
    ensures Drained(RunNext(s)) == Drained(s)
  {
    var r, rest := RequestOf(s.queue[0], s), WaitingIn(RunNext(s));
    WaitingCons(s.queue, s);
    RunLeavesOthers(s);
    RunDocument(s);
    if r == [] {
      assert r + rest == rest;
    } else {
      ImmediateCons(s.doc, r[0], rest);
      AlonePerforms(s.doc, r[0]);
      assert r == [r[0]];
    }
  }

  /** `Drained` is what the host reaches by running every queued session. */
  lemma {:induction false} DrainReachesDrained(s: Service) returns (runs: seq<Event>)
    requires Inv(s)
    ensures |runs| == |s.queue| && forall i | 0 <= i < |runs| :: runs[i] == RunSession
    ensures Run(s, runs) && Exec(s, runs).queue == [] && Exec(s, runs).doc == Drained(s)
    decreases |s.queue|
  {
    if s.queue == [] {
      runs := [];
    } else {
      RunKeepsInv(s);
      RunIsApply(s);
      RunReleases(s);
      var rest := DrainReachesDrained(RunNext(s));
      ExecCons(s, RunSession, rest);
      runs := [RunSession] + rest;
    }
  }

  // ----- The books of an interleaving -----

  /** A piece of text that a request fixes in front of the composition. */
  datatype Piece = Piece(text: seq<CodeUnit>, kept: bool)

  /**
   All requests so far, those among them that were not overwritten, the pieces of text that
   all of them fix, and the commits of the overwritten edits.
   */
  datatype Books = Books(all: seq<Request>, surviving: seq<Request>, pieces: seq<Piece>, lost: seq<string>)

  function FixedBy(d: Document, r: Request): seq<CodeUnit> {
    match r
    case Set(e) => Fixed(e)
    case End => if d.live == {} then [] else d.mid
  }

  function AllText(pieces: seq<Piece>): seq<CodeUnit> {
    if pieces == [] then [] else AllText(pieces[..|pieces| - 1]) + pieces[|pieces| - 1].text
  }

  function KeptText(pieces: seq<Piece>): seq<CodeUnit> {
    if pieces == [] then []
    else KeptText(pieces[..|pieces| - 1]) + if pieces[|pieces| - 1].kept then pieces[|pieces| - 1].text else []
  }

  /** The texts of the pieces that were lost, in order. */
  function HiddenTexts(pieces: seq<Piece>): seq<seq<CodeUnit>> {
    if pieces == [] then []
    else HiddenTexts(pieces[..|pieces| - 1]) + if pieces[|pieces| - 1].kept then [] else [pieces[|pieces| - 1].text]
  }

  /** What each of the commits fixes in the document; for basic commits, the commit itself. */
  function FixedTexts(commits: seq<string>): seq<seq<CodeUnit>> {
    if commits == [] then []
    else FixedTexts(commits[..|commits| - 1]) + [Encode(commits[|commits| - 1])[..|commits[|commits| - 1]|]]
  }

  function TotalLength(commits: seq<string>): nat {
    if commits == [] then 0
    else TotalLength(commits[..|commits| - 1]) + |commits[|commits| - 1]|
  }

  function Front<T>(xs: seq<T>): seq<T>
    requires xs != []
  {
    xs[..|xs| - 1]
  }

  function Last<T>(xs: seq<T>): T
    requires xs != []
  {
    xs[|xs| - 1]
  }

  /** A new edit can reach the document: the current cell does not hold a dead composition. */
  predicate Open(s: Service) {
    Inv(s) && !Dead(s, s.current)
  }

  lemma OpenStep(s: Service, ev: Event)
    requires Open(s) && (ev.Ask? || ev.RunSession?)
    ensures Open(Step(s, ev))
  {
    StepKeepsInvIff(s, ev);
    if ev.RunSession? && s.queue != [] {
      RunReleases(s);
      assert Linked(s, 0);
    }
  }

  /** Only requests and session runs. */
  predicate Interleaving(events: seq<Event>) {
    forall i | 0 <= i < |events| :: events[i].Ask? || events[i].RunSession?
  }

  /** The event overwrites the edit of a session that is still queued. */
  predicate Overwrites(s: Service, ev: Event) {
    ev.Ask? && ev.request.Set? && Upgrades(s)
  }

  /** Books one event that arrives in state `s`. */
  function Enter(b: Books, s: Service, ev: Event): Books
    requires Open(s)
  {
    if !ev.Ask? then b
    else
      var piece := Piece(FixedBy(Drained(s), ev.request), true);
      if Overwrites(s, ev) && b.surviving != [] && b.pieces != [] then
        Books(b.all + [ev.request],
              Front(b.surviving) + [ev.request],
              Front(b.pieces) + [Last(b.pieces).(kept := false)] + [piece],
              b.lost + [s.slots[s.pendingEdit.value].value.commit])
      else
        Books(b.all + [ev.request], b.surviving + [ev.request], b.pieces + [piece], b.lost)
  }

  function Keep(s: Service, events: seq<Event>, b: Books): Books
    requires Open(s) && Run(s, events) && Interleaving(events)
    decreases |events|
  {
    if events == [] then b
    else
      OpenStep(s, events[0]);
      Keep(Step(s, events[0]), events[1..], Enter(b, s, events[0]))
  }

  /** The books of an interleaving of requests and session runs. */
  function BooksOf(s: Service, events: seq<Event>): Books
    requires Open(s) && Run(s, events) && Interleaving(events)
  {
    Keep(s, events, Books([], [], [], []))
  }

  /** All requests of an interleaving, in order. */
  function Requests(events: seq<Event>): seq<Request> {
    if events == [] then []
    else Asked(events[0]) + Requests(events[1..])
  }

  function Asked(ev: Event): seq<Request> {
    if ev.Ask? then [ev.request] else []
  }

  lemma EnterAll(b: Books, s: Service, ev: Event)
    requires Open(s)
    ensures Enter(b, s, ev).all == b.all + Asked(ev)
  {
  }

  lemma {:induction false} BooksListAllRequests(s: Service, events: seq<Event>, b: Books)
    requires Open(s) && Run(s, events) && Interleaving(events)
    ensures Keep(s, events, b).all == b.all + Requests(events)
    decreases |events|
  {
    if events != [] {
      var head, tail := Asked(events[0]), events[1..];
      assert Interleaving(events[1..]);
      OpenStep(s, events[0]);
      var t, entered := Step(s, events[0]), Enter(b, s, events[0]);
      BooksListAllRequests(t, tail, entered);
      assert entered.all == b.all + head by { EnterAll(b, s, events[0]); }
      Associate(b.all, head, Requests(tail));
    }
  }

  // ----- Surviving requests account for the state -----

  /** A set that upgrades the weak reference rewrites the last waiting request. */
  lemma OverwriteWaiting(s: Service, e: Edit)
    requires Open(s) && Upgrades(s)
    ensures WaitingIn(s) != []
    ensures WaitingIn(RequestSet(s, e)) == Front(WaitingIn(s)) + [Set(e)]
    ensures Last(WaitingIn(s)) == Set(s.slots[s.pendingEdit.value].value)
  {
    SlotIsLast(s);
    var t := RequestSet(s, e);
    var n := |s.queue| - 1;
    assert !Blank(s, n);
    assert t.queue == s.queue;
    WaitingFrame(s.queue[..n], s, t);
  }

  lemma NewSessionFrame(s: Service, r: Request, i: nat)
    requires Open(s) && (r.Set? ==> !Upgrades(s)) && i < |s.queue|
    ensures RequestOf(s.queue[i], Step(s, Ask(r))) == RequestOf(s.queue[i], s)
  {
  }

  lemma NewSessionIsLast(s: Service, r: Request)
    requires Open(s) && (r.Set? ==> !Upgrades(s))
    ensures var t, n := Step(s, Ask(r)), |s.queue|;
            |t.queue| == n + 1 && t.queue == s.queue + [t.queue[n]] && RequestOf(t.queue[n], t) == [r]
  {
  }

  lemma NewSessionWaiting(s: Service, r: Request)
    requires Open(s) && (r.Set? ==> !Upgrades(s))
    ensures WaitingIn(Step(s, Ask(r))) == WaitingIn(s) + [r]
  {
    var t := Step(s, Ask(r));
    NewSessionIsLast(s, r);
    WaitingSnoc(s.queue, t.queue[|s.queue|], t);
    forall i | 0 <= i < |s.queue| ensures RequestOf(s.queue[i], s) == RequestOf(s.queue[i], t) {
      NewSessionFrame(s, r, i);
    }
    WaitingFrame(s.queue, s, t);
  }

  /**
   A list of requests accounts for a state: its end is what the queue still has to do, and
   carrying out the part before that at once gives the current document.
   */
  predicate Accounts(requests: seq<Request>, d: Document, s: Service) {
    var done := |requests| - |WaitingIn(s)|;
    done >= 0 && requests[done..] == WaitingIn(s) && Immediate(d, requests[..done]) == s.doc
  }

  /** Moving requests from the waiting end of a list to its done part. */
  lemma MoveToDone(requests: seq<Request>, done: nat, r: seq<Request>, rest: seq<Request>, d: Document)
    requires done <= |requests| && requests[done..] == r + rest
    ensures requests[done + |r|..] == rest
    ensures Immediate(d, requests[..done + |r|]) == Immediate(Immediate(d, requests[..done]), r)
  {
    assert requests[done + |r|..] == requests[done..][|r|..];
    assert requests[..done + |r|] == requests[..done] + r;
    ImmediateAppend(d, requests[..done], r);
  }

  lemma AccountsRun(requests: seq<Request>, d: Document, s: Service)
    requires Open(s) && Accounts(requests, d, s)
    ensures Accounts(requests, d, RunNext(s))
  {
    if s.queue != [] {
      var t, r := RunNext(s), RequestOf(s.queue[0], s);
      assert WaitingIn(s) == r + WaitingIn(t) by { WaitingCons(s.queue, s); RunLeavesOthers(s); }
      assert t.doc == Immediate(s.doc, r) by { RunIsApply(s); }
      MoveToDone(requests, |requests| - |WaitingIn(s)|, r, WaitingIn(t), d);
    }
  }

  lemma AccountsNewSession(requests: seq<Request>, d: Document, s: Service, r: Request)
    requires Open(s) && Accounts(requests, d, s) && (r.Set? ==> !Upgrades(s))
    ensures Accounts(requests + [r], d, Step(s, Ask(r)))
  {
    NewSessionWaiting(s, r);
    var done := |requests| - |WaitingIn(s)|;
    assert (requests + [r])[..done] == requests[..done] && (requests + [r])[done..] == requests[done..] + [r];
  }

  lemma AccountsOverwrite(requests: seq<Request>, d: Document, s: Service, e: Edit)
    requires Open(s) && Accounts(requests, d, s) && Upgrades(s)
    ensures requests != [] && Last(requests) == Set(s.slots[s.pendingEdit.value].value)
    ensures Accounts(Front(requests) + [Set(e)], d, RequestSet(s, e))
  {
    OverwriteWaiting(s, e);
    var n, done := |requests| - 1, |requests| - |WaitingIn(s)|;
    var rewritten := requests[..n] + [Set(e)];
    assert rewritten[..done] == requests[..done] && rewritten[done..] == requests[done..][..n - done] + [Set(e)];
  }

  lemma {:induction false} ImmediateAppend(d: Document, a: seq<Request>, b: seq<Request>)
    ensures Immediate(d, a + b) == Immediate(Immediate(d, a), b)
  {
    if b == [] {
      assert a + b == a;
    } else {
      var n := |b| - 1;
      ImmediateAppend(d, a, b[..n]);
      assert (a + b)[..|a| + n] == a + b[..n];
    }
  }

  /** Requests that account for a state give, carried out at once, its drained document. */
  lemma AccountsDrained(requests: seq<Request>, d: Document, s: Service)
    requires Accounts(requests, d, s)
    ensures Immediate(d, requests) == Drained(s)
  {
    var done := |requests| - |WaitingIn(s)|;
    ImmediateAppend(d, requests[..done], requests[done..]);
    assert requests == requests[..done] + requests[done..];
  }

  // ----- The ledger: immediate against queued execution -----

  /** Two documents that differ at most in the text left of the composition. */
  predicate SameButLeft(a: Document, b: Document) {
    a == b.(left := a.left)
  }

  lemma ApplySameButLeft(a: Document, b: Document, r: Request)
    requires SameButLeft(a, b)
    ensures SameButLeft(Apply(a, r), Apply(b, r))
    ensures Apply(a, r).left == a.left + FixedBy(b, r) && Apply(b, r).left == b.left + FixedBy(b, r)
  {
  }

  /** Two documents that started from `d`: one gained `all`, the other `kept`, and `lost` code units less. */
  predicate Ledger(
    d: Document, atOnce: Document, drained: Document, all: seq<CodeUnit>, kept: seq<CodeUnit>, lost: nat)
  {
    && SameButLeft(atOnce, drained)
    && atOnce.left == d.left + all
    && drained.left == d.left + kept
    && |all| == |kept| + lost
  }

  lemma LedgerAppend(
      d: Document, atOnce: Document, drained: Document, all: seq<CodeUnit>, kept: seq<CodeUnit>, lost: nat, r: Request)
    requires Ledger(d, atOnce, drained, all, kept, lost)
    ensures Ledger(d, Apply(atOnce, r), Apply(drained, r), all + FixedBy(drained, r), kept + FixedBy(drained, r), lost)
  {
    ApplySameButLeft(atOnce, drained, r);
  }

  /** A set right behind a set hides all of it but the text it fixed. */
  lemma SetAfterSet(d: Document, hidden: Edit, e: Edit)
    ensures SameButLeft(Apply(Apply(d, Set(hidden)), Set(e)), Apply(d, Set(e)))
    ensures Apply(d, Set(hidden)).left == d.left + Fixed(hidden) && |Fixed(hidden)| == |hidden.commit|
  {
  }

  lemma LedgerOverwrite(
      d: Document, atOnce: Document, before: Document, all: seq<CodeUnit>, kept: seq<CodeUnit>, lost: nat,
      hidden: Edit, e: Edit)
    requires Ledger(d, atOnce, Apply(before, Set(hidden)), all, kept + Fixed(hidden), lost)
    requires before.left == d.left + kept
    ensures Ledger(d, Apply(atOnce, Set(e)), Apply(before, Set(e)), all + Fixed(e), kept + Fixed(e),
                   lost + |hidden.commit|)
  {
    var drained := Apply(before, Set(hidden));
    var a, b := Apply(atOnce, Set(e)), Apply(before, Set(e));
    SetAfterSet(before, hidden, e);
    assert b.left == before.left + Fixed(e) by { ApplySameButLeft(before, before, Set(e)); }
    assert a.left == atOnce.left + Fixed(e) && SameButLeft(a, Apply(drained, Set(e))) by {
      ApplySameButLeft(atOnce, drained, Set(e));
    }
    assert SameButLeft(a, b);
  }

  lemma TextSnoc(pieces: seq<Piece>, p: Piece)
    ensures AllText(pieces + [p]) == AllText(pieces) + p.text
    ensures KeptText(pieces + [p]) == KeptText(pieces) + if p.kept then p.text else []
    ensures HiddenTexts(pieces + [p]) == HiddenTexts(pieces) + if p.kept then [] else [p.text]
  {
    assert (pieces + [p])[..|pieces|] == pieces;
  }

  lemma HideText(pieces: seq<Piece>, piece: Piece)
    requires pieces != [] && Last(pieces).kept && piece.kept
    ensures var hidden := Front(pieces) + [Last(pieces).(kept := false)];
            && AllText(hidden + [piece]) == AllText(pieces) + piece.text
            && KeptText(hidden + [piece]) == KeptText(Front(pieces)) + piece.text
            && KeptText(hidden) == KeptText(Front(pieces))
            && HiddenTexts(hidden + [piece]) == HiddenTexts(pieces) + [Last(pieces).text]
  {
    var hidden := Front(pieces) + [Last(pieces).(kept := false)];
    TextSnoc(Front(pieces), Last(pieces).(kept := false));
    TextSnoc(hidden, piece);
  }

  lemma LostSnoc(lost: seq<string>, commit: string)
    ensures TotalLength(lost + [commit]) == TotalLength(lost) + |commit|
    ensures FixedTexts(lost + [commit]) == FixedTexts(lost) + [Encode(commit)[..|commit|]]
  {
    assert (lost + [commit])[..|lost|] == lost;
  }

  predicate LedgerOf(d: Document, b: Books) {
    Ledger(d, Immediate(d, b.all), Immediate(d, b.surviving),
           AllText(b.pieces), KeptText(b.pieces), TotalLength(b.lost))
  }

  /** The latest request survives and its piece is the last one. */
  predicate LastPiece(d: Document, b: Books) {
    b.surviving != [] ==>
      && b.pieces != []
      && Last(b.pieces) == Piece(FixedBy(Immediate(d, Front(b.surviving)), Last(b.surviving)), true)
      && Immediate(d, Front(b.surviving)).left == d.left + KeptText(Front(b.pieces))
  }

  /** The books are right for state `s`, counted from document `d`. */
  predicate Balanced(b: Books, d: Document, s: Service) {
    Accounts(b.surviving, d, s) && LedgerOf(d, b) && LastPiece(d, b) && HiddenTexts(b.pieces) == FixedTexts(b.lost)
  }

  lemma BalancedAppend(b: Books, d: Document, s: Service, r: Request)
    requires Open(s) && Balanced(b, d, s) && (r.Set? ==> !Upgrades(s))
    ensures Balanced(Enter(b, s, Ask(r)), d, Step(s, Ask(r)))
  {
    var t := Enter(b, s, Ask(r));
    AccountsNewSession(b.surviving, d, s, r);
    AccountsDrained(b.surviving, d, s);
    ImmediateSnoc(d, b.all, r);
    ImmediateSnoc(d, b.surviving, r);
    TextSnoc(b.pieces, Last(t.pieces));
    LedgerAppend(d, Immediate(d, b.all), Immediate(d, b.surviving), AllText(b.pieces), KeptText(b.pieces),
                 TotalLength(b.lost), r);
    assert Front(t.surviving) == b.surviving && Front(t.pieces) == b.pieces;
  }

  lemma BalancedOverwrite(b: Books, d: Document, s: Service, e: Edit)
    requires Open(s) && Balanced(b, d, s) && Upgrades(s)
    ensures Balanced(Enter(b, s, Ask(Set(e))), d, RequestSet(s, e))
  {
    var t := Enter(b, s, Ask(Set(e)));
    AccountsOverwrite(b.surviving, d, s, e);
    var before, gone := Front(b.surviving), s.slots[s.pendingEdit.value].value;
    ImmediateSnoc(d, b.all, Set(e));
    ImmediateSnoc(d, before, Set(e));
    HideText(b.pieces, Last(t.pieces));
    LostSnoc(b.lost, gone.commit);
    FixedAndKept(gone);
    LedgerOverwrite(d, Immediate(d, b.all), Immediate(d, before), AllText(b.pieces), KeptText(Front(b.pieces)),
                    TotalLength(b.lost), gone, e);
    assert Front(t.surviving) == before;
    assert Front(t.pieces) == Front(b.pieces) + [Last(b.pieces).(kept := false)];
  }

  lemma {:induction false} BooksBalance(s: Service, events: seq<Event>, d: Document, b: Books)
    requires Open(s) && Run(s, events) && Interleaving(events) && Balanced(b, d, s)
    ensures Open(Exec(s, events)) && Balanced(Keep(s, events, b), d, Exec(s, events))
    decreases |events|
  {
    if events != [] {
      var ev := events[0];
      OpenStep(s, ev);
      if ev.RunSession? {
        AccountsRun(b.surviving, d, s);
      } else if Overwrites(s, ev) {
        BalancedOverwrite(b, d, s, ev.request.edit);
      } else {
        BalancedAppend(b, d, s, ev.request);
      }
      BooksBalance(Step(s, ev), events[1..], d, Enter(b, s, ev));
    }
  }

  predicate NothingEntered(b: Books) {
    b.all == [] && b.surviving == [] && b.pieces == [] && b.lost == []
  }

  lemma EmptyLedger(d: Document, b: Books)
    requires NothingEntered(b)
    ensures LedgerOf(d, b)
  {
    assert d.left + [] == d.left;
  }

  lemma EmptyAccounts(s: Service, b: Books)
    requires WaitingIn(s) == [] && NothingEntered(b)
    ensures Accounts(b.surviving, s.doc, s)
  {
    assert |WaitingIn(s)| == 0;
  }

  lemma EmptyBalances(s: Service, b: Books)
    requires WaitingIn(s) == [] && NothingEntered(b)
    ensures Balanced(b, s.doc, s)
  {
    EmptyLedger(s.doc, b);
    EmptyAccounts(s, b);
  }

  lemma BooksOfBalance(s: Service, events: seq<Event>)
    requires Open(s) && WaitingIn(s) == [] && Run(s, events) && Interleaving(events)
    ensures Balanced(BooksOf(s, events), s.doc, Exec(s, events))
    ensures BooksOf(s, events).all == Requests(events)
  {
    var blank := Books([], [], [], []);
    EmptyBalances(s, blank);
    BooksBalance(s, events, s.doc, blank);
    BooksListAllRequests(s, events, blank);
  }

  // ----- Main results -----

  /**
   Queued execution refines immediate execution, exactly: for every interleaving of requests
   and session runs, draining the queue gives the document that the surviving requests give
   when each is carried out at once.
   */
  lemma DrainedIsImmediateOfSurviving(s: Service, events: seq<Event>)
    requires Open(s) && WaitingIn(s) == [] && Run(s, events) && Interleaving(events)
    ensures Drained(Exec(s, events)) == Immediate(s.doc, BooksOf(s, events).surviving)
  {
    BooksOfBalance(s, events);
    AccountsDrained(BooksOf(s, events).surviving, s.doc, Exec(s, events));
  }

  /**
   Compared with carrying out every request at once, draining the queue leaves the same
   composition, the same text right of it and the same caret; the text left of it lacks
   exactly the commits of the overwritten edits.
   */
  lemma OverwritingLosesCommits(s: Service, events: seq<Event>)
    requires Open(s) && WaitingIn(s) == [] && Run(s, events) && Interleaving(events)
    ensures var drained, atOnce := Drained(Exec(s, events)), Immediate(s.doc, Requests(events));
            && SameButLeft(atOnce, drained)
            && atOnce.left == s.doc.left + AllText(BooksOf(s, events).pieces)
            && drained.left == s.doc.left + KeptText(BooksOf(s, events).pieces)
            && HiddenTexts(BooksOf(s, events).pieces) == FixedTexts(BooksOf(s, events).lost)
  {
    BooksOfBalance(s, events);
    DrainedIsImmediateOfSurviving(s, events);
  }

  lemma {:induction false} TotalLengthZeroIff(commits: seq<string>)
    ensures TotalLength(commits) == 0 <==> forall i | 0 <= i < |commits| :: commits[i] == ""
  {
    if commits != [] {
      TotalLengthZeroIff(commits[..|commits| - 1]);
    }
  }

  lemma {:induction false} KeptIsAllIfSameLength(pieces: seq<Piece>)
    ensures |KeptText(pieces)| <= |AllText(pieces)|
    ensures |KeptText(pieces)| == |AllText(pieces)| ==> KeptText(pieces) == AllText(pieces)
  {
    if pieces != [] {
      KeptIsAllIfSameLength(pieces[..|pieces| - 1]);
    }
  }

  lemma LedgerEqualIff(
      d: Document, atOnce: Document, drained: Document, all: seq<CodeUnit>, kept: seq<CodeUnit>, lost: nat)
    requires Ledger(d, atOnce, drained, all, kept, lost) && (|kept| == |all| ==> kept == all)
    ensures drained == atOnce <==> lost == 0
  {
  }

  /**
   Coalescing is invisible if and only if every overwritten edit had an empty commit: then,
   and only then, the drained document is the one of immediate execution.
   */
  lemma CoalescingInvisibleIff(s: Service, events: seq<Event>)
    requires Open(s) && WaitingIn(s) == [] && Run(s, events) && Interleaving(events)
    ensures Drained(Exec(s, events)) == Immediate(s.doc, Requests(events))
       <==> (forall i | 0 <= i < |BooksOf(s, events).lost| :: BooksOf(s, events).lost[i] == "")
  {
    var b := BooksOf(s, events);
    BooksOfBalance(s, events);
    DrainedIsImmediateOfSurviving(s, events);
    TotalLengthZeroIff(b.lost);
    KeptIsAllIfSameLength(b.pieces);
    LedgerEqualIff(s.doc, Immediate(s.doc, Requests(events)), Drained(Exec(s, events)),
                   AllText(b.pieces), KeptText(b.pieces), TotalLength(b.lost));
  }
}
