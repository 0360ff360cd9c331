/**
 Runs of whole callbacks: what they do to the composition. A termination that arrives while
 the service is borrowed is handled by the tail handler of a later key callback.
 */
module ServiceRuns {
  import opened Wrappers
  import opened Utf16
  import opened EditSession
  import opened Composition
  import opened CompositionRuns
  import opened DeferredTermination
  import CompositionService
  import opened TipMode
  import TipRuns

  type Callback = TipMode.Event

  // ----- What may happen inside a callback -----

  /** While the service is borrowed mutably. */
  predicate Nested(ev: Composition.Event) {
    ev.Ask? || ev.RunSession? || ev.AppEdit? || (ev.Terminate? && ev.handling.Deferred?)
  }

  /** While the service is borrowed shared around a compartment write. */
  predicate NestedInWrite(ev: Composition.Event) {
    Nested(ev) && !ev.Ask?
  }

  predicate BetweenCallbacks(ev: Composition.Event) {
    ev.RunSession? || ev.AppEdit? || (ev.Terminate? && !ev.handling.Deferred?)
  }

  predicate ProperEnv(env: Env) {
    && (forall i | 0 <= i < |env.arrivals| && env.arrivals[i].Meanwhile? :: Nested(env.arrivals[i].event))
    && (forall i | 0 <= i < |env.writeArrivals| && env.writeArrivals[i].Meanwhile? ::
          NestedInWrite(env.writeArrivals[i].event))
  }

  predicate Proper(ev: Callback) {
    match ev
    case FocusChange(_, _, _) => true
    case Deactivate => true
    case Host(e) => BetweenCallbacks(e)
    case _ => ProperEnv(ev.env)
  }

  // ----- The tail handler is the last thing a successful key callback does -----

  predicate KeyUpSucceeds(cfg: Config, tip: Tip, env: Env) {
    env.fault == NoFault && !(TipMode.Writes(cfg, tip) && env.syncFails)
  }

  /** A key callback that succeeds on an initialised service. */
  predicate Succeeds(cfg: Config, t: Tsf, ev: Callback) {
    t.tip.Some? &&
    match ev
    case TestKeyDown(_, env) => env.fault == NoFault
    case KeyDown(_, env) => env.fault == NoFault
    case TestKeyUp(key, env) => KeyUpSucceeds(cfg, TipMode.OnTestKeyUp(cfg, t.tip.value, key, env), env)
    case KeyUp(key, env) => KeyUpSucceeds(cfg, TipMode.OnKeyUp(cfg, t.tip.value, key, env), env)
    case _ => false
  }

  predicate TailFree(events: seq<Composition.Event>) {
    forall i | 0 <= i < |events| :: !events[i].Tail?
  }

  lemma {:induction false} EventsAreTailFree(arrivals: seq<Arrival>)
    requires forall i | 0 <= i < |arrivals| && arrivals[i].Meanwhile? :: Nested(arrivals[i].event)
    ensures TailFree(Events(arrivals))
  {
    if arrivals != [] {
      EventsAreTailFree(arrivals[..|arrivals| - 1]);
    }
  }

  /** The part of a callback before its tail handler, or all of it. */
  function Body(cfg: Config, t: Tsf, s: Service, ev: Callback): seq<Composition.Event> {
    var trace := Trace(cfg, t, s, ev);
    if Succeeds(cfg, t, ev) && trace != [] then trace[..|trace| - 1] else trace
  }

  lemma KeyDownTail(env: Env)
    requires ProperEnv(env)
    ensures var trace := KeyDownEvents(env);
            if env.fault == NoFault then trace != [] && trace[|trace| - 1].Tail? && TailFree(trace[..|trace| - 1])
            else TailFree(trace)
  {
    EventsAreTailFree(env.arrivals);
  }

  lemma SyncIsTailFree(cfg: Config, tip: Tip, env: Env)
    requires ProperEnv(env)
    ensures TailFree(SyncEvents(cfg, tip, env)) && TailFree(Events(env.arrivals) + SyncEvents(cfg, tip, env))
  {
    EventsAreTailFree(env.arrivals);
    EventsAreTailFree(env.writeArrivals);
  }

  lemma KeyUpTail(cfg: Config, tip: Tip, env: Env)
    requires ProperEnv(env)
    ensures var trace := KeyUpEvents(cfg, tip, env);
            if KeyUpSucceeds(cfg, tip, env) then
              trace != [] && trace[|trace| - 1].Tail? && TailFree(trace[..|trace| - 1])
            else TailFree(trace)
  {
    SyncIsTailFree(cfg, tip, env);
    EventsAreTailFree(env.arrivals);
    var body := Events(env.arrivals) + SyncEvents(cfg, tip, env);
    assert (body + [Tail])[..|body|] == body;
  }

  lemma ChangeIsTailFree(cfg: Config, s: Service, tip: Tip, env: Env)
    requires ProperEnv(env)
    ensures TailFree(ChangeEvents(cfg, s, tip, env))
  {
    EventsAreTailFree(env.arrivals);
    EventsAreTailFree(env.writeArrivals);
  }

  /** A trace that ends with the tail handler or has none. */
  predicate TailAtMostLast(trace: seq<Composition.Event>, tail: bool) {
    if tail then trace != [] && trace[|trace| - 1].Tail? && TailFree(trace[..|trace| - 1]) else TailFree(trace)
  }

  lemma TraceTail(cfg: Config, t: Tsf, s: Service, ev: Callback)
    requires Proper(ev)
    ensures TailAtMostLast(Trace(cfg, t, s, ev), Succeeds(cfg, t, ev))
  {
    if t.tip.Some? {
      var tip := t.tip.value;
      match ev
      case TestKeyDown(_, env) => KeyDownTail(env);
      case KeyDown(_, env) => KeyDownTail(env);
      case TestKeyUp(key, env) => KeyUpTail(cfg, TipMode.OnTestKeyUp(cfg, tip, key, env), env);
      case KeyUp(key, env) => KeyUpTail(cfg, TipMode.OnKeyUp(cfg, tip, key, env), env);
      case Command(toggles, env) => SyncIsTailFree(cfg, TipMode.OnCommand(cfg, tip, toggles, env), env);
      case ThreadFocus(env) =>
        EventsAreTailFree(env.arrivals);
        SyncIsTailFree(cfg, TipMode.OnThreadFocus(cfg, tip, env), env);
      case OpenCloseChanged(_, env) => ChangeIsTailFree(cfg, s, tip, env);
      case _ =>
    }
  }

  lemma TailIsLast(cfg: Config, t: Tsf, s: Service, ev: Callback)
    requires Proper(ev)
    ensures TailFree(Body(cfg, t, s, ev))
    ensures Trace(cfg, t, s, ev) == Body(cfg, t, s, ev) + if Succeeds(cfg, t, ev) then [Tail] else []
  {
    TraceTail(cfg, t, s, ev);
    var trace := Trace(cfg, t, s, ev);
    assert trace != [] ==> trace == trace[..|trace| - 1] + [trace[|trace| - 1]];
    assert trace + [] == trace;
  }

  // ----- Deferred terminations -----

  lemma {:induction false} FlagStays(s: Service, events: seq<Composition.Event>)
    requires QueueInv(s) && s.terminated && TailFree(events)
    ensures Perform(s, events).terminated
    decreases |events|
  {
    if events != [] {
      StepKeepsQueueInv(s, events[0]);
      FlagStaysOneStep(s, events[0]);
      FlagStays(Step(s, events[0]), events[1..]);
    }
  }

  lemma FlagStaysOneStep(s: Service, ev: Composition.Event)
    requires QueueInv(s) && s.terminated && !ev.Tail?
    ensures Step(s, ev).terminated
  {
    if ev.RunSession? && s.queue != [] {
      RunReleases(s);
    }
  }

  /** The termination has been dealt with: the current cell is empty and nothing queued on it can ever write. */
  predicate Recovered(s: Service) {
    && QueueInv(s) && !s.terminated && s.cells[s.current].None?
    && forall i | 0 <= i < |s.queue| && s.queue[i].cell == s.current ::
         s.queue[i].SetString? && Cancelled(s, s.queue[i].slot)
  }

  lemma HandleKeepsQueueInv(cfg: Config, t: Tsf, s: Service, ev: Callback)
    requires QueueInv(s)
    ensures QueueInv(HandleComposition(cfg, t, s, ev))
  {
    if !ev.Activate? {
      PerformKeepsQueueInv(s, Trace(cfg, t, s, ev));
    }
  }

  /**
   A callback that is not a successful key callback leaves the flag up. One that is takes it
   down, empties the current cell and cancels every session queued on it.
   */
  lemma DeferralStep(cfg: Config, t: Tsf, s: Service, ev: Callback)
    requires QueueInv(s) && s.terminated && Proper(ev)
    ensures !Succeeds(cfg, t, ev) ==> HandleComposition(cfg, t, s, ev).terminated
    ensures Succeeds(cfg, t, ev) ==> Recovered(HandleComposition(cfg, t, s, ev))
  {
    if !ev.Activate? {
      var body := Body(cfg, t, s, ev);
      TailIsLast(cfg, t, s, ev);
      FlagStays(s, body);
      PerformKeepsQueueInv(s, body);
      if Succeeds(cfg, t, ev) {
        TailSettles(s, body);
      } else {
        assert body + [] == body;
      }
    }
  }

  lemma TailSettles(s: Service, body: seq<Composition.Event>)
    requires QueueInv(s) && QueueInv(Perform(s, body)) && Perform(s, body).terminated
    ensures Recovered(Perform(s, body + [Tail]))
  {
    var v := Perform(s, body);
    PerformAppend(s, body, [Tail]);
    assert Perform(v, [Tail]) == Perform(Do(v, Tail), []);
    StepKeepsQueueInv(v, Tail);
    TailCancels(v);
  }

  function Exec(cfg: Config, t: Tsf, s: Service, events: seq<Callback>): Service
    decreases |events|
  {
    if events == [] then s
    else Exec(cfg, Handle(cfg, t, events[0]), HandleComposition(cfg, t, s, events[0]), events[1..])
  }

  predicate AllProper(events: seq<Callback>) {
    forall i | 0 <= i < |events| :: Proper(events[i])
  }

  lemma {:induction false} ExecSnoc(cfg: Config, t: Tsf, s: Service, events: seq<Callback>, ev: Callback)
    ensures Exec(cfg, t, s, events + [ev])
         == HandleComposition(cfg, TipRuns.Exec(cfg, t, events), Exec(cfg, t, s, events), ev)
    decreases |events|
  {
    if events == [] {
      assert events + [ev] == [ev];
      assert Exec(cfg, t, s, [ev]) == Exec(cfg, Handle(cfg, t, ev), HandleComposition(cfg, t, s, ev), []);
    } else {
      ExecSnoc(cfg, Handle(cfg, t, events[0]), HandleComposition(cfg, t, s, events[0]), events[1..], ev);
      assert (events + [ev])[0] == events[0] && (events + [ev])[1..] == events[1..] + [ev];
    }
  }

  /** No callback of the run is a key callback that succeeds. */
  predicate NoneSucceeds(cfg: Config, t: Tsf, events: seq<Callback>)
    decreases |events|
  {
    events == [] || (!Succeeds(cfg, t, events[0]) && NoneSucceeds(cfg, Handle(cfg, t, events[0]), events[1..]))
  }

  lemma {:induction false} DeferralPersists(cfg: Config, t: Tsf, s: Service, events: seq<Callback>)
    requires QueueInv(s) && s.terminated && AllProper(events) && NoneSucceeds(cfg, t, events)
    ensures QueueInv(Exec(cfg, t, s, events)) && Exec(cfg, t, s, events).terminated
    decreases |events|
  {
    if events != [] {
      assert Proper(events[0]) && AllProper(events[1..]);
      DeferralStep(cfg, t, s, events[0]);
      HandleKeepsQueueInv(cfg, t, s, events[0]);
      DeferralPersists(cfg, Handle(cfg, t, events[0]), HandleComposition(cfg, t, s, events[0]), events[1..]);
    }
  }

  /**
   A deferred termination waits for the tail handler of the first key callback that succeeds:
   until then the flag stays up, through failed callbacks, focus changes, sessions and a
   restart of the service; then the flag is down, the current cell is empty and every session
   queued on it is cancelled for good.
   */
  lemma DeferralHandledByFirstSuccess(
      cfg: Config, t: Tsf, s: Service, waiting: seq<Callback>, ev: Callback)
    requires QueueInv(s) && s.terminated && AllProper(waiting) && Proper(ev)
    requires NoneSucceeds(cfg, t, waiting) && Succeeds(cfg, TipRuns.Exec(cfg, t, waiting), ev)
    ensures Exec(cfg, t, s, waiting).terminated
    ensures Recovered(Exec(cfg, t, s, waiting + [ev]))
  {
    DeferralPersists(cfg, t, s, waiting);
    ExecSnoc(cfg, t, s, waiting, ev);
    DeferralStep(cfg, TipRuns.Exec(cfg, t, waiting), Exec(cfg, t, s, waiting), ev);
  }

  // ----- Each deferral is handled once -----

  function One(b: bool): nat {
    if b then 1 else 0
  }

  /** How often the flag is raised. */
  function Raised(s: Service, events: seq<Composition.Event>): nat
    requires QueueInv(s)
    decreases |events|
  {
    if events == [] then 0
    else
      StepKeepsQueueInv(s, events[0]);
      One(!s.terminated && events[0].Terminate? && events[0].handling.Deferred?)
        + Raised(Step(s, events[0]), events[1..])
  }

  /** How often a tail handler finds the flag up. */
  function Handled(s: Service, events: seq<Composition.Event>): nat
    requires QueueInv(s)
    decreases |events|
  {
    if events == [] then 0
    else
      StepKeepsQueueInv(s, events[0]);
      One(s.terminated && events[0].Tail?) + Handled(Step(s, events[0]), events[1..])
  }

  lemma {:induction false} DeferralBalance(s: Service, events: seq<Composition.Event>)
    requires QueueInv(s)
    ensures Handled(s, events) + One(Perform(s, events).terminated) == One(s.terminated) + Raised(s, events)
    decreases |events|
  {
    if events != [] {
      StepKeepsQueueInv(s, events[0]);
      if events[0].RunSession? && s.queue != [] {
        RunReleases(s);
      }
      DeferralBalance(Step(s, events[0]), events[1..]);
    }
  }

  function RaisedInRun(cfg: Config, t: Tsf, s: Service, events: seq<Callback>): nat
    requires QueueInv(s)
    decreases |events|
  {
    if events == [] then 0
    else
      HandleKeepsQueueInv(cfg, t, s, events[0]);
      Raised(s, Trace(cfg, t, s, events[0]))
        + RaisedInRun(cfg, Handle(cfg, t, events[0]), HandleComposition(cfg, t, s, events[0]), events[1..])
  }

  function HandledInRun(cfg: Config, t: Tsf, s: Service, events: seq<Callback>): nat
    requires QueueInv(s)
    decreases |events|
  {
    if events == [] then 0
    else
      HandleKeepsQueueInv(cfg, t, s, events[0]);
      Handled(s, Trace(cfg, t, s, events[0]))
        + HandledInRun(cfg, Handle(cfg, t, events[0]), HandleComposition(cfg, t, s, events[0]), events[1..])
  }

  /** Over any run of callbacks, each time the flag is raised one tail handler takes it down, or it is still up. */
  lemma {:induction false} DeferralsAreConserved(cfg: Config, t: Tsf, s: Service, events: seq<Callback>)
    requires QueueInv(s)
    ensures HandledInRun(cfg, t, s, events) + One(Exec(cfg, t, s, events).terminated)
         == One(s.terminated) + RaisedInRun(cfg, t, s, events)
    decreases |events|
  {
    if events != [] {
      HandleKeepsQueueInv(cfg, t, s, events[0]);
      DeferralBalance(s, Trace(cfg, t, s, events[0]));
      DeferralsAreConserved(cfg, Handle(cfg, t, events[0]), HandleComposition(cfg, t, s, events[0]), events[1..]);
    }
  }

  // ----- The key callback in which the termination arrives -----

  function AskEvents(requests: seq<Request>): seq<Composition.Event> {
    if requests == [] then [] else AskEvents(Front(requests)) + [Ask(Last(requests))]
  }

  lemma {:induction false} PerformAsksAll(s: Service, requests: seq<Request>)
    requires QueueInv(s)
    ensures Perform(s, AskEvents(requests)) == AskAll(s, requests)
  {
    if requests != [] {
      var front, last := AskEvents(Front(requests)), [Ask(Last(requests))];
      PerformAsksAll(s, Front(requests));
      PerformAppend(s, front, last);
      var t := Perform(s, front);
      assert last[1..] == [];
      assert Perform(t, last) == Perform(Step(t, last[0]), []);
    }
  }

  /**
   A key goes down, the application terminates the composition while the handler runs, and
   the handler goes on to request edits: once the queue has run, the document has what the
   application left, and of the requests exactly the enclosed edits.
   */
  lemma BusyKeyDown(
      cfg: Config, t: Tsf, s: Service, key: Key, env: Env,
      l: seq<CodeUnit>, m: seq<CodeUnit>, r: seq<CodeUnit>, requests: seq<Request>)
    requires t.tip.Some? && env.fault == NoFault
    requires Inv(s) && Enabled(s, Terminate(Deferred, l, m, r))
    requires Events(env.arrivals) == [Terminate(Deferred, l, m, r)] + AskEvents(requests)
    ensures Drained(HandleComposition(cfg, t, s, KeyDown(key, env)))
         == Inserted(Replaced(s.doc, l, m, r), EnclosedEdits(requests, |requests|))
  {
    var u := AfterTerminate(s, Deferred, l, m, r);
    var events := Events(env.arrivals);
    PerformsWindow(s, events, u, requests);
    assert Trace(cfg, t, s, KeyDown(key, env)) == events + [Tail];
    OnlyEnclosedEditsSurvive(s, l, m, r, requests);
  }

  lemma PerformsWindow(s: Service, events: seq<Composition.Event>, u: Service, requests: seq<Request>)
    requires WellFormed(s) && events != [] && u == Step(s, events[0]) && events[1..] == AskEvents(requests)
    requires QueueInv(u)
    ensures Perform(s, events + [Tail]) == Step(AskAll(u, requests), Tail)
  {
    PerformAsksAll(u, requests);
    var v := AskAll(u, requests);
    assert Perform(s, events) == v;
    PerformAppend(s, events, [Tail]);
    assert [Tail][1..] == [];
    assert Perform(v, [Tail]) == Perform(Do(v, Tail), []);
  }

  // ----- A run of callbacks is a run of the composition protocol -----

  function TraceOfRun(cfg: Config, t: Tsf, s: Service, events: seq<Callback>): seq<Composition.Event>
    decreases |events|
  {
    if events == [] then []
    else
      Trace(cfg, t, s, events[0])
        + TraceOfRun(cfg, Handle(cfg, t, events[0]), HandleComposition(cfg, t, s, events[0]), events[1..])
  }

  /** What happens inside a key-up callback, or one like it, is possible when it happens. */
  predicate PossibleInside(cfg: Config, s: Service, tip: Tip, env: Env) {
    && Run(s, Events(env.arrivals))
    && (env.fault == NoFault ==> Run(Perform(s, Events(env.arrivals)), SyncEvents(cfg, tip, env)))
  }

  /**
   Everything that the surroundings contribute to the callback, that is, the requests of the
   handler and what the host and the application do, is possible when it happens.
   */
  predicate Possible(cfg: Config, t: Tsf, s: Service, ev: Callback) {
    match ev
    case Host(e) => Enabled(s, e)
    case FocusChange(_, _, _) => true
    case Activate(_, _) => true
    case Deactivate => true
    case TestKeyDown(_, env) => t.tip.Some? ==> Run(s, Events(env.arrivals))
    case KeyDown(_, env) => t.tip.Some? ==> Run(s, Events(env.arrivals))
    case TestKeyUp(key, env) =>
      t.tip.Some? ==> PossibleInside(cfg, s, TipMode.OnTestKeyUp(cfg, t.tip.value, key, env), env)
    case KeyUp(key, env) =>
      t.tip.Some? ==> PossibleInside(cfg, s, TipMode.OnKeyUp(cfg, t.tip.value, key, env), env)
    case Command(toggles, env) =>
      t.tip.Some? ==>
        PossibleInside(cfg, s, TipMode.OnCommand(cfg, t.tip.value, toggles, env), env.(fault := NoFault))
    case ThreadFocus(env) =>
      t.tip.Some? ==> PossibleInside(cfg, s, TipMode.OnThreadFocus(cfg, t.tip.value, env), env)
    case OpenCloseChanged(_, env) =>
      t.tip.Some? ==> Run(s, Events(if cfg.syncLangModeOpenClose then env.writeArrivals else env.arrivals))
  }

  predicate AllPossible(cfg: Config, t: Tsf, s: Service, events: seq<Callback>)
    decreases |events|
  {
    events == [] ||
    (Possible(cfg, t, s, events[0])
     && AllPossible(cfg, Handle(cfg, t, events[0]), HandleComposition(cfg, t, s, events[0]), events[1..]))
  }

  /** The service can always request something, and a tail handler can always run. */
  lemma OwnEventsRun(s: Service, own: seq<Composition.Event>)
    requires QueueInv(s) && |own| <= 2 && forall i | 0 <= i < |own| :: own[i].Ask? || own[i].Tail?
    ensures Run(s, own)
    decreases |own|
  {
    if own != [] {
      StepKeepsQueueInv(s, own[0]);
      OwnEventsRun(Step(s, own[0]), own[1..]);
    }
  }

  lemma RunThenOwn(s: Service, events: seq<Composition.Event>, own: seq<Composition.Event>)
    requires QueueInv(s) && Run(s, events)
    requires |own| <= 2 && forall i | 0 <= i < |own| :: own[i].Ask? || own[i].Tail?
    ensures Run(s, events + own)
  {
    RunsKeepQueueInv(s, events);
    OwnEventsRun(CompositionRuns.Exec(s, events), own);
    RunAppend(s, events, own);
  }

  lemma RunThenRun(s: Service, a: seq<Composition.Event>, b: seq<Composition.Event>)
    requires Run(s, a) && Run(Perform(s, a), b)
    ensures Run(s, a + b)
  {
    PerformIsExec(s, a);
    RunAppend(s, a, b);
  }

  lemma KeyUpRuns(cfg: Config, s: Service, tip: Tip, env: Env)
    requires QueueInv(s) && PossibleInside(cfg, s, tip, env)
    ensures Run(s, KeyUpEvents(cfg, tip, env))
  {
    if env.fault == NoFault {
      var body := Events(env.arrivals) + SyncEvents(cfg, tip, env);
      RunThenRun(s, Events(env.arrivals), SyncEvents(cfg, tip, env));
      RunThenOwn(s, body, [Tail]);
      assert body + [] == body;
    }
  }

  /** What a callback does, with what is done meanwhile, is a run of the composition protocol. */
  lemma TraceRuns(cfg: Config, t: Tsf, s: Service, ev: Callback)
    requires QueueInv(s) && Possible(cfg, t, s, ev)
    ensures Run(s, Trace(cfg, t, s, ev))
  {
    if ev.Host? {
      RunOne(s, ev.event);
    } else if t.tip.Some? {
      var tip := t.tip.value;
      match ev
      case TestKeyDown(_, env) => KeyDownRuns(s, env);
      case KeyDown(_, env) => KeyDownRuns(s, env);
      case TestKeyUp(key, env) => KeyUpRuns(cfg, s, TipMode.OnTestKeyUp(cfg, tip, key, env), env);
      case KeyUp(key, env) => KeyUpRuns(cfg, s, TipMode.OnKeyUp(cfg, tip, key, env), env);
      case Command(toggles, env) =>
        RunThenRun(s, Events(env.arrivals), SyncEvents(cfg, TipMode.OnCommand(cfg, tip, toggles, env), env));
      case ThreadFocus(env) => ThreadFocusRuns(cfg, s, TipMode.OnThreadFocus(cfg, tip, env), env);
      case FocusChange(_, _, _) => OwnEventsRun(s, Trace(cfg, t, s, ev));
      case OpenCloseChanged(_, env) => ChangeRuns(cfg, s, tip, env);
      case _ =>
    }
  }

  lemma KeyDownRuns(s: Service, env: Env)
    requires QueueInv(s) && Run(s, Events(env.arrivals))
    ensures Run(s, KeyDownEvents(env))
  {
    RunThenOwn(s, Events(env.arrivals), [Tail]);
    RunThenOwn(s, Events(env.arrivals), []);
  }

  lemma ThreadFocusRuns(cfg: Config, s: Service, tip: Tip, env: Env)
    requires QueueInv(s) && PossibleInside(cfg, s, tip, env)
    ensures Run(s, Events(env.arrivals) + if env.fault != NoFault then [] else SyncEvents(cfg, tip, env))
  {
    if env.fault == NoFault {
      RunThenRun(s, Events(env.arrivals), SyncEvents(cfg, tip, env));
    } else {
      RunThenOwn(s, Events(env.arrivals), []);
    }
  }

  lemma ChangeRuns(cfg: Config, s: Service, tip: Tip, env: Env)
    requires QueueInv(s)
    requires Run(s, Events(if cfg.syncLangModeOpenClose then env.writeArrivals else env.arrivals))
    ensures Run(s, ChangeEvents(cfg, s, tip, env))
  {
    if !cfg.syncLangModeOpenClose {
      var after := CompartmentChange(cfg, tip, env.capsOn);
      RunThenOwn(s, Events(env.arrivals), CloseRequests(Perform(s, Events(env.arrivals)), tip, after, env));
    }
  }

  /**
   Between a start and a stop of the service, a run of callbacks is a run of the composition
   protocol, so all laws about such runs hold for it.
   */
  lemma {:induction false} RunOfCallbacks(cfg: Config, t: Tsf, s: Service, events: seq<Callback>)
    requires QueueInv(s) && TipRuns.AllOrdinary(events) && AllPossible(cfg, t, s, events)
    ensures Run(s, TraceOfRun(cfg, t, s, events))
    ensures Exec(cfg, t, s, events) == CompositionRuns.Exec(s, TraceOfRun(cfg, t, s, events))
    decreases |events|
  {
    if events != [] {
      assert TipRuns.Ordinary(events[0]);
      var t1, s1 := Handle(cfg, t, events[0]), HandleComposition(cfg, t, s, events[0]);
      TraceRuns(cfg, t, s, events[0]);
      PerformIsExec(s, Trace(cfg, t, s, events[0]));
      HandleKeepsQueueInv(cfg, t, s, events[0]);
      RunOfCallbacks(cfg, t1, s1, events[1..]);
      RunAppend(s, Trace(cfg, t, s, events[0]), TraceOfRun(cfg, t1, s1, events[1..]));
    }
  }

  /**
   Cancellation safety for runs of callbacks: wherever in such a run the application terminates
   the composition, be it inside a callback or between two, no session that was queued then
   changes anything in the rest of the run.
   */
  lemma TerminationIsSafeForCallbacks(
      cfg: Config, t: Tsf, text: seq<CodeUnit>, events: seq<Callback>,
      before: seq<Composition.Event>, termination: Composition.Event, after: seq<Composition.Event>, i: nat)
    requires TipRuns.AllOrdinary(events) && AllPossible(cfg, t, Initial(text), events)
    requires TraceOfRun(cfg, t, Initial(text), events) == before + ([termination] + after) && termination.Terminate?
    ensures Run(Initial(text), before)
    ensures var s := CompositionRuns.Exec(Initial(text), before);
            && WellFormed(s) && Run(Step(s, termination), after)
            && (i < |s.queue| ==>
                  && s.queue[i].SetString?
                  && !CompositionRuns.Writes(Step(s, termination), after, s.queue[i].slot))
  {
    InitialInv(text);
    RunOfCallbacks(cfg, t, Initial(text), events);
    RunSplit(Initial(text), before, [termination] + after);
    RunsKeepQueueInv(Initial(text), before);
    var s := CompositionRuns.Exec(Initial(text), before);
    assert ([termination] + after)[0] == termination && ([termination] + after)[1..] == after;
    if i < |s.queue| {
      TerminationIsSafe(text, before, termination.handling, termination.left, termination.mid, termination.right,
                        after, i);
    }
  }

  // ----- Callbacks that close the composition -----

  /** A start leaves the document and a waiting termination alone and begins with nothing else. */
  lemma StartIsFresh(cfg: Config, t: Tsf, s: Service, english: bool, env: Env)
    ensures var u := HandleComposition(cfg, t, s, Activate(english, env));
            && QueueInv(u) && u.doc == s.doc && u.terminated == s.terminated
            && u.cells[u.current].None? && u.queue == [] && !Upgrades(u)
            && (s.doc.live == {} ==> Open(u))
  {
  }

  /** A started composition sits in the current cell, or candidates are shown. */
  predicate Composes(s: Service, candidatesShown: bool)
    requires WellFormed(s)
  {
    candidatesShown || s.cells[s.current] != None
  }

  /**
   When the focus leaves a document its text stays. A composition is live there afterwards if
   and only if an edit was queued for a composition that had not been started.
   */
  lemma FocusLossCloses(cfg: Config, t: Tsf, s: Service, candidatesShown: bool)
    requires Open(s) && t.tip.Some? && !t.keyBusy
    ensures var d := Drained(HandleComposition(cfg, t, s, FocusChange(false, true, candidatesShown)));
            var before := Drained(s);
            && d.Text() == before.Text() && d.right == before.right
            && (Composes(s, candidatesShown) && before.live != {} ==>
                  d.live == {} && d.left == before.left + before.mid && d.marks == [] && d.caret == 0)
            && (!Composes(s, candidatesShown) ==> d == before)
            && (d.live != {} <==> !Composes(s, candidatesShown) && Upgrades(s))
  {
    var u := HandleComposition(cfg, t, s, FocusChange(false, true, candidatesShown));
    if IsComposing(s, candidatesShown) {
      assert [Ask(End)][1..] == [];
      assert u == Perform(RequestEnd(s), []);
      CompositionService.EndRunsLast(s);
      EndKeepsText(Drained(s));
    } else {
      CompositionService.NeverStarted(s);
    }
  }

  /** While a key is busy a focus change does nothing at all. */
  lemma BusyKeyIgnoresFocus(cfg: Config, t: Tsf, s: Service, ev: Callback)
    requires ev.FocusChange? && t.keyBusy
    ensures Handle(cfg, t, ev) == t && HandleComposition(cfg, t, s, ev) == s
  {
  }

  /**
   Once the latest real key callback was a key-up, a loss of focus takes effect: the service
   knows of it, and a composition is requested to end exactly if the service is composing.
   */
  lemma FocusLossAfterKeyUp(
      cfg: Config, t: Tsf, events: seq<Callback>, s: Service, hasContext: bool, candidatesShown: bool)
    requires WellFormed(s) && events != [] && TipRuns.Before(cfg, t, events, |events|).tip.Some?
    requires !TipRuns.BusyAfter(events, t.keyBusy)
    ensures var u := TipRuns.Before(cfg, t, events, |events|);
            var ev := FocusChange(false, hasContext, candidatesShown);
            && Handle(cfg, u, ev).tip == Some(u.tip.value.(focus := false))
            && Trace(cfg, u, s, ev) == if hasContext && Composes(s, candidatesShown) then [Ask(End)] else []
  {
    TipRuns.BusyIffLastKeyDown(cfg, t, events, |events|);
    assert events[..|events|] == events;
  }

  lemma FocusLossRightAfterKeyUp(
      cfg: Config, t: Tsf, key: Key, env: Env, s: Service, hasContext: bool, candidatesShown: bool)
    requires WellFormed(s) && t.tip.Some?
    ensures var u := Handle(cfg, t, KeyUp(key, env));
            var ev := FocusChange(false, hasContext, candidatesShown);
            && u.tip.Some? && Handle(cfg, u, ev).tip.Some? && !Handle(cfg, u, ev).tip.value.focus
            && Trace(cfg, u, s, ev) == if hasContext && Composes(s, candidatesShown) then [Ask(End)] else []
  {
    TipRuns.BusyStep(cfg, t, KeyUp(key, env));
    TipRuns.FocusStep(cfg, t, KeyUp(key, env));
  }

  lemma EndKeepsText(d: Document)
    ensures var u := Apply(d, End);
            && u.Text() == d.Text() && u.right == d.right && u.live == {}
            && (d.live != {} ==> u.left == d.left + d.mid && u.mid == [] && u.marks == [] && u.caret == 0)
  {
    assert d.left + d.mid + [] == d.left + d.mid;
  }

  /** An external change turns input off while something is being composed. */
  predicate TurnsOff(tip: Tip, s: Service, env: Env)
    requires WellFormed(s)
  {
    !tip.pending && tip.focus && !tip.mode.IsDisabled() && env.fault == NoFault && Composes(s, env.candidatesShown)
  }

  /**
   Turning input off commits and closes the composition if the compartment is not synced; if
   it is, and for any other change of the compartment, the callback requests nothing and the
   composition stays as it was.
   */
  lemma TurningOffCommits(cfg: Config, t: Tsf, s: Service, value: int, env: Env)
    requires t.tip.Some? && env.arrivals == [] && env.writeArrivals == [] && Open(s)
    ensures var u := HandleComposition(cfg, t, s, OpenCloseChanged(value, env));
            if cfg.syncLangModeOpenClose || !TurnsOff(t.tip.value, s, env) then u == s
            else
              var d, before := Drained(u), Drained(CompositionService.Committed(s));
              d.live == {} && d.left == before.left + Encode(env.commit) && d.mid == [] && d.right == before.right
  {
    var tip := t.tip.value;
    var trace := Trace(cfg, t, s, OpenCloseChanged(value, env));
    assert Events(env.arrivals) == [] && Events(env.writeArrivals) == [];
    assert Perform(s, []) == s;
    TurnsOffIff(cfg, tip, s, env);
    if !cfg.syncLangModeOpenClose && TurnsOff(tip, s, env) {
      var e := Edit(env.commit, "", [], 0);
      var asks := [Ask(Set(e)), Ask(End)];
      assert trace == [] + asks == asks;
      PerformSetEnd(s, e);
      CompositionService.ClosedWithCommit(s, env.commit);
    } else {
      assert trace == [];
    }
  }

  lemma TurnsOffIff(cfg: Config, tip: Tip, s: Service, env: Env)
    requires WellFormed(s)
    ensures var e := Edit(env.commit, "", [], 0);
            CloseRequests(s, tip, CompartmentChange(cfg, tip, env.capsOn), env)
            == if TurnsOff(tip, s, env) then [Ask(Set(e)), Ask(End)] else []
  {
  }

  /** What happens inside a callback is what its surroundings contribute, in order. */
  lemma {:induction false} EventsInOrder(arrivals: seq<Arrival>)
    requires FocusArrives !in arrivals
    ensures |Events(arrivals)| == |arrivals|
    ensures forall i | 0 <= i < |arrivals| :: arrivals[i] == Meanwhile(Events(arrivals)[i])
  {
    if arrivals != [] {
      EventsInOrder(arrivals[..|arrivals| - 1]);
    }
  }

  lemma EventsSkipFocus(arrivals: seq<Arrival>)
    ensures Events(arrivals + [FocusArrives]) == Events(arrivals)
  {
    assert (arrivals + [FocusArrives])[..|arrivals|] == arrivals;
  }

  lemma PerformSetEnd(s: Service, e: Edit)
    requires QueueInv(s)
    ensures QueueInv(RequestSet(s, e)) && Perform(s, [Ask(Set(e)), Ask(End)]) == RequestEnd(RequestSet(s, e))
  {
    var asks := [Ask(Set(e)), Ask(End)];
    StepKeepsQueueInv(s, Ask(Set(e)));
    assert asks[1..] == [Ask(End)] && asks[1..][1..] == [];
    assert Perform(s, asks) == Perform(RequestSet(s, e), asks[1..]);
    assert Perform(RequestSet(s, e), asks[1..]) == Perform(RequestEnd(RequestSet(s, e)), []);
  }
}
