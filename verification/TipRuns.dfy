/** Laws of the text service over whole runs of callbacks. */
module TipRuns {
  import opened Wrappers
  import opened TipMode

  function Exec(cfg: Config, t: Tsf, events: seq<Event>): Tsf
    decreases |events|
  {
    if events == [] then t else Exec(cfg, Handle(cfg, t, events[0]), events[1..])
  }

  lemma {:induction false} ExecAppend(cfg: Config, t: Tsf, a: seq<Event>, b: seq<Event>)
    ensures Exec(cfg, t, a + b) == Exec(cfg, Exec(cfg, t, a), b)
    decreases |a|
  {
    if a == [] {
      assert a + b == b;
    } else {
      ExecAppend(cfg, Handle(cfg, t, a[0]), a[1..], b);
      assert (a + b)[0] == a[0] && (a + b)[1..] == a[1..] + b;
    }
  }

  // ----- Own and external changes of the compartment -----

  /** An open/close change by somebody else that the service takes as a user action. */
  predicate Accepts(t: Tsf, ev: Event) {
    ev.OpenCloseChanged? && t.tip.Some? && !t.tip.value.pending && t.tip.value.focus
  }

  /** The event is not a start or a stop of the service. */
  predicate Ordinary(ev: Event) {
    !ev.Activate? && !ev.Deactivate?
  }

  /** The write at the end of a callback, with its nested OnChange, leaves the mode alone. */
  lemma OwnWriteKeepsMode(cfg: Config, t: Tsf, env: Env)
    requires t.tip.Some?
    ensures SyncOpenClose(cfg, t, env).tip.Some? && SyncOpenClose(cfg, t, env).tip.value.mode == t.tip.value.mode
  {
  }

  lemma FinishKeyUpKeepsMode(cfg: Config, t: Tsf, tip: Tip, env: Env)
    ensures FinishKeyUp(cfg, t, tip, env).tip.Some? && FinishKeyUp(cfg, t, tip, env).tip.value.mode == tip.mode
  {
    OwnWriteKeepsMode(cfg, t.(tip := Some(tip)), env);
  }

  lemma KeyUpMode(cfg: Config, tip: Tip, key: Key, env: Env)
    ensures OnKeyUp(cfg, tip, key, env).mode.IsDisabled() == tip.mode.IsDisabled()
    ensures !cfg.enableCapsLock ==>
              (OnKeyUp(cfg, tip, key, env).mode.IsChinese() != tip.mode.IsChinese()
               <==> key.kind.ShiftKey? && tip.shift.Down? && cfg.switchLangWithShift
                    && InTime(cfg, tip.shift.since, env.now))
  {
  }

  /**
   The disabled bit flips at accepted external changes and at nothing else; in particular the
   service's own writes, and the nested OnChange they cause, never flip it. Without CapsLock
   mode the language flips at toggles and at nothing else.
   */
  lemma ModeStep(cfg: Config, t: Tsf, ev: Event)
    requires t.tip.Some? && Ordinary(ev)
    ensures Handle(cfg, t, ev).tip.Some?
    ensures Handle(cfg, t, ev).tip.value.mode.IsDisabled() != t.tip.value.mode.IsDisabled() <==> Accepts(t, ev)
    ensures !cfg.enableCapsLock ==>
              (Handle(cfg, t, ev).tip.value.mode.IsChinese() != t.tip.value.mode.IsChinese() <==> Toggles(cfg, t, ev))
  {
    var tip := t.tip.value;
    match ev
    case TestKeyUp(key, env) =>
      KeyUpMode(cfg, tip, key, env);
      FinishKeyUpKeepsMode(cfg, t, OnTestKeyUp(cfg, tip, key, env), env);
    case KeyUp(key, env) =>
      KeyUpMode(cfg, tip, key, env);
      FinishKeyUpKeepsMode(cfg, t.(keyBusy := false), OnKeyUp(cfg, tip, key, env), env);
    case Command(toggles, env) =>
      OwnWriteKeepsMode(cfg, t.(tip := Some(OnCommand(cfg, tip, toggles, env))), env);
    case ThreadFocus(env) =>
      OwnWriteKeepsMode(cfg, t.(tip := Some(OnThreadFocus(cfg, tip, env))), env);
    case _ =>
  }

  /** The callbacks that end with sync_keyboard_openclose. */
  predicate SyncsAtEnd(ev: Event) {
    ev.TestKeyUp? || ev.KeyUp? || ev.Command? || ev.ThreadFocus?
  }

  predicate Undisturbed(ev: Event) {
    SyncsAtEnd(ev) && (ev.Command? || ev.env.fault == NoFault) && !ev.env.syncFails
  }

  /**
   After such a callback the pending flag is clear, so the next external change is not taken
   for an own one; if the callback made the flag pending while sync is on, the compartment
   now shows the mode.
   */
  lemma OwnWriteConsumesFlag(cfg: Config, t: Tsf, ev: Event)
    requires t.tip.Some? && Undisturbed(ev)
    ensures var u := Handle(cfg, t, ev);
            && u.tip.Some? && !u.tip.value.pending
            && (cfg.syncLangModeOpenClose && (t.tip.value.pending || ev.ThreadFocus? || Toggles(cfg, t, ev))
                ==> u.openClose == if u.tip.value.mode == Chinese then 1 else 0)
  {
  }

  // ----- The other fields, event by event -----

  /** The service makes the flag pending, because it changes the mode itself. */
  predicate Raises(cfg: Config, t: Tsf, ev: Event) {
    Toggles(cfg, t, ev) || (Syncs(cfg, t, ev) && !ev.OpenCloseChanged?)
  }

  /** The callback gets to its end, where it deals with a pending flag. */
  predicate Completes(cfg: Config, ev: Event) {
    SyncsAtEnd(ev) && (ev.Command? || ev.env.fault == NoFault) && !(cfg.syncLangModeOpenClose && ev.env.syncFails)
  }

  /** Whatever the flag was, it is clear after the event. */
  predicate Clears(cfg: Config, ev: Event) {
    ev.OpenCloseChanged? || Completes(cfg, ev)
  }

  lemma KeyUpPending(cfg: Config, tip: Tip, key: Key, env: Env)
    ensures OnKeyUp(cfg, tip, key, env).pending
       <==> tip.pending
            || (key.kind.ShiftKey? && tip.shift.Down? && cfg.switchLangWithShift
                && InTime(cfg, tip.shift.since, env.now) && !cfg.enableCapsLock)
            || (key.kind.CapsLockKey? && cfg.enableCapsLock)
  {
  }

  lemma FinishKeyUpPending(cfg: Config, t: Tsf, tip: Tip, env: Env)
    ensures var u := FinishKeyUp(cfg, t, tip, env);
            u.tip.Some? && (u.tip.value.pending <==>
                            tip.pending && !(env.fault == NoFault && !(cfg.syncLangModeOpenClose && env.syncFails)))
  {
  }

  /**
   The pending flag: raised by the service's own changes of mode, cleared by every change of
   the compartment and at the end of every callback that syncs, and touched by nothing else.
   */
  lemma PendingStep(cfg: Config, t: Tsf, ev: Event)
    requires t.tip.Some? && Ordinary(ev)
    ensures Handle(cfg, t, ev).tip.Some?
    ensures Handle(cfg, t, ev).tip.value.pending <==> (t.tip.value.pending || Raises(cfg, t, ev)) && !Clears(cfg, ev)
  {
    var tip := t.tip.value;
    match ev
    case TestKeyUp(key, env) =>
      KeyUpPending(cfg, tip, key, env);
      FinishKeyUpPending(cfg, t, OnTestKeyUp(cfg, tip, key, env), env);
    case KeyUp(key, env) =>
      KeyUpPending(cfg, tip, key, env);
      FinishKeyUpPending(cfg, t.(keyBusy := false), OnKeyUp(cfg, tip, key, env), env);
    case _ =>
  }

  /** The compartment: set by others, opened by a start, and set by the service only to show the mode. */
  lemma CompartmentStep(cfg: Config, t: Tsf, ev: Event)
    ensures var u := Handle(cfg, t, ev);
            u.openClose
            == if ev.OpenCloseChanged? then ev.value
               else if ev.Activate? then 1
               else if u.tip.Some? && cfg.syncLangModeOpenClose && Completes(cfg, ev)
                       && (t.tip.value.pending || Raises(cfg, t, ev)) then
                 if u.tip.value.mode == Chinese then 1 else 0
               else t.openClose
  {
    if t.tip.Some? {
      var tip := t.tip.value;
      match ev
      case TestKeyUp(key, env) =>
        KeyUpPending(cfg, tip, key, env);
        FinishKeyUpCompartment(cfg, t, OnTestKeyUp(cfg, tip, key, env), env);
      case KeyUp(key, env) =>
        KeyUpPending(cfg, tip, key, env);
        FinishKeyUpCompartment(cfg, t.(keyBusy := false), OnKeyUp(cfg, tip, key, env), env);
      case _ =>
    }
  }

  lemma FinishKeyUpCompartment(cfg: Config, t: Tsf, tip: Tip, env: Env)
    ensures var u := FinishKeyUp(cfg, t, tip, env);
            && u.tip.Some? && u.tip.value.mode == tip.mode
            && u.openClose == if env.fault == NoFault && cfg.syncLangModeOpenClose && !env.syncFails && tip.pending
                              then if tip.mode == Chinese then 1 else 0 else t.openClose
  {
  }

  lemma FinishKeyUpKeepsFocus(cfg: Config, t: Tsf, tip: Tip, env: Env)
    ensures var u := FinishKeyUp(cfg, t, tip, env);
            u.tip.Some? && u.tip.value.focus == tip.focus && u.keyBusy == t.keyBusy
  {
  }

  /** The focus: changed by focus changes outside of a key stroke, and by nothing else. */
  lemma FocusStep(cfg: Config, t: Tsf, ev: Event)
    requires t.tip.Some? && Ordinary(ev)
    ensures Handle(cfg, t, ev).tip.Some?
    ensures Handle(cfg, t, ev).tip.value.focus == if ev.FocusChange? && !t.keyBusy then ev.gained else t.tip.value.focus
  {
    var tip := t.tip.value;
    match ev
    case TestKeyUp(key, env) => FinishKeyUpKeepsFocus(cfg, t, OnTestKeyUp(cfg, tip, key, env), env);
    case KeyUp(key, env) => FinishKeyUpKeepsFocus(cfg, t.(keyBusy := false), OnKeyUp(cfg, tip, key, env), env);
    case _ =>
  }

  /** A key is busy from its real key-down to its real key-up; test events do not count. */
  lemma BusyStep(cfg: Config, t: Tsf, ev: Event)
    ensures Handle(cfg, t, ev).keyBusy == (ev.KeyDown? || (t.keyBusy && !ev.KeyUp?))
  {
    if t.tip.Some? {
      var tip := t.tip.value;
      match ev
      case TestKeyUp(key, env) => FinishKeyUpKeepsFocus(cfg, t, OnTestKeyUp(cfg, tip, key, env), env);
      case KeyUp(key, env) => FinishKeyUpKeepsFocus(cfg, t.(keyBusy := false), OnKeyUp(cfg, tip, key, env), env);
      case _ =>
    }
  }

  /** A start: enabled, in the default language or the one that CapsLock dictates, focused, with Shift up. */
  lemma StartedService(cfg: Config, t: Tsf, english: bool, env: Env)
    ensures var u := Handle(cfg, t, Activate(english, env));
            && u.tip.Some? && !u.tip.value.mode.IsDisabled() && u.tip.value.pending && u.tip.value.focus
            && u.tip.value.shift == Up && u.openClose == 1 && u.keyBusy == t.keyBusy
            && u.tip.value.mode.IsChinese() == if cfg.enableCapsLock then Dictated(cfg, env.capsOn) else !english
  {
  }

  // ----- Runs of these fields -----

  /** Whether a key is busy after some events, of which only real key-downs and key-ups matter. */
  function BusyAfter(events: seq<Event>, busy: bool): bool {
    if events == [] then busy
    else
      var last := events[|events| - 1];
      if last.KeyDown? then true
      else if last.KeyUp? then false
      else BusyAfter(events[..|events| - 1], busy)
  }

  /** A key is busy exactly if the latest real key callback was a key-down, or, without any, if it was before. */
  lemma {:induction false} BusyIffLastKeyDown(cfg: Config, t: Tsf, events: seq<Event>, n: nat)
    requires n <= |events|
    ensures Before(cfg, t, events, n).keyBusy == BusyAfter(events[..n], t.keyBusy)
  {
    if n > 0 {
      BusyIffLastKeyDown(cfg, t, events, n - 1);
      BusyStep(cfg, Before(cfg, t, events, n - 1), events[n - 1]);
      assert events[..n][..n - 1] == events[..n - 1] && events[..n][n - 1] == events[n - 1];
    }
  }

  /** The service made the flag pending at event `k`, and nothing has cleared it up to event `n`. */
  predicate Unconsumed(cfg: Config, t: Tsf, events: seq<Event>, k: nat, n: nat)
    requires k < n <= |events|
  {
    Raises(cfg, Before(cfg, t, events, k), events[k]) && forall j | k <= j < n :: !Clears(cfg, events[j])
  }

  /** Over every run that starts with the flag clear: it is pending exactly if some own change is not yet dealt with. */
  lemma {:induction false} PendingIffUnconsumed(cfg: Config, t: Tsf, events: seq<Event>, n: nat)
    requires t.tip.Some? && !t.tip.value.pending && AllOrdinary(events) && n <= |events|
    ensures Before(cfg, t, events, n).tip.Some?
    ensures Before(cfg, t, events, n).tip.value.pending <==> exists k | 0 <= k < n :: Unconsumed(cfg, t, events, k, n)
  {
    if n > 0 {
      var u, ev := Before(cfg, t, events, n - 1), events[n - 1];
      assert Ordinary(ev);
      PendingIffUnconsumed(cfg, t, events, n - 1);
      PendingStep(cfg, u, ev);
      if u.tip.value.pending && !Clears(cfg, ev) {
        var k :| 0 <= k < n - 1 && Unconsumed(cfg, t, events, k, n - 1);
        assert Unconsumed(cfg, t, events, k, n);
      }
      if Raises(cfg, u, ev) && !Clears(cfg, ev) {
        assert Unconsumed(cfg, t, events, n - 1, n);
      }
      if k :| 0 <= k < n && Unconsumed(cfg, t, events, k, n) {
        assert !Clears(cfg, events[n - 1]);
        assert k < n - 1 ==> Unconsumed(cfg, t, events, k, n - 1);
      }
    }
  }

  /**
   After an accepted change the next one is accepted again, exactly if the service has the
   focus and has no own change of mode in between that it could not write.
   */
  lemma NextChangeAcceptedIff(cfg: Config, t: Tsf, change: Event, between: seq<Event>, next: Event)
    requires Accepts(t, change) && AllOrdinary(between) && next.OpenCloseChanged?
    ensures var u := Handle(cfg, t, change);
            var v := Before(cfg, u, between, |between|);
            && v.tip.Some?
            && (Accepts(v, next)
                <==> v.tip.value.focus
                     && !exists k | 0 <= k < |between| :: Unconsumed(cfg, u, between, k, |between|))
  {
    PendingStep(cfg, t, change);
    PendingIffUnconsumed(cfg, Handle(cfg, t, change), between, |between|);
  }

  /** Two accepted changes in a row restore the mode: the user closes the keyboard and opens it again. */
  lemma ClosingAndReopening(cfg: Config, t: Tsf, first: Event, second: Event)
    requires Accepts(t, first) && second.OpenCloseChanged?
    ensures var u := Handle(cfg, t, first);
            var v := Handle(cfg, u, second);
            && Accepts(u, second) && v.tip.Some? && !v.tip.value.pending
            && v.tip.value.mode.IsDisabled() == t.tip.value.mode.IsDisabled()
            && (!cfg.enableCapsLock ==> v.tip.value.mode == t.tip.value.mode)
  {
    var u := Handle(cfg, t, first);
    PendingStep(cfg, t, first);
    FocusStep(cfg, t, first);
    PendingStep(cfg, u, second);
    ModeStep(cfg, t, first);
    ModeStep(cfg, u, second);
  }

  /** A started service has the flag pending, so it takes the first external change for its own. */
  lemma FirstChangeAfterStartIsLost(cfg: Config, t: Tsf, english: bool, env: Env, value: int)
    ensures var started := Handle(cfg, t, Activate(english, env));
            !Accepts(started, OpenCloseChanged(value, env)) && started.tip.value.focus
  {
  }

  // ----- The mode over whole runs -----

  /** Shift was held for less than the setting says; a negative setting counts as a number just below 2^64. */
  predicate InTime(cfg: Config, since: nat, now: nat) {
    var held := now - since;
    if cfg.shiftKeySensitivity < 0 then held < 0x1_0000_0000_0000_0000 + cfg.shiftKeySensitivity
    else 0 < cfg.shiftKeySensitivity && held < cfg.shiftKeySensitivity
  }

  /** Shift goes up in time after a press that nothing consumed; test events count only while input is enabled. */
  predicate Taps(cfg: Config, t: Tsf, ev: Event) {
    Releases(t, ev) && t.tip.value.shift.Down? && cfg.switchLangWithShift
    && InTime(cfg, t.tip.value.shift.since, ev.env.now)
  }

  /** toggle_lang_mode runs. */
  predicate Toggles(cfg: Config, t: Tsf, ev: Event) {
    t.tip.Some? && ((Taps(cfg, t, ev) && !cfg.enableCapsLock) || (ev.Command? && ev.toggles))
  }

  /** Whether an odd number of events of the run toggles the language. */
  predicate OddToggles(cfg: Config, t: Tsf, events: seq<Event>)
    decreases |events|
  {
    events != [] && (Toggles(cfg, t, events[0]) != OddToggles(cfg, Handle(cfg, t, events[0]), events[1..]))
  }

  predicate OddAccepted(cfg: Config, t: Tsf, events: seq<Event>)
    decreases |events|
  {
    events != [] && (Accepts(t, events[0]) != OddAccepted(cfg, Handle(cfg, t, events[0]), events[1..]))
  }

  predicate AllOrdinary(events: seq<Event>) {
    forall i | 0 <= i < |events| :: Ordinary(events[i])
  }

  /** The disabled bit after a run tells the parity of the accepted changes, in any configuration. */
  lemma {:induction false} DisabledIffOddAccepted(cfg: Config, t: Tsf, events: seq<Event>)
    requires t.tip.Some? && AllOrdinary(events)
    ensures var u := Exec(cfg, t, events);
            u.tip.Some? &&
            (u.tip.value.mode.IsDisabled() == (t.tip.value.mode.IsDisabled() != OddAccepted(cfg, t, events)))
    decreases |events|
  {
    if events != [] {
      assert Ordinary(events[0]);
      ModeStep(cfg, t, events[0]);
      DisabledIffOddAccepted(cfg, Handle(cfg, t, events[0]), events[1..]);
    }
  }

  /** Without CapsLock mode the language after a run is the first one, flipped once a toggle. */
  lemma {:induction false} LanguageIsParityOfToggles(cfg: Config, t: Tsf, events: seq<Event>)
    requires t.tip.Some? && AllOrdinary(events) && !cfg.enableCapsLock
    ensures var u := Exec(cfg, t, events);
            u.tip.Some? &&
            (u.tip.value.mode.IsChinese() == (t.tip.value.mode.IsChinese() != OddToggles(cfg, t, events)))
    decreases |events|
  {
    if events != [] {
      assert Ordinary(events[0]);
      ModeStep(cfg, t, events[0]);
      LanguageIsParityOfToggles(cfg, Handle(cfg, t, events[0]), events[1..]);
    }
  }

  /** Closing and reopening, with no toggle in between, restores the mode. */
  lemma ReopeningRestoresMode(cfg: Config, t: Tsf, events: seq<Event>)
    requires t.tip.Some? && AllOrdinary(events) && !cfg.enableCapsLock
    requires !OddToggles(cfg, t, events) && !OddAccepted(cfg, t, events)
    ensures Exec(cfg, t, events).tip.Some? && Exec(cfg, t, events).tip.value.mode == t.tip.value.mode
  {
    LanguageIsParityOfToggles(cfg, t, events);
    DisabledIffOddAccepted(cfg, t, events);
  }

  /** sync_lang_mode runs in the event. */
  predicate Syncs(cfg: Config, t: Tsf, ev: Event) {
    match ev
    case TestKeyUp(key, _) =>
      t.tip.Some? && !t.tip.value.mode.IsDisabled() && cfg.enableCapsLock && key.kind.CapsLockKey?
    case KeyUp(key, _) => t.tip.Some? && cfg.enableCapsLock && key.kind.CapsLockKey?
    case Command(toggles, _) => t.tip.Some? && toggles
    case ThreadFocus(env) => t.tip.Some? && env.fault != ContextFault
    case OpenCloseChanged(_, _) => Accepts(t, ev)
    case Activate(_, _) => true
    case _ => false
  }

  /** The CapsLock state seen by the latest sync of the run. */
  function LastCaps(cfg: Config, t: Tsf, events: seq<Event>, caps: bool): bool
    decreases |events|
  {
    if events == [] then caps
    else LastCaps(cfg, Handle(cfg, t, events[0]), events[1..],
                  if Syncs(cfg, t, events[0]) then events[0].env.capsOn else caps)
  }

  /** With CapsLock mode: the locked language while CapsLock is on, and the other one while it is off. */
  predicate Dictated(cfg: Config, caps: bool) {
    if cfg.lockChineseOnCapsLock then caps else !caps
  }

  /** An enabled service has the language that CapsLock dictates. */
  predicate ObeysCaps(cfg: Config, t: Tsf, caps: bool) {
    t.tip.Some? && !t.tip.value.mode.IsDisabled() ==> t.tip.value.mode.IsChinese() == Dictated(cfg, caps)
  }

  /**
   The language in any configuration: CapsLock mode dictates it to an enabled service at each
   sync; otherwise it flips exactly at toggles, while input is disabled as well.
   */
  lemma LanguageStep(cfg: Config, t: Tsf, ev: Event)
    requires t.tip.Some? && Ordinary(ev)
    ensures Handle(cfg, t, ev).tip.Some?
    ensures var mode := Handle(cfg, t, ev).tip.value.mode;
            mode.IsChinese()
            == if cfg.enableCapsLock && Syncs(cfg, t, ev) && !mode.IsDisabled() then Dictated(cfg, ev.env.capsOn)
               else t.tip.value.mode.IsChinese() != Toggles(cfg, t, ev)
  {
    var tip := t.tip.value;
    match ev
    case TestKeyUp(key, env) =>
      KeyUpMode(cfg, tip, key, env);
      if cfg.enableCapsLock { KeyUpLanguage(cfg, tip, key, env); }
      FinishKeyUpKeepsMode(cfg, t, OnTestKeyUp(cfg, tip, key, env), env);
    case KeyUp(key, env) =>
      KeyUpMode(cfg, tip, key, env);
      if cfg.enableCapsLock { KeyUpLanguage(cfg, tip, key, env); }
      FinishKeyUpKeepsMode(cfg, t.(keyBusy := false), OnKeyUp(cfg, tip, key, env), env);
    case Command(toggles, env) =>
      OwnWriteKeepsMode(cfg, t.(tip := Some(OnCommand(cfg, tip, toggles, env))), env);
    case ThreadFocus(env) =>
      OwnWriteKeepsMode(cfg, t.(tip := Some(OnThreadFocus(cfg, tip, env))), env);
    case _ =>
  }

  lemma KeyUpLanguage(cfg: Config, tip: Tip, key: Key, env: Env)
    requires cfg.enableCapsLock
    ensures OnKeyUp(cfg, tip, key, env).mode.IsChinese()
         == if key.kind.CapsLockKey? && !tip.mode.IsDisabled() then Dictated(cfg, env.capsOn) else tip.mode.IsChinese()
  {
  }

  predicate TipObeys(cfg: Config, tip: Tip, caps: bool) {
    !tip.mode.IsDisabled() ==> tip.mode.IsChinese() == Dictated(cfg, caps)
  }

  lemma KeyUpObeys(cfg: Config, tip: Tip, key: Key, env: Env, caps: bool)
    requires cfg.enableCapsLock && TipObeys(cfg, tip, caps)
    ensures TipObeys(cfg, OnKeyUp(cfg, tip, key, env), if key.kind.CapsLockKey? then env.capsOn else caps)
  {
  }

  lemma CommandObeys(cfg: Config, tip: Tip, toggles: bool, env: Env, caps: bool)
    requires cfg.enableCapsLock && TipObeys(cfg, tip, caps)
    ensures TipObeys(cfg, OnCommand(cfg, tip, toggles, env), if toggles then env.capsOn else caps)
  {
  }

  lemma CompartmentChangeObeys(cfg: Config, tip: Tip, capsOn: bool, caps: bool)
    requires cfg.enableCapsLock && TipObeys(cfg, tip, caps)
    ensures TipObeys(cfg, CompartmentChange(cfg, tip, capsOn), if !tip.pending && tip.focus then capsOn else caps)
  {
  }

  lemma CapsStep(cfg: Config, t: Tsf, ev: Event, caps: bool)
    requires cfg.enableCapsLock && ObeysCaps(cfg, t, caps)
    ensures ObeysCaps(cfg, Handle(cfg, t, ev), if Syncs(cfg, t, ev) then ev.env.capsOn else caps)
  {
    if t.tip.Some? {
      var tip := t.tip.value;
      match ev
      case TestKeyUp(key, env) =>
        KeyUpObeys(cfg, tip, key, env, caps);
        FinishKeyUpKeepsMode(cfg, t, OnTestKeyUp(cfg, tip, key, env), env);
      case KeyUp(key, env) =>
        KeyUpObeys(cfg, tip, key, env, caps);
        FinishKeyUpKeepsMode(cfg, t.(keyBusy := false), OnKeyUp(cfg, tip, key, env), env);
      case Command(toggles, env) =>
        CommandObeys(cfg, tip, toggles, env, caps);
        OwnWriteKeepsMode(cfg, t.(tip := Some(OnCommand(cfg, tip, toggles, env))), env);
      case ThreadFocus(env) => OwnWriteKeepsMode(cfg, t.(tip := Some(OnThreadFocus(cfg, tip, env))), env);
      case OpenCloseChanged(_, env) => CompartmentChangeObeys(cfg, tip, env.capsOn, caps);
      case _ =>
    }
  }

  /**
   With CapsLock mode, whatever happens from a stopped service on, an enabled service shows
   the language given by the CapsLock state of the latest sync.
   */
  lemma {:induction false} CapsLockDictatesLanguage(cfg: Config, t: Tsf, events: seq<Event>, caps: bool)
    requires cfg.enableCapsLock && ObeysCaps(cfg, t, caps)
    ensures ObeysCaps(cfg, Exec(cfg, t, events), LastCaps(cfg, t, events, caps))
    decreases |events|
  {
    if events != [] {
      var next := if Syncs(cfg, t, events[0]) then events[0].env.capsOn else caps;
      CapsStep(cfg, t, events[0], caps);
      CapsLockDictatesLanguage(cfg, Handle(cfg, t, events[0]), events[1..], next);
    }
  }

  // ----- Shift taps -----

  /** Shift state of the service; a stopped one has none. */
  function ShiftOf(t: Tsf): ShiftKeyState {
    if t.tip.Some? then t.tip.value.shift else Up
  }

  predicate KeyGoesDown(t: Tsf, ev: Event) {
    (ev.TestKeyDown? || ev.KeyDown?) && t.tip.Some? && ev.env.fault != ContextFault
  }

  /** The transition from Up to Down. */
  predicate Presses(cfg: Config, t: Tsf, ev: Event) {
    && KeyGoesDown(t, ev) && ev.env.fault != MessageFault
    && ev.key.kind.ShiftKey? && cfg.switchLangWithShift && ShiftOf(t).Up?
  }

  /** Another key is seen with Shift held. */
  predicate Consumes(t: Tsf, ev: Event) {
    KeyGoesDown(t, ev) && !ev.key.kind.ShiftKey? && ev.key.shiftOn
  }

  predicate Releases(t: Tsf, ev: Event) {
    && t.tip.Some?
    && ((ev.TestKeyUp? && !t.tip.value.mode.IsDisabled()) || ev.KeyUp?)
    && ev.key.kind.ShiftKey?
  }

  lemma OwnWriteKeepsShift(cfg: Config, t: Tsf, env: Env)
    requires t.tip.Some?
    ensures ShiftOf(SyncOpenClose(cfg, t, env)) == ShiftOf(t)
  {
  }

  lemma FinishKeyUpKeepsShift(cfg: Config, t: Tsf, tip: Tip, env: Env)
    ensures ShiftOf(FinishKeyUp(cfg, t, tip, env)) == tip.shift
  {
    OwnWriteKeepsShift(cfg, t.(tip := Some(tip)), env);
    OwnWriteKeepsMode(cfg, t.(tip := Some(tip)), env);
  }

  lemma ShiftStep(cfg: Config, t: Tsf, ev: Event)
    ensures ShiftOf(Handle(cfg, t, ev))
         == if Presses(cfg, t, ev) then Down(ev.env.now)
            else if Consumes(t, ev) then Consumed
            else if Releases(t, ev) || !Ordinary(ev) then Up
            else ShiftOf(t)
    ensures Taps(cfg, t, ev) ==> Releases(t, ev) && ShiftOf(t).Down?
  {
    if t.tip.Some? {
      var tip := t.tip.value;
      match ev
      case TestKeyUp(key, env) => FinishKeyUpKeepsShift(cfg, t, OnTestKeyUp(cfg, tip, key, env), env);
      case KeyUp(key, env) => FinishKeyUpKeepsShift(cfg, t.(keyBusy := false), OnKeyUp(cfg, tip, key, env), env);
      case Command(toggles, env) =>
        OwnWriteKeepsShift(cfg, t.(tip := Some(OnCommand(cfg, tip, toggles, env))), env);
      case ThreadFocus(env) =>
        OwnWriteKeepsShift(cfg, t.(tip := Some(OnThreadFocus(cfg, tip, env))), env);
      case _ =>
    }
  }

  /** The state before event `k` of the run. */
  function Before(cfg: Config, t: Tsf, events: seq<Event>, k: nat): Tsf
    requires k <= |events|
  {
    if k == 0 then t else Handle(cfg, Before(cfg, t, events, k - 1), events[k - 1])
  }

  predicate Touches(cfg: Config, t: Tsf, ev: Event) {
    Presses(cfg, t, ev) || Consumes(t, ev) || Releases(t, ev) || !Ordinary(ev)
  }

  /** Nothing touches the Shift state strictly between events `i` and `n`. */
  predicate Untouched(cfg: Config, t: Tsf, events: seq<Event>, i: nat, n: nat)
    requires n <= |events|
  {
    forall k | i < k < n :: !Touches(cfg, Before(cfg, t, events, k), events[k])
  }

  lemma UntouchedStep(cfg: Config, t: Tsf, ev: Event)
    requires !Presses(cfg, t, ev) && ShiftOf(Handle(cfg, t, ev)).Down?
    ensures !Touches(cfg, t, ev) && ShiftOf(t) == ShiftOf(Handle(cfg, t, ev))
  {
    ShiftStep(cfg, t, ev);
  }

  lemma {:induction false} DownHasPress(cfg: Config, t: Tsf, events: seq<Event>, n: nat) returns (i: nat)
    requires n <= |events| && !ShiftOf(t).Down? && ShiftOf(Before(cfg, t, events, n)).Down?
    ensures i < n && Presses(cfg, Before(cfg, t, events, i), events[i])
    ensures ShiftOf(Before(cfg, t, events, n)) == Down(events[i].env.now)
    ensures Untouched(cfg, t, events, i, n)
  {
    var u, ev := Before(cfg, t, events, n - 1), events[n - 1];
    if Presses(cfg, u, ev) {
      ShiftStep(cfg, u, ev);
      i := n - 1;
    } else {
      UntouchedStep(cfg, u, ev);
      i := DownHasPress(cfg, t, events, n - 1);
    }
  }

  /**
   Shift tap law. A tap at event `j` goes back to one transition from Up to Down, less than
   the sensitivity earlier; between the two no key was seen with Shift held, Shift was not
   released and the transition did not repeat, whatever mix of test and real key events ran.
   */
  lemma TapGoesBackToPress(cfg: Config, t: Tsf, events: seq<Event>, j: nat) returns (i: nat)
    requires j < |events| && !ShiftOf(t).Down? && Taps(cfg, Before(cfg, t, events, j), events[j])
    ensures i < j && Presses(cfg, Before(cfg, t, events, i), events[i])
    ensures InTime(cfg, events[i].env.now, events[j].env.now)
    ensures Untouched(cfg, t, events, i, j)
    ensures !ShiftOf(Before(cfg, t, events, j + 1)).Down?
  {
    var u := Before(cfg, t, events, j);
    ShiftStep(cfg, u, events[j]);
    i := DownHasPress(cfg, t, events, j);
  }

  /**
   A release of Shift from Down, with switching on and without CapsLock mode, flips the
   language if and only if Shift was held for less than the setting, in milliseconds.
   */
  lemma ReleaseTogglesIff(cfg: Config, t: Tsf, key: Key, env: Env)
    requires t.tip.Some? && t.tip.value.shift.Down? && key.kind.ShiftKey?
    requires cfg.switchLangWithShift && !cfg.enableCapsLock && cfg.shiftKeySensitivity >= 0
    ensures var held := env.now - t.tip.value.shift.since;
            var u := Handle(cfg, t, KeyUp(key, env));
            && u.tip.Some?
            && (u.tip.value.mode.IsChinese() != t.tip.value.mode.IsChinese()
                <==> 0 < cfg.shiftKeySensitivity && held < cfg.shiftKeySensitivity)
  {
    ModeStep(cfg, t, KeyUp(key, env));
  }

  /**
   A negative sensitivity is taken for a number just below 2^64, so that a release from Down
   toggles unless Shift was held for that many milliseconds.
   */
  lemma NegativeSensitivityTaps(cfg: Config, t: Tsf, key: Key, env: Env)
    requires t.tip.Some? && t.tip.value.shift.Down? && key.kind.ShiftKey?
    requires cfg.switchLangWithShift && !cfg.enableCapsLock && cfg.shiftKeySensitivity < 0
    ensures var held := env.now - t.tip.value.shift.since;
            var u := Handle(cfg, t, KeyUp(key, env));
            && u.tip.Some?
            && (u.tip.value.mode.IsChinese() != t.tip.value.mode.IsChinese()
                <==> held < 0x1_0000_0000_0000_0000 + cfg.shiftKeySensitivity)
  {
    ModeStep(cfg, t, KeyUp(key, env));
  }

  lemma {:induction false} StaysDown(cfg: Config, t: Tsf, events: seq<Event>, i: nat, j: nat)
    requires i < j <= |events| && Presses(cfg, Before(cfg, t, events, i), events[i]) && Untouched(cfg, t, events, i, j)
    ensures ShiftOf(Before(cfg, t, events, j)) == Down(events[i].env.now)
  {
    ShiftStep(cfg, Before(cfg, t, events, j - 1), events[j - 1]);
    if i < j - 1 {
      StaysDown(cfg, t, events, i, j - 1);
      assert !Touches(cfg, Before(cfg, t, events, j - 1), events[j - 1]);
    }
  }

  /** The other half of the tap law: a press left untouched until its release is a tap exactly if that is in time. */
  lemma PressAndReleaseIsTapIff(cfg: Config, t: Tsf, events: seq<Event>, i: nat, j: nat)
    requires i < j < |events| && Presses(cfg, Before(cfg, t, events, i), events[i]) && Untouched(cfg, t, events, i, j)
    requires Releases(Before(cfg, t, events, j), events[j])
    ensures Taps(cfg, Before(cfg, t, events, j), events[j]) <==> InTime(cfg, events[i].env.now, events[j].env.now)
    ensures Toggles(cfg, Before(cfg, t, events, j), events[j])
       <==> !cfg.enableCapsLock && InTime(cfg, events[i].env.now, events[j].env.now)
  {
    StaysDown(cfg, t, events, i, j);
  }

  function CountPresses(cfg: Config, t: Tsf, events: seq<Event>): nat
    decreases |events|
  {
    if events == [] then 0
    else (if Presses(cfg, t, events[0]) then 1 else 0) + CountPresses(cfg, Handle(cfg, t, events[0]), events[1..])
  }

  function CountTaps(cfg: Config, t: Tsf, events: seq<Event>): nat
    decreases |events|
  {
    if events == [] then 0
    else (if Taps(cfg, t, events[0]) then 1 else 0) + CountTaps(cfg, Handle(cfg, t, events[0]), events[1..])
  }

  /** Each transition from Up to Down pays for at most one tap. */
  lemma {:induction false} OneTapPerPress(cfg: Config, t: Tsf, events: seq<Event>)
    ensures CountTaps(cfg, t, events) <= CountPresses(cfg, t, events) + if ShiftOf(t).Down? then 1 else 0
    decreases |events|
  {
    if events != [] {
      ShiftStep(cfg, t, events[0]);
      OneTapPerPress(cfg, Handle(cfg, t, events[0]), events[1..]);
    }
  }
}
