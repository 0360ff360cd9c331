/**
 The callbacks of mod.rs over a reference-counted borrow flag. Every `borrow` and
 `borrow_mut` of the source is a call whose precondition is that it does not panic; calls
 that arrive while a callback runs are made from inside it.
 */
module TextService {
  import opened Wrappers
  import opened EditSession
  import opened Utf16
  import opened Composition
  import opened CompositionRuns
  import opened TipMode
  import opened ServiceRuns

  /** The borrow state of a RefCell: -1 while borrowed mutably, else the number of shared borrows. */
  class RefCell {
    var state: int

    constructor ()
      ensures state == 0
    {
      state := 0;
    }

    method BorrowMut()
      requires state == 0
      modifies this
      ensures state == -1
    {
      state := -1;
    }

    method TryBorrowMut() returns (obtained: bool)
      modifies this
      ensures obtained == (old(state) == 0)
      ensures state == if obtained then -1 else old(state)
    {
      obtained := state == 0;
      if obtained {
        state := -1;
      }
    }

    method ReleaseMut()
      requires state == -1
      modifies this
      ensures state == 0
    {
      state := 0;
    }

    method Borrow()
      requires state >= 0
      modifies this
      ensures state == old(state) + 1
    {
      state := state + 1;
    }

    method Release()
      requires state > 0
      modifies this
      ensures state == old(state) - 1
    {
      state := state - 1;
    }
  }

  /** The open/close compartment: it refuses writes made while it is notifying. */
  class Compartment {
    var value: int
    var notifying: bool

    constructor (value: int)
      ensures this.value == value && !notifying
    {
      this.value, notifying := value, false;
    }
  }

  /** The mode half of ChewingTextService. */
  class ChewingTextService {
    const cfg: Config
    var langMode: LangMode
    var pendingLangModeChange: bool
    var hasFocus: bool
    var shiftKeyState: ShiftKeyState

    ghost function Model(): Tip
      reads this
    {
      Tip(langMode, pendingLangModeChange, hasFocus, shiftKeyState)
    }

    constructor (cfg: Config, english: bool, capsOn: bool)
      ensures this.cfg == cfg && Model() == FreshTip(cfg, english, capsOn)
    {
      this.cfg := cfg;
      langMode := if english then English else Chinese;
      pendingLangModeChange, hasFocus, shiftKeyState := false, true, Up;
      new;
      SyncLangMode(true, capsOn);
    }

    method SyncLangMode(internal: bool, capsOn: bool)
      modifies this
      ensures Model() == TipMode.SyncLangMode(cfg, old(Model()), internal, capsOn)
      ensures pendingLangModeChange == internal
      ensures langMode == if old(langMode).IsDisabled() || !cfg.enableCapsLock then old(langMode)
                          else if cfg.lockChineseOnCapsLock && capsOn then Chinese
                          else if cfg.lockChineseOnCapsLock && !capsOn then English
                          else if !cfg.lockChineseOnCapsLock && capsOn then English
                          else Chinese
    {
      pendingLangModeChange := internal;
      if !langMode.IsDisabled() && cfg.enableCapsLock {
        var locked, unlocked := English, Chinese;
        if cfg.lockChineseOnCapsLock {
          locked, unlocked := Chinese, English;
        }
        langMode := if capsOn then locked else unlocked;
      }
    }

    /**
     Input stays enabled or disabled; the language is the other one, or the one that CapsLock
     dictates; the next compartment change counts as an own one.
     */
    method ToggleLangMode(capsOn: bool)
      modifies this
      ensures Model() == TipMode.ToggleLangMode(cfg, old(Model()), capsOn)
      ensures langMode.IsDisabled() == old(langMode).IsDisabled() && pendingLangModeChange
      ensures langMode.IsChinese()
           == if cfg.enableCapsLock && !langMode.IsDisabled() then cfg.lockChineseOnCapsLock == capsOn
              else !old(langMode).IsChinese()
    {
      langMode := langMode.FlipLanguage();
      SyncLangMode(true, capsOn);
    }

    method OnCompartmentChange(capsOn: bool)
      modifies this
      ensures Model() == CompartmentChange(cfg, old(Model()), capsOn)
    {
      var own := pendingLangModeChange;
      pendingLangModeChange := false;
      if !own && hasFocus {
        langMode := langMode.FlipOpenClose();
        SyncLangMode(false, capsOn);
      }
    }

    method OnTestKeyDown(key: Key, env: Env) returns (ok: bool)
      modifies this
      ensures ok == (env.fault == NoFault) && Model() == ShiftOnKeyDown(cfg, old(Model()), key, env)
    {
      if env.fault == ContextFault {
        return false;
      }
      if key.kind != ShiftKey && key.shiftOn {
        shiftKeyState := Consumed;
      }
      if env.fault == MessageFault {
        return false;
      }
      if key.kind == ShiftKey && cfg.switchLangWithShift && shiftKeyState.Up? {
        shiftKeyState := Down(env.now);
      }
      ok := env.fault == NoFault;
    }

    /** ShiftKeyState::release */
    method Release(now: nat) returns (duration: Option<nat>)
      modifies this
      ensures Model() == old(Model()).(shift := Up)
      ensures duration == match old(shiftKeyState)
                          case Down(since) => Some(if since <= now then now - since else 0)
                          case _ => None
    {
      duration := match shiftKeyState case Down(since) => Some(Elapsed(since, now)) case _ => None;
      shiftKeyState := Up;
    }

    method OnKeyUp(key: Key, env: Env)
      modifies this
      ensures Model() == TipMode.OnKeyUp(cfg, old(Model()), key, env)
    {
      if key.kind == ShiftKey {
        var duration := Release(env.now);
        if duration.Some? && duration.value < Sensitivity(cfg) && cfg.switchLangWithShift {
          if !cfg.enableCapsLock {
            ToggleLangMode(env.capsOn);
          }
        }
      }
      if cfg.enableCapsLock && key.kind == CapsLockKey {
        SyncLangMode(true, env.capsOn);
      }
    }

    method OnTestKeyUp(key: Key, env: Env)
      modifies this
      ensures Model() == TipMode.OnTestKeyUp(cfg, old(Model()), key, env)
    {
      if !langMode.IsDisabled() {
        OnKeyUp(key, env);
      }
    }
  }

  class TextService {
    const cfg: Config
    const inner: RefCell
    const compartment: Compartment
    var ts: ChewingTextService?
    var composition: Service   // the composition half of `ts`; CompositionService has it over heap cells
    var keyBusy: bool

    ghost predicate Valid()
      reads this, ts
    {
      (ts != null ==> ts.cfg == cfg) && WellFormed(composition)
    }

    ghost function Mode(): Tsf
      reads this, ts, compartment
    {
      Tsf(if ts == null then None else Some(ts.Model()), keyBusy, compartment.value)
    }

    /** Between two callbacks of the host: nothing is borrowed and no notification is under way. */
    ghost predicate Idle()
      reads this, ts, inner, compartment
    {
      Valid() && inner.state == 0 && !compartment.notifying
    }

    constructor (cfg: Config, compartment: Compartment, doc: Document)
      requires !compartment.notifying
      ensures Idle() && this.cfg == cfg && this.compartment == compartment
      ensures Mode() == Tsf(None, false, compartment.value)
      ensures composition == Composition.Service(doc, [None], 0, [], None, [], false)
    {
      this.cfg, this.compartment, ts := cfg, compartment, null;
      inner := new RefCell();
      composition := Composition.Service(doc, [None], 0, [], None, [], false);
      keyBusy := false;
    }

    // ----- Callbacks that may arrive inside others -----

    /** A termination is handled at once if nothing is borrowed, and left to a tail handler otherwise. */
    method OnCompositionTerminated(succeeds: bool)
      requires Valid()
      modifies this`composition, inner
      ensures Valid() && inner.state == old(inner.state)
      ensures old(inner.state) != 0 ==> composition == old(composition).(terminated := true)
      ensures old(inner.state) == 0 ==>
                composition == if ts != null && succeeds then TerminatedTail(old(composition)) else old(composition)
    {
      var obtained := inner.TryBorrowMut();
      if !obtained {
        composition := composition.(terminated := true);
        return;
      }
      if ts != null && succeeds {
        composition := TerminatedTail(composition);
      }
      inner.ReleaseMut();
    }

    /** When the focus leaves a context while something is being composed, the composition is closed. */
    method OnSetFocus(gained: bool, hasContext: bool, candidatesShown: bool)
      requires Valid() && (keyBusy || inner.state == 0)
      modifies ts, inner, this`composition
      ensures Valid() && inner.state == old(inner.state)
      ensures Mode() == Handle(cfg, old(Mode()), FocusChange(gained, hasContext, candidatesShown))
      ensures composition
           == HandleComposition(cfg, old(Mode()), old(composition), FocusChange(gained, hasContext, candidatesShown))
    {
      if keyBusy {
        return;
      }
      inner.BorrowMut();
      if ts != null {
        ts.hasFocus := gained;
        if !gained && hasContext && IsComposing(composition, candidatesShown) {
          PerformOne(composition, Ask(End));
          StepKeepsWellFormed(composition, Ask(End));
          composition := RequestEnd(composition);
        }
      }
      inner.ReleaseMut();
    }

    /** The application terminates the composition and tells the service. */
    method AppTerminates(l: seq<CodeUnit>, m: seq<CodeUnit>, r: seq<CodeUnit>, succeeds: bool)
      requires Valid() && (inner.state == 0 ==> ts != null)
      modifies this`composition, inner
      ensures Valid() && inner.state == old(inner.state)
      ensures var h := if inner.state != 0 then Deferred else if succeeds then AtOnce else Failed;
              composition == Step(old(composition), Terminate(h, l, m, r))
    {
      composition := composition.(doc := Replaced(composition.doc, l, m, r));
      OnCompositionTerminated(succeeds);
    }

    /** What happens while a borrow is held: focus changes only while a key is busy, terminations at any time. */
    method ReceiveArrivals(arrivals: seq<Arrival>)
      requires Valid() && inner.state != 0
      requires forall i | 0 <= i < |arrivals| && arrivals[i].Meanwhile? :: Nested(arrivals[i].event)
      requires FocusArrives in arrivals ==> keyBusy
      modifies ts, inner, this`composition
      ensures Valid() && inner.state == old(inner.state)
      ensures Mode() == old(Mode())
      ensures composition == Perform(old(composition), Events(arrivals))
    {
      ghost var before := composition;
      for i := 0 to |arrivals|
        invariant Valid() && inner.state == old(inner.state)
        invariant Mode() == old(Mode())
        invariant composition == Perform(before, Events(arrivals[..i]))
      {
        EventsSnoc(before, arrivals, i);
        match arrivals[i] {
          case Meanwhile(ev) =>
            if ev.Terminate? {
              AppTerminates(ev.left, ev.mid, ev.right, true);
            } else {
              StepKeepsWellFormed(composition, ev);
              composition := Step(composition, ev);
            }
          case FocusArrives => OnSetFocus(true, false, false);
        }
      }
      assert arrivals[..|arrivals|] == arrivals;
    }

    // ----- The compartment and its notification call each other -----

    /**
     ITfCompartment::SetValue, called with the service borrowed shared. It notifies the service
     in turn; the recursion ends because a write from inside the notification is refused.
     */
    method SetValue(value: int, env: Env)
      requires Valid() && ts != null && inner.state > 0 && cfg.syncLangModeOpenClose
      requires Admits(env, true)
      modifies ts, inner, compartment, this`composition
      ensures Valid() && inner.state == old(inner.state) && compartment.notifying == old(compartment.notifying)
      ensures old(compartment.notifying) ==> Mode() == old(Mode()) && composition == old(composition)
      ensures !old(compartment.notifying) ==>
                && Mode() == old(Mode()).(openClose := value,
                                          tip := Some(CompartmentChange(cfg, old(ts.Model()), env.capsOn)))
                && composition == Perform(old(composition), Events(env.writeArrivals))
      decreases if compartment.notifying then 0 else 1, 1
    {
      if compartment.notifying {
        return;
      }
      ReceiveArrivals(env.writeArrivals);
      Notify(value, env.(writeArrivals := []));
    }

    /** The compartment takes the value and notifies the service, which may still be borrowed shared. */
    method Notify(value: int, env: Env)
      requires Valid() && ts != null && inner.state > 0 && cfg.syncLangModeOpenClose && !compartment.notifying
      requires Admits(env, true) && env.writeArrivals == []
      modifies ts, inner, compartment, this`composition
      ensures Valid() && inner.state == old(inner.state) && !compartment.notifying
      ensures composition == old(composition)
      ensures Mode() == old(Mode()).(openClose := value,
                                     tip := Some(CompartmentChange(cfg, old(ts.Model()), env.capsOn)))
      decreases 1, 0
    {
      compartment.value := value;
      compartment.notifying := true;
      OnChange(env);
      compartment.notifying := false;
    }

    /** ReentrantOps::sync_keyboard_openclose, called with the service borrowed shared. */
    method SyncKeyboardOpenClose(force: bool, env: Env) returns (ok: bool)
      requires Valid() && ts != null && inner.state > 0 && Admits(env, true)
      requires force <==> compartment.notifying
      requires force ==> cfg.syncLangModeOpenClose
      modifies ts, inner, compartment, this`composition
      ensures Valid() && inner.state == old(inner.state) && compartment.notifying == old(compartment.notifying)
      ensures !force ==>
                && Mode() == SyncOpenClose(cfg, old(Mode()), env)
                && composition == Perform(old(composition), SyncEvents(cfg, old(ts.Model()), env))
                && ok == !(TipMode.Writes(cfg, old(ts.Model())) && env.syncFails)
      ensures force ==> Mode() == old(Mode()) && composition == old(composition)
      decreases if compartment.notifying then 0 else 1, 2
    {
      ok := true;
      if !force && !ts.pendingLangModeChange {
        return;
      }
      if !cfg.syncLangModeOpenClose {
        ts.pendingLangModeChange := false;
        return;
      }
      if env.syncFails {
        return false;
      }
      SetValue(ts.langMode.OpenClose(), env);
    }

    /** OnChange of the compartment. It may run under a shared borrow, never under a mutable one. */
    method OnChange(env: Env)
      requires Valid() && inner.state >= 0 && compartment.notifying
      requires inner.state > 0 ==> ts != null && cfg.syncLangModeOpenClose
      requires Admits(env, keyBusy || inner.state > 0)
      modifies ts, inner, compartment, this`composition
      ensures Valid() && inner.state == old(inner.state) && compartment.notifying
      ensures Mode() == Handle(cfg, old(Mode()), OpenCloseChanged(old(compartment.value), env))
      ensures composition
           == HandleComposition(cfg, old(Mode()), old(composition), OpenCloseChanged(old(compartment.value), env))
      decreases if compartment.notifying then 0 else 1, 3
    {
      inner.Borrow();
      var shouldSync := ts != null && cfg.syncLangModeOpenClose;
      inner.Release();
      if shouldSync {
        inner.Borrow();
        ReceiveArrivals(env.writeArrivals);
        ts.OnCompartmentChange(env.capsOn);
        var ok := SyncKeyboardOpenClose(true, env);
        inner.Release();
      } else {
        var obtained := inner.TryBorrowMut();
        if !obtained {
          assert false;
          return;
        }
        if ts != null {
          ChangeUnsynced(env);
        }
        inner.ReleaseMut();
      }
    }

    /** The part of OnChange that holds the mutable borrow. */
    method ChangeUnsynced(env: Env)
      requires Valid() && ts != null && inner.state != 0 && !cfg.syncLangModeOpenClose && Admits(env, keyBusy)
      modifies ts, inner, this`composition
      ensures Valid() && inner.state == old(inner.state)
      ensures Mode() == old(Mode()).(tip := Some(CompartmentChange(cfg, old(ts.Model()), env.capsOn)))
      ensures composition == Perform(old(composition), ChangeEvents(cfg, old(composition), old(ts.Model()), env))
    {
      ghost var before, tip := composition, ts.Model();
      ReceiveArrivals(env.arrivals);
      PerformAppend(before, Events(env.arrivals),
                    CloseRequests(composition, tip, CompartmentChange(cfg, tip, env.capsOn), env));
      CommitIfTurnedOff(env);
    }

    /** on_compartment_change */
    method CommitIfTurnedOff(env: Env)
      requires Valid() && ts != null
      modifies ts, this`composition
      ensures Valid()
      ensures ts.Model() == CompartmentChange(cfg, old(ts.Model()), env.capsOn)
      ensures composition
           == Perform(old(composition), CloseRequests(old(composition), old(ts.Model()), ts.Model(), env))
    {
      ghost var before := composition;
      var external := !ts.pendingLangModeChange && ts.hasFocus;
      ts.OnCompartmentChange(env.capsOn);
      if external && env.fault == NoFault && IsComposing(composition, env.candidatesShown)
         && ts.langMode.IsDisabled() {
        var cleared := Edit(env.commit, "", [], 0);
        PerformTwo(before, Ask(Set(cleared)), Ask(End));
        StepKeepsWellFormed(composition, Ask(Set(cleared)));
        composition := RequestSet(composition, cleared);
        StepKeepsWellFormed(composition, Ask(End));
        composition := RequestEnd(composition);
      }
    }

    // ----- Callbacks from the host -----

    /** Only what the host may send during a callback happens in it. */
    ghost predicate Admits(env: Env, busy: bool) {
      ProperEnv(env) && FocusArrives !in env.writeArrivals && (FocusArrives in env.arrivals ==> busy)
    }

    /** tail_handler; it always obtains the borrow. */
    method TailHandler()
      requires Idle() && ts != null
      modifies inner, this`composition
      ensures Idle()
      ensures composition == Step(old(composition), Tail)
    {
      var terminated := composition.terminated;
      composition := composition.(terminated := false);
      if terminated {
        var obtained := inner.TryBorrowMut();
        assert obtained;
        composition := TerminatedTail(composition);
        inner.ReleaseMut();
      }
    }

    method OnTestKeyDown(key: Key, env: Env)
      requires Idle() && Admits(env, keyBusy)
      modifies ts, inner, this`composition
      ensures Idle() && Mode() == Handle(cfg, old(Mode()), TestKeyDown(key, env))
      ensures composition == HandleComposition(cfg, old(Mode()), old(composition), TestKeyDown(key, env))
    {
      HandleKeyDown(key, env);
    }

    method OnKeyDown(key: Key, env: Env)
      requires Idle() && Admits(env, true)
      modifies this`keyBusy, ts, inner, this`composition
      ensures Idle() && Mode() == Handle(cfg, old(Mode()), KeyDown(key, env))
      ensures composition == HandleComposition(cfg, old(Mode()), old(composition), KeyDown(key, env))
    {
      keyBusy := true;
      HandleKeyDown(key, env);
    }

    /** The common part of the two key-down callbacks; on_keydown begins with on_test_keydown. */
    method HandleKeyDown(key: Key, env: Env)
      requires Idle() && Admits(env, keyBusy)
      modifies ts, inner, this`composition
      ensures Idle()
      ensures Mode() == if ts == null then old(Mode())
                        else old(Mode()).(tip := Some(ShiftOnKeyDown(cfg, old(ts.Model()), key, env)))
      ensures composition == if ts == null then old(composition) else Perform(old(composition), KeyDownEvents(env))
    {
      ghost var before := composition;
      inner.BorrowMut();
      if ts == null {
        inner.ReleaseMut();
        return;
      }
      ReceiveArrivals(env.arrivals);
      var ok := ts.OnTestKeyDown(key, env);
      inner.ReleaseMut();
      if ok {
        PerformThen(before, Events(env.arrivals), Tail);
        TailHandler();
      } else {
        assert Events(env.arrivals) + [] == Events(env.arrivals);
      }
    }

    method OnTestKeyUp(key: Key, env: Env)
      requires Idle() && Admits(env, keyBusy)
      modifies ts, inner, compartment, this`composition
      ensures Idle() && Mode() == Handle(cfg, old(Mode()), TestKeyUp(key, env))
      ensures composition == HandleComposition(cfg, old(Mode()), old(composition), TestKeyUp(key, env))
    {
      ghost var before := composition;
      inner.BorrowMut();
      if ts == null {
        inner.ReleaseMut();
        return;
      }
      ReceiveArrivals(env.arrivals);
      ts.OnTestKeyUp(key, env);
      inner.ReleaseMut();
      if env.fault == NoFault {
        KeyUpPerforms(cfg, before, ts.Model(), env);
        SyncAndTail(env);
      }
    }

    method OnKeyUp(key: Key, env: Env)
      requires Idle() && Admits(env, false)
      modifies this`keyBusy, ts, inner, compartment, this`composition
      ensures Idle() && Mode() == Handle(cfg, old(Mode()), KeyUp(key, env))
      ensures composition == HandleComposition(cfg, old(Mode()), old(composition), KeyUp(key, env))
    {
      ghost var before := composition;
      keyBusy := false;
      inner.BorrowMut();
      if ts == null {
        inner.ReleaseMut();
        return;
      }
      ReceiveArrivals(env.arrivals);
      ts.OnKeyUp(key, env);
      inner.ReleaseMut();
      if env.fault == NoFault {
        KeyUpPerforms(cfg, before, ts.Model(), env);
        SyncAndTail(env);
      }
    }

    /** The end of a key-up callback whose handler succeeded. */
    method SyncAndTail(env: Env)
      requires Idle() && ts != null && Admits(env, keyBusy)
      modifies ts, inner, compartment, this`composition
      ensures Idle()
      ensures Mode() == SyncOpenClose(cfg, old(Mode()), env)
      ensures var synced := Perform(old(composition), SyncEvents(cfg, old(ts.Model()), env));
              composition
                == if TipMode.Writes(cfg, old(ts.Model())) && env.syncFails then synced else Perform(synced, [Tail])
    {
      inner.Borrow();
      var ok := SyncKeyboardOpenClose(false, env);
      inner.Release();
      if ok {
        PerformOne(composition, Tail);
        TailHandler();
      }
    }

    method OnCommand(toggles: bool, env: Env)
      requires Idle() && Admits(env, keyBusy)
      modifies ts, inner, compartment, this`composition
      ensures Idle() && Mode() == Handle(cfg, old(Mode()), Command(toggles, env))
      ensures composition == HandleComposition(cfg, old(Mode()), old(composition), Command(toggles, env))
    {
      ghost var before := composition;
      inner.BorrowMut();
      if ts == null {
        inner.ReleaseMut();
        return;
      }
      ReceiveArrivals(env.arrivals);
      if toggles {
        ts.ToggleLangMode(env.capsOn);
      }
      inner.ReleaseMut();
      PerformAppend(before, Events(env.arrivals), SyncEvents(cfg, ts.Model(), env));
      inner.Borrow();
      var ok := SyncKeyboardOpenClose(false, env);
      inner.Release();
    }

    method OnSetThreadFocus(env: Env)
      requires Idle() && Admits(env, keyBusy)
      modifies ts, inner, compartment, this`composition
      ensures Idle() && Mode() == Handle(cfg, old(Mode()), ThreadFocus(env))
      ensures composition == HandleComposition(cfg, old(Mode()), old(composition), ThreadFocus(env))
    {
      ghost var before := composition;
      inner.BorrowMut();
      if ts == null {
        inner.ReleaseMut();
        return;
      }
      ReceiveArrivals(env.arrivals);
      if env.fault != ContextFault {
        ts.SyncLangMode(true, env.capsOn);
      }
      inner.ReleaseMut();
      assert Events(env.arrivals) + [] == Events(env.arrivals);
      if env.fault == NoFault {
        PerformAppend(before, Events(env.arrivals), SyncEvents(cfg, ts.Model(), env));
        inner.Borrow();
        var ok := SyncKeyboardOpenClose(false, env);
        inner.Release();
      }
    }

    /** Somebody else changes the compartment. */
    method OpenCloseChanges(value: int, env: Env)
      requires Idle() && Admits(env, keyBusy)
      modifies ts, inner, compartment, this`composition
      ensures Idle() && Mode() == Handle(cfg, old(Mode()), OpenCloseChanged(value, env))
      ensures composition == HandleComposition(cfg, old(Mode()), old(composition), OpenCloseChanged(value, env))
    {
      compartment.value := value;
      compartment.notifying := true;
      OnChange(env);
      compartment.notifying := false;
    }

    /** Between two callbacks: a session runs, or the application edits the document or terminates the composition. */
    method HostActs(ev: Composition.Event)
      requires Idle() && BetweenCallbacks(ev) && (ev.Terminate? ==> ts != null)
      modifies inner, this`composition
      ensures Idle() && Mode() == old(Mode())
      ensures composition == HandleComposition(cfg, old(Mode()), old(composition), TipMode.Host(ev))
    {
      PerformOne(composition, ev);
      if ev.Terminate? {
        AppTerminates(ev.left, ev.mid, ev.right, ev.handling.AtOnce?);
      } else {
        StepKeepsWellFormed(composition, ev);
        composition := Step(composition, ev);
      }
    }

    /** A new service opens the keyboard; nobody listens to the compartment yet. */
    method Activate(english: bool, env: Env)
      requires Idle()
      modifies this`ts, this`composition, inner, compartment
      ensures Idle() && Mode() == Handle(cfg, old(Mode()), TipMode.Activate(english, env))
      ensures composition == HandleComposition(cfg, old(Mode()), old(composition), TipMode.Activate(english, env))
    {
      inner.BorrowMut();
      composition := Started(composition);
      compartment.value := 1;
      ts := new ChewingTextService(cfg, english, env.capsOn);
      inner.ReleaseMut();
    }

    method Deactivate()
      requires Idle()
      modifies this`ts, inner
      ensures Idle() && Mode() == Handle(cfg, old(Mode()), TipMode.Deactivate)
      ensures composition == HandleComposition(cfg, old(Mode()), old(composition), TipMode.Deactivate)
    {
      inner.BorrowMut();
      ts := null;
      inner.ReleaseMut();
    }
  }

  // ----- Performing events one by one -----

  lemma PerformOne(s: Service, ev: Composition.Event)
    ensures Perform(s, [ev]) == Do(s, ev)
  {
    assert [ev][1..] == [];
    assert Perform(s, [ev]) == Perform(Do(s, ev), []);
  }

  lemma PerformThen(s: Service, events: seq<Composition.Event>, ev: Composition.Event)
    ensures Perform(s, events + [ev]) == Do(Perform(s, events), ev)
  {
    PerformAppend(s, events, [ev]);
    PerformOne(Perform(s, events), ev);
  }

  lemma PerformTwo(s: Service, a: Composition.Event, b: Composition.Event)
    ensures Perform(s, [a, b]) == Do(Do(s, a), b)
  {
    assert [a] + [b] == [a, b];
    PerformOne(s, a);
    PerformThen(s, [a], b);
  }

  lemma EventsSnoc(s: Service, arrivals: seq<Arrival>, i: nat)
    requires i < |arrivals|
    ensures var before := Perform(s, Events(arrivals[..i]));
            && Perform(s, Events(arrivals[..i + 1]))
               == match arrivals[i] case Meanwhile(ev) => Do(before, ev) case FocusArrives => before
  {
    var events := Events(arrivals[..i]);
    assert arrivals[..i + 1][..i] == arrivals[..i];
    match arrivals[i] {
      case Meanwhile(ev) => PerformThen(s, events, ev);
      case FocusArrives => assert events + [] == events;
    }
  }

  lemma KeyUpPerforms(cfg: Config, s: Service, tip: Tip, env: Env)
    requires env.fault == NoFault
    ensures var synced := Perform(Perform(s, Events(env.arrivals)), SyncEvents(cfg, tip, env));
            && Perform(s, KeyUpEvents(cfg, tip, env))
               == if TipMode.Writes(cfg, tip) && env.syncFails then synced else Perform(synced, [Tail])
  {
    var a, b := Events(env.arrivals), SyncEvents(cfg, tip, env);
    PerformAppend(s, a, b);
    PerformAppend(s, a + b, [Tail]);
    assert a + b + [] == a + b;
  }
}
