/**
 Language mode, Shift key and open/close compartment of the text service, on values: what
 each callback of mod.rs does to the fields of TextService and ChewingTextService, and which
 events of the composition protocol it consists of.
 */
module TipMode {
  import opened Wrappers
  import EditSession
  import Composition

  datatype LangMode = Chinese | English | DisabledChinese | DisabledEnglish {
    predicate IsDisabled() {
      DisabledChinese? || DisabledEnglish?
    }

    /** The LanguageMode that the editor works in. */
    predicate IsChinese() {
      Chinese? || DisabledChinese?
    }

    function FlipLanguage(): LangMode {
      match this
      case English => Chinese
      case Chinese => English
      case DisabledEnglish => DisabledChinese
      case DisabledChinese => DisabledEnglish
    }

    function FlipOpenClose(): LangMode {
      match this
      case Chinese => DisabledChinese
      case English => DisabledEnglish
      case DisabledChinese => Chinese
      case DisabledEnglish => English
    }

    /** The value written to the open/close compartment. */
    function OpenClose(): int {
      if Chinese? then 1 else 0
    }
  }

  datatype ShiftKeyState = Down(since: nat) | Consumed | Up

  type Int32 = i: int | -0x8000_0000 <= i < 0x8000_0000

  datatype Config = Config(
    switchLangWithShift: bool, shiftKeySensitivity: Int32,
    enableCapsLock: bool, lockChineseOnCapsLock: bool, syncLangModeOpenClose: bool)

  /** The fields of ChewingTextService that the mode logic uses. */
  datatype Tip = Tip(mode: LangMode, pending: bool, focus: bool, shift: ShiftKeyState)

  /** The fields of TextService that the mode logic uses, and the compartment. */
  datatype Tsf = Tsf(tip: Option<Tip>, keyBusy: bool, openClose: int)

  datatype KeyKind = ShiftKey | CapsLockKey | OtherKey

  datatype Key = Key(kind: KeyKind, shiftOn: bool)

  /** How far a handler gets: the document query and the message to the host can fail before the Shift logic is done. */
  datatype Fault = NoFault | ContextFault | MessageFault | LateFault

  /** What happens while a callback runs: an event of the composition protocol, or a change of focus. */
  datatype Arrival = Meanwhile(event: Composition.Event) | FocusArrives

  /**
   What the surroundings contribute to one callback. `arrivals` happens while the service is
   borrowed for the handler, whose own requests are among it; `writeArrivals` happens while
   it is borrowed for a compartment write.
   */
  datatype Env = Env(
    now: nat, capsOn: bool, fault: Fault, syncFails: bool, candidatesShown: bool, commit: string,
    arrivals: seq<Arrival>, writeArrivals: seq<Arrival>)

  datatype Event =
    | TestKeyDown(key: Key, env: Env)
    | KeyDown(key: Key, env: Env)
    | TestKeyUp(key: Key, env: Env)
    | KeyUp(key: Key, env: Env)
    | Command(toggles: bool, env: Env)
    | ThreadFocus(env: Env)
    | FocusChange(gained: bool, hasContext: bool, candidatesShown: bool)
    | OpenCloseChanged(value: int, env: Env)
    | Activate(english: bool, env: Env)
    | Deactivate
    | Host(event: Composition.Event)   // between two callbacks

  // ----- ChewingTextService -----

  /** The language that CapsLock mode dictates. */
  predicate ForcedChinese(cfg: Config, capsOn: bool) {
    capsOn == cfg.lockChineseOnCapsLock
  }

  /** sync_lang_mode */
  function SyncLangMode(cfg: Config, tip: Tip, internal: bool, capsOn: bool): Tip {
    tip.(pending := internal,
         mode := if !tip.mode.IsDisabled() && cfg.enableCapsLock
                 then if ForcedChinese(cfg, capsOn) then Chinese else English
                 else tip.mode)
  }

  /** toggle_lang_mode */
  function ToggleLangMode(cfg: Config, tip: Tip, capsOn: bool): Tip {
    SyncLangMode(cfg, tip.(mode := tip.mode.FlipLanguage()), true, capsOn)
  }

  /** on_compartment_change_ro and the same part of on_compartment_change */
  function CompartmentChange(cfg: Config, tip: Tip, capsOn: bool): Tip {
    if !tip.pending && tip.focus then
      SyncLangMode(cfg, tip.(mode := tip.mode.FlipOpenClose()), false, capsOn)
    else
      tip.(pending := false)
  }

  /** The Shift part of on_test_keydown, which on_keydown runs as well. */
  function ShiftOnKeyDown(cfg: Config, tip: Tip, key: Key, env: Env): Tip {
    if env.fault == ContextFault then tip
    else
      var seen := if !key.kind.ShiftKey? && key.shiftOn then tip.(shift := Consumed) else tip;
      if env.fault != MessageFault && key.kind.ShiftKey? && cfg.switchLangWithShift && seen.shift.Up?
      then seen.(shift := Down(env.now)) else seen
  }

  /** Time since a press; a clock that went backwards counts as none. */
  function Elapsed(since: nat, now: nat): nat {
    if now < since then 0 else now - since
  }

  /** The sensitivity in milliseconds: the source casts the signed setting to 64 unsigned bits. */
  function Sensitivity(cfg: Config): nat {
    if cfg.shiftKeySensitivity < 0 then cfg.shiftKeySensitivity + 0x1_0000_0000_0000_0000 else cfg.shiftKeySensitivity
  }

  /** A release that counts as a tap. */
  predicate IsTap(cfg: Config, shift: ShiftKeyState, key: Key, now: nat) {
    && key.kind.ShiftKey? && shift.Down?
    && Elapsed(shift.since, now) < Sensitivity(cfg) && cfg.switchLangWithShift
  }

  /** on_keyup */
  function OnKeyUp(cfg: Config, tip: Tip, key: Key, env: Env): Tip {
    var released := if key.kind.ShiftKey? then tip.(shift := Up) else tip;
    var tapped :=
      if IsTap(cfg, tip.shift, key, env.now) && !cfg.enableCapsLock
      then ToggleLangMode(cfg, released, env.capsOn) else released;
    if cfg.enableCapsLock && key.kind.CapsLockKey? then SyncLangMode(cfg, tapped, true, env.capsOn) else tapped
  }

  /** on_test_keyup */
  function OnTestKeyUp(cfg: Config, tip: Tip, key: Key, env: Env): Tip {
    if tip.mode.IsDisabled() then tip else OnKeyUp(cfg, tip, key, env)
  }

  // ----- TextService -----

  predicate Writes(cfg: Config, tip: Tip) {
    tip.pending && cfg.syncLangModeOpenClose
  }

  /**
   sync_keyboard_openclose(false) outside of a compartment callback: a write is followed by
   the nested OnChange, whose own write is refused.
   */
  function SyncOpenClose(cfg: Config, t: Tsf, env: Env): Tsf
    requires t.tip.Some?
  {
    var tip := t.tip.value;
    if !tip.pending then t
    else if !cfg.syncLangModeOpenClose then t.(tip := Some(tip.(pending := false)))
    else if env.syncFails then t
    else t.(openClose := tip.mode.OpenClose(), tip := Some(CompartmentChange(cfg, tip, env.capsOn)))
  }

  /** From the handler of a key-up callback to its end. */
  function FinishKeyUp(cfg: Config, t: Tsf, tip: Tip, env: Env): Tsf {
    var handled := t.(tip := Some(tip));
    if env.fault != NoFault then handled else SyncOpenClose(cfg, handled, env)
  }

  function FreshTip(cfg: Config, english: bool, capsOn: bool): Tip {
    SyncLangMode(cfg, Tip(if english then English else Chinese, false, true, Up), true, capsOn)
  }

  /** The handler of OnSetThreadFocus. */
  function OnThreadFocus(cfg: Config, tip: Tip, env: Env): Tip {
    if env.fault == ContextFault then tip else SyncLangMode(cfg, tip, true, env.capsOn)
  }

  /** The handler of a command. */
  function OnCommand(cfg: Config, tip: Tip, toggles: bool, env: Env): Tip {
    if toggles then ToggleLangMode(cfg, tip, env.capsOn) else tip
  }

  /** One callback from outside, with everything that happens inside it. */
  function Handle(cfg: Config, t: Tsf, ev: Event): Tsf {
    match ev
    case TestKeyDown(key, env) =>
      if t.tip.None? then t else t.(tip := Some(ShiftOnKeyDown(cfg, t.tip.value, key, env)))
    case KeyDown(key, env) =>
      var busy := t.(keyBusy := true);
      if t.tip.None? then busy else busy.(tip := Some(ShiftOnKeyDown(cfg, t.tip.value, key, env)))
    case TestKeyUp(key, env) =>
      if t.tip.None? then t else FinishKeyUp(cfg, t, OnTestKeyUp(cfg, t.tip.value, key, env), env)
    case KeyUp(key, env) =>
      var idle := t.(keyBusy := false);
      if t.tip.None? then idle else FinishKeyUp(cfg, idle, OnKeyUp(cfg, t.tip.value, key, env), env)
    case Command(toggles, env) =>
      if t.tip.None? then t
      else SyncOpenClose(cfg, t.(tip := Some(OnCommand(cfg, t.tip.value, toggles, env))), env)
    case ThreadFocus(env) =>
      if t.tip.None? then t
      else
        var handled := t.(tip := Some(OnThreadFocus(cfg, t.tip.value, env)));
        if env.fault != NoFault then handled else SyncOpenClose(cfg, handled, env)
    case FocusChange(gained, _, _) =>
      if t.keyBusy || t.tip.None? then t else t.(tip := Some(t.tip.value.(focus := gained)))
    case OpenCloseChanged(value, env) =>
      // A write that answers the change is refused.
      var changed := t.(openClose := value);
      if t.tip.None? then changed else changed.(tip := Some(CompartmentChange(cfg, t.tip.value, env.capsOn)))
    case Activate(english, env) => t.(tip := Some(FreshTip(cfg, english, env.capsOn)), openClose := 1)
    case Deactivate => t.(tip := None)
    case Host(_) => t
  }

  // ----- The composition events of a callback -----

  function Events(arrivals: seq<Arrival>): seq<Composition.Event> {
    if arrivals == [] then []
    else
      var last := arrivals[|arrivals| - 1];
      Events(arrivals[..|arrivals| - 1]) + if last.Meanwhile? then [last.event] else []
  }

  function SyncEvents(cfg: Config, tip: Tip, env: Env): seq<Composition.Event> {
    if Writes(cfg, tip) && !env.syncFails then Events(env.writeArrivals) else []
  }

  /** A key callback that gets this far runs the tail handler, unless the write failed. */
  function KeyUpEvents(cfg: Config, tip: Tip, env: Env): seq<Composition.Event> {
    if env.fault != NoFault then Events(env.arrivals)
    else
      Events(env.arrivals) + SyncEvents(cfg, tip, env)
        + if Writes(cfg, tip) && env.syncFails then [] else [Composition.Tail]
  }

  function KeyDownEvents(env: Env): seq<Composition.Event> {
    Events(env.arrivals) + if env.fault == NoFault then [Composition.Tail] else []
  }

  /** The requests of on_compartment_change once the keyboard has been closed. */
  function CloseRequests(s: Composition.Service, before: Tip, after: Tip, env: Env): seq<Composition.Event> {
    if !before.pending && before.focus && env.fault == NoFault
       && Composition.IsComposing(s, env.candidatesShown) && after.mode.IsDisabled()
    then [Composition.Ask(Composition.Set(EditSession.Edit(env.commit, "", [], 0))), Composition.Ask(Composition.End)]
    else []
  }

  function ChangeEvents(cfg: Config, s: Composition.Service, tip: Tip, env: Env): seq<Composition.Event> {
    if !cfg.syncLangModeOpenClose then
      Events(env.arrivals)
        + CloseRequests(Composition.Perform(s, Events(env.arrivals)), tip, CompartmentChange(cfg, tip, env.capsOn), env)
    else
      Events(env.writeArrivals)
  }

  /** What a callback does to the composition, beginning with service `s`, and what is done to it meanwhile. */
  function Trace(cfg: Config, t: Tsf, s: Composition.Service, ev: Event): seq<Composition.Event> {
    if ev.Host? then [ev.event]
    else if t.tip.None? then []
    else
      var tip := t.tip.value;
      match ev
      case TestKeyDown(_, env) => KeyDownEvents(env)
      case KeyDown(_, env) => KeyDownEvents(env)
      case TestKeyUp(key, env) => KeyUpEvents(cfg, OnTestKeyUp(cfg, tip, key, env), env)
      case KeyUp(key, env) => KeyUpEvents(cfg, OnKeyUp(cfg, tip, key, env), env)
      case Command(toggles, env) => Events(env.arrivals) + SyncEvents(cfg, OnCommand(cfg, tip, toggles, env), env)
      case ThreadFocus(env) =>
        Events(env.arrivals)
          + if env.fault != NoFault then [] else SyncEvents(cfg, OnThreadFocus(cfg, tip, env), env)
      case FocusChange(gained, hasContext, shown) =>
        if !t.keyBusy && !gained && hasContext && Composition.IsComposing(s, shown)
        then [Composition.Ask(Composition.End)] else []
      case OpenCloseChanged(_, env) => ChangeEvents(cfg, s, tip, env)
      case _ => []
  }

  /** The composition half of a started service: a fresh cell, no pending edit, and a flag that survives. */
  function Started(s: Composition.Service): Composition.Service {
    Composition.Service(s.doc, [None], 0, [], None, [], s.terminated)
  }

  /** The composition half after a callback. */
  function HandleComposition(cfg: Config, t: Tsf, s: Composition.Service, ev: Event): Composition.Service {
    if ev.Activate? then Started(s) else Composition.Perform(s, Trace(cfg, t, s, ev))
  }
}
