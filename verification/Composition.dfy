/**
 The asynchronous composition protocol. Edits reach the document through sessions that
 the host runs later, first in first out. A session shares its composition cell with the
 service and its pending slot with the service's weak reference `pendingEdit`.

 Cells and slots are named by their position in `cells` and `slots`, so that sharing is
 explicit; module CompositionService has the same protocol over heap objects.
 */
module Composition {
  import opened Wrappers
  import opened Utf16
  import opened EditSession

  datatype Session = SetString(cell: nat, slot: nat) | EndComposition(cell: nat)

  datatype Service = Service(
    doc: Document,
    cells: seq<Option<nat>>,     // Rc<RefCell<Option<ITfComposition>>>
    current: nat,                // the cell held by the service
    slots: seq<Option<Edit>>,    // Rc<RefCell<Option<CompositionString>>>
    pendingEdit: Option<nat>,    // the service's weak reference to a slot
    queue: seq<Session>,         // requested, not yet run
    terminated: bool)            // a termination waits for the tail handler

  datatype Request = Set(edit: Edit) | End

  /**
   How the service answers when the application terminates a composition: it handles it, it
   leaves it to the tail handler because it is busy, or a call fails before the handling.
   */
  datatype Handling = AtOnce | Deferred | Failed

  /** Requests of the service, runs of the oldest session, tail handlers, and what the application does. */
  datatype Event =
    | Ask(request: Request)
    | RunSession
    | Terminate(handling: Handling, left: seq<CodeUnit>, mid: seq<CodeUnit>, right: seq<CodeUnit>)
    | Tail
    | AppEdit(left: seq<CodeUnit>, mid: seq<CodeUnit>, right: seq<CodeUnit>)

  // ----- The steps -----

  predicate Holds(session: Session, slot: nat) {
    session.SetString? && session.slot == slot
  }

  /** A slot is alive as long as its session is queued. */
  predicate Alive(queue: seq<Session>, slot: nat) {
    exists i | 0 <= i < |queue| :: Holds(queue[i], slot)
  }

  /** Weak::upgrade of `pendingEdit` succeeds. */
  predicate Upgrades(s: Service) {
    s.pendingEdit.Some? && Alive(s.queue, s.pendingEdit.value)
  }

  predicate WellFormed(s: Service) {
    && s.current < |s.cells|
    && (s.pendingEdit.Some? ==> s.pendingEdit.value < |s.slots|)
    && forall i | 0 <= i < |s.queue| ::
         s.queue[i].cell < |s.cells| && (s.queue[i].SetString? ==> s.queue[i].slot < |s.slots|)
  }

  /** set_composition_string */
  function RequestSet(s: Service, e: Edit): Service
    requires WellFormed(s)
  {
    if Upgrades(s) then
      s.(slots := s.slots[s.pendingEdit.value := Some(e)])
    else
      s.(slots := s.slots + [Some(e)], pendingEdit := Some(|s.slots|),
         queue := s.queue + [SetString(s.current, |s.slots|)])
  }

  /** end_composition */
  function RequestEnd(s: Service): Service
    requires WellFormed(s)
  {
    s.(cells := s.cells + [None], current := |s.cells|, pendingEdit := None,
       queue := s.queue + [EndComposition(s.current)])
  }

  /** The cell holds a composition that the document still knows. */
  predicate Live(s: Service, cell: nat) {
    cell < |s.cells| && s.cells[cell].Some? && s.cells[cell].value in s.doc.live
  }

  /** The cell holds a composition that the application has terminated. */
  predicate Dead(s: Service, cell: nat) {
    cell < |s.cells| && s.cells[cell].Some? && s.cells[cell].value !in s.doc.live
  }

  /** SetCompositionString::DoEditSession; a dead composition has no range any more and the session gives up. */
  function RunSet(s: Service, cell: nat, slot: nat): Service
    requires cell < |s.cells| && slot < |s.slots|
  {
    if s.slots[slot].None? || Dead(s, cell) then s
    else if s.cells[cell].None? then
      s.(doc := ApplyEdit(StartComposition(s.doc), s.slots[slot].value),
         cells := s.cells[cell := Some(s.doc.started)])
    else
      s.(doc := ApplyEdit(s.doc, s.slots[slot].value))
  }

  /** EndComposition::DoEditSession; the cell is emptied even if the composition is dead. */
  function RunEnd(s: Service, cell: nat): Service
    requires cell < |s.cells|
  {
    if s.cells[cell].None? then s
    else
      s.(doc := if Dead(s, cell) then s.doc else FinishComposition(s.doc, s.cells[cell].value),
         cells := s.cells[cell := None])
  }

  /** The host runs the oldest session and releases it. */
  function RunNext(s: Service): Service
    requires WellFormed(s)
  {
    if s.queue == [] then s
    else
      var rest := s.(queue := s.queue[1..]);
      match s.queue[0]
      case SetString(cell, slot) => RunSet(rest, cell, slot)
      case EndComposition(cell) => RunEnd(rest, cell)
  }

  /** on_composition_terminated_tail, as far as cells are concerned. */
  function TerminatedTail(s: Service): Service
    requires WellFormed(s)
  {
    s.(slots := if Upgrades(s) then s.slots[s.pendingEdit.value := None] else s.slots,
       pendingEdit := None, cells := s.cells[s.current := None])
  }

  /**
   The application terminates only the live composition in the service's current cell, and
   keeps its text. It edits the document freely while no composition is live.
   */
  predicate Enabled(s: Service, ev: Event) {
    match ev
    case Ask(_) => true
    case RunSession => true
    case Terminate(_, l, m, r) => Live(s, s.current) && l + m + r == s.doc.Text()
    case Tail => true
    case AppEdit(_, _, _) => s.doc.live == {}
  }

  function TerminateStep(s: Service, handling: Handling): Service
    requires WellFormed(s)
  {
    match handling
    case AtOnce => TerminatedTail(s)
    case Deferred => s.(terminated := true)
    case Failed => s
  }

  function Step(s: Service, ev: Event): Service
    requires WellFormed(s)
  {
    match ev
    case Ask(Set(e)) => RequestSet(s, e)
    case Ask(End) => RequestEnd(s)
    case RunSession => RunNext(s)
    case Terminate(h, l, m, r) => TerminateStep(s.(doc := Replaced(s.doc, l, m, r)), h)
    case Tail => if s.terminated then TerminatedTail(s).(terminated := false) else s
    case AppEdit(l, m, r) => s.(doc := Replaced(s.doc, l, m, r))
  }

  /** is_composing: when candidates are shown the service is composing even without a composition. */
  predicate IsComposing(s: Service, candidatesShown: bool) {
    (s.current < |s.cells| && s.cells[s.current].Some?) || candidatesShown
  }

  /** One event in a well-formed state; all reachable states are. */
  function Do(s: Service, ev: Event): Service {
    if WellFormed(s) then Step(s, ev) else s
  }

  lemma StepKeepsWellFormed(s: Service, ev: Event)
    requires WellFormed(s)
    ensures WellFormed(Step(s, ev))
  {
    if ev.RunSession? && s.queue != [] {
      var t := RunNext(s);
      assert forall i | 0 <= i < |t.queue| :: t.queue[i] == s.queue[i + 1];
    }
  }

  /** Several events, one after the other. */
  function Perform(s: Service, events: seq<Event>): Service
    decreases |events|
  {
    if events == [] then s else Perform(Do(s, events[0]), events[1..])
  }

  // ----- The invariant -----

  /** The cell that the sessions behind position `i` start with. */
  function CellAfter(s: Service, i: nat): nat
    requires i < |s.queue|
  {
    if i + 1 < |s.queue| then s.queue[i + 1].cell else s.current
  }

  /** The cell of the oldest session, or the current one when the queue is empty. */
  function FrontCell(s: Service): nat {
    if s.queue == [] then s.current else s.queue[0].cell
  }

  /** An End session hands over to the next cell; any other session stays on its own. */
  predicate Linked(s: Service, i: nat)
    requires i < |s.queue|
  {
    CellAfter(s, i) == s.queue[i].cell + if s.queue[i].EndComposition? then 1 else 0
  }

  predicate Chained(s: Service) {
    s.current + 1 == |s.cells| && forall i | 0 <= i < |s.queue| :: Linked(s, i)
  }

  predicate Blank(s: Service, i: nat)
    requires i < |s.queue|
  {
    s.queue[i].SetString? && s.queue[i].slot < |s.slots| && s.slots[s.queue[i].slot].None?
  }

  /** Slots are used once, in the order of their sessions. */
  predicate SlotsOwned(s: Service) {
    && (forall i, j | 0 <= i < j < |s.queue| && s.queue[i].SetString? && s.queue[j].SetString? ::
          s.queue[i].slot < s.queue[j].slot)
    && (forall i | 0 <= i < |s.queue| && s.queue[i].SetString? :: s.queue[i].slot < |s.slots|)
  }

  /** A session followed by another set on the same cell has lost its edit. */
  predicate BlankIfFollowed(s: Service, i: nat)
    requires i < |s.queue|
  {
    i + 1 < |s.queue| && s.queue[i].SetString? && s.queue[i + 1].SetString? ==> Blank(s, i)
  }

  /** Only the youngest session on a cell may still hold an edit, and the service can reach it. */
  predicate OneLiveEdit(s: Service) {
    && (forall i | 0 <= i < |s.queue| && s.queue[i].SetString? && !Blank(s, i) && s.queue[i].cell == s.current ::
          s.pendingEdit == Some(s.queue[i].slot))
    && (forall i | 0 <= i < |s.queue| :: BlankIfFollowed(s, i))
    && (Upgrades(s) ==>
          var last := |s.queue| - 1;
          Holds(s.queue[last], s.pendingEdit.value) && !Blank(s, last))
  }

  /** Only the front cell holds a composition. */
  predicate HeldAtFront(s: Service) {
    && FrontCell(s) < |s.cells|
    && (forall c | 0 <= c < |s.cells| && s.cells[c].Some? :: c == FrontCell(s) && s.cells[c].value < s.doc.started)
  }

  /** What holds in every state of every run. */
  predicate QueueInv(s: Service) {
    WellFormed(s) && Chained(s) && SlotsOwned(s) && OneLiveEdit(s) && HeldAtFront(s)
  }

  /** The composition that the document knows, if any, is the one in the front cell. */
  predicate LiveAtFront(s: Service)
    requires FrontCell(s) < |s.cells|
  {
    s.doc.live == (if Live(s, FrontCell(s)) then {s.cells[FrontCell(s)].value} else {})
  }

  predicate Inv(s: Service) {
    QueueInv(s) && LiveAtFront(s)
  }

  function Initial(text: seq<CodeUnit>): Service {
    Service(Document(text, [], [], [], 0, {}, 0), [None], 0, [], None, [], false)
  }

  lemma InitialInv(text: seq<CodeUnit>)
    ensures Inv(Initial(text))
  {
  }

  lemma {:induction false} CellsAscend(s: Service, i: nat, j: nat)
    requires Chained(s) && i <= j < |s.queue|
    ensures s.queue[i].cell <= s.queue[j].cell <= s.current
    ensures s.queue[i].EndComposition? ==> s.queue[i].cell < s.current && (i < j ==> s.queue[i].cell < s.queue[j].cell)
    decreases |s.queue| - i
  {
    assert Linked(s, i);
    if i < j {
      CellsAscend(s, i + 1, j);
    } else if i + 1 < |s.queue| {
      CellsAscend(s, i + 1, i + 1);
    }
  }

  /**
   Ownership: a slot belongs to one session, a cell has at most one session that still holds
   an edit, an End session is the last one for its cell and the current cell has none.
   */
  lemma Ownership(s: Service)
    requires QueueInv(s)
    ensures forall i, j | 0 <= i < j < |s.queue| && s.queue[i].SetString? && s.queue[j].SetString? ::
              s.queue[i].slot != s.queue[j].slot
    ensures forall i, j | 0 <= i < j < |s.queue| && s.queue[i].SetString? && s.queue[j].SetString?
                          && s.queue[i].cell == s.queue[j].cell :: Blank(s, i)
    ensures forall i, j | 0 <= i < j < |s.queue| && s.queue[i].EndComposition? :: s.queue[j].cell != s.queue[i].cell
    ensures forall i | 0 <= i < |s.queue| && s.queue[i].EndComposition? :: s.queue[i].cell != s.current
  {
    forall i, j | 0 <= i < j < |s.queue| && s.queue[i].SetString? && s.queue[j].SetString?
                  && s.queue[i].cell == s.queue[j].cell
      ensures Blank(s, i)
    {
      assert Linked(s, i) && BlankIfFollowed(s, i);
      CellsAscend(s, i, i + 1);
      CellsAscend(s, i + 1, j);
    }
    forall i | 0 <= i < |s.queue| && s.queue[i].EndComposition?
      ensures s.queue[i].cell != s.current
      ensures forall j | i < j < |s.queue| :: s.queue[j].cell != s.queue[i].cell
    {
      CellsAscend(s, i, i);
      forall j | i < j < |s.queue| ensures s.queue[j].cell != s.queue[i].cell {
        CellsAscend(s, i, j);
      }
    }
  }

  /** Where the current cell is in use, every queued session is a set on it. */
  lemma AllOnCurrent(s: Service)
    requires QueueInv(s) && s.cells[s.current].Some?
    ensures forall i | 0 <= i < |s.queue| :: s.queue[i].SetString? && s.queue[i].cell == s.current
  {
    forall i | 0 <= i < |s.queue| ensures s.queue[i].SetString? && s.queue[i].cell == s.current {
      CellsAscend(s, 0, i);
      CellsAscend(s, i, i);
    }
  }

  // ----- Every event keeps the queue in order -----

  lemma SlotIsLast(s: Service)
    requires QueueInv(s) && Upgrades(s)
    ensures forall i | 0 <= i < |s.queue| - 1 && s.queue[i].SetString? :: s.queue[i].slot != s.pendingEdit.value
    ensures s.queue[|s.queue| - 1].cell == s.current
  {
    assert Linked(s, |s.queue| - 1);
  }

  lemma OverwriteKeepsInv(s: Service, e: Edit)
    requires QueueInv(s) && Upgrades(s)
    ensures QueueInv(RequestSet(s, e))
  {
    var t := RequestSet(s, e);
    SlotIsLast(s);
    forall i | 0 <= i < |t.queue| ensures Linked(t, i) && BlankIfFollowed(t, i) {
      assert Linked(s, i) && BlankIfFollowed(s, i);
    }
  }

  lemma NewSessionKeepsChain(s: Service, e: Edit)
    requires QueueInv(s) && !Upgrades(s)
    ensures Chained(RequestSet(s, e)) && SlotsOwned(RequestSet(s, e))
  {
    var t := RequestSet(s, e);
    forall i | 0 <= i < |t.queue| ensures Linked(t, i) {
      if i < |s.queue| {
        assert Linked(s, i);
      }
    }
  }

  lemma NewSessionKeepsBlanks(s: Service, e: Edit, i: nat)
    requires QueueInv(s) && !Upgrades(s) && i < |s.queue|
    ensures BlankIfFollowed(RequestSet(s, e), i)
    ensures s.queue[i].SetString? ==> Blank(RequestSet(s, e), i) == Blank(s, i)
    ensures s.queue[i].SetString? && s.queue[i].cell == s.current ==> Blank(s, i)
  {
    assert BlankIfFollowed(s, i) && Linked(s, i);
    if s.queue[i].SetString? && !Blank(s, i) && s.queue[i].cell == s.current {
      assert Holds(s.queue[i], s.pendingEdit.value);
    }
  }

  lemma NewSessionKeepsInv(s: Service, e: Edit)
    requires QueueInv(s) && !Upgrades(s)
    ensures QueueInv(RequestSet(s, e))
  {
    var t := RequestSet(s, e);
    var n := |s.queue|;
    NewSessionKeepsChain(s, e);
    assert t.queue[n] == SetString(s.current, |s.slots|) && t.queue[..n] == s.queue;
    assert Holds(t.queue[n], |s.slots|) && !Blank(t, n) && BlankIfFollowed(t, n);
    forall i | 0 <= i < n
      ensures BlankIfFollowed(t, i) && (s.queue[i].SetString? ==> Blank(t, i) == Blank(s, i))
      ensures s.queue[i].SetString? && s.queue[i].cell == s.current ==> Blank(s, i)
    {
      NewSessionKeepsBlanks(s, e, i);
    }
  }

  lemma EndKeepsChain(s: Service)
    requires QueueInv(s)
    ensures Chained(RequestEnd(s))
  {
    var t := RequestEnd(s);
    forall i | 0 <= i < |t.queue| ensures Linked(t, i) {
      if i < |s.queue| {
        assert Linked(s, i);
      }
    }
  }

  lemma EndKeepsInv(s: Service)
    requires QueueInv(s)
    ensures QueueInv(RequestEnd(s))
  {
    var t := RequestEnd(s);
    EndKeepsChain(s);
    forall i | 0 <= i < |t.queue| ensures BlankIfFollowed(t, i) && t.queue[i].cell < t.current {
      if i < |s.queue| {
        assert BlankIfFollowed(s, i);
        CellsAscend(s, i, i);
      }
    }
  }

  /** `t` is `s` without its oldest session, whatever that did to the document and the cells. */
  predicate Released(s: Service, t: Service) {
    && s.queue != [] && t.queue == s.queue[1..]
    && t.slots == s.slots && t.pendingEdit == s.pendingEdit && t.current == s.current && |t.cells| == |s.cells|
  }

  lemma RunReleases(s: Service)
    requires WellFormed(s) && s.queue != []
    ensures Released(s, RunNext(s)) && RunNext(s).terminated == s.terminated
  {
  }

  lemma ReleasedKeepsQueue(s: Service, t: Service)
    requires QueueInv(s) && Released(s, t)
    ensures WellFormed(t) && Chained(t) && SlotsOwned(t) && OneLiveEdit(t)
  {
    forall i | 0 <= i < |t.queue|
      ensures Linked(t, i) && BlankIfFollowed(t, i) && t.queue[i] == s.queue[i + 1]
      ensures t.queue[i].SetString? ==> Blank(t, i) == Blank(s, i + 1)
    {
      assert Linked(s, i + 1) && BlankIfFollowed(s, i + 1);
    }
    if Upgrades(t) {
      var i :| 0 <= i < |t.queue| && Holds(t.queue[i], t.pendingEdit.value);
      assert Holds(s.queue[i + 1], s.pendingEdit.value);
    }
  }

  lemma RunKeepsInv(s: Service)
    requires QueueInv(s)
    ensures QueueInv(RunNext(s)) && (LiveAtFront(s) ==> LiveAtFront(RunNext(s)))
  {
    if s.queue != [] {
      RunReleases(s);
      ReleasedKeepsQueue(s, RunNext(s));
      assert Linked(s, 0);
    }
  }

  lemma TailKeepsQueueInv(s: Service)
    requires QueueInv(s)
    ensures QueueInv(TerminatedTail(s))
  {
    var t := TerminatedTail(s);
    forall i | 0 <= i < |t.queue| ensures Linked(t, i) && BlankIfFollowed(t, i) {
      assert Linked(s, i) && BlankIfFollowed(s, i);
    }
    forall i | 0 <= i < |t.queue| && t.queue[i].SetString? && t.queue[i].cell == t.current ensures Blank(t, i) {
      if !Blank(s, i) {
        assert Holds(s.queue[i], s.pendingEdit.value);
      }
    }
  }

  lemma ReplacedKeepsQueueInv(s: Service, l: seq<CodeUnit>, m: seq<CodeUnit>, r: seq<CodeUnit>, flag: bool)
    requires QueueInv(s)
    ensures QueueInv(s.(doc := Replaced(s.doc, l, m, r), terminated := flag))
  {
    var t := s.(doc := Replaced(s.doc, l, m, r), terminated := flag);
    forall i | 0 <= i < |s.queue| ensures Linked(t, i) && BlankIfFollowed(t, i) {
      assert Linked(s, i) && BlankIfFollowed(s, i);
    }
  }

  lemma FlagKeepsQueueInv(s: Service, flag: bool)
    requires QueueInv(s)
    ensures QueueInv(s.(terminated := flag))
  {
    var t := s.(terminated := flag);
    forall i | 0 <= i < |s.queue| ensures Linked(t, i) && BlankIfFollowed(t, i) {
      assert Linked(s, i) && BlankIfFollowed(s, i);
    }
  }

  /** Every event keeps the queue, the cells and the slots in order. */
  lemma StepKeepsQueueInv(s: Service, ev: Event)
    requires QueueInv(s)
    ensures QueueInv(Step(s, ev))
  {
    match ev
    case Ask(Set(e)) => if Upgrades(s) { OverwriteKeepsInv(s, e); } else { NewSessionKeepsInv(s, e); }
    case Ask(End) => EndKeepsInv(s);
    case RunSession => RunKeepsInv(s);
    case Terminate(h, l, m, r) =>
      ReplacedKeepsQueueInv(s, l, m, r, s.terminated);
      ReplacedKeepsQueueInv(s, l, m, r, true);
      TailKeepsQueueInv(s.(doc := Replaced(s.doc, l, m, r)));
    case Tail =>
      TailKeepsQueueInv(s);
      FlagKeepsQueueInv(TerminatedTail(s), false);
    case AppEdit(l, m, r) => ReplacedKeepsQueueInv(s, l, m, r, s.terminated);
  }

  // ----- One live composition -----

  /** A late tail handler drops a composition that was started after the termination it handles. */
  predicate Strands(s: Service, ev: Event) {
    ev.Tail? && s.terminated && Live(s, s.current)
  }

  lemma RequestKeepsLive(s: Service, r: Request)
    requires Inv(s)
    ensures LiveAtFront(Step(s, Ask(r)))
  {
    StepKeepsQueueInv(s, Ask(r));
  }

  lemma TailKeepsLiveIff(s: Service)
    requires Inv(s) && s.terminated
    ensures QueueInv(Step(s, Tail))
    ensures LiveAtFront(Step(s, Tail)) <==> !Strands(s, Tail)
  {
    StepKeepsQueueInv(s, Tail);
    if s.cells[s.current].Some? {
      assert s.current == FrontCell(s);
    }
  }

  /**
   Every event keeps the whole invariant, that the live composition is the one in the front
   cell included, except for a tail handler that finds a live composition in the current cell.
   */
  lemma StepKeepsInvIff(s: Service, ev: Event)
    requires Inv(s) && Enabled(s, ev)
    ensures Inv(Step(s, ev)) <==> !Strands(s, ev)
  {
    StepKeepsQueueInv(s, ev);
    match ev
    case Ask(r) => RequestKeepsLive(s, r);
    case RunSession => RunKeepsInv(s);
    case Tail => if s.terminated { TailKeepsLiveIff(s); }
    case _ =>
  }

  /** What such a tail handler leaves: a live composition that no cell holds. */
  lemma StrandedComposition(s: Service)
    requires Inv(s) && Strands(s, Tail)
    ensures Step(s, Tail).doc == s.doc && s.doc.live != {}
    ensures forall c | 0 <= c < |s.cells| :: Step(s, Tail).cells[c].None?
  {
  }
}
