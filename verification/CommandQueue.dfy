/**
 The command queue of the host: producers post a wake-up message to the main thread and then
 push the command into a bounded channel; the main loop answers each wake-up by draining
 the channel. Posting and pushing are separate steps, so other threads run in between.
 */
module CommandQueue {
  import opened Wrappers

  const CAPACITY: nat := 130

  datatype Command = Command(producer: nat, stop: bool, payload: nat)

  /**
   Commands are named by the position of their wake-up in `posts`. `late` holds the commands
   pushed after the drain of their own wake-up had finished.
   */
  datatype Host = Host(
    posts: seq<Command>, inFlight: map<nat, nat>, wakeUps: seq<nat>, draining: Option<nat>, drained: set<nat>,
    pushed: seq<nat>, channel: seq<nat>, processed: seq<nat>, late: set<nat>, exited: bool)

  datatype Step = Post(command: Command) | Push(producer: nat) | TakeWakeUp | Receive | FinishDrain

  const START := Host([], map[], [], None, {}, [], [], [], {}, false)

  /** A producer waits while the channel is full; nothing happens after the process has exited. */
  predicate Enabled(h: Host, step: Step) {
    !h.exited &&
    match step
    case Post(c) => c.producer !in h.inFlight
    case Push(p) => p in h.inFlight && |h.channel| < CAPACITY
    case TakeWakeUp => h.draining.None? && h.wakeUps != []
    case Receive => h.draining.Some? && h.channel != [] && h.channel[0] < |h.posts|
    case FinishDrain => h.draining.Some? && h.channel == []
  }

  function Next(h: Host, step: Step): Host
    requires Enabled(h, step)
  {
    match step
    case Post(c) =>
      // PostThreadMessageW
      h.(posts := h.posts + [c], wakeUps := h.wakeUps + [|h.posts|], inFlight := h.inFlight[c.producer := |h.posts|])
    case Push(p) =>
      // SyncSender::send
      var id := h.inFlight[p];
      h.(inFlight := h.inFlight - {p}, pushed := h.pushed + [id], channel := h.channel + [id],
         late := if id in h.drained then h.late + {id} else h.late)
    case TakeWakeUp =>
      // GetMessageW returned PM_APP_COMMAND
      h.(draining := Some(h.wakeUps[0]), wakeUps := h.wakeUps[1..])
    case Receive =>
      // One turn of the loop over try_iter; Stop exits the process
      h.(processed := h.processed + [h.channel[0]], channel := h.channel[1..], exited := h.posts[h.channel[0]].stop)
    case FinishDrain =>
      h.(drained := h.drained + {h.draining.value}, draining := None)
  }

  predicate Run(h: Host, steps: seq<Step>)
    decreases |steps|
  {
    steps == [] || (Enabled(h, steps[0]) && Run(Next(h, steps[0]), steps[1..]))
  }

  function Exec(h: Host, steps: seq<Step>): Host
    requires Run(h, steps)
    decreases |steps|
  {
    if steps == [] then h else Exec(Next(h, steps[0]), steps[1..])
  }

  lemma {:induction false} ExecSnoc(h: Host, steps: seq<Step>, step: Step)
    requires Run(h, steps) && Enabled(Exec(h, steps), step)
    ensures Run(h, steps + [step]) && Exec(h, steps + [step]) == Next(Exec(h, steps), step)
    decreases |steps|
  {
    if steps == [] {
      assert steps + [step] == [step] && [step][1..] == [];
    } else {
      ExecSnoc(Next(h, steps[0]), steps[1..], step);
      assert (steps + [step])[1..] == steps[1..] + [step];
    }
  }

  // ----- The invariant -----

  /** The commands of one producer in a list, in order. */
  function OfProducer(ids: seq<nat>, posts: seq<Command>, p: nat): seq<nat> {
    if ids == [] then []
    else
      var last := ids[|ids| - 1];
      OfProducer(ids[..|ids| - 1], posts, p) + if last < |posts| && posts[last].producer == p then [last] else []
  }

  /** Everything producer `p` sent, in order. */
  function Sent(posts: seq<Command>, p: nat): seq<nat> {
    if posts == [] then []
    else
      var last := |posts| - 1;
      Sent(posts[..last], p) + if posts[last].producer == p then [last] else []
  }

  function InFlight(h: Host, p: nat): seq<nat> {
    if p in h.inFlight then [h.inFlight[p]] else []
  }

  predicate Conserved(h: Host) {
    && h.pushed == h.processed + h.channel
    && |h.channel| <= CAPACITY
    && (forall i | 0 <= i < |h.pushed| :: h.pushed[i] < |h.posts|)
    && (forall p | p in h.inFlight :: h.inFlight[p] < |h.posts| && h.posts[h.inFlight[p]].producer == p)
  }

  ghost predicate InOrder(h: Host) {
    forall p: nat :: OfProducer(h.pushed, h.posts, p) + InFlight(h, p) == Sent(h.posts, p)
  }

  /** Only the last processed command can be Stop, and then the process has exited. */
  predicate StopIsLast(h: Host) {
    && (forall i | 0 <= i < |h.processed| && h.processed[i] < |h.posts| && h.posts[h.processed[i]].stop ::
          h.exited && i == |h.processed| - 1)
    && (h.exited ==> h.processed != [] && h.processed[|h.processed| - 1] < |h.posts|
                     && h.posts[h.processed[|h.processed| - 1]].stop)
  }

  predicate WakeUpAccounted(h: Host, id: nat) {
    id in h.wakeUps || h.draining == Some(id) || id in h.drained
  }

  predicate WakeUps(h: Host) {
    && (forall id | 0 <= id < |h.posts| :: WakeUpAccounted(h, id))
    && (forall i | 0 <= i < |h.channel| && h.channel[i] in h.drained :: h.channel[i] in h.late)
    && (forall id | id in h.late :: id in h.pushed)
  }

  ghost predicate Inv(h: Host) {
    Conserved(h) && InOrder(h) && StopIsLast(h) && WakeUps(h)
  }

  lemma OfProducerSnoc(ids: seq<nat>, id: nat, posts: seq<Command>, p: nat)
    ensures OfProducer(ids + [id], posts, p)
         == OfProducer(ids, posts, p) + if id < |posts| && posts[id].producer == p then [id] else []
  {
    assert (ids + [id])[..|ids|] == ids;
  }

  lemma {:induction false} OfProducerFrame(ids: seq<nat>, posts: seq<Command>, c: Command, p: nat)
    requires forall i | 0 <= i < |ids| :: ids[i] < |posts|
    ensures OfProducer(ids, posts + [c], p) == OfProducer(ids, posts, p)
  {
    if ids != [] {
      OfProducerFrame(ids[..|ids| - 1], posts, c, p);
    }
  }

  lemma NextKeepsOrder(h: Host, step: Step)
    requires Inv(h) && Enabled(h, step)
    ensures InOrder(Next(h, step))
  {
    var t := Next(h, step);
    forall p: nat ensures OfProducer(t.pushed, t.posts, p) + InFlight(t, p) == Sent(t.posts, p) {
      assert OfProducer(h.pushed, h.posts, p) + InFlight(h, p) == Sent(h.posts, p);
      match step
      case Post(c) =>
        OfProducerFrame(h.pushed, h.posts, c, p);
        assert t.posts[..|h.posts|] == h.posts;
      case Push(q) =>
        OfProducerSnoc(h.pushed, h.inFlight[q], h.posts, p);
      case _ =>
    }
  }

  lemma NextKeepsWakeUps(h: Host, step: Step)
    requires Inv(h) && Enabled(h, step)
    ensures WakeUps(Next(h, step))
  {
    var t := Next(h, step);
    forall id | 0 <= id < |t.posts| ensures WakeUpAccounted(t, id) {
      if id < |h.posts| {
        assert WakeUpAccounted(h, id);
      } else {
        assert t.wakeUps[|h.wakeUps|] == id;
      }
    }
    forall id | id in t.late ensures id in t.pushed {
      if id !in h.late {
        assert t.pushed[|h.pushed|] == id;
      }
    }
  }

  lemma NextKeepsConserved(h: Host, step: Step)
    requires Conserved(h) && Enabled(h, step)
    ensures Conserved(Next(h, step))
  {
    if step.Receive? {
      assert h.channel == [h.channel[0]] + h.channel[1..];
    }
  }

  lemma NextKeepsStop(h: Host, step: Step)
    requires Conserved(h) && StopIsLast(h) && Enabled(h, step)
    ensures StopIsLast(Next(h, step))
  {
    assert forall i | 0 <= i < |h.processed| :: h.processed[i] == h.pushed[i];
  }

  lemma NextKeepsInv(h: Host, step: Step)
    requires Inv(h) && Enabled(h, step)
    ensures Inv(Next(h, step))
  {
    NextKeepsConserved(h, step);
    NextKeepsOrder(h, step);
    NextKeepsStop(h, step);
    NextKeepsWakeUps(h, step);
  }

  lemma {:induction false} RunsKeepInv(h: Host, steps: seq<Step>)
    requires Inv(h) && Run(h, steps)
    ensures Inv(Exec(h, steps))
    decreases |steps|
  {
    if steps != [] {
      NextKeepsInv(h, steps[0]);
      RunsKeepInv(Next(h, steps[0]), steps[1..]);
    }
  }

  lemma StartInv()
    ensures Inv(START)
  {
  }

  // ----- Main results -----

  /**
   Conservation over every run: what was pushed is what was processed followed by what is
   queued; the queue is bounded; the commands of each producer, processed, queued and in
   flight, are the ones it sent, in its order; and nothing is processed after Stop.
   */
  lemma CommandsAreConserved(steps: seq<Step>, p: nat)
    requires Run(START, steps)
    ensures var h := Exec(START, steps);
            && h.pushed == h.processed + h.channel && |h.channel| <= CAPACITY
            && OfProducer(h.processed + h.channel, h.posts, p) + InFlight(h, p) == Sent(h.posts, p)
            && (forall i | 0 <= i < |h.processed| ::
                  h.processed[i] < |h.posts| && (h.posts[h.processed[i]].stop ==> i == |h.processed| - 1))
  {
    StartInv();
    RunsKeepInv(START, steps);
    var h := Exec(START, steps);
    assert forall i | 0 <= i < |h.processed| :: h.processed[i] == h.pushed[i];
  }

  /** No drain is in progress and no wake-up is outstanding. */
  predicate Quiet(h: Host) {
    !h.exited && h.draining.None? && h.wakeUps == []
  }

  /** A command is pushed at most once. */
  ghost predicate PushesOnce(h: Host) {
    && (forall i, j | 0 <= i < j < |h.pushed| :: h.pushed[i] != h.pushed[j])
    && (forall p | p in h.inFlight :: h.inFlight[p] !in h.pushed)
    && (forall p, q | p in h.inFlight && q in h.inFlight && p != q :: h.inFlight[p] != h.inFlight[q])
  }

  lemma NextPushesOnce(h: Host, step: Step)
    requires Conserved(h) && PushesOnce(h) && Enabled(h, step)
    ensures PushesOnce(Next(h, step))
  {
  }

  lemma {:induction false} RunPushesOnce(h: Host, steps: seq<Step>)
    requires Inv(h) && PushesOnce(h) && Run(h, steps)
    ensures PushesOnce(Exec(h, steps))
    decreases |steps|
  {
    if steps != [] {
      NextKeepsInv(h, steps[0]);
      NextPushesOnce(h, steps[0]);
      RunPushesOnce(Next(h, steps[0]), steps[1..]);
    }
  }

  /** No command is processed twice, nor queued again after it was processed. */
  lemma PushedOnce(h: Host, steps: seq<Step>)
    requires h == START && Run(h, steps)
    ensures var t := Exec(h, steps);
            forall i, j | 0 <= i < j < |t.processed + t.channel| ::
              (t.processed + t.channel)[i] != (t.processed + t.channel)[j]
  {
    StartInv();
    RunsKeepInv(h, steps);
    RunPushesOnce(h, steps);
  }

  /** In a quiet state, a command left in the channel was pushed after the drain of its own wake-up had ended. */
  lemma LeftBehindOnlyIfLate(steps: seq<Step>, id: nat)
    requires Run(START, steps) && Quiet(Exec(START, steps))
    requires id in Exec(START, steps).channel
    ensures id in Exec(START, steps).late && id in Exec(START, steps).drained && id !in Exec(START, steps).processed
  {
    StartInv();
    RunsKeepInv(START, steps);
    PushedOnce(START, steps);
    var h := Exec(START, steps);
    var i :| 0 <= i < |h.channel| && h.channel[i] == id;
    assert h.pushed[|h.processed| + i] == id;
    assert WakeUpAccounted(h, id);
    assert forall j | 0 <= j < |h.processed| :: (h.processed + h.channel)[j] == h.processed[j];
  }

  lemma {:induction false} DrainGoesOn(h: Host, steps: seq<Step>)
    requires Run(h, steps) && h.draining.Some? && FinishDrain !in steps
    ensures Exec(h, steps).draining.Some?
    decreases |steps|
  {
    if steps != [] {
      DrainGoesOn(Next(h, steps[0]), steps[1..]);
    }
  }

  lemma {:induction false} StaysWithoutDrain(h: Host, steps: seq<Step>, id: nat)
    requires Run(h, steps) && FinishDrain !in steps && Exec(h, steps).draining.None? && id in h.channel
    ensures id in Exec(h, steps).channel
    decreases |steps|
  {
    if steps != [] {
      var t := Next(h, steps[0]);
      if t.draining.Some? {
        DrainGoesOn(t, steps[1..]);
      }
      StaysWithoutDrain(t, steps[1..], id);
    }
  }

  lemma {:induction false} StaysGone(h: Host, steps: seq<Step>, id: nat)
    requires Inv(h) && PushesOnce(h) && Run(h, steps) && id in h.pushed && id !in h.channel
    ensures id !in Exec(h, steps).channel
    decreases |steps|
  {
    if steps != [] {
      NextKeepsInv(h, steps[0]);
      NextPushesOnce(h, steps[0]);
      StaysGone(Next(h, steps[0]), steps[1..], id);
    }
  }

  lemma {:induction false} GoneAfterDrain(h: Host, steps: seq<Step>, id: nat)
    requires Inv(h) && PushesOnce(h) && Run(h, steps) && id in h.pushed && FinishDrain in steps
    ensures id !in Exec(h, steps).channel
    decreases |steps|
  {
    NextKeepsInv(h, steps[0]);
    NextPushesOnce(h, steps[0]);
    var t := Next(h, steps[0]);
    if steps[0].FinishDrain? {
      StaysGone(t, steps[1..], id);
    } else {
      GoneAfterDrain(t, steps[1..], id);
    }
  }

  /**
   Wake-up characterisation, for any number of producers: in a quiet state a command is left
   behind if and only if no drain has ended since it was pushed.
   */
  lemma LeftBehindIffNoDrainEnds(before: seq<Step>, p: nat, after: seq<Step>)
    requires Run(START, before) && Enabled(Exec(START, before), Push(p))
    requires Run(Next(Exec(START, before), Push(p)), after)
    requires Quiet(Exec(Next(Exec(START, before), Push(p)), after))
    ensures var id := Exec(START, before).inFlight[p];
            id in Exec(Next(Exec(START, before), Push(p)), after).channel <==> FinishDrain !in after
  {
    StartInv();
    RunsKeepInv(START, before);
    RunPushesOnce(START, before);
    var h := Exec(START, before);
    NextKeepsInv(h, Push(p));
    NextPushesOnce(h, Push(p));
    var t := Next(h, Push(p));
    assert t.channel[|h.channel|] == h.inFlight[p] && t.pushed[|h.pushed|] == h.inFlight[p];
    if FinishDrain in after {
      GoneAfterDrain(t, after, h.inFlight[p]);
    } else {
      StaysWithoutDrain(t, after, h.inFlight[p]);
    }
  }

  /** A drain that finishes has processed every command pushed until then. */
  lemma FinishedDrainProcessedAll(steps: seq<Step>)
    requires Run(START, steps) && Enabled(Exec(START, steps), FinishDrain)
    ensures Exec(START, steps).processed == Exec(START, steps).pushed
  {
    StartInv();
    RunsKeepInv(START, steps);
  }

  /** The late case happens: a quiet host with a command left behind. */
  lemma CommandCanBeLeftBehind(c: Command)
    ensures var steps := [Post(c), TakeWakeUp, FinishDrain, Push(c.producer)];
            Run(START, steps) && Quiet(Exec(START, steps)) && Exec(START, steps).channel == [0]
  {
    var h1 := Next(START, Post(c));
    var h2 := Next(h1, TakeWakeUp);
    var h3 := Next(h2, FinishDrain);
    var h4 := Next(h3, Push(c.producer));
    var steps := [Post(c), TakeWakeUp, FinishDrain, Push(c.producer)];
    assert Exec(h4, []) == h4;
    assert steps[1..] == [TakeWakeUp, FinishDrain, Push(c.producer)];
    assert steps[1..][1..] == [FinishDrain, Push(c.producer)];
    assert steps[1..][1..][1..] == [Push(c.producer)];
    assert steps[1..][1..][1..][1..] == [];
    assert Run(h3, [Push(c.producer)]) && Exec(h3, [Push(c.producer)]) == h4;
    assert Run(h2, steps[1..][1..]) && Exec(h2, steps[1..][1..]) == h4;
    assert Run(h1, steps[1..]) && Exec(h1, steps[1..]) == h4;
  }

  lemma StepOfRun(h: Host, steps: seq<Step>, step: Step)
    requires Run(h, steps) && Inv(Exec(h, steps)) && PushesOnce(Exec(h, steps)) && Enabled(Exec(h, steps), step)
    ensures Run(h, steps + [step]) && Exec(h, steps + [step]) == Next(Exec(h, steps), step)
    ensures Inv(Exec(h, steps + [step])) && PushesOnce(Exec(h, steps + [step]))
  {
    ExecSnoc(h, steps, step);
    NextKeepsInv(Exec(h, steps), step);
    NextPushesOnce(Exec(h, steps), step);
  }

  // ----- The draining loop -----

  /** The host as an object: the channel, the message queue and their history. */
  class MainLoop {
    var posts: seq<Command>
    var inFlight: map<nat, nat>
    var wakeUps: seq<nat>
    var draining: Option<nat>
    var receiver: seq<nat>
    var processed: seq<nat>
    var exited: bool
    ghost var drained: set<nat>
    ghost var pushed: seq<nat>
    ghost var late: set<nat>

    ghost function Model(): Host
      reads this
    {
      Host(posts, inFlight, wakeUps, draining, drained, pushed, receiver, processed, late, exited)
    }

    constructor ()
      ensures Model() == START
    {
      posts, inFlight, wakeUps, draining, receiver, processed, exited := [], map[], [], None, [], [], false;
      drained, pushed, late := {}, [], {};
    }

    /** First half of MainLoopHandle::send. */
    method PostWakeUp(command: Command)
      requires Enabled(Model(), Post(command))
      modifies this
      ensures Model() == Next(old(Model()), Post(command))
    {
      wakeUps := wakeUps + [|posts|];
      inFlight := inFlight[command.producer := |posts|];
      posts := posts + [command];
    }

    /** Second half of MainLoopHandle::send. */
    method PushCommand(producer: nat)
      requires Enabled(Model(), Push(producer))
      modifies this
      ensures Model() == Next(old(Model()), Push(producer))
    {
      var id := inFlight[producer];
      inFlight := inFlight - {producer};
      receiver := receiver + [id];
      pushed := pushed + [id];
      late := if id in drained then late + {id} else late;
    }

    /** The steps of `trace` lead from `start` to the present state. */
    ghost predicate Follows(start: Host, trace: seq<Step>)
      reads this
    {
      Run(start, trace) && Exec(start, trace) == Model() && Inv(Model()) && PushesOnce(Model())
    }

    /** What other threads do leaves producer `p` alone. */
    twostate predicate LeavesAlone(p: nat)
      reads this
    {
      && (p in inFlight <==> p in old(inFlight)) && (p in inFlight ==> inFlight[p] == old(inFlight)[p])
      && old(posts) <= posts
    }

    /** Another thread takes a step, if it is possible now. */
    method TryTake(p: nat, step: Step, ghost start: Host, ghost done: seq<Step>) returns (ghost trace: seq<Step>)
      requires Follows(start, done)
      modifies this
      ensures Follows(start, trace) && done <= trace && LeavesAlone(p)
    {
      trace := done;
      if Possible(step) && step != Push(p) && !(step.Post? && step.command.producer == p) {
        StepOfRun(start, done, step);
        trace := done + [step];
        Take(step);
      }
    }

    /** What other threads do while producer `p` is between the two halves of its send. */
    method Others(p: nat, steps: seq<Step>, ghost start: Host, ghost done: seq<Step>) returns (ghost trace: seq<Step>)
      requires Follows(start, done)
      modifies this
      ensures Follows(start, trace) && done <= trace && LeavesAlone(p)
    {
      trace := done;
      for i := 0 to |steps|
        invariant Follows(start, trace) && done <= trace && LeavesAlone(p)
      {
        trace := TryTake(p, steps[i], start, trace);
      }
    }

    /** The step can be taken now. */
    predicate Possible(step: Step)
      reads this
      ensures Possible(step) == Enabled(Model(), step)
    {
      !exited &&
      match step
      case Post(c) => c.producer !in inFlight
      case Push(p) => p in inFlight && |receiver| < CAPACITY
      case TakeWakeUp => draining.None? && wakeUps != []
      case Receive => draining.Some? && receiver != [] && receiver[0] < |posts|
      case FinishDrain => draining.Some? && receiver == []
    }

    method Take(step: Step)
      requires Enabled(Model(), step)
      modifies this
      ensures Model() == Next(old(Model()), step)
    {
      match step {
        case Post(c) => PostWakeUp(c);
        case Push(p) => PushCommand(p);
        case TakeWakeUp => TakeMessage();
        case Receive => Process();
        case FinishDrain => Finish();
      }
    }

    /** GetMessageW returns the oldest wake-up. */
    method TakeMessage()
      requires Enabled(Model(), TakeWakeUp)
      modifies `wakeUps, `draining
      ensures Model() == Next(old(Model()), TakeWakeUp)
    {
      draining, wakeUps := Some(wakeUps[0]), wakeUps[1..];
    }

    /** The first half, as a step of a run. */
    method Announce(command: Command, ghost start: Host, ghost done: seq<Step>)
      requires Follows(start, done) && !exited && command.producer !in inFlight
      modifies this
      ensures Follows(start, done + [Post(command)])
      ensures posts == old(posts) + [command] && inFlight == old(inFlight)[command.producer := |old(posts)|]
    {
      StepOfRun(start, done, Post(command));
      PostWakeUp(command);
    }

    /** The second half, as a step of a run: a command is late exactly if the drain of its own wake-up is over. */
    method Deliver(p: nat, ghost start: Host, ghost done: seq<Step>)
      requires Follows(start, done) && Enabled(Model(), Push(p))
      modifies this
      ensures Follows(start, done + [Push(p)]) && p !in inFlight && posts == old(posts)
      ensures pushed == old(pushed) + [old(inFlight)[p]] && receiver == old(receiver) + [old(inFlight)[p]]
      ensures old(inFlight)[p] in late <==> old(inFlight)[p] in drained
    {
      var id := inFlight[p];
      assert id !in pushed && id !in late;
      StepOfRun(start, done, Push(p));
      PushCommand(p);
    }

    /**
     MainLoopHandle::send, with anything else going on between its two halves. If the process
     lives and the channel has room, the command is the latest one pushed, and it is late
     exactly if the drain that took its wake-up is over already.
     */
    method Send(command: Command, between: seq<Step>, ghost start: Host, ghost done: seq<Step>)
      returns (sent: bool, ghost trace: seq<Step>)
      requires Follows(start, done) && !exited && command.producer !in inFlight
      modifies this
      ensures Follows(start, trace) && done + [Post(command)] <= trace
      ensures old(posts) + [command] <= posts
      ensures sent ==> pushed != [] && pushed[|pushed| - 1] == |old(posts)| && command.producer !in inFlight
      ensures sent ==> (|old(posts)| in late <==> |old(posts)| in drained)
      ensures !sent ==> exited || |receiver| == CAPACITY
    {
      Announce(command, start, done);
      trace := Others(command.producer, between, start, done + [Post(command)]);
      sent := !exited && |receiver| < CAPACITY;
      if sent {
        Deliver(command.producer, start, trace);
        trace := trace + [Push(command.producer)];
      }
    }

    /** What producers manage to do while the main thread is between two commands. */
    method Interfere(steps: seq<Step>, ghost start: Host, ghost done: seq<Step>) returns (ghost trace: seq<Step>)
      requires Run(start, done) && Exec(start, done) == Model() && !exited && Inv(Model())
      modifies this
      ensures Run(start, trace) && Exec(start, trace) == Model() && done <= trace
      ensures Inv(Model()) && draining == old(draining) && processed == old(processed)
      ensures old(receiver) <= receiver && !exited
    {
      trace := done;
      for i := 0 to |steps|
        invariant Run(start, trace) && Exec(start, trace) == Model() && done <= trace
        invariant Inv(Model()) && draining == old(draining) && processed == old(processed)
        invariant old(receiver) <= receiver && !exited
      {
        var step := steps[i];
        if step.Post? && step.command.producer !in inFlight {
          ExecSnoc(start, trace, step);
          NextKeepsInv(Model(), step);
          PostWakeUp(step.command);
          trace := trace + [step];
        } else if step.Push? && step.producer in inFlight && |receiver| < CAPACITY {
          ExecSnoc(start, trace, step);
          NextKeepsInv(Model(), step);
          PushCommand(step.producer);
          trace := trace + [step];
        }
      }
    }

    /** One command from the channel; Stop exits the process. */
    method Process()
      requires Enabled(Model(), Receive)
      modifies `processed, `receiver, `exited
      ensures Model() == Next(old(Model()), Receive)
    {
      var id := receiver[0];
      processed, receiver := processed + [id], receiver[1..];
      exited := posts[id].stop;
    }

    method ReceiveOne(ghost start: Host, ghost done: seq<Step>) returns (ghost trace: seq<Step>)
      requires Run(start, done) && Exec(start, done) == Model() && Inv(Model())
      requires draining.Some? && !exited && receiver != []
      modifies this
      ensures Run(start, trace) && Exec(start, trace) == Model() && Inv(Model())
      ensures draining == old(draining) && processed + receiver == old(processed + receiver)
      ensures |receiver| < |old(receiver)|
    {
      assert receiver[0] == pushed[|processed|];
      ExecSnoc(start, done, Receive);
      NextKeepsInv(Model(), Receive);
      trace := done + [Receive];
      Process();
    }

    /**
     command_loop with producers running in between: a possible run of the queue, after which
     everything that was in the channel at the start, and all that was pushed meanwhile, has
     been processed in order, unless Stop ended the process.
     */
    method CommandLoop(interference: seq<seq<Step>>) returns (ghost trace: seq<Step>)
      requires Inv(Model()) && draining.Some? && !exited
      modifies this
      ensures Run(old(Model()), trace) && Exec(old(Model()), trace) == Model() && Inv(Model())
      ensures !exited ==> draining.None? && receiver == [] && processed == pushed
      ensures !exited ==> old(processed + receiver) <= processed
    {
      ghost var start := Model();
      ghost var before := processed + receiver;
      trace := [];
      var i := 0;
      while true
        invariant Run(start, trace) && Exec(start, trace) == Model() && Inv(Model())
        invariant draining.Some? && !exited && before <= processed + receiver
        invariant 0 <= i <= |interference|
        decreases |interference| - i, |receiver|
      {
        if i < |interference| {
          trace := Interfere(interference[i], start, trace);
          i := i + 1;
        }
        if receiver == [] {
          break;
        }
        trace := ReceiveOne(start, trace);
        if exited {
          return;
        }
      }
      assert processed + [] == processed;
      ExecSnoc(start, trace, FinishDrain);
      NextKeepsInv(Model(), FinishDrain);
      trace := trace + [FinishDrain];
      Finish();
    }

    /** The iterator found the channel empty. */
    method Finish()
      requires Enabled(Model(), FinishDrain)
      modifies `drained, `draining
      ensures Model() == Next(old(Model()), FinishDrain)
    {
      drained := drained + {draining.value};
      draining := None;
    }
  }
}
