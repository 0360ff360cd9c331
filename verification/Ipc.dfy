/**
 Calls and replies over a pair of byte pipes: the client of client.rs against the loop of
 ipc.rs. A call is its JSON text; a frame is a text followed by the byte 0. Readers take
 whatever number of bytes a read returns, so frames arrive in arbitrary pieces.
 */
module Ipc {
  import opened Wrappers
  import opened Json
  import opened JsonReading

  function Frame(text: Bytes): Bytes {
    text + [0]
  }

  function Frames(texts: seq<Bytes>): Bytes {
    if texts == [] then [] else Frame(texts[0]) + Frames(texts[1..])
  }

  function FirstNul(bytes: Bytes): (k: nat)
    requires 0 in bytes
    ensures k < |bytes| && bytes[k] == 0 && NoNul(bytes[..k])
  {
    if bytes[0] == 0 then 0 else 1 + FirstNul(bytes[1..])
  }

  lemma {:induction false} FirstNulIs(bytes: Bytes, k: nat)
    requires k < |bytes| && bytes[k] == 0 && NoNul(bytes[..k])
    ensures 0 in bytes && FirstNul(bytes) == k
  {
    if k > 0 {
      assert bytes[0] == bytes[..k][0];
      assert bytes[1..][..k - 1] == bytes[..k][1..];
      FirstNulIs(bytes[1..], k - 1);
    }
  }

  /** A buffer that begins a stream and holds a byte 0 holds the whole first frame. */
  lemma FirstFrame(buffer: Bytes, later: Bytes, text: Bytes, rest: Bytes)
    requires buffer + later == Frame(text) + rest && NoNul(text) && 0 in buffer
    ensures FirstNul(buffer) == |text| && buffer[..|text|] == text && buffer[|text| + 1..] + later == rest
  {
    var stream := buffer + later;
    var k := FirstNul(buffer);
    assert stream[k] == 0;
    assert forall i | 0 <= i < |text| :: stream[i] == text[i];
    assert |text| <= k < |buffer|;
    assert buffer[..|text|] == stream[..|text|] == text && buffer[|text|] == stream[|text|] == 0;
    FirstNulIs(buffer, |text|);
    assert buffer[|text| + 1..] + later == stream[|text| + 1..];
  }

  /**
   The host side: `oneway` reads the flag out of a call, `answer` is what the handler writes
   back, given the calls of the session so far. A handler that fails, or does not know the
   method, writes nothing.
   */
  datatype Peer = Peer(oneway: Bytes -> bool, answer: (seq<Bytes>, Bytes) -> Option<Bytes>)

  ghost predicate Sound(peer: Peer) {
    && (forall history, call :: peer.oneway(call) ==> peer.answer(history, call) == None)
    && (forall history, call :: peer.answer(history, call).Some? ==> NoNul(peer.answer(history, call).value))
  }

  /** A host that reads the one-way flag from the text of the call, and answers in JSON, but not one-way calls. */
  ghost predicate SpeaksJson(peer: Peer) {
    && (forall call | IsCallText(call) :: peer.oneway(call) <==> IsOneway(call))
    && (forall history, call :: peer.oneway(call) ==> peer.answer(history, call) == None)
    && (forall history, call :: peer.answer(history, call).Some? ==> IsReplyText(peer.answer(history, call).value))
  }

  /** Frames split where they should because JSON escapes the separator. */
  lemma JsonIsSound(peer: Peer)
    requires SpeaksJson(peer)
    ensures Sound(peer)
  {
    forall history, call | peer.answer(history, call).Some? ensures NoNul(peer.answer(history, call).value) {
      FramedTextsHaveNoNul(peer.answer(history, call).value);
    }
  }

  datatype Link = Link(
    calls: seq<Bytes>,               // issued so far
    toServer: Bytes, serverBuffer: Bytes, handled: seq<Bytes>,
    toClient: Bytes, waiting: bool, clientBuffer: Bytes,
    replies: seq<Option<Bytes>>,     // one for each finished call
    dropped: Bytes)                  // read from the pipe and thrown away with a reader

  datatype Step =
    | Issue(call: Bytes)
    | ServerRead(count: nat)
    | ServerHandle
    | ClientRead(count: nat)
    | ClientReturn

  const START := Link([], [], [], [], [], false, [], [], [])

  predicate Enabled(peer: Peer, l: Link, step: Step) {
    match step
    case Issue(_) => !l.waiting
    case ServerRead(n) => 0 < n <= |l.toServer| && 0 !in l.serverBuffer
    case ServerHandle => 0 in l.serverBuffer
    case ClientRead(n) => l.waiting && 0 < n <= |l.toClient| && 0 !in l.clientBuffer
    case ClientReturn => l.waiting && 0 in l.clientBuffer
  }

  function Next(peer: Peer, l: Link, step: Step): Link
    requires Enabled(peer, l, step)
  {
    match step
    case Issue(call) =>
      var sent := l.(calls := l.calls + [call], toServer := l.toServer + Frame(call));
      if peer.oneway(call) then sent.(replies := l.replies + [None])
      else sent.(waiting := true, clientBuffer := [])
    case ServerRead(n) =>
      l.(serverBuffer := l.serverBuffer + l.toServer[..n], toServer := l.toServer[n..])
    case ServerHandle =>
      var k := FirstNul(l.serverBuffer);
      var call := l.serverBuffer[..k];
      var reply := peer.answer(l.handled, call);
      l.(serverBuffer := l.serverBuffer[k + 1..], handled := l.handled + [call],
         toClient := if reply.Some? then l.toClient + Frame(reply.value) else l.toClient)
    case ClientRead(n) =>
      l.(clientBuffer := l.clientBuffer + l.toClient[..n], toClient := l.toClient[n..])
    case ClientReturn =>
      // The reader of this call goes away with whatever it read beyond the frame.
      var k := FirstNul(l.clientBuffer);
      l.(replies := l.replies + [Some(l.clientBuffer[..k])], dropped := l.dropped + l.clientBuffer[k + 1..],
         waiting := false, clientBuffer := [])
  }

  predicate Run(peer: Peer, l: Link, steps: seq<Step>)
    decreases |steps|
  {
    steps == [] || (Enabled(peer, l, steps[0]) && Run(peer, Next(peer, l, steps[0]), steps[1..]))
  }

  function Exec(peer: Peer, l: Link, steps: seq<Step>): Link
    requires Run(peer, l, steps)
    decreases |steps|
  {
    if steps == [] then l else Exec(peer, Next(peer, l, steps[0]), steps[1..])
  }

  /** What the handler makes for call number `i` of the session. */
  function AnswerTo(peer: Peer, calls: seq<Bytes>, i: nat): Option<Bytes>
    requires i < |calls|
  {
    peer.answer(calls[..i], calls[i])
  }

  /** The bytes under way to the client: the reply it waits for, once the handler has made it. */
  function Expected(peer: Peer, l: Link): Bytes {
    if l.waiting && l.calls != [] && |l.handled| == |l.calls| && AnswerTo(peer, l.calls, |l.calls| - 1).Some?
    then Frame(AnswerTo(peer, l.calls, |l.calls| - 1).value) else []
  }

  predicate RequestsInOrder(l: Link) {
    && |l.handled| <= |l.calls| && l.handled == l.calls[..|l.handled|]
    && l.serverBuffer + l.toServer == Frames(l.calls[|l.handled|..])
    && (forall i | 0 <= i < |l.calls| :: NoNul(l.calls[i]))
  }

  predicate RepliesMatch(peer: Peer, l: Link) {
    && |l.replies| + (if l.waiting then 1 else 0) == |l.calls|
    && (l.waiting ==> !peer.oneway(l.calls[|l.calls| - 1]))
    && (forall i | 0 <= i < |l.replies| :: l.replies[i] == AnswerTo(peer, l.calls, i))
    && (forall i | 0 <= i < |l.replies| :: l.replies[i].None? <==> peer.oneway(l.calls[i]))
    && (forall i | |l.handled| <= i < |l.replies| :: peer.oneway(l.calls[i]))
  }

  predicate Inv(peer: Peer, l: Link) {
    && RequestsInOrder(l) && RepliesMatch(peer, l)
    && l.clientBuffer + l.toClient == Expected(peer, l)
    && l.dropped == [] && (!l.waiting ==> l.clientBuffer == [])
  }

  lemma {:induction false} FramesSnoc(texts: seq<Bytes>, text: Bytes)
    ensures Frames(texts + [text]) == Frames(texts) + Frame(text)
  {
    if texts == [] {
      assert [] + [text] == [text];
    } else {
      FramesSnoc(texts[1..], text);
      assert (texts + [text])[1..] == texts[1..] + [text];
    }
  }

  lemma IssueKeepsRequests(peer: Peer, l: Link, call: Bytes)
    requires RequestsInOrder(l) && Enabled(peer, l, Issue(call)) && NoNul(call)
    ensures RequestsInOrder(Next(peer, l, Issue(call)))
  {
    var t := Next(peer, l, Issue(call));
    var n := |l.handled|;
    FramesSnoc(l.calls[n..], call);
    assert t.calls[n..] == l.calls[n..] + [call];
    assert t.serverBuffer + t.toServer == l.serverBuffer + l.toServer + Frame(call);
  }

  lemma IssueKeepsReplies(peer: Peer, l: Link, call: Bytes)
    requires Sound(peer) && RepliesMatch(peer, l) && |l.handled| <= |l.calls| && Enabled(peer, l, Issue(call))
    ensures RepliesMatch(peer, Next(peer, l, Issue(call)))
  {
    var t := Next(peer, l, Issue(call));
    assert forall i | 0 <= i <= |l.calls| :: t.calls[..i] == l.calls[..i];
    assert forall i | 0 <= i < |l.calls| :: t.calls[i] == l.calls[i];
  }

  lemma IssueKeepsInv(peer: Peer, l: Link, call: Bytes)
    requires Sound(peer) && Inv(peer, l) && Enabled(peer, l, Issue(call)) && NoNul(call)
    ensures Inv(peer, Next(peer, l, Issue(call)))
  {
    IssueKeepsRequests(peer, l, call);
    IssueKeepsReplies(peer, l, call);
  }

  lemma HandleFindsCall(l: Link)
    requires RequestsInOrder(l) && 0 in l.serverBuffer
    ensures |l.handled| < |l.calls| && FirstNul(l.serverBuffer) == |l.calls[|l.handled|]|
    ensures l.serverBuffer[..FirstNul(l.serverBuffer)] == l.calls[|l.handled|]
    ensures l.serverBuffer[FirstNul(l.serverBuffer) + 1..] + l.toServer == Frames(l.calls[|l.handled| + 1..])
  {
    var n := |l.handled|;
    assert l.serverBuffer + l.toServer != [];
    assert l.calls[n..] == [l.calls[n]] + l.calls[n + 1..];
    FirstFrame(l.serverBuffer, l.toServer, l.calls[n], Frames(l.calls[n + 1..]));
  }

  lemma HandleKeepsRequests(peer: Peer, l: Link)
    requires RequestsInOrder(l) && Enabled(peer, l, ServerHandle)
    ensures var t := Next(peer, l, ServerHandle);
            RequestsInOrder(t) && |t.handled| == |l.handled| + 1 && t.calls == l.calls
  {
    HandleFindsCall(l);
    assert Next(peer, l, ServerHandle).handled == l.calls[..|l.handled| + 1];
  }

  /** Before the last call is handled nothing is under way to the client; then its answer is. */
  lemma HandleAnswers(peer: Peer, l: Link)
    requires Sound(peer) && Inv(peer, l) && Enabled(peer, l, ServerHandle)
    ensures var t := Next(peer, l, ServerHandle);
            t.clientBuffer + t.toClient == Expected(peer, t) && (!t.waiting ==> t.clientBuffer == [])
  {
    HandleFindsCall(l);
    var answer := AnswerTo(peer, l.calls, |l.handled|);
    assert l.clientBuffer == [] && l.toClient == [];
    assert Next(peer, l, ServerHandle).toClient == if answer.Some? then Frame(answer.value) else [];
  }

  lemma HandleKeepsInv(peer: Peer, l: Link)
    requires Sound(peer) && Inv(peer, l) && Enabled(peer, l, ServerHandle)
    ensures Inv(peer, Next(peer, l, ServerHandle))
  {
    HandleKeepsRequests(peer, l);
    HandleAnswers(peer, l);
  }

  /** A client that finds nothing more to read has the whole reply, if there is one. */
  lemma ReplyComplete(peer: Peer, l: Link)
    requires Sound(peer) && Inv(peer, l) && l.waiting && |l.handled| == |l.calls|
    requires 0 in l.clientBuffer || l.toClient == []
    ensures var answer := AnswerTo(peer, l.calls, |l.calls| - 1);
            && (0 in l.clientBuffer <==> answer.Some?)
            && (0 in l.clientBuffer ==> answer == Some(l.clientBuffer[..FirstNul(l.clientBuffer)]))
  {
    var answer := AnswerTo(peer, l.calls, |l.calls| - 1);
    if answer.Some? {
      assert Frame(answer.value)[|answer.value|] == 0;
      assert l.clientBuffer + l.toClient == Frame(answer.value) + [];
      assert 0 in l.clientBuffer + l.toClient;
      FirstFrame(l.clientBuffer, l.toClient, answer.value, []);
    }
  }

  lemma ReturnKeepsInv(peer: Peer, l: Link)
    requires Sound(peer) && Inv(peer, l) && Enabled(peer, l, ClientReturn)
    ensures Inv(peer, Next(peer, l, ClientReturn))
  {
    assert l.clientBuffer + l.toClient != [];
    var reply := AnswerTo(peer, l.calls, |l.calls| - 1).value;
    assert Frame(reply) + [] == Frame(reply);
    FirstFrame(l.clientBuffer, l.toClient, reply, []);
  }

  lemma ServerReadKeepsInv(peer: Peer, l: Link, n: nat)
    requires Inv(peer, l) && Enabled(peer, l, ServerRead(n))
    ensures Inv(peer, Next(peer, l, ServerRead(n)))
  {
    assert l.serverBuffer + l.toServer[..n] + l.toServer[n..] == l.serverBuffer + l.toServer;
  }

  lemma ClientReadKeepsInv(peer: Peer, l: Link, n: nat)
    requires Inv(peer, l) && Enabled(peer, l, ClientRead(n))
    ensures Inv(peer, Next(peer, l, ClientRead(n)))
  {
    assert l.clientBuffer + l.toClient[..n] + l.toClient[n..] == l.clientBuffer + l.toClient;
  }

  lemma NextKeepsInv(peer: Peer, l: Link, step: Step)
    requires Sound(peer) && Inv(peer, l) && Enabled(peer, l, step) && (step.Issue? ==> NoNul(step.call))
    ensures Inv(peer, Next(peer, l, step))
  {
    match step
    case Issue(call) => IssueKeepsInv(peer, l, call);
    case ServerRead(n) => ServerReadKeepsInv(peer, l, n);
    case ServerHandle => HandleKeepsInv(peer, l);
    case ClientRead(n) => ClientReadKeepsInv(peer, l, n);
    case ClientReturn => ReturnKeepsInv(peer, l);
  }

  /** The client issues only calls in JSON. */
  ghost predicate CallsInJson(steps: seq<Step>) {
    forall i | 0 <= i < |steps| && steps[i].Issue? :: IsCallText(steps[i].call)
  }

  lemma {:induction false} RunsKeepInv(peer: Peer, l: Link, steps: seq<Step>)
    requires Sound(peer) && Inv(peer, l) && Run(peer, l, steps) && CallsInJson(steps)
    ensures Inv(peer, Exec(peer, l, steps))
    decreases |steps|
  {
    if steps != [] {
      if steps[0].Issue? {
        FramedTextsHaveNoNul(steps[0].call);
      }
      NextKeepsInv(peer, l, steps[0]);
      RunsKeepInv(peer, Next(peer, l, steps[0]), steps[1..]);
    }
  }

  lemma {:induction false} CallsStayInJson(peer: Peer, l: Link, steps: seq<Step>)
    requires Run(peer, l, steps) && CallsInJson(steps)
    requires forall i | 0 <= i < |l.calls| :: IsCallText(l.calls[i])
    ensures forall i | 0 <= i < |Exec(peer, l, steps).calls| :: IsCallText(Exec(peer, l, steps).calls[i])
    decreases |steps|
  {
    if steps != [] {
      var t := Next(peer, l, steps[0]);
      assert forall i | 0 <= i < |t.calls| :: IsCallText(t.calls[i]);
      CallsStayInJson(peer, t, steps[1..]);
    }
  }

  /**
   Reply matching. After any run of calls and replies in JSON, each finished call has got the
   reply that the handler made for it, and none exactly if its own text says that it is
   one-way; when no call is waiting the reply pipe is empty; and no byte was ever lost with
   the reader of a call.
   */
  lemma RepliesMatchCalls(peer: Peer, steps: seq<Step>)
    requires SpeaksJson(peer) && CallsInJson(steps) && Run(peer, START, steps)
    ensures var l := Exec(peer, START, steps);
            && |l.replies| <= |l.calls|
            && (forall i | 0 <= i < |l.replies| ::
                  l.replies[i] == AnswerTo(peer, l.calls, i) && (l.replies[i].None? <==> IsOneway(l.calls[i])))
            && (!l.waiting ==> |l.replies| == |l.calls| && l.toClient == [])
            && l.dropped == []
  {
    JsonIsSound(peer);
    RunsKeepInv(peer, START, steps);
    CallsStayInJson(peer, START, steps);
  }

  /** Nothing more can happen before the client issues a call. */
  predicate Still(l: Link) {
    l.toServer == [] && 0 !in l.serverBuffer && l.toClient == [] && 0 !in l.clientBuffer
  }

  /** When everything has come to rest, the client still waits if and only if its call has no answer. */
  lemma WaitsForeverIffNoAnswer(peer: Peer, steps: seq<Step>)
    requires SpeaksJson(peer) && CallsInJson(steps) && Run(peer, START, steps) && Still(Exec(peer, START, steps))
    requires Exec(peer, START, steps).calls != []
    ensures var l := Exec(peer, START, steps);
            var last := |l.calls| - 1;
            l.waiting <==> !peer.oneway(l.calls[last]) && AnswerTo(peer, l.calls, last) == None
  {
    JsonIsSound(peer);
    RunsKeepInv(peer, START, steps);
    var l := Exec(peer, START, steps);
    AllHandledWhenStill(l);
    if l.waiting {
      ReplyComplete(peer, l);
    } else {
      assert l.replies[|l.calls| - 1] == AnswerTo(peer, l.calls, |l.calls| - 1);
    }
  }

  lemma FramesHaveNul(texts: seq<Bytes>)
    ensures texts != [] ==> 0 in Frames(texts)
  {
    if texts != [] {
      assert Frames(texts)[|texts[0]|] == 0;
    }
  }

  lemma AllHandledWhenStill(l: Link)
    requires RequestsInOrder(l) && Still(l)
    ensures |l.handled| == |l.calls|
  {
    FramesHaveNul(l.calls[|l.handled|..]);
    assert l.serverBuffer + l.toServer == l.serverBuffer;
  }

  /** read_until: pieces of arbitrary size move from the pipe to the buffer until it holds a byte 0. */
  method ReadUntilNul(buffer: Bytes, pipe: Bytes, pieces: seq<nat>) returns (filled: Bytes, rest: Bytes)
    ensures filled + rest == buffer + pipe && buffer <= filled
    ensures 0 in filled || rest == []
    ensures 0 in buffer ==> filled == buffer
  {
    filled, rest := buffer, pipe;
    var turn := 0;
    while 0 !in filled && rest != []
      invariant filled + rest == buffer + pipe && buffer <= filled
      invariant 0 in buffer ==> filled == buffer
      decreases |rest|
    {
      var piece := if turn < |pieces| && 0 < pieces[turn] <= |rest| then pieces[turn] else |rest|;
      filled, rest := filled + rest[..piece], rest[piece..];
      turn := turn + 1;
    }
  }

  /** Bytes that move from a pipe to the buffer behind it keep the invariant. */
  lemma ReadingKeepsInv(peer: Peer, l: Link, t: Link)
    requires Inv(peer, l)
    requires t == l.(serverBuffer := t.serverBuffer, toServer := t.toServer,
                     clientBuffer := t.clientBuffer, toClient := t.toClient)
    requires t.serverBuffer + t.toServer == l.serverBuffer + l.toServer
    requires t.clientBuffer + t.toClient == l.clientBuffer + l.toClient
    requires !l.waiting ==> t.clientBuffer == []
    ensures Inv(peer, t)
  {
  }

  // ----- Client and host as objects -----

  /** One connection: the pipes, the buffers of both ends, and the host's session. */
  class Connection {
    const peer: Peer
    var calls: seq<Bytes>
    var toServer: Bytes
    var serverBuffer: Bytes
    var handled: seq<Bytes>
    var toClient: Bytes
    var waiting: bool
    var clientBuffer: Bytes
    var replies: seq<Option<Bytes>>
    var dropped: Bytes

    ghost function Model(): Link
      reads this
    {
      Link(calls, toServer, serverBuffer, handled, toClient, waiting, clientBuffer, replies, dropped)
    }

    ghost predicate Valid()
      reads this
    {
      Sound(peer) && Inv(peer, Model())
    }

    constructor (peer: Peer)
      requires SpeaksJson(peer)
      ensures Valid() && this.peer == peer && Model() == START
    {
      this.peer := peer;
      calls, toServer, serverBuffer, handled, toClient := [], [], [], [], [];
      waiting, clientBuffer, replies, dropped := false, [], [], [];
      new;
      JsonIsSound(peer);
    }

    /** The host reads until it has a call. */
    method ReadCall(pieces: seq<nat>)
      requires Valid() && |handled| < |calls|
      modifies `toServer, `serverBuffer
      ensures Valid() && 0 in serverBuffer
    {
      FramesHaveNul(calls[|handled|..]);
      ghost var before := Model();
      serverBuffer, toServer := ReadUntilNul(serverBuffer, toServer, pieces);
      ReadingKeepsInv(peer, before, Model());
      assert 0 in serverBuffer + toServer;
    }

    /** The handler of one call and its reply. */
    method HandleCall()
      requires Enabled(peer, Model(), ServerHandle)
      modifies `serverBuffer, `handled, `toClient
      ensures Model() == Next(peer, old(Model()), ServerHandle)
    {
      var k := FirstNul(serverBuffer);
      var call := serverBuffer[..k];
      var reply := peer.answer(handled, call);
      serverBuffer := serverBuffer[k + 1..];
      handled := handled + [call];
      if reply.Some? {
        toClient := toClient + Frame(reply.value);
      }
    }

    /** ipc_loop_once, entered when a call is outstanding. */
    method IpcLoopOnce(pieces: seq<nat>)
      requires Valid() && |handled| < |calls|
      modifies `toServer, `serverBuffer, `handled, `toClient
      ensures Valid() && handled == old(handled) + [calls[|old(handled)|]]
    {
      ReadCall(pieces);
      HandleFindsCall(Model());
      HandleKeepsInv(peer, Model());
      HandleCall();
    }

    /** One turn of the host: it handles a complete call, or reads a piece. */
    method HostTurn(piece: nat)
      requires Valid()
      modifies `toServer, `serverBuffer, `handled, `toClient
      ensures Valid() && old(handled) <= handled
    {
      if 0 in serverBuffer {
        HandleKeepsInv(peer, Model());
        HandleCall();
      } else if toServer != [] {
        var n := if 0 < piece <= |toServer| then piece else |toServer|;
        ServerReadKeepsInv(peer, Model(), n);
        serverBuffer, toServer := serverBuffer + toServer[..n], toServer[n..];
      }
    }

    /** The host goes on by itself, for a number of turns. */
    method HostWorks(pieces: seq<nat>)
      requires Valid()
      modifies `toServer, `serverBuffer, `handled, `toClient
      ensures Valid() && old(handled) <= handled
    {
      for i := 0 to |pieces|
        invariant Valid() && old(handled) <= handled
      {
        HostTurn(pieces[i]);
      }
    }

    method Write(call: Bytes)
      requires Enabled(peer, Model(), Issue(call))
      modifies this
      ensures Model() == Next(peer, old(Model()), Issue(call))
    {
      toServer := toServer + Frame(call);
      calls := calls + [call];
      if peer.oneway(call) {
        replies := replies + [None];
      } else {
        waiting, clientBuffer := true, [];
      }
    }

    /** A call in JSON is put into the pipe as a frame. */
    method WriteCall(call: Bytes)
      requires Valid() && !waiting && IsCallText(call)
      modifies this
      ensures Valid() && calls == old(calls) + [call] && handled == old(handled) && waiting == !peer.oneway(call)
    {
      FramedTextsHaveNoNul(call);
      ghost var before := Model();
      IssueKeepsInv(peer, before, call);
      Write(call);
    }

    /** The reader that belongs to this call takes what there is, until a frame is complete. */
    method FillClientBuffer(pieces: seq<nat>)
      requires Valid() && waiting
      modifies `toClient, `clientBuffer
      ensures Valid() && (0 in clientBuffer || toClient == [])
    {
      ghost var before := Model();
      clientBuffer, toClient := ReadUntilNul(clientBuffer, toClient, pieces);
      ReadingKeepsInv(peer, before, Model());
    }

    /** The reply is taken out of the buffer, and the reader is dropped with what it still holds. */
    method TakeReply() returns (reply: Option<Bytes>)
      requires Enabled(peer, Model(), ClientReturn)
      modifies `clientBuffer, `replies, `dropped, `waiting
      ensures Model() == Next(peer, old(Model()), ClientReturn)
      ensures reply == Some(old(clientBuffer)[..FirstNul(old(clientBuffer))])
    {
      var k := FirstNul(clientBuffer);
      reply := Some(clientBuffer[..k]);
      replies, dropped := replies + [reply], dropped + clientBuffer[k + 1..];
      waiting, clientBuffer := false, [];
    }

    /** A complete frame is the answer to the call, and the call is over. */
    method Return() returns (reply: Option<Bytes>)
      requires Valid() && waiting && |handled| == |calls| && 0 in clientBuffer
      modifies `clientBuffer, `replies, `dropped, `waiting
      ensures Valid() && !waiting && reply.Some? && reply == AnswerTo(peer, calls, |calls| - 1)
    {
      ReplyComplete(peer, Model());
      ReturnKeepsInv(peer, Model());
      reply := TakeReply();
    }

    /** The rest of ChewingIpcClient::send, once the host has handled the call. */
    method ReadReply(pieces: seq<nat>) returns (reply: Option<Bytes>)
      requires Valid() && waiting && |handled| == |calls|
      modifies `toClient, `clientBuffer, `replies, `dropped, `waiting
      ensures Valid() && reply == AnswerTo(peer, calls, |calls| - 1) && waiting == reply.None?
    {
      FillClientBuffer(pieces);
      if 0 in clientBuffer {
        reply := Return();
      } else {
        ReplyComplete(peer, Model());
        reply := None;
      }
    }

    /** The host answers in its own loop until it has handled every call. */
    method ServeAll(pieces: seq<nat>)
      requires Valid()
      modifies `toServer, `serverBuffer, `handled, `toClient
      ensures Valid() && |handled| == |calls| && old(handled) <= handled
    {
      while |handled| < |calls|
        invariant Valid() && old(handled) <= handled
        decreases |calls| - |handled|
      {
        IpcLoopOnce(pieces);
      }
    }

    /** The client reads between the turns of the host. */
    method ReadMeanwhile(turns: seq<seq<nat>>, pieces: seq<nat>)
      requires Valid() && waiting
      modifies `toServer, `serverBuffer, `handled, `toClient, `clientBuffer
      ensures Valid() && old(handled) <= handled
    {
      for i := 0 to |turns|
        invariant Valid() && old(handled) <= handled
      {
        HostWorks(turns[i]);
        FillClientBuffer(pieces);
      }
    }

    method Await(turns: seq<seq<nat>>, pieces: seq<nat>) returns (reply: Option<Bytes>)
      requires Valid() && waiting
      modifies `toServer, `serverBuffer, `handled, `toClient, `clientBuffer, `replies, `dropped, `waiting
      ensures Valid() && old(handled) <= handled
      ensures reply == AnswerTo(peer, calls, |calls| - 1) && waiting == reply.None?
    {
      ReadMeanwhile(turns, pieces);
      ServeAll(pieces);
      reply := ReadReply(pieces);
    }

    /**
     ChewingIpcClient::send against a host that works on its own, in any schedule: `ahead`
     before the call is written, `turns` between the reads of the client. A one-way call
     returns at once; a two-way call returns what the handler made for this very call, and is
     left waiting exactly when the handler made nothing.
     */
    method Send(call: Bytes, ahead: seq<nat>, turns: seq<seq<nat>>, pieces: seq<nat>) returns (reply: Option<Bytes>)
      requires Valid() && !waiting && IsCallText(call)
      modifies this
      ensures Valid() && calls == old(calls) + [call] && old(handled) <= handled
      ensures peer.oneway(call) ==> reply == None && !waiting
      ensures !peer.oneway(call) ==> reply == peer.answer(old(calls), call) && waiting == reply.None?
    {
      HostWorks(ahead);
      if peer.oneway(call) {
        WriteCall(call);
        reply := None;
      } else {
        reply := CallAndWait(call, turns, pieces);
      }
    }

    method CallAndWait(call: Bytes, turns: seq<seq<nat>>, pieces: seq<nat>) returns (reply: Option<Bytes>)
      requires Valid() && !waiting && IsCallText(call) && !peer.oneway(call)
      modifies this
      ensures Valid() && calls == old(calls) + [call] && old(handled) <= handled
      ensures reply == peer.answer(old(calls), call) && waiting == reply.None?
    {
      WriteCall(call);
      reply := Await(turns, pieces);
      assert calls[..|calls| - 1] == old(calls);
    }
  }
}
