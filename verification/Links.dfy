/** What passes over one keep-alive connection, on values: the requests a client writes,
    the answers of a server that takes them in turn, and the responses read off
    those. A connection that has failed is redialed before it carries another request. */
module Links {
  import opened Options
  import opened Bytes
  import opened ResponseGrammar
  import opened RoundTrip

  /** What a client does not change: whose it is, the size of its buffers, the request
      that opens a connection, and whether bodies are compared. */
  datatype Setup = Setup(client: Client, size: nat, hello: seq<byte>, check: bool)

  /** The grammar as this client reads it from a stream that stops so. */
  function RulesOn(s: Setup, tail: Tail): Rules {
    Rules(s.client, if s.client.Rust? && s.size < 512 then 512 else s.size, tail, false)
  }

  /** What the network and the server do during one operation: whether a dial gets
      through and what answers its request, whether the request can be written and what
      answers that. */
  datatype World = World(dials: bool, dialWrites: bool, dialAnswer: seq<byte>, dialTail: Tail,
                         writes: bool, answer: seq<byte>)

  /** One operation: the request drawn for it, the body that went into that, and the world. */
  datatype Op = Op(request: seq<byte>, payload: seq<byte>, world: World)

  datatype EchoError =
    | RedialFailed | WriteFailed | ReadFailed(error: Error)
    | BadStatus(status: nat) | WrongBody | WrongLength(length: nat)

  /** A request with what the server sent for it. */
  datatype Served = Served(request: seq<byte>, answer: seq<byte>)

  /** A response as its reader saw it; a body that was dropped is not known. */
  datatype Heard = Heard(status: nat, length: nat, body: Option<seq<byte>>)

  /** The history of a socket: the requests written, those the server has yet to take, its
      answers, and the responses read. */
  datatype Talk = Talk(asked: seq<seq<byte>>, pending: seq<seq<byte>>, served: seq<Served>, heard: seq<Heard>)

  /** A connection: its history, what its reader has yet to parse and how that stops,
      whether the reader is on the connection's own socket, and the mark for a failure. */
  datatype Link = Link(talk: Talk, unread: seq<byte>, tail: Tail, own: bool, broken: bool)

  // ---- what happens on it ----

  function Write(l: Link, request: seq<byte>): Link {
    l.(talk := l.talk.(asked := l.talk.asked + [request], pending := l.talk.pending + [request]))
  }

  /** The server takes the request that has waited longest and sends its answer. */
  function Answer(l: Link, answer: seq<byte>): Link
    requires l.talk.pending != []
  {
    var t := l.talk;
    l.(talk := t.(pending := t.pending[1..], served := t.served + [Served(t.pending[0], answer)]),
       unread := if l.own then l.unread + answer else l.unread)
  }

  function HeardOf(reply: Reply, keep: bool): Heard {
    Heard(reply.status, |reply.body|, if keep then Some(reply.body) else None)
  }

  /** The effect of reading a response that comes out so. */
  function Took(l: Link, o: Outcome<Reply>, keep: bool): Link {
    match o
    case Done(reply, rest) => l.(talk := l.talk.(heard := l.talk.heard + [HeardOf(reply, keep)]), unread := rest)
    case Fail(_, rest) => l.(unread := rest, broken := true)
  }

  function Read(s: Setup, l: Link, keep: bool): Link {
    Took(l, Response(RulesOn(s, l.tail), l.unread), keep)
  }

  const SILENCE := Talk([], [], [], [])

  /** What the request that opens a connection is answered with. */
  function Greeting(s: Setup, w: World): Outcome<Reply> {
    Response(RulesOn(s, w.dialTail), w.dialAnswer)
  }

  /** A new socket, its first request answered and read. */
  function Opened(s: Setup, w: World): Link {
    Took(Answer(Write(Link(SILENCE, [], w.dialTail, true, false), s.hello), w.dialAnswer), Greeting(s, w), false)
  }

  /** The dial gets through and its request is answered with a 200. */
  predicate DialOk(s: Setup, w: World) {
    w.dials && w.dialWrites && Greeting(s, w).Done? && Greeting(s, w).value.status == 200
  }

  /** What a dial that is answered leaves, taken together. */
  lemma OpenedIs(s: Setup, w: World)
    requires Greeting(s, w).Done?
    ensures var o := Greeting(s, w);
      Opened(s, w) == Link(Talk([s.hello], [], [Served(s.hello, w.dialAnswer)], [HeardOf(o.value, false)]),
                           o.rest, w.dialTail, true, false)
  {
    GreetedIs(s.hello, w.dialAnswer, w.dialTail, Greeting(s, w));
  }

  lemma GreetedIs(hello: seq<byte>, answer: seq<byte>, tail: Tail, o: Outcome<Reply>)
    requires o.Done?
    ensures Took(Answer(Write(Link(SILENCE, [], tail, true, false), hello), answer), o, false) ==
      Link(Talk([hello], [], [Served(hello, answer)], [HeardOf(o.value, false)]), o.rest, tail, true, false)
  {
    assert [] + [hello] == [hello];
  }

  /** A redial: a new connection or the broken one. Go's reader moves to the new socket
      before it is known to serve. */
  function Redialed(s: Setup, l: Link, w: World): Link {
    if DialOk(s, w) then Opened(s, w)
    else if s.client.Go? && w.dials && w.dialWrites then
      l.(unread := Greeting(s, w).rest, tail := w.dialTail, own := false)
    else l
  }

  function Ready(s: Setup, l: Link, w: World): Link {
    if l.broken then Redialed(s, l, w) else l
  }

  /** The request written and taken up. */
  function Sent(l: Link, op: Op): Link {
    Answer(Write(l, op.request), op.world.answer)
  }

  predicate Keeps(s: Setup) {
    s.check || s.client.Go?
  }

  /** A round trip on a connection that is ready. */
  function Conversed(s: Setup, l: Link, op: Op): Link {
    if op.world.writes then Read(s, Sent(l, op), Keeps(s)) else l.(broken := true)
  }

  /** A whole operation. */
  function After(s: Setup, l: Link, op: Op): Link {
    var r := Ready(s, l, op.world);
    if r.broken then r else Conversed(s, r, op)
  }

  // ---- how it ends ----

  /** What a response is worth to the benchmark. */
  function Verdict(check: bool, payload: seq<byte>, status: nat, length: nat, body: seq<byte>): Option<EchoError> {
    if status != 200 then Some(BadStatus(status))
    else if check && body != payload then Some(WrongBody)
    else if length != |payload| then Some(WrongLength(length))
    else None
  }

  function Judged(s: Setup, payload: seq<byte>, o: Outcome<Reply>): Option<EchoError> {
    match o
    case Fail(e, _) => Some(ReadFailed(e))
    case Done(reply, _) => Verdict(s.check, payload, reply.status, |reply.body|, reply.body)
  }

  function ConversedEnding(s: Setup, l: Link, op: Op): Option<EchoError> {
    if op.world.writes then Judged(s, op.payload, Response(RulesOn(s, l.tail), Sent(l, op).unread)) else Some(WriteFailed)
  }

  function EndingOf(s: Setup, l: Link, op: Op): Option<EchoError> {
    var r := Ready(s, l, op.world);
    if r.broken then Some(RedialFailed) else ConversedEnding(s, r, op)
  }

  /** The endings that leave a connection at an unknown point. */
  predicate Breaks(e: Option<EchoError>) {
    e.Some? && (e.value.RedialFailed? || e.value.WriteFailed? || e.value.ReadFailed?)
  }

  /** Exactly they mark it broken, whatever the peer does. */
  lemma BrokenIff(s: Setup, l: Link, op: Op)
    ensures After(s, l, op).broken <==> Breaks(EndingOf(s, l, op))
  {
  }

  // ---- in step ----

  function RequestsOf(served: seq<Served>): (r: seq<seq<byte>>)
    ensures |r| == |served| && forall k :: 0 <= k < |r| ==> r[k] == served[k].request
  {
    seq(|served|, k requires 0 <= k < |served| => served[k].request)
  }

  /** The server has taken the requests in the order they were written. */
  predicate Fifo(t: Talk) {
    t.asked == RequestsOf(t.served) + t.pending
  }

  /** h is what reading the answer tells, to its last byte. */
  predicate Tells(g: Rules, answer: seq<byte>, h: Heard) {
    var o := Response(g, answer);
    o.Done? && o.rest == [] && h == HeardOf(o.value, h.body.Some?)
  }

  /** The responses read are those to the first answers. */
  ghost predicate HeardFirst(g: Rules, t: Talk) {
    |t.heard| <= |t.served| && forall k :: 0 <= k < |t.heard| ==> Tells(g, t.served[k].answer, t.heard[k])
  }

  /** A connection between two operations: unless it is marked broken its reader is on its
      own socket with nothing left over, and every request has been answered and heard. */
  ghost predicate InStep(s: Setup, l: Link) {
    && Fifo(l.talk)
    && (!l.broken ==>
          && l.own && l.unread == [] && l.talk.pending == []
          && |l.talk.heard| == |l.talk.served| && HeardFirst(RulesOn(s, l.tail), l.talk))
  }

  /** A connection whose last request has been written and not yet read an answer to. */
  ghost predicate Asking(s: Setup, l: Link, request: seq<byte>) {
    && Fifo(l.talk) && !l.broken && l.own
    && |l.talk.asked| == |l.talk.heard| + 1 && l.talk.asked[|l.talk.heard|] == request
    && HeardFirst(RulesOn(s, l.tail), l.talk)
    && l.unread == if l.talk.pending == [] then l.talk.served[|l.talk.heard|].answer else []
  }

  /** A peer that sends no more than one response to a request: whole, cut short or
      malformed, but with nothing after it. */
  predicate SingleAnswer(g: Rules, answer: seq<byte>) {
    var o := Response(g, answer);
    o.Done? ==> o.rest == []
  }

  /** On a connection in step the k-th response read is the answer to the k-th request. */
  lemma InOrder(s: Setup, l: Link, k: nat)
    requires InStep(s, l) && !l.broken && k < |l.talk.asked|
    ensures |l.talk.asked| == |l.talk.served| == |l.talk.heard|
    ensures l.talk.served[k].request == l.talk.asked[k]
    ensures Tells(RulesOn(s, l.tail), l.talk.served[k].answer, l.talk.heard[k])
  {
    assert l.talk.asked == RequestsOf(l.talk.served);
  }

  lemma WriteStep(s: Setup, l: Link, request: seq<byte>)
    requires InStep(s, l) && !l.broken
    ensures Asking(s, Write(l, request), request) && Write(l, request).talk.pending == [request]
  {
  }

  lemma AnswerFifo(l: Link, answer: seq<byte>)
    requires Fifo(l.talk) && l.talk.pending != []
    ensures Fifo(Answer(l, answer).talk)
  {
  }

  lemma AnswerStep(s: Setup, l: Link, request: seq<byte>, answer: seq<byte>)
    requires Asking(s, l, request) && l.talk.pending != []
    ensures Asking(s, Answer(l, answer), request)
    ensures Answer(l, answer).talk.pending == [] && Answer(l, answer).unread == answer
  {
    AnswerFifo(l, answer);
    assert |l.talk.served| + |l.talk.pending| == |l.talk.heard| + 1;
    assert [] + answer == answer;
  }

  /** Reading keeps a connection in step exactly if the answer brought no more than one
      response. */
  lemma ReadStep(s: Setup, l: Link, request: seq<byte>, keep: bool)
    requires Asking(s, l, request)
    ensures InStep(s, Read(s, l, keep)) <==> SingleAnswer(RulesOn(s, l.tail), l.unread)
    ensures Read(s, l, keep).broken <==> Response(RulesOn(s, l.tail), l.unread).Fail?
  {
    var o := Response(RulesOn(s, l.tail), l.unread);
    TookStep(s, l, request, o, keep);
  }

  lemma TookStep(s: Setup, l: Link, request: seq<byte>, o: Outcome<Reply>, keep: bool)
    requires Asking(s, l, request) && o == Response(RulesOn(s, l.tail), l.unread)
    ensures InStep(s, Took(l, o, keep)) <==> o.Fail? || o.rest == []
  {
    if o.Done? {
      // Nothing is read where nothing has come.
      assert l.unread != [] && l.talk.pending == [];
      HeardMore(RulesOn(s, l.tail), l.talk, Took(l, o, keep).talk, HeardOf(o.value, keep));
    }
  }

  lemma HeardMore(g: Rules, t: Talk, t': Talk, h: Heard)
    requires HeardFirst(g, t) && |t.served| == |t.heard| + 1
    requires t'.served == t.served && t'.heard == t.heard + [h]
    ensures HeardFirst(g, t') <==> Tells(g, t.served[|t.heard|].answer, h)
  {
    var n := |t.heard|;
    assert t'.heard[n] == h && t'.served[n] == t.served[n];
    if Tells(g, t.served[n].answer, h) {
      forall k | 0 <= k < |t'.heard|
        ensures Tells(g, t'.served[k].answer, t'.heard[k])
      {
        if k < n { assert t'.heard[k] == t.heard[k]; }
      }
    }
  }

  /** How an operation on a connection in step ends, by what the server did with its own
      request. */
  function Ending(s: Setup, tail: Tail, op: Op): Option<EchoError> {
    if op.world.writes then Judged(s, op.payload, Response(RulesOn(s, tail), op.world.answer)) else Some(WriteFailed)
  }

  /** A round trip keeps a connection in step or breaks it, and adds one exchange. */
  lemma ConversedStep(s: Setup, l: Link, op: Op)
    requires InStep(s, l) && !l.broken && SingleAnswer(RulesOn(s, l.tail), op.world.answer)
    ensures InStep(s, Conversed(s, l, op)) && ConversedEnding(s, l, op) == Ending(s, l.tail, op)
    ensures var c := Conversed(s, l, op);
      !c.broken ==> c.tail == l.tail && c.talk.served == l.talk.served + [Served(op.request, op.world.answer)]
  {
    var w := Write(l, op.request);
    WriteStep(s, l, op.request);
    AnswerStep(s, w, op.request, op.world.answer);
    ReadStep(s, Sent(l, op), op.request, Keeps(s));
  }

  /** A peer that answers each request once, however the stream stops. */
  ghost predicate PeerSingle(s: Setup, w: World) {
    forall tail: Tail ::
      SingleAnswer(RulesOn(s, tail), w.answer) && SingleAnswer(RulesOn(s, tail), w.dialAnswer)
  }

  lemma OpenedStep(s: Setup, w: World)
    requires DialOk(s, w) && SingleAnswer(RulesOn(s, w.dialTail), w.dialAnswer)
    ensures InStep(s, Opened(s, w)) && !Opened(s, w).broken && Opened(s, w).tail == w.dialTail
    ensures Opened(s, w).talk.served == [Served(s.hello, w.dialAnswer)]
  {
    var l := Link(SILENCE, [], w.dialTail, true, false);
    WriteStep(s, l, s.hello);
    AnswerStep(s, Write(l, s.hello), s.hello, w.dialAnswer);
    ReadStep(s, Answer(Write(l, s.hello), w.dialAnswer), s.hello, false);
    assert Opened(s, w) == Read(s, Answer(Write(l, s.hello), w.dialAnswer), false);
  }

  /** A redial makes a connection that is in step, or leaves a broken one. */
  lemma ReadyStep(s: Setup, l: Link, w: World)
    requires InStep(s, l) && SingleAnswer(RulesOn(s, w.dialTail), w.dialAnswer)
    ensures InStep(s, Ready(s, l, w)) && (Ready(s, l, w).broken <==> l.broken && !DialOk(s, w))
    ensures var r := Ready(s, l, w);
      !r.broken ==> r.tail == TailFor(l, w) && r.talk.served == CarriedBefore(s, l, w)
  {
    if l.broken && DialOk(s, w) { OpenedStep(s, w); }
  }

  /** How the socket an operation runs on stops. */
  function TailFor(l: Link, w: World): Tail {
    if l.broken then w.dialTail else l.tail
  }

  /** What that socket has carried before: a redialed one only the request that opened it. */
  function CarriedBefore(s: Setup, l: Link, w: World): seq<Served> {
    if l.broken then [Served(s.hello, w.dialAnswer)] else l.talk.served
  }

  /** An operation on a connection between two: it ends as its own answer says, or in a
      failed redial, and leaves the connection in step with one exchange more on its
      socket, or broken. */
  lemma AfterStep(s: Setup, l: Link, op: Op)
    requires InStep(s, l) && PeerSingle(s, op.world)
    ensures InStep(s, After(s, l, op))
    ensures EndingOf(s, l, op) ==
      if l.broken && !DialOk(s, op.world) then Some(RedialFailed) else Ending(s, TailFor(l, op.world), op)
    ensures var a := After(s, l, op);
      && (!a.broken ==> a.tail == TailFor(l, op.world))
      && (!a.broken ==> a.talk.served == CarriedBefore(s, l, op.world) + [Served(op.request, op.world.answer)])
  {
    ReadyStep(s, l, op.world);
    var r := Ready(s, l, op.world);
    if !r.broken { ConversedStep(s, r, op); }
  }

  // ---- the whole of a socket's stream ----

  function Joined(served: seq<Served>): seq<byte> {
    if served == [] then [] else served[0].answer + Joined(served[1..])
  }

  /** heard is what reading the replies tells. */
  predicate Told(replies: seq<Reply>, heard: seq<Heard>) {
    |replies| == |heard| && forall k :: 0 <= k < |heard| ==> heard[k] == HeardOf(replies[k], heard[k].body.Some?)
  }

  lemma ToldMore(replies: seq<Reply>, heard: seq<Heard>, reply: Reply)
    requires heard != [] && Told(replies, heard[1..]) && heard[0] == HeardOf(reply, heard[0].body.Some?)
    ensures Told([reply] + replies, heard)
  {
    assert heard == [heard[0]] + heard[1..];
  }

  /** The first answer is read off a longer stream as it is alone. */
  lemma FirstOfMore(g: Rules, answer: seq<byte>, h: Heard, more: seq<byte>) returns (reply: Reply)
    requires !g.untilEof && Tells(g, answer, h)
    ensures Response(g, answer + more) == Done(reply, more) && h == HeardOf(reply, h.body.Some?)
  {
    reply := Response(g, answer).value;
    ResponseExtends(g, answer, more);
    assert [] + more == more;
  }

  /** Read from its first byte, a stream of answers is as many responses as were heard,
      those, and nothing more. */
  lemma {:induction false} StreamHeard(g: Rules, served: seq<Served>, heard: seq<Heard>) returns (replies: seq<Reply>)
    requires !g.untilEof && |heard| == |served|
    requires forall k :: 0 <= k < |heard| ==> Tells(g, served[k].answer, heard[k])
    ensures Responses(g, Joined(served), |heard|) == Done(replies, []) && Told(replies, heard)
  {
    replies := [];
    if heard != [] {
      var rest := Joined(served[1..]);
      var first := FirstOfMore(g, served[0].answer, heard[0], rest);
      var others := StreamHeard(g, served[1..], heard[1..]);
      ResponsesStep(g, Joined(served), |heard| - 1, first, rest, others, []);
      replies := [first] + others;
      ToldMore(others, heard, first);
    }
  }

  /** All that ever came on the socket of a connection in step, read from its first byte, is
      one response for each request, as they were heard, and nothing more. */
  lemma LinkHeard(s: Setup, l: Link)
    requires InStep(s, l) && !l.broken
    ensures var o := Responses(RulesOn(s, l.tail), Joined(l.talk.served), |l.talk.asked|);
      o.Done? && o.rest == [] && Told(o.value, l.talk.heard)
  {
    var _ := StreamHeard(RulesOn(s, l.tail), l.talk.served, l.talk.heard);
    assert l.talk.asked == RequestsOf(l.talk.served);
  }

  // ---- peers ----

  /** Well-formed messages are single answers, and so is any front part of one. */
  lemma MessagesAreSingle(g: Rules, m: Message, k: nat)
    requires WellFormed(g, m) && !g.untilEof && k <= |Render(m)|
    ensures SingleAnswer(g, Render(m)[..k])
  {
    if k < |Render(m)| {
      CutMessageFails(g, m, k);
    } else {
      ResponseBack(g, m, []);
      assert Render(m)[..k] == Render(m) + [];
    }
  }

  /** So peers that send well-formed messages, whole or cut short, answer each request once. */
  lemma MessagesMakePeers(s: Setup, w: World, m: Message, k: nat, dialed: Message, k': nat)
    requires WellFormed(RulesOn(s, Closed), m) && k <= |Render(m)| && w.answer == Render(m)[..k]
    requires WellFormed(RulesOn(s, Closed), dialed) && k' <= |Render(dialed)|
    requires w.dialAnswer == Render(dialed)[..k']
    ensures PeerSingle(s, w)
  {
    forall tail: Tail
      ensures SingleAnswer(RulesOn(s, tail), w.answer)
      ensures SingleAnswer(RulesOn(s, tail), w.dialAnswer)
    {
      MessagesAreSingle(RulesOn(s, tail), m, k);
      MessagesAreSingle(RulesOn(s, tail), dialed, k');
    }
  }

  // ---- what a server's messages come to ----

  /** How an operation has to end that is answered with this status and body: well by a 200
      with a body of the length asked for, the same body if bodies are compared. */
  predicate RightEnding(check: bool, payload: seq<byte>, status: nat, body: seq<byte>, e: Option<EchoError>) {
    && (e == None <==> status == 200 && |body| == |payload| && (check ==> body == payload))
    && (e == Some(BadStatus(status)) <==> status != 200)
    && (e == Some(WrongBody) <==> status == 200 && check && body != payload)
    && (e == Some(WrongLength(|body|)) <==> status == 200 && !check && |body| != |payload|)
  }

  lemma NotLost(check: bool, payload: seq<byte>, status: nat, body: seq<byte>, e: Option<EchoError>)
    requires RightEnding(check, payload, status, body, e)
    ensures e != Some(RedialFailed)
  {
  }

  lemma ReadWhole(g: Rules, m: Message)
    requires WellFormed(g, m)
    ensures Response(g, Render(m)) == Done(Reply(m.status, BodyOf(m)), [])
  {
    ResponseBack(g, m, []);
    assert Render(m) + [] == Render(m);
  }

  /** A request that is written and answered by a whole message ends exactly so. */
  lemma EndingIff(s: Setup, tail: Tail, op: Op, m: Message)
    requires op.world.writes && WellFormed(RulesOn(s, tail), m) && op.world.answer == Render(m)
    ensures RightEnding(s.check, op.payload, m.status, BodyOf(m), Ending(s, tail, op))
  {
    ReadWhole(RulesOn(s, tail), m);
  }

  /** A message cut short is a failed read, and a request that cannot be written a failed
      write, whatever comes. */
  lemma EndingFails(s: Setup, tail: Tail, op: Op, m: Message, k: nat)
    requires WellFormed(RulesOn(s, tail), m) && k < |Render(m)| && op.world.answer == Render(m)[..k]
    ensures var e := Ending(s, tail, op);
      if op.world.writes then e.Some? && e.value.ReadFailed? else e == Some(WriteFailed)
  {
    CutMessageFails(RulesOn(s, tail), m, k);
  }

  /** A dial that is answered by a whole message is good exactly if that is a 200. */
  lemma DialIff(s: Setup, w: World, m: Message)
    requires WellFormed(RulesOn(s, w.dialTail), m) && w.dialAnswer == Render(m)
    ensures DialOk(s, w) <==> w.dials && w.dialWrites && m.status == 200
  {
    ReadWhole(RulesOn(s, w.dialTail), m);
  }

  /** And by a message cut short it is not. */
  lemma DialFails(s: Setup, w: World, m: Message, k: nat)
    requires WellFormed(RulesOn(s, w.dialTail), m) && k < |Render(m)| && w.dialAnswer == Render(m)[..k]
    ensures !DialOk(s, w)
  {
    CutMessageFails(RulesOn(s, w.dialTail), m, k);
  }

  /** A message is well-formed however its stream stops. */
  lemma AnyTail(s: Setup, tail: Tail, m: Message)
    requires WellFormed(RulesOn(s, Closed), m)
    ensures WellFormed(RulesOn(s, tail), m)
  {
  }

  lemma LostIff(s: Setup, l: Link, op: Op, dialed: Message)
    requires InStep(s, l) && PeerSingle(s, op.world)
    requires WellFormed(RulesOn(s, op.world.dialTail), dialed) && op.world.dialAnswer == Render(dialed)
    ensures var lost := l.broken && !(op.world.dials && op.world.dialWrites && dialed.status == 200);
      EndingOf(s, l, op) == if lost then Some(RedialFailed) else Ending(s, TailFor(l, op.world), op)
  {
    AfterStep(s, l, op);
    DialIff(s, op.world, dialed);
  }

  /** An operation on a connection between two, by the servers' messages: a connection that
      has failed is dialed and greeted with a 200 or is lost to the operation, and then the
      ending is what the answer is worth. */
  lemma VerdictIff(s: Setup, l: Link, op: Op, m: Message, dialed: Message)
    requires InStep(s, l) && PeerSingle(s, op.world) && op.world.writes
    requires WellFormed(RulesOn(s, Closed), m) && op.world.answer == Render(m)
    requires WellFormed(RulesOn(s, Closed), dialed) && op.world.dialAnswer == Render(dialed)
    ensures var e, lost := EndingOf(s, l, op), l.broken && !(op.world.dials && op.world.dialWrites && dialed.status == 200);
      && (e == Some(RedialFailed) <==> lost)
      && (!lost ==> RightEnding(s.check, op.payload, m.status, BodyOf(m), e))
  {
    var e, tail := EndingOf(s, l, op), TailFor(l, op.world);
    AnyTail(s, op.world.dialTail, dialed);
    AnyTail(s, tail, m);
    LostIff(s, l, op, dialed);
    EndingIff(s, tail, op, m);
    NotLost(s.check, op.payload, m.status, BodyOf(m), Ending(s, tail, op));
  }
}
