/** The Rust client's keep-alive connections, on real buffers: each operation moves a
    connection exactly as the links of Links move. */
module EchoConnections {
  import opened Options
  import opened Bytes
  import opened ResponseGrammar
  import opened BufferedReader
  import opened Links

  /** The reader has the size of this client's. */
  ghost predicate Fits(s: Setup, rbuf: RBuf) {
    s.client.Rust? && rbuf.buf.Length == RulesOn(s, Closed).capacity
  }

  /** A socket and its reader, as a link. */
  ghost function LinkOf(talk: Talk, stream: Source, rbuf: RBuf, broken: bool): Link
    requires rbuf.Valid()
    reads stream, rbuf, rbuf.buf
  {
    Link(talk, rbuf.Logical(stream), stream.tail, true, broken)
  }

  class Conn {
    var stream: Source
    var rbuf: RBuf
    var broken: bool
    ghost var talk: Talk
    ghost var Repr: set<object>

    ghost predicate Valid(s: Setup)
      reads this, Repr
      ensures Valid(s) ==> this in Repr
    {
      Repr == {this, stream, rbuf, rbuf.buf} && rbuf.Valid() && Fits(s, rbuf)
    }

    ghost function State(): Link
      requires rbuf.Valid()
      reads this, stream, rbuf, rbuf.buf
    {
      LinkOf(talk, stream, rbuf, broken)
    }

    /** A connection as a dial leaves it. */
    constructor (stream: Source, rbuf: RBuf, ghost talk: Talk, ghost s: Setup)
      requires rbuf.Valid() && Fits(s, rbuf)
      ensures Valid(s) && Repr == {this, stream, rbuf, rbuf.buf}
      ensures State() == LinkOf(talk, stream, rbuf, false)
    {
      this.stream, this.rbuf, this.broken := stream, rbuf, false;
      this.talk := talk;
      Repr := {this, stream, rbuf, rbuf.buf};
    }
  }

  /** What the peer answers goes down the wire and is read as a response. */
  method Receive(stream: Source, rbuf: RBuf, keep: bool, answer: seq<byte>, ghost g: Rules)
    returns (res: Result<(nat, nat)>, body: seq<byte>)
    requires rbuf.Valid() && rbuf.Reads(stream, g) && !g.untilEof
    modifies stream, rbuf, rbuf.buf
    ensures rbuf.Valid()
    ensures var o := Response(g, old(rbuf.Logical(stream)) + answer);
      && rbuf.Logical(stream) == o.rest
      && (o.Fail? ==> res == Err(o.error))
      && (o.Done? ==> res == Ok((o.value.status, |o.value.body|)) && body == if keep then o.value.body else [])
  {
    ghost var was := rbuf.Logical(stream);
    stream.unread := stream.unread + answer;
    assert rbuf.Logical(stream) == was + answer;
    res, body := rbuf.ReadResponse(stream, keep, false, g);
  }

  /** The history with what a read brought. */
  ghost function Hearing(talk: Talk, res: Result<(nat, nat)>, keep: bool, body: seq<byte>): Talk {
    if res.Err? then talk
    else talk.(heard := talk.heard + [Heard(res.value.0, res.value.1, if keep then Some(body) else None)])
  }

  /** A request written, taken up by the peer, and a response read. */
  method Exchange(stream: Source, rbuf: RBuf, keep: bool, request: seq<byte>, answer: seq<byte>,
                  ghost talk: Talk, ghost s: Setup)
    returns (res: Result<(nat, nat)>, body: seq<byte>, ghost talk': Talk)
    requires rbuf.Valid() && Fits(s, rbuf)
    modifies stream, rbuf, rbuf.buf
    ensures rbuf.Valid()
    ensures var l := old(Answer(Write(LinkOf(talk, stream, rbuf, false), request), answer));
      var o := Response(RulesOn(s, l.tail), l.unread);
      && LinkOf(talk', stream, rbuf, res.Err?) == Took(l, o, keep)
      && (o.Fail? ==> res == Err(o.error))
      && (o.Done? ==> res == Ok((o.value.status, |o.value.body|)) && body == if keep then o.value.body else [])
  {
    ghost var l := Answer(Write(LinkOf(talk, stream, rbuf, false), request), answer);
    res, body := Receive(stream, rbuf, keep, answer, RulesOn(s, stream.tail));
    talk' := Hearing(l.talk, res, keep, body);
  }

  /** Opens a connection and exchanges the first request and response on it. */
  method Dial(s: Setup, w: World) returns (r: Option<(Source, RBuf)>, ghost talk: Talk)
    requires s.client.Rust?
    ensures r.Some? <==> DialOk(s, w)
    ensures r.Some? ==> fresh(r.value.0) && fresh(r.value.1) && fresh(r.value.1.buf)
    ensures r.Some? ==> r.value.1.Valid() && Fits(s, r.value.1)
    ensures r.Some? ==> LinkOf(talk, r.value.0, r.value.1, false) == Opened(s, w)
  {
    talk := SILENCE;
    if !w.dials || !w.dialWrites { return None, talk; }
    var stream := new Source([], w.dialTail);
    var rbuf := new RBuf(s.size);
    assert LinkOf(talk, stream, rbuf, false) == Link(SILENCE, [], w.dialTail, true, false);
    assert [] + w.dialAnswer == w.dialAnswer;
    var head, _, t := Exchange(stream, rbuf, false, s.hello, w.dialAnswer, talk, s);
    talk := t;
    if head.Err? || head.value.0 != 200 { return None, talk; }
    return Some((stream, rbuf)), talk;
  }

  /** A broken connection takes a new socket and its reader. */
  method Replace(c: Conn, stream: Source, rbuf: RBuf, ghost talk: Talk, ghost s: Setup)
    requires rbuf.Valid() && Fits(s, rbuf)
    modifies c
    ensures c.Valid(s) && c.Repr == {c, stream, rbuf, rbuf.buf}
    ensures c.State() == old(LinkOf(talk, stream, rbuf, false))
    ensures c.stream == stream && c.rbuf == rbuf && !c.broken
  {
    c.stream, c.rbuf := stream, rbuf;
    c.broken := false;
    c.talk := talk;
    c.Repr := {c, c.stream, c.rbuf, c.rbuf.buf};
  }

  /** Replaces a broken connection; one that cannot be replaced stays broken. */
  method Redial(c: Conn, s: Setup, w: World) returns (ok: bool)
    requires c.Valid(s) && c.broken
    modifies c
    ensures c.Valid(s) && ok == !c.broken
    ensures if ok then fresh(c.stream) && fresh(c.rbuf) && fresh(c.rbuf.buf) else c.Repr == old(c.Repr)
    ensures c.State() == Redialed(s, old(c.State()), w)
  {
    var r, talk := Dial(s, w);
    if r.None? { return false; }
    Replace(c, r.value.0, r.value.1, talk, s);
    return true;
  }

  /** Redials a connection that is broken. */
  method Restore(c: Conn, s: Setup, w: World) returns (ok: bool)
    requires c.Valid(s)
    modifies c
    ensures c.Valid(s) && ok == !c.broken
    ensures c.Repr == old(c.Repr) || (fresh(c.stream) && fresh(c.rbuf) && fresh(c.rbuf.buf))
    ensures c.State() == Ready(s, old(c.State()), w)
  {
    ok := true;
    if c.broken { ok := Redial(c, s, w); }
  }

  /** A round trip on a connection that is ready. */
  method Converse(c: Conn, s: Setup, op: Op) returns (e: Option<EchoError>)
    requires c.Valid(s) && !c.broken
    modifies c.Repr
    ensures c.Valid(s) && c.Repr == old(c.Repr)
    ensures c.State() == Conversed(s, old(c.State()), op) && e == ConversedEnding(s, old(c.State()), op)
  {
    if !op.world.writes {
      c.broken := true;
      return Some(WriteFailed);
    }
    var head, body, talk := Exchange(c.stream, c.rbuf, s.check, op.request, op.world.answer, c.talk, s);
    c.talk := talk;
    if head.Err? {
      c.broken := true;
      return Some(ReadFailed(head.error));
    }
    e := Verdict(s.check, op.payload, head.value.0, head.value.1, body);
  }

  /** One operation of the benchmark: a connection that is broken is redialed first, and
      whatever the peer does the connection and the ending are the link's. */
  method EchoOnce(c: Conn, s: Setup, op: Op) returns (e: Option<EchoError>)
    requires c.Valid(s)
    modifies c.Repr
    ensures c.Valid(s) && fresh(c.Repr - old(c.Repr))
    ensures c.State() == After(s, old(c.State()), op) && e == EndingOf(s, old(c.State()), op)
  {
    var ok := Restore(c, s, op.world);
    if !ok { return Some(RedialFailed); }
    e := Converse(c, s, op);
  }
}
