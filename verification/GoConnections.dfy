/** The Go client's connections: a reader that outlives the sockets it reads, and the
    redial of broken ones; each operation moves a connection as the links of Links move. */
module GoConnections {
  import opened Options
  import opened Bytes
  import opened ResponseGrammar
  import opened GoReader
  import opened Links

  /** socket counts the dials, and readerOn is the one the reader was last reset to. */
  class GoConn {
    const reader: Bufio
    var socket: nat
    var readerOn: nat
    var broken: bool
    ghost var talk: Talk

    /** The reader is this client's, and on the connection's own socket unless that is
        marked broken. */
    ghost predicate Valid(s: Setup)
      reads this
    {
      s.client.Go? && reader.size == s.size && (!broken ==> readerOn == socket)
    }

    ghost function State(): Link
      reads this, reader
    {
      Link(talk, reader.stream, reader.tail, readerOn == socket, broken)
    }

    /** A connection as a dial leaves it. */
    constructor (reader: Bufio, ghost talk: Talk, ghost s: Setup)
      requires s.client.Go? && reader.size == s.size
      ensures Valid(s) && this.reader == reader && State() == Link(talk, reader.stream, reader.tail, true, false)
    {
      this.reader := reader;
      socket, readerOn, broken := 0, 0, false;
      this.talk := talk;
    }
  }

  /** A kept body cut short is the same failure under its own name. */
  ghost predicate SameFailure(e: Error, e': Error) {
    e == e' || (e' == Eof && e == UnexpectedEof)
  }

  ghost predicate SameEnding(e: Option<EchoError>, e': Option<EchoError>) {
    || e == e'
    || (e.Some? && e'.Some? && e.value.ReadFailed? && e'.value.ReadFailed? && SameFailure(e.value.error, e'.value.error))
  }

  /** What the peer answers goes down the wire and is read as a response, its body kept. */
  method Receive(reader: Bufio, dst: Slice, answer: seq<byte>, ghost g: Rules)
    returns (res: Result<nat>, body: seq<byte>)
    requires dst.Valid() && g == reader.GoRules()
    modifies reader`stream, dst.arr
    ensures var o := Response(g, old(reader.stream) + answer);
      && reader.stream == o.rest
      && (o.Fail? ==> res.Err? && SameFailure(res.error, o.error))
      && (o.Done? ==> res == Ok(o.value.status) && body == o.value.body)
  {
    reader.stream := reader.stream + answer;
    var status, kept, n, err := ReadAny(reader, dst.(len := 0), true);
    body := kept.arr[..kept.len];
    res := if err.Some? then Err(err.value) else Ok(status);
  }

  /** A response of which only the status and the length are wanted. */
  method Discard(reader: Bufio, ghost g: Rules) returns (res: Result<(nat, nat)>)
    requires g == reader.GoRules()
    modifies reader`stream
    ensures var o := Response(g, old(reader.stream));
      && reader.stream == o.rest
      && (o.Fail? ==> res.Err?)
      && (o.Done? ==> res == Ok((o.value.status, |o.value.body|)))
  {
    var nothing := new byte[0];
    var status, _, n, e := ReadAny(reader, Slice(nothing, 0), false);
    res := if e.Some? then Err(e.value) else Ok((status, n));
  }

  /** Opens a connection and exchanges the first request and response on it. From the write
      on the reader belongs to the new socket, even if no answer comes. */
  method Dial(reader: Bufio, s: Setup, w: World) returns (ok: bool, reset: bool, ghost talk: Talk)
    requires s.client.Go? && reader.size == s.size
    modifies reader
    ensures ok <==> DialOk(s, w)
    ensures reset <==> w.dials && w.dialWrites
    ensures ok ==> Link(talk, reader.stream, reader.tail, true, false) == Opened(s, w)
    ensures if reset then reader.stream == Greeting(s, w).rest && reader.tail == w.dialTail
            else reader.stream == old(reader.stream) && reader.tail == old(reader.tail)
  {
    talk := SILENCE;
    if !w.dials || !w.dialWrites { return false, false, talk; }
    reader.Reset(w.dialAnswer, w.dialTail);
    var res := Discard(reader, RulesOn(s, w.dialTail));
    if res.Err? || res.value.0 != 200 { return false, true, talk; }
    talk := Talk([s.hello], [], [Served(s.hello, w.dialAnswer)], [Heard(200, res.value.1, None)]);
    OpenedIs(s, w);
    return true, true, talk;
  }

  /** Closes a broken connection's socket and dials another; if that fails the connection
      stays broken, its reader perhaps already on a socket it never got. */
  method Redial(c: GoConn, s: Setup, w: World) returns (ok: bool)
    requires c.Valid(s) && c.broken
    modifies c, c.reader
    ensures c.Valid(s) && ok == !c.broken
    ensures c.State() == Redialed(s, old(c.State()), w)
  {
    var reset;
    ghost var talk;
    ok, reset, talk := Dial(c.reader, s, w);
    if reset { c.readerOn := c.socket + 1; }
    if ok {
      c.socket := c.socket + 1;
      c.broken := false;
      c.talk := talk;
    }
  }

  /** Redials a connection that is broken. */
  method Restore(c: GoConn, s: Setup, w: World) returns (ok: bool)
    requires c.Valid(s)
    modifies c, c.reader
    ensures c.Valid(s) && ok == !c.broken
    ensures c.State() == Ready(s, old(c.State()), w)
  {
    ok := true;
    if c.broken { ok := Redial(c, s, w); }
  }

  /** A round trip on a connection that is ready. */
  method Converse(c: GoConn, dst: Slice, s: Setup, op: Op) returns (e: Option<EchoError>)
    requires c.Valid(s) && !c.broken && dst.Valid()
    modifies c, c.reader`stream, dst.arr
    ensures c.Valid(s)
    ensures c.State() == Conversed(s, old(c.State()), op)
    ensures SameEnding(e, ConversedEnding(s, old(c.State()), op))
  {
    if !op.world.writes {
      c.broken := true;
      return Some(WriteFailed);
    }
    ghost var sent := Sent(c.State(), op);
    var status, body := Receive(c.reader, dst, op.world.answer, c.reader.GoRules());
    c.talk := sent.talk;
    if status.Err? {
      c.broken := true;
      return Some(ReadFailed(status.error));
    }
    c.talk := c.talk.(heard := c.talk.heard + [Heard(status.value, |body|, Some(body))]);
    e := Verdict(s.check, op.payload, status.value, |body|, body);
  }

  /** What a worker does with the connection it has borrowed. */
  method UseOnce(c: GoConn, dst: Slice, s: Setup, op: Op) returns (e: Option<EchoError>)
    requires c.Valid(s) && dst.Valid()
    modifies c, c.reader, dst.arr
    ensures c.Valid(s)
    ensures c.State() == After(s, old(c.State()), op)
    ensures SameEnding(e, EndingOf(s, old(c.State()), op))
  {
    var ok := Restore(c, s, op.world);
    if !ok { return Some(RedialFailed); }
    e := Converse(c, dst, s, op);
  }

  /** Connections that are all different, with readers of their own. */
  ghost predicate Apart(chan: seq<GoConn>) {
    forall i, j :: 0 <= i < j < |chan| ==> chan[i] != chan[j] && chan[i].reader != chan[j].reader
  }

  /** A worker's operation: the connection at the head of the channel is borrowed, used and
      put back behind the others, whatever became of it. */
  method DoOnce(chan: seq<GoConn>, dst: Slice, s: Setup, op: Op) returns (chan': seq<GoConn>, e: Option<EchoError>)
    requires chan != [] && Apart(chan) && chan[0].Valid(s) && dst.Valid()
    modifies chan[0], chan[0].reader, dst.arr
    ensures chan' == chan[1..] + [chan[0]] && chan[0].Valid(s)
    ensures chan[0].State() == After(s, old(chan[0].State()), op)
    ensures SameEnding(e, EndingOf(s, old(chan[0].State()), op))
    ensures forall i :: 1 <= i < |chan| ==> chan[i].State() == old(chan[i].State())
  {
    var c := chan[0];
    e := UseOnce(c, dst, s, op);
    chan' := chan[1..] + [c];
  }
}
