/** What one HTTP/1.1 response is, as a function of the bytes still to come: the
    reference both buffered readers are proved against. Sections 6.3 and 7.1 of RFC 9112. */
module ResponseGrammar {
  import opened Options
  import opened Bytes

  datatype Error =
    | Eof | UnexpectedEof | Io
    | MalformedStatus | MalformedHeader | BadContentLength | MalformedChunk
    | TooLarge | NoLength | BufferFull

  /** How a stream of bytes stops: the peer closes it, or reading it fails. */
  datatype Tail = Closed | Broken

  function EndOf(tail: Tail): Error {
    if tail.Closed? then Eof else Io
  }

  datatype Result<+T> = Ok(value: T) | Err(error: Error)

  /** A parse of the front of a stream, with what it leaves. */
  datatype Outcome<+T> = Done(value: T, rest: seq<byte>) | Fail(error: Error, rest: seq<byte>) {
    predicate IsFailure() { Fail? }

    function PropagateFailure<U>(): Outcome<U>
      requires Fail?
    {
      Fail(error, rest)
    }

    function Extract(): (T, seq<byte>)
      requires Done?
    {
      (value, rest)
    }
  }

  /** Whose library calls parse, how long a line the buffer holds, how the stream
      stops, and whether a body may run to the end of it. */
  datatype Rules = Rules(client: Client, capacity: nat, tail: Tail, untilEof: bool)

  datatype Framing = Framing(length: Option<nat>, chunked: bool)

  datatype Reply = Reply(status: nat, body: seq<byte>)

  const MAX_BODY_SIZE: nat := 0x400_0000

  const VERSION_PREFIX := Ascii("HTTP/1.")
  const CONTENT_LENGTH := Ascii("Content-Length")
  const TRANSFER_ENCODING := Ascii("Transfer-Encoding")
  const CHUNKED := Ascii("chunked")
  /** The same with a Kelvin sign, U+212A, whose lower case in Unicode is a k. */
  const KELVIN_CHUNKED := Ascii("chun") + [0xE2, 0x84, 0xAA] + Ascii("ed")

  /** One line, without its line ending. A line the buffer cannot hold is an error
      that leaves the bytes in Rust's buffer and drops them from Go's. */
  function Line(g: Rules, s: seq<byte>): (o: Outcome<seq<byte>>)
    ensures o.Done? ==> |o.rest| < |s|
    ensures |o.rest| <= |s|
  {
    var nl := IndexOf(s, LF);
    if nl < |s| && nl < g.capacity then Done(StripCr(s[..nl]), s[nl + 1..])
    else if g.capacity <= |s| then Fail(MalformedHeader, if g.client.Rust? then s else s[g.capacity..])
    else Fail(EndOf(g.tail), if g.client.Rust? then s else [])
  }

  /** The next n bytes. */
  function Take(g: Rules, n: nat, s: seq<byte>): (o: Outcome<seq<byte>>)
    ensures |o.rest| <= |s|
  {
    if n <= |s| then Done(s[..n], s[n..]) else Fail(EndOf(g.tail), [])
  }

  /** The three digits of a status line that starts with the version and a space. */
  function ParseStatus(line: seq<byte>): Option<nat> {
    if |line| < 12 || line[..7] != VERSION_PREFIX || line[8] != SP then None
    else if !AllDigits(10, line[9..12]) then None
    else if |line| > 12 && line[12] != SP then None
    else Some(Value(10, line[9..12]))
  }

  /** A coding says chunked. Go folds the letter case of all of Unicode, where the Kelvin sign
      is all that lower-cases to one of these letters beside the ASCII ones. */
  predicate IsChunked(client: Client, v: seq<byte>) {
    ContainsFold(v, CHUNKED) || (client.Go? && ContainsFold(v, KELVIN_CHUNKED))
  }

  /** The line is a header of this name, in any letter case. */
  predicate Named(line: seq<byte>, name: seq<byte>) {
    var colon := IndexOf(line, COLON);
    0 < colon < |line| && EqualFold(line[..colon], name)
  }

  /** All that is behind the colon. */
  function ValueOf(line: seq<byte>): seq<byte>
    requires IndexOf(line, COLON) < |line|
  {
    line[IndexOf(line, COLON) + 1..]
  }

  /** One header line's effect on the framing; the last of two alike wins. */
  function Field(client: Client, line: seq<byte>, f: Framing): Result<Framing> {
    if !(0 < IndexOf(line, COLON) < |line|) then Err(MalformedHeader)
    else if Named(line, CONTENT_LENGTH) then
      match ParseNumber(client, 10, Trim(client, ValueOf(line)))
      case None => Err(BadContentLength)
      case Some(n) => Ok(f.(length := Some(n)))
    else if Named(line, TRANSFER_ENCODING) then
      Ok(f.(chunked := IsChunked(client, Trim(client, ValueOf(line)))))
    else Ok(f)
  }

  /** The header lines up to and with the blank one. */
  function Headers(g: Rules, s: seq<byte>, f: Framing): (o: Outcome<Framing>)
    ensures |o.rest| <= |s|
    decreases |s|
  {
    var (line, rest) :- Line(g, s);
    if line == [] then Done(f, rest)
    else match Field(g.client, line, f)
      case Err(e) => Fail(e, rest)
      case Ok(f') => Headers(g, rest, f')
  }

  /** The size on a chunk's first line, without its extensions. */
  function ChunkSize(client: Client, line: seq<byte>): Option<nat> {
    ParseNumber(client, 16, Trim(client, line[..IndexOf(line, SEMICOLON)]))
  }

  /** A chunk's first line. */
  function ChunkHead(g: Rules, s: seq<byte>): (o: Outcome<nat>)
    ensures |o.rest| <= |s|
    ensures o.Done? ==> |o.rest| < |s|
  {
    var (line, rest) :- Line(g, s);
    match ChunkSize(g.client, line)
    case None => Fail(MalformedChunk, rest)
    case Some(n) => Done(n, rest)
  }

  /** The trailer lines up to and with the blank one. */
  function Trailer(g: Rules, s: seq<byte>): (o: Outcome<()>)
    ensures |o.rest| <= |s|
    decreases |s|
  {
    var (line, rest) :- Line(g, s);
    if line == [] then Done((), rest) else Trailer(g, rest)
  }

  /** A chunk's n bytes and the line end behind them. */
  function ChunkData(g: Rules, n: nat, s: seq<byte>): (o: Outcome<seq<byte>>)
    ensures |o.rest| <= |s|
  {
    var (data, s1) :- Take(g, n, s);
    var (blank, s2) :- Line(g, s1);
    if blank != [] then Fail(MalformedChunk, s2) else Done(data, s2)
  }

  /** The next chunk of a body of which so much came before, or none if it was the last. */
  function NextChunk(g: Rules, s: seq<byte>, had: nat): (o: Outcome<Option<seq<byte>>>)
    ensures |o.rest| <= |s|
    ensures o.Done? ==> |o.rest| < |s|
  {
    var (n, s1) :- ChunkHead(g, s);
    if n == 0 then
      var (_, s2) :- Trailer(g, s1);
      Done(None, s2)
    else if had + n > MAX_BODY_SIZE then Fail(TooLarge, s1)
    else
      var (data, s2) :- ChunkData(g, n, s1);
      Done(Some(data), s2)
  }

  /** The code's own sum of a body so far and a chunk's size, in a machine word. */
  function MachineSum(client: Client, had: nat, n: nat): int {
    if client.Rust? then (had + n) % USIZE_LIMIT
    else if had + n < INT_LIMIT then had + n else had + n - USIZE_LIMIT
  }

  /** Every size a client's parser gives is below this. */
  function SizeLimit(client: Client): nat {
    if client.Rust? then USIZE_LIMIT else INT_LIMIT
  }

  /** For every size a chunk's first line can give, it tells a body that is too large from one
      that is not exactly if it does not wrap: if the size is further from the word's end
      than the body is long. */
  lemma MachineSumWraps(client: Client, had: nat, line: seq<byte>)
    requires had <= MAX_BODY_SIZE && ChunkSize(client, line).Some?
    ensures var n := ChunkSize(client, line).value;
      (MachineSum(client, had, n) > MAX_BODY_SIZE) == (had + n > MAX_BODY_SIZE) <==> n < SizeLimit(client) - had
  {
    var n := ChunkSize(client, line).value;
    assert n < SizeLimit(client);
    if client.Rust? && had + n >= USIZE_LIMIT { assert (had + n) % USIZE_LIMIT == had + n - USIZE_LIMIT; }
  }

  /** A chunked body, after the part of it that came before. */
  function Chunks(g: Rules, s: seq<byte>, body: seq<byte>): (o: Outcome<seq<byte>>)
    ensures |o.rest| <= |s|
    decreases |s|
  {
    var (chunk, rest) :- NextChunk(g, s, |body|);
    if chunk.None? then Done(body, rest) else Chunks(g, rest, body + chunk.value)
  }

  /** A response with one of these never has a body. */
  predicate Bodiless(status: nat) {
    status / 100 == 1 || status == 204 || status == 304
  }

  function Body(g: Rules, s: seq<byte>, status: nat, f: Framing): (o: Outcome<seq<byte>>)
    ensures |o.rest| <= |s|
  {
    if Bodiless(status) then Done([], s)
    else if f.chunked then Chunks(g, s, [])
    else if f.length.Some? then
      if f.length.value > MAX_BODY_SIZE then Fail(TooLarge, s) else Take(g, f.length.value, s)
    else if !g.untilEof then Fail(NoLength, s)
    else if g.tail.Closed? then Done(s, []) else Fail(Io, [])
  }

  datatype Head = Head(status: nat, framing: Framing)

  /** The status line and the header lines. */
  function ParseHead(g: Rules, s: seq<byte>): (o: Outcome<Head>)
    ensures |o.rest| <= |s|
    ensures o.Done? ==> |o.rest| < |s|
  {
    var (line, s1) :- Line(g, s);
    match ParseStatus(line)
    case None => Fail(MalformedStatus, s1)
    case Some(status) =>
      var (f, s2) :- Headers(g, s1, Framing(None, false));
      Done(Head(status, f), s2)
  }

  /** One response off the front of s. */
  function Response(g: Rules, s: seq<byte>): (o: Outcome<Reply>)
    ensures |o.rest| <= |s|
    ensures o.Done? ==> |o.rest| < |s|
  {
    var (h, s1) :- ParseHead(g, s);
    var (body, s2) :- Body(g, s1, h.status, h.framing);
    Done(Reply(h.status, body), s2)
  }

  /** Up to n responses, one after the other, stopping at the first that fails. */
  function Responses(g: Rules, s: seq<byte>, n: nat): Outcome<seq<Reply>>
    decreases n
  {
    if n == 0 then Done([], s)
    else
      match Response(g, s)
      case Fail(e, rest) => Fail(e, rest)
      case Done(reply, rest) =>
        match Responses(g, rest, n - 1)
        case Fail(e, rest') => Fail(e, rest')
        case Done(replies, rest') => Done([reply] + replies, rest')
  }

  // ---- what is parsed does not depend on what follows ----

  /** A parse that succeeds gives the same with more bytes behind it, and leaves them. */
  ghost predicate Extends<T>(o: Outcome<T>, o': Outcome<T>, more: seq<byte>) {
    o.Done? ==> o' == Done(o.value, o.rest + more)
  }

  lemma LineExtends(g: Rules, s: seq<byte>, more: seq<byte>)
    ensures Extends(Line(g, s), Line(g, s + more), more)
  {
    var nl := IndexOf(s, LF);
    if nl < |s| && nl < g.capacity {
      IndexOfIs(s + more, LF, nl);
      assert (s + more)[..nl] == s[..nl];
      assert (s + more)[nl + 1..] == s[nl + 1..] + more;
    }
  }

  lemma {:induction false} HeadersExtends(g: Rules, s: seq<byte>, f: Framing, more: seq<byte>)
    ensures Extends(Headers(g, s, f), Headers(g, s + more, f), more)
    decreases |s|
  {
    LineExtends(g, s, more);
    var l := Line(g, s);
    if l.Done? && l.value != [] {
      var next := Field(g.client, l.value, f);
      if next.Ok? { HeadersExtends(g, l.rest, next.value, more); }
    }
  }

  lemma {:induction false} TrailerExtends(g: Rules, s: seq<byte>, more: seq<byte>)
    ensures Extends(Trailer(g, s), Trailer(g, s + more), more)
    decreases |s|
  {
    LineExtends(g, s, more);
    var l := Line(g, s);
    if l.Done? && l.value != [] { TrailerExtends(g, l.rest, more); }
  }

  lemma TakeExtends(g: Rules, n: nat, s: seq<byte>, more: seq<byte>)
    ensures Extends(Take(g, n, s), Take(g, n, s + more), more)
  {
    if n <= |s| {
      assert (s + more)[..n] == s[..n];
      assert (s + more)[n..] == s[n..] + more;
    }
  }

  lemma ChunkDataExtends(g: Rules, n: nat, s: seq<byte>, more: seq<byte>)
    ensures Extends(ChunkData(g, n, s), ChunkData(g, n, s + more), more)
  {
    TakeExtends(g, n, s, more);
    if n <= |s| { LineExtends(g, s[n..], more); }
  }

  lemma NextChunkExtends(g: Rules, s: seq<byte>, had: nat, more: seq<byte>)
    ensures Extends(NextChunk(g, s, had), NextChunk(g, s + more, had), more)
  {
    LineExtends(g, s, more);
    var h := ChunkHead(g, s);
    if h.Done? {
      TrailerExtends(g, h.rest, more);
      ChunkDataExtends(g, h.value, h.rest, more);
    }
  }

  lemma {:induction false} ChunksExtends(g: Rules, s: seq<byte>, body: seq<byte>, more: seq<byte>)
    ensures Extends(Chunks(g, s, body), Chunks(g, s + more, body), more)
    decreases |s|
  {
    NextChunkExtends(g, s, |body|, more);
    var c := NextChunk(g, s, |body|);
    if c.Done? && c.value.Some? { ChunksExtends(g, c.rest, body + c.value.value, more); }
  }

  lemma HeadExtends(g: Rules, s: seq<byte>, more: seq<byte>)
    ensures Extends(ParseHead(g, s), ParseHead(g, s + more), more)
  {
    LineExtends(g, s, more);
    var l := Line(g, s);
    if l.Done? { HeadersExtends(g, l.rest, Framing(None, false), more); }
  }

  lemma BodyExtends(g: Rules, s: seq<byte>, status: nat, f: Framing, more: seq<byte>)
    requires !g.untilEof
    ensures Extends(Body(g, s, status, f), Body(g, s + more, status, f), more)
  {
    ChunksExtends(g, s, [], more);
    if f.length.Some? { TakeExtends(g, f.length.value, s, more); }
  }

  /** On a keep-alive connection a response is the same whatever follows it, and what
      follows is left untouched: one call never reads into the next response. */
  lemma ResponseExtends(g: Rules, s: seq<byte>, more: seq<byte>)
    requires !g.untilEof
    ensures Extends(Response(g, s), Response(g, s + more), more)
  {
    HeadExtends(g, s, more);
    var h := ParseHead(g, s);
    if h.Done? { BodyExtends(g, h.rest, h.value.status, h.value.framing, more); }
  }

  /** So no response is the front part of a longer one: a stream cut anywhere inside
      a response fails. */
  lemma CutResponseFails(g: Rules, whole: seq<byte>, k: nat)
    requires !g.untilEof && k < |whole|
    requires Response(g, whole).Done? && Response(g, whole).rest == []
    ensures Response(g, whole[..k]).Fail?
  {
    assert whole == whole[..k] + whole[k..];
    ResponseExtends(g, whole[..k], whole[k..]);
  }

  // ---- bounds ----

  lemma {:induction false} ChunksBound(g: Rules, s: seq<byte>, body: seq<byte>)
    requires |body| <= MAX_BODY_SIZE
    ensures var o := Chunks(g, s, body); o.Done? ==> |o.value| <= MAX_BODY_SIZE
    decreases |s|
  {
    var c := NextChunk(g, s, |body|);
    if c.Done? && c.value.Some? {
      NextChunkBound(g, s, |body|);
      ChunksBound(g, c.rest, body + c.value.value);
    }
  }

  lemma ChunkDataSize(g: Rules, n: nat, s: seq<byte>)
    ensures var o := ChunkData(g, n, s); o.Done? ==> |o.value| == n && n + |o.rest| <= |s|
  {
    if n <= |s| { assert |Line(g, s[n..]).rest| <= |s[n..]|; }
  }

  /** A chunk is within the limit and no longer than the bytes it is read off. */
  lemma NextChunkBound(g: Rules, s: seq<byte>, had: nat)
    ensures var c := NextChunk(g, s, had); c.Done? && c.value.Some? ==>
      had + |c.value.value| <= MAX_BODY_SIZE && |c.value.value| + |c.rest| <= |s|
  {
    var h := ChunkHead(g, s);
    if h.Done? { ChunkDataSize(g, h.value, h.rest); }
  }

  lemma StatusBound(line: seq<byte>)
    ensures ParseStatus(line).Some? ==> ParseStatus(line).value <= 999
  {
    if ParseStatus(line).Some? {
      var digits := line[9..12];
      var two := digits[..2];
      assert AllDigits(10, digits) && AllDigits(10, two) && AllDigits(10, two[..1]);
      assert Value(10, two[..1]) == Digit(10, two[0]).value <= 9;
      assert Value(10, two) == 10 * Value(10, two[..1]) + Digit(10, two[1]).value;
      assert Value(10, digits) == 10 * Value(10, two) + Digit(10, digits[2]).value;
    }
  }

  lemma BodyBound(g: Rules, s: seq<byte>, status: nat, f: Framing)
    requires !g.untilEof
    ensures var o := Body(g, s, status, f); o.Done? ==>
      |o.value| <= MAX_BODY_SIZE && (Bodiless(status) ==> o.value == [])
  {
    ChunksBound(g, s, []);
  }

  /** On a keep-alive connection no accepted body is over the limit, and a response
      that never has a body has none. */
  lemma ResponseBound(g: Rules, s: seq<byte>)
    requires !g.untilEof
    ensures var o := Response(g, s); o.Done? ==>
      && |o.value.body| <= MAX_BODY_SIZE
      && o.value.status <= 999
      && (Bodiless(o.value.status) ==> o.value.body == [])
  {
    var h := ParseHead(g, s);
    if h.Done? {
      StatusBound(Line(g, s).value);
      assert h.value.status <= 999;
      BodyBound(g, h.rest, h.value.status, h.value.framing);
    }
  }

  /** A line is refused as too long exactly when no line feed is among the next
      capacity bytes and there are that many. */
  lemma LineTooLong(g: Rules, s: seq<byte>)
    ensures Line(g, s) == Fail(MalformedHeader, Line(g, s).rest)
      <==> g.capacity <= |s| && LF !in s[..g.capacity]
  {
    var nl := IndexOf(s, LF);
    if g.capacity <= |s| && nl < g.capacity { assert s[..g.capacity][nl] == LF; }
  }
}
