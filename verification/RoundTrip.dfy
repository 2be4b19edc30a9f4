/** Responses as a server writes them, and that reading gives them back: sections 6.3
    and 7.1 of RFC 9112, for any framing, chunking, extensions and trailers. */
module RoundTrip {
  import opened Options
  import opened Bytes
  import opened ResponseGrammar

  /** A header line: one that is about framing, with optional whitespace around what it
      says, or any other. */
  datatype Header =
    | Length(name: seq<byte>, lead: seq<byte>, digits: seq<byte>, trail: seq<byte>)
    | Coding(name: seq<byte>, lead: seq<byte>, coding: seq<byte>, trail: seq<byte>)
    | Other(name: seq<byte>, value: seq<byte>)

  /** A chunk with its size as a text of hexadecimal digits, padding and extensions. */
  datatype Chunk = Chunk(size: seq<byte>, pad: seq<byte>, ext: seq<byte>, data: seq<byte>)

  datatype Content = Plain(sent: seq<byte>) | Chunked(chunks: seq<Chunk>, last: Chunk, trailer: seq<seq<byte>>)

  datatype Message = Message(minor: byte, status: nat, reason: seq<byte>, headers: seq<Header>, content: Content)

  // ---- as bytes ----

  function EndLine(line: seq<byte>): seq<byte> {
    line + CRLF
  }

  function StatusLine(m: Message): seq<byte> {
    VERSION_PREFIX + [m.minor, SP] + StatusDigits(m.status) + m.reason
  }

  /** Three digits, whatever the status. */
  function StatusDigits(status: nat): seq<byte> {
    [48 + status / 100 % 10, 48 + status / 10 % 10, 48 + status % 10]
  }

  function HeaderValue(h: Header): seq<byte> {
    match h
    case Length(_, lead, digits, trail) => lead + digits + trail
    case Coding(_, lead, coding, trail) => lead + coding + trail
    case Other(_, value) => value
  }

  function HeaderLine(h: Header): seq<byte> {
    h.name + [COLON] + HeaderValue(h)
  }

  function HeaderBytes(hs: seq<Header>): seq<byte> {
    if hs == [] then [] else EndLine(HeaderLine(hs[0])) + HeaderBytes(hs[1..])
  }

  function ChunkLine(c: Chunk): seq<byte> {
    c.size + c.pad + c.ext
  }

  function ChunkBytes(cs: seq<Chunk>): seq<byte> {
    if cs == [] then [] else EndLine(ChunkLine(cs[0])) + EndLine(cs[0].data) + ChunkBytes(cs[1..])
  }

  function LineBytes(lines: seq<seq<byte>>): seq<byte> {
    if lines == [] then [] else EndLine(lines[0]) + LineBytes(lines[1..])
  }

  function BodyBytes(m: Message): seq<byte> {
    match m.content
    case Plain(sent) => sent
    case Chunked(chunks, last, trailer) =>
      ChunkBytes(chunks) + EndLine(ChunkLine(last)) + LineBytes(trailer) + CRLF
  }

  /** The header lines of a message, with the blank line that ends them. */
  function FieldBytes(m: Message): seq<byte> {
    HeaderBytes(m.headers) + CRLF
  }

  function HeadBytes(m: Message): seq<byte> {
    EndLine(StatusLine(m)) + FieldBytes(m)
  }

  function Render(m: Message): seq<byte> {
    HeadBytes(m) + BodyBytes(m)
  }

  function RenderAll(ms: seq<Message>): seq<byte> {
    if ms == [] then [] else Render(ms[0]) + RenderAll(ms[1..])
  }

  // ---- as meant ----

  function Joined(cs: seq<Chunk>): seq<byte> {
    if cs == [] then [] else cs[0].data + Joined(cs[1..])
  }

  /** The body a message carries. */
  function BodyOf(m: Message): seq<byte> {
    match m.content
    case Plain(sent) => sent
    case Chunked(chunks, _, _) => Joined(chunks)
  }

  function ReplyOf(m: Message): Reply {
    Reply(m.status, BodyOf(m))
  }

  function RepliesOf(ms: seq<Message>): seq<Reply> {
    if ms == [] then [] else [ReplyOf(ms[0])] + RepliesOf(ms[1..])
  }

  // ---- well-formed ----

  /** A line with no line feed in it, which its ending included fits the buffer. */
  predicate LineFits(capacity: nat, line: seq<byte>) {
    |line| + 2 <= capacity && LF !in line
  }

  predicate IsName(name: seq<byte>) {
    name != [] && COLON !in name
  }

  predicate HeaderOk(g: Rules, h: Header) {
    && IsName(h.name) && LineFits(g.capacity, HeaderLine(h))
    && match h
       case Length(name, lead, digits, trail) =>
         && EqualFold(name, CONTENT_LENGTH) && IsOws(lead) && IsOws(trail)
         && digits != [] && AllDigits(10, digits) && Value(10, digits) < INT_LIMIT
       case Coding(name, lead, coding, trail) =>
         && EqualFold(name, TRANSFER_ENCODING) && IsOws(lead) && IsOws(trail) && NoEdgeSpace(g.client, coding)
       case Other(name, _) => !EqualFold(name, CONTENT_LENGTH) && !EqualFold(name, TRANSFER_ENCODING)
  }

  predicate HeadersOk(g: Rules, hs: seq<Header>) {
    forall i :: 0 <= i < |hs| ==> HeaderOk(g, hs[i])
  }

  /** What header lines say of the framing to a client, after what was said before them. */
  function Meant(client: Client, hs: seq<Header>, f: Framing): Framing
    requires forall i :: 0 <= i < |hs| && hs[i].Length? ==> AllDigits(10, hs[i].digits)
  {
    if hs == [] then f
    else
      match hs[0]
      case Length(_, _, digits, _) => Meant(client, hs[1..], f.(length := Some(Value(10, digits))))
      case Coding(_, _, coding, _) => Meant(client, hs[1..], f.(chunked := IsChunked(client, coding)))
      case Other(_, _) => Meant(client, hs[1..], f)
  }

  predicate SizeText(base: nat, text: seq<byte>, n: nat)
    requires base == 10 || base == 16
  {
    text != [] && AllDigits(base, text) && Value(base, text) == n
  }

  predicate ChunkOk(capacity: nat, c: Chunk) {
    && SizeText(16, c.size, |c.data|) && IsOws(c.pad)
    && (c.ext == [] || c.ext[0] == SEMICOLON)
    && LineFits(capacity, ChunkLine(c))
  }

  predicate ChunksOk(capacity: nat, cs: seq<Chunk>) {
    forall i :: 0 <= i < |cs| ==> ChunkOk(capacity, cs[i]) && cs[i].data != []
  }

  predicate TrailerOk(capacity: nat, lines: seq<seq<byte>>) {
    forall i :: 0 <= i < |lines| ==> LineFits(capacity, lines[i]) && lines[i] != []
  }

  /** The body is in the form its headers announce: chunked if the last Transfer-Encoding
      says so, whatever lengths there are, and else as long as the last Content-Length. */
  predicate ContentOk(g: Rules, status: nat, f: Framing, c: Content) {
    if Bodiless(status) then c == Plain([])
    else if f.chunked then
      && c.Chunked? && ChunksOk(g.capacity, c.chunks) && |Joined(c.chunks)| <= MAX_BODY_SIZE
      && ChunkOk(g.capacity, c.last) && c.last.data == [] && TrailerOk(g.capacity, c.trailer)
    else c.Plain? && f.length == Some(|c.sent|) && |c.sent| <= MAX_BODY_SIZE
  }

  /** A message a server may send to a reader with these rules. */
  predicate WellFormed(g: Rules, m: Message) {
    && m.status <= 999 && m.minor != LF
    && (m.reason == [] || m.reason[0] == SP)
    && LineFits(g.capacity, StatusLine(m))
    && HeadersOk(g, m.headers)
    && ContentOk(g, m.status, FramingOf(g.client, m), m.content)
  }

  /** What a message's headers announce to a client. */
  function FramingOf(client: Client, m: Message): Framing
    requires forall i :: 0 <= i < |m.headers| && m.headers[i].Length? ==> AllDigits(10, m.headers[i].digits)
  {
    Meant(client, m.headers, Framing(None, false))
  }

  predicate AllWellFormed(g: Rules, ms: seq<Message>) {
    forall i :: 0 <= i < |ms| ==> WellFormed(g, ms[i])
  }

  // ---- reading what was written ----

  lemma LineBack(g: Rules, line: seq<byte>, t: seq<byte>)
    requires LineFits(g.capacity, line)
    ensures Line(g, EndLine(line) + t) == Done(line, t)
  {
    var s := EndLine(line) + t;
    IndexOfIs(s, LF, |line| + 1);
    assert s[..|line| + 1] == line + [CR];
    assert s[|line| + 2..] == t;
  }

  lemma StatusBack(m: Message)
    requires m.status <= 999 && (m.reason == [] || m.reason[0] == SP)
    ensures ParseStatus(StatusLine(m)) == Some(m.status)
  {
    var line := StatusLine(m);
    var digits := StatusDigits(m.status);
    assert line[..7] == VERSION_PREFIX;
    assert line[9..12] == digits;
    assert digits[..2][..1][..0] == [];
    assert Value(10, digits[..2][..1]) == m.status / 100;
    assert Value(10, digits[..2]) == m.status / 10;
  }

  /** And a line whose status is accepted has that form: nothing else is one. */
  lemma StatusForm(line: seq<byte>)
    requires ParseStatus(line).Some?
    ensures var status := ParseStatus(line).value;
      && status <= 999 && line == VERSION_PREFIX + [line[7], SP] + StatusDigits(status) + line[12..]
      && (line[12..] == [] || line[12..][0] == SP)
  {
    var digits := line[9..12];
    ThreeDigits(digits);
    assert line == line[..7] + [line[7], line[8]] + digits + line[12..];
  }

  lemma ThreeDigits(v: seq<byte>)
    requires |v| == 3 && AllDigits(10, v)
    ensures Value(10, v) <= 999 && StatusDigits(Value(10, v)) == v
  {
    var two := v[..2];
    var a: int, b: int, c: int := v[0] - 48, v[1] - 48, v[2] - 48;
    assert Digit(10, v[0]) == Some(a) && Digit(10, v[1]) == Some(b) && Digit(10, v[2]) == Some(c);
    assert Value(10, two[..1]) == a;
    assert Value(10, two) == 10 * a + b;
    assert Value(10, v) == 10 * (10 * a + b) + c;
    Decimals(a, b, c);
  }

  lemma Decimals(a: nat, b: nat, c: nat)
    requires a <= 9 && b <= 9 && c <= 9
    ensures var n := 10 * (10 * a + b) + c; n / 100 % 10 == a && n / 10 % 10 == b && n % 10 == c
  {
  }

  /** A header line taken apart at its colon. */
  lemma NameAndValue(h: Header)
    requires IsName(h.name)
    ensures var line := HeaderLine(h);
      line[..IndexOf(line, COLON)] == h.name && line[IndexOf(line, COLON) + 1..] == HeaderValue(h)
      && 0 < IndexOf(line, COLON) < |line|
  {
    var line := HeaderLine(h);
    assert forall k :: 0 <= k < |h.name| ==> line[k] == h.name[k];
    IndexOfIs(line, COLON, |h.name|);
    assert line[..|h.name|] == h.name;
    assert line[|h.name| + 1..] == HeaderValue(h);
  }

  /** A header, in any letter case and with any optional whitespace, tells the reader what
      its sender meant. */
  lemma FieldBack(g: Rules, h: Header, f: Framing)
    requires HeaderOk(g, h)
    ensures Field(g.client, HeaderLine(h), f) == Ok(Meant(g.client, [h], f))
  {
    NameAndValue(h);
    if h.Length? {
      ParsePlain(g.client, 10, h.digits);
      TrimPadded(g.client, h.lead, h.digits, h.trail);
    } else if h.Coding? {
      TrimPadded(g.client, h.lead, h.coding, h.trail);
      assert |CONTENT_LENGTH| != |TRANSFER_ENCODING|;
    }
  }

  lemma MeantStep(client: Client, h: Header, hs: seq<Header>, f: Framing)
    requires forall i :: 0 <= i < |hs| && hs[i].Length? ==> AllDigits(10, hs[i].digits)
    requires h.Length? ==> AllDigits(10, h.digits)
    ensures Meant(client, [h] + hs, f) == Meant(client, hs, Meant(client, [h], f))
  {
    assert ([h] + hs)[1..] == hs;
  }

  /** One more header line read. */
  lemma FramingStep(g: Rules, h: Header, rest: seq<byte>, f: Framing)
    requires HeaderOk(g, h)
    ensures Headers(g, EndLine(HeaderLine(h)) + rest, f) == Headers(g, rest, Meant(g.client, [h], f))
  {
    FieldBack(g, h, f);
    LineBack(g, HeaderLine(h), rest);
    assert HeaderLine(h) != [];
  }

  lemma BytesStep(hs: seq<Header>, t: seq<byte>)
    requires hs != []
    ensures HeaderBytes(hs) + t == EndLine(HeaderLine(hs[0])) + (HeaderBytes(hs[1..]) + t)
  {
  }

  /** Header lines of any kinds, repeated or not, add up to what they mean. */
  lemma {:induction false} FramingBack(g: Rules, hs: seq<Header>, t: seq<byte>, f: Framing)
    requires HeadersOk(g, hs)
    ensures Headers(g, HeaderBytes(hs) + t, f) == Headers(g, t, Meant(g.client, hs, f))
  {
    if hs == [] {
      assert HeaderBytes(hs) + t == t;
    } else {
      var h, more := hs[0], hs[1..];
      assert hs == [h] + more;
      BytesStep(hs, t);
      FramingStep(g, h, HeaderBytes(more) + t, f);
      MeantStep(g.client, h, more, f);
      FramingBack(g, more, t, Meant(g.client, [h], f));
    }
  }

  /** Of header lines of a kind the last one counts, whatever comes before and after. */
  lemma {:induction false} LastWins(client: Client, before: seq<Header>, h: Header, after: seq<Header>, f: Framing)
    requires forall i :: 0 <= i < |before| && before[i].Length? ==> AllDigits(10, before[i].digits)
    requires forall i :: 0 <= i < |after| && after[i].Length? ==> AllDigits(10, after[i].digits)
    requires h.Length? ==> AllDigits(10, h.digits)
    ensures var all := Meant(client, before + [h] + after, f);
      && (h.Length? && (forall i :: 0 <= i < |after| ==> !after[i].Length?) ==> all.length == Some(Value(10, h.digits)))
      && (h.Coding? && (forall i :: 0 <= i < |after| ==> !after[i].Coding?) ==> all.chunked == IsChunked(client, h.coding))
  {
    if before == [] {
      assert before + [h] + after == [h] + after;
      MeantStep(client, h, after, f);
      MeantKeeps(client, after, Meant(client, [h], f));
    } else {
      assert before + [h] + after == [before[0]] + (before[1..] + [h] + after);
      MeantStep(client, before[0], before[1..] + [h] + after, f);
      LastWins(client, before[1..], h, after, Meant(client, [before[0]], f));
    }
  }

  lemma {:induction false} MeantKeeps(client: Client, hs: seq<Header>, f: Framing)
    requires forall i :: 0 <= i < |hs| && hs[i].Length? ==> AllDigits(10, hs[i].digits)
    ensures (forall i :: 0 <= i < |hs| ==> !hs[i].Length?) ==> Meant(client, hs, f).length == f.length
    ensures (forall i :: 0 <= i < |hs| ==> !hs[i].Coding?) ==> Meant(client, hs, f).chunked == f.chunked
  {
    if hs != [] {
      assert hs == [hs[0]] + hs[1..];
      MeantStep(client, hs[0], hs[1..], f);
      MeantKeeps(client, hs[1..], Meant(client, [hs[0]], f));
    }
  }

  /** A head read in its two parts. */
  lemma HeadStep(g: Rules, s: seq<byte>, line: seq<byte>, s1: seq<byte>, status: nat, f: Framing, s2: seq<byte>)
    requires Line(g, s) == Done(line, s1) && ParseStatus(line) == Some(status)
    requires Headers(g, s1, Framing(None, false)) == Done(f, s2)
    ensures ParseHead(g, s) == Done(Head(status, f), s2)
  {
  }

  lemma FieldsBack(g: Rules, m: Message, t: seq<byte>)
    requires WellFormed(g, m)
    ensures Headers(g, FieldBytes(m) + t, Framing(None, false)) == Done(FramingOf(g.client, m), t)
  {
    assert FieldBytes(m) + t == HeaderBytes(m.headers) + (CRLF + t);
    FramingBack(g, m.headers, CRLF + t, Framing(None, false));
    assert EndLine([]) == CRLF;
    LineBack(g, [], t);
  }

  lemma HeadBack(g: Rules, m: Message, t: seq<byte>)
    requires WellFormed(g, m)
    ensures ParseHead(g, HeadBytes(m) + t) == Done(Head(m.status, FramingOf(g.client, m)), t)
  {
    var rest := FieldBytes(m) + t;
    assert HeadBytes(m) + t == EndLine(StatusLine(m)) + rest;
    LineBack(g, StatusLine(m), rest);
    StatusBack(m);
    FieldsBack(g, m, t);
    HeadStep(g, HeadBytes(m) + t, StatusLine(m), rest, m.status, FramingOf(g.client, m), t);
  }

  lemma ChunkHeadBack(g: Rules, c: Chunk, t: seq<byte>)
    requires ChunkOk(g.capacity, c) && |c.data| <= MAX_BODY_SIZE
    ensures ChunkHead(g, EndLine(ChunkLine(c)) + t) == Done(|c.data|, t)
  {
    var line := ChunkLine(c);
    LineBack(g, line, t);
    var n := |c.size + c.pad|;
    assert forall k :: 0 <= k < |c.size| ==> Digit(16, c.size[k]).Some?;
    assert forall k :: 0 <= k < n ==> line[k] == (c.size + c.pad)[k];
    if c.ext == [] {
      IndexOfNone(line, SEMICOLON);
    } else {
      IndexOfIs(line, SEMICOLON, n);
    }
    assert line[..n] == [] + c.size + c.pad;
    ParsePlain(g.client, 16, c.size);
    TrimPadded(g.client, [], c.size, c.pad);
  }

  lemma {:induction false} TrailerBack(g: Rules, lines: seq<seq<byte>>, t: seq<byte>)
    requires TrailerOk(g.capacity, lines)
    requires g.capacity >= 2
    ensures Trailer(g, LineBytes(lines) + CRLF + t) == Done((), t)
  {
    if lines == [] {
      assert LineBytes(lines) + CRLF + t == EndLine([]) + t;
      LineBack(g, [], t);
    } else {
      var rest := LineBytes(lines[1..]) + CRLF + t;
      assert LineBytes(lines) + CRLF + t == EndLine(lines[0]) + rest;
      LineBack(g, lines[0], rest);
      TrailerBack(g, lines[1..], t);
    }
  }

  lemma ChunkDataBack(g: Rules, data: seq<byte>, t: seq<byte>)
    requires g.capacity >= 2
    ensures ChunkData(g, |data|, EndLine(data) + t) == Done(data, t)
  {
    var s := EndLine(data) + t;
    assert s[..|data|] == data;
    assert s[|data|..] == EndLine([]) + t;
    LineBack(g, [], t);
  }

  lemma NextChunkBack(g: Rules, c: Chunk, t: seq<byte>, had: nat)
    requires ChunkOk(g.capacity, c) && c.data != [] && had + |c.data| <= MAX_BODY_SIZE && g.capacity >= 2
    ensures NextChunk(g, EndLine(ChunkLine(c)) + (EndLine(c.data) + t), had) == Done(Some(c.data), t)
  {
    ChunkHeadBack(g, c, EndLine(c.data) + t);
    ChunkDataBack(g, c.data, t);
  }

  lemma LastChunkBack(g: Rules, last: Chunk, trailer: seq<seq<byte>>, t: seq<byte>, had: nat)
    requires ChunkOk(g.capacity, last) && last.data == [] && TrailerOk(g.capacity, trailer) && g.capacity >= 2
    ensures NextChunk(g, EndLine(ChunkLine(last)) + (LineBytes(trailer) + CRLF + t), had) == Done(None, t)
  {
    ChunkHeadBack(g, last, LineBytes(trailer) + CRLF + t);
    TrailerBack(g, trailer, t);
  }

  lemma {:induction false} ChunksBack(g: Rules, cs: seq<Chunk>, end: seq<byte>, had: seq<byte>)
    requires ChunksOk(g.capacity, cs)
    requires |had| + |Joined(cs)| <= MAX_BODY_SIZE && g.capacity >= 2
    ensures Chunks(g, ChunkBytes(cs) + end, had) == Chunks(g, end, had + Joined(cs))
  {
    if cs == [] {
      assert ChunkBytes(cs) + end == end && had + Joined(cs) == had;
    } else {
      var c := cs[0];
      var rest := ChunkBytes(cs[1..]) + end;
      assert ChunkBytes(cs) + end == EndLine(ChunkLine(c)) + (EndLine(c.data) + rest);
      assert had + c.data + Joined(cs[1..]) == had + Joined(cs);
      NextChunkBack(g, c, rest, |had|);
      ChunksBack(g, cs[1..], end, had + c.data);
    }
  }

  lemma BodyBack(g: Rules, m: Message, t: seq<byte>)
    requires WellFormed(g, m)
    ensures Body(g, BodyBytes(m) + t, m.status, FramingOf(g.client, m)) == Done(BodyOf(m), t)
  {
    if m.content.Plain? {
      assert (BodyBytes(m) + t)[..|m.content.sent|] == m.content.sent;
      assert (BodyBytes(m) + t)[|m.content.sent|..] == t;
    } else {
      var Chunked(chunks, last, trailer) := m.content;
      var s1 := LineBytes(trailer) + CRLF + t;
      var end := EndLine(ChunkLine(last)) + s1;
      assert BodyBytes(m) + t == ChunkBytes(chunks) + end;
      ChunksBack(g, chunks, end, []);
      assert [] + Joined(chunks) == Joined(chunks);
      LastChunkBack(g, last, trailer, t, |BodyOf(m)|);
    }
  }

  /** A response read in its two parts. */
  lemma ResponseStep(g: Rules, s: seq<byte>, h: Head, s1: seq<byte>, body: seq<byte>, t: seq<byte>)
    requires ParseHead(g, s) == Done(h, s1) && Body(g, s1, h.status, h.framing) == Done(body, t)
    ensures Response(g, s) == Done(Reply(h.status, body), t)
  {
  }

  /** A response is read back as its status and body, with what follows it left. */
  lemma ResponseBack(g: Rules, m: Message, t: seq<byte>)
    requires WellFormed(g, m)
    ensures Response(g, Render(m) + t) == Done(ReplyOf(m), t)
  {
    var f, rest := FramingOf(g.client, m), BodyBytes(m) + t;
    assert ParseHead(g, Render(m) + t) == Done(Head(m.status, f), rest) by {
      assert Render(m) + t == HeadBytes(m) + rest;
      HeadBack(g, m, rest);
    }
    assert Body(g, rest, m.status, f) == Done(BodyOf(m), t) by { BodyBack(g, m, t); }
    ResponseStep(g, Render(m) + t, Head(m.status, f), rest, BodyOf(m), t);
  }

  lemma ResponsesStep(g: Rules, s: seq<byte>, n: nat, reply: Reply, rest: seq<byte>,
                      replies: seq<Reply>, t: seq<byte>)
    requires Response(g, s) == Done(reply, rest) && Responses(g, rest, n) == Done(replies, t)
    ensures Responses(g, s, n + 1) == Done([reply] + replies, t)
  {
  }

  /** Pipelined responses are read back in order, none missing and none left over. */
  lemma {:induction false} PipelineBack(g: Rules, ms: seq<Message>, t: seq<byte>)
    requires AllWellFormed(g, ms)
    ensures Responses(g, RenderAll(ms) + t, |ms|) == Done(RepliesOf(ms), t)
  {
    if ms == [] {
      assert RenderAll(ms) + t == t;
    } else {
      var rest := RenderAll(ms[1..]) + t;
      assert RenderAll(ms) + t == Render(ms[0]) + rest;
      ResponseBack(g, ms[0], rest);
      PipelineBack(g, ms[1..], t);
      ResponsesStep(g, RenderAll(ms) + t, |ms| - 1, ReplyOf(ms[0]), rest, RepliesOf(ms[1..]), t);
    }
  }

  /** A response whose connection ends inside it is never taken for a whole one. */
  lemma CutMessageFails(g: Rules, m: Message, k: nat)
    requires WellFormed(g, m) && !g.untilEof && k < |Render(m)|
    ensures Response(g, Render(m)[..k]).Fail?
  {
    assert Render(m) + [] == Render(m);
    ResponseBack(g, m, []);
    CutResponseFails(g, Render(m), k);
  }
}
