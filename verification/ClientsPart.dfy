/** Streams on which the two clients part, of every kind there is. */
module ClientsPart {
  import opened Options
  import opened Bytes
  import opened ResponseGrammar
  import opened RoundTrip
  import opened ClientsAgree

  const NOT_MODIFIED := VERSION_PREFIX + [49, SP] + StatusDigits(304)

  /** A response with no body and one header line, a length in some text. */
  function LengthStream(text: seq<byte>): seq<byte> {
    EndLine(NOT_MODIFIED) + (EndLine(HeaderLine(Other(CONTENT_LENGTH, text))) + CRLF)
  }

  lemma NotModified()
    ensures ParseStatus(NOT_MODIFIED) == Some(304) && |NOT_MODIFIED| == 12 && LF !in NOT_MODIFIED
  {
    var m := Message(49, 304, [], [], Plain([]));
    StatusBack(m);
    assert StatusLine(m) == NOT_MODIFIED;
  }

  lemma LengthHeaders(g: Rules, text: seq<byte>)
    requires LineFits(g.capacity, HeaderLine(Other(CONTENT_LENGTH, text)))
    ensures var n := ParseNumber(g.client, 10, Trim(g.client, text));
      Headers(g, EndLine(HeaderLine(Other(CONTENT_LENGTH, text))) + CRLF, Framing(None, false)) ==
        if n.Some? then Done(Framing(n, false), []) else Fail(BadContentLength, CRLF)
  {
    var h := Other(CONTENT_LENGTH, text);
    var line, none := HeaderLine(h), Framing(None, false);
    LineBack(g, line, CRLF);
    NameAndValue(h);
    LengthField(g.client, line, none);
    assert EndLine([]) + [] == CRLF;
    LineBack(g, [], []);
  }

  /** It is read if its length is. */
  lemma LengthDecides(g: Rules, text: seq<byte>)
    requires LineFits(g.capacity, HeaderLine(Other(CONTENT_LENGTH, text))) && g.capacity >= 14
    ensures Response(g, LengthStream(text)) ==
      if ParseNumber(g.client, 10, Trim(g.client, text)).Some? then Done(Reply(304, []), []) else Fail(BadContentLength, CRLF)
  {
    var rest := EndLine(HeaderLine(Other(CONTENT_LENGTH, text))) + CRLF;
    assert Line(g, LengthStream(text)) == Done(NOT_MODIFIED, rest) && ParseStatus(NOT_MODIFIED) == Some(304) by {
      NotModified();
      LineBack(g, NOT_MODIFIED, rest);
    }
    LengthHeaders(g, text);
    var o := Headers(g, rest, Framing(None, false));
    if o.Done? {
      HeadStep(g, LengthStream(text), NOT_MODIFIED, rest, 304, o.value, []);
      ResponseStep(g, LengthStream(text), Head(304, o.value), [], [], []);
    } else {
      HeadFails(g, LengthStream(text), NOT_MODIFIED, rest, o);
    }
  }

  lemma HeadFails(g: Rules, s: seq<byte>, line: seq<byte>, s1: seq<byte>, o: Outcome<Framing>)
    requires Line(g, s) == Done(line, s1) && ParseStatus(line).Some?
    requires Headers(g, s1, Framing(None, false)) == o && o.Fail?
    ensures Response(g, s) == Fail(o.error, o.rest)
  {
  }

  /** For every text, one client reads that response and the other does not if and only if
      the text is one of those. */
  lemma OneStops(g: Rules, text: seq<byte>)
    requires g.client.Rust? && LineFits(g.capacity, HeaderLine(Other(CONTENT_LENGTH, text))) && g.capacity >= 14
    ensures Response(g, LengthStream(text)).Done? != Response(Twin(g), LengthStream(text)).Done? <==> NumbersApart(10, text)
  {
    LengthDecides(g, text);
    LengthDecides(Twin(g), text);
    NumbersDiffer(10, text);
  }

  /** The text 5 is a number to both clients. */
  lemma Five(base: nat)
    requires base == 10 || base == 16
    ensures Trim(Go, [53]) == [53] && ParseNumber(Go, base, [53]).Some?
  {
    assert Digit(base, 53) == Some(5) && Value(base, [53]) == 5;
    assert [] + [53] + [] == [53];
    TrimPadded(Go, [], [53], []);
  }

  lemma TabApart()
    ensures NumbersApart(10, [VT, 53])
  {
    var v := [VT, 53];
    assert Trim(Rust, v) == v && LeadSpace(Go, v) == 1;
    assert v[1..] == [53];
    Five(10);
  }

  lemma WideApart()
    ensures NumbersApart(16, [53, 0xC2, 0xA0])
  {
    var v := [53, 0xC2, 0xA0];
    assert Trim(Rust, v) == v && TailSpace(Go, v) == 2;
    assert TrimLeft(Go, v) == v && v[..1] == [53];
    Five(16);
  }

  /** A number one client reads, with no space around it. */
  lemma AloneApart(text: seq<byte>)
    requires OneReads(10, text) && text != [] && NoEdgeSpace(Go, text) && NoEdgeSpace(Rust, text)
    ensures NumbersApart(10, text)
  {
    assert [] + text + [] == text;
    TrimPadded(Go, [], text, []);
    TrimPadded(Rust, [], text, []);
  }

  lemma ZeroApart()
    ensures NumbersApart(10, [MINUS, 48])
  {
    var zero := [MINUS, 48];
    assert zero[1..] == [48] && Digit(10, 48) == Some(0) && Value(10, [48]) == 0;
    AloneApart(zero);
  }

  lemma BigApart()
    ensures NumbersApart(10, Decimal(INT_LIMIT))
  {
    var big := Decimal(INT_LIMIT);
    DecimalValue(INT_LIMIT);
    assert Digit(10, big[0]).Some? && Digit(10, big[|big| - 1]).Some?;
    InkEdges(Go, big);
    InkEdges(Rust, big);
    AloneApart(big);
  }

  /** Each kind of text is one: a vertical tab before a number, a space of Unicode behind it,
      a negative zero, and 2^63. */
  lemma TextsApart()
    ensures NumbersApart(10, [VT, 53]) && NumbersApart(16, [53, 0xC2, 0xA0])
    ensures NumbersApart(10, [MINUS, 48]) && NumbersApart(10, Decimal(INT_LIMIT))
  {
    TabApart();
    WideApart();
    ZeroApart();
    BigApart();
  }

  const HELLO := Ascii("hello")
  // It as a chunk, and the last chunk behind it: the first five bytes and the rest.
  const FIVE_BYTES := Ascii("5\r\nhe")
  const BEHIND := Ascii("llo\r\n0\r\n\r\n")

  /** Two header lines, a coding with a Kelvin sign and a length. */
  function KelvinLines(): (hs: seq<Header>)
    ensures |hs| == 2
  {
    [Coding(TRANSFER_ENCODING, [], KELVIN_CHUNKED, []), Length(CONTENT_LENGTH, [], [53], [])]
  }

  /** The same bytes as one client reads them. */
  function AsLength(reason: seq<byte>): Message {
    Message(49, 200, reason, KelvinLines(), Plain(FIVE_BYTES))
  }

  /** And as the other does. */
  function AsChunks(reason: seq<byte>): Message {
    Message(49, 200, reason, KelvinLines(), Chunked([HelloChunk()], Chunk([48], [], [], []), []))
  }

  function HelloChunk(): Chunk {
    Chunk([53], [], [], HELLO)
  }

  /** A reason that fits the status line. */
  predicate ReasonOk(g: Rules, reason: seq<byte>) {
    (reason == [] || reason[0] == SP) && LineFits(g.capacity, StatusLine(AsLength(reason)))
  }

  /** The Rust client reads five bytes by the length, and leaves the others for the next
      response; the Go client reads the chunk. Both succeed. */
  lemma KelvinWitness(g: Rules, reason: seq<byte>, s: seq<byte>)
    requires g.client.Rust? && g.capacity >= 512 && ReasonOk(g, reason) && s == Render(AsChunks(reason))
    ensures Response(g, s) == Done(Reply(200, FIVE_BYTES), BEHIND)
    ensures Response(Twin(g), s) == Done(Reply(200, HELLO), [])
  {
    KelvinSame(reason);
    KelvinFits(g, reason);
    KelvinFits(Twin(g), reason);
    ResponseBack(g, AsLength(reason), BEHIND);
    ResponseBack(Twin(g), AsChunks(reason), []);
    assert Render(AsChunks(reason)) + [] == Render(AsChunks(reason));
  }

  lemma KelvinSame(reason: seq<byte>)
    ensures Render(AsLength(reason)) + BEHIND == Render(AsChunks(reason))
    ensures BodyOf(AsChunks(reason)) == HELLO
  {
    var m := AsChunks(reason);
    assert ChunkBytes(m.content.chunks[1..]) == [] && Joined(m.content.chunks[1..]) == [];
    assert BodyBytes(m) == FIVE_BYTES + BEHIND;
  }

  lemma KelvinCoding()
    ensures ContainsFold(KELVIN_CHUNKED, KELVIN_CHUNKED) && !ContainsFold(KELVIN_CHUNKED, CHUNKED)
    ensures NoEdgeSpace(Go, KELVIN_CHUNKED) && NoEdgeSpace(Rust, KELVIN_CHUNKED)
  {
    assert FoldAt(KELVIN_CHUNKED, KELVIN_CHUNKED, 0);
    forall i | 0 <= i <= |KELVIN_CHUNKED|
      ensures !FoldAt(KELVIN_CHUNKED, CHUNKED, i)
    {
      KelvinElsewhere(i);
    }
  }

  /** Its fifth byte is nowhere a k. */
  lemma KelvinElsewhere(i: nat)
    ensures !FoldAt(KELVIN_CHUNKED, CHUNKED, i)
  {
    if i + 7 <= |KELVIN_CHUNKED| {
      assert Lower(KELVIN_CHUNKED[i..i + 7][4]) != Lower(CHUNKED[4]);
    }
  }

  lemma KelvinMeant(client: Client)
    ensures AllDigits(10, [53]) && Value(10, [53]) == 5
    ensures Meant(client, KelvinLines(), Framing(None, false)) == Framing(Some(5), client.Go?)
  {
    var hs := KelvinLines();
    KelvinCoding();
    assert Digit(10, 53) == Some(5) && Value(10, [53]) == 5;
    assert hs == [hs[0]] + [hs[1]];
    MeantStep(client, hs[0], [hs[1]], Framing(None, false));
    assert [hs[0]][1..] == [] && [hs[1]][1..] == [];
  }

  lemma HeaderFits(capacity: nat, h: Header)
    requires COLON !in h.name && h.name != [] && LF !in h.name && LF !in HeaderValue(h)
    requires |h.name| + |HeaderValue(h)| + 3 <= capacity
    ensures IsName(h.name) && LineFits(capacity, HeaderLine(h))
  {
  }

  lemma CodingFits(g: Rules)
    requires g.capacity >= 512
    ensures HeaderOk(g, KelvinLines()[0])
  {
    var h := KelvinLines()[0];
    KelvinCoding();
    assert HeaderValue(h) == KELVIN_CHUNKED;
    HeaderFits(g.capacity, h);
  }

  lemma LengthFits(g: Rules)
    requires g.capacity >= 512
    ensures HeaderOk(g, KelvinLines()[1])
  {
    var h := KelvinLines()[1];
    assert HeaderValue(h) == [53];
    assert Digit(10, 53) == Some(5) && Value(10, [53]) == 5;
    HeaderFits(g.capacity, h);
  }

  lemma HelloFits(capacity: nat)
    requires capacity >= 512
    ensures ChunkOk(capacity, HelloChunk()) && ChunkOk(capacity, Chunk([48], [], [], []))
    ensures Joined([HelloChunk()]) == HELLO
  {
    assert Digit(16, 53) == Some(5) && Value(16, [53]) == 5;
    assert Digit(16, 48) == Some(0) && Value(16, [48]) == 0;
    assert Joined([HelloChunk()][1..]) == [];
  }

  lemma KelvinFits(g: Rules, reason: seq<byte>)
    requires g.capacity >= 512 && ReasonOk(g, reason)
    ensures WellFormed(g, if g.client.Rust? then AsLength(reason) else AsChunks(reason))
  {
    CodingFits(g);
    LengthFits(g);
    KelvinMeant(g.client);
    HelloFits(g.capacity);
  }
}
