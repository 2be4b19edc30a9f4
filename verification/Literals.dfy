/** What is read off the bytes a server really sends: the texts, the numbers and the limits of
    the grammar, each written out. */
module Literals {
  import opened Options
  import opened Bytes
  import opened ResponseGrammar
  import opened RoundTrip

  // ---- letters ----

  /** A byte is this small letter or its capital. */
  predicate IsLetterOf(b: byte, small: byte) {
    b == small || (97 <= small <= 122 && b as int == small as int - 32)
  }

  /** Names are compared letter by letter, case apart, and everything else as it is. */
  lemma FoldsLetters(a: seq<byte>, b: seq<byte>)
    ensures EqualFold(a, b) <==>
      |a| == |b| && forall i :: 0 <= i < |a| ==> IsLetterOf(a[i], b[i]) || IsLetterOf(b[i], a[i])
  {
  }

  /** The word chunked is at i. */
  predicate ChunkedAt(v: seq<byte>, i: nat) {
    && i + 7 <= |v|
    && IsLetterOf(v[i], 99) && IsLetterOf(v[i + 1], 104) && IsLetterOf(v[i + 2], 117) && IsLetterOf(v[i + 3], 110)
    && IsLetterOf(v[i + 4], 107) && IsLetterOf(v[i + 5], 101) && IsLetterOf(v[i + 6], 100)
  }

  /** It is, with a Kelvin sign for its k. */
  predicate KelvinAt(v: seq<byte>, i: nat) {
    && i + 9 <= |v|
    && IsLetterOf(v[i], 99) && IsLetterOf(v[i + 1], 104) && IsLetterOf(v[i + 2], 117) && IsLetterOf(v[i + 3], 110)
    && v[i + 4] == 0xE2 && v[i + 5] == 0x84 && v[i + 6] == 0xAA && IsLetterOf(v[i + 7], 101) && IsLetterOf(v[i + 8], 100)
  }

  lemma ChunkedFold(v: seq<byte>, i: nat)
    ensures FoldAt(v, CHUNKED, i) <==> ChunkedAt(v, i)
  {
    if i + 7 <= |v| {
      var part := v[i..i + 7];
      FoldsLetters(part, CHUNKED);
      assert forall k :: 0 <= k < 7 ==> part[k] == v[i + k];
      assert CHUNKED == [99, 104, 117, 110, 107, 101, 100];
    }
  }

  lemma KelvinFold(v: seq<byte>, i: nat)
    ensures FoldAt(v, KELVIN_CHUNKED, i) <==> KelvinAt(v, i)
  {
    if i + 9 <= |v| {
      var part := v[i..i + 9];
      FoldsLetters(part, KELVIN_CHUNKED);
      assert forall k :: 0 <= k < 9 ==> part[k] == v[i + k];
      assert KELVIN_CHUNKED == [99, 104, 117, 110, 0xE2, 0x84, 0xAA, 101, 100];
    }
  }

  /** A coding is chunked if the word is anywhere in it; to Go with a Kelvin sign too. */
  lemma ChunkedIff(v: seq<byte>)
    ensures IsChunked(Rust, v) <==> exists i :: 0 <= i < |v| && ChunkedAt(v, i)
    ensures IsChunked(Go, v) <==> exists i :: 0 <= i < |v| && (ChunkedAt(v, i) || KelvinAt(v, i))
  {
    forall i: nat
      ensures FoldAt(v, CHUNKED, i) <==> ChunkedAt(v, i)
      ensures FoldAt(v, KELVIN_CHUNKED, i) <==> KelvinAt(v, i)
    {
      ChunkedFold(v, i);
      KelvinFold(v, i);
    }
  }

  // ---- numbers ----

  /** What each digit is worth. */
  lemma DigitsWorth(b: byte)
    ensures Digit(10, b) == if 48 <= b <= 57 then Some(b as int - 48) else None
    ensures Digit(16, b) ==
      if 48 <= b <= 57 then Some(b as int - 48)
      else if 65 <= b <= 70 then Some(b as int - 55)
      else if 97 <= b <= 102 then Some(b as int - 87)
      else None
  {
  }

  /** The first digit counts as many times the base as digits follow it. */
  lemma {:induction false} ValuePlaces(base: nat, d: byte, v: seq<byte>)
    requires (base == 10 || base == 16) && AllDigits(base, [d] + v)
    ensures AllDigits(base, v) && Digit(base, d).Some?
    ensures Value(base, [d] + v) == Digit(base, d).value * Power(base, |v|) + Value(base, v)
    decreases |v|
  {
    var w := [d] + v;
    assert w[0] == d && forall i :: 0 <= i < |v| ==> w[i + 1] == v[i];
    if v == [] {
      assert w[..0] == [];
    } else {
      var n := |v| - 1;
      assert w[..|w| - 1] == [d] + v[..n] && w[|w| - 1] == v[n];
      ValuePlaces(base, d, v[..n]);
      Spread(base, Digit(base, d).value, Power(base, n), Value(base, v[..n]));
    }
  }

  function Power(base: nat, n: nat): nat {
    if n == 0 then 1 else base * Power(base, n - 1)
  }

  lemma Spread(base: nat, d: nat, p: nat, v: nat)
    ensures base * (d * p + v) == d * (base * p) + base * v
  {
  }

  /** 1024, and 1aF0 in base 16. */
  lemma NumbersRead()
    ensures AllDigits(10, Ascii("1024")) && Value(10, Ascii("1024")) == 1024
    ensures AllDigits(16, Ascii("1aF0")) && Value(16, Ascii("1aF0")) == 6896
    ensures Decimal(1024) == Ascii("1024") && Decimal(0) == Ascii("0")
  {
    assert Ascii("1024") == [49, 48, 50, 52] && Ascii("1aF0") == [49, 97, 70, 48];
    FourDigits(10, 49, 48, 50, 52);
    FourDigits(16, 49, 97, 70, 48);
    assert Decimal(1024) == [49] + [48] + [50] + [52];
  }

  lemma FourDigits(base: nat, a: byte, b: byte, c: byte, d: byte)
    requires (base == 10 || base == 16) && AllDigits(base, [a, b, c, d])
    ensures Digit(base, a).Some? && Digit(base, b).Some? && Digit(base, c).Some? && Digit(base, d).Some?
    ensures Value(base, [a, b, c, d]) ==
      ((Digit(base, a).value * base + Digit(base, b).value) * base + Digit(base, c).value) * base + Digit(base, d).value
  {
    var v := [a, b, c, d];
    assert v[0] == a && v[1] == b && v[2] == c && v[3] == d;
    assert [] + [a] == [a] && [a] + [b] == [a, b] && [a, b] + [c] == [a, b, c] && [a, b, c] + [d] == v;
    OneMoreDigit(base, [], a);
    OneMoreDigit(base, [a], b);
    OneMoreDigit(base, [a, b], c);
    OneMoreDigit(base, [a, b, c], d);
  }

  lemma OneMoreDigit(base: nat, v: seq<byte>, d: byte)
    requires (base == 10 || base == 16) && AllDigits(base, v) && Digit(base, d).Some?
    ensures AllDigits(base, v + [d]) && Value(base, v + [d]) == Value(base, v) * base + Digit(base, d).value
  {
    assert (v + [d])[..|v|] == v;
  }

  /** A number the clients take: digits, behind a plus sign or not, below the limit of the
      client's word; and for Go a negative zero. Nothing else. */
  lemma NumberIff(client: Client, base: nat, v: seq<byte>, n: nat)
    requires base == 10 || base == 16
    ensures ParseNumber(client, base, v) == Some(n) <==>
      || IsNumeral(base, v, n, client)
      || (v != [] && v[0] == 43 && IsNumeral(base, v[1..], n, client))
      || (client.Go? && v != [] && v[0] == 45 && n == 0 && IsNumeral(base, v[1..], 0, client))
  {
    if v != [] { DigitsWorth(v[0]); }
  }

  predicate IsNumeral(base: nat, digits: seq<byte>, n: nat, client: Client)
    requires base == 10 || base == 16
  {
    && digits != [] && AllDigits(base, digits) && Value(base, digits) == n
    && n < if client.Rust? then 18446744073709551616 else 9223372036854775808
  }

  // ---- spaces ----

  /** The ASCII bytes stripped off both ends of a value by both clients. */
  lemma SpacesStripped(client: Client, b: byte, c: byte, digits: seq<byte>)
    requires b in [9, 10, 12, 13, 32] && c in [9, 10, 12, 13, 32]
    requires digits != [] && AllDigits(10, digits)
    ensures Trim(client, [b] + digits + [c]) == digits
  {
    var v := [b] + digits + [c];
    assert v[1..] == digits + [c];
    assert Digit(10, digits[0]).Some? && Digit(10, digits[|digits| - 1]).Some?;
    InkEdges(client, digits);
    LeadSpaceAhead(client, digits, [c]);
    var w := digits + [c];
    assert TrimLeft(client, v) == w;
    assert w[..|w| - 1] == digits && TailSpace(client, w) == 1;
    assert TrimRight(client, w) == TrimRight(client, digits);
  }

  // ---- statuses ----

  /** A status line is "HTTP/1.", any character, a space, three digits, and nothing or a
      space and anything more. */
  lemma StatusIff(line: seq<byte>, status: nat)
    ensures ParseStatus(line) == Some(status) <==>
      && |line| >= 12 && line[..7] == Ascii("HTTP/1.") && line[8] == 32
      && 48 <= line[9] <= 57 && 48 <= line[10] <= 57 && 48 <= line[11] <= 57
      && (|line| == 12 || line[12] == 32)
      && status == 100 * (line[9] as int - 48) + 10 * (line[10] as int - 48) + (line[11] as int - 48)
  {
    if |line| >= 12 {
      var v := line[9..12];
      assert v[0] == line[9] && v[1] == line[10] && v[2] == line[11];
      assert v[..2][..1][..0] == [] && v[..2][1] == v[1] && v[..2][..1][0] == v[0];
      if AllDigits(10, v) {
        assert Digit(10, v[0]).Some? && Digit(10, v[1]).Some? && Digit(10, v[2]).Some?;
        assert Value(10, v[..2][..1]) == line[9] as int - 48;
        assert Value(10, v[..2]) == 10 * Value(10, v[..2][..1]) + (line[10] as int - 48);
      }
    }
  }

  /** The responses without a body, whatever their headers say. */
  lemma BodilessIff(status: nat)
    ensures Bodiless(status) <==> 100 <= status <= 199 || status == 204 || status == 304
  {
  }

  /** Of one byte the spaces are these. */
  lemma SpaceIff(b: byte)
    ensures LeadSpace(Rust, [b]) == TailSpace(Rust, [b]) == if b in [9, 10, 12, 13, 32] then 1 else 0
    ensures LeadSpace(Go, [b]) == TailSpace(Go, [b]) == if b in [9, 10, 11, 12, 13, 32] then 1 else 0
  {
  }

  /** Of two and of three, those of the characters Unicode calls white space. */
  lemma WideIff(a: byte, b: byte, c: byte)
    requires 0x80 <= b <= 0xBF && 0x80 <= c <= 0xBF
    ensures 0xC2 <= a <= 0xDF ==>
      var rune := (a as int - 0xC0) * 0x40 + (b as int - 0x80);
      LeadSpace(Go, [a, b]) == TailSpace(Go, [a, b]) == if rune in [0x85, 0xA0] then 2 else 0
    ensures 0xE0 <= a <= 0xEF ==>
      var rune := ((a as int - 0xE0) * 0x40 + (b as int - 0x80)) * 0x40 + (c as int - 0x80);
      LeadSpace(Go, [a, b, c]) == 3 <==>
        0x2000 <= rune <= 0x200A || rune in [0x1680, 0x2028, 0x2029, 0x202F, 0x205F, 0x3000]
    ensures LeadSpace(Rust, [a, b, c]) == 0 || a < 0x80
  {
  }

  // ---- whole responses ----

  const STATUS_LINE: seq<byte> := Ascii("HTTP/1.1 200 OK\r\n")
  const CHUNKED_LINE: seq<byte> := Ascii("Transfer-Encoding: chunked\r\n")
  const BLANK_LINE: seq<byte> := Ascii("\r\n")
  const LAST_CHUNK: seq<byte> := Ascii("0\r\n\r\n")
  const LENGTH_NAME: seq<byte> := Ascii("Content-Length: ")

  const OK_REASON: seq<byte> := Ascii(" OK")

  function CodingHeader(): Header {
    Coding(Ascii("Transfer-Encoding"), [32], Ascii("chunked"), [])
  }

  function LengthHeader(n: nat): Header {
    Length(Ascii("Content-Length"), [32], Decimal(n), [])
  }

  lemma OkLine(hs: seq<Header>, c: Content)
    ensures var m := Message(49, 200, OK_REASON, hs, c);
      EndLine(StatusLine(m)) == STATUS_LINE && LineFits(17, StatusLine(m))
  {
    var line := StatusLine(Message(49, 200, OK_REASON, hs, c));
    assert StatusDigits(200) == [50, 48, 48];
    assert line == VERSION_PREFIX + [49, 32] + [50, 48, 48] + OK_REASON;
  }

  lemma ChunkedWord(client: Client)
    ensures IsChunked(client, Ascii("chunked")) && NoEdgeSpace(client, Ascii("chunked"))
  {
    var v := Ascii("chunked");
    assert ChunkedAt(v, 0);
    ChunkedIff(v);
    InkEdges(client, v);
  }

  lemma CodingLine()
    ensures EndLine(HeaderLine(CodingHeader())) == CHUNKED_LINE
    ensures LineFits(28, HeaderLine(CodingHeader())) && IsName(CodingHeader().name)
  {
    assert HeaderValue(CodingHeader()) == [32] + Ascii("chunked");
  }

  lemma CodingIs(g: Rules, f: Framing)
    requires g.capacity >= 512
    ensures HeaderOk(g, CodingHeader())
    ensures Meant(g.client, [CodingHeader()], f) == f.(chunked := true)
  {
    CodingLine();
    ChunkedWord(g.client);
    assert [CodingHeader()][1..] == [];
  }

  function ChunkedMessage(cs: seq<Chunk>): Message {
    Message(49, 200, OK_REASON, [CodingHeader()], Chunked(cs, Chunk([48], [], [], []), []))
  }

  lemma ChunkedFits(g: Rules, cs: seq<Chunk>)
    requires g.capacity >= 512 && ChunksOk(g.capacity, cs) && |Joined(cs)| <= 67108864
    ensures WellFormed(g, ChunkedMessage(cs))
  {
    var m := ChunkedMessage(cs);
    OkLine(m.headers, m.content);
    CodingIs(g, Framing(None, false));
    DigitsWorth(48);
    assert Value(16, [48]) == 0 && ChunkOk(g.capacity, m.content.last);
  }

  lemma ChunkedHead(cs: seq<Chunk>)
    ensures HeadBytes(ChunkedMessage(cs)) == STATUS_LINE + (CHUNKED_LINE + BLANK_LINE)
  {
    var m := ChunkedMessage(cs);
    OkLine(m.headers, m.content);
    CodingLine();
    HeaderAlone(CodingHeader());
  }

  lemma HeaderAlone(h: Header)
    ensures HeaderBytes([h]) == EndLine(HeaderLine(h))
  {
    assert [h][1..] == [];
    assert HeaderBytes([h]) == EndLine(HeaderLine(h)) + HeaderBytes([]);
  }

  lemma LastChunkText(cs: seq<Chunk>)
    ensures BodyBytes(ChunkedMessage(cs)) == ChunkBytes(cs) + LAST_CHUNK
  {
    assert EndLine([48] + [] + []) + [] + CRLF == LAST_CHUNK;
  }

  lemma ChunkedText(cs: seq<Chunk>, t: seq<byte>)
    ensures Render(ChunkedMessage(cs)) + t == STATUS_LINE + CHUNKED_LINE + BLANK_LINE + ChunkBytes(cs) + LAST_CHUNK + t
  {
    ChunkedHead(cs);
    LastChunkText(cs);
    Parts(STATUS_LINE, CHUNKED_LINE, BLANK_LINE, ChunkBytes(cs), LAST_CHUNK, t);
  }

  lemma Parts(a: seq<byte>, b: seq<byte>, c: seq<byte>, d: seq<byte>, e: seq<byte>, t: seq<byte>)
    ensures a + (b + c) + (d + e) + t == a + b + c + d + e + t
  {
  }

  /** A chunked response as servers write it, with any chunks: its body is theirs together,
      and what is behind it is left. */
  lemma ChunkedRead(g: Rules, cs: seq<Chunk>, t: seq<byte>)
    requires g.capacity >= 512 && ChunksOk(g.capacity, cs) && |Joined(cs)| <= 67108864
    ensures Response(g, STATUS_LINE + CHUNKED_LINE + BLANK_LINE + ChunkBytes(cs) + LAST_CHUNK + t)
      == Done(Reply(200, Joined(cs)), t)
  {
    ChunkedFits(g, cs);
    ChunkedText(cs, t);
    ResponseBack(g, ChunkedMessage(cs), t);
  }

  const HELLO: seq<byte> := Ascii("hello")

  /** One of five bytes, with its size, and an extension. */
  lemma HelloRead(g: Rules, t: seq<byte>)
    requires g.capacity >= 512
    ensures Response(g, STATUS_LINE + CHUNKED_LINE + BLANK_LINE + Ascii("5;x\r\nhello\r\n") + LAST_CHUNK + t)
      == Done(Reply(200, HELLO), t)
  {
    var cs := [Chunk([53], [], Ascii(";x"), HELLO)];
    DigitsWorth(53);
    assert Value(16, [53]) == 5 && ChunkOk(g.capacity, cs[0]);
    assert cs[1..] == [] && Joined(cs[1..]) == [] && ChunkBytes(cs[1..]) == [];
    assert Joined(cs) == HELLO && ChunkBytes(cs) == Ascii("5;x\r\nhello\r\n");
    ChunkedRead(g, cs, t);
  }

  // ---- lengths and limits ----

  function TenTo(k: nat): nat {
    if k == 0 then 1 else 10 * TenTo(k - 1)
  }

  /** A number below 10^k has no more than k digits, and nothing else in it. */
  lemma {:induction false} DecimalDigits(n: nat, k: nat)
    requires n < TenTo(k) && k > 0
    ensures |Decimal(n)| <= k && forall i :: 0 <= i < |Decimal(n)| ==> 48 <= Decimal(n)[i] <= 57
  {
    if n >= 10 { DecimalDigits(n / 10, k - 1); }
  }

  lemma LengthLine(n: nat)
    requires n < 9223372036854775808
    ensures EndLine(HeaderLine(LengthHeader(n))) == LENGTH_NAME + Decimal(n) + BLANK_LINE
    ensures LineFits(64, HeaderLine(LengthHeader(n))) && IsName(LengthHeader(n).name)
  {
    assert TenTo(5) == 100000 && TenTo(10) == 10000000000 && TenTo(15) == 1000000000000000;
    assert TenTo(19) == 10000000000000000000;
    DecimalDigits(n, 19);
    assert HeaderValue(LengthHeader(n)) == [32] + Decimal(n);
    assert HeaderLine(LengthHeader(n)) == LENGTH_NAME + Decimal(n);
  }

  lemma LengthIs(g: Rules, n: nat, f: Framing)
    requires g.capacity >= 512 && n < 9223372036854775808
    ensures HeaderOk(g, LengthHeader(n))
    ensures Meant(g.client, [LengthHeader(n)], f) == f.(length := Some(n))
  {
    LengthLine(n);
    DecimalValue(n);
    assert [LengthHeader(n)][1..] == [];
  }

  /** The head of a response with so long a body. */
  function LengthHead(n: nat): seq<byte> {
    STATUS_LINE + LENGTH_NAME + Decimal(n) + BLANK_LINE + BLANK_LINE
  }

  function LengthMessage(n: nat, body: seq<byte>): Message {
    Message(49, 200, OK_REASON, [LengthHeader(n)], Plain(body))
  }

  lemma LengthText(n: nat, body: seq<byte>)
    requires n < 9223372036854775808
    ensures HeadBytes(LengthMessage(n, body)) == LengthHead(n)
  {
    var m := LengthMessage(n, body);
    OkLine(m.headers, m.content);
    LengthLine(n);
    assert HeaderBytes([LengthHeader(n)][1..]) == [];
  }

  /** A response with a length: that many bytes are its body, up to 64 MiB. */
  lemma LengthRead(g: Rules, body: seq<byte>, t: seq<byte>)
    requires g.capacity >= 512 && |body| <= 67108864
    ensures Response(g, LengthHead(|body|) + body + t) == Done(Reply(200, body), t)
  {
    var m := LengthMessage(|body|, body);
    OkLine(m.headers, m.content);
    LengthIs(g, |body|, Framing(None, false));
    LengthText(|body|, body);
    ResponseBack(g, m, t);
  }

  function BothHeaders(n: nat, lengthFirst: bool): seq<Header> {
    if lengthFirst then [LengthHeader(n), CodingHeader()] else [CodingHeader(), LengthHeader(n)]
  }

  lemma BothMean(g: Rules, n: nat, lengthFirst: bool)
    requires g.capacity >= 512 && n < 9223372036854775808
    ensures HeadersOk(g, BothHeaders(n, lengthFirst))
    ensures Meant(g.client, BothHeaders(n, lengthFirst), Framing(None, false)) == Framing(Some(n), true)
  {
    var f, hs := Framing(None, false), BothHeaders(n, lengthFirst);
    DecimalValue(n);
    assert hs == [hs[0]] + [hs[1]];
    LengthIs(g, n, f);
    LengthIs(g, n, f.(chunked := true));
    CodingIs(g, f);
    CodingIs(g, f.(length := Some(n)));
    MeantStep(g.client, hs[0], [hs[1]], f);
  }

  function BothLines(n: nat, lengthFirst: bool): seq<byte> {
    var length := LENGTH_NAME + Decimal(n) + BLANK_LINE;
    if lengthFirst then length + CHUNKED_LINE else CHUNKED_LINE + length
  }

  lemma BothText(n: nat, lengthFirst: bool)
    requires n < 9223372036854775808
    ensures HeaderBytes(BothHeaders(n, lengthFirst)) == BothLines(n, lengthFirst)
  {
    var hs := BothHeaders(n, lengthFirst);
    LengthLine(n);
    CodingLine();
    assert hs[1..] == [hs[1]];
    HeaderAlone(hs[1]);
  }

  lemma BothFits(g: Rules, n: nat, lengthFirst: bool, cs: seq<Chunk>)
    requires g.capacity >= 512 && n < 9223372036854775808
    requires ChunksOk(g.capacity, cs) && |Joined(cs)| <= 67108864
    ensures WellFormed(g, ChunkedMessage(cs).(headers := BothHeaders(n, lengthFirst)))
  {
    BothMean(g, n, lengthFirst);
    ChunkedFits(g, cs);
  }

  lemma BothRender(n: nat, lengthFirst: bool, cs: seq<Chunk>, t: seq<byte>)
    requires n < 9223372036854775808
    ensures Render(ChunkedMessage(cs).(headers := BothHeaders(n, lengthFirst))) + t
      == STATUS_LINE + BothLines(n, lengthFirst) + BLANK_LINE + ChunkBytes(cs) + LAST_CHUNK + t
  {
    var m := ChunkedMessage(cs).(headers := BothHeaders(n, lengthFirst));
    OkLine(m.headers, m.content);
    BothText(n, lengthFirst);
    LastChunkText(cs);
    assert HeadBytes(m) == STATUS_LINE + (BothLines(n, lengthFirst) + BLANK_LINE);
    Parts(STATUS_LINE, BothLines(n, lengthFirst), BLANK_LINE, ChunkBytes(cs), LAST_CHUNK, t);
  }

  /** A response that is chunked and has a length is chunked, whichever line comes first. */
  lemma BothRead(g: Rules, n: nat, lengthFirst: bool, cs: seq<Chunk>, t: seq<byte>)
    requires g.capacity >= 512 && n < 9223372036854775808
    requires ChunksOk(g.capacity, cs) && |Joined(cs)| <= 67108864
    ensures Response(g, STATUS_LINE + BothLines(n, lengthFirst) + BLANK_LINE + ChunkBytes(cs) + LAST_CHUNK + t)
      == Done(Reply(200, Joined(cs)), t)
  {
    BothFits(g, n, lengthFirst, cs);
    BothRender(n, lengthFirst, cs, t);
    ResponseBack(g, ChunkedMessage(cs).(headers := BothHeaders(n, lengthFirst)), t);
  }

  const VERSION_TEXT: seq<byte> := Ascii("HTTP/1.1 ")

  function BodilessMessage(status: nat, n: nat): Message {
    Message(49, status, [], [LengthHeader(n)], Plain([]))
  }

  /** The bytes of a head with this status and length. */
  function BodilessText(status: nat, n: nat): seq<byte>
    requires status <= 999
  {
    VERSION_TEXT + [48 + status / 100, 48 + status / 10 % 10, 48 + status % 10] + BLANK_LINE
      + (LENGTH_NAME + Decimal(n) + BLANK_LINE + BLANK_LINE)
  }

  lemma BodilessLine(status: nat, n: nat)
    requires 100 <= status <= 999
    ensures StatusLine(BodilessMessage(status, n)) == VERSION_TEXT + [48 + status / 100, 48 + status / 10 % 10, 48 + status % 10]
  {
    assert VERSION_PREFIX + [49, SP] == VERSION_TEXT;
    assert status / 100 % 10 == status / 100;
  }

  lemma BodilessRender(status: nat, n: nat)
    requires 100 <= status <= 999 && n < 9223372036854775808
    ensures Render(BodilessMessage(status, n)) == BodilessText(status, n)
  {
    var m := BodilessMessage(status, n);
    BodilessLine(status, n);
    LengthLine(n);
    HeaderAlone(LengthHeader(n));
    assert FieldBytes(m) == LENGTH_NAME + Decimal(n) + BLANK_LINE + BLANK_LINE;
    assert BodyBytes(m) == [];
  }

  lemma BodilessFits(g: Rules, status: nat, n: nat)
    requires g.capacity >= 512 && n < 9223372036854775808
    requires 100 <= status <= 199 || status == 204 || status == 304
    ensures WellFormed(g, BodilessMessage(status, n))
  {
    BodilessIff(status);
    LengthIs(g, n, Framing(None, false));
    BodilessLine(status, n);
  }

  /** A response that never has a body ends with its head, whatever length that gives. */
  lemma BodilessRead(g: Rules, status: nat, n: nat, t: seq<byte>)
    requires g.capacity >= 512 && n < 9223372036854775808
    requires 100 <= status <= 199 || status == 204 || status == 304
    ensures Response(g, BodilessText(status, n) + t) == Done(Reply(status, []), t)
  {
    BodilessFits(g, status, n);
    BodilessRender(status, n);
    ResponseBack(g, BodilessMessage(status, n), t);
  }

  /** Which is the limit, to the byte, for a length and for the sum of chunks. */
  lemma LimitExact(g: Rules, s: seq<byte>, status: nat, n: nat, had: nat)
    requires !Bodiless(status)
    ensures Body(g, s, status, Framing(Some(n), false)) == Fail(TooLarge, s) <==> n > 67108864
    ensures var h := ChunkHead(g, s);
      h.Done? && h.value > 0 ==> (NextChunk(g, s, had) == Fail(TooLarge, h.rest) <==> had + h.value > 67108864)
  {
    var h := ChunkHead(g, s);
    if h.Done? { ChunkDataErrors(g, h.value, h.rest); }
  }

  /** Inside a chunk only its end can be malformed. */
  lemma ChunkDataErrors(g: Rules, n: nat, s: seq<byte>)
    ensures var o := ChunkData(g, n, s); o.Fail? ==> o.error in [Eof, Io, MalformedHeader, MalformedChunk]
  {
  }

  // ---- what is refused ----

  /** A line ends at its line feed, with a carriage return before it or without. */
  lemma BareLine(g: Rules, line: seq<byte>, t: seq<byte>)
    requires LF !in line && |line| < g.capacity && (line == [] || line[|line| - 1] != 13)
    ensures Line(g, line + [10] + t) == Done(line, t)
  {
    var s := line + [10] + t;
    IndexOfIs(s, LF, |line|);
    assert s[..|line|] == line && s[|line| + 1..] == t;
  }

  /** A stream that stops inside a line, or before n bytes, says how it stopped. */
  lemma StreamStops(g: Rules, s: seq<byte>, n: nat)
    ensures 10 !in s && |s| < g.capacity ==>
      Line(g, s).Fail? && Line(g, s).error == if g.tail == Closed then Eof else Io
    ensures n > |s| ==> Take(g, n, s) == Fail(if g.tail == Closed then Eof else Io, [])
  {
  }

  /** Each of the other errors, and when it is given. */
  lemma Refused(g: Rules, line: seq<byte>, t: seq<byte>, f: Framing)
    requires LineFits(g.capacity, line) && line != []
    ensures ParseStatus(line).None? ==> Response(g, EndLine(line) + t) == Fail(MalformedStatus, t)
    ensures 58 !in line || line[0] == 58 ==> Headers(g, EndLine(line) + t, f) == Fail(MalformedHeader, t)
    ensures ChunkSize(g.client, line).None? ==> ChunkHead(g, EndLine(line) + t) == Fail(MalformedChunk, t)
  {
    LineBack(g, line, t);
    if 58 !in line { IndexOfNone(line, COLON); }
  }

  /** A chunk with anything behind its bytes but the end of the line. */
  lemma ChunkRefused(g: Rules, data: seq<byte>, line: seq<byte>, t: seq<byte>)
    requires LineFits(g.capacity, line) && line != []
    ensures ChunkData(g, |data|, data + (EndLine(line) + t)) == Fail(MalformedChunk, t)
  {
    var s := data + (EndLine(line) + t);
    assert s[..|data|] == data && s[|data|..] == EndLine(line) + t;
    LineBack(g, line, t);
  }

  /** A response that has to have a body and says nothing of it: refused, unless the body may
      run to the end of the stream. */
  lemma NoLengthRead(g: Rules, t: seq<byte>)
    requires g.capacity >= 512
    ensures Response(g, STATUS_LINE + BLANK_LINE + t) ==
      if !g.untilEof then Fail(NoLength, t) else if g.tail == Closed then Done(Reply(200, t), []) else Fail(Io, [])
  {
    var m := Message(49, 200, OK_REASON, [], Plain([]));
    OkLine([], Plain([]));
    StatusBack(m);
    LineBack(g, StatusLine(m), BLANK_LINE + t);
    assert STATUS_LINE + BLANK_LINE + t == EndLine(StatusLine(m)) + (BLANK_LINE + t);
    assert EndLine([]) == BLANK_LINE;
    LineBack(g, [], t);
  }
}
