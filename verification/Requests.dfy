/** The bytes of a request, and that a server decodes them to what was asked: alone, many
    in a row, and with a header spliced in. Section 9.3.2 of RFC 9112. */
module Requests {
  import opened Options
  import opened Bytes

  datatype Request = Request(verb: seq<byte>, host: seq<byte>, path: seq<byte>, body: Option<seq<byte>>)

  const POST := Ascii("POST")
  const PUT := Ascii("PUT")
  const VERSION := Ascii(" HTTP/1.1")
  const HOST := Ascii("Host")
  const LENGTH := Ascii("Content-Length")
  const TYPE := Ascii("Content-Type")
  const OCTETS := Ascii("application/octet-stream")
  const CONNECTION := Ascii("Connection")
  const CLOSE := Ascii("close")

  function Payload(r: Request): seq<byte> {
    if r.body.Some? then r.body.value else []
  }

  predicate CarriesBody(r: Request) {
    r.body.Some? || r.verb == POST || r.verb == PUT
  }

  function Line(line: seq<byte>): seq<byte> {
    line + CRLF
  }

  function RequestLine(r: Request): seq<byte> {
    r.verb + [SP] + r.path + VERSION
  }

  function Header(name: seq<byte>, value: seq<byte>): seq<byte> {
    name + [COLON, SP] + value
  }

  const TYPE_LINE := Header(TYPE, OCTETS)
  const CLOSE_LINE := Header(CONNECTION, CLOSE)

  function HostLine(r: Request): seq<byte> {
    Header(HOST, r.host)
  }

  function LengthLine(r: Request): seq<byte> {
    Header(LENGTH, Decimal(|Payload(r)|))
  }

  /** A whole request. */
  function Encode(r: Request): seq<byte> {
    var head := Line(RequestLine(r)) + Line(HostLine(r));
    var framing := if CarriesBody(r) then Line(TYPE_LINE) + Line(LengthLine(r)) else [];
    head + framing + CRLF + Payload(r)
  }

  // ---- written out ----

  const TO_HOST: seq<byte> := Ascii(" HTTP/1.1\r\nHost: ")
  const OF_OCTETS: seq<byte> := Ascii("Content-Type: application/octet-stream\r\n")
  const TO_LENGTH: seq<byte> := Ascii("Content-Length: ")
  const LINE_END: seq<byte> := Ascii("\r\n")
  const CLOSING: seq<byte> := Ascii("Connection: close\r\n")
  const POSTS: seq<byte> := Ascii("POST")
  const PUTS: seq<byte> := Ascii("PUT")

  /** The bytes of a request up to its blank line. */
  function HeadText(r: Request): seq<byte> {
    var framing :=
      if r.body.Some? || r.verb == POSTS || r.verb == PUTS then
        OF_OCTETS + TO_LENGTH + Decimal(if r.body.Some? then |r.body.value| else 0) + LINE_END
      else [];
    r.verb + [32] + r.path + TO_HOST + r.host + LINE_END + framing
  }

  lemma TypeLineIs()
    ensures Line(TYPE_LINE) == OF_OCTETS
  {
    assert Header(TYPE, OCTETS) + CRLF == OF_OCTETS;
  }

  lemma LiteralLines(host: seq<byte>, digits: seq<byte>)
    ensures VERSION + CRLF + Header(HOST, host) == TO_HOST + host
    ensures Header(LENGTH, digits) == TO_LENGTH + digits
    ensures Line(CLOSE_LINE) == CLOSING && CRLF == LINE_END
  {
    assert VERSION + CRLF + HOST + [COLON, SP] == TO_HOST;
    assert LENGTH + [COLON, SP] == TO_LENGTH;
    assert Header(CONNECTION, CLOSE) + CRLF == CLOSING;
  }

  /** What is sent for a request, to the byte. */
  lemma EncodeBytes(r: Request)
    ensures Encode(r) == HeadText(r) + LINE_END + if r.body.Some? then r.body.value else []
    ensures HeadText(r) == Lines(HeadLines(r))
  {
    var digits := Decimal(|Payload(r)|);
    TypeLineIs();
    LiteralLines(r.host, digits);
    var start := r.verb + [SP] + r.path;
    assert Line(RequestLine(r)) + Line(HostLine(r)) == start + (VERSION + CRLF + Header(HOST, r.host)) + CRLF;
    assert start + (TO_HOST + r.host) + LINE_END == start + TO_HOST + r.host + LINE_END;
    assert Line(TYPE_LINE) + Line(LengthLine(r)) == OF_OCTETS + TO_LENGTH + digits + LINE_END;
    HeadIsLines(r);
  }

  lemma HeadIsLines(r: Request)
    ensures Lines(HeadLines(r)) == Line(RequestLine(r)) + Line(HostLine(r))
      + if CarriesBody(r) then Line(TYPE_LINE) + Line(LengthLine(r)) else []
  {
    var framing := if CarriesBody(r) then [TYPE_LINE, LengthLine(r)] else [];
    assert HeadLines(r) == [RequestLine(r)] + ([HostLine(r)] + framing);
    LinesOf([HostLine(r)] + framing, RequestLine(r));
    LinesOf(framing, HostLine(r));
    if CarriesBody(r) {
      assert framing == [TYPE_LINE] + ([LengthLine(r)] + []);
      LinesOf([LengthLine(r)], TYPE_LINE);
      LinesOf([], LengthLine(r));
      assert Lines(framing) == Line(TYPE_LINE) + Line(LengthLine(r));
    }
  }

  /** Text that cannot end a line. */
  predicate OneLine(v: seq<byte>) {
    forall i :: 0 <= i < |v| ==> v[i] != CR && v[i] != LF
  }

  /** What callers pass: nothing that could break a line, and a method that is one word. */
  predicate Plain(r: Request) {
    OneLine(r.verb) && OneLine(r.host) && OneLine(r.path) && r.verb != [] && SP !in r.verb
  }

  // ---- lines ----

  function Lines(ls: seq<seq<byte>>): seq<byte> {
    if ls == [] then [] else Line(ls[0]) + Lines(ls[1..])
  }

  predicate LinesOk(ls: seq<seq<byte>>) {
    forall i :: 0 <= i < |ls| ==> ls[i] != [] && OneLine(ls[i])
  }

  /** The lines of a request before the blank one. */
  function HeadLines(r: Request): seq<seq<byte>> {
    [RequestLine(r), HostLine(r)] + if CarriesBody(r) then [TYPE_LINE, LengthLine(r)] else []
  }

  lemma LinesOf(ls: seq<seq<byte>>, l: seq<byte>)
    ensures Lines([l] + ls) == Line(l) + Lines(ls)
  {
    assert ([l] + ls)[1..] == ls;
  }

  lemma EncodeAsLines(r: Request)
    ensures Encode(r) == Lines(HeadLines(r)) + CRLF + Payload(r)
  {
    HeadIsLines(r);
  }

  lemma DecimalOneLine(n: nat)
    ensures OneLine(Decimal(n))
  {
    DecimalValue(n);
    var v := Decimal(n);
    forall i | 0 <= i < |v|
      ensures v[i] != CR && v[i] != LF
    {
      assert Digit(10, v[i]).Some?;
    }
  }

  lemma OneLineConcat(a: seq<byte>, b: seq<byte>)
    requires OneLine(a) && OneLine(b)
    ensures OneLine(a + b)
  {
  }

  lemma LiteralsOneLine()
    ensures OneLine(VERSION) && OneLine(HOST) && OneLine(LENGTH) && OneLine(TYPE) && OneLine(OCTETS)
    ensures OneLine(CONNECTION) && OneLine(CLOSE)
  {
  }

  lemma HeaderOneLine(name: seq<byte>, value: seq<byte>)
    requires OneLine(name) && OneLine(value)
    ensures OneLine(Header(name, value))
  {
  }

  lemma HeadLinesOk(r: Request)
    requires Plain(r)
    ensures LinesOk(HeadLines(r)) && LinesOk(HeadLines(r) + [CLOSE_LINE])
  {
    LiteralsOneLine();
    DecimalOneLine(|Payload(r)|);
    OneLineConcat(r.verb, [SP]);
    OneLineConcat(r.verb + [SP], r.path);
    OneLineConcat(r.verb + [SP] + r.path, VERSION);
    HeaderOneLine(HOST, r.host);
    HeaderOneLine(LENGTH, Decimal(|Payload(r)|));
    HeaderOneLine(TYPE, OCTETS);
    HeaderOneLine(CONNECTION, CLOSE);
  }

  // ---- the header spliced in ----

  /** The four bytes at i end the header. */
  predicate BlankAt(s: seq<byte>, i: nat) {
    i + 4 <= |s| && s[i] == CR && s[i + 1] == LF && s[i + 2] == CR && s[i + 3] == LF
  }

  /** The first place that does; windows(4).position in the source. */
  function FirstBlank(s: seq<byte>): (i: nat)
    ensures i <= |s|
    ensures i < |s| ==> BlankAt(s, i)
    ensures forall k :: 0 <= k < i ==> !BlankAt(s, k)
  {
    if s == [] || BlankAt(s, 0) then 0
    else
      var i := 1 + FirstBlank(s[1..]);
      assert forall k :: 1 <= k < |s| ==> BlankAt(s, k) == BlankAt(s[1..], k - 1);
      i
  }

  /** The control request: the same bytes with one more header. */
  function Splice(s: seq<byte>): seq<byte>
    requires FirstBlank(s) < |s|
  {
    var at := FirstBlank(s) + 2;
    s[..at] + Line(CLOSE_LINE) + s[at..]
  }

  /** In lines followed by a blank one, nothing before the last line's end ends the header. */
  lemma {:induction false} NoBlankInLines(ls: seq<seq<byte>>, t: seq<byte>, k: nat)
    requires LinesOk(ls) && k + 2 < |Lines(ls)|
    ensures !BlankAt(Lines(ls) + t, k)
  {
    var l, rest := ls[0], Lines(ls[1..]) + t;
    var n := |l| + 2;
    assert Lines(ls) + t == Line(l) + rest;
    var s := Line(l) + rest;
    if k < |l| {
      assert s[k] == l[k];
    } else if k == |l| {
      assert ls[1..] != [] && ls[1..][0] == ls[1];
      assert s[k + 2] == rest[0] == ls[1][0];
    } else if k >= n {
      NoBlankInLines(ls[1..], t, k - n);
      assert BlankAt(s, k) == BlankAt(rest, k - n);
    }
  }

  /** Wherever the body itself looks like a header's end, the splice lands before the
      blank line after the header lines, and leaves the body alone. */
  lemma SpliceLands(r: Request)
    requires Plain(r)
    ensures FirstBlank(Encode(r)) < |Encode(r)|
    ensures Splice(Encode(r)) == Lines(HeadLines(r) + [CLOSE_LINE]) + CRLF + Payload(r)
    ensures Splice(Encode(r)) == HeadText(r) + CLOSING + LINE_END + if r.body.Some? then r.body.value else []
  {
    EncodeBytes(r);
    LiteralLines([], []);
    EncodeAsLines(r);
    HeadLinesOk(r);
    BlankAfterLines(HeadLines(r), Payload(r));
    LinesAppend(HeadLines(r), CLOSE_LINE);
    var n := |Lines(HeadLines(r))|;
    assert Encode(r)[..n] == Lines(HeadLines(r)) && Encode(r)[n..] == CRLF + Payload(r);
  }

  lemma BlankAfterLines(ls: seq<seq<byte>>, t: seq<byte>)
    requires ls != [] && LinesOk(ls)
    ensures FirstBlank(Lines(ls) + CRLF + t) + 2 == |Lines(ls)|
  {
    EndsInCrlf(ls);
    var s, at := Lines(ls) + CRLF + t, |Lines(ls)| - 2;
    assert s == Lines(ls) + (CRLF + t);
    assert s[at] == Lines(ls)[at] && s[at + 1] == Lines(ls)[at + 1] && s[at + 2..at + 4] == CRLF;
    assert BlankAt(s, at);
    forall k | 0 <= k < at
      ensures !BlankAt(s, k)
    {
      NoBlankInLines(ls, CRLF + t, k);
    }
  }

  lemma {:induction false} EndsInCrlf(ls: seq<seq<byte>>)
    requires ls != []
    ensures var n := |Lines(ls)|; n >= 2 && Lines(ls)[n - 2] == CR && Lines(ls)[n - 1] == LF
  {
    if |ls| > 1 {
      EndsInCrlf(ls[1..]);
    } else {
      assert Lines(ls) == Line(ls[0]);
    }
  }

  lemma {:induction false} LinesAppend(ls: seq<seq<byte>>, l: seq<byte>)
    ensures Lines(ls + [l]) == Lines(ls) + Line(l)
  {
    if ls == [] {
      assert ls + [l] == [l] && Lines([l][1..]) == [];
    } else {
      assert (ls + [l])[1..] == ls[1..] + [l];
      LinesAppend(ls[1..], l);
    }
  }

  // ---- what a server makes of them ----

  datatype Received = Received(verb: seq<byte>, path: seq<byte>, host: seq<byte>, closes: bool, body: seq<byte>)

  datatype Fields = Fields(host: seq<byte>, length: nat, closes: bool)

  datatype Parse<+T> = Parse(value: T, rest: seq<byte>)

  /** The next line, without its ending. */
  function NextLine(s: seq<byte>): (p: Option<Parse<seq<byte>>>)
    ensures p.Some? ==> |p.value.rest| < |s|
  {
    var nl := IndexOf(s, LF);
    if nl == |s| then None else Some(Parse(StripCr(s[..nl]), s[nl + 1..]))
  }

  /** One header's effect. */
  function ReadField(line: seq<byte>, f: Fields): Option<Fields> {
    var colon := IndexOf(line, COLON);
    if colon == 0 || colon == |line| then None
    else
      var name, value := line[..colon], Trim(Go, line[colon + 1..]);
      if EqualFold(name, HOST) then Some(f.(host := value))
      else if EqualFold(name, LENGTH) then
        match ParseNumber(Go, 10, value)
        case None => None
        case Some(n) => Some(f.(length := n))
      else if EqualFold(name, CONNECTION) then Some(f.(closes := EqualFold(value, CLOSE)))
      else Some(f)
  }

  function ReadFields(s: seq<byte>, f: Fields): (p: Option<Parse<Fields>>)
    decreases |s|
  {
    match NextLine(s)
    case None => None
    case Some(Parse(line, rest)) =>
      if line == [] then Some(Parse(f, rest))
      else
        match ReadField(line, f)
        case None => None
        case Some(f') => ReadFields(rest, f')
  }

  /** The method and the target of a request line. */
  function ReadRequestLine(line: seq<byte>): Option<(seq<byte>, seq<byte>)> {
    var i, j := IndexOf(line, SP), |line| - |VERSION|;
    if i < j && line[j..] == VERSION then Some((line[..i], line[i + 1..j])) else None
  }

  /** One request off the front of s: an independent reading of the grammar. */
  function Decode(s: seq<byte>): Option<Parse<Received>> {
    match NextLine(s)
    case None => None
    case Some(Parse(line, rest)) =>
      match (ReadRequestLine(line), ReadFields(rest, Fields([], 0, false)))
      case (Some((verb, path)), Some(Parse(f, rest'))) =>
        if f.length > |rest'| then None
        else Some(Parse(Received(verb, path, f.host, f.closes, rest'[..f.length]), rest'[f.length..]))
      case _ => None
  }

  lemma NextLineBack(line: seq<byte>, t: seq<byte>)
    requires OneLine(line)
    ensures NextLine(Line(line) + t) == Some(Parse(line, t))
  {
    var s := Line(line) + t;
    IndexOfIs(s, LF, |line| + 1);
    assert s[..|line| + 1] == line + [CR];
    assert s[|line| + 2..] == t;
  }

  lemma RequestLineBack(r: Request)
    requires Plain(r)
    ensures ReadRequestLine(RequestLine(r)) == Some((r.verb, r.path))
  {
    var line, n := RequestLine(r), |r.verb|;
    assert forall k :: 0 <= k < n ==> line[k] == r.verb[k] != SP;
    assert line[n] == SP;
    IndexOfIs(line, SP, n);
    assert line == r.verb + ([SP] + r.path) + VERSION;
    assert line[|line| - |VERSION|..] == VERSION;
    assert line[..n] == r.verb && line[n + 1..|line| - |VERSION|] == r.path;
  }

  predicate ColonFree(name: seq<byte>) {
    forall i :: 0 <= i < |name| ==> name[i] != COLON
  }

  /** A header's name and value, as they are read. */
  lemma HeaderBack(name: seq<byte>, value: seq<byte>)
    requires ColonFree(name) && name != []
    ensures var line := Header(name, value);
      && 0 < IndexOf(line, COLON) < |line|
      && line[..IndexOf(line, COLON)] == name
      && Trim(Go, line[IndexOf(line, COLON) + 1..]) == Trim(Go, value)
  {
    var line, n := Header(name, value), |name|;
    assert forall k :: 0 <= k < n ==> line[k] == name[k];
    IndexOfIs(line, COLON, n);
    assert line[..n] == name;
    assert line[n + 1..] == [SP] + value && ([SP] + value)[1..] == value;
  }

  /** The effect of header lines one after the other. */
  function FoldFields(ls: seq<seq<byte>>, f: Fields): Option<Fields> {
    if ls == [] then Some(f)
    else
      match ReadField(ls[0], f)
      case None => None
      case Some(f') => FoldFields(ls[1..], f')
  }

  lemma {:induction false} LinesBack(ls: seq<seq<byte>>, end: seq<byte>, f: Fields)
    requires LinesOk(ls) && FoldFields(ls, f).Some?
    ensures ReadFields(Lines(ls) + end, f) == ReadFields(end, FoldFields(ls, f).value)
  {
    if ls == [] {
      assert Lines(ls) + end == end;
    } else {
      assert Lines(ls) + end == Line(ls[0]) + (Lines(ls[1..]) + end);
      NextLineBack(ls[0], Lines(ls[1..]) + end);
      LinesBack(ls[1..], end, ReadField(ls[0], f).value);
    }
  }

  lemma FoldStep(l: seq<byte>, ls: seq<seq<byte>>, f: Fields)
    requires ReadField(l, f).Some?
    ensures FoldFields([l] + ls, f) == FoldFields(ls, ReadField(l, f).value)
  {
    assert ([l] + ls)[1..] == ls;
  }

  lemma EndOfFields(t: seq<byte>, f: Fields)
    ensures ReadFields(CRLF + t, f) == Some(Parse(f, t))
  {
    NextLineBack([], t);
    assert Line([]) == CRLF;
  }

  /** The names are told apart by their lengths. */
  lemma Names()
    ensures ColonFree(HOST) && ColonFree(LENGTH) && ColonFree(TYPE) && ColonFree(CONNECTION)
    ensures |HOST| == 4 && |CONNECTION| == 10 && |TYPE| == 12 && |LENGTH| == 14
    ensures NoEdgeSpace(Go, CLOSE)
  {
  }

  lemma HostBack(host: seq<byte>, f: Fields)
    ensures ReadField(Header(HOST, host), f) == Some(f.(host := Trim(Go, host)))
  {
    Names();
    HeaderBack(HOST, host);
  }

  lemma TypeBack(f: Fields)
    ensures ReadField(TYPE_LINE, f) == Some(f)
  {
    Names();
    HeaderBack(TYPE, OCTETS);
  }

  lemma CloseBack(f: Fields)
    ensures ReadField(CLOSE_LINE, f) == Some(f.(closes := true))
  {
    Names();
    HeaderBack(CONNECTION, CLOSE);
    TrimAlone(CLOSE);
  }

  lemma TrimAlone(v: seq<byte>)
    requires NoEdgeSpace(Go, v)
    ensures Trim(Go, v) == v
  {
    TrimPadded(Go, [], v, []);
    assert [] + v + [] == v;
  }

  lemma LengthBack(n: nat, f: Fields)
    requires n < INT_LIMIT
    ensures ReadField(Header(LENGTH, Decimal(n)), f) == Some(f.(length := n))
  {
    Names();
    HeaderBack(LENGTH, Decimal(n));
    DecimalValue(n);
    ParsePlain(Go, 10, Decimal(n));
    TrimAlone(Decimal(n));
  }

  /** The bytes of a request with or without the header that closes the connection. */
  function Wire(r: Request, closes: bool): seq<byte> {
    Lines(HeadLines(r) + if closes then [CLOSE_LINE] else []) + CRLF + Payload(r)
  }

  function ReceivedAs(r: Request, closes: bool): Received {
    Received(r.verb, r.path, Trim(Go, r.host), closes, Payload(r))
  }

  function LengthOf(r: Request): nat {
    if CarriesBody(r) then |Payload(r)| else 0
  }

  /** The header lines behind the request line. */
  function FieldLines(r: Request, closes: bool): seq<seq<byte>> {
    [HostLine(r)] + ((if CarriesBody(r) then [TYPE_LINE, LengthLine(r)] else [])
                     + if closes then [CLOSE_LINE] else [])
  }

  /** The lines behind the Host line. */
  lemma FoldTail(r: Request, closes: bool, f: Fields)
    requires |Payload(r)| < INT_LIMIT && f.length == 0 && !f.closes
    ensures FoldFields((if CarriesBody(r) then [TYPE_LINE, LengthLine(r)] else []) + if closes then [CLOSE_LINE] else [], f)
      == Some(f.(length := LengthOf(r), closes := closes))
  {
    var last := if closes then [CLOSE_LINE] else [];
    var f' := f.(length := LengthOf(r));
    if CarriesBody(r) {
      TypeBack(f);
      LengthBack(|Payload(r)|, f);
      assert [TYPE_LINE, LengthLine(r)] + last == [TYPE_LINE] + ([LengthLine(r)] + last);
      FoldStep(TYPE_LINE, [LengthLine(r)] + last, f);
      FoldStep(LengthLine(r), last, f);
    } else {
      assert [] + last == last;
    }
    if closes {
      CloseBack(f');
      FoldStep(CLOSE_LINE, [], f');
      assert [CLOSE_LINE] == [CLOSE_LINE] + [];
    }
  }

  lemma FoldBack(r: Request, closes: bool)
    requires |Payload(r)| < INT_LIMIT
    ensures FoldFields(FieldLines(r, closes), Fields([], 0, false))
      == Some(Fields(Trim(Go, r.host), LengthOf(r), closes))
  {
    var f := Fields([], 0, false);
    HostBack(r.host, f);
    FoldStep(HostLine(r), (if CarriesBody(r) then [TYPE_LINE, LengthLine(r)] else []) + if closes then [CLOSE_LINE] else [], f);
    FoldTail(r, closes, f.(host := Trim(Go, r.host)));
  }

  lemma FieldLinesOk(r: Request, closes: bool)
    requires Plain(r)
    ensures OneLine(RequestLine(r)) && LinesOk(FieldLines(r, closes))
  {
    HeadLinesOk(r);
    var all := HeadLines(r) + [CLOSE_LINE];
    assert OneLine(all[0]);
    forall i | 0 <= i < |FieldLines(r, closes)|
      ensures FieldLines(r, closes)[i] != [] && OneLine(FieldLines(r, closes)[i])
    {
      assert FieldLines(r, closes)[i] == all[i + 1];
    }
  }

  lemma WireAsLines(r: Request, closes: bool, t: seq<byte>)
    ensures Wire(r, closes) + t
      == Line(RequestLine(r)) + (Lines(FieldLines(r, closes)) + (CRLF + (Payload(r) + t)))
  {
    var ls := FieldLines(r, closes);
    assert HeadLines(r) + (if closes then [CLOSE_LINE] else []) == [RequestLine(r)] + ls;
    LinesOf(ls, RequestLine(r));
    Regroup(Line(RequestLine(r)), Lines(ls), CRLF, Payload(r), t);
  }

  lemma Regroup(a: seq<byte>, b: seq<byte>, c: seq<byte>, d: seq<byte>, e: seq<byte>)
    ensures a + b + c + d + e == a + (b + (c + (d + e)))
  {
  }

  /** A request decodes to what was asked, body and all, with what follows it left; with
      the header spliced in it asks the same and closes. */
  lemma WireBack(r: Request, closes: bool, t: seq<byte>)
    requires Plain(r) && |Payload(r)| < INT_LIMIT
    ensures Decode(Wire(r, closes) + t) == Some(Parse(ReceivedAs(r, closes), t))
  {
    var end := Payload(r) + t;
    var f := Fields(Trim(Go, r.host), LengthOf(r), closes);
    var rest := Lines(FieldLines(r, closes)) + (CRLF + end);
    WireAsLines(r, closes, t);
    FieldLinesOk(r, closes);
    NextLineBack(RequestLine(r), rest);
    RequestLineBack(r);
    FoldBack(r, closes);
    LinesBack(FieldLines(r, closes), CRLF + end, Fields([], 0, false));
    EndOfFields(end, f);
    assert end[..LengthOf(r)] == Payload(r) && end[LengthOf(r)..] == t;
    WholeStep(Wire(r, closes) + t, RequestLine(r), rest, r.verb, r.path, f, end);
  }

  lemma WholeStep(s: seq<byte>, line: seq<byte>, rest: seq<byte>, verb: seq<byte>, path: seq<byte>, f: Fields, end: seq<byte>)
    requires NextLine(s) == Some(Parse(line, rest)) && ReadRequestLine(line) == Some((verb, path))
    requires ReadFields(rest, Fields([], 0, false)) == Some(Parse(f, end)) && f.length <= |end|
    ensures Decode(s) == Some(Parse(Received(verb, path, f.host, f.closes, end[..f.length]), end[f.length..]))
  {
  }

  /** The control request asks the same as the request it is made from, and closes. */
  lemma SpliceBack(r: Request, t: seq<byte>)
    requires Plain(r) && |Payload(r)| < INT_LIMIT
    ensures FirstBlank(Encode(r)) < |Encode(r)|
    ensures Decode(Splice(Encode(r)) + t) == Some(Parse(ReceivedAs(r, true), t))
  {
    SpliceLands(r);
    WireBack(r, true, t);
  }

  // ---- pipelined ----

  function EncodeAll(rs: seq<Request>): seq<byte> {
    if rs == [] then [] else Encode(rs[0]) + EncodeAll(rs[1..])
  }

  function DecodeAll(s: seq<byte>, n: nat): Option<Parse<seq<Received>>>
    decreases n
  {
    if n == 0 then Some(Parse([], s))
    else
      match Decode(s)
      case None => None
      case Some(Parse(one, rest)) =>
        match DecodeAll(rest, n - 1)
        case None => None
        case Some(Parse(others, rest')) => Some(Parse([one] + others, rest'))
  }

  function AllReceivedAs(rs: seq<Request>): seq<Received> {
    if rs == [] then [] else [ReceivedAs(rs[0], false)] + AllReceivedAs(rs[1..])
  }

  predicate AllPlain(rs: seq<Request>) {
    forall i :: 0 <= i < |rs| ==> Plain(rs[i]) && |Payload(rs[i])| < INT_LIMIT
  }

  lemma EncodeBack(r: Request, t: seq<byte>)
    requires Plain(r) && |Payload(r)| < INT_LIMIT
    ensures Decode(Encode(r) + t) == Some(Parse(ReceivedAs(r, false), t))
  {
    EncodeAsLines(r);
    assert HeadLines(r) + [] == HeadLines(r);
    WireBack(r, false, t);
  }

  lemma DecodeStep(s: seq<byte>, n: nat, one: Received, rest: seq<byte>, others: seq<Received>, t: seq<byte>)
    requires Decode(s) == Some(Parse(one, rest)) && DecodeAll(rest, n) == Some(Parse(others, t))
    ensures DecodeAll(s, n + 1) == Some(Parse([one] + others, t))
  {
  }

  /** Requests written one behind the other decode to exactly those requests. */
  lemma {:induction false} PipelinedBack(rs: seq<Request>, t: seq<byte>)
    requires AllPlain(rs)
    ensures DecodeAll(EncodeAll(rs) + t, |rs|) == Some(Parse(AllReceivedAs(rs), t))
  {
    if rs == [] {
      assert EncodeAll(rs) + t == t;
    } else {
      var rest, one, others := EncodeAll(rs[1..]) + t, ReceivedAs(rs[0], false), AllReceivedAs(rs[1..]);
      assert Decode(EncodeAll(rs) + t) == Some(Parse(one, rest)) by {
        assert EncodeAll(rs) + t == Encode(rs[0]) + rest;
        EncodeBack(rs[0], rest);
      }
      assert DecodeAll(rest, |rs| - 1) == Some(Parse(others, t)) by { PipelinedBack(rs[1..], t); }
      DecodeStep(EncodeAll(rs) + t, |rs| - 1, one, rest, others, t);
    }
  }
}
