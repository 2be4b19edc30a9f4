/** Where the two clients read a response alike, exactly. Their libraries differ on numbers
    that have space around them only Go strips, on a negative zero, on numbers only Rust's
    usize can hold, and on a coding that spells chunked with a Kelvin sign; and on no other
    text a response is framed by. */
module ClientsAgree {
  import opened Options
  import opened Bytes
  import opened ResponseGrammar

  // ---- numbers with space around them ----

  /** Once Rust has trimmed a value there is space at its edge for Go: a vertical tab or one
      of the spaces of Unicode. */
  predicate GoTrimsMore(v: seq<byte>) {
    LeadSpace(Go, Trim(Rust, v)) > 0 || TailSpace(Go, Trim(Rust, v)) > 0
  }

  lemma {:induction false} TrimLeftTwice(v: seq<byte>)
    ensures TrimLeft(Go, TrimLeft(Rust, v)) == TrimLeft(Go, v)
    decreases |v|
  {
    if LeadSpace(Rust, v) > 0 { TrimLeftTwice(v[1..]); }
  }

  lemma {:induction false} TrimRightTwice(v: seq<byte>)
    ensures TrimRight(Go, TrimRight(Rust, v)) == TrimRight(Go, v)
    decreases |v|
  {
    if TailSpace(Rust, v) > 0 { TrimRightTwice(v[..|v| - 1]); }
  }

  lemma {:induction false} TrimLeftEdge(v: seq<byte>)
    ensures LeadSpace(Rust, TrimLeft(Rust, v)) == 0
    decreases |v|
  {
    if LeadSpace(Rust, v) > 0 { TrimLeftEdge(v[1..]); }
  }

  /** What Rust takes off the end is ASCII, and stops at ink. */
  lemma {:induction false} TrimRightRest(v: seq<byte>)
    ensures var r := TrimRight(Rust, v);
      && r <= v && (r != v ==> v[|r|] < 128)
      && (v != [] && LeadSpace(Rust, v) == 0 ==> r != [])
    decreases |v|
  {
    if TailSpace(Rust, v) > 0 { TrimRightRest(v[..|v| - 1]); }
  }

  /** Where Go would not trim more, both clients trim alike. */
  lemma TrimSame(v: seq<byte>)
    requires !GoTrimsMore(v)
    ensures Trim(Rust, v) == Trim(Go, v)
  {
    var x, r := TrimLeft(Rust, v), Trim(Rust, v);
    TrimLeftEdge(v);
    TrimRightRest(x);
    TrimLeftTwice(v);
    TrimRightTwice(x);
    if x != [] {
      assert x == r + x[|r|..];
      LeadSpaceAhead(Go, r, x[|r|..]);
    }
  }

  /** The texts the clients read as different numbers: a number for Go with space around it
      that only Go strips, and those only one of them reads. */
  predicate NumbersApart(base: nat, v: seq<byte>)
    requires base == 10 || base == 16
  {
    if GoTrimsMore(v) then ParseNumber(Go, base, Trim(Go, v)).Some? else OneReads(base, Trim(Go, v))
  }

  lemma SpaceIsNoNumber(base: nat, v: seq<byte>)
    requires (base == 10 || base == 16) && GoTrimsMore(v)
    ensures ParseNumber(Rust, base, Trim(Rust, v)).None?
  {
    var r := Trim(Rust, v);
    var digits := if r[0] == PLUS then r[1..] else r;
    if digits != [] {
      var at := if TailSpace(Go, r) > 0 then |digits| - 1 else 0;
      assert Digit(base, digits[at]).None?;
    }
  }

  /** Exactly those texts are read differently, and then one client reads a number and the
      other refuses. */
  lemma NumbersDiffer(base: nat, v: seq<byte>)
    requires base == 10 || base == 16
    ensures var rust, go := ParseNumber(Rust, base, Trim(Rust, v)), ParseNumber(Go, base, Trim(Go, v));
      && (rust != go <==> NumbersApart(base, v))
      && (rust != go ==> rust.Some? != go.Some?)
  {
    if GoTrimsMore(v) {
      SpaceIsNoNumber(base, v);
    } else {
      TrimSame(v);
      ParseNumberDiffers(base, Trim(Go, v));
    }
  }

  // ---- a word with space around it ----

  predicate IsLetter(b: byte) {
    97 <= Lower(b) <= 122
  }

  /** A word of lower case with letters at its ends. */
  predicate IsWord(word: seq<byte>) {
    word != [] && 97 <= word[0] <= 122 && 97 <= word[|word| - 1] <= 122
  }

  lemma FoldEnds(v: seq<byte>, word: seq<byte>, i: nat)
    requires IsWord(word) && FoldAt(v, word, i)
    ensures IsLetter(v[i]) && IsLetter(v[i + |word| - 1])
  {
    var part := v[i..i + |word|];
    assert part[0] == v[i] && part[|word| - 1] == v[i + |word| - 1];
  }

  /** No byte of a space is a letter. */
  lemma SpaceNoLetters(client: Client, v: seq<byte>)
    ensures forall k :: 0 <= k < LeadSpace(client, v) ==> !IsLetter(v[k])
    ensures forall k :: |v| - TailSpace(client, v) <= k < |v| ==> !IsLetter(v[k])
  {
  }

  lemma SliceOfSlice(v: seq<byte>, i: nat, j: nat, a: nat, b: nat)
    requires i <= j <= |v| && a <= b <= j - i
    ensures v[i..j][a..b] == v[i + a..i + b]
  {
    assert forall k :: 0 <= k < b - a ==> v[i..j][a..b][k] == v[i..j][a + k] == v[i + a..i + b][k];
  }

  lemma ContainsWider(v: seq<byte>, word: seq<byte>, i: nat, j: nat)
    requires i <= j <= |v| && ContainsFold(v[i..j], word)
    ensures ContainsFold(v, word)
  {
    var at :| 0 <= at <= j - i && FoldAt(v[i..j], word, at);
    SliceOfSlice(v, i, j, at, at + |word|);
    assert FoldAt(v, word, at + i);
  }

  /** A word in v is in what is left of it without other bytes, from i up to j. */
  lemma ContainsWithin(v: seq<byte>, word: seq<byte>, i: nat, j: nat)
    requires IsWord(word) && i <= j <= |v| && ContainsFold(v, word)
    requires forall k :: 0 <= k < |v| && !(i <= k < j) ==> !IsLetter(v[k])
    ensures ContainsFold(v[i..j], word)
  {
    var at :| 0 <= at <= |v| && FoldAt(v, word, at);
    FoldEnds(v, word, at);
    SliceOfSlice(v, i, j, at - i, at - i + |word|);
    assert FoldAt(v[i..j], word, at - i);
  }

  lemma WithinContains(v: seq<byte>, word: seq<byte>, i: nat, j: nat)
    requires IsWord(word) && i <= j <= |v|
    requires forall k :: 0 <= k < |v| && !(i <= k < j) ==> !IsLetter(v[k])
    ensures ContainsFold(v[i..j], word) <==> ContainsFold(v, word)
  {
    if ContainsFold(v, word) { ContainsWithin(v, word, i, j); }
    if ContainsFold(v[i..j], word) { ContainsWider(v, word, i, j); }
  }

  lemma {:induction false} LeftContains(client: Client, v: seq<byte>, word: seq<byte>)
    requires IsWord(word)
    ensures ContainsFold(TrimLeft(client, v), word) <==> ContainsFold(v, word)
    decreases |v|
  {
    var n := LeadSpace(client, v);
    if n > 0 {
      LeftContains(client, v[n..], word);
      SpaceNoLetters(client, v);
      WithinContains(v, word, n, |v|);
      assert v[n..|v|] == v[n..];
    }
  }

  lemma {:induction false} RightContains(client: Client, v: seq<byte>, word: seq<byte>)
    requires IsWord(word)
    ensures ContainsFold(TrimRight(client, v), word) <==> ContainsFold(v, word)
    decreases |v|
  {
    var n := TailSpace(client, v);
    if n > 0 {
      RightContains(client, v[..|v| - n], word);
      SpaceNoLetters(client, v);
      WithinContains(v, word, 0, |v| - n);
      assert v[0..|v| - n] == v[..|v| - n];
    }
  }

  lemma TrimContains(client: Client, v: seq<byte>, word: seq<byte>)
    requires IsWord(word)
    ensures ContainsFold(Trim(client, v), word) <==> ContainsFold(v, word)
  {
    LeftContains(client, v, word);
    RightContains(client, TrimLeft(client, v), word);
  }

  /** A coding that says chunked to Go alone. */
  predicate CodingApart(v: seq<byte>) {
    ContainsFold(v, KELVIN_CHUNKED) && !ContainsFold(v, CHUNKED)
  }

  lemma CodingDiffers(v: seq<byte>)
    ensures var rust, go := IsChunked(Rust, Trim(Rust, v)), IsChunked(Go, Trim(Go, v));
      go == (rust || CodingApart(v)) && (CodingApart(v) ==> !rust)
  {
    assert IsWord(CHUNKED) && IsWord(KELVIN_CHUNKED);
    TrimContains(Rust, v, CHUNKED);
    TrimContains(Go, v, CHUNKED);
    TrimContains(Go, v, KELVIN_CHUNKED);
  }

  // ---- lines ----

  /** A length in one of the texts only one client takes. */
  predicate LengthApart(line: seq<byte>) {
    Named(line, CONTENT_LENGTH) && NumbersApart(10, ValueOf(line))
  }

  /** A coding that says chunked to Go alone. */
  predicate KelvinLine(line: seq<byte>) {
    Named(line, TRANSFER_ENCODING) && CodingApart(ValueOf(line))
  }

  /** What a header line does, by its name. */
  lemma LengthField(client: Client, line: seq<byte>, f: Framing)
    requires Named(line, CONTENT_LENGTH)
    ensures var n := ParseNumber(client, 10, Trim(client, ValueOf(line)));
      Field(client, line, f) == if n.None? then Err(BadContentLength) else Ok(f.(length := n))
  {
  }

  lemma CodingField(client: Client, line: seq<byte>, f: Framing)
    requires Named(line, TRANSFER_ENCODING)
    ensures Field(client, line, f) == Ok(f.(chunked := IsChunked(client, Trim(client, ValueOf(line)))))
    ensures !Named(line, CONTENT_LENGTH)
  {
    assert |CONTENT_LENGTH| != |TRANSFER_ENCODING|;
  }

  /** What a line the Rust client takes tells Go. */
  function TakenByGo(line: seq<byte>, f': Framing, rust: Framing): Framing {
    Framing(if Named(line, CONTENT_LENGTH) then rust.length else f'.length,
            if Named(line, TRANSFER_ENCODING) then rust.chunked || KelvinLine(line) else f'.chunked)
  }

  /** A header line taken by both clients, each with what it has been told so far. */
  lemma FieldTwins(line: seq<byte>, f: Framing, f': Framing)
    ensures var rust, go := Field(Rust, line, f), Field(Go, line, f');
      && (LengthApart(line) ==> rust.Ok? != go.Ok?)
      && (!LengthApart(line) && rust.Err? ==> go == rust)
      && (!LengthApart(line) && rust.Ok? ==> go == Ok(TakenByGo(line, f', rust.value)))
      && (rust.Ok? && !Named(line, CONTENT_LENGTH) ==> rust.value.length == f.length)
      && (rust.Ok? && !Named(line, TRANSFER_ENCODING) ==> rust.value.chunked == f.chunked)
      && (KelvinLine(line) ==> !LengthApart(line) && rust.Ok? && !rust.value.chunked)
  {
    if Named(line, TRANSFER_ENCODING) {
      CodingField(Rust, line, f);
      CodingField(Go, line, f');
      CodingDiffers(ValueOf(line));
    } else if Named(line, CONTENT_LENGTH) {
      LengthField(Rust, line, f);
      LengthField(Go, line, f');
      NumbersDiffer(10, ValueOf(line));
    }
  }

  /** The clients take a header line differently if and only if it is one of those: the one
      they do not both accept, the other tells Go of chunks. */
  lemma FieldDiffers(line: seq<byte>, f: Framing)
    ensures Field(Rust, line, f) != Field(Go, line, f) <==> LengthApart(line) || KelvinLine(line)
    ensures LengthApart(line) ==> Field(Rust, line, f).Ok? != Field(Go, line, f).Ok?
    ensures KelvinLine(line) ==>
      Field(Rust, line, f) == Ok(f.(chunked := false)) && Field(Go, line, f) == Ok(f.(chunked := true))
  {
    FieldTwins(line, f, f);
  }

  /** And a chunk's first line: a size in one of the texts. */
  predicate SizeApart(line: seq<byte>) {
    NumbersApart(16, line[..IndexOf(line, SEMICOLON)])
  }

  lemma ChunkSizeDiffers(line: seq<byte>)
    ensures ChunkSize(Rust, line) != ChunkSize(Go, line) <==> SizeApart(line)
    ensures SizeApart(line) ==> ChunkSize(Rust, line).Some? != ChunkSize(Go, line).Some?
  {
    NumbersDiffer(16, line[..IndexOf(line, SEMICOLON)]);
  }

  // ---- the lines of a response ----

  /** The same success, or a failure of the same kind. */
  ghost predicate Agree<T>(rust: Outcome<T>, go: Outcome<T>) {
    && (rust.Done? ==> go == rust)
    && (rust.Fail? ==> go.Fail? && go.error == rust.error)
  }

  function Twin(g: Rules): Rules {
    g.(client := Go)
  }

  /** No header line read is a length the clients do not both take. */
  predicate LengthsAlike(g: Rules, s: seq<byte>, f: Framing)
    decreases |s|
  {
    var l := Line(g, s);
    l.Done? && l.value != [] ==>
      && !LengthApart(l.value)
      && (Field(Rust, l.value, f).Ok? ==> LengthsAlike(g, l.rest, Field(Rust, l.value, f).value))
  }

  /** Whether the last Transfer-Encoding read, or what was said before, tells Go alone of chunks. */
  function Kelvin(g: Rules, s: seq<byte>, f: Framing, said: bool): bool
    decreases |s|
  {
    var l := Line(g, s);
    if l.Done? && l.value != [] && Field(Rust, l.value, f).Ok?
    then Kelvin(g, l.rest, Field(Rust, l.value, f).value, NowSaid(l.value, said)) else said
  }

  function NowSaid(line: seq<byte>, said: bool): bool {
    if Named(line, TRANSFER_ENCODING) then CodingApart(ValueOf(line)) else said
  }

  predicate SizeAlike(g: Rules, s: seq<byte>) {
    Line(g, s).Done? ==> !SizeApart(Line(g, s).value)
  }

  /** Nor is the size line of any chunk read, after the part of the body before it. */
  predicate SizesAlike(g: Rules, s: seq<byte>, body: seq<byte>)
    decreases |s|
  {
    var c := NextChunk(g, s, |body|);
    && SizeAlike(g, s)
    && (c.Done? && c.value.Some? ==> SizesAlike(g, c.rest, body + c.value.value))
  }

  /** Every line the response at the front of s is framed by is read alike; its body's bytes,
      its trailer and what follows it may be anything. */
  predicate Alike(g: Rules, s: seq<byte>) {
    var l, h := Line(g, s), ParseHead(g, s);
    && (l.Done? && ParseStatus(l.value).Some? ==> LengthsAlike(g, l.rest, Framing(None, false)))
    && (h.Done? && !Bodiless(h.value.status) ==>
          && !Kelvin(g, l.rest, Framing(None, false), false)
          && (h.value.framing.chunked ==> SizesAlike(g, h.rest, [])))
  }

  /** What Go makes of a framing if it alone was told of chunks. */
  function GoFraming(f: Framing, said: bool): Framing {
    if said then f.(chunked := true) else f
  }

  lemma FieldTwin(line: seq<byte>, f: Framing, said: bool)
    requires !LengthApart(line) && (said ==> !f.chunked)
    ensures var rust, go, said' := Field(Rust, line, f), Field(Go, line, GoFraming(f, said)), NowSaid(line, said);
      && (rust.Err? ==> go == rust)
      && (rust.Ok? ==> go == Ok(GoFraming(rust.value, said')) && (said' ==> !rust.value.chunked))
  {
    FieldTwins(line, f, GoFraming(f, said));
  }

  lemma LineSame(g: Rules, s: seq<byte>)
    requires g.client.Rust?
    ensures Agree(Line(g, s), Line(Twin(g), s))
  {
  }

  /** Header lines without such a length: the framings are the same but for what a Kelvin
      sign told Go. */
  ghost predicate HeadersAgree(rust: Outcome<Framing>, go: Outcome<Framing>, said: bool) {
    && (rust.Fail? ==> go.Fail? && go.error == rust.error)
    && (rust.Done? ==> go == Done(GoFraming(rust.value, said), rust.rest) && (said ==> !rust.value.chunked))
  }

  lemma {:induction false} HeadersTwin(g: Rules, s: seq<byte>, f: Framing, said: bool)
    requires g.client.Rust? && LengthsAlike(g, s, f) && (said ==> !f.chunked)
    ensures HeadersAgree(Headers(g, s, f), Headers(Twin(g), s, GoFraming(f, said)), Kelvin(g, s, f, said))
    decreases |s|
  {
    LineSame(g, s);
    var l := Line(g, s);
    if l.Done? && l.value != [] {
      FieldTwin(l.value, f, said);
      var next := Field(Rust, l.value, f);
      if next.Ok? { HeadersTwin(g, l.rest, next.value, NowSaid(l.value, said)); }
    }
  }

  lemma {:induction false} TrailerSame(g: Rules, s: seq<byte>)
    requires g.client.Rust?
    ensures Agree(Trailer(g, s), Trailer(Twin(g), s))
    decreases |s|
  {
    LineSame(g, s);
    var l := Line(g, s);
    if l.Done? && l.value != [] { TrailerSame(g, l.rest); }
  }

  lemma ChunkHeadSame(g: Rules, s: seq<byte>)
    requires g.client.Rust? && SizeAlike(g, s)
    ensures Agree(ChunkHead(g, s), ChunkHead(Twin(g), s))
  {
    LineSame(g, s);
    if Line(g, s).Done? { ChunkSizeDiffers(Line(g, s).value); }
  }

  lemma ChunkDataSame(g: Rules, n: nat, s: seq<byte>)
    requires g.client.Rust?
    ensures Agree(ChunkData(g, n, s), ChunkData(Twin(g), n, s))
  {
    if n <= |s| { LineSame(g, s[n..]); }
  }

  lemma NextChunkSame(g: Rules, s: seq<byte>, had: nat)
    requires g.client.Rust? && SizeAlike(g, s)
    ensures Agree(NextChunk(g, s, had), NextChunk(Twin(g), s, had))
  {
    ChunkHeadSame(g, s);
    var h := ChunkHead(g, s);
    if h.Done? {
      TrailerSame(g, h.rest);
      ChunkDataSame(g, h.value, h.rest);
    }
  }

  lemma ChunksStep(g: Rules, s: seq<byte>, body: seq<byte>, chunk: seq<byte>, rest: seq<byte>)
    requires NextChunk(g, s, |body|) == Done(Some(chunk), rest)
    ensures Chunks(g, s, body) == Chunks(g, rest, body + chunk)
  {
  }

  lemma {:induction false} ChunksSame(g: Rules, s: seq<byte>, body: seq<byte>)
    requires g.client.Rust? && SizesAlike(g, s, body)
    ensures Agree(Chunks(g, s, body), Chunks(Twin(g), s, body))
    decreases |s|
  {
    var c := NextChunk(g, s, |body|);
    assert Agree(c, NextChunk(Twin(g), s, |body|)) by { NextChunkSame(g, s, |body|); }
    if c.Done? && c.value.Some? {
      var chunk := c.value.value;
      ChunksSame(g, c.rest, body + chunk);
      ChunksStep(g, s, body, chunk, c.rest);
      ChunksStep(Twin(g), s, body, chunk, c.rest);
    }
  }

  /** A head read by both clients. */
  lemma HeadTwin(g: Rules, s: seq<byte>)
    requires g.client.Rust?
    requires var l := Line(g, s);
      l.Done? && ParseStatus(l.value).Some? ==> LengthsAlike(g, l.rest, Framing(None, false))
    ensures var rust, go := ParseHead(g, s), ParseHead(Twin(g), s);
      && (rust.Fail? ==> go.Fail? && go.error == rust.error)
      && (rust.Done? ==>
            var said := Kelvin(g, Line(g, s).rest, Framing(None, false), false);
            && go == Done(rust.value.(framing := GoFraming(rust.value.framing, said)), rust.rest)
            && (said ==> !rust.value.framing.chunked))
  {
    LineSame(g, s);
    var l := Line(g, s);
    if l.Done? && ParseStatus(l.value).Some? { HeadersTwin(g, l.rest, Framing(None, false), false); }
  }

  lemma BodySame(g: Rules, s: seq<byte>, status: nat, f: Framing)
    requires g.client.Rust? && (f.chunked && !Bodiless(status) ==> SizesAlike(g, s, []))
    ensures Agree(Body(g, s, status, f), Body(Twin(g), s, status, f))
  {
    if f.chunked && !Bodiless(status) { ChunksSame(g, s, []); }
  }

  /** A response without a body is read alike however it is framed. */
  lemma NoBodySame(g: Rules, s: seq<byte>, status: nat, f: Framing, f': Framing)
    requires Bodiless(status)
    ensures Body(g, s, status, f) == Body(Twin(g), s, status, f')
  {
  }

  /** On any stream whose next response is framed by no line the clients differ on, they give
      the same response or fail alike. */
  lemma ResponseSame(g: Rules, s: seq<byte>)
    requires g.client.Rust? && Alike(g, s)
    ensures Agree(Response(g, s), Response(Twin(g), s))
  {
    HeadTwin(g, s);
    var h := ParseHead(g, s);
    if h.Done? {
      if Bodiless(h.value.status) {
        NoBodySame(g, h.rest, h.value.status, h.value.framing, ParseHead(Twin(g), s).value.framing);
      } else {
        BodySame(g, h.rest, h.value.status, h.value.framing);
      }
    }
  }

  // ---- and where they part ----

  ghost predicate OneFails<T>(rust: Outcome<T>, go: Outcome<T>) {
    rust.Fail? || go.Fail?
  }

  lemma {:induction false} HeadersPart(g: Rules, s: seq<byte>, f: Framing, said: bool)
    requires g.client.Rust? && !LengthsAlike(g, s, f) && (said ==> !f.chunked)
    ensures OneFails(Headers(g, s, f), Headers(Twin(g), s, GoFraming(f, said)))
    decreases |s|
  {
    LineSame(g, s);
    var l := Line(g, s);
    if LengthApart(l.value) {
      LengthStops(l.value, f, said);
    } else {
      FieldTwin(l.value, f, said);
      HeadersPart(g, l.rest, Field(Rust, l.value, f).value, NowSaid(l.value, said));
    }
  }

  lemma LengthStops(line: seq<byte>, f: Framing, said: bool)
    requires LengthApart(line)
    ensures Field(Rust, line, f).Err? || Field(Go, line, GoFraming(f, said)).Err?
  {
    NumbersDiffer(10, ValueOf(line));
  }

  lemma ChunkHeadPart(g: Rules, s: seq<byte>, had: nat)
    requires g.client.Rust? && !SizeAlike(g, s)
    ensures OneFails(NextChunk(g, s, had), NextChunk(Twin(g), s, had))
  {
    LineSame(g, s);
    ChunkSizeDiffers(Line(g, s).value);
    assert OneFails(ChunkHead(g, s), ChunkHead(Twin(g), s));
  }

  lemma {:induction false} ChunksPart(g: Rules, s: seq<byte>, body: seq<byte>)
    requires g.client.Rust? && !SizesAlike(g, s, body)
    ensures OneFails(Chunks(g, s, body), Chunks(Twin(g), s, body))
    decreases |s|
  {
    var c := NextChunk(g, s, |body|);
    if !SizeAlike(g, s) {
      ChunkHeadPart(g, s, |body|);
    } else {
      assert Agree(c, NextChunk(Twin(g), s, |body|)) by { NextChunkSame(g, s, |body|); }
      ChunksPart(g, c.rest, body + c.value.value);
      ChunksStep(g, s, body, c.value.value, c.rest);
      ChunksStep(Twin(g), s, body, c.value.value, c.rest);
    }
  }

  lemma HeadPart(g: Rules, s: seq<byte>)
    requires g.client.Rust?
    requires var l := Line(g, s);
      l.Done? && ParseStatus(l.value).Some? && !LengthsAlike(g, l.rest, Framing(None, false))
    ensures OneFails(ParseHead(g, s), ParseHead(Twin(g), s))
  {
    LineSame(g, s);
    HeadersPart(g, Line(g, s).rest, Framing(None, false), false);
  }

  /** A chunked body is shorter than the bytes it is read off. */
  lemma {:induction false} ChunksShorter(g: Rules, s: seq<byte>, body: seq<byte>)
    ensures var o := Chunks(g, s, body); o.Done? ==> |o.value| + |o.rest| < |body| + |s|
    decreases |s|
  {
    var c := NextChunk(g, s, |body|);
    if c.Done? && c.value.Some? {
      NextChunkBound(g, s, |body|);
      ChunksShorter(g, c.rest, body + c.value.value);
    }
  }

  /** Any other is as long. */
  lemma PlainLength(g: Rules, s: seq<byte>, status: nat, f: Framing)
    requires !f.chunked && !Bodiless(status)
    ensures var o := Body(g, s, status, f); o.Done? ==> |o.value| + |o.rest| == |s|
  {
  }

  /** So a body Go alone takes for chunked is never what Rust reads. */
  lemma KelvinBodies(g: Rules, s: seq<byte>, status: nat, f: Framing)
    requires g.client.Rust? && !f.chunked && !Bodiless(status)
    ensures var rust, go := Body(g, s, status, f), Body(Twin(g), s, status, GoFraming(f, true));
      rust.Done? && go.Done? ==> rust != go
  {
    PlainLength(g, s, status, f);
    ChunksShorter(Twin(g), s, []);
  }

  /** Two clients that both succeed give the same response, with the same bytes left, if and
      only if every line it is framed by is read alike; and if not it is a Kelvin sign. */
  lemma BothAlike(g: Rules, s: seq<byte>)
    requires g.client.Rust? && Response(g, s).Done? && Response(Twin(g), s).Done?
    ensures Response(g, s) == Response(Twin(g), s) <==> Alike(g, s)
    ensures Alike(g, s) || Kelvin(g, Line(g, s).rest, Framing(None, false), false)
  {
    var l, h := Line(g, s), ParseHead(g, s);
    if !LengthsAlike(g, l.rest, Framing(None, false)) {
      HeadPart(g, s);
      assert false;
    }
    HeadTwin(g, s);
    if Alike(g, s) {
      ResponseSame(g, s);
    } else if Kelvin(g, l.rest, Framing(None, false), false) {
      KelvinBodies(g, h.rest, h.value.status, h.value.framing);
    } else {
      ChunksPart(g, h.rest, []);
      assert false;
    }
  }

  /** So if one of them succeeds, the other does the same if and only if they are. */
  lemma SameIffAlike(g: Rules, s: seq<byte>)
    requires g.client.Rust? && (Response(g, s).Done? || Response(Twin(g), s).Done?)
    ensures Response(g, s) == Response(Twin(g), s) <==> Alike(g, s)
  {
    if Alike(g, s) {
      ResponseSame(g, s);
    } else if Response(g, s).Done? && Response(Twin(g), s).Done? {
      BothAlike(g, s);
    }
  }
}
