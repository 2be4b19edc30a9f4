/** The Go client's response reader: the same grammar over a bufio.Reader, a body kept
    in a slice that grows or dropped where it stands. */
module GoReader {
  import opened Options
  import opened Bytes
  import opened ResponseGrammar

  /** What the reader relies on of bufio.Reader: the bytes it has yet to give, the size
      of its buffer and how its connection stops. */
  class Bufio {
    var stream: seq<byte>
    const size: nat
    var tail: Tail

    constructor (stream: seq<byte>, size: nat, tail: Tail)
      ensures this.stream == stream && this.size == size && this.tail == tail
    {
      this.stream, this.size, this.tail := stream, size, tail;
    }

    /** Drops what is buffered and reads another connection from here on. */
    method Reset(stream: seq<byte>, tail: Tail)
      modifies this
      ensures this.stream == stream && this.tail == tail
    {
      this.stream, this.tail := stream, tail;
    }

    ghost function GoRules(): Rules
      reads this`tail
    {
      Rules(Go, size, tail, false)
    }

    /** The bytes up to and with the next line feed. */
    method ReadSlice() returns (line: seq<byte>, e: Option<Error>)
      modifies `stream
      ensures var nl := IndexOf(old(stream), LF);
        if nl < old(|stream|) && nl < size then
          e == None && line == old(stream)[..nl + 1] && stream == old(stream)[nl + 1..]
        else if size <= old(|stream|) then e == Some(BufferFull) && stream == old(stream)[size..]
        else e == Some(EndOf(tail)) && stream == []
    {
      var nl := IndexOf(stream, LF);
      if nl < |stream| && nl < size {
        line, e, stream := stream[..nl + 1], None, stream[nl + 1..];
      } else if size <= |stream| {
        line, e, stream := stream[..size], Some(BufferFull), stream[size..];
      } else {
        line, e, stream := stream, Some(EndOf(tail)), [];
      }
    }

    /** Skips n bytes. */
    method Discard(n: nat) returns (e: Option<Error>)
      modifies `stream
      ensures var o := Take(GoRules(), n, old(stream));
        stream == o.rest && e == if o.Done? then None else Some(o.error)
    {
      if n <= |stream| {
        e, stream := None, stream[n..];
      } else {
        e, stream := Some(EndOf(tail)), [];
      }
    }

    /** io.ReadFull into arr[from..to]; only a stream closed before the first byte of
        it is a plain end of file. */
    method ReadFull(arr: array<byte>, from: nat, to: nat) returns (e: Option<Error>)
      requires from <= to <= arr.Length
      modifies `stream, arr
      ensures arr[..from] == old(arr[..from])
      ensures var o := Take(GoRules(), to - from, old(stream));
        && stream == o.rest
        && (o.Done? ==> e == None && arr[from..to] == o.value)
        && (o.Fail? ==> e == Some(if o.error == Eof && old(stream) != [] then UnexpectedEof else o.error))
    {
      var n := if to - from <= |stream| then to - from else |stream|;
      forall i | 0 <= i < n { arr[from + i] := stream[i]; }
      if n == to - from {
        e := None;
      } else {
        e := Some(if tail.Closed? && n > 0 then UnexpectedEof else EndOf(tail));
      }
      stream := stream[n..];
    }
  }

  /** A slice from the start of its array. */
  datatype Slice = Slice(arr: array<byte>, len: nat) {
    ghost predicate Valid() {
      len <= arr.Length
    }

    ghost function Contents(): seq<byte>
      requires Valid()
      reads arr
    {
      arr[..len]
    }
  }

  /** A slice n longer with the same bytes in front, in the same array if that is long enough. */
  method Grow(b: Slice, n: nat) returns (g: Slice)
    requires b.Valid()
    ensures g.Valid() && g.len == b.len + n
    ensures g.arr[..b.len] == b.Contents()
    ensures g.arr == b.arr || fresh(g.arr)
  {
    var arr := b.arr;
    if b.arr.Length - b.len < n {
      arr := new byte[b.len + n];
      forall i | 0 <= i < b.len { arr[i] := b.arr[i]; }
    }
    g := Slice(arr, b.len + n);
  }

  /** The next line, cut off in front of its line feed and the carriage return before it. */
  method ReadLine(r: Bufio) returns (line: seq<byte>, e: Option<Error>)
    modifies r`stream
    ensures var o := Line(r.GoRules(), old(r.stream));
      && r.stream == o.rest
      && (o.Done? ==> e == None && line == o.value)
      && (o.Fail? ==> e == Some(o.error))
  {
    ghost var s := r.stream;
    line, e := r.ReadSlice();
    if e.Some? {
      if e.value == BufferFull { e := Some(MalformedHeader); }
      return;
    }
    line := line[..|line| - 1];
    assert line == s[..IndexOf(s, LF)];
    if line != [] && line[|line| - 1] == CR { line := line[..|line| - 1]; }
  }

  /** Whether e is the grammar's error for a body that is kept or dropped: a kept one cut
      short says so. */
  ghost predicate SameError(keep: bool, e: Option<Error>, error: Error) {
    e == Some(error) || (keep && error == Eof && e == Some(UnexpectedEof))
  }

  /** The header lines. */
  method ReadFields(r: Bufio) returns (f: Framing, e: Option<Error>)
    modifies r`stream
    ensures var o := Headers(r.GoRules(), old(r.stream), Framing(None, false));
      && r.stream == o.rest
      && (o.Done? ==> e == None && f == o.value)
      && (o.Fail? ==> e == Some(o.error))
  {
    f := Framing(None, false);
    ghost var o := Headers(r.GoRules(), r.stream, f);
    while true
      invariant Headers(r.GoRules(), r.stream, f) == o
      decreases |r.stream|
    {
      var line;
      line, e := ReadLine(r);
      if e.Some? { return; }
      if line == [] { return f, None; }
      var next := Field(Go, line, f);
      if next.Err? { return f, Some(next.error); }
      f := next.value;
    }
  }

  /** The next n bytes, behind what dst holds already or nowhere. */
  method ReadBody(r: Bufio, n: nat, dst: Slice, keep: bool) returns (out: Slice, e: Option<Error>)
    requires dst.Valid()
    modifies r`stream, dst.arr
    ensures out.Valid() && (out.arr == dst.arr || fresh(out.arr))
    ensures var o := Take(r.GoRules(), n, old(r.stream));
      && r.stream == o.rest
      && (o.Done? ==> e == None && out.Contents() == old(dst.Contents()) + if keep then o.value else [])
      && (o.Fail? ==> SameError(keep, e, o.error))
  {
    out := dst;
    if !keep {
      e := r.Discard(n);
      return;
    }
    ghost var was := dst.Contents();
    out := Grow(dst, n);
    e := r.ReadFull(out.arr, out.len - n, out.len);
    assert out.Contents() == out.arr[..dst.len] + out.arr[dst.len..out.len];
  }

  /** ReadResponse and DiscardResponse in one: the status, the body if it is kept, and
      how long it was. */
  method ReadAny(r: Bufio, dst: Slice, keep: bool) returns (status: nat, body: Slice, n: nat, e: Option<Error>)
    requires dst.Valid() && dst.len == 0
    modifies r`stream, dst.arr
    ensures body.Valid() && (body.arr == dst.arr || fresh(body.arr))
    ensures var o := Response(r.GoRules(), old(r.stream));
      && r.stream == o.rest
      && (o.Done? ==> e == None && status == o.value.status && n == |o.value.body|
                      && body.Contents() == if keep then o.value.body else [])
      && (o.Fail? ==> SameError(keep, e, o.error))
  {
    var head;
    body, n := dst, 0;
    head, e := ReadHead(r);
    status := head.status;
    if e.Some? { return; }
    if Bodiless(status) { return; }
    if head.framing.chunked {
      body, n, e := ReadChunked(r, dst, keep);
      return;
    }
    if head.framing.length.None? {
      e := Some(NoLength);
      return;
    }
    n := head.framing.length.value;
    if n > MAX_BODY_SIZE { return status, dst, 0, Some(TooLarge); }
    body, e := ReadBody(r, n, dst, keep);
  }

  /** The status line and the header lines. */
  method ReadHead(r: Bufio) returns (head: Head, e: Option<Error>)
    modifies r`stream
    ensures var o := ParseHead(r.GoRules(), old(r.stream));
      && r.stream == o.rest
      && (o.Done? ==> e == None && head == o.value)
      && (o.Fail? ==> e == Some(o.error))
  {
    head := Head(0, Framing(None, false));
    var line;
    line, e := ReadLine(r);
    if e.Some? { return; }
    var status := ParseStatus(line);
    if status.None? { return head, Some(MalformedStatus); }
    var f;
    f, e := ReadFields(r);
    head := Head(status.value, f);
  }

  method ReadChunked(r: Bufio, dst: Slice, keep: bool) returns (body: Slice, total: nat, e: Option<Error>)
    requires dst.Valid() && dst.len == 0
    modifies r`stream, dst.arr
    ensures body.Valid() && (body.arr == dst.arr || fresh(body.arr))
    ensures var o := Chunks(r.GoRules(), old(r.stream), []);
      && r.stream == o.rest
      && (o.Done? ==> e == None && total == |o.value| && body.Contents() == if keep then o.value else [])
      && (o.Fail? ==> SameError(keep, e, o.error))
  {
    body, total := dst, 0;
    ghost var o := Chunks(r.GoRules(), r.stream, []);
    ghost var had: seq<byte> := [];
    while true
      invariant body.Valid() && (body.arr == dst.arr || fresh(body.arr))
      invariant total == |had| && body.Contents() == if keep then had else []
      invariant Chunks(r.GoRules(), r.stream, had) == o
      decreases |r.stream|
    {
      ghost var next := NextChunk(r.GoRules(), r.stream, total);
      var n;
      body, n, e := ReadNextChunk(r, body, total, keep);
      if e.Some? || n == 0 { return; }
      total := total + n;
      had := had + next.value.value;
    }
  }

  /** The next chunk, appended to dst if it is kept, and its length, 0 after the last and
      its trailer. */
  method ReadNextChunk(r: Bufio, dst: Slice, total: nat, keep: bool) returns (out: Slice, n: nat, e: Option<Error>)
    requires dst.Valid()
    modifies r`stream, dst.arr
    ensures out.Valid() && (out.arr == dst.arr || fresh(out.arr))
    ensures var o := NextChunk(r.GoRules(), old(r.stream), total);
      && r.stream == o.rest
      && (o.Fail? ==> SameError(keep, e, o.error))
      && (o.Done? ==> e == None && n == (if o.value.None? then 0 else |o.value.value|))
      && (o.Done? && o.value.None? ==> out.Contents() == old(dst.Contents()))
      && (o.Done? && o.value.Some? ==>
            n > 0 && out.Contents() == old(dst.Contents()) + if keep then o.value.value else [])
  {
    out := dst;
    n, e := ReadChunkHead(r);
    if e.Some? { return; }
    if n == 0 {
      e := SkipTrailer(r);
      return;
    }
    if total + n > MAX_BODY_SIZE { return dst, n, Some(TooLarge); }
    out, e := ReadChunk(r, n, dst, keep);
  }

  /** A chunk's first line. */
  method ReadChunkHead(r: Bufio) returns (size: nat, e: Option<Error>)
    modifies r`stream
    ensures var o := ChunkHead(r.GoRules(), old(r.stream));
      && r.stream == o.rest
      && (o.Done? ==> e == None && size == o.value)
      && (o.Fail? ==> e == Some(o.error))
  {
    size := 0;
    var line;
    line, e := ReadLine(r);
    if e.Some? { return; }
    var n := ChunkSize(Go, line);
    if n.None? { return 0, Some(MalformedChunk); }
    size := n.value;
  }

  /** A chunk's n bytes and the line end behind them. */
  method ReadChunk(r: Bufio, n: nat, dst: Slice, keep: bool) returns (out: Slice, e: Option<Error>)
    requires dst.Valid()
    modifies r`stream, dst.arr
    ensures out.Valid() && (out.arr == dst.arr || fresh(out.arr))
    ensures var o := ChunkData(r.GoRules(), n, old(r.stream));
      && r.stream == o.rest
      && (o.Done? ==> e == None && |o.value| == n && out.Contents() == old(dst.Contents()) + if keep then o.value else [])
      && (o.Fail? ==> SameError(keep, e, o.error))
  {
    out, e := ReadBody(r, n, dst, keep);
    if e.Some? { return; }
    var line;
    line, e := ReadLine(r);
    if e.Some? { return; }
    if line != [] { e := Some(MalformedChunk); }
  }

  /** Lines are dropped until an empty one, which is dropped too. */
  method SkipTrailer(r: Bufio) returns (e: Option<Error>)
    modifies r`stream
    ensures var o := Trailer(r.GoRules(), old(r.stream));
      && r.stream == o.rest
      && e == if o.Done? then None else Some(o.error)
  {
    ghost var o := Trailer(r.GoRules(), r.stream);
    while true
      invariant Trailer(r.GoRules(), r.stream) == o
      decreases |r.stream|
    {
      var line;
      line, e := ReadLine(r);
      if e.Some? { return; }
      if line == [] { return; }
    }
  }

  /** Keeping a body and dropping it agree on every stream: both calls succeed or both
      fail, with the same status and length and the same bytes consumed. */
  method KeepAndDiscard(kept: Bufio, dropped: Bufio, dst: Slice)
    returns (ks: nat, body: Slice, kn: nat, ke: Option<Error>, ds: nat, dn: nat, de: Option<Error>)
    requires kept != dropped && kept.stream == dropped.stream
    requires kept.size == dropped.size && kept.tail == dropped.tail && dst.Valid()
    modifies kept`stream, dropped`stream, dst.arr
    ensures kept.stream == dropped.stream
    ensures ke.None? <==> de.None?
    ensures ke.None? ==> body.Valid() && ks == ds && kn == dn == body.len
    ensures ke.Some? ==> SameError(true, ke, de.value)
  {
    var nothing := new byte[0];
    var empty := Slice(nothing, 0);
    var none;
    ks, body, kn, ke := ReadAny(kept, dst.(len := 0), true);
    ds, none, dn, de := ReadAny(dropped, empty, false);
  }
}
