/** The Rust client's buffered response reader: a fixed array compacted in place and
    refilled from a socket in pieces of the peer's choosing. Every method equals the
    grammar on the logical stream, what is buffered and then what is unread. */
module BufferedReader {
  import opened Options
  import opened Bytes
  import opened ResponseGrammar

  /** The read half of a socket: the bytes it will deliver, and how it stops. */
  class Source {
    var unread: seq<byte>
    const tail: Tail

    constructor (bytes: seq<byte>, tail: Tail)
      ensures unread == bytes && this.tail == tail
    {
      unread := bytes;
      this.tail := tail;
    }

    /** One read into buf[at..]. How many of the waiting bytes it brings is not
        determined, except that it is at least one while there is one; 0 is the end. */
    method Read(buf: array<byte>, at: nat) returns (r: Result<nat>)
      requires at < buf.Length
      modifies this, buf
      ensures buf[..at] == old(buf[..at])
      ensures old(unread) == [] ==> unread == []
      ensures old(unread) == [] ==> r == if tail.Closed? then Ok(0) else Err(Io)
      ensures old(unread) != [] ==> r.Ok? && 0 < r.value <= |old(unread)| && at + r.value <= buf.Length
      ensures old(unread) != [] ==> unread == old(unread)[r.value..]
      ensures old(unread) != [] ==> buf[at..at + r.value] == old(unread)[..r.value]
    {
      if unread == [] {
        r := if tail.Closed? then Ok(0) else Err(Io);
      } else {
        var n :| 1 <= n <= |unread| && at + n <= buf.Length;
        forall i | 0 <= i < n { buf[at + i] := unread[i]; }
        unread := unread[n..];
        r := Ok(n);
      }
    }

    /** read_exact: as many reads as n bytes take. */
    method ReadExact(n: nat) returns (r: Result<seq<byte>>)
      modifies this
      ensures n <= |old(unread)| ==> r == Ok(old(unread)[..n]) && unread == old(unread)[n..]
      ensures n > |old(unread)| ==> r == Err(EndOf(tail)) && unread == []
    {
      var dst := new byte[n];
      var got := 0;
      while got < n
        invariant got <= n && got <= |old(unread)|
        invariant unread == old(unread)[got..]
        invariant dst[..got] == old(unread)[..got]
        decreases |unread|
      {
        var before := dst[..got];
        var read := Read(dst, got);
        match read
        case Err(e) => return Err(e);
        case Ok(k) =>
          if k == 0 { return Err(Eof); }
          assert dst[..got + k] == before + dst[got..got + k];
          assert old(unread)[..got + k] == old(unread)[..got] + old(unread)[got..][..k];
          got := got + k;
      }
      assert dst[..] == dst[..n];
      return Ok(dst[..]);
    }
  }

  /** A reader's buffer: between its two cursors are the bytes parsing has not reached. */
  class RBuf {
    const buf: array<byte>
    var start: nat
    var end: nat

    ghost predicate Valid()
      reads this
    {
      start <= end <= buf.Length && buf.Length >= 512
    }

    ghost function Buffered(): seq<byte>
      requires Valid()
      reads this, buf
    {
      buf[start..end]
    }

    /** Everything the reader has yet to parse, wherever it is. */
    ghost function Logical(r: Source): seq<byte>
      requires Valid()
      reads this, buf, r
    {
      Buffered() + r.unread
    }

    /** g is the grammar as this reader reads it from r. */
    ghost predicate Reads(r: Source, g: Rules) {
      g.client == Rust && g.capacity == buf.Length && g.tail == r.tail
    }

    constructor (capacity: nat)
      ensures Valid() && Buffered() == [] && fresh(buf)
      ensures buf.Length == if capacity < 512 then 512 else capacity
    {
      buf := new byte[if capacity < 512 then 512 else capacity];
      start, end := 0, 0;
    }

    /** Moves what is buffered to the front when the back is reached; false if there
        is no room even so. */
    method MakeRoom() returns (ok: bool)
      requires Valid()
      modifies `start, `end, buf
      ensures Valid() && Buffered() == old(Buffered())
      ensures ok <==> old(|Buffered()|) < buf.Length
      ensures ok ==> end < buf.Length
    {
      ok := true;
      if start == end {
        start, end := 0, 0;
      } else if end == buf.Length {
        forall i | 0 <= i < end - start { buf[i] := buf[start + i]; }
        end := end - start;
        start := 0;
        ok := end < buf.Length;
      }
    }

    /** One more read, after making room for it. */
    method Fill(r: Source) returns (e: Option<Error>)
      requires Valid()
      modifies `start, `end, buf, r
      ensures Valid() && Logical(r) == old(Logical(r))
      ensures e.None? ==> |r.unread| < old(|r.unread|) && |Buffered()| > 0
      ensures old(|Buffered()|) == buf.Length ==> e == Some(MalformedHeader)
      ensures old(|Buffered()|) < buf.Length && old(r.unread) != [] ==> e.None?
      ensures old(|Buffered()|) < buf.Length && old(r.unread) == [] ==> e == Some(EndOf(r.tail))
    {
      ghost var was := Buffered();
      ghost var unread := r.unread;
      var ok := MakeRoom();
      if !ok { return Some(MalformedHeader); }
      var read := r.Read(buf, end);
      assert buf[start..end] == was by {
        assert buf[start..end] == buf[..end][start..];
      }
      match read
      case Err(err) => return Some(err);
      case Ok(n) =>
        if n == 0 { return Some(Eof); }
        assert buf[start..end + n] == buf[start..end] + buf[end..end + n];
        end := end + n;
        assert unread == unread[..n] + unread[n..];
        return None;
    }

    /** The next line of the logical stream, as the two ends of its place in buf. */
    method ReadLine(r: Source, ghost g: Rules) returns (res: Result<(nat, nat)>)
      requires Valid() && Reads(r, g)
      modifies `start, `end, buf, r
      ensures Valid()
      ensures var o := Line(g, old(Logical(r)));
        && Logical(r) == o.rest
        && (o.Fail? ==> res == Err(o.error))
        && (o.Done? ==> res.Ok? && res.value.0 <= res.value.1 <= buf.Length && buf[res.value.0..res.value.1] == o.value)
    {
      ghost var s := Logical(r);
      var scanned := start;
      while true
        invariant Valid() && scanned == start && Logical(r) == s
        decreases |r.unread|
      {
        var line := BufferedLine(scanned, r, g);
        if line.Some? { return Ok(line.value); }
        NoLineIn(g, s, Buffered());
        var offset := scanned - start;
        assert r.unread == [] ==> s == Buffered();
        var e := Fill(r);
        if e.Some? { return Err(e.value); }
        scanned := start + offset;
      }
    }

    /** The next line, if all of it is buffered. */
    method BufferedLine(scanned: nat, ghost r: Source, ghost g: Rules) returns (line: Option<(nat, nat)>)
      requires Valid() && Reads(r, g) && scanned == start
      modifies `start
      ensures Valid()
      ensures line.None? ==> start == old(start) && IndexOf(Buffered(), LF) == |Buffered()|
      ensures line.Some? ==> line.value.0 <= line.value.1 <= buf.Length
      ensures line.Some? ==> Line(g, old(Logical(r))) == Done(buf[line.value.0..line.value.1], Logical(r))
    {
      var i := IndexOf(buf[scanned..end], LF);
      if i == end - scanned { return None; }
      LineIn(g, Buffered(), r.unread, i);
      var begin, to := CutLine(scanned + i);
      return Some((begin, to));
    }

    /** The line that ends at nl, as a range, which parsing moves past. */
    method CutLine(nl: nat) returns (begin: nat, to: nat)
      requires Valid() && start <= nl < end
      modifies `start
      ensures Valid() && begin <= to <= buf.Length
      ensures buf[begin..to] == StripCr(old(Buffered())[..nl - old(start)])
      ensures Buffered() == old(Buffered())[nl + 1 - old(start)..]
    {
      begin, to := start, nl;
      assert buf[begin..nl] == Buffered()[..nl - start];
      if to > begin && buf[to - 1] == CR { to := to - 1; }
      start := nl + 1;
    }

    /** What a line read that finds a line feed in what is held amounts to. */
    lemma LineIn(g: Rules, held: seq<byte>, unread: seq<byte>, i: nat)
      requires IndexOf(held, LF) == i < |held| <= g.capacity
      ensures Line(g, held + unread) == Done(StripCr(held[..i]), held[i + 1..] + unread)
    {
      LineExtends(g, held, unread);
    }

    /** And one that finds none. */
    lemma NoLineIn(g: Rules, s: seq<byte>, held: seq<byte>)
      requires held <= s && IndexOf(held, LF) == |held| && |held| <= g.capacity && g.client == Rust
      ensures |held| == g.capacity ==> Line(g, s) == Fail(MalformedHeader, s)
      ensures |held| < g.capacity && s == held ==> Line(g, s) == Fail(EndOf(g.tail), s)
    {
      assert forall k :: 0 <= k < |held| ==> s[k] == held[k];
    }

    /** n bytes of body, which are returned if they are kept. */
    method ReadBody(r: Source, ghost g: Rules, n: nat, keep: bool) returns (e: Option<Error>, dst: seq<byte>)
      requires Valid() && Reads(r, g)
      modifies `start, `end, buf, r
      ensures Valid()
      ensures var o := Take(g, n, old(Logical(r)));
        && Logical(r) == o.rest
        && (o.Fail? ==> e == Some(o.error))
        && (o.Done? ==> e == None && dst == if keep then o.value else [])
    {
      ghost var o := Take(g, n, Logical(r));
      ghost var got: seq<byte> := [];
      var left: nat := n;
      dst := [];
      TakeAfterNothing(Take(g, n, Logical(r)));
      while left > 0
        invariant Valid() && TakenAfter(got, Take(g, left, Logical(r))) == o
        invariant dst == if keep then got else []
        decreases left
      {
        if start == end {
          // Past an empty buffer, what is left of a long body need not go through it.
          if keep && left >= buf.Length {
            var rest := ReadThrough(r, g, left);
            if rest.Err? { return Some(rest.error), dst; }
            return None, dst + rest.value;
          }
        }
        var err, data := NextPiece(r, left);
        if err.Some? { return err, dst; }
        TakeSplit(g, got, left, data, Logical(r));
        if keep { dst := dst + data; }
        left := left - |data|;
        got := got + data;
      }
      e := None;
    }

    /** What is taken, after the part of it that is here already. */
    static ghost function TakenAfter(got: seq<byte>, o: Outcome<seq<byte>>): Outcome<seq<byte>> {
      if o.Done? then Done(got + o.value, o.rest) else o
    }

    lemma TakeAfterNothing(o: Outcome<seq<byte>>)
      ensures TakenAfter([], o) == o
    {
      if o.Done? { assert [] + o.value == o.value; }
    }

    lemma TakeSplit(g: Rules, got: seq<byte>, left: nat, data: seq<byte>, s: seq<byte>)
      requires |data| <= left
      ensures TakenAfter(got, Take(g, left, data + s)) == TakenAfter(got + data, Take(g, left - |data|, s))
    {
      var more := left - |data|;
      if more <= |s| {
        assert (data + s)[..left] == data + s[..more];
        assert got + (data + s[..more]) == got + data + s[..more];
        assert (data + s)[left..] == s[more..];
      }
    }

    /** n bytes past an empty buffer. */
    method ReadThrough(r: Source, ghost g: Rules, n: nat) returns (res: Result<seq<byte>>)
      requires Valid() && Reads(r, g) && start == end
      modifies r
      ensures var o := Take(g, n, old(Logical(r)));
        && Logical(r) == o.rest
        && res == if o.Done? then Ok(o.value) else Err(o.error)
    {
      assert Logical(r) == r.unread;
      res := r.ReadExact(n);
      assert Logical(r) == r.unread;
    }

    /** Some of the next bytes, n at most: those buffered, after a read if there are none. */
    method NextPiece(r: Source, n: nat) returns (e: Option<Error>, data: seq<byte>)
      requires Valid() && n > 0
      modifies `start, `end, buf, r
      ensures Valid()
      ensures e.Some? ==> old(Logical(r)) == Logical(r) == [] && e == Some(EndOf(r.tail))
      ensures e.None? ==> old(Logical(r)) == data + Logical(r) && 0 < |data| <= n
    {
      data := [];
      if start == end {
        assert Logical(r) == r.unread;
        e := Fill(r);
        if e.Some? { return; }
      }
      data := Consume(r, if n < end - start then n else end - start);
      e := None;
    }

    /** The next k buffered bytes. */
    method Consume(ghost r: Source, k: nat) returns (data: seq<byte>)
      requires Valid() && k <= end - start
      modifies `start
      ensures Valid() && |data| == k
      ensures old(Logical(r)) == data + Logical(r)
    {
      data := buf[start..start + k];
      assert Buffered() == data + buf[start + k..end];
      start := start + k;
    }

    /** The status line and the header lines. */
    method ReadHead(r: Source, ghost g: Rules) returns (res: Result<Head>)
      requires Valid() && Reads(r, g)
      modifies `start, `end, buf, r
      ensures Valid()
      ensures var o := ParseHead(g, old(Logical(r)));
        && Logical(r) == o.rest
        && res == if o.Done? then Ok(o.value) else Err(o.error)
    {
      var line := ReadLine(r, g);
      if line.Err? { return Err(line.error); }
      var status := ParseStatus(buf[line.value.0..line.value.1]);
      if status.None? { return Err(MalformedStatus); }
      var framing := ReadFields(r, g);
      if framing.Err? { return Err(framing.error); }
      return Ok(Head(status.value, framing.value));
    }

    method ReadFields(r: Source, ghost g: Rules) returns (res: Result<Framing>)
      requires Valid() && Reads(r, g)
      modifies `start, `end, buf, r
      ensures Valid()
      ensures var o := Headers(g, old(Logical(r)), Framing(None, false));
        && Logical(r) == o.rest
        && res == if o.Done? then Ok(o.value) else Err(o.error)
    {
      var framing := Framing(None, false);
      ghost var o := Headers(g, Logical(r), framing);
      while true
        invariant Valid() && Headers(g, Logical(r), framing) == o
        decreases |Logical(r)|
      {
        var line := ReadLine(r, g);
        if line.Err? { return Err(line.error); }
        var text := buf[line.value.0..line.value.1];
        if text == [] { return Ok(framing); }
        var next := Field(Rust, text, framing);
        if next.Err? { return Err(next.error); }
        framing := next.value;
      }
    }

    /** Parses the response at the front of the logical stream and moves past it; whoever
        does not keep the body is told how long it was. */
    method ReadResponse(r: Source, keep: bool, untilEof: bool, ghost g: Rules)
      returns (res: Result<(nat, nat)>, dst: seq<byte>)
      requires Valid() && Reads(r, g) && g.untilEof == untilEof
      modifies `start, `end, buf, r
      ensures Valid()
      ensures var o := Response(g, old(Logical(r)));
        && Logical(r) == o.rest
        && (o.Fail? ==> res == Err(o.error))
        && (o.Done? ==> res == Ok((o.value.status, |o.value.body|)) && dst == if keep then o.value.body else [])
    {
      dst := [];
      var head := ReadHead(r, g);
      if head.Err? { return Err(head.error), dst; }
      var n;
      n, dst := ReadFramed(r, keep, untilEof, g, head.value);
      res := if n.Err? then Err(n.error) else Ok((head.value.status, n.value));
    }

    /** The body a response's head announces. */
    method ReadFramed(r: Source, keep: bool, untilEof: bool, ghost g: Rules, head: Head)
      returns (res: Result<nat>, dst: seq<byte>)
      requires Valid() && Reads(r, g) && g.untilEof == untilEof
      modifies `start, `end, buf, r
      ensures Valid()
      ensures var o := Body(g, old(Logical(r)), head.status, head.framing);
        && Logical(r) == o.rest
        && (o.Fail? ==> res == Err(o.error))
        && (o.Done? ==> res == Ok(|o.value|) && dst == if keep then o.value else [])
    {
      dst := [];
      if Bodiless(head.status) { return Ok(0), dst; }
      if head.framing.chunked {
        res, dst := ReadChunked(r, g, keep);
        return;
      }
      if head.framing.length.Some? {
        var n := head.framing.length.value;
        if n > MAX_BODY_SIZE { return Err(TooLarge), dst; }
        var e;
        e, dst := ReadBody(r, g, n, keep);
        return if e.Some? then Err(e.value) else Ok(n), dst;
      }
      if !untilEof { return Err(NoLength), dst; }
      res, dst := ReadToEnd(r, g, keep);
    }

    /** The rest of the stream. */
    method ReadToEnd(r: Source, ghost g: Rules, keep: bool) returns (res: Result<nat>, dst: seq<byte>)
      requires Valid() && Reads(r, g)
      modifies `start, `end, buf, r
      ensures Valid() && Logical(r) == []
      ensures res == if g.tail.Closed? then Ok(old(|Logical(r)|)) else Err(Io)
      ensures dst == if keep then old(Logical(r)) else []
    {
      ghost var body := Logical(r);
      ghost var got: seq<byte> := [];
      var n := 0;
      dst := [];
      while true
        invariant Valid() && n == |got| && body == got + Logical(r)
        invariant dst == if keep then got else []
        decreases |Logical(r)|
      {
        var e, data := NextPiece(r, buf.Length);
        if e == Some(Eof) { return Ok(n), dst; }
        if e.Some? { return Err(e.value), dst; }
        if keep { dst := dst + data; }
        n := n + |data|;
        got := got + data;
      }
    }

    method ReadChunked(r: Source, ghost g: Rules, keep: bool) returns (res: Result<nat>, dst: seq<byte>)
      requires Valid() && Reads(r, g)
      modifies `start, `end, buf, r
      ensures Valid()
      ensures var o := Chunks(g, old(Logical(r)), []);
        && Logical(r) == o.rest
        && (o.Fail? ==> res == Err(o.error))
        && (o.Done? ==> res == Ok(|o.value|) && dst == if keep then o.value else [])
    {
      ghost var o := Chunks(g, Logical(r), []);
      ghost var body: seq<byte> := [];
      var total := 0;
      dst := [];
      while true
        invariant Valid() && total == |body| && dst == if keep then body else []
        invariant Chunks(g, Logical(r), body) == o
        decreases |Logical(r)|
      {
        ghost var next := NextChunk(g, Logical(r), total);
        var n, chunk := ReadNextChunk(r, g, keep, total);
        if n.Err? { return Err(n.error), dst; }
        if n.value == 0 { return Ok(total), dst; }
        dst := dst + chunk;
        total := total + n.value;
        body := body + next.value.value;
      }
    }

    /** The next chunk and its length, 0 after the last and its trailer. */
    method ReadNextChunk(r: Source, ghost g: Rules, keep: bool, total: nat) returns (n: Result<nat>, chunk: seq<byte>)
      requires Valid() && Reads(r, g)
      modifies `start, `end, buf, r
      ensures Valid()
      ensures var o := NextChunk(g, old(Logical(r)), total);
        && Logical(r) == o.rest
        && (o.Fail? ==> n == Err(o.error))
        && (o.Done? && o.value.None? ==> n == Ok(0))
        && (o.Done? && o.value.Some? ==> n == Ok(|o.value.value|) && n.value > 0
                                         && chunk == if keep then o.value.value else [])
    {
      chunk := [];
      n := ReadChunkHead(r, g);
      if n.Err? { return; }
      if n.value == 0 {
        var e := SkipTrailer(r, g);
        if e.Some? { n := Err(e.value); }
        return;
      }
      if total + n.value > MAX_BODY_SIZE { return Err(TooLarge), chunk; }
      var e;
      e, chunk := ReadChunk(r, g, n.value, keep);
      if e.Some? { n := Err(e.value); }
    }

    /** A chunk's first line. */
    method ReadChunkHead(r: Source, ghost g: Rules) returns (res: Result<nat>)
      requires Valid() && Reads(r, g)
      modifies `start, `end, buf, r
      ensures Valid()
      ensures var o := ChunkHead(g, old(Logical(r)));
        && Logical(r) == o.rest
        && res == if o.Done? then Ok(o.value) else Err(o.error)
    {
      var line := ReadLine(r, g);
      if line.Err? { return Err(line.error); }
      var size := ChunkSize(Rust, buf[line.value.0..line.value.1]);
      return if size.None? then Err(MalformedChunk) else Ok(size.value);
    }

    /** A chunk's n bytes and the line end behind them. */
    method ReadChunk(r: Source, ghost g: Rules, n: nat, keep: bool) returns (e: Option<Error>, dst: seq<byte>)
      requires Valid() && Reads(r, g)
      modifies `start, `end, buf, r
      ensures Valid()
      ensures var o := ChunkData(g, n, old(Logical(r)));
        && Logical(r) == o.rest
        && (o.Fail? ==> e == Some(o.error))
        && (o.Done? ==> e == None && |o.value| == n && dst == if keep then o.value else [])
    {
      e, dst := ReadBody(r, g, n, keep);
      if e.Some? { return; }
      var blank := ReadLine(r, g);
      if blank.Err? { return Some(blank.error), dst; }
      if blank.value.0 != blank.value.1 { return Some(MalformedChunk), dst; }
    }

    /** Lines are dropped until an empty one, which is dropped too. */
    method SkipTrailer(r: Source, ghost g: Rules) returns (e: Option<Error>)
      requires Valid() && Reads(r, g)
      modifies `start, `end, buf, r
      ensures Valid()
      ensures var o := Trailer(g, old(Logical(r)));
        && Logical(r) == o.rest
        && e == if o.Done? then None else Some(o.error)
    {
      ghost var o := Trailer(g, Logical(r));
      while true
        invariant Valid() && Trailer(g, Logical(r)) == o
        decreases |Logical(r)|
      {
        var line := ReadLine(r, g);
        if line.Err? { return Some(line.error); }
        if line.value.0 == line.value.1 { return None; }
      }
    }
  }
}
