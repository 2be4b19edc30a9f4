/** The server side of an echo: a request body read into a buffer that is used again. */
module BodyReading {
  import opened Options
  import opened Bytes
  import opened ResponseGrammar
  import opened GoReader

  /** An io.Reader over a body: it may bring nothing for a while, any part of what is
      left, and its end along with the last of it or after. */
  class BodyReader {
    var unread: seq<byte>
    var idle: nat
    const tail: Tail

    constructor (unread: seq<byte>, idle: nat, tail: Tail)
      ensures this.unread == unread && this.idle == idle && this.tail == tail
    {
      this.unread, this.idle, this.tail := unread, idle, tail;
    }

    /** What is left to happen. */
    ghost function Left(): nat
      reads this
    {
      |unread| + idle
    }

    /** One read into p[from..to]. */
    method Read(p: array<byte>, from: nat, to: nat) returns (n: nat, e: Option<Error>)
      requires from < to <= p.Length
      modifies this, p
      ensures from + n <= to && n <= old(|unread|) && unread == old(unread)[n..]
      ensures p[..from] == old(p[..from]) && p[from..from + n] == old(unread)[..n]
      ensures e == None || (e == Some(EndOf(tail)) && unread == [])
      ensures Left() <= old(Left()) && (e == None ==> Left() < old(Left()))
    {
      var nothing :| nothing ==> idle > 0;
      if nothing {
        n, e, idle := 0, None, idle - 1;
      } else if unread == [] {
        n, e := 0, Some(EndOf(tail));
      } else {
        n :| 1 <= n <= |unread| && from + n <= to;
        forall i | 0 <= i < n { p[from + i] := unread[i]; }
        unread := unread[n..];
        var last :| last ==> unread == [];
        e := if last then Some(EndOf(tail)) else None;
      }
    }
  }

  /** The buffer a pool lends. */
  class Pooled {
    var buf: Slice

    constructor (buf: Slice)
      ensures this.buf == buf
    {
      this.buf := buf;
    }
  }

  /** io.ReadFull: as many reads as n bytes take, into the front of arr. */
  method ReadFull(body: BodyReader, arr: array<byte>, n: nat) returns (e: Option<Error>)
    requires n <= arr.Length
    modifies body, arr
    ensures var whole := old(body.unread);
      if n <= |whole| then e == None && arr[..n] == whole[..n] && body.unread == whole[n..]
      else e == Some(if body.tail.Closed? && whole != [] then UnexpectedEof else EndOf(body.tail)) && body.unread == []
  {
    var got: nat := 0;
    ghost var whole := body.unread;
    e := None;
    while got < n && e == None
      invariant got <= n && got <= |whole| && whole[got..] == body.unread
      invariant arr[..got] == whole[..got]
      invariant e == None || (e == Some(EndOf(body.tail)) && body.unread == [])
      decreases body.Left(), if e == None then 1 else 0
    {
      ghost var before := arr[..got];
      var k;
      k, e := body.Read(arr, got, n);
      assert arr[..got + k] == before + arr[got..got + k];
      assert whole[..got + k] == whole[..got] + whole[got..][..k];
      got := got + k;
    }
    if got >= n {
      e := None;
    } else if got > 0 && e == Some(Eof) {
      e := Some(UnexpectedEof);
    }
  }

  /** append(buf, 0)[:len(buf)]: the same bytes with room for at least one more. */
  method MakeRoom(buf: Slice) returns (b: Slice)
    requires buf.Valid()
    ensures b.Valid() && b.len == buf.len < b.arr.Length
    ensures b.Contents() == buf.Contents()
    ensures b.arr == buf.arr || fresh(b.arr)
  {
    if buf.len < buf.arr.Length { return buf; }
    var more: nat :| more >= 1;
    var arr := new byte[buf.len + more];
    forall i | 0 <= i < buf.len { arr[i] := buf.arr[i]; }
    b := Slice(arr, buf.len);
  }

  /** The whole of a body, its length known or, if negative, not. */
  method ReadBody(body: BodyReader, contentLength: int, bufp: Pooled) returns (data: Slice, e: Option<Error>)
    requires bufp.buf.Valid()
    modifies body, bufp, bufp.buf.arr
    ensures data.Valid() && bufp.buf.arr == data.arr && bufp.buf.Valid()
    ensures contentLength >= 0 ==> var whole := old(body.unread);
      (e == None <==> contentLength <= |whole|)
      && (e == None ==> data.Contents() == whole[..contentLength] && body.unread == whole[contentLength..])
      && (e != None ==> e == Some(if body.tail.Closed? && whole != [] then UnexpectedEof else EndOf(body.tail)))
    ensures contentLength < 0 ==> data.Contents() == old(body.unread) && body.unread == []
    ensures contentLength < 0 ==> e == if body.tail.Closed? then None else Some(Io)
  {
    var buf := bufp.buf;
    if contentLength >= 0 {
      if buf.arr.Length < contentLength {
        var arr := new byte[contentLength];
        buf := Slice(arr, contentLength);
        bufp.buf := buf;
      }
      data := Slice(buf.arr, contentLength);
      e := ReadFull(body, buf.arr, contentLength);
      return;
    }
    buf := Slice(buf.arr, 0);
    buf, e := ReadToEnd(body, buf);
    bufp.buf := Slice(buf.arr, 0);
    data := buf;
  }

  /** Reads until the end into a buffer that grows when it is full. */
  method ReadToEnd(body: BodyReader, start: Slice) returns (buf: Slice, e: Option<Error>)
    requires start.len == 0
    modifies body, start.arr
    ensures buf.Valid() && (buf.arr == start.arr || fresh(buf.arr))
    ensures buf.Contents() == old(body.unread) && body.unread == []
    ensures e == if body.tail.Closed? then None else Some(Io)
  {
    buf, e := start, None;
    ghost var whole := body.unread;
    while true
      invariant buf.Valid() && (buf.arr == start.arr || fresh(buf.arr))
      invariant whole == buf.Contents() + body.unread
      decreases body.Left()
    {
      buf := MakeRoom(buf);
      var readErr;
      buf, readErr := ReadMore(body, buf);
      if readErr == Some(Eof) { return; }
      if readErr.Some? {
        e := readErr;
        return;
      }
    }
  }

  /** One read into the room behind what is there. */
  method ReadMore(body: BodyReader, buf: Slice) returns (more: Slice, e: Option<Error>)
    requires buf.Valid() && buf.len < buf.arr.Length
    modifies body, buf.arr
    ensures more.Valid() && more.arr == buf.arr
    ensures more.Contents() + body.unread == old(buf.Contents()) + old(body.unread)
    ensures e == None || (e == Some(EndOf(body.tail)) && body.unread == [])
    ensures e == None ==> body.Left() < old(body.Left())
  {
    ghost var had, unread := buf.Contents(), body.unread;
    var n;
    n, e := body.Read(buf.arr, buf.len, buf.arr.Length);
    more := Slice(buf.arr, buf.len + n);
    assert more.Contents() == had + unread[..n] by {
      assert more.Contents() == buf.arr[..buf.len] + buf.arr[buf.len..buf.len + n];
    }
    assert unread == unread[..n] + unread[n..];
  }
}
