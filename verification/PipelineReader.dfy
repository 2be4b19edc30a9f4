/** The loop of a reader task, on the bytes of pipelined responses. */
module PipelineReader {
  import opened Options
  import opened Bytes
  import opened ResponseGrammar
  import opened BufferedReader
  import opened RoundTrip
  import opened Sums

  /** Reads one response, which gives back the message there and nothing of what follows. */
  method ReadMessage(b: RBuf, r: Source, keep: bool, ghost g: Rules, ghost m: Message, ghost t: seq<byte>)
    returns (head: Result<(nat, nat)>, body: seq<byte>)
    requires b.Valid() && b.Reads(r, g) && !g.untilEof
    requires WellFormed(g, m) && b.Logical(r) == Render(m) + t
    modifies b`start, b`end, b.buf, r
    ensures b.Valid() && b.Logical(r) == t
    ensures head == Ok((m.status, |BodyOf(m)|))
    ensures body == if keep then BodyOf(m) else []
  {
    ResponseBack(g, m, t);
    head, body := b.ReadResponse(r, keep, false, g);
  }

  /** Reads n responses; those of any pipelined messages come back as exactly their
      statuses and bodies, in order, and what follows the last stays unread, however
      the socket cuts the bytes up. */
  method ReadPipeline(b: RBuf, r: Source, n: nat, ghost g: Rules, ghost ms: seq<Message>, ghost t: seq<byte>)
    returns (replies: seq<Reply>, ok: bool)
    requires b.Valid() && b.Reads(r, g) && !g.untilEof
    requires n == |ms| && AllWellFormed(g, ms) && b.Logical(r) == RenderAll(ms) + t
    modifies b`start, b`end, b.buf, r
    ensures b.Valid() && ok
    ensures replies == RepliesOf(ms) && b.Logical(r) == t
  {
    replies, ok := [], true;
    var i := 0;
    assert ms[0..] == ms;
    while i < n
      invariant b.Valid() && i <= n && ok
      invariant b.Logical(r) == RenderAll(ms[i..]) + t
      invariant replies + RepliesOf(ms[i..]) == RepliesOf(ms)
    {
      Unfold(ms, i, t, replies);
      var head, body := ReadMessage(b, r, true, g, ms[i], RenderAll(ms[i + 1..]) + t);
      if head.Err? {
        ok := false;
        return;
      }
      replies := replies + [Reply(head.value.0, body)];
      i := i + 1;
    }
    assert RenderAll(ms[n..]) + t == t;
  }

  /** The first of the messages still to come. */
  lemma Unfold(ms: seq<Message>, i: nat, t: seq<byte>, had: seq<Reply>)
    requires i < |ms|
    ensures RenderAll(ms[i..]) + t == Render(ms[i]) + (RenderAll(ms[i + 1..]) + t)
    ensures had + RepliesOf(ms[i..]) == had + [ReplyOf(ms[i])] + RepliesOf(ms[i + 1..])
  {
    assert ms[i..][1..] == ms[i + 1..];
  }

  // ---- what a reader counts ----

  /** What a reader has added to its connection's count and to the shared ones. */
  datatype Counts = Counts(recv: nat, answered: nat, recvTimes: nat, recvBytes: nat)

  /** Which responses the report is of: a 200, and where bodies are compared one that brings
      back its request's. */
  predicate Accepted(check: bool, sent: seq<byte>, reply: Reply) {
    reply.status == 200 && (check ==> reply.body == sent)
  }

  /** The counts with one response more. */
  function CountedOne(c: Counts, accepted: bool, length: nat): Counts {
    var d := c.(recv := c.recv + 1, answered := c.answered + 1);
    if accepted then d.(recvTimes := c.recvTimes + 1, recvBytes := c.recvBytes + length) else d
  }

  function CountsOf(check: bool, sent: seq<byte>, replies: seq<Reply>): Counts {
    if replies == [] then Counts(0, 0, 0, 0)
    else
      var n := |replies| - 1;
      CountedOne(CountsOf(check, sent, replies[..n]), Accepted(check, sent, replies[n]), |replies[n].body|)
  }

  lemma OneMoreCounted(check: bool, sent: seq<byte>, replies: seq<Reply>, reply: Reply)
    ensures CountsOf(check, sent, replies + [reply])
      == CountedOne(CountsOf(check, sent, replies), Accepted(check, sent, reply), |reply.body|)
  {
    assert (replies + [reply])[..|replies|] == replies;
  }

  function LengthOf(check: bool, sent: seq<byte>): Reply -> nat {
    (reply: Reply) => if reply.status == 200 && (check ==> reply.body == sent) then |reply.body| else 0
  }

  /** The reader's counts in plain terms: every response in two of them, and in the others the
      200s with the right body and the bytes of theirs. */
  lemma {:induction false} CountsAre(check: bool, sent: seq<byte>, replies: seq<Reply>)
    ensures var c := CountsOf(check, sent, replies);
      && c.recv == c.answered == |replies|
      && c.recvTimes == |set i | 0 <= i < |replies| && Accepted(check, sent, replies[i])|
      && c.recvBytes == Total(replies, LengthOf(check, sent))
      && (check ==> c.recvBytes == c.recvTimes * |sent|)
  {
    if replies != [] {
      var n := |replies| - 1;
      CountsAre(check, sent, replies[..n]);
      TakenMore(check, sent, replies);
      Distribute(|sent|, CountsOf(check, sent, replies[..n]).recvTimes, 1);
    }
  }

  lemma TakenMore(check: bool, sent: seq<byte>, replies: seq<Reply>)
    requires replies != []
    ensures var n := |replies| - 1;
      |set i | 0 <= i < |replies| && Accepted(check, sent, replies[i])|
        == |set i | 0 <= i < n && Accepted(check, sent, replies[..n][i])| + if Accepted(check, sent, replies[n]) then 1 else 0
  {
    var n := |replies| - 1;
    var taken := set i | 0 <= i < |replies| && Accepted(check, sent, replies[i]);
    var before := set i | 0 <= i < n && Accepted(check, sent, replies[..n][i]);
    assert taken == before + if Accepted(check, sent, replies[n]) then {n} else {};
  }

  /** What the reader finds: the next of the messages still to come, or behind the last what
      is there. */
  lemma NextFound(g: Rules, left: seq<Message>, t: seq<byte>)
    requires left != [] && AllWellFormed(g, left)
    ensures Response(g, RenderAll(left) + t) == Done(ReplyOf(left[0]), RenderAll(left[1..]) + t)
  {
    var rest := RenderAll(left[1..]) + t;
    assert RenderAll(left) + t == Render(left[0]) + rest;
    ResponseBack(g, left[0], rest);
  }

  lemma NothingLeft(t: seq<byte>)
    ensures RenderAll([]) + t == t
  {
  }

  method ReadNext(b: RBuf, r: Source, keep: bool, ghost g: Rules, ghost left: seq<Message>, ghost t: seq<byte>)
    returns (head: Result<(nat, nat)>, body: seq<byte>)
    requires b.Valid() && b.Reads(r, g) && !g.untilEof
    requires AllWellFormed(g, left) && b.Logical(r) == RenderAll(left) + t && Response(g, t).Fail?
    modifies b`start, b`end, b.buf, r
    ensures b.Valid() && (left == [] ==> head.Err?)
    ensures left != [] ==> var reply := ReplyOf(left[0]);
      head == Ok((reply.status, |reply.body|)) && (keep ==> body == reply.body)
    ensures left != [] ==> b.Logical(r) == RenderAll(left[1..]) + t
  {
    if left == [] { NothingLeft(t); } else { NextFound(g, left, t); }
    head, body := b.ReadResponse(r, keep, false, g);
  }

  /** A reader task so far: the messages counted and those still to come. */
  ghost predicate CountedTo(check: bool, sent: seq<byte>, ms: seq<Message>, done: seq<Reply>, left: seq<Message>, c: Counts) {
    done + RepliesOf(left) == RepliesOf(ms) && c == CountsOf(check, sent, done)
  }

  lemma CountNext(check: bool, sent: seq<byte>, ms: seq<Message>, done: seq<Reply>, left: seq<Message>, c: Counts)
    requires left != [] && CountedTo(check, sent, ms, done, left, c)
    ensures var reply := ReplyOf(left[0]);
      CountedTo(check, sent, ms, done + [reply], left[1..], CountedOne(c, Accepted(check, sent, reply), |reply.body|))
  {
    var reply := ReplyOf(left[0]);
    OneMoreCounted(check, sent, done, reply);
    assert done + [reply] + RepliesOf(left[1..]) == done + RepliesOf(left);
  }

  lemma CountedAll(check: bool, sent: seq<byte>, ms: seq<Message>, done: seq<Reply>, left: seq<Message>, c: Counts)
    requires left == [] && CountedTo(check, sent, ms, done, left, c)
    ensures c == CountsOf(check, sent, RepliesOf(ms))
  {
    assert done + RepliesOf(left) == done;
  }

  /** A reader task: it counts responses until one cannot be read, and has then counted every
      message before that as it deserves. */
  method CountResponses(b: RBuf, r: Source, check: bool, sent: seq<byte>,
                        ghost g: Rules, ghost ms: seq<Message>, ghost t: seq<byte>)
    returns (c: Counts)
    requires b.Valid() && b.Reads(r, g) && !g.untilEof
    requires AllWellFormed(g, ms) && b.Logical(r) == RenderAll(ms) + t && Response(g, t).Fail?
    modifies b`start, b`end, b.buf, r
    ensures b.Valid() && c == CountsOf(check, sent, RepliesOf(ms))
  {
    c := Counts(0, 0, 0, 0);
    ghost var done: seq<Reply>, left := [], ms;
    while true
      invariant b.Valid() && AllWellFormed(g, left) && b.Logical(r) == RenderAll(left) + t
      invariant CountedTo(check, sent, ms, done, left, c)
      decreases |left|
    {
      var head, body := ReadNext(b, r, check, g, left, t);
      if head.Err? {
        CountedAll(check, sent, ms, done, left, c);
        return;
      }
      CountNext(check, sent, ms, done, left, c);
      c := CountedOne(c, head.value.0 == 200 && (!check || body == sent), head.value.1);
      done, left := done + [ReplyOf(left[0])], left[1..];
    }
  }
}
