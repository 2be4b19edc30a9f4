/** A task of the echo benchmark: round trips on connections of its own, in turn. */
module EchoRuns {
  import opened Options
  import opened Bytes
  import opened ResponseGrammar
  import opened RoundTrip
  import opened Links
  import opened EchoConnections
  import opened Sums

  /** Connections that share nothing. */
  ghost predicate GroupOk(group: seq<Conn>, s: Setup)
    reads group, set i, o | 0 <= i < |group| && o in group[i].Repr :: o
  {
    && (forall i, j :: 0 <= i < j < |group| ==> group[i].Repr !! group[j].Repr)
    && (forall i :: 0 <= i < |group| ==> group[i].Valid(s))
  }

  /** The connections are in these states. */
  ghost predicate Stand(group: seq<Conn>, s: Setup, now: seq<Link>)
    requires GroupOk(group, s)
    reads group, set i, o | 0 <= i < |group| && o in group[i].Repr :: o
  {
    |now| == |group| && forall i :: 0 <= i < |group| ==> group[i].State() == now[i]
  }

  /** One operation, on the connection whose turn it is; the others are not touched. */
  method EchoTurn(group: seq<Conn>, at: nat, s: Setup, op: Op, ghost now: seq<Link>) returns (e: Option<EchoError>)
    requires at < |group| && GroupOk(group, s) && Stand(group, s, now)
    modifies group[at].Repr
    ensures GroupOk(group, s)
    ensures fresh(group[at].Repr - old(group[at].Repr))
    ensures forall i :: 0 <= i < |group| && i != at ==> group[i].Repr == old(group[i].Repr)
    ensures Stand(group, s, now[at := After(s, now[at], op)])
    ensures e == EndingOf(s, now[at], op)
  {
    var c := group[at];
    ghost var was := c.Repr;
    assert forall i :: 0 <= i < |group| && i != at ==> group[i].Repr !! was && group[i] in group[i].Repr;
    e := EchoOnce(c, s, op);
    assert forall i :: 0 <= i < |group| && i != at ==> group[i].Repr == old(group[i].Repr) && group[i].Valid(s);
  }

  /** A task so far: how its operations ended, and the states of its connections. */
  datatype Trace = Trace(endings: seq<Option<EchoError>>, now: seq<Link>)

  /** A trace with one more operation. */
  function Extended(s: Setup, t: Trace, at: nat, op: Op): (r: Trace)
    requires at < |t.now|
    ensures |r.now| == |t.now| && |r.endings| == |t.endings| + 1
  {
    Trace(t.endings + [EndingOf(s, t.now[at], op)], t.now[at := After(s, t.now[at], op)])
  }

  /** What becomes of a task's connections and operations, one after the other. */
  function Played(s: Setup, links: seq<Link>, ops: seq<Op>): (t: Trace)
    requires links != []
    ensures |t.now| == |links| && |t.endings| == |ops|
  {
    if ops == [] then Trace([], links)
    else
      var m := |ops| - 1;
      Extended(s, Played(s, links, ops[..m]), TurnOf(m, |links|), ops[m])
  }

  lemma PlayedStep(s: Setup, links: seq<Link>, ops: seq<Op>, m: nat)
    requires links != [] && m < |ops|
    ensures Played(s, links, ops[..m + 1]) == Extended(s, Played(s, links, ops[..m]), TurnOf(m, |links|), ops[m])
  {
    assert ops[..m + 1][..m] == ops[..m];
  }

  /** Whose turn the k-th operation is. */
  function TurnOf(k: nat, n: nat): (at: nat)
    requires n > 0
    ensures at < n
  {
    k % n
  }

  lemma NextTurn(k: nat, n: nat)
    requires n > 0
    ensures TurnOf(k + 1, n) == (TurnOf(k, n) + 1) % n && TurnOf(k + n, n) == TurnOf(k, n)
  {
    Around(k, k / n, k % n, n);
  }

  lemma Around(k: nat, q: nat, r: nat, n: nat)
    requires r < n && k == q * n + r
    ensures k % n == r && (k + n) % n == r
    ensures (k + 1) % n == (r + 1) % n
  {
    Distribute(n, q, 1);
    DivModIs(k, q, n, r);
    DivModIs(k + n, q + 1, n, r);
    if r + 1 < n {
      DivModIs(k + 1, q, n, r + 1);
      DivModIs(r + 1, 0, n, r + 1);
    } else {
      DivModIs(k + 1, q + 1, n, 0);
      DivModIs(n, 1, n, 0);
    }
  }

  lemma OtherTurn(m: nat, k: nat, n: nat)
    requires m < k < m + n
    ensures TurnOf(k, n) != TurnOf(m, n)
  {
    if k % n == m % n {
      var d := k / n - m / n;
      assert k == n * (k / n) + k % n && m == n * (m / n) + m % n;
      Distribute(n, m / n, if d >= 0 then d else 0);
      Monotone(1, d, n);
    }
  }

  /** What a task counts: its successes, its failures, and how often it saw each error. */
  datatype Tally = Tally(costs: nat, failed: nat, errors: map<EchoError, nat>)

  /** The counts with one more ending. */
  function CountOne(t: Tally, e: Option<EchoError>): Tally {
    if e.None? then t.(costs := t.costs + 1)
    else
      var seen := if e.value in t.errors then t.errors[e.value] else 0;
      t.(failed := t.failed + 1, errors := t.errors[e.value := seen + 1])
  }

  function Counted(endings: seq<Option<EchoError>>): Tally {
    if endings == [] then Tally(0, 0, map[])
    else CountOne(Counted(endings[..|endings| - 1]), endings[|endings| - 1])
  }

  /** A task's counts are of its endings: each is a success or a failure of its kind. */
  lemma {:induction false} CountedAre(endings: seq<Option<EchoError>>, e: EchoError)
    ensures var t := Counted(endings);
      && t.costs == multiset(endings)[None] && t.costs + t.failed == |endings|
      && (if e in t.errors then t.errors[e] else 0) == multiset(endings)[Some(e)]
  {
    if endings != [] {
      var n := |endings| - 1;
      CountedAre(endings[..n], e);
      assert endings == endings[..n] + [endings[n]];
    }
  }

  /** A task after k operations: what is played, counted, and whose turn is next. */
  ghost predicate TaskAt(s: Setup, links: seq<Link>, ops: seq<Op>, k: nat, at: nat, tally: Tally, t: Trace)
  {
    && links != [] && k <= |ops| && at == TurnOf(k, |links|)
    && t == Played(s, links, ops[..k]) && tally == Counted(t.endings)
  }

  lemma TaskStep(s: Setup, links: seq<Link>, ops: seq<Op>, k: nat, at: nat, tally: Tally, t: Trace, e: Option<EchoError>)
    requires TaskAt(s, links, ops, k, at, tally, t) && k < |ops| && e == EndingOf(s, t.now[at], ops[k])
    ensures TaskAt(s, links, ops, k + 1, (at + 1) % |links|, CountOne(tally, e), Extended(s, t, at, ops[k]))
  {
    PlayedStep(s, links, ops, k);
    NextTurn(k, |links|);
    var t' := Extended(s, t, at, ops[k]);
    assert t'.endings[..|t.endings|] == t.endings;
  }

  /** One round of a task. */
  method TaskRound(group: seq<Conn>, s: Setup, ops: seq<Op>, k: nat, at: nat, tally: Tally,
                   ghost links: seq<Link>, ghost t: Trace)
    returns (next: nat, tally': Tally, ghost t': Trace)
    requires GroupOk(group, s) && Stand(group, s, t.now) && TaskAt(s, links, ops, k, at, tally, t) && k < |ops|
    modifies group[at].Repr
    ensures fresh(group[at].Repr - old(group[at].Repr))
    ensures forall i :: 0 <= i < |group| && i != at ==> group[i].Repr == old(group[i].Repr)
    ensures GroupOk(group, s) && Stand(group, s, t'.now) && TaskAt(s, links, ops, k + 1, next, tally', t')
  {
    var e := EchoTurn(group, at, s, ops[k], t.now);
    TaskStep(s, links, ops, k, at, tally, t, e);
    next, tally', t' := (at + 1) % |group|, CountOne(tally, e), Extended(s, t, at, ops[k]);
  }

  /** An operation per ticket drawn, the connections taken in turn: the counts are those of
      what is played, and so is the state of every connection. own is what the task may
      change: its connections, their sockets and buffers. */
  method EchoTask(group: seq<Conn>, s: Setup, ops: seq<Op>, ghost links: seq<Link>, ghost own: set<object>)
    returns (tally: Tally)
    requires group != [] && GroupOk(group, s) && Stand(group, s, links)
    requires forall i :: 0 <= i < |group| ==> group[i].Repr <= own
    modifies own
    ensures GroupOk(group, s) && Stand(group, s, Played(s, links, ops).now)
    ensures forall i :: 0 <= i < |group| ==> fresh(group[i].Repr - own)
    ensures tally == Counted(Played(s, links, ops).endings)
  {
    tally := Tally(0, 0, map[]);
    ghost var t := Trace([], links);
    var at: nat := 0;
    for k := 0 to |ops|
      invariant GroupOk(group, s) && Stand(group, s, t.now)
      invariant forall i :: 0 <= i < |group| ==> fresh(group[i].Repr - own)
      invariant TaskAt(s, links, ops, k, at, tally, t)
    {
      ghost var t';
      at, tally, t' := TaskRound(group, s, ops, k, at, tally, links, t);
      t := t';
    }
    assert ops[..|ops|] == ops;
  }

  // ---- what that means ----

  /** The state of the connection that the k-th operation of a task finds: the one left by
      the operation before it in its turn. */
  ghost function Found(s: Setup, links: seq<Link>, ops: seq<Op>, k: nat): Link
    requires links != [] && k < |ops| + |links|
    decreases k
  {
    if k < |links| then links[k] else After(s, Found(s, links, ops, k - |links|), ops[k - |links|])
  }

  /** How the first n operations end. */
  ghost predicate EndsAs(s: Setup, links: seq<Link>, ops: seq<Op>, endings: seq<Option<EchoError>>)
    requires links != [] && |endings| <= |ops|
  {
    forall k :: 0 <= k < |endings| ==> endings[k] == EndingOf(s, Found(s, links, ops, k), ops[k])
  }

  /** now is how the next operation in each connection's turn finds it. */
  ghost predicate FoundNext(now: seq<Link>, s: Setup, links: seq<Link>, ops: seq<Op>, m: nat)
    requires links != [] && |now| == |links| && m <= |ops|
  {
    forall k :: m <= k < m + |links| ==> now[TurnOf(k, |links|)] == Found(s, links, ops, k)
  }

  lemma FoundStep(now: seq<Link>, s: Setup, links: seq<Link>, ops: seq<Op>, m: nat)
    requires links != [] && |now| == |links| && m < |ops| && FoundNext(now, s, links, ops, m)
    ensures now[TurnOf(m, |links|)] == Found(s, links, ops, m)
    ensures FoundNext(now[TurnOf(m, |links|) := After(s, now[TurnOf(m, |links|)], ops[m])], s, links, ops, m + 1)
  {
    var n := |links|;
    var now' := now[TurnOf(m, n) := After(s, now[TurnOf(m, n)], ops[m])];
    NextTurn(m, n);
    forall k | m < k <= m + n
      ensures now'[TurnOf(k, n)] == Found(s, links, ops, k)
    {
      if k < m + n { OtherTurn(m, k, n); }
    }
  }

  lemma FoundFirst(s: Setup, links: seq<Link>, ops: seq<Op>)
    requires links != []
    ensures FoundNext(links, s, links, ops, 0)
  {
    forall k | 0 <= k < |links|
      ensures links[TurnOf(k, |links|)] == Found(s, links, ops, k)
    {
      DivMod(0, |links|, k);
    }
  }

  /** After m operations each has ended as one on the connection it found, and the next in
      each connection's turn finds what these left. */
  ghost predicate Traced(s: Setup, links: seq<Link>, ops: seq<Op>, m: nat, t: Trace) {
    && links != [] && |t.now| == |links| && |t.endings| == m <= |ops|
    && EndsAs(s, links, ops, t.endings) && FoundNext(t.now, s, links, ops, m)
  }

  lemma TracedStep(s: Setup, links: seq<Link>, ops: seq<Op>, m: nat, t: Trace, at: nat)
    requires Traced(s, links, ops, m, t) && m < |ops| && at == TurnOf(m, |links|)
    ensures Traced(s, links, ops, m + 1, Extended(s, t, at, ops[m]))
  {
    FoundStep(t.now, s, links, ops, m);
    var endings := Extended(s, t, at, ops[m]).endings;
    forall k | 0 <= k < m + 1
      ensures endings[k] == EndingOf(s, Found(s, links, ops, k), ops[k])
    {
      if k < m { assert endings[k] == t.endings[k]; }
    }
  }

  lemma {:induction false} PlayedTraced(s: Setup, links: seq<Link>, ops: seq<Op>, m: nat)
    requires links != [] && m <= |ops|
    ensures Traced(s, links, ops, m, Played(s, links, ops[..m]))
  {
    if m == 0 {
      FoundFirst(s, links, ops);
    } else {
      PlayedTraced(s, links, ops, m - 1);
      var t, at := Played(s, links, ops[..m - 1]), TurnOf(m - 1, |links|);
      assert Played(s, links, ops[..m]) == Extended(s, t, at, ops[m - 1]) by { PlayedStep(s, links, ops, m - 1); }
      TracedStep(s, links, ops, m - 1, t, at);
    }
  }

  // ---- in step, over a whole task ----

  ghost predicate AllInStep(s: Setup, links: seq<Link>) {
    forall i :: 0 <= i < |links| ==> InStep(s, links[i])
  }

  /** The servers answer each request once. */
  ghost predicate AllSingle(s: Setup, ops: seq<Op>) {
    forall k :: 0 <= k < |ops| ==> PeerSingle(s, ops[k].world)
  }

  /** Whether the k-th operation finds its connection marked: the one before it on that
      connection ended so, or it was marked to begin with. */
  predicate Marked(links: seq<Link>, endings: seq<Option<EchoError>>, k: nat)
    requires links != [] && k < |endings| + |links|
  {
    if k < |links| then links[k].broken else Breaks(endings[k - |links|])
  }

  /** How the socket stops that the k-th operation finds, if its connection is not marked. */
  function TailAt(links: seq<Link>, ops: seq<Op>, endings: seq<Option<EchoError>>, k: nat): Tail
    requires links != [] && |endings| == |ops| && k < |ops| + |links|
    decreases k
  {
    if k < |links| then links[k].tail
    else
      var j := k - |links|;
      if Marked(links, endings, j) then ops[j].world.dialTail else TailAt(links, ops, endings, j)
  }

  /** What that socket has carried by then: the operations in the connection's turns since
      its last redial, and the request the redial opened it with. */
  function Carried(s: Setup, links: seq<Link>, ops: seq<Op>, endings: seq<Option<EchoError>>, k: nat): seq<Served>
    requires links != [] && |endings| == |ops| && k < |ops| + |links|
    decreases k
  {
    if k < |links| then links[k].talk.served
    else
      var j := k - |links|;
      (if Marked(links, endings, j) then [Served(s.hello, ops[j].world.dialAnswer)] else Carried(s, links, ops, endings, j))
        + [Served(ops[j].request, ops[j].world.answer)]
  }

  /** What the k-th operation finds: a connection in step, marked or with that history. */
  lemma {:induction false} FoundIs(s: Setup, links: seq<Link>, ops: seq<Op>, endings: seq<Option<EchoError>>, k: nat)
    requires links != [] && AllInStep(s, links) && AllSingle(s, ops)
    requires |endings| == |ops| && EndsAs(s, links, ops, endings) && k < |ops| + |links|
    ensures var l := Found(s, links, ops, k);
      && InStep(s, l) && (l.broken <==> Marked(links, endings, k))
      && (!l.broken ==> l.tail == TailAt(links, ops, endings, k))
      && (!l.broken ==> l.talk.served == Carried(s, links, ops, endings, k))
    decreases k
  {
    if k >= |links| {
      var j := k - |links|;
      FoundIs(s, links, ops, endings, j);
      BrokenIff(s, Found(s, links, ops, j), ops[j]);
      AfterStep(s, Found(s, links, ops, j), ops[j]);
    }
  }

  /** Every operation of a task ends as the answer to its own request says, or in a redial
      that failed on a connection that was marked. */
  lemma OwnEndings(s: Setup, links: seq<Link>, ops: seq<Op>, k: nat)
    requires links != [] && AllInStep(s, links) && AllSingle(s, ops) && k < |ops|
    ensures var endings := Played(s, links, ops).endings; var w := ops[k].world;
      var marked := Marked(links, endings, k);
      endings[k] == if marked && !DialOk(s, w) then Some(RedialFailed)
                    else Ending(s, if marked then w.dialTail else TailAt(links, ops, endings, k), ops[k])
  {
    PlayedTraced(s, links, ops, |ops|);
    assert ops[..|ops|] == ops;
    var endings := Played(s, links, ops).endings;
    FoundIs(s, links, ops, endings, k);
    AfterStep(s, Found(s, links, ops, k), ops[k]);
  }

  /** In the server's messages: an operation is lost exactly if its connection had failed and
      is not dialed and greeted with a 200, and else, written and answered by a whole
      message, it ends as that message deserves. */
  lemma OwnVerdicts(s: Setup, links: seq<Link>, ops: seq<Op>, k: nat, m: Message, dialed: Message)
    requires links != [] && AllInStep(s, links) && AllSingle(s, ops) && k < |ops| && ops[k].world.writes
    requires WellFormed(RulesOn(s, Closed), m) && ops[k].world.answer == Render(m)
    requires WellFormed(RulesOn(s, Closed), dialed) && ops[k].world.dialAnswer == Render(dialed)
    ensures var endings, w := Played(s, links, ops).endings, ops[k].world;
      var lost := Marked(links, endings, k) && !(w.dials && w.dialWrites && dialed.status == 200);
      && (endings[k] == Some(RedialFailed) <==> lost)
      && (!lost ==> RightEnding(s.check, ops[k].payload, m.status, BodyOf(m), endings[k]))
  {
    PlayedTraced(s, links, ops, |ops|);
    assert ops[..|ops|] == ops;
    FoundIs(s, links, ops, Played(s, links, ops).endings, k);
    VerdictIff(s, Found(s, links, ops, k), ops[k], m, dialed);
  }

  /** After a task every connection is marked, by how its last operation ended, or in step,
      and then its socket has carried exactly its operations since it was last dialed. */
  lemma TaskInStep(s: Setup, links: seq<Link>, ops: seq<Op>, k: nat)
    requires links != [] && AllInStep(s, links) && AllSingle(s, ops) && |ops| <= k < |ops| + |links|
    ensures var t := Played(s, links, ops); var l := t.now[TurnOf(k, |links|)];
      && InStep(s, l) && (l.broken <==> Marked(links, t.endings, k))
      && (!l.broken ==> l.talk.served == Carried(s, links, ops, t.endings, k))
  {
    PlayedTraced(s, links, ops, |ops|);
    assert ops[..|ops|] == ops;
    FoundIs(s, links, ops, Played(s, links, ops).endings, k);
  }
}
