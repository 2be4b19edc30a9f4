/** What every run of the pipelining benchmark keeps, from its first tick to its snapshot. */
module PipeliningRuns {
  import opened Options
  import opened Pipelining
  import opened Sums

  /** The state a list of steps leads to, if each could be taken. */
  ghost function Run(cfg: Config, steps: seq<Action>): Option<State>
    requires cfg.Valid()
  {
    if steps == [] then Some(Init(cfg))
    else
      var before := Run(cfg, steps[..|steps| - 1]);
      var a := steps[|steps| - 1];
      if before.Some? && Shape(cfg, before.value) && Enabled(cfg, before.value, a)
      then Some(Apply(cfg, before.value, a)) else None
  }

  lemma InitInv(cfg: Config)
    requires cfg.Valid()
    ensures Inv(cfg, Init(cfg))
  {
    var s := Init(cfg);
    TotalBound(s.conns, TimesOf, 0);
    TotalBound(s.conns, BytesOf, 0);
    TotalBound(s.conns, CountedOf, 0);
    TotalBound(s.conns, AcceptedOf, 0);
    forall c | 0 <= c < |s.conns|
      ensures ConnAtOk(cfg, s, c)
    {
    }
  }

  /** The invariant holds after every run. */
  lemma {:induction false} RunInv(cfg: Config, steps: seq<Action>)
    requires cfg.Valid()
    ensures Run(cfg, steps).Some? ==> Inv(cfg, Run(cfg, steps).value)
  {
    if steps == [] {
      InitInv(cfg);
    } else {
      RunInv(cfg, steps[..|steps| - 1]);
      var before := Run(cfg, steps[..|steps| - 1]);
      if before.Some? && Enabled(cfg, before.value, steps[|steps| - 1]) {
        StepKeepsInv(cfg, before.value, steps[|steps| - 1]);
      }
    }
  }

  // ---- the in-flight bound ----

  /** However the steps interleave and however stale the count a writer saw, a connection
      never has more than five batches less one request unanswered: four of them wholly. */
  lemma InFlightBound(cfg: Config, steps: seq<Action>, c: nat)
    requires cfg.Valid() && Run(cfg, steps).Some? && c < |cfg.owner|
    ensures var s := Run(cfg, steps).value;
      |s.conns| == |cfg.owner| && 0 <= s.conns[c].wire - s.conns[c].recv <= 5 * cfg.batch - 1
      && (s.conns[c].wire - s.conns[c].recv) / cfg.batch <= MAX_BATCHES_IN_FLIGHT
  {
    RunInv(cfg, steps);
    var s := Run(cfg, steps).value;
    assert ConnAtOk(cfg, s, c);
    WholeBatches(s.conns[c].wire - s.conns[c].recv, cfg.batch);
  }

  lemma WholeBatches(n: nat, batch: nat)
    requires batch >= 1 && n <= 5 * batch - 1
    ensures n / batch <= 4
  {
    assert n == n / batch * batch + n % batch;
    Monotone(5, n / batch, batch);
  }

  /** One more step of a run. */
  lemma Extend(cfg: Config, steps: seq<Action>, a: Action)
    requires cfg.Valid() && Run(cfg, steps).Some?
    requires Shape(cfg, Run(cfg, steps).value) && Enabled(cfg, Run(cfg, steps).value, a)
    ensures Run(cfg, steps + [a]) == Some(Apply(cfg, Run(cfg, steps).value, a))
  {
    assert (steps + [a])[..|steps|] == steps;
  }

  /** A run on which only connection c has been written to, and where c stands. */
  ghost predicate OnlyAt(cfg: Config, steps: seq<Action>, c: nat, sent: nat, recv: nat, wire: nat, p: Writer, r: Reader) {
    && cfg.Valid() && c < |cfg.owner| && Run(cfg, steps).Some?
    && var s := Run(cfg, steps).value;
       && Shape(cfg, s) && s.writers[cfg.owner[c]] == p && s.readers[c] == r && s.main.Running?
       && s.conns[c].sent == sent && s.conns[c].recv == recv == s.conns[c].parsed && s.conns[c].wire == wire
       && (forall d :: 0 <= d < |s.conns| && d != c ==> s.conns[d].sent == 0)
       && forall w :: 0 <= w < |s.writers| && w != cfg.owner[c] ==> s.writers[w].Idle?
  }

  /** Two runs that end with the same totals. */
  ghost predicate SameTotals(cfg: Config, steps: seq<Action>, steps': seq<Action>)
    requires cfg.Valid() && Run(cfg, steps).Some? && Run(cfg, steps').Some?
  {
    var s, s' := Run(cfg, steps).value, Run(cfg, steps').value;
    s'.sendTimes == s.sendTimes && s'.answered == s.answered && s'.recvTimes == s.recvTimes
  }

  /** The writer goes on from place k to place end without getting anything written. */
  lemma {:induction false} PassOver(cfg: Config, steps: seq<Action>, c: nat, sent: nat, recv: nat, r: Reader, k: nat, end: nat)
    returns (steps': seq<Action>)
    requires cfg.Valid() && c < |cfg.owner| && k <= |cfg.teams[cfg.owner[c]]|
    requires OnlyAt(cfg, steps, c, sent, recv, sent, Next(cfg, cfg.owner[c], k), r)
    requires k <= end <= |cfg.teams[cfg.owner[c]]| && (end <= cfg.rank[c] || cfg.rank[c] < k)
    ensures OnlyAt(cfg, steps', c, sent, recv, sent, Next(cfg, cfg.owner[c], end), r)
    ensures SameTotals(cfg, steps, steps')
    decreases end - k
  {
    steps' := steps;
    if k < end {
      var w := cfg.owner[c];
      Extend(cfg, steps', Pass(w, 0));
      steps' := steps' + [Pass(w, 0)];
      Extend(cfg, steps', WriteFail(w));
      steps' := steps' + [WriteFail(w)];
      steps' := PassOver(cfg, steps', c, sent, recv, r, k + 1, end);
    }
  }

  /** A tick in which a batch on connection c is let through, and on the wire. */
  lemma WriteBatch(cfg: Config, steps: seq<Action>, c: nat, sent: nat, recv: nat) returns (steps': seq<Action>)
    requires OnlyAt(cfg, steps, c, sent, recv, sent, Idle, Waiting)
    requires sent - recv < cfg.batch * MAX_BATCHES_IN_FLIGHT
    ensures OnlyAt(cfg, steps', c, sent, recv, sent + cfg.batch, Written(cfg.rank[c]), Waiting)
    ensures SameTotals(cfg, steps, steps')
  {
    var w := cfg.owner[c];
    steps' := steps;
    Extend(cfg, steps', Tick(w));
    steps' := steps' + [Tick(w)];
    steps' := PassOver(cfg, steps', c, sent, recv, Waiting, 0, cfg.rank[c]);
    Extend(cfg, steps', Pass(w, recv));
    steps' := steps' + [Pass(w, recv)];
    Extend(cfg, steps', WriteOk(w));
    steps' := steps' + [WriteOk(w)];
  }

  /** The same batch counted, and the tick over. */
  lemma CountBatch(cfg: Config, steps: seq<Action>, c: nat, sent: nat, recv: nat) returns (steps': seq<Action>)
    requires cfg.Valid() && c < |cfg.owner|
    requires OnlyAt(cfg, steps, c, sent, recv, sent + cfg.batch, Written(cfg.rank[c]), Waiting)
    ensures OnlyAt(cfg, steps', c, sent + cfg.batch, recv, sent + cfg.batch, Idle, Waiting)
    ensures var s, s' := Run(cfg, steps).value, Run(cfg, steps').value;
      s'.sendTimes == s.sendTimes + cfg.batch && s'.answered == s.answered && s'.recvTimes == s.recvTimes
  {
    var w := cfg.owner[c];
    steps' := steps;
    Extend(cfg, steps', AddTimes(w));
    steps' := steps' + [AddTimes(w)];
    Extend(cfg, steps', AddBytes(w));
    steps' := steps' + [AddBytes(w)];
    Extend(cfg, steps', AddSent(w));
    steps' := steps' + [AddSent(w)];
    steps' := PassOver(cfg, steps', c, sent + cfg.batch, recv, Waiting, cfg.rank[c] + 1, |cfg.teams[w]|);
  }

  lemma {:induction false} BatchesUnanswered(cfg: Config, c: nat, n: nat) returns (steps: seq<Action>)
    requires cfg.Valid() && c < |cfg.owner| && n <= MAX_BATCHES_IN_FLIGHT
    ensures OnlyAt(cfg, steps, c, n * cfg.batch, 0, n * cfg.batch, Idle, Waiting)
  {
    if n == 0 {
      steps := [];
    } else {
      steps := BatchesUnanswered(cfg, c, n - 1);
      Monotone(n, MAX_BATCHES_IN_FLIGHT, cfg.batch);
      Distribute(cfg.batch, n - 1, 1);
      steps := WriteBatch(cfg, steps, c, (n - 1) * cfg.batch, 0);
      steps := CountBatch(cfg, steps, c, (n - 1) * cfg.batch, 0);
    }
  }

  /** One response, up to where its reader has updated answered. */
  lemma AnswerOne(cfg: Config, steps: seq<Action>, c: nat, sent: nat, recv: nat, wire: nat, p: Writer, ok: bool)
    returns (steps': seq<Action>)
    requires wire > recv && OnlyAt(cfg, steps, c, sent, recv, wire, p, Waiting)
    ensures OnlyAt(cfg, steps', c, sent, recv + 1, wire, p, if ok then CountedAnswered else Waiting)
    ensures var s, s' := Run(cfg, steps).value, Run(cfg, steps').value;
      s'.sendTimes == s.sendTimes && s'.answered == s.answered + 1 && s'.recvTimes == s.recvTimes
  {
    steps' := steps;
    Extend(cfg, steps', Respond(c, ok));
    steps' := steps' + [Respond(c, ok)];
    Extend(cfg, steps', AddRecv(c));
    steps' := steps' + [AddRecv(c)];
    Extend(cfg, steps', AddAnswered(c));
    steps' := steps' + [AddAnswered(c)];
  }

  /** Requests written to a connection and not counted as answered. */
  function InFlight(s: State, c: nat): int {
    if c < |s.conns| then s.conns[c].wire - s.conns[c].recv else 0
  }

  /** The bound is met, by every connection of every configuration: four batches unanswered
      but for one response, and a fifth let through. */
  lemma InFlightAttained(cfg: Config, c: nat) returns (steps: seq<Action>)
    requires cfg.Valid() && c < |cfg.owner|
    ensures Run(cfg, steps).Some? && InFlight(Run(cfg, steps).value, c) == 5 * cfg.batch - 1
  {
    steps := BatchesUnanswered(cfg, c, 4);
    steps := AnswerOne(cfg, steps, c, 4 * cfg.batch, 0, 4 * cfg.batch, Idle, false);
    steps := WriteBatch(cfg, steps, c, 4 * cfg.batch, 1);
  }

  /** What the description promises: no more than four batches unanswered, ever. */
  ghost predicate FourAtMost(cfg: Config)
    requires cfg.Valid()
  {
    forall steps, c: nat :: Run(cfg, steps).Some? ==> InFlight(Run(cfg, steps).value, c) <= MAX_BATCHES_IN_FLIGHT * cfg.batch
  }

  /** The code keeps that exactly where a batch is a single request, or nobody is connected. */
  lemma PromiseIff(cfg: Config)
    requires cfg.Valid()
    ensures FourAtMost(cfg) <==> cfg.batch == 1 || cfg.owner == []
  {
    forall steps, c: nat | Run(cfg, steps).Some? && (cfg.batch == 1 || cfg.owner == [])
      ensures InFlight(Run(cfg, steps).value, c) <= MAX_BATCHES_IN_FLIGHT * cfg.batch
    {
      RunInv(cfg, steps);
      if c < |cfg.owner| { InFlightBound(cfg, steps, c); }
    }
    if cfg.batch > 1 && cfg.owner != [] {
      var steps := InFlightAttained(cfg, 0);
      assert InFlight(Run(cfg, steps).value, 0) > MAX_BATCHES_IN_FLIGHT * cfg.batch;
    }
  }

  /** And where four batches wait the gate is closed for that tick, to that connection only:
      the writer goes on to the next of its team. */
  lemma GateCloses(cfg: Config, c: nat) returns (steps: seq<Action>)
    requires cfg.Valid() && c < |cfg.owner|
    ensures var w := cfg.owner[c]; var run := Run(cfg, steps);
      && run.Some? && Shape(cfg, run.value) && run.value.writers[w] == Gate(cfg.rank[c])
      && (forall seen :: !Enabled(cfg, run.value, Pass(w, seen)))
      && Run(cfg, steps + [Skip(w, 0)]).Some?
      && Run(cfg, steps + [Skip(w, 0)]).value.writers[w] ==
         (if cfg.rank[c] + 1 < |cfg.teams[w]| then Gate(cfg.rank[c] + 1) else Idle)
  {
    var w := cfg.owner[c];
    steps := BatchesUnanswered(cfg, c, 4);
    Extend(cfg, steps, Tick(w));
    steps := steps + [Tick(w)];
    steps := PassOver(cfg, steps, c, 4 * cfg.batch, 0, Waiting, 0, cfg.rank[c]);
    Extend(cfg, steps, Skip(w, 0));
  }

  /** Which connections a gate lets through: those with less than four batches sent past
      the responses the writer has seen counted. */
  lemma GateIff(cfg: Config, s: State, c: nat, seen: nat)
    requires cfg.Valid() && Shape(cfg, s) && c < |s.conns| && s.writers[cfg.owner[c]] == Gate(cfg.rank[c])
    ensures Enabled(cfg, s, Pass(cfg.owner[c], seen)) <==>
      seen <= s.conns[c].recv && s.conns[c].sent < seen + 4 * cfg.batch
    ensures Enabled(cfg, s, Skip(cfg.owner[c], seen)) <==>
      seen <= s.conns[c].recv && s.conns[c].sent >= seen + 4 * cfg.batch
  {
    assert At(cfg, s, cfg.owner[c]) == c;
  }

  /** Every tick deals with every connection once: a batch sent, a closed gate or a failed
      write. No gate is closed before four batches are sent. */
  lemma TicksAccounted(cfg: Config, steps: seq<Action>, c: nat)
    requires cfg.Valid() && Run(cfg, steps).Some? && c < |cfg.owner|
    ensures var s := Run(cfg, steps).value;
      && Shape(cfg, s)
      && var x, p, k := s.conns[c], s.writers[cfg.owner[c]], cfg.rank[c];
         && s.ticks[cfg.owner[c]] == Total(steps, TicksOf(cfg.owner[c]))
         && x.rounds + x.skipped + x.failed + (if Active(p) && p.k <= k then 1 else 0) == s.ticks[cfg.owner[c]]
         && x.sent == cfg.batch * x.rounds && (x.skipped > 0 ==> x.sent >= 4 * cfg.batch)
  {
    RunInv(cfg, steps);
    TicksCounted(cfg, steps, cfg.owner[c]);
    assert ConnAtOk(cfg, Run(cfg, steps).value, c);
    Distribute(cfg.batch, Run(cfg, steps).value.conns[c].rounds, 0);
  }

  function TicksOf(w: nat): Action -> nat {
    (a: Action) => if a == Tick(w) then 1 else 0
  }

  lemma {:induction false} TicksCounted(cfg: Config, steps: seq<Action>, w: nat)
    requires cfg.Valid() && Run(cfg, steps).Some? && w < |cfg.teams|
    ensures |Run(cfg, steps).value.ticks| == |cfg.teams|
    ensures Run(cfg, steps).value.ticks[w] == Total(steps, TicksOf(w))
  {
    if steps != [] {
      var front, a := steps[..|steps| - 1], steps[|steps| - 1];
      RunInv(cfg, front);
      TicksCounted(cfg, front, w);
      TicksStep(cfg, Run(cfg, front).value, a, Run(cfg, steps).value, w);
    }
  }

  lemma TicksStep(cfg: Config, s: State, a: Action, s': State, w: nat)
    requires Inv(cfg, s) && Enabled(cfg, s, a) && s' == Apply(cfg, s, a) && w < |s.ticks|
    ensures |s'.ticks| == |s.ticks| && s'.ticks[w] == s.ticks[w] + TicksOf(w)(a)
  {
  }

  // ---- conservation ----

  /** The writer of connection c is at it and in one of these places. */
  predicate WriterIn(cfg: Config, s: State, c: nat, written: bool, times: bool, bytes: bool) {
    && c < |cfg.owner| && c < |cfg.rank| && cfg.owner[c] < |s.writers|
    && var p, k := s.writers[cfg.owner[c]], cfg.rank[c];
       || (written && p == Written(k)) || (times && p == CountedTimes(k)) || (bytes && p == CountedBytes(k))
  }

  /** Writers between the updates of sendTimes and of sendCnt. */
  function SendLag(cfg: Config, s: State): nat {
    Count(|s.conns|, (c: nat) => WriterIn(cfg, s, c, false, true, true))
  }

  /** Writers between a write and the update of sendTimes. */
  function WireLag(cfg: Config, s: State): nat {
    Count(|s.conns|, (c: nat) => WriterIn(cfg, s, c, true, false, false))
  }

  /** Writers between the updates of sendTimes and of sendBytes. */
  function BytesLag(cfg: Config, s: State): nat {
    Count(|s.conns|, (c: nat) => WriterIn(cfg, s, c, false, true, false))
  }

  /** Readers between the updates of recvCnt and of answered. */
  function AnsweredLag(s: State): nat {
    Count(|s.conns|, (c: nat) => c < |s.readers| && s.readers[c].CountedRecv?)
  }

  /** Readers between the updates of answered and of recvTimes. */
  function RecvLag(s: State): nat {
    Count(|s.conns|, (c: nat) => c < |s.readers| && s.readers[c].CountedAnswered?)
  }

  /** In every state of every run the shared totals are the sums of the per-connection
      counts, corrected by exactly the writers and readers between two updates. */
  lemma Conservation(cfg: Config, steps: seq<Action>)
    requires cfg.Valid() && Run(cfg, steps).Some?
    ensures var s := Run(cfg, steps).value; var n := |s.conns|;
      && Shape(cfg, s)
      && s.sendTimes == Total(s.conns, SentOf) + cfg.batch * SendLag(cfg, s)
      && Total(s.conns, WireOf) == s.sendTimes + cfg.batch * WireLag(cfg, s)
      && s.sendTimes * cfg.payload == s.sendBytes + cfg.batch * cfg.payload * BytesLag(cfg, s)
      && Total(s.conns, RecvOf) == s.answered + AnsweredLag(s)
      && s.answered == s.recvTimes + Total(s.conns, RejectedOf) + RecvLag(s)
      && s.recvTimes <= s.answered <= Total(s.conns, RecvOf) <= Total(s.conns, WireOf)
      && forall c :: 0 <= c < n ==> s.conns[c].sent == s.conns[c].rounds * cfg.batch
  {
    RunInv(cfg, steps);
    var s := Run(cfg, steps).value;
    forall c | 0 <= c < |s.conns|
      ensures ConnAtOk(cfg, s, c) && s.conns[c].sent == s.conns[c].rounds * cfg.batch
    {
      assert ConnAtOk(cfg, s, c);
    }
    SendSums(cfg, s);
    ReceiveSums(cfg, s);
  }

  lemma SendSums(cfg: Config, s: State)
    requires Inv(cfg, s)
    ensures s.sendTimes == Total(s.conns, SentOf) + cfg.batch * SendLag(cfg, s)
    ensures Total(s.conns, WireOf) == s.sendTimes + cfg.batch * WireLag(cfg, s)
    ensures s.sendTimes * cfg.payload
      == s.sendBytes + cfg.batch * cfg.payload * BytesLag(cfg, s)
  {
    var send := (c: nat) => WriterIn(cfg, s, c, false, true, true);
    var wire := (c: nat) => WriterIn(cfg, s, c, true, false, false);
    var bytes := (c: nat) => WriterIn(cfg, s, c, false, true, false);
    forall c | 0 <= c < |s.conns|
      ensures s.conns[c].times == s.conns[c].sent + if send(c) then cfg.batch else 0
      ensures s.conns[c].wire == s.conns[c].times + if wire(c) then cfg.batch else 0
      ensures s.conns[c].times == s.conns[c].bytes + if bytes(c) then cfg.batch else 0
    {
      assert ConnAtOk(cfg, s, c);
    }
    TotalGap(s.conns, TimesOf, SentOf, cfg.batch, send);
    TotalGap(s.conns, WireOf, TimesOf, cfg.batch, wire);
    TotalGap(s.conns, TimesOf, BytesOf, cfg.batch, bytes);
    Payloads(cfg.payload, cfg.batch, BytesLag(cfg, s), Total(s.conns, BytesOf));
  }

  lemma Payloads(payload: nat, batch: nat, lag: nat, counted: nat)
    ensures (counted + batch * lag) * payload == payload * counted + batch * payload * lag
  {
    Distribute(payload, counted, batch * lag);
    Reorder(payload, batch, lag);
  }

  lemma Reorder(a: nat, b: nat, c: nat)
    ensures a * (b * c) == b * a * c
  {
  }

  /** A connection's answered responses, taken and refused. */
  const SettledOf := (x: Conn) => x.accepted + x.rejected

  lemma {:induction false} TotalPlus(xs: seq<Conn>)
    ensures Total(xs, SettledOf) == Total(xs, AcceptedOf) + Total(xs, RejectedOf)
  {
    if xs != [] { TotalPlus(xs[..|xs| - 1]); }
  }

  lemma ReceiveSums(cfg: Config, s: State)
    requires Inv(cfg, s)
    ensures Total(s.conns, RecvOf) == s.answered + AnsweredLag(s)
    ensures s.answered == s.recvTimes + Total(s.conns, RejectedOf) + RecvLag(s)
    ensures Total(s.conns, RecvOf) <= Total(s.conns, WireOf)
    ensures Total(s.conns, RecvOf) == Total(s.conns, WireOf) ==>
      forall c :: 0 <= c < |s.conns| ==> s.conns[c].recv == s.conns[c].wire
  {
    var answered := (c: nat) => c < |s.readers| && s.readers[c].CountedRecv?;
    var settled := (c: nat) => c < |s.readers| && s.readers[c].CountedAnswered?;
    forall c | 0 <= c < |s.conns|
      ensures s.conns[c].recv == s.conns[c].counted + if answered(c) then 1 else 0
      ensures s.conns[c].counted == SettledOf(s.conns[c]) + if settled(c) then 1 else 0
      ensures s.conns[c].recv <= s.conns[c].wire
    {
      assert ConnAtOk(cfg, s, c);
    }
    TotalGap(s.conns, RecvOf, CountedOf, 1, answered);
    TotalGap(s.conns, CountedOf, SettledOf, 1, settled);
    TotalPlus(s.conns);
    TotalLeq(s.conns, RecvOf, WireOf);
  }

  /** A response being counted: read, and its reader not through with it. */
  predicate InHand(r: Reader, ok: bool) {
    r == Got(ok) || r == CountedRecv(ok) || (ok && r.CountedAnswered?)
  }

  const Writes := (a: Action) => if a.WriteOk? then 1 else 0
  const Accepts := (a: Action) => if a.AddRecvTimes? then 1 else 0

  function RespondsOf(c: nat, ok: bool): Action -> nat {
    (a: Action) => if a == Respond(c, ok) then 1 else 0
  }

  /** What the counts are of: every response of a connection is taken or refused as it was
      read or is in its reader's hand, every write puts one batch on the wire, and recvTimes
      has gone up once for every response taken. */
  lemma Ledger(cfg: Config, steps: seq<Action>, c: nat)
    requires cfg.Valid() && Run(cfg, steps).Some? && c < |cfg.owner|
    ensures var s := Run(cfg, steps).value;
      && Shape(cfg, s)
      && Total(steps, RespondsOf(c, true)) == s.conns[c].accepted + (if InHand(s.readers[c], true) then 1 else 0)
      && Total(steps, RespondsOf(c, false)) == s.conns[c].rejected + (if InHand(s.readers[c], false) then 1 else 0)
      && Total(s.conns, WireOf) == cfg.batch * Total(steps, Writes)
      && s.recvTimes == Total(steps, Accepts) == Total(s.conns, AcceptedOf)
  {
    RunInv(cfg, steps);
    ResponsesCounted(cfg, steps, c);
    WritesCounted(cfg, steps);
    AcceptsCounted(cfg, steps);
  }

  lemma {:induction false} ResponsesCounted(cfg: Config, steps: seq<Action>, c: nat)
    requires cfg.Valid() && Run(cfg, steps).Some? && c < |cfg.owner|
    ensures var s := Run(cfg, steps).value;
      && |s.conns| == |s.readers| == |cfg.owner|
      && Total(steps, RespondsOf(c, true)) == s.conns[c].accepted + (if InHand(s.readers[c], true) then 1 else 0)
      && Total(steps, RespondsOf(c, false)) == s.conns[c].rejected + (if InHand(s.readers[c], false) then 1 else 0)
  {
    if steps != [] {
      var front := steps[..|steps| - 1];
      RunInv(cfg, front);
      ResponsesCounted(cfg, front, c);
      LedgerStep(cfg, Run(cfg, front).value, steps[|steps| - 1], c);
    }
  }

  lemma {:induction false} WritesCounted(cfg: Config, steps: seq<Action>)
    requires cfg.Valid() && Run(cfg, steps).Some?
    ensures Total(Run(cfg, steps).value.conns, WireOf) == cfg.batch * Total(steps, Writes)
  {
    if steps == [] {
      NothingWritten(cfg);
    } else {
      WritesCounted(cfg, steps[..|steps| - 1]);
      WriteCounted(cfg, steps);
    }
  }

  lemma WriteCounted(cfg: Config, steps: seq<Action>)
    requires cfg.Valid() && Run(cfg, steps).Some? && steps != []
    requires var front := steps[..|steps| - 1];
      Run(cfg, front).Some? && Total(Run(cfg, front).value.conns, WireOf) == cfg.batch * Total(front, Writes)
    ensures Total(Run(cfg, steps).value.conns, WireOf) == cfg.batch * Total(steps, Writes)
  {
    var front, a := steps[..|steps| - 1], steps[|steps| - 1];
    RunInv(cfg, front);
    assert Total(steps, Writes) == Total(front, Writes) + Writes(a);
    WireStep(cfg, Run(cfg, front).value, a, Run(cfg, steps).value, Total(front, Writes), Total(steps, Writes));
  }

  lemma NothingWritten(cfg: Config)
    requires cfg.Valid()
    ensures Total(Init(cfg).conns, WireOf) == 0
  {
    TotalBound(Init(cfg).conns, WireOf, 0);
  }

  lemma {:induction false} AcceptsCounted(cfg: Config, steps: seq<Action>)
    requires cfg.Valid() && Run(cfg, steps).Some?
    ensures Run(cfg, steps).value.recvTimes == Total(steps, Accepts)
  {
    if steps != [] { AcceptsCounted(cfg, steps[..|steps| - 1]); }
  }

  lemma LedgerStep(cfg: Config, s: State, a: Action, c: nat)
    requires Inv(cfg, s) && Enabled(cfg, s, a) && c < |s.conns|
    ensures var s' := Apply(cfg, s, a);
      && |s'.conns| == |s.conns| == |s'.readers| && s'.recvTimes == s.recvTimes + Accepts(a)
      && s'.conns[c].accepted + (if InHand(s'.readers[c], true) then 1 else 0)
         == s.conns[c].accepted + (if InHand(s.readers[c], true) then 1 else 0) + RespondsOf(c, true)(a)
      && s'.conns[c].rejected + (if InHand(s'.readers[c], false) then 1 else 0)
         == s.conns[c].rejected + (if InHand(s.readers[c], false) then 1 else 0) + RespondsOf(c, false)(a)
  {
  }

  lemma WireStep(cfg: Config, s: State, a: Action, s': State, writes: nat, now: nat)
    requires Inv(cfg, s) && Enabled(cfg, s, a) && s' == Apply(cfg, s, a)
    requires Total(s.conns, WireOf) == cfg.batch * writes && now == writes + Writes(a)
    ensures Total(s'.conns, WireOf) == cfg.batch * now
  {
    Distribute(cfg.batch, writes, Writes(a));
    if a.Skip? || a.Pass? || a.WriteOk? || a.WriteFail? || a.AddTimes? || a.AddBytes? || a.AddSent? {
      var at := At(cfg, s, a.w);
      assert s'.conns == s.conns[at := s'.conns[at]];
      TotalUpdate(s.conns, WireOf, at, s'.conns[at]);
    } else if a.Respond? || a.AddRecv? || a.AddAnswered? || a.AddRecvTimes? || a.Stop? {
      assert s'.conns == s.conns[a.c := s'.conns[a.c]];
      TotalUpdate(s.conns, WireOf, a.c, s'.conns[a.c]);
    }
  }

  /** No connection is sent more than a batch a tick, so in the ticks of so many seconds
      no more is sent than the rate asks for, on each connection and on all of them. */
  lemma SendRateBound(cfg: Config, steps: seq<Action>, tickRate: nat, rate: nat, seconds: nat)
    requires cfg.Valid() && Run(cfg, steps).Some? && cfg.batch * tickRate == rate
    requires forall w :: 0 <= w < |Run(cfg, steps).value.ticks| ==>
      Run(cfg, steps).value.ticks[w] <= tickRate * seconds
    ensures var s := Run(cfg, steps).value;
      && (forall c :: 0 <= c < |s.conns| ==> s.conns[c].wire <= rate * seconds)
      && s.sendTimes <= |s.conns| * (rate * seconds)
  {
    RunInv(cfg, steps);
    var s := Run(cfg, steps).value;
    var most := tickRate * seconds;
    assert most * cfg.batch == rate * seconds by { Reorder(cfg.batch, tickRate, seconds); }
    forall c | 0 <= c < |s.conns|
      ensures s.conns[c].wire <= rate * seconds && s.conns[c].times <= rate * seconds
    {
      assert ConnAtOk(cfg, s, c);
      WithinTicks(cfg.batch, s.conns[c], s.writers[cfg.owner[c]], cfg.rank[c], s.readers[c], s.ticks[cfg.owner[c]], most);
    }
    TotalBound(s.conns, TimesOf, rate * seconds);
  }

  lemma WithinTicks(batch: nat, x: Conn, p: Writer, k: nat, r: Reader, ticks: nat, most: nat)
    requires ConnOk(batch, x, p, k, r, ticks) && ticks <= most
    ensures x.times <= x.wire <= most * batch
  {
    Batches(batch, x.rounds, if OnWire(p, k) then 1 else 0, most);
  }

  lemma Batches(batch: nat, rounds: nat, more: nat, most: nat)
    requires rounds + more <= most
    ensures rounds * batch + more * batch <= most * batch
  {
    Distribute(batch, rounds, more);
    Monotone(rounds + more, most, batch);
  }

  // ---- the snapshot ----

  /** The responses reported never exceed the requests reported, and those are all that
      were ever written. */
  lemma SnapshotSafe(cfg: Config, steps: seq<Action>)
    requires cfg.Valid() && Run(cfg, steps).Some? && Run(cfg, steps).value.main.Snapped?
    ensures var s := Run(cfg, steps).value;
      && s.main.recvTimes <= s.recvTimes <= s.sendTimes
      && s.sendTimes == Total(s.conns, WireOf) == Total(s.conns, SentOf)
      && s.sendBytes == s.sendTimes * cfg.payload
  {
    RunInv(cfg, steps);
    var s := Run(cfg, steps).value;
    WritersQuiet(cfg, s);
    ReceiveSums(cfg, s);
  }

  /** Once the writers are done nothing is between two updates on their side. */
  lemma WritersQuiet(cfg: Config, s: State)
    requires Inv(cfg, s) && !s.main.Running?
    ensures s.sendTimes == Total(s.conns, WireOf) == Total(s.conns, SentOf)
    ensures s.sendBytes == s.sendTimes * cfg.payload
  {
    SendSums(cfg, s);
    NoneFlagged(|s.conns|, (c: nat) => WriterIn(cfg, s, c, false, true, true));
    NoneFlagged(|s.conns|, (c: nat) => WriterIn(cfg, s, c, true, false, false));
    NoneFlagged(|s.conns|, (c: nat) => WriterIn(cfg, s, c, false, true, false));
  }

  /** A grace loop that ends because the responses caught up ends with every request
      answered, and what the snapshot then falls short by is the responses that were
      refused and those between a reader's last two updates. */
  lemma CaughtUpComplete(cfg: Config, steps: seq<Action>)
    requires cfg.Valid() && Run(cfg, steps).Some? && Run(cfg, steps).value.main.CaughtUp?
    ensures var s := Run(cfg, steps).value;
      && (forall c :: 0 <= c < |s.conns| ==> s.conns[c].recv == s.conns[c].wire)
      && s.sendTimes - s.recvTimes == Total(s.conns, RejectedOf) + RecvLag(s)
  {
    RunInv(cfg, steps);
    var s := Run(cfg, steps).value;
    WritersQuiet(cfg, s);
    ReceiveSums(cfg, s);
  }

  /** After the writers are done no step sends, and none takes back a refusal. */
  lemma QuietStep(cfg: Config, s: State, a: Action)
    requires Inv(cfg, s) && !s.main.Running? && Enabled(cfg, s, a)
    ensures var s' := Apply(cfg, s, a);
      s'.sendTimes == s.sendTimes && |s'.conns| == |s.conns| && Total(s'.conns, RejectedOf) >= Total(s.conns, RejectedOf)
  {
    var s' := Apply(cfg, s, a);
    if a.Respond? || a.AddRecv? || a.AddAnswered? || a.AddRecvTimes? || a.Stop? {
      assert s'.conns == s.conns[a.c := s'.conns[a.c]];
      TotalUpdate(s.conns, RejectedOf, a.c, s'.conns[a.c]);
    }
  }

  /** So the responses reported after a grace loop that caught up fall short of the requests
      reported by at most those refused and one for each reader. */
  lemma {:induction false} SnapshotComplete(cfg: Config, steps: seq<Action>)
    requires cfg.Valid() && Run(cfg, steps).Some?
    requires Run(cfg, steps).value.main.Snapped? && Run(cfg, steps).value.main.complete
    ensures var s := Run(cfg, steps).value;
      s.sendTimes <= s.main.recvTimes + Total(s.conns, RejectedOf) + |s.conns|
  {
    var a := steps[|steps| - 1];
    var before := Run(cfg, steps[..|steps| - 1]).value;
    RunInv(cfg, steps[..|steps| - 1]);
    assert Run(cfg, steps).value == Apply(cfg, before, a);
    if a.Snap? {
      CaughtUpComplete(cfg, steps[..|steps| - 1]);
    } else {
      SnapshotComplete(cfg, steps[..|steps| - 1]);
      QuietStep(cfg, before, a);
    }
  }

  /** What the snapshot reports, however the grace loop ended: the responses taken before it,
      to the last one. The requests reported beyond those are exactly the responses refused,
      those their readers still counted, and the requests unanswered. Nothing after the
      snapshot changes it: a response taken later is not in it. */
  lemma {:induction false} SnapshotExact(cfg: Config, front: seq<Action>, later: seq<Action>)
    requires cfg.Valid() && Run(cfg, front + [Snap] + later).Some?
    ensures Run(cfg, front).Some?
    ensures var at, s := Run(cfg, front).value, Run(cfg, front + [Snap] + later).value;
      && Shape(cfg, at) && (at.main.CaughtUp? || at.main.TimedOut?)
      && s.main == Snapped(Total(at.conns, AcceptedOf), at.main.CaughtUp?)
      && s.main.recvTimes == Total(front, Accepts)
      && s.recvTimes - s.main.recvTimes == Total(later, Accepts)
      && s.sendTimes == at.sendTimes == s.main.recvTimes + Total(at.conns, RejectedOf) + RecvLag(at) + AnsweredLag(at)
           + (Total(at.conns, WireOf) - Total(at.conns, RecvOf))
  {
    var steps := front + [Snap] + later;
    if later == [] {
      assert steps[..|steps| - 1] == front;
      SnapshotAt(cfg, front);
    } else {
      var n := |later| - 1;
      assert steps[..|steps| - 1] == front + [Snap] + later[..n] && steps[|steps| - 1] == later[n];
      SnapshotExact(cfg, front, later[..n]);
      RunInv(cfg, front + [Snap] + later[..n]);
      LaterStep(cfg, Run(cfg, front + [Snap] + later[..n]).value, later[n], Run(cfg, steps).value);
    }
  }

  /** The totals where the snapshot is taken. */
  lemma SnapshotAt(cfg: Config, front: seq<Action>)
    requires cfg.Valid() && Run(cfg, front).Some? && !Run(cfg, front).value.main.Running?
    ensures var at := Run(cfg, front).value;
      && Shape(cfg, at) && at.recvTimes == Total(at.conns, AcceptedOf) == Total(front, Accepts)
      && at.sendTimes == at.recvTimes + Total(at.conns, RejectedOf) + RecvLag(at) + AnsweredLag(at)
           + (Total(at.conns, WireOf) - Total(at.conns, RecvOf))
  {
    RunInv(cfg, front);
    WritersQuiet(cfg, Run(cfg, front).value);
    ReceiveSums(cfg, Run(cfg, front).value);
    AcceptsCounted(cfg, front);
  }

  lemma LaterStep(cfg: Config, s: State, a: Action, s': State)
    requires Inv(cfg, s) && s.main.Snapped? && Enabled(cfg, s, a) && s' == Apply(cfg, s, a)
    ensures s'.main == s.main && s'.sendTimes == s.sendTimes && s'.recvTimes == s.recvTimes + Accepts(a)
  {
    QuietStep(cfg, s, a);
  }

  // ---- runs to the end ----

  /** All writers see the deadline, from the given one on. */
  lemma {:induction false} WritersStop(cfg: Config, steps: seq<Action>, w: nat) returns (steps': seq<Action>)
    requires cfg.Valid() && Run(cfg, steps).Some? && Shape(cfg, Run(cfg, steps).value) && w <= |cfg.teams|
    requires var ws := Run(cfg, steps).value.writers;
      forall v :: 0 <= v < |ws| ==> if v < w then ws[v].Finished? else ws[v].Idle?
    ensures Run(cfg, steps').Some? && Shape(cfg, Run(cfg, steps').value)
    ensures var s' := Run(cfg, steps').value;
      s' == Run(cfg, steps).value.(writers := s'.writers) && forall v :: 0 <= v < |s'.writers| ==> s'.writers[v].Finished?
    decreases |cfg.teams| - w
  {
    steps' := steps;
    if w < |cfg.teams| {
      Extend(cfg, steps', Deadline(w));
      steps' := WritersStop(cfg, steps' + [Deadline(w)], w + 1);
    }
  }

  /** A batch written and n of its requests answered well. */
  lemma {:induction false} Answers(cfg: Config, c: nat, n: nat) returns (steps: seq<Action>)
    requires cfg.Valid() && c < |cfg.owner| && n <= cfg.batch
    ensures OnlyAt(cfg, steps, c, cfg.batch, n, cfg.batch, Idle, Waiting)
    ensures var s := Run(cfg, steps).value; s.sendTimes == cfg.batch && s.answered == s.recvTimes == n
  {
    if n == 0 {
      steps := WriteBatch(cfg, [], c, 0, 0);
      steps := CountBatch(cfg, steps, c, 0, 0);
    } else {
      steps := Answers(cfg, c, n - 1);
      steps := AnswerOne(cfg, steps, c, cfg.batch, n - 1, cfg.batch, Idle, true);
      Extend(cfg, steps, AddRecvTimes(c));
      steps := steps + [AddRecvTimes(c)];
    }
  }

  /** The grace is reached with any part of a batch answered, on any connection. */
  lemma GraceReached(cfg: Config, c: nat, n: nat) returns (steps: seq<Action>)
    requires cfg.Valid() && c < |cfg.owner| && n <= cfg.batch
    ensures Run(cfg, steps).Some? && Shape(cfg, Run(cfg, steps).value)
    ensures var s := Run(cfg, steps).value;
      s.main.Grace? && s.sendTimes == cfg.batch && s.answered == s.recvTimes == n
  {
    steps := Answers(cfg, c, n);
    steps := WritersStop(cfg, steps, 0);
    Extend(cfg, steps, WritersDone);
    steps := steps + [WritersDone];
  }

  /** And then the snapshot: when the grace is over, and before that exactly if the whole
      batch is answered. */
  lemma SnapshotReached(cfg: Config, c: nat, n: nat) returns (steps: seq<Action>)
    requires cfg.Valid() && c < |cfg.owner| && n <= cfg.batch
    ensures Run(cfg, steps).Some? && Run(cfg, steps).value.sendTimes == cfg.batch
    ensures Run(cfg, steps + [TimeOut] + [Snap]).Some?
    ensures Run(cfg, steps + [TimeOut] + [Snap]).value.main == Snapped(n, false)
    ensures Run(cfg, steps + [CatchUp]).Some? <==> n == cfg.batch
    ensures n == cfg.batch ==>
      Run(cfg, steps + [CatchUp] + [Snap]).Some? && Run(cfg, steps + [CatchUp] + [Snap]).value.main == Snapped(n, true)
  {
    steps := GraceReached(cfg, c, n);
    assert (steps + [CatchUp])[..|steps|] == steps;
    Extend(cfg, steps, TimeOut);
    SnapNext(cfg, steps + [TimeOut]);
    if n == cfg.batch {
      Extend(cfg, steps, CatchUp);
      SnapNext(cfg, steps + [CatchUp]);
    }
  }

  lemma SnapNext(cfg: Config, steps: seq<Action>)
    requires cfg.Valid() && Run(cfg, steps).Some? && Shape(cfg, Run(cfg, steps).value)
    requires Run(cfg, steps).value.main.CaughtUp? || Run(cfg, steps).value.main.TimedOut?
    ensures var s := Run(cfg, steps).value;
      Run(cfg, steps + [Snap]) == Some(s.(main := Snapped(s.recvTimes, s.main.CaughtUp?)))
  {
    Extend(cfg, steps, Snap);
  }

  /** Before the writers are done the totals are no guide to each other: a response can
      be counted before its request is. */
  lemma AnsweredOvertakes(cfg: Config, c: nat) returns (steps: seq<Action>)
    requires cfg.Valid() && c < |cfg.owner|
    ensures Run(cfg, steps).Some? && Run(cfg, steps).value.answered > Run(cfg, steps).value.sendTimes
  {
    steps := WriteBatch(cfg, [], c, 0, 0);
    steps := AnswerOne(cfg, steps, c, 0, 0, cfg.batch, Written(cfg.rank[c]), true);
  }
}
