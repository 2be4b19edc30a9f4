/** The pipelining benchmark as a transition system: a writer per team and a reader per
    connection that share nothing but counters, each counter its own step. What every
    interleaving keeps, and what the snapshot at the end may be read as. */
module Pipelining {
  import opened Sums

  /** A gate is closed to a connection from this many uncounted batches on. */
  const MAX_BATCHES_IN_FLIGHT: nat := 4

  /** teams[w] lists the connections writer w serves; owner and rank find them there. */
  datatype Config = Config(batch: nat, payload: nat, teams: seq<seq<nat>>, owner: seq<nat>, rank: seq<nat>) {
    ghost predicate Valid() {
      && batch >= 1 && |rank| == |owner|
      && (forall w, k :: 0 <= w < |teams| && 0 <= k < |teams[w]| ==>
            teams[w][k] < |owner| && owner[teams[w][k]] == w && rank[teams[w][k]] == k)
      && (forall c :: 0 <= c < |owner| ==>
            owner[c] < |teams| && rank[c] < |teams[owner[c]]| && teams[owner[c]][rank[c]] == c)
    }
  }

  /** A connection: its two shared counts, and what only an observer sees. */
  datatype Conn = Conn(
    sent: nat,      // sendCnt
    recv: nat,      // recvCnt
    wire: nat,      // requests written to the socket
    parsed: nat,    // responses read off it
    times: nat,     // its part of sendTimes
    bytes: nat,     // the requests of its part of sendBytes
    counted: nat,   // its part of answered
    accepted: nat,  // its part of recvTimes
    rejected: nat,  // its answered responses that are no part of recvTimes
    rounds: nat,    // ticks that counted a batch in sent
    skipped: nat,   // ticks its gate was closed
    failed: nat)    // ticks its write failed

  /** Where a writer is; k is a place in its team. */
  datatype Writer =
    | Idle
    | Gate(k: nat)
    | Write(k: nat)
    | Written(k: nat)
    | CountedTimes(k: nat)
    | CountedBytes(k: nat)
    | Finished

  datatype Reader = Waiting | Got(ok: bool) | CountedRecv(ok: bool) | CountedAnswered | Stopped

  /** The goroutine that waits for the writers, gives the last batch its grace and
      takes the snapshot, complete if the responses had caught up. */
  datatype Main = Running | Grace | CaughtUp | TimedOut | Snapped(recvTimes: nat, complete: bool)

  datatype State = State(
    conns: seq<Conn>, writers: seq<Writer>, readers: seq<Reader>, ticks: seq<nat>,
    sendTimes: nat, sendBytes: nat, answered: nat, recvTimes: nat, main: Main)

  datatype Action =
    | Tick(w: nat) | Deadline(w: nat)
    | Skip(w: nat, seen: nat) | Pass(w: nat, seen: nat)
    | WriteOk(w: nat) | WriteFail(w: nat)
    | AddTimes(w: nat) | AddBytes(w: nat) | AddSent(w: nat)
    | Respond(c: nat, ok: bool) | AddRecv(c: nat) | AddAnswered(c: nat) | AddRecvTimes(c: nat) | Stop(c: nat)
    | WritersDone | CatchUp | TimeOut | Snap

  function Init(cfg: Config): State {
    State(seq(|cfg.owner|, _ => Conn(0, 0, 0, 0, 0, 0, 0, 0, 0, 0, 0, 0)), seq(|cfg.teams|, _ => Idle),
          seq(|cfg.owner|, _ => Waiting), seq(|cfg.teams|, _ => 0), 0, 0, 0, 0, Running)
  }

  // ---- steps ----

  predicate Shape(cfg: Config, s: State) {
    && |s.conns| == |s.readers| == |cfg.owner|
    && |s.writers| == |s.ticks| == |cfg.teams|
    && (forall w :: 0 <= w < |s.writers| && Active(s.writers[w]) ==> s.writers[w].k < |cfg.teams[w]|)
  }

  predicate Active(p: Writer) {
    !p.Idle? && !p.Finished?
  }

  /** The connection a writer is at. */
  function At(cfg: Config, s: State, w: nat): nat
    requires cfg.Valid() && Shape(cfg, s) && w < |s.writers| && Active(s.writers[w])
    ensures At(cfg, s, w) < |s.conns|
  {
    cfg.teams[w][s.writers[w].k]
  }

  /** The place after k in a team, or the wait for the next tick. */
  function Next(cfg: Config, w: nat, k: nat): Writer
    requires w < |cfg.teams|
  {
    if k < |cfg.teams[w]| then Gate(k) else Idle
  }

  predicate Enabled(cfg: Config, s: State, a: Action)
    requires cfg.Valid() && Shape(cfg, s)
  {
    match a
    case Tick(w) => w < |s.writers| && s.writers[w].Idle?
    case Deadline(w) => w < |s.writers| && s.writers[w].Idle?
    // The receive count a gate sees may be any the reader has stored so far.
    case Skip(w, seen) => w < |s.writers| && s.writers[w].Gate? && seen <= s.conns[At(cfg, s, w)].recv
      && s.conns[At(cfg, s, w)].sent - seen >= cfg.batch * MAX_BATCHES_IN_FLIGHT
    case Pass(w, seen) => w < |s.writers| && s.writers[w].Gate? && seen <= s.conns[At(cfg, s, w)].recv
      && s.conns[At(cfg, s, w)].sent - seen < cfg.batch * MAX_BATCHES_IN_FLIGHT
    case WriteOk(w) => w < |s.writers| && s.writers[w].Write?
    case WriteFail(w) => w < |s.writers| && s.writers[w].Write?
    case AddTimes(w) => w < |s.writers| && s.writers[w].Written?
    case AddBytes(w) => w < |s.writers| && s.writers[w].CountedTimes?
    case AddSent(w) => w < |s.writers| && s.writers[w].CountedBytes?
    // A response is to a request the server has been sent.
    case Respond(c, _) => c < |s.conns| && s.readers[c].Waiting? && s.conns[c].parsed < s.conns[c].wire
    case AddRecv(c) => c < |s.conns| && s.readers[c].Got?
    case AddAnswered(c) => c < |s.conns| && s.readers[c].CountedRecv?
    case AddRecvTimes(c) => c < |s.conns| && s.readers[c].CountedAnswered?
    case Stop(c) => c < |s.conns| && s.readers[c].Waiting?
    case WritersDone => s.main.Running? && forall w :: 0 <= w < |s.writers| ==> s.writers[w].Finished?
    case CatchUp => s.main.Grace? && s.answered >= s.sendTimes
    case TimeOut => s.main.Grace?
    case Snap => s.main.CaughtUp? || s.main.TimedOut?
  }

  function SetConn(s: State, c: nat, x: Conn): State
    requires c < |s.conns|
  {
    s.(conns := s.conns[c := x])
  }

  function SetWriter(s: State, w: nat, p: Writer): State
    requires w < |s.writers|
  {
    s.(writers := s.writers[w := p])
  }

  function SetReader(s: State, c: nat, p: Reader): State
    requires c < |s.readers|
  {
    s.(readers := s.readers[c := p])
  }

  function Apply(cfg: Config, s: State, a: Action): State
    requires cfg.Valid() && Shape(cfg, s) && Enabled(cfg, s, a)
  {
    match a
    case Tick(w) => SetWriter(s, w, Next(cfg, w, 0)).(ticks := s.ticks[w := s.ticks[w] + 1])
    case Deadline(w) => SetWriter(s, w, Finished)
    case Skip(w, _) =>
      var c := At(cfg, s, w);
      SetWriter(SetConn(s, c, s.conns[c].(skipped := s.conns[c].skipped + 1)), w, Next(cfg, w, s.writers[w].k + 1))
    case Pass(w, _) => SetWriter(s, w, Write(s.writers[w].k))
    case WriteOk(w) =>
      var c := At(cfg, s, w);
      SetWriter(SetConn(s, c, s.conns[c].(wire := s.conns[c].wire + cfg.batch)), w, Written(s.writers[w].k))
    case WriteFail(w) =>
      var c := At(cfg, s, w);
      SetWriter(SetConn(s, c, s.conns[c].(failed := s.conns[c].failed + 1)), w, Next(cfg, w, s.writers[w].k + 1))
    case AddTimes(w) =>
      var c := At(cfg, s, w);
      SetWriter(SetConn(s, c, s.conns[c].(times := s.conns[c].times + cfg.batch)), w, CountedTimes(s.writers[w].k))
        .(sendTimes := s.sendTimes + cfg.batch)
    case AddBytes(w) =>
      var c := At(cfg, s, w);
      SetWriter(SetConn(s, c, s.conns[c].(bytes := s.conns[c].bytes + cfg.batch)), w, CountedBytes(s.writers[w].k))
        .(sendBytes := s.sendBytes + cfg.batch * cfg.payload)
    case AddSent(w) =>
      var c := At(cfg, s, w);
      SetWriter(SetConn(s, c, s.conns[c].(sent := s.conns[c].sent + cfg.batch, rounds := s.conns[c].rounds + 1)),
                w, Next(cfg, w, s.writers[w].k + 1))
    case Respond(c, ok) =>
      SetReader(SetConn(s, c, s.conns[c].(parsed := s.conns[c].parsed + 1)), c, Got(ok))
    case AddRecv(c) =>
      SetReader(SetConn(s, c, s.conns[c].(recv := s.conns[c].recv + 1)), c, CountedRecv(s.readers[c].ok))
    case AddAnswered(c) =>
      var x := s.conns[c].(counted := s.conns[c].counted + 1);
      (if s.readers[c].ok then SetReader(SetConn(s, c, x), c, CountedAnswered)
       else SetReader(SetConn(s, c, x.(rejected := x.rejected + 1)), c, Waiting))
        .(answered := s.answered + 1)
    case AddRecvTimes(c) =>
      SetReader(SetConn(s, c, s.conns[c].(accepted := s.conns[c].accepted + 1)), c, Waiting)
        .(recvTimes := s.recvTimes + 1)
    case Stop(c) => SetReader(s, c, Stopped)
    case WritersDone => s.(main := Grace)
    case CatchUp => s.(main := CaughtUp)
    case TimeOut => s.(main := TimedOut)
    case Snap => s.(main := Snapped(s.recvTimes, s.main.CaughtUp?))
  }

  // ---- the invariant ----

  /** p is at place k with the batch written and not yet all counted. */
  predicate OnWire(p: Writer, k: nat) {
    p == Written(k) || p == CountedTimes(k) || p == CountedBytes(k)
  }

  /** p has been let through to place k. */
  predicate Through(p: Writer, k: nat) {
    p == Write(k) || OnWire(p, k)
  }

  /** p's round has not been past place k. */
  predicate Due(p: Writer, k: nat) {
    Active(p) && p.k <= k
  }

  /** What holds of one connection, its writer at p and its reader at r after so many ticks. */
  predicate ConnOk(batch: nat, x: Conn, p: Writer, k: nat, r: Reader, ticks: nat) {
    && x.wire == x.sent + (if OnWire(p, k) then batch else 0)
    && x.times == x.sent + (if p == CountedTimes(k) || p == CountedBytes(k) then batch else 0)
    && x.bytes == x.sent + (if p == CountedBytes(k) then batch else 0)
    && x.recv + (if r.Got? then 1 else 0) == x.parsed <= x.wire
    && x.counted + (if r.CountedRecv? then 1 else 0) == x.recv
    && x.accepted + x.rejected + (if r.CountedAnswered? then 1 else 0) == x.counted
    && (Through(p, k) ==> x.sent - x.recv < batch * MAX_BATCHES_IN_FLIGHT)
    && x.wire - x.recv <= 5 * batch - 1
    && x.sent == x.rounds * batch
    && x.rounds + x.skipped + x.failed + (if Due(p, k) then 1 else 0) == ticks
    && (x.skipped > 0 ==> x.sent >= 4 * batch)
  }

  ghost predicate ConnsOk(cfg: Config, s: State)
    requires cfg.Valid() && Shape(cfg, s)
  {
    forall c :: 0 <= c < |s.conns| ==> ConnAtOk(cfg, s, c)
  }

  ghost predicate ConnAtOk(cfg: Config, s: State, c: nat)
    requires cfg.Valid() && Shape(cfg, s) && c < |s.conns|
  {
    ConnOk(cfg.batch, s.conns[c], s.writers[cfg.owner[c]], cfg.rank[c], s.readers[c], s.ticks[cfg.owner[c]])
  }

  const SentOf := (x: Conn) => x.sent
  const RecvOf := (x: Conn) => x.recv
  const WireOf := (x: Conn) => x.wire
  const TimesOf := (x: Conn) => x.times
  const BytesOf := (x: Conn) => x.bytes
  const CountedOf := (x: Conn) => x.counted
  const AcceptedOf := (x: Conn) => x.accepted
  const RejectedOf := (x: Conn) => x.rejected

  predicate TotalsOk(cfg: Config, s: State) {
    && s.sendTimes == Total(s.conns, TimesOf)
    && s.sendBytes == cfg.payload * Total(s.conns, BytesOf)
    && s.answered == Total(s.conns, CountedOf)
    && s.recvTimes == Total(s.conns, AcceptedOf)
  }

  predicate MainOk(s: State) {
    && (!s.main.Running? ==> forall w :: 0 <= w < |s.writers| ==> s.writers[w].Finished?)
    && (s.main.CaughtUp? ==> s.answered >= s.sendTimes)
    && (s.main.Snapped? ==> s.main.recvTimes <= s.recvTimes)
  }

  ghost predicate Inv(cfg: Config, s: State) {
    cfg.Valid() && Shape(cfg, s) && ConnsOk(cfg, s) && TotalsOk(cfg, s) && MainOk(s)
  }

  // ---- every step keeps it ----

  /** One connection's change leaves every sum right that changes with it. */
  lemma TotalsStep(xs: seq<Conn>, c: nat, x: Conn)
    requires c < |xs|
    ensures Total(xs[c := x], TimesOf) == Total(xs, TimesOf) - xs[c].times + x.times
    ensures Total(xs[c := x], BytesOf) == Total(xs, BytesOf) - xs[c].bytes + x.bytes
    ensures Total(xs[c := x], CountedOf) == Total(xs, CountedOf) - xs[c].counted + x.counted
    ensures Total(xs[c := x], AcceptedOf) == Total(xs, AcceptedOf) - xs[c].accepted + x.accepted
  {
    TotalUpdate(xs, TimesOf, c, x);
    TotalUpdate(xs, BytesOf, c, x);
    TotalUpdate(xs, CountedOf, c, x);
    TotalUpdate(xs, AcceptedOf, c, x);
  }

  /** A writer's step changes its place and the connection it is at, and disturbs no other. */
  lemma MoveWriter(cfg: Config, s: State, s': State, w: nat, x: Conn, p: Writer)
    requires Inv(cfg, s) && w < |s.writers| && Active(s.writers[w])
    requires s'.conns == s.conns[At(cfg, s, w) := x] && s'.writers == s.writers[w := p]
    requires s'.readers == s.readers && s'.ticks == s.ticks
    requires p == Next(cfg, w, s.writers[w].k + 1) || (Active(p) && p.k == s.writers[w].k)
    requires ConnOk(cfg.batch, x, p, s.writers[w].k, s.readers[At(cfg, s, w)], s.ticks[w])
    ensures Shape(cfg, s') && ConnsOk(cfg, s')
  {
    var at, k := At(cfg, s, w), s.writers[w].k;
    forall c | 0 <= c < |s'.conns|
      ensures ConnAtOk(cfg, s', c)
    {
      assert ConnAtOk(cfg, s, c);
      if c != at && cfg.owner[c] == w {
        assert cfg.rank[c] != k;
      }
    }
  }

  lemma MoveReader(cfg: Config, s: State, s': State, c: nat, x: Conn, r: Reader)
    requires Inv(cfg, s) && c < |s.conns|
    requires s'.conns == s.conns[c := x] && s'.readers == s.readers[c := r]
    requires s'.writers == s.writers && s'.ticks == s.ticks
    requires ConnOk(cfg.batch, x, s.writers[cfg.owner[c]], cfg.rank[c], r, s.ticks[cfg.owner[c]])
    ensures Shape(cfg, s') && ConnsOk(cfg, s')
  {
    forall c' | 0 <= c' < |s'.conns|
      ensures ConnAtOk(cfg, s', c')
    {
      assert ConnAtOk(cfg, s, c');
    }
  }

  lemma TickStep(cfg: Config, s: State, w: nat)
    requires Inv(cfg, s) && Enabled(cfg, s, Tick(w))
    ensures Inv(cfg, Apply(cfg, s, Tick(w)))
  {
    var s' := Apply(cfg, s, Tick(w));
    forall c | 0 <= c < |s'.conns|
      ensures ConnAtOk(cfg, s', c)
    {
      assert ConnAtOk(cfg, s, c);
    }
  }

  lemma DeadlineStep(cfg: Config, s: State, w: nat)
    requires Inv(cfg, s) && Enabled(cfg, s, Deadline(w))
    ensures Inv(cfg, Apply(cfg, s, Deadline(w)))
  {
    var s' := Apply(cfg, s, Deadline(w));
    forall c | 0 <= c < |s'.conns|
      ensures ConnAtOk(cfg, s', c)
    {
      assert ConnAtOk(cfg, s, c);
    }
  }

  /** A step of a writer that counts nothing: looking at a connection, and a write. */
  lemma WriteStep(cfg: Config, s: State, a: Action)
    requires Inv(cfg, s) && Enabled(cfg, s, a) && (a.Skip? || a.Pass? || a.WriteOk? || a.WriteFail?)
    ensures Inv(cfg, Apply(cfg, s, a))
  {
    var s', w := Apply(cfg, s, a), a.w;
    var c := At(cfg, s, w);
    assert ConnAtOk(cfg, s, c);
    assert s'.conns == s.conns[c := s'.conns[c]];
    MoveWriter(cfg, s, s', w, s'.conns[c], s'.writers[w]);
    TotalsStep(s.conns, c, s'.conns[c]);
  }

  lemma AddTimesStep(cfg: Config, s: State, w: nat)
    requires Inv(cfg, s) && Enabled(cfg, s, AddTimes(w))
    ensures Inv(cfg, Apply(cfg, s, AddTimes(w)))
  {
    var s' := Apply(cfg, s, AddTimes(w));
    var c := At(cfg, s, w);
    assert ConnAtOk(cfg, s, c);
    MoveWriter(cfg, s, s', w, s'.conns[c], s'.writers[w]);
    TotalsStep(s.conns, c, s'.conns[c]);
  }

  lemma AddBytesStep(cfg: Config, s: State, w: nat)
    requires Inv(cfg, s) && Enabled(cfg, s, AddBytes(w))
    ensures Inv(cfg, Apply(cfg, s, AddBytes(w)))
  {
    var s' := Apply(cfg, s, AddBytes(w));
    var c := At(cfg, s, w);
    assert ConnAtOk(cfg, s, c);
    MoveWriter(cfg, s, s', w, s'.conns[c], s'.writers[w]);
    TotalsStep(s.conns, c, s'.conns[c]);
    Distribute(cfg.payload, Total(s.conns, BytesOf), cfg.batch);
  }

  lemma AddSentStep(cfg: Config, s: State, w: nat)
    requires Inv(cfg, s) && Enabled(cfg, s, AddSent(w))
    ensures Inv(cfg, Apply(cfg, s, AddSent(w)))
  {
    var s' := Apply(cfg, s, AddSent(w));
    var c := At(cfg, s, w);
    assert ConnAtOk(cfg, s, c);
    Distribute(cfg.batch, s.conns[c].rounds, 1);
    MoveWriter(cfg, s, s', w, s'.conns[c], s'.writers[w]);
    TotalsStep(s.conns, c, s'.conns[c]);
  }

  lemma ReadStep(cfg: Config, s: State, a: Action)
    requires Inv(cfg, s) && Enabled(cfg, s, a) && (a.Respond? || a.AddRecv? || a.Stop?)
    ensures Inv(cfg, Apply(cfg, s, a))
  {
    var s', c := Apply(cfg, s, a), a.c;
    assert ConnAtOk(cfg, s, c);
    assert s'.conns == s.conns[c := s'.conns[c]];
    MoveReader(cfg, s, s', c, s'.conns[c], s'.readers[c]);
    TotalsStep(s.conns, c, s'.conns[c]);
  }

  lemma AnswerStep(cfg: Config, s: State, c: nat)
    requires Inv(cfg, s) && Enabled(cfg, s, AddAnswered(c))
    ensures Inv(cfg, Apply(cfg, s, AddAnswered(c)))
  {
    var s' := Apply(cfg, s, AddAnswered(c));
    assert ConnAtOk(cfg, s, c);
    MoveReader(cfg, s, s', c, s'.conns[c], s'.readers[c]);
    TotalsStep(s.conns, c, s'.conns[c]);
  }

  lemma AcceptStep(cfg: Config, s: State, c: nat)
    requires Inv(cfg, s) && Enabled(cfg, s, AddRecvTimes(c))
    ensures Inv(cfg, Apply(cfg, s, AddRecvTimes(c)))
  {
    var s' := Apply(cfg, s, AddRecvTimes(c));
    assert ConnAtOk(cfg, s, c);
    MoveReader(cfg, s, s', c, s'.conns[c], s'.readers[c]);
    TotalsStep(s.conns, c, s'.conns[c]);
  }

  lemma MainStep(cfg: Config, s: State, a: Action)
    requires Inv(cfg, s) && (a.WritersDone? || a.CatchUp? || a.TimeOut? || a.Snap?) && Enabled(cfg, s, a)
    ensures Inv(cfg, Apply(cfg, s, a))
  {
    var s' := Apply(cfg, s, a);
    forall c | 0 <= c < |s'.conns|
      ensures ConnAtOk(cfg, s', c)
    {
      assert ConnAtOk(cfg, s, c);
    }
  }

  lemma StepKeepsInv(cfg: Config, s: State, a: Action)
    requires Inv(cfg, s) && Enabled(cfg, s, a)
    ensures Inv(cfg, Apply(cfg, s, a))
  {
    if a.Tick? { TickStep(cfg, s, a.w); }
    else if a.Deadline? { DeadlineStep(cfg, s, a.w); }
    else if a.AddTimes? { AddTimesStep(cfg, s, a.w); }
    else if a.AddBytes? { AddBytesStep(cfg, s, a.w); }
    else if a.AddSent? { AddSentStep(cfg, s, a.w); }
    else if a.Skip? || a.Pass? || a.WriteOk? || a.WriteFail? { WriteStep(cfg, s, a); }
    else if a.AddAnswered? { AnswerStep(cfg, s, a.c); }
    else if a.AddRecvTimes? { AcceptStep(cfg, s, a.c); }
    else if a.Respond? || a.AddRecv? || a.Stop? { ReadStep(cfg, s, a); }
    else { MainStep(cfg, s, a); }
  }
}
