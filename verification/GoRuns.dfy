/** The Go benchmark's workers: any number of them borrow connections off one channel, use
    them a step at a time and put them back, while the servers answer when they answer. */
module GoRuns {
  import opened Options
  import opened Bytes
  import opened ResponseGrammar
  import opened RoundTrip
  import opened Links
  import opened Sums

  /** What an operation draws: a body and the request it is in. */
  datatype Ask = Ask(request: seq<byte>, payload: seq<byte>)

  /** Where a worker is with the connection it holds. */
  datatype Place =
    | Free
    | Holding(c: nat)            // borrowed
    | Writing(c: nat)            // redialed if it had to be
    | Reading(c: nat, ask: Ask)  // the request written
    | Spent(c: nat)              // to be put back

  /** An operation's ending, with what it asked, if it came to that, and the answer the
      server had given when it was read. */
  datatype Entry = Entry(ask: Option<Ask>, served: Option<Served>, tail: Tail, ending: Option<EchoError>)

  /** The connections, the workers, the channel of idle connections, how operations ended, and
      all that was ever put into the channel and taken out. */
  datatype State = State(links: seq<Link>, workers: seq<Place>, chan: seq<nat>, log: seq<Entry>,
                         put: seq<nat>, taken: seq<nat>)

  datatype Action =
    | Borrow(w: nat) | Redial(w: nat, world: World) | WriteOk(w: nat, ask: Ask) | WriteFail(w: nat, ask: Ask)
    | Serve(c: nat, answer: seq<byte>) | ReadOne(w: nat) | Return(w: nat)

  function Init(links: seq<Link>, count: nat): State {
    State(links, seq(count, _ => Free), Ids(|links|), [], Ids(|links|), [])
  }

  // ---- steps ----

  predicate Shape(st: State) {
    && (forall i :: 0 <= i < |st.chan| ==> st.chan[i] < |st.links|)
    && (forall w :: 0 <= w < |st.workers| && !st.workers[w].Free? ==> st.workers[w].c < |st.links|)
  }

  predicate Enabled(s: Setup, st: State, a: Action)
    requires Shape(st)
  {
    match a
    case Borrow(w) => w < |st.workers| && st.workers[w].Free? && st.chan != []
    case Redial(w, world) => w < |st.workers| && st.workers[w].Holding?
      && SingleAnswer(RulesOn(s, world.dialTail), world.dialAnswer)
    case WriteOk(w, _) => w < |st.workers| && st.workers[w].Writing?
    case WriteFail(w, _) => w < |st.workers| && st.workers[w].Writing?
    // A server may answer late, on a connection its client has given up.
    case Serve(c, answer) => c < |st.links| && st.links[c].talk.pending != []
      && SingleAnswer(RulesOn(s, st.links[c].tail), answer)
    case ReadOne(w) => w < |st.workers| && st.workers[w].Reading?
    case Return(w) => w < |st.workers| && st.workers[w].Spent?
  }

  /** A worker's connection becomes l, and the worker moves on. */
  function Move(st: State, w: nat, l: Link, p: Place): State
    requires Shape(st) && w < |st.workers| && !st.workers[w].Free?
  {
    st.(links := st.links[st.workers[w].c := l], workers := st.workers[w := p])
  }

  function Logged(st: State, e: Entry): State {
    st.(log := st.log + [e])
  }

  /** The answer to the last request, if it has been given. */
  function LastServed(l: Link): Option<Served> {
    if |l.talk.heard| < |l.talk.served| then Some(l.talk.served[|l.talk.heard|]) else None
  }

  function Apply(s: Setup, st: State, a: Action): (st': State)
    requires Shape(st) && Enabled(s, st, a)
    ensures |st'.workers| == |st.workers| && |st'.links| == |st.links|
  {
    match a
    case Borrow(w) =>
      st.(workers := st.workers[w := Holding(st.chan[0])], chan := st.chan[1..], taken := st.taken + [st.chan[0]])
    case Redial(w, world) =>
      var c := st.workers[w].c;
      var l := Ready(s, st.links[c], world);
      if l.broken then Logged(Move(st, w, l, Spent(c)), Entry(None, None, l.tail, Some(RedialFailed)))
      else Move(st, w, l, Writing(c))
    case WriteOk(w, ask) =>
      var c := st.workers[w].c;
      Move(st, w, Write(st.links[c], ask.request), Reading(c, ask))
    case WriteFail(w, ask) =>
      var c := st.workers[w].c;
      Logged(Move(st, w, st.links[c].(broken := true), Spent(c)),
             Entry(Some(ask), None, st.links[c].tail, Some(WriteFailed)))
    case Serve(c, answer) => st.(links := st.links[c := Answer(st.links[c], answer)])
    case ReadOne(w) =>
      var c, ask := st.workers[w].c, st.workers[w].ask;
      var l := st.links[c];
      var o := Response(RulesOn(s, l.tail), l.unread);
      Logged(Move(st, w, Took(l, o, Keeps(s)), Spent(c)),
             Entry(Some(ask), LastServed(l), l.tail, Judged(s, ask.payload, o)))
    case Return(w) =>
      var c := st.workers[w].c;
      st.(workers := st.workers[w := Free], chan := st.chan + [c], put := st.put + [c])
  }

  // ---- the invariant ----

  /** Nobody else has what a worker or the channel has. */
  predicate Apart(st: State) {
    && (forall i, j :: 0 <= i < j < |st.chan| ==> st.chan[i] != st.chan[j])
    && (forall i, w :: 0 <= i < |st.chan| && 0 <= w < |st.workers| && !st.workers[w].Free? ==> st.chan[i] != st.workers[w].c)
    && (forall v, w :: 0 <= v < w < |st.workers| && !st.workers[v].Free? && !st.workers[w].Free? ==>
          st.workers[v].c != st.workers[w].c)
  }

  /** What holds of the connection a worker has. */
  ghost predicate PlaceOk(s: Setup, links: seq<Link>, p: Place)
    requires !p.Free? ==> p.c < |links|
  {
    match p
    case Free => true
    case Holding(c) => InStep(s, links[c])
    case Writing(c) => InStep(s, links[c]) && !links[c].broken
    case Reading(c, ask) => Asking(s, links[c], ask.request) && SingleAnswer(RulesOn(s, links[c].tail), links[c].unread)
    case Spent(c) => InStep(s, links[c])
  }

  ghost predicate LinksOk(s: Setup, st: State)
    requires Shape(st)
  {
    && (forall i :: 0 <= i < |st.chan| ==> InStep(s, st.links[st.chan[i]]))
    && (forall w :: 0 <= w < |st.workers| ==> PlaceOk(s, st.links, st.workers[w]))
  }

  /** An operation is decided by the answer to its own request, or by none: the redial or
      the write failed, or the connection stopped. */
  predicate EntryOk(s: Setup, e: Entry) {
    && (e.ask.None? ==> e.ending == Some(RedialFailed))
    && (e.ask.Some? && e.ending != Some(WriteFailed) ==>
          && e.ending == Judged(s, e.ask.value.payload,
                                Response(RulesOn(s, e.tail), if e.served.Some? then e.served.value.answer else []))
          && (e.served.Some? ==> e.served.value.request == e.ask.value.request))
  }

  predicate LogOk(s: Setup, log: seq<Entry>) {
    forall i :: 0 <= i < |log| ==> EntryOk(s, log[i])
  }

  /** 1 for a worker with a connection. */
  const Busy := (p: Place) => if p.Free? then 0 else 1

  /** As many connections as there ever were are in the channel or in somebody's hands. */
  ghost predicate Conserved(st: State) {
    |st.chan| + Total(st.workers, Busy) == |st.links|
  }

  /** What was put in first has come out first, and the rest is there in order. */
  predicate Queued(st: State) {
    st.put == st.taken + st.chan
  }

  ghost predicate Inv(s: Setup, st: State) {
    Shape(st) && Apart(st) && LinksOk(s, st) && LogOk(s, st.log) && Conserved(st) && Queued(st)
  }

  // ---- every step keeps it ----

  lemma MoveLinks(s: Setup, st: State, w: nat, l: Link, p: Place)
    requires Shape(st) && Apart(st) && LinksOk(s, st)
    requires w < |st.workers| && !st.workers[w].Free? && !p.Free? && p.c == st.workers[w].c
    requires PlaceOk(s, st.links[p.c := l], p)
    ensures Shape(Move(st, w, l, p)) && LinksOk(s, Move(st, w, l, p))
  {
    var st' := Move(st, w, l, p);
    forall v | 0 <= v < |st'.workers|
      ensures PlaceOk(s, st'.links, st'.workers[v])
    {
      assert PlaceOk(s, st.links, st.workers[v]);
    }
  }

  /** A step of a worker on the connection it keeps. */
  lemma MoveStep(s: Setup, st: State, w: nat, l: Link, p: Place)
    requires Inv(s, st) && w < |st.workers| && !st.workers[w].Free? && !p.Free? && p.c == st.workers[w].c
    requires PlaceOk(s, st.links[p.c := l], p)
    ensures Inv(s, Move(st, w, l, p))
  {
    MoveLinks(s, st, w, l, p);
    TotalUpdate(st.workers, Busy, w, p);
  }

  lemma LogStep(s: Setup, st: State, e: Entry)
    requires Inv(s, st) && EntryOk(s, e)
    ensures Inv(s, Logged(st, e))
  {
  }

  lemma BorrowApart(s: Setup, st: State, w: nat)
    requires Shape(st) && Apart(st) && Queued(st) && Enabled(s, st, Borrow(w))
    ensures Apart(Apply(s, st, Borrow(w))) && Queued(Apply(s, st, Borrow(w)))
  {
    assert st.chan == [st.chan[0]] + st.chan[1..];
  }

  lemma BorrowStep(s: Setup, st: State, w: nat)
    requires Inv(s, st) && Enabled(s, st, Borrow(w))
    ensures Inv(s, Apply(s, st, Borrow(w)))
  {
    BorrowApart(s, st, w);
    TotalUpdate(st.workers, Busy, w, Holding(st.chan[0]));
    assert PlaceOk(s, st.links, Holding(st.chan[0]));
  }

  lemma ReturnApart(st: State, w: nat)
    requires Shape(st) && Apart(st) && w < |st.workers| && !st.workers[w].Free?
    ensures var c := st.workers[w].c;
      Apart(st.(workers := st.workers[w := Free], chan := st.chan + [c], put := st.put + [c]))
  {
  }

  lemma ReturnStep(s: Setup, st: State, w: nat)
    requires Inv(s, st) && Enabled(s, st, Return(w))
    ensures Inv(s, Apply(s, st, Return(w)))
  {
    TotalUpdate(st.workers, Busy, w, Free);
    ReturnApart(st, w);
    assert PlaceOk(s, st.links, st.workers[w]);
    var ws := st.workers[w := Free];
    forall v | 0 <= v < |ws|
      ensures PlaceOk(s, st.links, ws[v])
    {
      assert PlaceOk(s, st.links, st.workers[v]);
    }
  }

  lemma RedialStep(s: Setup, st: State, w: nat, world: World)
    requires Inv(s, st) && Enabled(s, st, Redial(w, world))
    ensures Inv(s, Apply(s, st, Redial(w, world)))
  {
    assert PlaceOk(s, st.links, st.workers[w]);
    var c := st.workers[w].c;
    var l := Ready(s, st.links[c], world);
    ReadyStep(s, st.links[c], world);
    MoveStep(s, st, w, l, if l.broken then Spent(c) else Writing(c));
    if l.broken { LogStep(s, Move(st, w, l, Spent(c)), Entry(None, None, l.tail, Some(RedialFailed))); }
  }

  lemma WriteStepOf(s: Setup, st: State, w: nat, ask: Ask)
    requires Inv(s, st) && Enabled(s, st, WriteOk(w, ask))
    ensures Inv(s, Apply(s, st, WriteOk(w, ask)))
  {
    assert PlaceOk(s, st.links, st.workers[w]);
    var c := st.workers[w].c;
    WriteStep(s, st.links[c], ask.request);
    MoveStep(s, st, w, Write(st.links[c], ask.request), Reading(c, ask));
  }

  lemma WriteFailStep(s: Setup, st: State, w: nat, ask: Ask)
    requires Inv(s, st) && Enabled(s, st, WriteFail(w, ask))
    ensures Inv(s, Apply(s, st, WriteFail(w, ask)))
  {
    assert PlaceOk(s, st.links, st.workers[w]);
    var c := st.workers[w].c;
    var l := st.links[c].(broken := true);
    MoveStep(s, st, w, l, Spent(c));
    LogStep(s, Move(st, w, l, Spent(c)), Entry(Some(ask), None, st.links[c].tail, Some(WriteFailed)));
  }

  lemma ReadStepOf(s: Setup, st: State, w: nat)
    requires Inv(s, st) && Enabled(s, st, ReadOne(w))
    ensures Inv(s, Apply(s, st, ReadOne(w)))
  {
    assert PlaceOk(s, st.links, st.workers[w]);
    var c, ask := st.workers[w].c, st.workers[w].ask;
    var l := st.links[c];
    var o := Response(RulesOn(s, l.tail), l.unread);
    var e := Entry(Some(ask), LastServed(l), l.tail, Judged(s, ask.payload, o));
    ReadStep(s, l, ask.request, Keeps(s));
    OwnServed(s, l, ask.request);
    MoveStep(s, st, w, Took(l, o, Keeps(s)), Spent(c));
    LogStep(s, Move(st, w, Took(l, o, Keeps(s)), Spent(c)), e);
  }

  /** What an asking connection has to read is the answer to what it asked, or nothing. */
  lemma OwnServed(s: Setup, l: Link, request: seq<byte>)
    requires Asking(s, l, request)
    ensures LastServed(l).Some? ==> LastServed(l).value.request == request
    ensures l.unread == if LastServed(l).Some? then LastServed(l).value.answer else []
  {
    assert l.talk.asked[|l.talk.heard|] == (RequestsOf(l.talk.served) + l.talk.pending)[|l.talk.heard|];
  }

  lemma ServeStep(s: Setup, st: State, c: nat, answer: seq<byte>)
    requires Inv(s, st) && Enabled(s, st, Serve(c, answer))
    ensures Inv(s, Apply(s, st, Serve(c, answer)))
  {
    var st' := Apply(s, st, Serve(c, answer));
    forall i | 0 <= i < |st'.chan|
      ensures InStep(s, st'.links[st'.chan[i]])
    {
      if st.chan[i] == c { LateAnswer(s, st.links[c], answer); }
    }
    forall w | 0 <= w < |st'.workers|
      ensures PlaceOk(s, st'.links, st'.workers[w])
    {
      var p := st.workers[w];
      assert PlaceOk(s, st.links, p);
      if !p.Free? && p.c == c {
        if p.Reading? {
          AnswerStep(s, st.links[c], p.ask.request, answer);
        } else {
          LateAnswer(s, st.links[c], answer);
        }
      }
    }
  }

  /** Between two operations only a broken connection is still waited on, and an answer
      changes nothing of that. */
  lemma LateAnswer(s: Setup, l: Link, answer: seq<byte>)
    requires InStep(s, l) && l.talk.pending != []
    ensures l.broken && InStep(s, Answer(l, answer))
  {
    AnswerFifo(l, answer);
  }

  /** Whatever step whichever worker or server takes. */
  lemma StepKeepsInv(s: Setup, st: State, a: Action)
    requires Inv(s, st) && Enabled(s, st, a)
    ensures Inv(s, Apply(s, st, a))
  {
    match a
    case Borrow(w) => BorrowStep(s, st, w);
    case Redial(w, world) => RedialStep(s, st, w, world);
    case WriteOk(w, ask) => WriteStepOf(s, st, w, ask);
    case WriteFail(w, ask) => WriteFailStep(s, st, w, ask);
    case Serve(c, answer) => ServeStep(s, st, c, answer);
    case ReadOne(w) => ReadStepOf(s, st, w);
    case Return(w) => ReturnStep(s, st, w);
  }

  // ---- every run ----

  /** The state a list of steps leads to, if each could be taken. */
  ghost function Run(s: Setup, links: seq<Link>, count: nat, steps: seq<Action>): Option<State> {
    if steps == [] then Some(Init(links, count))
    else
      var before := Run(s, links, count, steps[..|steps| - 1]);
      var a := steps[|steps| - 1];
      if before.Some? && Shape(before.value) && Enabled(s, before.value, a)
      then Some(Apply(s, before.value, a)) else None
  }

  lemma {:induction false} NoneBusy(count: nat)
    ensures Total(seq(count, _ => Free), Busy) == 0
  {
    var ws: seq<Place> := seq(count, _ => Free);
    if count > 0 {
      assert ws[..count - 1] == seq(count - 1, _ => Free);
      NoneBusy(count - 1);
    }
  }

  lemma InitInv(s: Setup, links: seq<Link>, count: nat)
    requires forall i :: 0 <= i < |links| ==> InStep(s, links[i])
    ensures Inv(s, Init(links, count))
  {
    NoneBusy(count);
  }

  lemma {:induction false} RunInv(s: Setup, links: seq<Link>, count: nat, steps: seq<Action>)
    requires forall i :: 0 <= i < |links| ==> InStep(s, links[i])
    ensures var r := Run(s, links, count, steps);
      r.Some? ==> Inv(s, r.value) && |r.value.workers| == count && |r.value.links| == |links|
  {
    if steps == [] {
      InitInv(s, links, count);
    } else {
      RunInv(s, links, count, steps[..|steps| - 1]);
      var before := Run(s, links, count, steps[..|steps| - 1]);
      var a := steps[|steps| - 1];
      if before.Some? && Enabled(s, before.value, a) {
        StepKeepsInv(s, before.value, a);
        assert Run(s, links, count, steps) == Some(Apply(s, before.value, a));
      }
    }
  }

  /** In every interleaving of the workers and the servers an idle connection is marked
      broken or in step: nothing left over, and the k-th response it has heard the answer to
      the k-th request it has asked. */
  lemma IdleInStep(s: Setup, links: seq<Link>, count: nat, steps: seq<Action>, i: nat, k: nat)
    requires forall j :: 0 <= j < |links| ==> InStep(s, links[j])
    requires Run(s, links, count, steps).Some? && i < |Run(s, links, count, steps).value.chan|
    ensures var st := Run(s, links, count, steps).value;
      && st.chan[i] < |st.links|
      && var l := st.links[st.chan[i]];
         InStep(s, l)
         && (!l.broken && k < |l.talk.asked| ==>
               && |l.talk.asked| == |l.talk.served| == |l.talk.heard|
               && l.talk.served[k].request == l.talk.asked[k]
               && Tells(RulesOn(s, l.tail), l.talk.served[k].answer, l.talk.heard[k]))
  {
    RunInv(s, links, count, steps);
    var st := Run(s, links, count, steps).value;
    var l := st.links[st.chan[i]];
    if !l.broken && k < |l.talk.asked| { InOrder(s, l, k); }
  }

  /** And every operation so far ended as the answer to its own request says, whoever else
      was at work, or without one. */
  lemma OwnAnswers(s: Setup, links: seq<Link>, count: nat, steps: seq<Action>, i: nat)
    requires forall j :: 0 <= j < |links| ==> InStep(s, links[j])
    requires Run(s, links, count, steps).Some? && i < |Run(s, links, count, steps).value.log|
    ensures EntryOk(s, Run(s, links, count, steps).value.log[i])
  {
    RunInv(s, links, count, steps);
  }

  /** In the servers' messages: an operation answered by a whole message ends as that message
      deserves. */
  lemma OwnVerdict(s: Setup, links: seq<Link>, count: nat, steps: seq<Action>, i: nat, m: Message)
    requires forall j :: 0 <= j < |links| ==> InStep(s, links[j])
    requires Run(s, links, count, steps).Some? && i < |Run(s, links, count, steps).value.log|
    requires WellFormed(RulesOn(s, Closed), m)
    requires var e := Run(s, links, count, steps).value.log[i];
      e.ask.Some? && e.ending != Some(WriteFailed) && e.served.Some? && e.served.value.answer == Render(m)
    ensures var e := Run(s, links, count, steps).value.log[i];
      && e.served.value.request == e.ask.value.request
      && RightEnding(s.check, e.ask.value.payload, m.status, BodyOf(m), e.ending)
  {
    OwnAnswers(s, links, count, steps, i);
    ReadWhole(RulesOn(s, Run(s, links, count, steps).value.log[i].tail), m);
  }

  /** Connections are borrowed in the order they were put into the channel, the first ones in
      their own. */
  lemma BorrowedInOrder(s: Setup, links: seq<Link>, count: nat, steps: seq<Action>)
    requires forall j :: 0 <= j < |links| ==> InStep(s, links[j])
    requires Run(s, links, count, steps).Some?
    ensures var st := Run(s, links, count, steps).value; var n := |st.taken|;
      && n <= |st.put| && st.taken == st.put[..n] && st.chan == st.put[n..]
      && |links| <= |st.put| && (forall i :: 0 <= i < |links| ==> st.put[i] == i)
  {
    RunInv(s, links, count, steps);
    PutFirst(s, links, count, steps);
  }

  lemma {:induction false} PutFirst(s: Setup, links: seq<Link>, count: nat, steps: seq<Action>)
    requires Run(s, links, count, steps).Some?
    ensures Ids(|links|) <= Run(s, links, count, steps).value.put
  {
    if steps != [] { PutFirst(s, links, count, steps[..|steps| - 1]); }
  }

  /** No connection is lost or borrowed twice: the channel never holds more than there are,
      and once the workers are done it holds each of them, once. */
  lemma NoneLost(s: Setup, links: seq<Link>, count: nat, steps: seq<Action>)
    requires forall j :: 0 <= j < |links| ==> InStep(s, links[j])
    requires Run(s, links, count, steps).Some?
    ensures var st := Run(s, links, count, steps).value;
      && |st.chan| <= |links| && Apart(st)
      && ((forall w :: 0 <= w < |st.workers| ==> st.workers[w].Free?) ==>
            |st.chan| == |links| && forall c :: 0 <= c < |links| ==> c in st.chan)
  {
    RunInv(s, links, count, steps);
    var st := Run(s, links, count, steps).value;
    if forall w :: 0 <= w < |st.workers| ==> st.workers[w].Free? {
      assert st.workers == seq(count, _ => Free);
      NoneBusy(count);
      AllThere(st.chan);
    }
  }

  function Elements(xs: seq<nat>): set<nat> {
    set x | x in xs
  }

  /** Different numbers below n, n of them, are all of them. */
  lemma AllThere(xs: seq<nat>)
    requires forall i, j :: 0 <= i < j < |xs| ==> xs[i] != xs[j]
    requires forall i :: 0 <= i < |xs| ==> xs[i] < |xs|
    ensures forall c :: 0 <= c < |xs| ==> c in xs
  {
    Different(xs);
    Different(Ids(|xs|));
    forall i | 0 <= i < |xs|
      ensures xs[i] in Elements(Ids(|xs|))
    {
      assert Ids(|xs|)[xs[i]] == xs[i];
    }
    SameSet(Elements(xs), Elements(Ids(|xs|)));
    forall c | 0 <= c < |xs|
      ensures c in xs
    {
      assert Ids(|xs|)[c] == c;
      assert c in Elements(Ids(|xs|));
    }
  }

  lemma {:induction false} Different(xs: seq<nat>)
    requires forall i, j :: 0 <= i < j < |xs| ==> xs[i] != xs[j]
    ensures |Elements(xs)| == |xs|
  {
    if xs == [] {
      assert Elements(xs) == {};
    } else {
      var n := |xs| - 1;
      Different(xs[..n]);
      assert xs == xs[..n] + [xs[n]];
      assert Elements(xs) == Elements(xs[..n]) + {xs[n]};
    }
  }

  lemma SameSet(a: set<nat>, b: set<nat>)
    requires a <= b && |a| == |b|
    ensures a == b
  {
    assert b == a + (b - a);
  }

  // ---- one worker alone ----

  /** The state some steps lead to. */
  ghost function Taken(s: Setup, st: State, steps: seq<Action>): Option<State>
    decreases |steps|
  {
    if steps == [] then Some(st)
    else if Shape(st) && Enabled(s, st, steps[0]) then Taken(s, Apply(s, st, steps[0]), steps[1..])
    else None
  }

  lemma TakenOne(s: Setup, st: State, a: Action, more: seq<Action>)
    requires Shape(st) && Enabled(s, st, a)
    ensures Taken(s, st, [a] + more) == Taken(s, Apply(s, st, a), more)
  {
    assert ([a] + more)[1..] == more;
  }

  /** The steps of an operation that is ready to write, its server answering in between. */
  function Exchange(w: nat, c: nat, op: Op): seq<Action> {
    var ask := Ask(op.request, op.payload);
    if op.world.writes then [WriteOk(w, ask)] + ([Serve(c, op.world.answer)] + ([ReadOne(w)] + []))
    else [WriteFail(w, ask)] + []
  }

  /** And from the redial on. */
  function Script(s: Setup, l: Link, w: nat, c: nat, op: Op): seq<Action> {
    [Redial(w, op.world)] + if Ready(s, l, op.world).broken then [] else Exchange(w, c, op)
  }

  /** The connection worker w has taken has become l, one operation more has ended, and it is
      about to be put back. */
  predicate OneMore(st: State, t: Option<State>, w: nat, c: nat, l: Link, ending: Option<EchoError>)
    requires c < |st.links| && w < |st.workers|
  {
    && t.Some? && t.value.links == st.links[c := l]
    && t.value.workers == st.workers[w := Spent(c)] && t.value.chan == st.chan
    && |t.value.log| == |st.log| + 1 && t.value.log[|st.log|].ending == ending
  }

  /** Its connection has become l, and the worker is at p with it. */
  predicate Midway(st: State, st': State, w: nat, c: nat, l: Link, p: Place)
    requires c < |st.links| && w < |st.workers|
  {
    && st'.links == st.links[c := l] && st'.workers == st.workers[w := p]
    && st'.chan == st.chan && st'.log == st.log
  }

  lemma FromMidway(st: State, st': State, t: Option<State>, w: nat, c: nat, m: Link, p: Place, l: Link, ending: Option<EchoError>)
    requires c < |st.links| == |st'.links| && w < |st.workers| == |st'.workers|
    requires Midway(st, st', w, c, m, p) && OneMore(st', t, w, c, l, ending)
    ensures OneMore(st, t, w, c, l, ending)
  {
    assert st.links[c := m][c := l] == st.links[c := l];
    assert st.workers[w := p][w := Spent(c)] == st.workers[w := Spent(c)];
  }

  lemma ReadAlone(s: Setup, st: State, w: nat, c: nat, ask: Ask)
    requires Shape(st) && w < |st.workers| && st.workers[w] == Reading(c, ask)
    ensures var l := st.links[c]; var o := Response(RulesOn(s, l.tail), l.unread);
      OneMore(st, Taken(s, st, [ReadOne(w)] + []), w, c, Took(l, o, Keeps(s)), Judged(s, ask.payload, o))
  {
    TakenOne(s, st, ReadOne(w), []);
  }

  /** The request written and its answer sent. */
  lemma SentAlone(s: Setup, st: State, w: nat, c: nat, op: Op, more: seq<Action>) returns (st': State)
    requires Shape(st) && w < |st.workers| && st.workers[w] == Writing(c)
    requires InStep(s, st.links[c]) && !st.links[c].broken
    requires SingleAnswer(RulesOn(s, st.links[c].tail), op.world.answer)
    ensures Shape(st') && Midway(st, st', w, c, Sent(st.links[c], op), Reading(c, Ask(op.request, op.payload)))
    ensures Taken(s, st, [WriteOk(w, Ask(op.request, op.payload))] + ([Serve(c, op.world.answer)] + more)) == Taken(s, st', more)
  {
    var ask := Ask(op.request, op.payload);
    var st1 := Apply(s, st, WriteOk(w, ask));
    st' := Apply(s, st1, Serve(c, op.world.answer));
    TakenOne(s, st, WriteOk(w, ask), [Serve(c, op.world.answer)] + more);
    TakenOne(s, st1, Serve(c, op.world.answer), more);
  }

  lemma ExchangeAlone(s: Setup, st: State, w: nat, c: nat, op: Op)
    requires Shape(st) && w < |st.workers| && st.workers[w] == Writing(c)
    requires InStep(s, st.links[c]) && !st.links[c].broken
    requires SingleAnswer(RulesOn(s, st.links[c].tail), op.world.answer)
    ensures OneMore(st, Taken(s, st, Exchange(w, c, op)), w, c, Conversed(s, st.links[c], op), ConversedEnding(s, st.links[c], op))
  {
    var ask := Ask(op.request, op.payload);
    if op.world.writes {
      var st' := SentAlone(s, st, w, c, op, [ReadOne(w)] + []);
      ReadAlone(s, st', w, c, ask);
      FromMidway(st, st', Taken(s, st', [ReadOne(w)] + []), w, c, Sent(st.links[c], op), Reading(c, ask),
                 Conversed(s, st.links[c], op), ConversedEnding(s, st.links[c], op));
    } else {
      TakenOne(s, st, WriteFail(w, ask), []);
    }
  }

  /** The redial, if it is one. */
  lemma RedialAlone(s: Setup, st: State, w: nat, c: nat, world: World, more: seq<Action>) returns (st': State)
    requires Shape(st) && w < |st.workers| && st.workers[w] == Holding(c)
    requires SingleAnswer(RulesOn(s, world.dialTail), world.dialAnswer)
    ensures var r := Ready(s, st.links[c], world);
      && Shape(st')
      && (r.broken ==> OneMore(st, Some(st'), w, c, r, Some(RedialFailed)))
      && (!r.broken ==> Midway(st, st', w, c, r, Writing(c)))
    ensures Taken(s, st, [Redial(w, world)] + more) == Taken(s, st', more)
  {
    st' := Apply(s, st, Redial(w, world));
    TakenOne(s, st, Redial(w, world), more);
  }

  /** Taken one behind the other, a worker's steps are the whole operation of its connection. */
  lemma AloneIsAfter(s: Setup, st: State, w: nat, c: nat, op: Op)
    requires Shape(st) && w < |st.workers| && st.workers[w] == Holding(c) && InStep(s, st.links[c])
    requires PeerSingle(s, op.world)
    ensures OneMore(st, Taken(s, st, Script(s, st.links[c], w, c, op)), w, c, After(s, st.links[c], op), EndingOf(s, st.links[c], op))
  {
    ReadyStep(s, st.links[c], op.world);
    var broken := Ready(s, st.links[c], op.world).broken;
    var st' := RedialAlone(s, st, w, c, op.world, if broken then [] else Exchange(w, c, op));
    if !broken {
      ExchangeAlone(s, st', w, c, op);
      FromMidway(st, st', Taken(s, st', Exchange(w, c, op)), w, c, Ready(s, st.links[c], op.world), Writing(c),
                 After(s, st.links[c], op), EndingOf(s, st.links[c], op));
    }
  }

  lemma {:induction false} TakenBoth(s: Setup, st: State, a: seq<Action>, b: seq<Action>)
    requires Taken(s, st, a).Some?
    ensures Taken(s, st, a + b) == Taken(s, Taken(s, st, a).value, b)
    decreases |a|
  {
    if a == [] {
      assert a + b == b;
    } else {
      assert (a + b)[1..] == a[1..] + b;
      TakenBoth(s, Apply(s, st, a[0]), a[1..], b);
    }
  }

  /** Whatever the others are at, a worker that is free can take the connection that has waited
      longest through a whole operation and put it back behind the others. */
  lemma WholeTurn(s: Setup, st: State, w: nat, op: Op) returns (steps: seq<Action>)
    requires Inv(s, st) && w < |st.workers| && st.workers[w].Free? && st.chan != [] && PeerSingle(s, op.world)
    ensures var c, t := st.chan[0], Taken(s, st, steps);
      && t.Some? && t.value.links == st.links[c := After(s, st.links[c], op)]
      && t.value.workers == st.workers && t.value.chan == st.chan[1..] + [c]
      && |t.value.log| == |st.log| + 1 && t.value.log[|st.log|].ending == EndingOf(s, st.links[c], op)
  {
    var c := st.chan[0];
    var st1 := Apply(s, st, Borrow(w));
    BorrowStep(s, st, w);
    assert PlaceOk(s, st1.links, st1.workers[w]);
    var script := Script(s, st.links[c], w, c, op);
    AloneIsAfter(s, st1, w, c, op);
    var st2 := Taken(s, st1, script).value;
    steps := [Borrow(w)] + (script + ([Return(w)] + []));
    TakenOne(s, st, Borrow(w), script + ([Return(w)] + []));
    TakenBoth(s, st1, script, [Return(w)] + []);
    ReturnAlone(s, st, st2, w, c);
  }

  lemma ReturnAlone(s: Setup, st: State, st2: State, w: nat, c: nat)
    requires Shape(st) && w < |st.workers| && st.workers[w].Free? && c < |st.links|
    requires |st2.links| == |st.links| && st2.workers == st.workers[w := Spent(c)]
    requires forall i :: 0 <= i < |st2.chan| ==> st2.chan[i] < |st.links|
    ensures var t := Taken(s, st2, [Return(w)] + []);
      t.Some? && t.value == st2.(workers := st.workers, chan := st2.chan + [c], put := st2.put + [c])
  {
    TakenOne(s, st2, Return(w), []);
    assert st2.workers[w := Free] == st.workers;
  }
}
