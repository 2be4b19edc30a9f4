/** Work taken off one shared counter: the dialing of the connections, and with one try a
    ticket and no list to fill, a phase of the echo benchmark. */
module Tickets {
  import opened Options
  import opened Sums

  datatype Place =
    | Fetching                          // about to draw a ticket
    | Working(ticket: nat, tries: nat)  // so many attempts at it have failed
    | Dialed(ticket: nat)               // its cost recorded
    | Counted(ticket: nat)              // success counted
    | Stopped

  datatype Task = Task(place: Place, costs: nat, failed: nat, added: nat, pushed: nat, dials: nat)

  datatype Claim = Claim(task: nat, ticket: nat)

  /** next, serverIdx, success and conns are shared; log is who drew what, in order, tried
      how many dials of each ticket failed, and lost the tickets given up. */
  datatype State = State(tasks: seq<Task>, next: nat, serverIdx: nat, success: nat, conns: seq<nat>,
                         log: seq<Claim>, tried: seq<nat>, lost: seq<nat>)

  datatype Action = Fetch(t: nat) | FailTry(t: nat) | DialOk(t: nat) | AddSuccess(t: nat) | Push(t: nat)

  function Init(count: nat): State {
    State(seq(count, _ => Task(Fetching, 0, 0, 0, 0, 0)), 0, 0, 0, [], [], [], [])
  }

  predicate Enabled(s: State, a: Action) {
    && a.t < |s.tasks|
    && var p := s.tasks[a.t].place;
       match a
       case Fetch(_) => p.Fetching?
       case FailTry(_) => p.Working? && p.ticket < |s.tried|
       case DialOk(_) => p.Working?
       case AddSuccess(_) => p.Dialed?
       case Push(_) => p.Counted?
  }

  function SetTask(s: State, t: nat, x: Task): State
    requires t < |s.tasks|
  {
    s.(tasks := s.tasks[t := x])
  }

  function Apply(total: nat, retries: nat, s: State, a: Action): State
    requires Enabled(s, a)
  {
    var t, x := a.t, s.tasks[a.t];
    match a
    case Fetch(_) =>
      if s.next < total then
        SetTask(s, t, x.(place := Working(s.next, 0))).(next := s.next + 1, log := s.log + [Claim(t, s.next)], tried := s.tried + [0])
      else SetTask(s, t, x.(place := Stopped)).(next := s.next + 1)
    case FailTry(_) =>
      var i, y := x.place.ticket, x.(dials := x.dials + 1);
      (if x.place.tries + 1 < retries then SetTask(s, t, y.(place := Working(i, x.place.tries + 1)))
       else SetTask(s, t, y.(place := Fetching, failed := x.failed + 1)).(lost := s.lost + [i]))
        .(serverIdx := s.serverIdx + 1, tried := s.tried[i := s.tried[i] + 1])
    case DialOk(_) =>
      SetTask(s, t, x.(place := Dialed(x.place.ticket), costs := x.costs + 1, dials := x.dials + 1))
        .(serverIdx := s.serverIdx + 1)
    case AddSuccess(_) =>
      SetTask(s, t, x.(place := Counted(x.place.ticket), added := x.added + 1)).(success := s.success + 1)
    case Push(_) =>
      SetTask(s, t, x.(place := Fetching, pushed := x.pushed + 1)).(conns := s.conns + [x.place.ticket])
  }

  /** The state a list of steps leads to. */
  function Run(count: nat, total: nat, retries: nat, steps: seq<Action>): Option<State> {
    if steps == [] then Some(Init(count))
    else
      var before := Run(count, total, retries, steps[..|steps| - 1]);
      var a := steps[|steps| - 1];
      if before.Some? && Enabled(before.value, a) then Some(Apply(total, retries, before.value, a)) else None
  }

  // ---- the invariant ----

  predicate InHand(p: Place) {
    p.Working? || p.Dialed? || p.Counted?
  }

  /** A task's own counts, and the ticket in its hand. */
  predicate TaskOk(s: State, total: nat, retries: nat, t: nat)
    requires t < |s.tasks|
  {
    var x := s.tasks[t];
    && x.costs == x.added + (if x.place.Dialed? then 1 else 0)
    && x.added == x.pushed + (if x.place.Counted? then 1 else 0)
    && (InHand(x.place) ==> x.place.ticket < |s.log| && s.log[x.place.ticket].task == t
                            && x.place.ticket !in s.conns && x.place.ticket !in s.lost)
    && (x.place.Stopped? ==> s.next > total)
    && (x.place.Working? ==> x.place.tries < retries)
  }

  /** Its dials, one at least for each connection, all there may be for each ticket lost, and
      never more than may be. */
  predicate DialsOk(retries: nat, x: Task) {
    var tries := if x.place.Working? then x.place.tries else 0;
    x.costs + retries * x.failed + tries <= x.dials <= retries * (x.costs + x.failed) + tries
  }

  predicate AllDialsOk(s: State, retries: nat) {
    forall t :: 0 <= t < |s.tasks| ==> DialsOk(retries, s.tasks[t])
  }

  predicate TasksOk(s: State, total: nat, retries: nat) {
    forall t :: 0 <= t < |s.tasks| ==> TaskOk(s, total, retries, t)
  }

  predicate LogOk(s: State, total: nat) {
    && |s.log| == Min(s.next, total)
    && (forall i :: 0 <= i < |s.log| ==> s.log[i].ticket == i && s.log[i].task < |s.tasks|)
    && (forall i :: 0 <= i < |s.conns| ==> s.conns[i] < |s.log|)
    && (forall i, j :: 0 <= i < j < |s.conns| ==> s.conns[i] != s.conns[j])
    && (forall i :: 0 <= i < |s.lost| ==> s.lost[i] < |s.log| && s.lost[i] !in s.conns)
    && (forall i, j :: 0 <= i < j < |s.lost| ==> s.lost[i] != s.lost[j])
  }

  /** How many dials of a ticket have failed: fewer than may be while it is in hand or a
      connection, and if it is lost all of them. */
  predicate TriedOk(s: State, retries: nat) {
    && |s.tried| == |s.log|
    && (forall i :: 0 <= i < |s.conns| ==> s.conns[i] < |s.tried| && s.tried[s.conns[i]] < retries)
    && (forall i :: 0 <= i < |s.lost| ==> s.lost[i] < |s.tried| && s.tried[s.lost[i]] == retries)
    && (forall t :: 0 <= t < |s.tasks| ==> TriedInHand(s.tasks[t].place, s.tried, retries))
    && s.serverIdx == Total(s.tried, Failures) + Total(s.tasks, CostsOf)
  }

  predicate TriedInHand(p: Place, tried: seq<nat>, retries: nat) {
    InHand(p) ==> p.ticket < |tried| && tried[p.ticket] < retries && (p.Working? ==> tried[p.ticket] == p.tries)
  }

  const Failures := (n: nat) => n

  /** A ticket drawn is in the hand of the task that drew it, a connection, or lost. */
  predicate Somewhere(s: State, i: nat)
    requires i < |s.log| && s.log[i].task < |s.tasks|
  {
    || i in s.conns || i in s.lost
    || var p := s.tasks[s.log[i].task].place; InHand(p) && p.ticket == i
  }

  predicate AllSomewhere(s: State) {
    forall i :: 0 <= i < |s.log| ==> s.log[i].task < |s.tasks| && Somewhere(s, i)
  }

  const CostsOf := (x: Task) => x.costs
  const FailedOf := (x: Task) => x.failed
  const AddedOf := (x: Task) => x.added
  const PushedOf := (x: Task) => x.pushed
  const DialsOf := (x: Task) => x.dials
  /** The tickets a task has drawn. */
  const DrawnOf := (x: Task) => x.costs + x.failed + if x.place.Working? then 1 else 0

  predicate TotalsOk(s: State) {
    && Total(s.tasks, DrawnOf) == |s.log|
    && Total(s.tasks, AddedOf) == s.success
    && Total(s.tasks, PushedOf) == |s.conns|
    && Total(s.tasks, FailedOf) == |s.lost|
    && Total(s.tasks, DialsOf) == s.serverIdx
  }

  predicate Inv(s: State, total: nat, retries: nat) {
    retries >= 1 && TasksOk(s, total, retries) && AllDialsOk(s, retries) && LogOk(s, total)
    && TriedOk(s, retries) && AllSomewhere(s) && TotalsOk(s)
  }

  // ---- every step keeps it, part by part ----

  lemma TasksKept(s: State, total: nat, retries: nat, a: Action)
    requires Inv(s, total, retries) && Enabled(s, a)
    ensures TasksOk(Apply(total, retries, s, a), total, retries)
  {
    var s' := Apply(total, retries, s, a);
    assert TaskOk(s, total, retries, a.t);
    forall t | 0 <= t < |s'.tasks|
      ensures TaskOk(s', total, retries, t)
    {
      if t != a.t { OtherTask(s, s', total, retries, a.t, t); }
    }
  }

  /** A step of task u leaves what holds of task t. */
  lemma OtherTask(s: State, s': State, total: nat, retries: nat, u: nat, t: nat)
    requires TasksOk(s, total, retries) && u < |s.tasks| && t < |s.tasks| == |s'.tasks| && t != u
    requires s'.tasks[t] == s.tasks[t] && s.log <= s'.log && s.next <= s'.next
    requires s'.conns == s.conns
      || (InHand(s.tasks[u].place) && s'.conns == s.conns + [s.tasks[u].place.ticket])
    requires s'.lost == s.lost
      || (InHand(s.tasks[u].place) && s'.lost == s.lost + [s.tasks[u].place.ticket])
    ensures TaskOk(s', total, retries, t)
  {
    assert TaskOk(s, total, retries, t) && TaskOk(s, total, retries, u);
  }

  lemma DialsKept(s: State, total: nat, retries: nat, a: Action)
    requires Inv(s, total, retries) && Enabled(s, a)
    ensures AllDialsOk(Apply(total, retries, s, a), retries)
  {
    var s' := Apply(total, retries, s, a);
    var x := s.tasks[a.t];
    assert TaskOk(s, total, retries, a.t) && DialsOk(retries, x);
    Distribute(retries, x.costs + x.failed, 1);
    Distribute(retries, x.failed, 1);
    assert DialsOk(retries, s'.tasks[a.t]);
  }

  lemma LogKept(s: State, total: nat, retries: nat, a: Action)
    requires Inv(s, total, retries) && Enabled(s, a)
    ensures LogOk(Apply(total, retries, s, a), total)
  {
    assert TaskOk(s, total, retries, a.t);
  }

  lemma TriedKept(s: State, total: nat, retries: nat, a: Action)
    requires Inv(s, total, retries) && Enabled(s, a)
    ensures TriedOk(Apply(total, retries, s, a), retries)
  {
    var s' := Apply(total, retries, s, a);
    assert TaskOk(s, total, retries, a.t) && TriedInHand(s.tasks[a.t].place, s.tried, retries);
    forall t | 0 <= t < |s'.tasks|
      ensures TriedInHand(s'.tasks[t].place, s'.tried, retries)
    {
      assert TaskOk(s, total, retries, t) && TriedInHand(s.tasks[t].place, s.tried, retries);
    }
    DialsSum(s, s', total, retries, a);
  }

  lemma DialsSum(s: State, s': State, total: nat, retries: nat, a: Action)
    requires Enabled(s, a) && s' == Apply(total, retries, s, a)
    requires s.serverIdx == Total(s.tried, Failures) + Total(s.tasks, CostsOf)
    ensures s'.serverIdx == Total(s'.tried, Failures) + Total(s'.tasks, CostsOf)
  {
    TotalUpdate(s.tasks, CostsOf, a.t, s'.tasks[a.t]);
    if a.FailTry? {
      var i := s.tasks[a.t].place.ticket;
      TotalUpdate(s.tried, Failures, i, s.tried[i] + 1);
    } else if a.Fetch? && s.next < total {
      assert s'.tried[..|s.tried|] == s.tried;
    }
  }

  lemma SomewhereKept(s: State, total: nat, retries: nat, a: Action)
    requires Inv(s, total, retries) && Enabled(s, a)
    ensures AllSomewhere(Apply(total, retries, s, a))
  {
    var s' := Apply(total, retries, s, a);
    assert TaskOk(s, total, retries, a.t);
    forall i | 0 <= i < |s'.log|
      ensures s'.log[i].task < |s'.tasks| && Somewhere(s', i)
    {
      if i < |s.log| { assert Somewhere(s, i) && s'.log[i] == s.log[i]; }
    }
  }

  /** One task's change leaves every sum right that changes with it. */
  lemma TotalsStep(xs: seq<Task>, t: nat, x: Task)
    requires t < |xs|
    ensures Total(xs[t := x], DrawnOf) == Total(xs, DrawnOf) - DrawnOf(xs[t]) + DrawnOf(x)
    ensures Total(xs[t := x], AddedOf) == Total(xs, AddedOf) - xs[t].added + x.added
    ensures Total(xs[t := x], PushedOf) == Total(xs, PushedOf) - xs[t].pushed + x.pushed
    ensures Total(xs[t := x], FailedOf) == Total(xs, FailedOf) - xs[t].failed + x.failed
    ensures Total(xs[t := x], DialsOf) == Total(xs, DialsOf) - xs[t].dials + x.dials
  {
    TotalUpdate(xs, DrawnOf, t, x);
    TotalUpdate(xs, AddedOf, t, x);
    TotalUpdate(xs, PushedOf, t, x);
    TotalUpdate(xs, FailedOf, t, x);
    TotalUpdate(xs, DialsOf, t, x);
  }

  lemma TotalsKept(s: State, total: nat, retries: nat, a: Action)
    requires Inv(s, total, retries) && Enabled(s, a)
    ensures TotalsOk(Apply(total, retries, s, a))
  {
    TotalsStep(s.tasks, a.t, Apply(total, retries, s, a).tasks[a.t]);
  }

  lemma StepKeepsInv(s: State, total: nat, retries: nat, a: Action)
    requires Inv(s, total, retries) && Enabled(s, a)
    ensures Inv(Apply(total, retries, s, a), total, retries)
  {
    TasksKept(s, total, retries, a);
    DialsKept(s, total, retries, a);
    LogKept(s, total, retries, a);
    TriedKept(s, total, retries, a);
    SomewhereKept(s, total, retries, a);
    TotalsKept(s, total, retries, a);
  }

  lemma {:induction false} RunInv(count: nat, total: nat, retries: nat, steps: seq<Action>)
    requires retries >= 1
    ensures var r := Run(count, total, retries, steps);
      r.Some? ==> |r.value.tasks| == count && Inv(r.value, total, retries)
  {
    if steps == [] {
      var s := Init(count);
      TotalBound(s.tasks, DrawnOf, 0);
      TotalBound(s.tasks, AddedOf, 0);
      TotalBound(s.tasks, FailedOf, 0);
      TotalBound(s.tasks, PushedOf, 0);
      TotalBound(s.tasks, DialsOf, 0);
      TotalBound(s.tasks, CostsOf, 0);
    } else {
      RunInv(count, total, retries, steps[..|steps| - 1]);
      var before := Run(count, total, retries, steps[..|steps| - 1]);
      if before.Some? && Enabled(before.value, steps[|steps| - 1]) {
        StepKeepsInv(before.value, total, retries, steps[|steps| - 1]);
      }
    }
  }

  const SettledOf := (x: Task) => x.costs + x.failed

  lemma {:induction false} TotalSettled(xs: seq<Task>)
    ensures Total(xs, SettledOf) == Total(xs, CostsOf) + Total(xs, FailedOf)
  {
    if xs != [] { TotalSettled(xs[..|xs| - 1]); }
  }

  /** In every interleaving each ticket is drawn once, by one task, in order, and no
      connection is listed twice. */
  lemma DrawnOnce(count: nat, total: nat, retries: nat, steps: seq<Action>)
    requires retries >= 1 && Run(count, total, retries, steps).Some?
    ensures var s := Run(count, total, retries, steps).value;
      && |s.log| == Min(s.next, total)
      && (forall i :: 0 <= i < |s.log| ==> s.log[i].ticket == i && s.log[i].task < count)
      && (forall i, j :: 0 <= i < j < |s.conns| ==> s.conns[i] != s.conns[j])
      && Total(s.tasks, DrawnOf) == |s.log|
  {
    RunInv(count, total, retries, steps);
  }

  /** A ticket is lost after exactly so many failed dials as there may be, never before, and
      becomes a connection after fewer; and every dial is one that failed or a connection. */
  lemma LostAfterAll(count: nat, total: nat, retries: nat, steps: seq<Action>)
    requires retries >= 1 && Run(count, total, retries, steps).Some?
    ensures var s := Run(count, total, retries, steps).value;
      && |s.tried| == |s.log|
      && (forall i :: i in s.lost ==> i < |s.tried| && s.tried[i] == retries)
      && (forall i :: i in s.conns ==> i < |s.tried| && s.tried[i] < retries)
      && s.serverIdx == Total(s.tried, Failures) + Total(s.tasks, CostsOf)
  {
    RunInv(count, total, retries, steps);
  }

  /** When the tasks have stopped every ticket was drawn and is a connection or lost, none
      both and none listed twice; success counts the connections and failed the lost ones;
      each connection took a dial at least, each ticket lost all there may be, and none
      took more. */
  lemma AllAccountedFor(count: nat, total: nat, retries: nat, steps: seq<Action>)
    requires count >= 1 && retries >= 1 && Run(count, total, retries, steps).Some?
    requires var s := Run(count, total, retries, steps).value;
      forall t :: 0 <= t < |s.tasks| ==> s.tasks[t].place.Stopped?
    ensures var s := Run(count, total, retries, steps).value;
      && |s.log| == total
      && (forall i :: 0 <= i < total ==> (i in s.conns) != (i in s.lost))
      && (forall i, j :: 0 <= i < j < |s.conns| ==> s.conns[i] != s.conns[j])
      && Total(s.tasks, FailedOf) == |s.lost|
      && Total(s.tasks, CostsOf) + Total(s.tasks, FailedOf) == total
      && s.success == |s.conns| == Total(s.tasks, CostsOf)
      && |s.conns| + retries * |s.lost| <= s.serverIdx <= retries * total
  {
    RunInv(count, total, retries, steps);
    var s := Run(count, total, retries, steps).value;
    assert TaskOk(s, total, retries, 0);
    EachOnce(s, total, retries);
    SuccessTotals(s, total, retries);
    DialTotals(s, total, retries);
  }

  lemma SuccessTotals(s: State, total: nat, retries: nat)
    requires Inv(s, total, retries) && forall t :: 0 <= t < |s.tasks| ==> s.tasks[t].place.Stopped?
    ensures Total(s.tasks, CostsOf) + Total(s.tasks, FailedOf) == |s.log|
    ensures s.success == |s.conns| == Total(s.tasks, CostsOf)
  {
    forall t | 0 <= t < |s.tasks|
      ensures DrawnOf(s.tasks[t]) == SettledOf(s.tasks[t])
      ensures CostsOf(s.tasks[t]) == AddedOf(s.tasks[t]) == PushedOf(s.tasks[t])
    {
      assert TaskOk(s, total, retries, t);
    }
    SameTotal(s.tasks, DrawnOf, SettledOf);
    SameTotal(s.tasks, CostsOf, AddedOf);
    SameTotal(s.tasks, AddedOf, PushedOf);
    TotalSettled(s.tasks);
  }

  lemma DialTotals(s: State, total: nat, retries: nat)
    requires Inv(s, total, retries) && forall t :: 0 <= t < |s.tasks| ==> s.tasks[t].place.Stopped?
    ensures Total(s.tasks, CostsOf) + retries * Total(s.tasks, FailedOf) <= s.serverIdx
    ensures s.serverIdx <= retries * (Total(s.tasks, CostsOf) + Total(s.tasks, FailedOf))
  {
    assert forall t :: 0 <= t < |s.tasks| ==> DialsOk(retries, s.tasks[t]);
    DialsWithin(s.tasks, retries);
    DialsAtLeast(s.tasks, retries);
    TotalSettled(s.tasks);
  }

  /** With the tasks stopped no ticket is in hand. */
  lemma EachOnce(s: State, total: nat, retries: nat)
    requires Inv(s, total, retries) && forall t :: 0 <= t < |s.tasks| ==> s.tasks[t].place.Stopped?
    ensures forall i :: 0 <= i < |s.log| ==> (i in s.conns) != (i in s.lost)
  {
    forall i | 0 <= i < |s.log|
      ensures (i in s.conns) != (i in s.lost)
    {
      assert Somewhere(s, i);
      if i in s.lost {
        var j :| 0 <= j < |s.lost| && s.lost[j] == i;
      }
    }
  }

  lemma SameTotal(xs: seq<Task>, f: Task -> nat, g: Task -> nat)
    requires forall t :: 0 <= t < |xs| ==> f(xs[t]) == g(xs[t])
    ensures Total(xs, f) == Total(xs, g)
  {
    TotalLeq(xs, f, g);
    TotalLeq(xs, g, f);
  }

  lemma {:induction false} DialsWithin(xs: seq<Task>, retries: nat)
    requires forall t :: 0 <= t < |xs| ==> DialsOf(xs[t]) <= retries * SettledOf(xs[t])
    ensures Total(xs, DialsOf) <= retries * Total(xs, SettledOf)
  {
    if xs != [] {
      var n := |xs| - 1;
      assert forall t :: 0 <= t < n ==> xs[..n][t] == xs[t];
      DialsWithin(xs[..n], retries);
      Distribute(retries, Total(xs[..n], SettledOf), SettledOf(xs[n]));
    }
  }

  lemma {:induction false} DialsAtLeast(xs: seq<Task>, retries: nat)
    requires forall t :: 0 <= t < |xs| ==> CostsOf(xs[t]) + retries * FailedOf(xs[t]) <= DialsOf(xs[t])
    ensures Total(xs, CostsOf) + retries * Total(xs, FailedOf) <= Total(xs, DialsOf)
  {
    if xs != [] {
      var n := |xs| - 1;
      assert forall t :: 0 <= t < n ==> xs[..n][t] == xs[t];
      DialsAtLeast(xs[..n], retries);
      Distribute(retries, Total(xs[..n], FailedOf), FailedOf(xs[n]));
    }
  }

  // ---- what can happen ----

  lemma Extend(count: nat, total: nat, retries: nat, steps: seq<Action>, a: Action)
    requires Run(count, total, retries, steps).Some? && Enabled(Run(count, total, retries, steps).value, a)
    ensures Run(count, total, retries, steps + [a])
      == Some(Apply(total, retries, Run(count, total, retries, steps).value, a))
  {
    assert (steps + [a])[..|steps|] == steps;
  }

  /** A ticket fails some more dials and is still in hand. */
  lemma {:induction false} FailsOn(count: nat, total: nat, retries: nat, steps: seq<Action>, t: nat, i: nat, j: nat, k: nat)
    returns (steps': seq<Action>)
    requires var r := Run(count, total, retries, steps);
      r.Some? && t < |r.value.tasks| && r.value.tasks[t].place == Working(i, j) && i < |r.value.tried|
    requires j <= k < retries
    ensures var r, r' := Run(count, total, retries, steps), Run(count, total, retries, steps');
      && r'.Some? && |r'.value.tasks| == |r.value.tasks| && r'.value.tasks[t].place == Working(i, k)
      && |r'.value.tried| == |r.value.tried| && r'.value.conns == r.value.conns && r'.value.lost == r.value.lost
    decreases k - j
  {
    steps' := steps;
    if j < k {
      Extend(count, total, retries, steps, FailTry(t));
      steps' := FailsOn(count, total, retries, steps + [FailTry(t)], t, i, j + 1, k);
    }
  }

  /** Whatever has happened, a task that is free can draw the next ticket, fail any number of
      its dials, and get a connection by the next; or fail them all and lose it. */
  lemma TicketEnds(count: nat, total: nat, retries: nat, steps: seq<Action>, t: nat, fails: nat)
    returns (steps': seq<Action>)
    requires retries >= 1 && fails <= retries
    requires var r := Run(count, total, retries, steps);
      r.Some? && t < |r.value.tasks| && r.value.tasks[t].place.Fetching? && r.value.next < total
    ensures var s, r' := Run(count, total, retries, steps).value, Run(count, total, retries, steps');
      && r'.Some? && |r'.value.tasks| == |s.tasks| && r'.value.tasks[t].place.Fetching?
      && r'.value.conns == (if fails < retries then s.conns + [s.next] else s.conns)
      && r'.value.lost == (if fails < retries then s.lost else s.lost + [s.next])
  {
    RunInv(count, total, retries, steps);
    var i := Run(count, total, retries, steps).value.next;
    Extend(count, total, retries, steps, Fetch(t));
    steps' := steps + [Fetch(t)];
    steps' := FailsOn(count, total, retries, steps', t, i, 0, if fails < retries then fails else retries - 1);
    if fails < retries {
      Extend(count, total, retries, steps', DialOk(t));
      steps' := steps' + [DialOk(t)];
      Extend(count, total, retries, steps', AddSuccess(t));
      steps' := steps' + [AddSuccess(t)];
      Extend(count, total, retries, steps', Push(t));
      steps' := steps' + [Push(t)];
    } else {
      Extend(count, total, retries, steps', FailTry(t));
      steps' := steps' + [FailTry(t)];
    }
  }
}
