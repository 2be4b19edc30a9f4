/** A phase of the echo benchmark: tasks that draw their operations from one counter, and
    their counts put together at the end. */
module EchoPhase {
  import opened Options
  import opened Links
  import opened EchoRuns
  import opened Sums
  import Teams
  import Tickets

  // ---- counts put together ----

  function Seen<K>(errors: map<K, nat>, e: K): nat {
    if e in errors then errors[e] else 0
  }

  function Together<K>(a: map<K, nat>, b: map<K, nat>): (m: map<K, nat>)
    ensures m.Keys == a.Keys + b.Keys
    ensures forall e :: e in m ==> m[e] == Seen(a, e) + Seen(b, e)
  {
    map e | e in a.Keys + b.Keys :: Seen(a, e) + Seen(b, e)
  }

  function Merge(a: Tally, b: Tally): Tally {
    Tally(a.costs + b.costs, a.failed + b.failed, Together(a.errors, b.errors))
  }

  function MergeAll(ts: seq<Tally>): Tally {
    if ts == [] then Tally(0, 0, map[]) else Merge(MergeAll(ts[..|ts| - 1]), ts[|ts| - 1])
  }

  /** The counts of sum are those of errors with those of more for these keys. */
  ghost predicate Added<K>(errors: map<K, nat>, more: map<K, nat>, done: set<K>, sum: map<K, nat>) {
    && done <= more.Keys && sum.Keys == errors.Keys + done
    && forall k :: k in sum ==> sum[k] == Seen(errors, k) + if k in done then more[k] else 0
  }

  lemma AddedOne<K>(errors: map<K, nat>, more: map<K, nat>, done: set<K>, sum: map<K, nat>, e: K)
    requires Added(errors, more, done, sum) && e in more && e !in done
    ensures Added(errors, more, done + {e}, sum[e := Seen(sum, e) + more[e]])
  {
  }

  lemma AddedAll<K>(errors: map<K, nat>, more: map<K, nat>, sum: map<K, nat>)
    requires Added(errors, more, more.Keys, sum)
    ensures sum == Together(errors, more)
  {
  }

  /** One task's errors added to those of the tasks before it. */
  method AddErrors<K(==)>(errors: map<K, nat>, more: map<K, nat>) returns (sum: map<K, nat>)
    ensures sum == Together(errors, more)
  {
    sum := errors;
    var left := more.Keys;
    ghost var done: set<K> := {};
    while left != {}
      invariant Added(errors, more, done, sum) && left == more.Keys - done
      decreases left
    {
      var e :| e in left;
      ghost var was := sum;
      sum := sum[e := Seen(sum, e) + more[e]];
      assert Added(errors, more, done + {e}, sum) by { AddedOne(errors, more, done, was, e); }
      left, done := left - {e}, done + {e};
    }
    assert done == more.Keys;
    AddedAll(errors, more, sum);
  }

  /** The tasks' counts, one after the other. */
  method Collect(tallies: seq<Tally>) returns (t: Tally)
    ensures t == MergeAll(tallies)
  {
    t := Tally(0, 0, map[]);
    for i := 0 to |tallies|
      invariant t == MergeAll(tallies[..i])
    {
      assert tallies[..i + 1][..i] == tallies[..i];
      var errors := AddErrors(t.errors, tallies[i].errors);
      t := Tally(t.costs + tallies[i].costs, t.failed + tallies[i].failed, errors);
    }
    assert tallies[..|tallies|] == tallies;
  }

  lemma {:induction false} FlattenLast<T>(groups: seq<seq<T>>)
    requires groups != []
    ensures var n := |groups| - 1;
      multiset(Teams.Flatten(groups)) == multiset(Teams.Flatten(groups[..n])) + multiset(groups[n])
  {
    var n := |groups| - 1;
    if n > 0 {
      FlattenLast(groups[1..]);
      assert groups[..n][1..] == groups[1..][..n - 1] && groups[..n][0] == groups[0];
    } else {
      assert groups[1..] == [] && groups[..0] == [];
    }
  }

  /** They are the counts of all the operations, whoever made them. */
  lemma {:induction false} MergedAre(endings: seq<seq<Option<EchoError>>>, tallies: seq<Tally>, e: EchoError)
    requires |tallies| == |endings| && forall t :: 0 <= t < |endings| ==> tallies[t] == Counted(endings[t])
    ensures var all, m := Teams.Flatten(endings), MergeAll(tallies);
      && m.costs == multiset(all)[None] && m.costs + m.failed == |all|
      && Seen(m.errors, e) == multiset(all)[Some(e)]
  {
    if endings != [] {
      var n := |endings| - 1;
      MergedAre(endings[..n], tallies[..n], e);
      CountedAre(endings[n], e);
      FlattenLast(endings);
      SameLength(Teams.Flatten(endings), Teams.Flatten(endings[..n]), endings[n]);
    }
  }

  lemma SameLength<T>(all: seq<T>, a: seq<T>, b: seq<T>)
    requires multiset(all) == multiset(a) + multiset(b)
    ensures |all| == |a| + |b|
  {
    assert |multiset(all)| == |all| && |multiset(a)| == |a| && |multiset(b)| == |b|;
  }

  // ---- tickets ----

  /** How many tickets a task has drawn. */
  function DrawnBy(log: seq<Tickets.Claim>, t: nat): nat {
    if log == [] then 0
    else DrawnBy(log[..|log| - 1], t) + if log[|log| - 1].task == t then 1 else 0
  }

  /** The tickets of the first n tasks. */
  function DrawnUpTo(log: seq<Tickets.Claim>, n: nat): nat {
    if n == 0 then 0 else DrawnUpTo(log, n - 1) + DrawnBy(log, n - 1)
  }

  lemma {:induction false} OneMoreDrawn(log: seq<Tickets.Claim>, c: Tickets.Claim, n: nat)
    ensures DrawnUpTo(log + [c], n) == DrawnUpTo(log, n) + if c.task < n then 1 else 0
  {
    if n > 0 {
      OneMoreDrawn(log, c, n - 1);
      assert (log + [c])[..|log|] == log;
    }
  }

  /** Every ticket is some task's. */
  lemma {:induction false} AllDrawn(log: seq<Tickets.Claim>, count: nat)
    requires forall i :: 0 <= i < |log| ==> log[i].task < count
    ensures DrawnUpTo(log, count) == |log|
  {
    if log == [] {
      NoneDrawn(count);
    } else {
      var n := |log| - 1;
      AllDrawn(log[..n], count);
      OneMoreDrawn(log[..n], log[n], count);
      assert log == log[..n] + [log[n]];
    }
  }

  lemma {:induction false} NoneDrawn(n: nat)
    ensures DrawnUpTo([], n) == 0
  {
    if n > 0 { NoneDrawn(n - 1); }
  }

  /** Tasks with an operation for each ticket have as many as there are tickets. */
  lemma {:induction false} FlattenLength(endings: seq<seq<Option<EchoError>>>, log: seq<Tickets.Claim>)
    requires forall t :: 0 <= t < |endings| ==> |endings[t]| == DrawnBy(log, t)
    ensures |Teams.Flatten(endings)| == DrawnUpTo(log, |endings|)
  {
    if endings != [] {
      var n := |endings| - 1;
      FlattenLength(endings[..n], log);
      FlattenLast(endings);
      SameLength(Teams.Flatten(endings), Teams.Flatten(endings[..n]), endings[n]);
    }
  }

  /** The work of one task: its connections and the operations it came to. */
  datatype Work = Work(links: seq<Link>, ops: seq<Op>)

  function EndingsOf(s: Setup, work: seq<Work>): (endings: seq<seq<Option<EchoError>>>)
    requires forall t :: 0 <= t < |work| ==> work[t].links != []
    ensures |endings| == |work|
    ensures forall t :: 0 <= t < |work| ==> endings[t] == Played(s, work[t].links, work[t].ops).endings
  {
    seq(|work|, t requires 0 <= t < |work| => Played(s, work[t].links, work[t].ops).endings)
  }

  /** However the tasks interleave at the counter, when they have stopped the phase has run
      exactly total operations; each is a success or a failure; and the errors counted are
      those they ended in. */
  lemma PhaseTotals(s: Setup, work: seq<Work>, total: nat, steps: seq<Tickets.Action>, tallies: seq<Tally>, e: EchoError)
    requires |work| >= 1 && forall t :: 0 <= t < |work| ==> work[t].links != []
    requires Tickets.Run(|work|, total, 1, steps).Some?
    requires var st := Tickets.Run(|work|, total, 1, steps).value;
      && (forall t :: 0 <= t < |st.tasks| ==> st.tasks[t].place.Stopped?)
      && (forall t :: 0 <= t < |work| ==> |work[t].ops| == DrawnBy(st.log, t))
    requires |tallies| == |work|
    requires forall t :: 0 <= t < |work| ==> tallies[t] == Counted(Played(s, work[t].links, work[t].ops).endings)
    ensures var m, all := MergeAll(tallies), Teams.Flatten(EndingsOf(s, work));
      && |all| == total && m.costs + m.failed == total
      && m.costs == multiset(all)[None] && Seen(m.errors, e) == multiset(all)[Some(e)]
  {
    var st := Tickets.Run(|work|, total, 1, steps).value;
    Tickets.DrawnOnce(|work|, total, 1, steps);
    Tickets.AllAccountedFor(|work|, total, 1, steps);
    AllDrawn(st.log, |work|);
    var endings := EndingsOf(s, work);
    FlattenLength(endings, st.log);
    MergedAre(endings, tallies, e);
  }
}
