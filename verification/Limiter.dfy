/** The rate limiter of the Rust client, on exact time. */
module Limiter {
  /** n permits given out at a time. */
  datatype Grant = Grant(at: real, n: nat)

  /** The permits of grants i to j, the last not included. */
  function Work(log: seq<Grant>, i: nat, j: nat): nat
    requires i <= j <= |log|
  {
    if i == j then 0 else Work(log, i, j - 1) + log[j - 1].n
  }

  /** Every grant waits out those before it at the rate. */
  ghost predicate Spaced(log: seq<Grant>, perSecond: nat) {
    forall i, j :: 0 <= i <= j < |log| ==> Apart(log, perSecond, i, j)
  }

  predicate Apart(log: seq<Grant>, perSecond: nat, i: nat, j: nat)
    requires i <= j < |log|
  {
    (log[j].at - log[i].at) * perSecond as real >= Work(log, i, j) as real
  }

  class Limiter {
    const perSecond: nat
    var next: real
    ghost var log: seq<Grant>

    ghost predicate Valid()
      reads this
    {
      && perSecond > 0 && Spaced(log, perSecond)
      && (log != [] ==> var last := log[|log| - 1];
                        next == last.at + last.n as real / perSecond as real)
    }

    constructor (perSecond: nat, now: real)
      requires perSecond > 0
      ensures Valid() && this.perSecond == perSecond && next == now && log == []
    {
      this.perSecond := perSecond;
      next := now;
      log := [];
    }

    /** When a caller that asks for n permits at time now may go on: at once if the
        limiter is idle. */
    method Wait(n: nat, now: real) returns (at: real)
      requires Valid()
      modifies this
      ensures Valid() && log == old(log) + [Grant(at, n)]
      ensures at == if old(next) <= now then now else old(next)
    {
      at := if next > now then next else now;
      SpacedOneMore(log, perSecond, next, Grant(at, n));
      next := at + n as real / perSecond as real;
      log := log + [Grant(at, n)];
    }
  }

  lemma {:induction false} WorkPrefix(log: seq<Grant>, g: Grant, i: nat, j: nat)
    requires i <= j <= |log|
    ensures Work(log + [g], i, j) == Work(log, i, j)
  {
    if i < j { WorkPrefix(log, g, i, j - 1); }
  }

  /** A grant at or after the time the last one's permits are used up keeps the spacing. */
  lemma SpacedOneMore(log: seq<Grant>, perSecond: nat, next: real, g: Grant)
    requires perSecond > 0 && Spaced(log, perSecond) && g.at >= next
    requires log != [] ==> next == log[|log| - 1].at + log[|log| - 1].n as real / perSecond as real
    ensures Spaced(log + [g], perSecond)
  {
    var log', n := log + [g], |log|;
    forall i, j | 0 <= i <= j < |log'|
      ensures Apart(log', perSecond, i, j)
    {
      WorkPrefix(log, g, i, if j < n then j else n);
      if j < n {
        assert Apart(log, perSecond, i, j);
      } else if i < n {
        assert Apart(log, perSecond, i, n - 1);
        var last := log[n - 1];
        assert Work(log, i, n) == Work(log, i, n - 1) + last.n;
        LaterBy(perSecond as real, log[i].at, last.at, last.n as real, g.at);
      }
    }
  }

  lemma LaterBy(rate: real, first: real, last: real, n: real, at: real)
    requires rate > 0.0 && at >= last + n / rate
    ensures (at - first) * rate >= (last - first) * rate + n
  {
    var d := at - last - n / rate;
    assert n / rate * rate == n;
    assert (at - first) * rate == (last - first) * rate + n / rate * rate + d * rate;
  }

  // ---- what a window can get ----

  /** The permits given out from one time to another. */
  function Granted(log: seq<Grant>, from: real, to: real): nat {
    if log == [] then 0
    else
      var last := log[|log| - 1];
      Granted(log[..|log| - 1], from, to) + if from <= last.at <= to then last.n else 0
  }

  lemma {:induction false} GrantedWithin(log: seq<Grant>, from: real, to: real, i: nat, k: nat)
    requires k <= |log| && forall j :: 0 <= j < i && j < k ==> log[j].at < from
    ensures Granted(log[..k], from, to) <= if i <= k then Work(log, i, k) else 0
  {
    if k > 0 {
      assert log[..k][..k - 1] == log[..k - 1];
      GrantedWithin(log, from, to, i, k - 1);
    }
  }

  lemma FirstFrom(log: seq<Grant>, from: real, k: nat) returns (i: nat)
    requires k <= |log|
    ensures i <= k && (forall j :: 0 <= j < i ==> log[j].at < from) && (i < k ==> log[i].at >= from)
  {
    i := 0;
    while i < k && log[i].at < from
      invariant i <= k && forall j :: 0 <= j < i ==> log[j].at < from
    {
      i := i + 1;
    }
  }

  /** What is given out in a window that ends in a grant: the work from the first grant in it. */
  lemma GrantedFrom(log: seq<Grant>, from: real, to: real) returns (i: nat)
    requires log != [] && from <= log[|log| - 1].at
    ensures var j := |log| - 1;
      i <= j && log[i].at >= from && Granted(log, from, to) <= Work(log, i, j) + log[j].n
  {
    var j := |log| - 1;
    i := FirstFrom(log, from, j + 1);
    assert log[..j + 1] == log;
    GrantedWithin(log, from, to, i, j + 1);
  }

  lemma LastInWindow(log: seq<Grant>, perSecond: nat, from: real, length: real)
    requires perSecond > 0 && Spaced(log, perSecond) && log != []
    requires from <= log[|log| - 1].at <= from + length
    ensures Granted(log, from, from + length) as real
      <= perSecond as real * length + log[|log| - 1].n as real
  {
    var j := |log| - 1;
    var i := GrantedFrom(log, from, from + length);
    assert Apart(log, perSecond, i, j);
    Within(Granted(log, from, from + length), Work(log, i, j), log[j].n,
           log[j].at - log[i].at, length, perSecond as real);
  }

  lemma Within(granted: nat, work: nat, n: nat, apart: real, length: real, rate: real)
    requires granted <= work + n && work as real <= apart * rate && apart <= length && rate > 0.0
    ensures granted as real <= rate * length + n as real
  {
    ScaleUp(apart, length, rate);
    assert granted as real <= (work + n) as real == work as real + n as real;
  }

  /** In any window of time no more is given out than the rate times its length, and one
      request more. */
  lemma {:induction false} WindowBound(log: seq<Grant>, perSecond: nat, from: real, length: real, most: nat)
    requires perSecond > 0 && Spaced(log, perSecond) && length >= 0.0
    requires forall k :: 0 <= k < |log| ==> log[k].n <= most
    ensures Granted(log, from, from + length) as real <= perSecond as real * length + most as real
  {
    ScaleUp(0.0, length, perSecond as real);
    if log != [] {
      var j := |log| - 1;
      if from <= log[j].at <= from + length {
        LastInWindow(log, perSecond, from, length);
      } else {
        SpacedPrefix(log, perSecond);
        WindowBound(log[..j], perSecond, from, length, most);
      }
    }
  }

  lemma ScaleUp(a: real, b: real, rate: real)
    requires a <= b && rate > 0.0
    ensures a * rate <= rate * b
  {
    assert (b - a) * rate >= 0.0;
  }

  lemma SpacedPrefix(log: seq<Grant>, perSecond: nat)
    requires log != [] && Spaced(log, perSecond)
    ensures Spaced(log[..|log| - 1], perSecond)
  {
    var n := |log| - 1;
    var g := log[n];
    assert log == log[..n] + [g];
    forall i, j | 0 <= i <= j < n
      ensures Apart(log[..n], perSecond, i, j)
    {
      WorkPrefix(log[..n], g, i, j);
      assert Apart(log, perSecond, i, j);
    }
  }
}
