/** Connections dealt round-robin to tasks that each own theirs. */
module Teams {
  import opened Pipelining
  import opened Sums

  /** groups is xs dealt to n hands: hand v holds xs[v], xs[v + n], xs[v + 2n] and so on. */
  ghost predicate Dealt<T>(xs: seq<T>, n: nat, groups: seq<seq<T>>)
    requires n > 0
  {
    && |groups| == n
    && (forall v, k :: 0 <= v < n && 0 <= k < |groups[v]| ==> Holds(xs, n, groups[v][k], v, k))
    && (forall i :: 0 <= i < |xs| ==> i / n < |groups[i % n]|)
    && (forall v, v' :: 0 <= v < v' < n ==> |groups[v']| <= |groups[v]| <= |groups[v']| + 1)
  }

  /** x is the card that goes to place k of hand v. */
  predicate Holds<T(==)>(xs: seq<T>, n: nat, x: T, v: nat, k: nat) {
    v + k * n < |xs| && x == xs[v + k * n]
  }

  function Flatten<T>(groups: seq<seq<T>>): seq<T> {
    if groups == [] then [] else groups[0] + Flatten(groups[1..])
  }

  lemma {:induction false} FlattenAppend<T>(groups: seq<seq<T>>, v: nat, x: T)
    requires v < |groups|
    ensures multiset(Flatten(groups[v := groups[v] + [x]])) == multiset(Flatten(groups)) + multiset{x}
  {
    if v == 0 {
      assert groups[0 := groups[0] + [x]][1..] == groups[1..];
    } else {
      assert groups[v := groups[v] + [x]][1..] == groups[1..][v - 1 := groups[1..][v - 1] + [x]];
      FlattenAppend(groups[1..], v - 1, x);
    }
  }

  lemma {:induction false} FlattenEmpty<T>(groups: seq<seq<T>>)
    requires forall v :: 0 <= v < |groups| ==> groups[v] == []
    ensures Flatten(groups) == []
  {
    if groups != [] { FlattenEmpty(groups[1..]); }
  }

  /** The hands after all of xs has been dealt, a card at a time. */
  function Hands<T>(xs: seq<T>, n: nat): (groups: seq<seq<T>>)
    requires n > 0
    ensures |groups| == n
  {
    if xs == [] then seq(n, _ => [])
    else
      var i := |xs| - 1;
      var groups := Hands(xs[..i], n);
      groups[i % n := groups[i % n] + [xs[i]]]
  }

  /** The teams of a pipelining run, and the groups of an echo run. */
  method Deal<T>(xs: seq<T>, n: nat) returns (groups: seq<seq<T>>)
    requires n > 0
    ensures groups == Hands(xs, n)
    ensures Dealt(xs, n, groups)
    ensures multiset(Flatten(groups)) == multiset(xs)
  {
    groups := seq(n, _ => []);
    var i := 0;
    while i < |xs|
      invariant i <= |xs| && groups == Hands(xs[..i], n)
    {
      assert xs[..i + 1][..i] == xs[..i];
      groups := groups[i % n := groups[i % n] + [xs[i]]];
      i := i + 1;
    }
    assert xs[..i] == xs;
    HandsKeepAll(xs, n);
    HandsAreDealt(xs, n);
  }

  lemma {:induction false} HandsKeepAll<T>(xs: seq<T>, n: nat)
    requires n > 0
    ensures multiset(Flatten(Hands(xs, n))) == multiset(xs)
  {
    if xs == [] {
      FlattenEmpty(Hands(xs, n));
    } else {
      var i := |xs| - 1;
      var w := i % n;
      HandsKeepAll(xs[..i], n);
      FlattenAppend(Hands(xs[..i], n), w, xs[i]);
      MultisetLast(xs);
    }
  }

  lemma MultisetLast<T>(xs: seq<T>)
    requires xs != []
    ensures multiset(xs) == multiset(xs[..|xs| - 1]) + multiset{xs[|xs| - 1]}
  {
    assert xs == xs[..|xs| - 1] + [xs[|xs| - 1]];
  }

  /** After q rounds and w cards the first w hands hold one more than the rest. */
  lemma {:induction false} HandSizes<T>(xs: seq<T>, n: nat, q: nat, w: nat)
    requires w < n && |xs| == q * n + w
    ensures forall v :: 0 <= v < n ==> |Hands(xs, n)[v]| == q + if v < w then 1 else 0
    decreases |xs|
  {
    if xs != [] {
      var i := |xs| - 1;
      var q', w' := if w == 0 then q - 1 else q, if w == 0 then n - 1 else w - 1;
      if w == 0 { Distribute(n, q - 1, 1); }
      DivMod(q', n, w');
      HandSizes(xs[..i], n, q', w');
    } else if q > 0 {
      Distribute(n, q - 1, 1);
    }
  }

  lemma {:induction false} HandCards<T>(xs: seq<T>, n: nat, v: nat, k: nat)
    requires v < n && k < |Hands(xs, n)[v]|
    ensures Holds(xs, n, Hands(xs, n)[v][k], v, k)
  {
    if xs != [] {
      var i := |xs| - 1;
      if k < |Hands(xs[..i], n)[v]| {
        HandCards(xs[..i], n, v, k);
      } else {
        LastCard(xs, n);
      }
    }
  }

  lemma LastCard<T>(xs: seq<T>, n: nat)
    requires n > 0 && xs != []
    ensures var i := |xs| - 1;
      |Hands(xs[..i], n)[i % n]| == i / n && Holds(xs, n, xs[i], i % n, i / n)
  {
    var i := |xs| - 1;
    var q, w := i / n, i % n;
    assert i == q * n + w;
    HandSizes(xs[..i], n, q, w);
  }

  lemma HandsAreDealt<T>(xs: seq<T>, n: nat)
    requires n > 0
    ensures Dealt(xs, n, Hands(xs, n))
  {
    var groups := Hands(xs, n);
    var q, w := |xs| / n, |xs| % n;
    assert |xs| == q * n + w;
    HandSizes(xs, n, q, w);
    forall v, k | 0 <= v < n && 0 <= k < |groups[v]|
      ensures Holds(xs, n, groups[v][k], v, k)
    {
      HandCards(xs, n, v, k);
    }
    forall i | 0 <= i < |xs|
      ensures i / n < |groups[i % n]|
    {
      Placed(i, q, w, n);
    }
  }

  lemma Placed(i: nat, q: nat, w: nat, n: nat)
    requires w < n && i < q * n + w
    ensures i / n < q + if i % n < w then 1 else 0
  {
    var a, b := i / n, i % n;
    assert i == a * n + b;
    if a >= q { Distribute(n, q, a - q); }
    if a > q { Distribute(n, a - q - 1, 1); }
  }

  /** Dealing the connections gives a pipelining run its teams. */
  lemma DealtConfig(count: nat, n: nat, teams: seq<seq<nat>>, batch: nat, payload: nat)
    requires n > 0 && batch >= 1 && Dealt(seq(count, (i: nat) => i), n, teams)
    ensures Config(batch, payload, teams, seq(count, (c: nat) => c % n), seq(count, (c: nat) => c / n)).Valid()
  {
    var xs := seq(count, (i: nat) => i);
    forall w, k | 0 <= w < n && 0 <= k < |teams[w]|
      ensures teams[w][k] < count && teams[w][k] % n == w && teams[w][k] / n == k
    {
      assert Holds(xs, n, teams[w][k], w, k);
      DivMod(k, n, w);
    }
    forall c | 0 <= c < count
      ensures c % n < n && c / n < |teams[c % n]| && teams[c % n][c / n] == c
    {
      assert xs[c] == c;
      assert Holds(xs, n, teams[c % n][c / n], c % n, c / n);
      assert c == c / n * n + c % n;
    }
  }
}
