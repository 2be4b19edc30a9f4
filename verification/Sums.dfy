/** Sums over the parts of a state. */
module Sums {
  function Total<T>(xs: seq<T>, f: T -> nat): nat {
    if xs == [] then 0 else Total(xs[..|xs| - 1], f) + f(xs[|xs| - 1])
  }

  function Count(n: nat, flag: nat -> bool): (k: nat)
    ensures k <= n
  {
    if n == 0 then 0 else Count(n - 1, flag) + if flag(n - 1) then 1 else 0
  }

  function Max(a: nat, b: nat): nat {
    if a < b then b else a
  }

  function Min(a: nat, b: nat): nat {
    if a < b then a else b
  }

  /** The biggest of the numbers, or 0. */
  function Peak(xs: seq<real>): (m: real)
    ensures m >= 0.0 && (m > 0.0 ==> m in xs)
    ensures forall i :: 0 <= i < |xs| ==> xs[i] <= m
  {
    if xs == [] then 0.0
    else
      var n := |xs| - 1;
      var m := Peak(xs[..n]);
      assert forall i :: 0 <= i < n ==> xs[i] == xs[..n][i];
      if xs[n] > m then xs[n] else m
  }

  /** 0, 1, 2 and so on, n of them. */
  function Ids(n: nat): (ids: seq<nat>)
    ensures |ids| == n && forall i :: 0 <= i < n ==> ids[i] == i
  {
    if n == 0 then [] else Ids(n - 1) + [n - 1]
  }

  lemma Distribute(m: nat, a: nat, b: nat)
    ensures m * (a + b) == m * a + m * b == (a + b) * m
  {
  }

  lemma Monotone(a: nat, b: nat, m: nat)
    ensures a <= b ==> a * m <= b * m
  {
    if a <= b { Distribute(m, a, b - a); }
  }

  lemma DivMod(q: nat, n: nat, w: nat)
    requires w < n
    ensures (q * n + w) / n == q && (q * n + w) % n == w
  {
    var i := q * n + w;
    SameQuotient(i / n, i % n, q, w, n);
  }

  /** The same of a number given as such. */
  lemma DivModIs(i: nat, q: nat, n: nat, w: nat)
    requires w < n && i == q * n + w
    ensures i / n == q && i % n == w
  {
    DivMod(q, n, w);
  }

  lemma SameQuotient(a: int, b: nat, q: int, w: nat, n: nat)
    requires a * n + b == q * n + w && b < n && w < n
    ensures a == q && b == w
  {
    MulDiff(a, q, n);
    if a < q {
      MulAtLeast(q - a, n);
    } else if a > q {
      MulDiff(q, a, n);
      MulAtLeast(a - q, n);
    }
  }

  lemma MulDiff(a: int, q: int, n: nat)
    ensures q * n - a * n == (q - a) * n
  {
  }

  lemma MulAtLeast(d: nat, n: nat)
    requires d >= 1
    ensures d * n >= n
  {
    Distribute(n, d - 1, 1);
  }

  lemma Sign(t: real, b: real)
    requires b > 0.0
    ensures t >= 0.0 <==> t * b >= 0.0
  {
  }

  lemma {:induction false} TotalUpdate<T>(xs: seq<T>, f: T -> nat, c: nat, x: T)
    requires c < |xs|
    ensures Total(xs[c := x], f) == Total(xs, f) - f(xs[c]) + f(x)
  {
    var n := |xs| - 1;
    if c == n {
      assert xs[c := x][..n] == xs[..n];
    } else {
      assert xs[c := x][..n] == xs[..n][c := x];
      TotalUpdate(xs[..n], f, c, x);
    }
  }

  /** Two sums whose terms differ by m where flagged. */
  lemma {:induction false} TotalGap<T>(xs: seq<T>, f: T -> nat, g: T -> nat, m: nat, flag: nat -> bool)
    requires forall c :: 0 <= c < |xs| ==> f(xs[c]) == g(xs[c]) + if flag(c) then m else 0
    ensures Total(xs, f) == Total(xs, g) + m * Count(|xs|, flag)
  {
    if xs != [] {
      var n := |xs| - 1;
      assert forall c :: 0 <= c < n ==> xs[..n][c] == xs[c];
      TotalGap(xs[..n], f, g, m, flag);
      Distribute(m, Count(n, flag), if flag(n) then 1 else 0);
    }
  }

  lemma {:induction false} TotalLeq<T>(xs: seq<T>, f: T -> nat, g: T -> nat)
    requires forall c :: 0 <= c < |xs| ==> f(xs[c]) <= g(xs[c])
    ensures Total(xs, f) <= Total(xs, g)
    ensures Total(xs, f) == Total(xs, g) ==> forall c :: 0 <= c < |xs| ==> f(xs[c]) == g(xs[c])
  {
    if xs != [] {
      var n := |xs| - 1;
      assert forall c :: 0 <= c < n ==> xs[..n][c] == xs[c];
      TotalLeq(xs[..n], f, g);
      assert f(xs[n]) <= g(xs[n]);
      forall c | 0 <= c < |xs| && Total(xs, f) == Total(xs, g)
        ensures f(xs[c]) == g(xs[c])
      {
        if c < n { assert xs[..n][c] == xs[c]; }
      }
    }
  }

  lemma {:induction false} TotalBound<T>(xs: seq<T>, f: T -> nat, m: nat)
    requires forall c :: 0 <= c < |xs| ==> f(xs[c]) <= m
    ensures Total(xs, f) <= |xs| * m
  {
    if xs != [] {
      var n := |xs| - 1;
      assert forall c :: 0 <= c < n ==> xs[..n][c] == xs[c];
      TotalBound(xs[..n], f, m);
      Distribute(m, n, 1);
    }
  }

  lemma {:induction false} NoneFlagged(n: nat, flag: nat -> bool)
    requires forall c :: 0 <= c < n ==> !flag(c)
    ensures Count(n, flag) == 0
  {
    if n > 0 { NoneFlagged(n - 1, flag); }
  }
}
