/** The numbers of a phase: what its operations cost, and what the server used. */
module Stats {
  import opened Sums

  // ---- sorted costs ----

  predicate Ascending(xs: seq<int>) {
    forall i, j :: 0 <= i < j < |xs| ==> xs[i] <= xs[j]
  }

  function Insert(xs: seq<int>, x: int): (ys: seq<int>)
    requires Ascending(xs)
    ensures Ascending(ys) && |ys| == |xs| + 1
    ensures forall i :: 0 <= i < |ys| ==> ys[i] == x || ys[i] in xs
  {
    var n := |xs| - 1;
    if xs == [] || xs[n] <= x then xs + [x] else Insert(xs[..n], x) + [xs[n]]
  }

  function Sort(xs: seq<int>): (ys: seq<int>)
    ensures Ascending(ys) && |ys| == |xs|
  {
    if xs == [] then [] else Insert(Sort(xs[..|xs| - 1]), xs[|xs| - 1])
  }

  lemma {:induction false} InsertKeeps(xs: seq<int>, x: int)
    requires Ascending(xs)
    ensures multiset(Insert(xs, x)) == multiset(xs) + multiset{x}
  {
    var n := |xs| - 1;
    if xs != [] && xs[n] > x {
      InsertKeeps(xs[..n], x);
      assert xs == xs[..n] + [xs[n]];
    }
  }

  /** Sorting keeps every cost. */
  lemma {:induction false} SortKeeps(xs: seq<int>)
    ensures multiset(Sort(xs)) == multiset(xs)
  {
    if xs != [] {
      var n := |xs| - 1;
      SortKeeps(xs[..n]);
      InsertKeeps(Sort(xs[..n]), xs[n]);
      assert xs == xs[..n] + [xs[n]];
    }
  }

  datatype Calc = Calc(success: nat, failed: nat, costs: seq<int>)

  /** A phase's outcome from what its successes cost. */
  function NewCalc(costs: seq<int>, failed: nat): Calc {
    Calc(|costs|, failed, Sort(costs))
  }

  function Lowest(c: Calc): int {
    if c.costs == [] then 0 else c.costs[0]
  }

  function Highest(c: Calc): int {
    if c.costs == [] then 0 else c.costs[|c.costs| - 1]
  }

  function Sum(xs: seq<int>): int {
    if xs == [] then 0 else Sum(xs[..|xs| - 1]) + xs[|xs| - 1]
  }

  /** Division that truncates toward zero, as i64's does. */
  function TruncDiv(a: int, n: int): int
    requires n > 0
  {
    if a >= 0 then a / n else -((-a) / n)
  }

  function Avg(c: Calc): int {
    if c.costs == [] then 0 else TruncDiv(Sum(c.costs), |c.costs|)
  }

  function Tpn(c: Calc, percent: nat): int {
    if c.costs == [] then 0
    else
      var idx := percent * |c.costs| / 100;
      c.costs[if idx < |c.costs| - 1 then idx else |c.costs| - 1]
  }

  /** Successes and failures as they were counted, and the lowest and the highest of the costs
      as they came in; where there are none everything reads 0. */
  lemma Extremes(costs: seq<int>, failed: nat)
    ensures var c := NewCalc(costs, failed);
      && c.success == |costs| && c.failed == failed
      && (costs == [] ==> Lowest(c) == Highest(c) == Avg(c) == 0 && forall p :: Tpn(c, p) == 0)
      && (costs != [] ==> Lowest(c) in costs && Highest(c) in costs)
      && forall i :: 0 <= i < |costs| ==> Lowest(c) <= costs[i] <= Highest(c)
  {
    if costs != [] {
      SortedIn(costs, 0);
      SortedIn(costs, |costs| - 1);
    }
    forall i | 0 <= i < |costs|
      ensures Lowest(NewCalc(costs, failed)) <= costs[i] <= Highest(NewCalc(costs, failed))
    {
      SortKeeps(costs);
      assert costs[i] in multiset(Sort(costs));
    }
  }

  // ---- percentiles ----

  /** A higher percentile is no lower, and all lie between the lowest and the highest cost. */
  lemma TpnMonotone(costs: seq<int>, failed: nat, p: nat, q: nat)
    requires p <= q
    ensures var c := NewCalc(costs, failed);
      Lowest(c) <= Tpn(c, p) <= Tpn(c, q) <= Highest(c)
  {
    Monotone(p, q, |costs|);
  }

  function CountLeq(xs: seq<int>, v: int): (k: nat)
    ensures k <= |xs|
  {
    if xs == [] then 0 else CountLeq(xs[..|xs| - 1], v) + if xs[|xs| - 1] <= v then 1 else 0
  }

  /** So many of xs are at most v, and so many below it. */
  lemma {:induction false} CountIs(xs: seq<int>, v: int)
    ensures CountLeq(xs, v) == |set i | 0 <= i < |xs| && xs[i] <= v|
    ensures CountLeq(xs, v - 1) == |set i | 0 <= i < |xs| && xs[i] < v|
  {
    CountAt(xs, v);
    CountAt(xs, v - 1);
    assert (set i | 0 <= i < |xs| && xs[i] <= v - 1) == set i | 0 <= i < |xs| && xs[i] < v;
  }

  lemma {:induction false} CountAt(xs: seq<int>, v: int)
    ensures CountLeq(xs, v) == |set i | 0 <= i < |xs| && xs[i] <= v|
  {
    var all := set i | 0 <= i < |xs| && xs[i] <= v;
    if xs != [] {
      var n := |xs| - 1;
      CountAt(xs[..n], v);
      var before := set i | 0 <= i < n && xs[..n][i] <= v;
      assert all == before + if xs[n] <= v then {n} else {};
    }
  }

  lemma CountAppend(xs: seq<int>, x: int, v: int)
    ensures CountLeq(xs + [x], v) == CountLeq(xs, v) + if x <= v then 1 else 0
  {
    assert (xs + [x])[..|xs|] == xs;
  }

  lemma {:induction false} CountInsert(xs: seq<int>, x: int, v: int)
    requires Ascending(xs)
    ensures CountLeq(Insert(xs, x), v) == CountLeq(xs, v) + if x <= v then 1 else 0
  {
    var n := |xs| - 1;
    if xs == [] || xs[n] <= x {
      CountAppend(xs, x, v);
    } else {
      CountInsert(xs[..n], x, v);
      var ys := Insert(xs[..n], x);
      assert Insert(xs, x) == ys + [xs[n]];
      CountAppend(ys, xs[n], v);
    }
  }

  lemma {:induction false} CountSort(xs: seq<int>, v: int)
    ensures CountLeq(Sort(xs), v) == CountLeq(xs, v)
  {
    if xs != [] {
      CountSort(xs[..|xs| - 1], v);
      CountInsert(Sort(xs[..|xs| - 1]), xs[|xs| - 1], v);
    }
  }

  /** In ascending order at least k are at most v if the k-th is. */
  lemma {:induction false} AtLeast(xs: seq<int>, v: int, k: nat)
    requires Ascending(xs) && k <= |xs| && (k == 0 || xs[k - 1] <= v)
    ensures CountLeq(xs, v) >= k
  {
    if k > 0 {
      var n := |xs| - 1;
      if k <= n { AtLeast(xs[..n], v, k); } else { AtLeast(xs[..n], v, n); }
    }
  }

  /** And at most k if the one behind the k-th is not. */
  lemma {:induction false} AtMost(xs: seq<int>, v: int, k: nat)
    requires Ascending(xs) && k <= |xs| && (k == |xs| || xs[k] > v)
    ensures CountLeq(xs, v) <= k
  {
    if k < |xs| { AtMost(xs[..|xs| - 1], v, k); }
  }

  /** A percentile is one of the costs. Of the costs as they came in, at least the percentile's
      share are at most it, the one it falls on included, and at most that share are below it. */
  lemma TpnRank(costs: seq<int>, failed: nat, percent: nat)
    requires costs != []
    ensures var v, share := Tpn(NewCalc(costs, failed), percent), percent * |costs| / 100;
      && |set i | 0 <= i < |costs| && costs[i] <= v| >= (if share + 1 < |costs| then share + 1 else |costs|)
      && |set i | 0 <= i < |costs| && costs[i] < v| <= share
      && v in costs
  {
    var xs := Sort(costs);
    var at := TpnAt(costs, failed, percent);
    RankAt(xs, at);
    CountSort(costs, xs[at]);
    CountSort(costs, xs[at] - 1);
    CountIs(costs, xs[at]);
    SortedIn(costs, at);
  }

  /** The place in the sorted costs a percentile is read from. */
  lemma TpnAt(costs: seq<int>, failed: nat, percent: nat) returns (at: nat)
    requires costs != []
    ensures at < |Sort(costs)| && Tpn(NewCalc(costs, failed), percent) == Sort(costs)[at]
    ensures var idx := percent * |costs| / 100; at <= idx && (at == idx || at + 1 == |costs|)
  {
    var idx := percent * |costs| / 100;
    at := if idx < |costs| - 1 then idx else |costs| - 1;
  }

  lemma SortedIn(xs: seq<int>, i: nat)
    requires i < |xs|
    ensures Sort(xs)[i] in xs
  {
    SortKeeps(xs);
    assert Sort(xs)[i] in multiset(Sort(xs));
  }

  lemma RankAt(xs: seq<int>, at: nat)
    requires Ascending(xs) && at < |xs|
    ensures CountLeq(xs, xs[at]) >= at + 1 && CountLeq(xs, xs[at] - 1) <= at
  {
    AtLeast(xs, xs[at], at + 1);
    AtMost(xs, xs[at] - 1, at);
  }

  // ---- the average ----

  /** A sum is its parts', whichever way it is parted. */
  lemma {:induction false} SumIs(a: seq<int>, b: seq<int>, x: int)
    ensures Sum([]) == 0 && Sum([x]) == x && Sum(a + b) == Sum(a) + Sum(b)
  {
    assert Sum([x]) == Sum([]) + x;
    if b == [] {
      assert a + b == a;
    } else {
      var n := |b| - 1;
      assert (a + b)[..|a| + n] == a + b[..n];
      SumIs(a, b[..n], x);
    }
  }

  lemma {:induction false} SumInsert(xs: seq<int>, x: int)
    requires Ascending(xs)
    ensures Sum(Insert(xs, x)) == Sum(xs) + x
  {
    var n := |xs| - 1;
    if xs == [] || xs[n] <= x {
      assert (xs + [x])[..n + 1] == xs;
    } else {
      SumInsert(xs[..n], x);
      assert Insert(xs, x)[..n + 1] == Insert(xs[..n], x);
    }
  }

  lemma {:induction false} SumSort(xs: seq<int>)
    ensures Sum(Sort(xs)) == Sum(xs)
  {
    if xs != [] {
      SumSort(xs[..|xs| - 1]);
      SumInsert(Sort(xs[..|xs| - 1]), xs[|xs| - 1]);
    }
  }

  /** The average is the sum of the costs as they came in over their number, but for less than
      one, and on the side of 0. */
  lemma AvgIs(costs: seq<int>, failed: nat)
    requires costs != []
    ensures var n, avg := |costs|, Avg(NewCalc(costs, failed));
      if Sum(costs) >= 0 then avg * n <= Sum(costs) < avg * n + n
      else avg * n - n < Sum(costs) <= avg * n
  {
    SumSort(costs);
    TruncIs(Sum(costs), |costs|);
  }

  lemma TruncIs(a: int, n: int)
    requires n > 0
    ensures var q := TruncDiv(a, n); if a >= 0 then q * n <= a < q * n + n else q * n - n < a <= q * n
  {
    var b := if a >= 0 then a else -a;
    assert b == b / n * n + b % n;
    assert (-(b / n)) * n == -(b / n * n);
  }

  lemma {:induction false} SumBounds(xs: seq<int>, lo: int, hi: int)
    requires forall i :: 0 <= i < |xs| ==> lo <= xs[i] <= hi
    ensures |xs| * lo <= Sum(xs) <= |xs| * hi
  {
    if xs != [] {
      var n := |xs| - 1;
      SumBounds(xs[..n], lo, hi);
      assert |xs| * lo == n * lo + lo && |xs| * hi == n * hi + hi;
    }
  }

  lemma TruncWithin(a: int, n: int, lo: int, hi: int)
    requires n > 0 && n * lo <= a <= n * hi
    ensures lo <= TruncDiv(a, n) <= hi
  {
    var q := TruncDiv(a, n);
    if a >= 0 {
      var r := a % n;
      assert a == q * n + r;
      Cancel(lo, q, n, r);
      Cancel(q, hi, n, 0);
    } else {
      var r := (-a) % n;
      assert -a == (-q) * n + r;
      assert a == q * n - r;
      Cancel(q, hi, n, r);
      Cancel(lo, q, n, 0);
    }
  }

  /** A multiple below another by less than the whole. */
  lemma Cancel(a: int, b: int, n: int, r: int)
    requires n > 0 && 0 <= r < n
    ensures a * n <= b * n + r ==> a <= b
  {
    if a > b { AtLeastOne(a, b, n); }
  }

  lemma AtLeastOne(a: int, b: int, n: int)
    requires n > 0 && a > b
    ensures a * n >= b * n + n
  {
    var d := a - b - 1;
    assert d * n >= 0;
    assert a * n == b * n + n + d * n;
  }

  /** The average lies between the lowest and the highest cost. */
  lemma AvgWithin(costs: seq<int>, failed: nat)
    ensures var c := NewCalc(costs, failed); Lowest(c) <= Avg(c) <= Highest(c)
  {
    if costs != [] {
      var xs := Sort(costs);
      SumBounds(xs, xs[0], xs[|xs| - 1]);
      TruncWithin(Sum(xs), |xs|, xs[0], xs[|xs| - 1]);
    }
  }

  // ---- what the server used ----

  datatype Resources = Resources(cpuMin: real, cpuAvg: real, cpuMax: real, memMin: nat, memAvg: nat, memMax: nat)

  function MinOf(xs: seq<real>): (m: real)
    requires xs != []
    ensures m in xs && forall i :: 0 <= i < |xs| ==> m <= xs[i]
  {
    var n := |xs| - 1;
    if n == 0 then xs[0]
    else
      var m := MinOf(xs[..n]);
      assert forall i :: 0 <= i < n ==> xs[i] == xs[..n][i];
      if xs[n] < m then xs[n] else m
  }

  function SumReal(xs: seq<real>): real {
    if xs == [] then 0.0 else SumReal(xs[..|xs| - 1]) + xs[|xs| - 1]
  }

  /** The six columns, the first CPU sample and the smallest of memory left out as the Go
      client leaves them out. */
  method ResourcesOf(cpu: seq<real>, rss: seq<nat>) returns (r: Resources)
    ensures r.cpuMax == Peak(cpu)
    ensures |cpu| == 1 ==> r.cpuMin == r.cpuAvg == cpu[0]
    ensures |cpu| >= 2 ==> r.cpuMin == MinOf(cpu[1..]) && r.cpuAvg == SumReal(cpu[1..]) / (|cpu| - 1) as real
    ensures |rss| >= 2 ==> r.memMin == Sort(rss)[1] && r.memAvg == Sum(Sort(rss)[1..]) / (|rss| - 1)
    ensures |rss| == 1 ==> r.memMin == r.memAvg == r.memMax == rss[0]
    ensures rss != [] ==> r.memMax in rss && forall i :: 0 <= i < |rss| ==> rss[i] <= r.memMax
    ensures cpu == [] ==> r.cpuMin == r.cpuAvg == r.cpuMax == 0.0
    ensures rss == [] ==> r.memMin == r.memAvg == r.memMax == 0
    // For samples that are no less than nothing the columns are in order.
    ensures (forall i :: 0 <= i < |cpu| ==> cpu[i] >= 0.0) ==> r.cpuMin <= r.cpuAvg <= r.cpuMax
    ensures r.memMin <= r.memAvg <= r.memMax
  {
    r := Resources(0.0, 0.0, 0.0, 0, 0, 0);
    if |cpu| == 1 {
      r := r.(cpuMin := cpu[0], cpuAvg := cpu[0]);
    } else if |cpu| > 1 {
      r := r.(cpuMin := MinOf(cpu[1..]), cpuAvg := SumReal(cpu[1..]) / (|cpu| - 1) as real);
      CpuOrder(cpu);
    }
    r := r.(cpuMax := Peak(cpu));

    var mem := Sort(rss);
    NatSort(rss);
    if |mem| == 1 {
      r := r.(memMin := mem[0], memAvg := mem[0]);
    } else if |mem| > 1 {
      MemOrder(mem);
      r := r.(memMin := mem[1], memAvg := Sum(mem[1..]) / (|mem| - 1));
    }
    if mem != [] {
      LastIsHighest(rss);
      r := r.(memMax := mem[|mem| - 1]);
    }
  }

  lemma LastIsHighest(rss: seq<nat>)
    requires rss != []
    ensures Sort(rss)[|rss| - 1] in rss && forall i :: 0 <= i < |rss| ==> rss[i] <= Sort(rss)[|rss| - 1]
    ensures |rss| == 1 ==> Sort(rss)[0] == rss[0]
  {
    Extremes(rss, 0);
  }

  lemma NatSort(xs: seq<nat>)
    ensures forall i :: 0 <= i < |Sort(xs)| ==> Sort(xs)[i] >= 0
  {
    forall i | 0 <= i < |Sort(xs)|
      ensures Sort(xs)[i] >= 0
    {
      SortedIn(xs, i);
    }
  }

  lemma MemOrder(mem: seq<int>)
    requires Ascending(mem) && |mem| > 1 && mem[0] >= 0
    ensures mem[1] <= Sum(mem[1..]) / (|mem| - 1) <= mem[|mem| - 1]
  {
    var n := |mem| - 1;
    SumBounds(mem[1..], mem[1], mem[n]);
    TruncWithin(Sum(mem[1..]), n, mem[1], mem[n]);
    SumBounds(mem[1..], 0, mem[n]);
  }

  lemma {:induction false} SumRealIs(a: seq<real>, b: seq<real>, x: real)
    ensures SumReal([]) == 0.0 && SumReal([x]) == x && SumReal(a + b) == SumReal(a) + SumReal(b)
  {
    assert SumReal([x]) == SumReal([]) + x;
    if b == [] {
      assert a + b == a;
    } else {
      var n := |b| - 1;
      assert (a + b)[..|a| + n] == a + b[..n];
      SumRealIs(a, b[..n], x);
    }
  }

  lemma {:induction false} SumRealBounds(xs: seq<real>, lo: real, hi: real)
    requires forall i :: 0 <= i < |xs| ==> lo <= xs[i] <= hi
    ensures |xs| as real * lo <= SumReal(xs) <= |xs| as real * hi
  {
    if xs != [] {
      var n := |xs| - 1;
      SumRealBounds(xs[..n], lo, hi);
      assert |xs| as real == n as real + 1.0;
      assert |xs| as real * lo == n as real * lo + lo && |xs| as real * hi == n as real * hi + hi;
    }
  }

  lemma CpuOrder(cpu: seq<real>)
    requires |cpu| > 1
    ensures MinOf(cpu[1..]) <= SumReal(cpu[1..]) / (|cpu| - 1) as real <= Peak(cpu)
  {
    WithinAll(cpu);
    MeanWithin(cpu[1..], MinOf(cpu[1..]), Peak(cpu));
  }

  lemma MeanWithin(xs: seq<real>, lo: real, hi: real)
    requires xs != [] && forall i :: 0 <= i < |xs| ==> lo <= xs[i] <= hi
    ensures lo <= SumReal(xs) / |xs| as real <= hi
  {
    SumRealBounds(xs, lo, hi);
    RealWithin(SumReal(xs), |xs| as real, lo, hi);
  }

  lemma WithinAll(cpu: seq<real>)
    requires |cpu| > 1
    ensures forall i :: 0 <= i < |cpu| - 1 ==> MinOf(cpu[1..]) <= cpu[1..][i] <= Peak(cpu)
  {
    forall i | 0 <= i < |cpu| - 1
      ensures cpu[1..][i] <= Peak(cpu)
    {
      assert cpu[1..][i] == cpu[i + 1];
    }
  }

  lemma RealWithin(a: real, n: real, lo: real, hi: real)
    requires n > 0.0 && n * lo <= a <= n * hi
    ensures lo <= a / n <= hi
  {
    var q := a / n;
    assert q * n == a;
    Sign(q - lo, n);
    Sign(hi - q, n);
    assert (q - lo) * n == a - n * lo && (hi - q) * n == n * hi - a;
  }
}
