/** The ranked order of a report table. */
module Ranking {
  import opened Sums

  /** A row: its framework, whether it only fills the place of a missing measurement, and
      its keys in the order they decide. */
  datatype Report = Report(framework: string, skipped: bool, keys: seq<real>)

  /** The keys agree up to the i-th, which is bigger in a. */
  predicate AboveAt(a: seq<real>, b: seq<real>, i: nat) {
    i < |a| && i < |b| && a[i] > b[i] && forall k :: 0 <= k < i ==> a[k] == b[k]
  }

  predicate Above(a: seq<real>, b: seq<real>) {
    exists i :: 0 <= i < |a| && AboveAt(a, b, i)
  }

  /** Looks for the first difference and says whose favour it is in. */
  method RankedBefore(a: seq<real>, b: seq<real>) returns (r: bool)
    ensures r <==> Above(a, b)
  {
    var i := 0;
    while i < |a| && i < |b|
      invariant i <= |a| && i <= |b| && forall k :: 0 <= k < i ==> a[k] == b[k]
    {
      if a[i] != b[i] {
        assert a[i] > b[i] ==> AboveAt(a, b, i);
        return a[i] > b[i];
      }
      i := i + 1;
    }
    r := false;
  }

  /** The comparison the table is sorted by: what was skipped goes last. */
  predicate Before(x: Report, y: Report) {
    if x.skipped != y.skipped then y.skipped else Above(x.keys, y.keys)
  }

  /** Reports of one table have keys of one length. */
  predicate OneTable(xs: seq<Report>) {
    forall i, j :: 0 <= i < |xs| && 0 <= j < |xs| ==> |xs[i].keys| == |xs[j].keys|
  }

  /** Two key lists are equal or differ first somewhere. */
  lemma FirstDifference(a: seq<real>, b: seq<real>, n: nat) returns (i: nat)
    requires |a| == |b| && n <= |a|
    ensures i <= n && (forall k :: 0 <= k < i ==> a[k] == b[k]) && (i < n ==> a[i] != b[i])
  {
    i := 0;
    while i < n && a[i] == b[i]
      invariant i <= n && forall k :: 0 <= k < i ==> a[k] == b[k]
    {
      i := i + 1;
    }
  }

  /** On keys of one length the comparison is a strict weak order: nothing is above itself
      or above what is above it, being above carries over, and so does being level. */
  lemma StrictWeakOrder(x: Report, y: Report, z: Report)
    requires |x.keys| == |y.keys| == |z.keys|
    ensures !Before(x, x)
    ensures Before(x, y) ==> !Before(y, x)
    ensures Before(x, y) && Before(y, z) ==> Before(x, z)
    ensures !Before(x, y) && !Before(y, z) ==> !Before(x, z)
  {
    KeysOrder(x.keys, y.keys, z.keys);
  }

  lemma KeysOrder(a: seq<real>, b: seq<real>, c: seq<real>)
    requires |a| == |b| == |c|
    ensures !Above(a, a)
    ensures Above(a, b) ==> !Above(b, a)
    ensures Above(a, b) && Above(b, c) ==> Above(a, c)
    ensures !Above(a, b) && !Above(b, c) ==> !Above(a, c)
  {
    if Above(a, b) && Above(b, c) {
      var i :| 0 <= i < |a| && AboveAt(a, b, i);
      var j :| 0 <= j < |b| && AboveAt(b, c, j);
      assert AboveAt(a, c, if i < j then i else j);
    }
    if Above(a, c) {
      var i :| 0 <= i < |a| && AboveAt(a, c, i);
      var j := FirstDifference(a, b, i);
      if j < i {
        assert AboveAt(a, b, j) || AboveAt(b, c, j);
      } else {
        assert AboveAt(a, b, i) || AboveAt(b, c, i);
      }
    }
  }

  // ---- the stable sort ----

  /** In the ranked order of xs position i comes before position j: it ranks above, or is
      level and stood first. */
  predicate Precedes(xs: seq<Report>, i: nat, j: nat) {
    i < |xs| && j < |xs| && (Before(xs[i], xs[j]) || (!Before(xs[j], xs[i]) && i < j))
  }

  /** p lists positions of xs in the ranked order. */
  predicate Ranked(xs: seq<Report>, p: seq<nat>) {
    (forall i :: 0 <= i < |p| ==> p[i] < |xs|) && forall i, j :: 0 <= i < j < |p| ==> Precedes(xs, p[i], p[j])
  }

  lemma PrecedesOrder(xs: seq<Report>, i: nat, j: nat, k: nat)
    requires OneTable(xs) && i < |xs| && j < |xs| && k < |xs|
    ensures Precedes(xs, i, j) ==> !Precedes(xs, j, i)
    ensures i != j ==> Precedes(xs, i, j) || Precedes(xs, j, i)
    ensures Precedes(xs, i, j) && Precedes(xs, j, k) ==> Precedes(xs, i, k)
  {
    StrictWeakOrder(xs[i], xs[j], xs[k]);
    StrictWeakOrder(xs[i], xs[k], xs[j]);
    StrictWeakOrder(xs[j], xs[i], xs[k]);
    StrictWeakOrder(xs[k], xs[j], xs[i]);
  }

  predicate Positions(p: seq<nat>, n: nat) {
    forall k :: 0 <= k < |p| ==> p[k] < n
  }

  /** Position i put where it goes in p, behind what it does not rank above. */
  function Insert(xs: seq<Report>, p: seq<nat>, i: nat): (r: seq<nat>)
    requires i < |xs| && Positions(p, |xs|)
    ensures Positions(r, |xs|) && |r| == |p| + 1
    ensures forall k :: 0 <= k < |r| ==> r[k] == i || r[k] in p
  {
    var n := |p| - 1;
    if p == [] || !Before(xs[i], xs[p[n]]) then p + [i] else Insert(xs, p[..n], i) + [p[n]]
  }

  /** The ranked order of the first n reports. */
  function Order(xs: seq<Report>, n: nat): (p: seq<nat>)
    requires n <= |xs|
    ensures Positions(p, n) && |p| == n
  {
    if n == 0 then [] else Insert(xs, Order(xs, n - 1), n - 1)
  }

  lemma RankedAppend(xs: seq<Report>, p: seq<nat>, j: nat)
    requires Ranked(xs, p) && j < |xs| && forall k :: 0 <= k < |p| ==> Precedes(xs, p[k], j)
    ensures Ranked(xs, p + [j])
  {
  }

  lemma {:induction false} InsertRanked(xs: seq<Report>, p: seq<nat>, i: nat)
    requires OneTable(xs) && i < |xs| && Ranked(xs, p) && Positions(p, i)
    ensures Ranked(xs, Insert(xs, p, i))
  {
    var n := |p| - 1;
    if p == [] || !Before(xs[i], xs[p[n]]) {
      forall k | 0 <= k < |p|
        ensures Precedes(xs, p[k], i)
      {
        PrecedesOrder(xs, p[k], p[n], i);
      }
      RankedAppend(xs, p, i);
    } else {
      InsertRanked(xs, p[..n], i);
      var s := Insert(xs, p[..n], i);
      forall k | 0 <= k < |s|
        ensures Precedes(xs, s[k], p[n])
      {
        if s[k] != i {
          var j :| 0 <= j < n && p[j] == s[k];
        }
      }
      RankedAppend(xs, s, p[n]);
    }
  }

  lemma {:induction false} OrderRanked(xs: seq<Report>, n: nat)
    requires OneTable(xs) && n <= |xs|
    ensures Ranked(xs, Order(xs, n))
  {
    if n > 0 {
      OrderRanked(xs, n - 1);
      InsertRanked(xs, Order(xs, n - 1), n - 1);
    }
  }

  lemma {:induction false} InsertKeeps(xs: seq<Report>, p: seq<nat>, i: nat)
    requires i < |xs| && Positions(p, |xs|)
    ensures multiset(Insert(xs, p, i)) == multiset(p) + multiset{i}
  {
    var n := |p| - 1;
    if p != [] && Before(xs[i], xs[p[n]]) {
      InsertKeeps(xs, p[..n], i);
      assert p == p[..n] + [p[n]];
    }
  }

  /** Every position is in the ranked order once. */
  lemma {:induction false} OrderKeeps(xs: seq<Report>, n: nat)
    requires n <= |xs|
    ensures multiset(Order(xs, n)) == multiset(Ids(n))
  {
    if n > 0 {
      OrderKeeps(xs, n - 1);
      InsertKeeps(xs, Order(xs, n - 1), n - 1);
    }
  }

  lemma SameHead(xs: seq<Report>, p: seq<nat>, q: seq<nat>)
    requires OneTable(xs) && Ranked(xs, p) && Ranked(xs, q) && multiset(p) == multiset(q) && p != [] && q != []
    ensures p[0] == q[0]
  {
    assert q[0] in multiset(p) && p[0] in multiset(q);
    var i :| 0 <= i < |p| && p[i] == q[0];
    var j :| 0 <= j < |q| && q[j] == p[0];
    PrecedesOrder(xs, p[0], q[0], q[0]);
  }

  lemma MultisetTail(p: seq<nat>)
    requires p != []
    ensures multiset(p[1..]) == multiset(p) - multiset{p[0]}
  {
    assert p == [p[0]] + p[1..];
  }

  /** A ranked list of given positions is the only one. */
  lemma {:induction false} RankedUnique(xs: seq<Report>, p: seq<nat>, q: seq<nat>)
    requires OneTable(xs) && Ranked(xs, p) && Ranked(xs, q) && multiset(p) == multiset(q)
    ensures p == q
  {
    assert |p| == |multiset(p)| == |multiset(q)| == |q|;
    if p != [] {
      SameHead(xs, p, q);
      MultisetTail(p);
      MultisetTail(q);
      RankedUnique(xs, p[1..], q[1..]);
      assert p == [p[0]] + p[1..] && q == [q[0]] + q[1..];
    }
  }

  /** x put where it goes in ys. */
  function Place(ys: seq<Report>, x: Report): (r: seq<Report>)
    ensures multiset(r) == multiset(ys) + multiset{x}
  {
    var n := |ys| - 1;
    if ys == [] || !Before(x, ys[n]) then ys + [x]
    else
      assert ys == ys[..n] + [ys[n]];
      Place(ys[..n], x) + [ys[n]]
  }

  /** The reports in their ranked order. */
  function Sorted(xs: seq<Report>): (ys: seq<Report>)
    ensures multiset(ys) == multiset(xs)
  {
    if xs == [] then []
    else
      assert xs == xs[..|xs| - 1] + [xs[|xs| - 1]];
      Place(Sorted(xs[..|xs| - 1]), xs[|xs| - 1])
  }

  function Select(xs: seq<Report>, p: seq<nat>): seq<Report>
    requires Positions(p, |xs|)
  {
    seq(|p|, i requires 0 <= i < |p| => xs[p[i]])
  }

  lemma {:induction false} PlaceIsInsert(xs: seq<Report>, p: seq<nat>, i: nat)
    requires i < |xs| && Positions(p, |xs|)
    ensures Place(Select(xs, p), xs[i]) == Select(xs, Insert(xs, p, i))
  {
    var n := |p| - 1;
    if p == [] || !Before(xs[i], xs[p[n]]) {
      assert Select(xs, p + [i]) == Select(xs, p) + [xs[i]];
    } else {
      PlaceIsInsert(xs, p[..n], i);
      assert Select(xs, p)[..n] == Select(xs, p[..n]);
    }
  }

  lemma {:induction false} SortedIsOrder(xs: seq<Report>, n: nat)
    requires n <= |xs|
    ensures Sorted(xs[..n]) == Select(xs, Order(xs, n))
  {
    if n > 0 {
      SortedIsOrder(xs, n - 1);
      assert xs[..n][..n - 1] == xs[..n - 1];
      PlaceIsInsert(xs, Order(xs, n - 1), n - 1);
    }
  }

  datatype SortOrder = ByResult | ByFramework | Unknown

  /** Orders reports in place; only ranking has anything to do. */
  method SortReports(reports: array<Report>, order: SortOrder)
    modifies reports
    ensures reports[..] == if order.ByResult? then Sorted(old(reports[..])) else old(reports[..])
  {
    if order.ByResult? {
      var ys := Sorted(reports[..]);
      assert |ys| == |multiset(ys)| == |multiset(reports[..])| == reports.Length;
      forall i | 0 <= i < reports.Length { reports[i] := ys[i]; }
    }
  }

  // ---- what the ranked order is ----

  /** ys is xs in the order of positions p, each once. */
  predicate SortedBy(xs: seq<Report>, ys: seq<Report>, p: seq<nat>) {
    && Positions(p, |xs|) && ys == Select(xs, p)
    && multiset(p) == multiset(Ids(|xs|))
    && Ranked(xs, p)
  }

  /** The sort is the one stable order: its rows are the reports, each in its place, and
      any list of them so ordered is the same. */
  lemma SortedIsStable(xs: seq<Report>, zs: seq<Report>, q: seq<nat>)
    requires OneTable(xs)
    ensures SortedBy(xs, Sorted(xs), Order(xs, |xs|))
    ensures SortedBy(xs, zs, q) ==> zs == Sorted(xs)
  {
    SortedIsOrder(xs, |xs|);
    assert xs[..|xs|] == xs;
    OrderRanked(xs, |xs|);
    OrderKeeps(xs, |xs|);
    if SortedBy(xs, zs, q) { RankedUnique(xs, q, Order(xs, |xs|)); }
  }

  /** Unless they are equal one of two key lists is above the other, where they first differ. */
  lemma LevelKeys(a: seq<real>, b: seq<real>)
    requires |a| == |b|
    ensures a == b ==> !Above(a, b)
    ensures a != b ==> Above(a, b) || Above(b, a)
    ensures Above(a, b) ==> !Above(b, a)
    ensures Above(a, b) ==> exists d :: 0 <= d < |a| && a[d] > b[d] && forall k :: 0 <= k < d ==> a[k] == b[k]
  {
    KeysOrder(a, b, a);
    var i := FirstDifference(a, b, |a|);
    if i < |a| { assert AboveAt(a, b, i) || AboveAt(b, a, i); }
    if Above(a, b) {
      var d :| 0 <= d < |a| && AboveAt(a, b, d);
      assert a[d] > b[d];
    }
  }

  /** x may be above y in a table: skipped rows are last; of two rows else the one above has
      the bigger key where they first differ, and where they do not it stood first. */
  predicate MayPrecede(x: Report, y: Report, stoodFirst: bool) {
    var a, b := x.keys, y.keys;
    && |a| == |b| && (x.skipped ==> y.skipped)
    && (x.skipped == y.skipped && a != b ==>
          exists d :: 0 <= d < |a| && a[d] > b[d] && forall k :: 0 <= k < d ==> a[k] == b[k])
    && (x.skipped == y.skipped && a == b ==> stoodFirst)
  }

  lemma PrecedesMay(xs: seq<Report>, i: nat, j: nat)
    requires OneTable(xs) && Precedes(xs, i, j)
    ensures MayPrecede(xs[i], xs[j], i < j)
  {
    LevelKeys(xs[i].keys, xs[j].keys);
  }

  /** So the rows of a ranked table are in order, every two of them. */
  lemma SortedDescends(xs: seq<Report>, i: nat, j: nat)
    requires OneTable(xs) && i < j < |Sorted(xs)|
    ensures var ys, p := Sorted(xs), Order(xs, |xs|);
      && |ys| == |xs| && ys[i] == xs[p[i]] && ys[j] == xs[p[j]]
      && MayPrecede(ys[i], ys[j], p[i] < p[j])
  {
    SortedIsStable(xs, xs, []);
    PrecedesMay(xs, Order(xs, |xs|)[i], Order(xs, |xs|)[j]);
  }

  /** Reports picked out in the ranked order are a ranked table. */
  lemma PickedRanked(xs: seq<Report>, ys: seq<Report>, p: seq<nat>)
    requires OneTable(xs) && Ranked(xs, p) && ys == Select(xs, p)
    ensures OneTable(ys) && Ranked(ys, Ids(|p|))
  {
    forall i, j | 0 <= i < j < |ys|
      ensures Precedes(ys, i, j)
    {
      assert Precedes(xs, p[i], p[j]);
      StrictWeakOrder(ys[i], ys[j], ys[i]);
    }
  }

  lemma SortedRanked(xs: seq<Report>)
    requires OneTable(xs)
    ensures OneTable(Sorted(xs)) && Ranked(Sorted(xs), Ids(|xs|)) && |Sorted(xs)| == |xs|
  {
    SortedIsStable(xs, xs, []);
    PickedRanked(xs, Sorted(xs), Order(xs, |xs|));
  }

  /** Ranking a ranked table changes nothing. */
  lemma SortedIdempotent(xs: seq<Report>)
    requires OneTable(xs)
    ensures Sorted(Sorted(xs)) == Sorted(xs)
  {
    var ys := Sorted(xs);
    SortedRanked(xs);
    assert Select(ys, Ids(|ys|)) == ys;
    SortedIsStable(ys, ys, Ids(|ys|));
  }
}
