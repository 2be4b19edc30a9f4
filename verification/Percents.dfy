/** The share of a column's best that is printed beside a result, in exact arithmetic. */
module Percents {
  import opened Bytes
  import opened Ranking
  import opened Sums
  import opened Texts

  /** The nudge a quotient is given before it is floored. */
  const SLACK: real := 0.000000001

  function Percent(value: real, best: real): (p: int)
    ensures 0 <= p <= 100
  {
    if best <= 0.0 || value <= 0.0 then 0
    else if value >= best then 100
    else
      Share(value, best);
      var percent := (value * 100.0 / best + SLACK).Floor;
      if percent < 99 then percent else 99
  }

  lemma Share(value: real, best: real)
    requires best > 0.0 && value > 0.0
    ensures value * 100.0 / best > 0.0
  {
    assert value * 100.0 / best * best == value * 100.0;
  }

  lemma Quotients(a: real, b: real, best: real)
    requires best > 0.0 && a <= b
    ensures a / best <= b / best
  {
    assert b / best - a / best == (b - a) / best;
    assert (b - a) / best * best == b - a;
  }

  /** Short of the best a result reads as the whole hundredths of it, a 10^9th of one more
      than it has being allowed, and as no more than 99. */
  lemma PercentIs(value: real, best: real)
    requires 0.0 < value < best
    ensures var p := Percent(value, best);
      && 0 <= p <= 99 && p as real * best <= 100.0 * value + best / 1000000000.0
      && (p < 99 ==> 100.0 * value + best / 1000000000.0 < (p + 1) as real * best)
  {
    var p, x := Percent(value, best), value * 100.0 / best + SLACK;
    Share(value, best);
    assert x * best == 100.0 * value + best / 1000000000.0 by {
      assert value * 100.0 / best * best == value * 100.0;
    }
    Sign(x - p as real, best);
    assert (x - p as real) * best == x * best - p as real * best;
    if p < 99 {
      var q := (p + 1) as real;
      Sign(q - x, best);
      Sign(x - q, best);
      assert (q - x) * best == q * best - x * best && (x - q) * best == x * best - q * best;
    }
  }

  /** A bigger result never reads as less. */
  lemma PercentMonotone(a: real, b: real, best: real)
    requires a <= b
    ensures Percent(a, best) <= Percent(b, best)
  {
    if best > 0.0 { Quotients(a * 100.0, b * 100.0, best); }
  }

  /** Only the best reads 100%, and it does if anything scored. */
  lemma HundredIsBest(value: real, best: real)
    requires value <= best
    ensures Percent(value, best) == 100 <==> best > 0.0 && value == best
  {
  }

  /** An exact hundredth part of the best reads as what it is. */
  lemma ExactShare(k: nat, best: real)
    requires k <= 100 && best > 0.0
    ensures Percent(k as real * best / 100.0, best) == k
  {
    var value := k as real * best / 100.0;
    assert value * 100.0 == k as real * best;
    assert k as real * best / best == k as real;
    if 0 < k < 100 {
      Scale(k, best);
      assert value * 100.0 / best + SLACK == k as real + SLACK;
    } else if k == 100 {
      assert value == best;
    }
  }

  lemma Scale(k: nat, best: real)
    requires 0 < k < 100 && best > 0.0
    ensures 0.0 < k as real * best / 100.0 < best
  {
    var value := k as real * best / 100.0;
    assert value * 100.0 == k as real * best;
    assert (100.0 - k as real) * best > 0.0;
  }

  /** The nudge lifts a whole number's quotient to the next whole percent exactly when the
      remainder of the division is within a 10^9th part of the best of it. */
  lemma NudgeLifts(value: nat, best: nat)
    requires 0 < value < best
    ensures (value as real * 100.0 / best as real + SLACK).Floor ==
      (100 * value) / best + if 1000000000 * (best - (100 * value) % best) <= best then 1 else 0
  {
    var q, r := (100 * value) / best, (100 * value) % best;
    assert 100 * value == q * best + r;
    var x := value as real * 100.0 / best as real;
    assert value as real * 100.0 == (100 * value) as real == q as real * best as real + r as real;
    RemainderPart(value, best, q, r, x);
  }

  lemma RemainderPart(value: nat, best: nat, q: nat, r: nat, x: real)
    requires best > 0 && r < best && x * best as real == q as real * best as real + r as real
    ensures (x + SLACK).Floor == q + if 1000000000 * (best - r) <= best then 1 else 0
  {
    var b := best as real;
    var part := x - q as real;
    assert part * b == r as real;
    Sign(part, b);
    Sign(part - 1.0, b);
    Sign(part + SLACK - 1.0, b);
    assert (part - 1.0) * b == r as real - b;
    assert (part + SLACK - 1.0) * b == r as real + SLACK * b - b;
    assert 1000000000.0 * (SLACK * b) == b;
    assert (1000000000 * (best - r)) as real == 1000000000.0 * (b - r as real);
  }

  lemma BelowHundred(value: nat, best: nat)
    requires 0 < value < best
    ensures (100 * value) / best <= 99
  {
    var q := (100 * value) / best;
    assert 100 * value == q * best + (100 * value) % best;
    Monotone(100, q, best);
  }

  /** So a whole number reads as something else than the floor of its share exactly then, if
      that floor is below the 99 a result short of the best is held to. */
  lemma SlackChanges(value: nat, best: nat)
    requires best > 0 && value <= best
    ensures Percent(value as real, best as real) != (100 * value) / best <==>
      1000000000 * (best - (100 * value) % best) <= best && (100 * value) / best < 99
  {
    if value == best {
      assert 100 * value == 100 * best + 0;
      WholeQuotient(100, best);
    } else if value > 0 {
      NudgeLifts(value, best);
      BelowHundred(value, best);
    }
  }

  lemma WholeQuotient(k: nat, best: nat)
    requires best > 0
    ensures (k * best) / best == k && (k * best) % best == 0
  {
    DivMod(k, best, 0);
  }

  /** Which happens: a hundredth of the best but for a 10^9th part reads 1%. And it is not the
      remainder alone that decides: just under the best 99% is read, as the floor has it. */
  lemma SlackWitness()
    ensures (100 * 10000000) / 1000000001 == 0 && Percent(10000000.0, 1000000001.0) == 1
    ensures var value, best := 99999999999, 100000000000;
      1000000000 * (best - (100 * value) % best) <= best && Percent(value as real, best as real) == (100 * value) / best == 99
  {
    SlackChanges(10000000, 1000000001);
    NudgeLifts(10000000, 1000000001);
    SlackChanges(99999999999, 100000000000);
  }

  /** With a best below 10^9 a whole number's percent is the floor of its share. */
  lemma WholeShare(value: nat, best: nat)
    requires 0 < value < best < 1000000000
    ensures Percent(value as real, best as real) == (100 * value) / best
  {
    SlackChanges(value, best);
    assert 100 * value == (100 * value) / best * best + (100 * value) % best;
  }

  /** Down a ranked table the shares of the measured rows never rise. */
  lemma SharesDescend(xs: seq<Report>, best: real, i: nat, j: nat)
    requires OneTable(xs) && i < j < |Sorted(xs)|
    requires !Sorted(xs)[j].skipped && Sorted(xs)[i].keys != [] && Sorted(xs)[j].keys != []
    ensures Percent(Sorted(xs)[i].keys[0], best) >= Percent(Sorted(xs)[j].keys[0], best)
  {
    SortedDescends(xs, i, j);
    LeadingKeys(Sorted(xs)[i].keys, Sorted(xs)[j].keys);
    PercentMonotone(Sorted(xs)[j].keys[0], Sorted(xs)[i].keys[0], best);
  }

  lemma LeadingKeys(a: seq<real>, b: seq<real>)
    requires |a| == |b| != 0
    requires a == b || exists d :: 0 <= d < |a| && a[d] > b[d] && forall k :: 0 <= k < d ==> a[k] == b[k]
    ensures a[0] >= b[0]
  {
  }

  // ---- in a column ----

  function PercentText(value: real, best: real): string {
    Digits(Percent(value, best)) + "%"
  }

  function Widest(texts: seq<string>): (w: nat)
    ensures forall i :: 0 <= i < |texts| ==> |texts[i]| <= w
  {
    if texts == [] then 0
    else
      var n := |texts| - 1;
      var w := Widest(texts[..n]);
      assert forall i :: 0 <= i < n ==> texts[i] == texts[..n][i];
      if |texts[n]| > w then |texts[n]| else w
  }

  function RightAligned(s: string, w: nat): (r: string)
    requires |s| <= w
    ensures |r| == w
  {
    Spaces(w - |s|) + s
  }

  function Column(rows: seq<seq<string>>, col: nat): (texts: seq<string>)
    requires forall i :: 0 <= i < |rows| ==> col < |rows[i]|
    ensures |texts| == |rows| && forall i :: 0 <= i < |rows| ==> texts[i] == rows[i][col]
  {
    seq(|rows|, i requires 0 <= i < |rows| => rows[i][col])
  }

  function Shares(values: seq<real>, best: real): (texts: seq<string>)
    ensures |texts| == |values| && forall i :: 0 <= i < |values| ==> texts[i] == PercentText(values[i], best)
  {
    seq(|values|, i requires 0 <= i < |values| => PercentText(values[i], best))
  }

  /** A column's best. */
  method BestOf(values: seq<real>) returns (best: real)
    ensures best == Peak(values)
  {
    best := 0.0;
    for i := 0 to |values|
      invariant best == Peak(values[..i])
    {
      assert values[..i + 1][..i] == values[..i];
      if values[i] > best { best := values[i]; }
    }
    assert values[..|values|] == values;
  }

  method WidthOf(texts: seq<string>) returns (w: nat)
    ensures w == Widest(texts)
  {
    w := 0;
    for i := 0 to |texts|
      invariant w == Widest(texts[..i])
    {
      assert texts[..i + 1][..i] == texts[..i];
      if |texts[i]| > w { w := |texts[i]|; }
    }
    assert texts[..|texts|] == texts;
  }

  /** A value and its share, each right-aligned. */
  function Cell(value: string, share: string, valueLen: nat, shareLen: nat): (c: string)
    requires |value| <= valueLen && |share| <= shareLen
    ensures |c| == valueLen + 1 + shareLen
  {
    RightAligned(value, valueLen) + " " + RightAligned(share, shareLen)
  }

  /** In a cell the value ends where its half does, the share ends it, a % behind its digits,
      and all else is spaces. */
  lemma CellIs(value: string, number: real, best: real, valueLen: nat, shareLen: nat)
    requires var share := PercentText(number, best); |value| <= valueLen && |share| <= shareLen
    ensures var share := PercentText(number, best); var c := Cell(value, share, valueLen, shareLen);
      var from := valueLen + 1 + shareLen - |share|;
      && (forall i :: 0 <= i < |value| ==> c[valueLen - |value| + i] == value[i])
      && (forall i :: 0 <= i < |share| ==> c[from + i] == share[i])
      && (forall i :: 0 <= i < valueLen - |value| || valueLen <= i < from ==> c[i] == ' ')
      && |share| == |Decimal(Percent(number, best))| + 1 && share[|share| - 1] == '%'
      && forall i :: 0 <= i < |share| - 1 ==> share[i] as int == Decimal(Percent(number, best))[i] as int
  {
  }

  /** Replaces the cells of column col by ones of a single width, value and share in two
      right-aligned halves. */
  method WithPercent(rows: array<seq<string>>, col: nat, values: seq<real>)
    requires |values| == rows.Length
    requires forall i :: 0 <= i < rows.Length ==> col < |rows[i]|
    modifies rows
    ensures var was := old(rows[..]); var column := Column(was, col); var shares := Shares(values, Peak(values));
      forall i :: 0 <= i < rows.Length ==>
        rows[i] == was[i][col := Cell(column[i], shares[i], Widest(column), Widest(shares))]
    ensures forall i, j :: 0 <= i < rows.Length && 0 <= j < rows.Length ==> |rows[i][col]| == |rows[j][col]|
  {
    ghost var was := rows[..];
    var column := Column(rows[..], col);
    var best := BestOf(values);
    var shares := Shares(values, best);
    var valueLen := WidthOf(column);
    var shareLen := WidthOf(shares);
    for i := 0 to rows.Length
      invariant forall k :: i <= k < rows.Length ==> rows[k] == was[k]
      invariant forall k :: 0 <= k < i ==> rows[k] == was[k][col := Cell(column[k], shares[k], valueLen, shareLen)]
    {
      rows[i] := rows[i][col := Cell(rows[i][col], shares[i], valueLen, shareLen)];
    }
  }
}
