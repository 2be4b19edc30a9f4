/** The Markdown table printer, in characters: every line has one width, and the table can
    be read back off what is printed. */
module Tables {
  import opened Sums
  import opened Texts

  // ---- padding ----

  /** A cell with its spaces: a on its left, and the rest of the width behind it. */
  function Around(s: string, a: nat, w: nat): (r: string)
    requires a + |s| <= w
    ensures |r| == w
  {
    Spaces(a) + s + Spaces(w - a - |s|)
  }

  /** That is the cell at a, and nothing else but spaces. */
  lemma AroundIs(s: string, a: nat, w: nat, i: nat)
    requires a + |s| <= w && i < w
    ensures Around(s, a, w)[i] == if a <= i < a + |s| then s[i - a] else ' '
  {
  }

  /** How many spaces padding puts before a cell: one at the left, and when centred half of
      the room, but in the first column no more than a third of it nor than the title has. */
  function LeftOf(len: nat, w: nat, left: bool, first: bool, titleIdx: nat): (a: nat)
    requires len <= w
    ensures a + len <= w
  {
    if len == w then 0
    else if left then 1
    else if first then Min((w - len + 1) / 3, titleIdx)
    else (w - len) / 2
  }

  function Padded(s: string, w: nat, left: bool, first: bool, titleIdx: nat): (r: string)
    requires |s| <= w
    ensures |r| == w
  {
    Around(s, LeftOf(|s|, w, left, first, titleIdx), w)
  }

  /** Moves spaces to the left of a cell while more than as many are left on the other side,
      and not past the title. */
  method PushCell(s: string, spaces: nat, titleIdx: nat) returns (r: string)
    ensures r == Around(s, Min((spaces + 1) / 3, titleIdx), |s| + spaces)
  {
    var room := spaces;
    ghost var most := Min((spaces + 1) / 3, titleIdx);
    var i := 0;
    r := s;
    assert Spaces(0) + s == s;
    while i < room / 2 && i < titleIdx
      invariant i + room == spaces && room >= 0 && i <= most
      invariant r == Spaces(i) + s
      decreases room
    {
      assert " " + (Spaces(i) + s) == Spaces(i + 1) + s;
      r := " " + r;
      room := room - 1;
      i := i + 1;
    }
    r := r + Spaces(room);
  }

  /** Centres a cell, or pushes it if it is in the first column. */
  method PadCell(s: string, w: nat, first: bool, titleIdx: nat) returns (r: string)
    requires |s| <= w
    ensures var room := w - |s|;
      r == Around(s, if first then Min((room + 1) / 3, titleIdx) else room / 2, w)
    ensures r == Padded(s, w, false, first, titleIdx)
  {
    var room := w - |s|;
    if room == 0 {
      assert Around(s, 0, w) == s;
      return s;
    }
    if first { r := PushCell(s, room, titleIdx); return; }
    var half := room / 2;
    r := Spaces(half) + s + Spaces(room - half);
  }

  /** Puts a cell one place from the left of its column. */
  method PadLeft(s: string, w: nat) returns (r: string)
    requires |s| <= w
    ensures r == Around(s, if |s| < w then 1 else 0, w)
    ensures r == Padded(s, w, true, false, 0)
  {
    var room := w - |s|;
    if room == 0 {
      assert Around(s, 0, w) == s;
      return s;
    }
    assert Spaces(1) == " ";
    r := " " + s + Spaces(room - 1);
  }

  lemma LeftIgnoresTitle(s: string, w: nat, first: bool, titleIdx: nat)
    requires |s| <= w
    ensures Padded(s, w, true, first, titleIdx) == Padded(s, w, true, false, 0)
  {
  }

  method Pad(s: string, w: nat, left: bool, first: bool, titleIdx: nat) returns (r: string)
    requires |s| <= w
    ensures r == Padded(s, w, left, first, titleIdx)
  {
    if left {
      LeftIgnoresTitle(s, w, first, titleIdx);
      r := PadLeft(s, w);
    } else {
      r := PadCell(s, w, first, titleIdx);
    }
  }

  // ---- measuring ----

  /** The widths of columns that also hold this row. */
  function Widen(widths: seq<nat>, row: seq<string>): (w: seq<nat>)
    ensures |w| == Max(|widths|, |row|)
    ensures forall j :: 0 <= j < |widths| ==> w[j] >= widths[j]
    ensures forall j :: 0 <= j < |row| ==> w[j] >= |row[j]|
  {
    seq(Max(|widths|, |row|), j requires 0 <= j < Max(|widths|, |row|) =>
      Max(if j < |widths| then widths[j] else 0, if j < |row| then |row[j]| else 0))
  }

  function WidenAll(widths: seq<nat>, rows: seq<seq<string>>): seq<nat> {
    if rows == [] then widths else Widen(WidenAll(widths, rows[..|rows| - 1]), rows[|rows| - 1])
  }

  method WidenRow(widths: seq<nat>, row: seq<string>) returns (w: seq<nat>)
    ensures w == Widen(widths, row)
  {
    w := widths;
    assert row[..0] == [];
    assert w == Widen(widths, row[..0]);
    for j := 0 to |row|
      invariant w == Widen(widths, row[..j])
    {
      ghost var before := w;
      if |w| < j + 1 {
        w := w + [|row[j]|];
      } else if |row[j]| > w[j] {
        w := w[j := |row[j]|];
      }
      assert forall k :: 0 <= k < j ==> row[..j + 1][k] == row[..j][k];
      assert row[..j + 1][j] == row[j];
      assert w == Widen(widths, row[..j + 1]);
    }
    assert row[..|row|] == row;
  }

  lemma {:induction false} WidenAllHolds(widths: seq<nat>, rows: seq<seq<string>>, i: nat)
    requires i < |rows|
    ensures |WidenAll(widths, rows)| >= |widths| && |WidenAll(widths, rows)| >= |rows[i]|
    ensures forall j :: 0 <= j < |widths| ==> WidenAll(widths, rows)[j] >= widths[j]
    ensures forall j :: 0 <= j < |rows[i]| ==> WidenAll(widths, rows)[j] >= |rows[i][j]|
  {
    var n := |rows| - 1;
    if n > 0 { WidenAllHolds(widths, rows[..n], if i < n then i else 0); }
  }

  /** And each column is no wider than some cell of it, its title's among them. */
  lemma {:induction false} WidenAllTight(widths: seq<nat>, rows: seq<seq<string>>, j: nat)
    requires j < |WidenAll(widths, rows)|
    ensures (j < |widths| && WidenAll(widths, rows)[j] == widths[j])
      || exists i :: 0 <= i < |rows| && j < |rows[i]| && WidenAll(widths, rows)[j] == |rows[i][j]|
  {
    if rows != [] {
      var n := |rows| - 1;
      if !(j < |rows[n]| && WidenAll(widths, rows)[j] == |rows[n][j]|) {
        WidenAllTight(widths, rows[..n], j);
        assert forall i :: 0 <= i < n ==> rows[..n][i] == rows[i];
      }
    }
  }

  // ---- the table ----

  function Filled(row: seq<string>, n: nat): (r: seq<string>)
    ensures |row| <= n ==> |r| == n
    ensures |row| <= |r| && forall j :: 0 <= j < |r| ==> r[j] == if j < |row| then row[j] else ""
  {
    if |row| < n then row + seq(n - |row|, _ => "") else row
  }

  method Fill(row: seq<string>, n: nat) returns (r: seq<string>)
    ensures r == Filled(row, n)
  {
    r := row;
    while |r| < n
      invariant |row| <= |r| && (|row| <= n ==> |r| <= n)
      invariant |r| > n ==> r == row
      invariant r == row + seq(|r| - |row|, _ => "")
    {
      r := r + [""];
    }
  }

  function Separator(n: nat): (s: seq<string>)
    ensures |s| == n && forall j :: 0 <= j < n ==> s[j] == "---"
  {
    seq(n, _ => "---")
  }

  /** The rows under the title, the separators first. */
  function Under(title: seq<string>, rows: seq<seq<string>>): seq<seq<string>> {
    [Separator(|title|)] + rows
  }

  function Widths(title: seq<string>, rows: seq<seq<string>>): seq<nat> {
    WidenAll(Widen([], title), Under(title, rows))
  }

  /** A row fits the columns. */
  predicate Fits(row: seq<string>, widths: seq<nat>) {
    |row| == |widths| && forall j :: 0 <= j < |row| ==> |row[j]| <= widths[j]
  }

  /** Where the ink of a text ends; 0 for a text without any. */
  function LastInk(s: string): (k: nat)
    ensures s != [] ==> k < |s|
    ensures forall i :: k < i < |s| ==> s[i] == ' '
    ensures k > 0 ==> s != [] && s[k] != ' '
  {
    if s == [] then 0
    else if s[|s| - 1] != ' ' then |s| - 1
    else LastInk(s[..|s| - 1])
  }

  /** Cells j and on, each padded and closed. Only below the title is the first column pushed. */
  function Cells(row: seq<string>, widths: seq<nat>, left: bool, below: bool, titleIdx: nat, j: nat): string
    requires Fits(row, widths) && j <= |row|
    decreases |row| - j
  {
    if j == |row| then ""
    else Padded(row[j], widths[j] + 2, left, below && j == 0, titleIdx) + "|"
         + Cells(row, widths, left, below, titleIdx, j + 1)
  }

  function Line(row: seq<string>, widths: seq<nat>, left: bool, below: bool, titleIdx: nat): string
    requires Fits(row, widths)
  {
    "|" + Cells(row, widths, left, below, titleIdx, 0)
  }

  function TitleIdx(title: seq<string>, widths: seq<nat>, left: bool): nat
    requires Fits(title, widths)
  {
    if title == [] then 0 else LastInk(Padded(title[0], widths[0] + 2, left, false, 0))
  }

  /** The lines of a table, its title first. */
  function Body(rows: seq<seq<string>>, widths: seq<nat>, left: bool, titleIdx: nat): string
    requires forall i :: 0 <= i < |rows| ==> Fits(Filled(rows[i], |widths|), widths)
  {
    if rows == [] then ""
    else Line(Filled(rows[0], |widths|), widths, left, true, titleIdx) + "\n" + Body(rows[1..], widths, left, titleIdx)
  }

  lemma AllFit(title: seq<string>, rows: seq<seq<string>>)
    ensures Fits(Filled(title, |Widths(title, rows)|), Widths(title, rows))
    ensures forall i :: 0 <= i < |Under(title, rows)| ==>
      Fits(Filled(Under(title, rows)[i], |Widths(title, rows)|), Widths(title, rows))
  {
    var under := Under(title, rows);
    WidenAllHolds(Widen([], title), under, 0);
    forall i | 0 <= i < |under|
      ensures Fits(Filled(under[i], |Widths(title, rows)|), Widths(title, rows))
    {
      WidenAllHolds(Widen([], title), under, i);
    }
  }

  function Table(title: seq<string>, rows: seq<seq<string>>, left: bool): string {
    AllFit(title, rows);
    var widths := Widths(title, rows);
    var top := Filled(title, |widths|);
    Line(top, widths, left, false, 0) + "\n" + Body(Under(title, rows), widths, left, TitleIdx(top, widths, left))
  }

  method InkOf(s: string) returns (k: nat)
    ensures k == LastInk(s)
  {
    k := 0;
    for i := 0 to |s|
      invariant k == LastInk(s[..i])
    {
      assert s[..i + 1][..i] == s[..i];
      if s[i] != ' ' { k := i; }
    }
    assert s[..|s|] == s;
  }

  method WriteLine(row: seq<string>, widths: seq<nat>, left: bool, below: bool, titleIdx: nat) returns (line: string)
    requires Fits(row, widths)
    ensures line == Line(row, widths, left, below, titleIdx) + "\n"
  {
    line := "|";
    var j := 0;
    while j < |row|
      invariant j <= |row|
      invariant line + Cells(row, widths, left, below, titleIdx, j) == Line(row, widths, left, below, titleIdx)
    {
      var cell := Pad(row[j], widths[j] + 2, left, below && j == 0, titleIdx);
      Closed(line, cell, Cells(row, widths, left, below, titleIdx, j + 1));
      line := line + cell + "|";
      j := j + 1;
    }
    assert line + "" == line;
    line := line + "\n";
  }

  lemma Closed(a: string, b: string, c: string)
    ensures a + (b + "|" + c) == a + b + "|" + c
  {
  }

  /** Measures the columns: title, separators and rows all fit them. */
  method Measure(title: seq<string>, rows: seq<seq<string>>) returns (widths: seq<nat>)
    ensures widths == Widths(title, rows)
    ensures Fits(Filled(title, |widths|), widths) && AllFilledFit(Under(title, rows), widths)
  {
    widths := WidenRow([], title);
    var under := Under(title, rows);
    for i := 0 to |under|
      invariant widths == WidenAll(Widen([], title), under[..i])
    {
      assert under[..i + 1][..i] == under[..i];
      widths := WidenRow(widths, under[i]);
    }
    assert under[..|under|] == under;
    AllFit(title, rows);
  }

  method TitleInk(top: seq<string>, widths: seq<nat>, left: bool) returns (k: nat)
    requires Fits(top, widths)
    ensures k == TitleIdx(top, widths, left)
  {
    if top == [] { return 0; }
    var cell := Pad(top[0], widths[0] + 2, left, false, 0);
    k := InkOf(cell);
  }

  predicate AllFilledFit(rows: seq<seq<string>>, widths: seq<nat>) {
    forall i :: 0 <= i < |rows| ==> Fits(Filled(rows[i], |widths|), widths)
  }

  method WriteBody(rows: seq<seq<string>>, widths: seq<nat>, left: bool, titleIdx: nat) returns (out: string)
    requires AllFilledFit(rows, widths)
    ensures out == Body(rows, widths, left, titleIdx)
  {
    out := "";
    var i := 0;
    assert rows[0..] == rows;
    while i < |rows|
      invariant i <= |rows|
      invariant out + Body(rows[i..], widths, left, titleIdx) == Body(rows, widths, left, titleIdx)
    {
      var row := Fill(rows[i], |widths|);
      var line := WriteLine(row, widths, left, true, titleIdx);
      assert rows[i..][1..] == rows[i + 1..];
      Joined(out, line, Body(rows[i + 1..], widths, left, titleIdx));
      out := out + line;
      i := i + 1;
    }
    assert out + "" == out;
  }

  lemma Joined(a: string, b: string, c: string)
    ensures a + (b + c) == a + b + c
  {
  }

  /** Prints a table, centred or left-aligned. */
  method MarkdownTable(title: seq<string>, rows: seq<seq<string>>, left: bool) returns (out: string)
    ensures out == Table(title, rows, left)
  {
    var widths := Measure(title, rows);
    var top := Fill(title, |widths|);
    var head := WriteLine(top, widths, left, false, 0);
    var titleIdx := TitleInk(top, widths, left);
    var body := WriteBody(Under(title, rows), widths, left, titleIdx);
    out := head + body;
  }

  // ---- what is printed ----

  /** The pieces of s between the separators. */
  function Split(s: string, sep: char): (parts: seq<string>)
    ensures parts != []
  {
    if s == [] then [[]]
    else
      var rest := Split(s[1..], sep);
      if s[0] == sep then [[]] + rest else [[s[0]] + rest[0]] + rest[1..]
  }

  predicate Free(s: string, c: char) {
    forall i :: 0 <= i < |s| ==> s[i] != c
  }

  lemma {:induction false} SplitFirst(a: string, sep: char, rest: string)
    requires Free(a, sep)
    ensures Split(a + [sep] + rest, sep) == [a] + Split(rest, sep)
  {
    var s := a + [sep] + rest;
    if a == [] {
      assert s[1..] == rest;
    } else {
      assert s[1..] == a[1..] + [sep] + rest;
      SplitFirst(a[1..], sep, rest);
      assert [a[0]] + a[1..] == a;
    }
  }

  function TrimLeft(s: string): string {
    if s != [] && s[0] == ' ' then TrimLeft(s[1..]) else s
  }

  function TrimRight(s: string): string {
    if s != [] && s[|s| - 1] == ' ' then TrimRight(s[..|s| - 1]) else s
  }

  function Trim(s: string): string {
    TrimRight(TrimLeft(s))
  }

  predicate NoEdgeSpace(s: string) {
    s != [] ==> s[0] != ' ' && s[|s| - 1] != ' '
  }

  lemma {:induction false} TrimLeftSpaces(n: nat, s: string)
    ensures TrimLeft(Spaces(n) + s) == TrimLeft(s)
  {
    if n == 0 {
      assert Spaces(0) + s == s;
    } else {
      assert (Spaces(n) + s)[1..] == Spaces(n - 1) + s;
      TrimLeftSpaces(n - 1, s);
    }
  }

  lemma {:induction false} TrimRightSpaces(s: string, n: nat)
    ensures TrimRight(s + Spaces(n)) == TrimRight(s)
  {
    if n == 0 {
      assert s + Spaces(0) == s;
    } else {
      assert (s + Spaces(n))[..|s| + n - 1] == s + Spaces(n - 1);
      TrimRightSpaces(s, n - 1);
    }
  }

  lemma TrimPadded(s: string, w: nat, left: bool, first: bool, titleIdx: nat)
    requires |s| <= w && NoEdgeSpace(s)
    ensures Trim(Padded(s, w, left, first, titleIdx)) == s
  {
    var a := LeftOf(|s|, w, left, first, titleIdx);
    var b := w - a - |s|;
    assert Around(s, a, w) == Spaces(a) + (s + Spaces(b));
    TrimLeftSpaces(a, s + Spaces(b));
    if s == [] {
      assert s + Spaces(b) == Spaces(b) + [];
      TrimLeftSpaces(b, []);
    } else {
      TrimRightSpaces(s, b);
    }
  }

  /** A cell that stays itself in a table. */
  predicate CellOk(s: string) {
    Free(s, '|') && Free(s, '\n') && NoEdgeSpace(s)
  }

  predicate RowOk(row: seq<string>) {
    forall j :: 0 <= j < |row| ==> CellOk(row[j])
  }

  predicate RowsOk(rows: seq<seq<string>>) {
    forall i :: 0 <= i < |rows| ==> RowOk(rows[i])
  }

  function TrimAll(parts: seq<string>): (r: seq<string>)
    ensures |r| == |parts| && forall j :: 0 <= j < |r| ==> r[j] == Trim(parts[j])
  {
    seq(|parts|, j requires 0 <= j < |parts| => Trim(parts[j]))
  }

  /** The cells of a line: what stands between its bars, without the spaces around it. */
  function ReadLine(line: string): seq<string> {
    var parts := Split(line, '|');
    if |parts| < 2 then [] else TrimAll(parts[1..|parts| - 1])
  }

  /** The lines of a text, each ended. */
  function ReadTable(text: string): seq<seq<string>> {
    var lines := Split(text, '\n');
    seq(|lines| - 1, i requires 0 <= i < |lines| - 1 => ReadLine(lines[i]))
  }

  lemma PaddedFree(s: string, w: nat, left: bool, first: bool, titleIdx: nat, c: char)
    requires |s| <= w && Free(s, c) && c != ' '
    ensures Free(Padded(s, w, left, first, titleIdx), c)
  {
  }

  /** No cell breaks its line. */
  predicate Unbroken(row: seq<string>) {
    forall j :: 0 <= j < |row| ==> Free(row[j], '\n')
  }

  predicate AllUnbroken(rows: seq<seq<string>>) {
    forall i :: 0 <= i < |rows| ==> Unbroken(rows[i])
  }

  lemma {:induction false} CellsUnbroken(row: seq<string>, widths: seq<nat>, left: bool, below: bool, titleIdx: nat, j: nat)
    requires Fits(row, widths) && Unbroken(row) && j <= |row|
    ensures Free(Cells(row, widths, left, below, titleIdx, j), '\n')
    decreases |row| - j
  {
    if j < |row| {
      PaddedFree(row[j], widths[j] + 2, left, below && j == 0, titleIdx, '\n');
      CellsUnbroken(row, widths, left, below, titleIdx, j + 1);
    }
  }

  /** The cells from j on, with what is between the bars of the rest before them. */
  lemma PartsStep(parts: seq<string>, cell: string, row: seq<string>, j: nat)
    requires j < |row| && |parts| == |row| - j && Trim(cell) == row[j]
    requires forall k :: j + 1 <= k < |row| ==> Trim(parts[k - (j + 1)]) == row[k]
    ensures forall k :: j <= k < |row| ==> Trim(([cell] + parts)[k - j]) == row[k]
  {
    forall k | j <= k < |row|
      ensures Trim(([cell] + parts)[k - j]) == row[k]
    {
      if k > j { assert ([cell] + parts)[k - j] == parts[k - (j + 1)]; }
    }
  }

  lemma PaddedBack(s: string, w: nat, left: bool, first: bool, titleIdx: nat)
    requires |s| <= w && CellOk(s)
    ensures Free(Padded(s, w, left, first, titleIdx), '|')
    ensures Trim(Padded(s, w, left, first, titleIdx)) == s
  {
    PaddedFree(s, w, left, first, titleIdx, '|');
    TrimPadded(s, w, left, first, titleIdx);
  }

  /** Cells j and on split at the bars into their paddings, which trim to themselves, and
      an empty end. */
  lemma {:induction false} CellsBack(row: seq<string>, widths: seq<nat>, left: bool, below: bool, titleIdx: nat, j: nat)
    requires Fits(row, widths) && RowOk(row) && j <= |row|
    ensures var parts := Split(Cells(row, widths, left, below, titleIdx, j), '|');
      |parts| == |row| - j + 1 && forall k :: j <= k < |row| ==> Trim(parts[k - j]) == row[k]
    decreases |row| - j
  {
    if j < |row| {
      var cell := Padded(row[j], widths[j] + 2, left, below && j == 0, titleIdx);
      var rest := Cells(row, widths, left, below, titleIdx, j + 1);
      PaddedBack(row[j], widths[j] + 2, left, below && j == 0, titleIdx);
      SplitFirst(cell, '|', rest);
      CellsBack(row, widths, left, below, titleIdx, j + 1);
      PartsStep(Split(rest, '|'), cell, row, j);
    }
  }

  lemma LineBack(row: seq<string>, widths: seq<nat>, left: bool, below: bool, titleIdx: nat)
    requires Fits(row, widths) && RowOk(row)
    ensures ReadLine(Line(row, widths, left, below, titleIdx)) == row
  {
    var cells := Cells(row, widths, left, below, titleIdx, 0);
    CellsBack(row, widths, left, below, titleIdx, 0);
    SplitFirst("", '|', cells);
    assert "" + "|" + cells == Line(row, widths, left, below, titleIdx);
    var parts := Split(cells, '|');
    BetweenBars(parts);
  }

  lemma BetweenBars(parts: seq<string>)
    requires parts != []
    ensures ([""] + parts)[1..|parts|] == parts[..|parts| - 1]
  {
    var all := [""] + parts;
    assert forall k :: 0 <= k < |parts| - 1 ==> all[1..|parts|][k] == all[k + 1] == parts[k];
  }

  function FilledAll(rows: seq<seq<string>>, n: nat): (r: seq<seq<string>>)
    ensures |r| == |rows| && forall i :: 0 <= i < |rows| ==> r[i] == Filled(rows[i], n)
  {
    seq(|rows|, i requires 0 <= i < |rows| => Filled(rows[i], n))
  }

  lemma ReadFirst(line: string, rest: string)
    requires Free(line, '\n')
    ensures ReadTable(line + "\n" + rest) == [ReadLine(line)] + ReadTable(rest)
  {
    SplitFirst(line, '\n', rest);
    assert "\n" == ['\n'];
  }

  /** A line is read back as its row, and the rest as it would be alone. */
  lemma LineThen(row: seq<string>, widths: seq<nat>, left: bool, below: bool, titleIdx: nat, rest: string)
    requires Fits(row, widths) && RowOk(row)
    ensures ReadTable(Line(row, widths, left, below, titleIdx) + "\n" + rest) == [row] + ReadTable(rest)
  {
    LineBack(row, widths, left, below, titleIdx);
    CellsUnbroken(row, widths, left, below, titleIdx, 0);
    ReadFirst(Line(row, widths, left, below, titleIdx), rest);
  }

  lemma {:induction false} BodyBack(rows: seq<seq<string>>, widths: seq<nat>, left: bool, titleIdx: nat)
    requires AllFilledFit(rows, widths) && RowsOk(rows)
    ensures ReadTable(Body(rows, widths, left, titleIdx)) == FilledAll(rows, |widths|)
  {
    if rows != [] {
      var row := Filled(rows[0], |widths|);
      assert RowOk(rows[0]);
      LineThen(row, widths, left, true, titleIdx, Body(rows[1..], widths, left, titleIdx));
      BodyBack(rows[1..], widths, left, titleIdx);
      FilledFirst(rows, |widths|);
    }
  }

  lemma FilledFirst(rows: seq<seq<string>>, n: nat)
    requires rows != []
    ensures FilledAll(rows, n) == [Filled(rows[0], n)] + FilledAll(rows[1..], n)
  {
  }

  lemma UnderOk(title: seq<string>, rows: seq<seq<string>>)
    requires RowsOk(rows)
    ensures RowsOk(Under(title, rows))
  {
    assert RowOk(Separator(|title|));
  }

  /** The table can be read back off what is printed: its title, the separators and its
      rows, each filled up to the columns of the longest. */
  lemma TableBack(title: seq<string>, rows: seq<seq<string>>, left: bool)
    requires RowOk(title) && RowsOk(rows)
    ensures var n := |Widths(title, rows)|;
      ReadTable(Table(title, rows, left)) == [Filled(title, n)] + FilledAll(Under(title, rows), n)
  {
    AllFit(title, rows);
    UnderOk(title, rows);
    var widths := Widths(title, rows);
    var top := Filled(title, |widths|);
    var titleIdx := TitleIdx(top, widths, left);
    LineThen(top, widths, left, false, 0, Body(Under(title, rows), widths, left, titleIdx));
    BodyBack(Under(title, rows), widths, left, titleIdx);
  }

  // ---- one width ----

  function Across(widths: seq<nat>, j: nat): nat
    requires j <= |widths|
    decreases |widths| - j
  {
    if j == |widths| then 0 else widths[j] + 3 + Across(widths, j + 1)
  }

  lemma {:induction false} CellsWidth(row: seq<string>, widths: seq<nat>, left: bool, below: bool, titleIdx: nat, j: nat)
    requires Fits(row, widths) && j <= |row|
    ensures |Cells(row, widths, left, below, titleIdx, j)| == Across(widths, j)
    decreases |row| - j
  {
    if j < |row| { CellsWidth(row, widths, left, below, titleIdx, j + 1); }
  }

  /** Every ended line of a text is so wide. */
  predicate Rectangular(text: string, width: nat) {
    var lines := Split(text, '\n');
    lines[|lines| - 1] == [] && forall i :: 0 <= i < |lines| - 1 ==> |lines[i]| == width
  }

  lemma RectangleGrows(line: string, rest: string, width: nat)
    requires Free(line, '\n') && |line| == width && Rectangular(rest, width)
    ensures Rectangular(line + "\n" + rest, width)
  {
    SplitFirst(line, '\n', rest);
    assert "\n" == ['\n'];
  }

  lemma LineRectangular(row: seq<string>, widths: seq<nat>, left: bool, below: bool, titleIdx: nat, rest: string)
    requires Fits(row, widths) && Unbroken(row) && Rectangular(rest, 1 + Across(widths, 0))
    ensures Rectangular(Line(row, widths, left, below, titleIdx) + "\n" + rest, 1 + Across(widths, 0))
  {
    CellsUnbroken(row, widths, left, below, titleIdx, 0);
    CellsWidth(row, widths, left, below, titleIdx, 0);
    RectangleGrows(Line(row, widths, left, below, titleIdx), rest, 1 + Across(widths, 0));
  }

  lemma {:induction false} BodyRectangular(rows: seq<seq<string>>, widths: seq<nat>, left: bool, titleIdx: nat)
    requires AllFilledFit(rows, widths) && AllUnbroken(rows)
    ensures Rectangular(Body(rows, widths, left, titleIdx), 1 + Across(widths, 0))
  {
    if rows != [] {
      var row := Filled(rows[0], |widths|);
      assert Unbroken(rows[0]);
      BodyRectangular(rows[1..], widths, left, titleIdx);
      LineRectangular(row, widths, left, true, titleIdx, Body(rows[1..], widths, left, titleIdx));
    }
  }

  /** Every line of the table has the same width, whatever the lengths of its rows. */
  lemma TableRectangular(title: seq<string>, rows: seq<seq<string>>, left: bool)
    requires Unbroken(title) && AllUnbroken(rows)
    ensures Rectangular(Table(title, rows, left), 1 + Across(Widths(title, rows), 0))
  {
    AllFit(title, rows);
    var widths := Widths(title, rows);
    var top := Filled(title, |widths|);
    var titleIdx := TitleIdx(top, widths, left);
    assert Unbroken(Separator(|title|));
    BodyRectangular(Under(title, rows), widths, left, titleIdx);
    LineRectangular(top, widths, left, false, 0, Body(Under(title, rows), widths, left, titleIdx));
  }

  // ---- where every cell is ----

  /** Where the j-th cell of a line begins, padding and all: behind the first bar, the cells
      before it, two more places each, and their bars. */
  function Start(widths: seq<nat>, j: nat): (at: nat)
    requires j <= |widths|
    ensures at >= 1
  {
    if j == 0 then 1 else Start(widths, j - 1) + widths[j - 1] + 3
  }

  lemma {:induction false} BeforeCell(row: seq<string>, widths: seq<nat>, left: bool, below: bool, titleIdx: nat, j: nat)
    returns (pre: string)
    requires Fits(row, widths) && j <= |row|
    ensures |pre| == Start(widths, j) && pre[|pre| - 1] == '|'
    ensures Line(row, widths, left, below, titleIdx) == pre + Cells(row, widths, left, below, titleIdx, j)
  {
    if j == 0 {
      pre := "|";
    } else {
      var before := BeforeCell(row, widths, left, below, titleIdx, j - 1);
      var cell := Padded(row[j - 1], widths[j - 1] + 2, left, below && j == 1, titleIdx);
      pre := before + cell + "|";
      Closed(before, cell, Cells(row, widths, left, below, titleIdx, j));
    }
  }

  /** The spaces before a cell of this length: one if the table is aligned left; else half of
      its room, and in the first column under the title a third, no more than the title has. */
  function Lead(len: nat, width: nat, left: bool, pushed: bool, titleIdx: nat): (a: nat)
    requires len <= width
    ensures a + len <= width + 2
  {
    var room := width + 2 - len;
    if left then 1 else if pushed then Min((room + 1) / 3, titleIdx) else room / 2
  }

  /** A line has the cell there between two bars, so far from the left. */
  predicate HasCell(line: string, at: nat, cell: string, width: nat, lead: nat)
    requires lead + |cell| <= width + 2
  {
    && 1 <= at && at + width + 2 < |line|
    && line[at - 1] == '|' && line[at + width + 2] == '|'
    && line[at..at + width + 2] == Around(cell, lead, width + 2)
  }

  lemma LeadIs(s: string, width: nat, left: bool, first: bool, titleIdx: nat)
    requires |s| <= width
    ensures Padded(s, width + 2, left, first, titleIdx) == Around(s, Lead(|s|, width, left, first, titleIdx), width + 2)
  {
  }

  /** A line is what is before a cell, the cell with its spaces, its bar and what is behind. */
  lemma LineParts(row: seq<string>, widths: seq<nat>, left: bool, below: bool, titleIdx: nat, j: nat)
    returns (pre: string, padded: string, rest: string)
    requires Fits(row, widths) && j < |row|
    ensures |pre| == Start(widths, j) && pre[|pre| - 1] == '|'
    ensures padded == Around(row[j], Lead(|row[j]|, widths[j], left, below && j == 0, titleIdx), widths[j] + 2)
    ensures Line(row, widths, left, below, titleIdx) == pre + (padded + "|" + rest)
  {
    pre := BeforeCell(row, widths, left, below, titleIdx, j);
    padded := Padded(row[j], widths[j] + 2, left, below && j == 0, titleIdx);
    rest := Cells(row, widths, left, below, titleIdx, j + 1);
    LeadIs(row[j], widths[j], left, below && j == 0, titleIdx);
  }

  lemma CellPlace(row: seq<string>, widths: seq<nat>, left: bool, below: bool, titleIdx: nat, j: nat,
                  line: string, at: nat, lead: nat)
    requires Fits(row, widths) && j < |row| && line == Line(row, widths, left, below, titleIdx)
    requires at == Start(widths, j) && lead == Lead(|row[j]|, widths[j], left, below && j == 0, titleIdx)
    ensures HasCell(line, at, row[j], widths[j], lead)
  {
    var pre, padded, rest := LineParts(row, widths, left, below, titleIdx, j);
    CellBetween(line, at, pre, padded, rest, row[j], widths[j], lead);
  }

  lemma CellBetween(line: string, at: nat, pre: string, padded: string, rest: string, cell: string, width: nat, lead: nat)
    requires |pre| == at >= 1 && pre[at - 1] == '|' && line == pre + (padded + "|" + rest)
    requires lead + |cell| <= width + 2 && padded == Around(cell, lead, width + 2)
    ensures HasCell(line, at, cell, width, lead)
  {
    assert line[at..] == padded + "|" + rest;
    assert line[at..at + width + 2] == padded;
  }

  /** How far the title's first cell reaches into its column. */
  function Reach(len: nat, width: nat, left: bool): nat
    requires len <= width
  {
    if len == 0 then 0 else if left then len else (width + 2 - len) / 2 + len - 1
  }

  lemma TitleReach(title: seq<string>, widths: seq<nat>, left: bool)
    requires Fits(title, widths) && title != [] && NoEdgeSpace(title[0])
    ensures TitleIdx(title, widths, left) == Reach(|title[0]|, widths[0], left)
  {
    var s, w := title[0], widths[0] + 2;
    var cell := Padded(s, w, left, false, 0);
    var a, k := LeftOf(|s|, w, left, false, 0), LastInk(cell);
    if s != [] {
      assert cell[a + |s| - 1] == s[|s| - 1] && forall i :: a + |s| <= i < w ==> cell[i] == ' ';
    }
  }

  lemma {:induction false} BodyLines(rows: seq<seq<string>>, widths: seq<nat>, left: bool, titleIdx: nat, i: nat)
    requires AllFilledFit(rows, widths) && AllUnbroken(rows)
    ensures var lines := Split(Body(rows, widths, left, titleIdx), '\n');
      |lines| == |rows| + 1 && (i < |rows| ==> lines[i] == Line(Filled(rows[i], |widths|), widths, left, true, titleIdx))
  {
    if rows != [] {
      var row := Filled(rows[0], |widths|);
      assert Unbroken(rows[0]);
      CellsUnbroken(row, widths, left, true, titleIdx, 0);
      SplitFirst(Line(row, widths, left, true, titleIdx), '\n', Body(rows[1..], widths, left, titleIdx));
      assert "\n" == ['\n'];
      BodyLines(rows[1..], widths, left, titleIdx, if i > 0 then i - 1 else 0);
    }
  }

  /** The lines of what is printed. */
  lemma TableLines(title: seq<string>, rows: seq<seq<string>>, left: bool, i: nat)
    requires Unbroken(title) && AllUnbroken(rows)
    ensures var widths, under := Widths(title, rows), Under(title, rows);
      var top, lines := Filled(title, |widths|), Split(Table(title, rows, left), '\n');
      && |lines| == |rows| + 3 && Fits(top, widths) && AllFilledFit(under, widths)
      && lines[0] == Line(top, widths, left, false, 0)
      && (i < |under| ==> lines[i + 1] == Line(Filled(under[i], |widths|), widths, left, true, TitleIdx(top, widths, left)))
  {
    AllFit(title, rows);
    var widths, under := Widths(title, rows), Under(title, rows);
    var top := Filled(title, |widths|);
    var titleIdx := TitleIdx(top, widths, left);
    assert Unbroken(Separator(|title|));
    CellsUnbroken(top, widths, left, false, 0, 0);
    SplitFirst(Line(top, widths, left, false, 0), '\n', Body(under, widths, left, titleIdx));
    assert "\n" == ['\n'];
    BodyLines(under, widths, left, titleIdx, i);
  }

  /** The cell of a column in a line: the title's in line 0, the dashes in line 1, and the rows'
      in the others, short ones filled up. */
  function CellOf(title: seq<string>, rows: seq<seq<string>>, i: nat, j: nat): string
    requires i < |rows| + 2
  {
    var row := if i == 0 then title else if i == 1 then seq(|title|, _ => "---") else rows[i - 2];
    if j < |row| then row[j] else ""
  }

  lemma FilledCell(title: seq<string>, rows: seq<seq<string>>, i: nat, j: nat, n: nat)
    requires i < |rows| + 2
    ensures var r := Filled(if i == 0 then title else Under(title, rows)[i - 1], n);
      j < |r| ==> r[j] == CellOf(title, rows, i, j)
  {
  }

  /** Every cell is where it belongs, so far from the left of its column; only the first column
      is pushed, and no further than its title reaches. */
  lemma TableCell(title: seq<string>, rows: seq<seq<string>>, left: bool, i: nat, j: nat)
    requires Unbroken(title) && AllUnbroken(rows) && i < |rows| + 2 && j < |Widths(title, rows)|
    requires title != [] && NoEdgeSpace(title[0])
    ensures var widths, lines, cell := Widths(title, rows), Split(Table(title, rows, left), '\n'), CellOf(title, rows, i, j);
      && |lines| == |rows| + 3 && |cell| <= widths[j] && |title[0]| <= widths[0]
      && HasCell(lines[i], Start(widths, j), cell, widths[j],
                 Lead(|cell|, widths[j], left, i > 0 && j == 0, Reach(|title[0]|, widths[0], left)))
  {
    TableLines(title, rows, left, if i > 0 then i - 1 else 0);
    var widths := Widths(title, rows);
    var top := Filled(title, |widths|);
    var reach := Reach(|title[0]|, widths[0], left);
    var line := Split(Table(title, rows, left), '\n')[i];
    FilledCell(title, rows, i, j, |widths|);
    TitleReach(top, widths, left);
    if i == 0 {
      CellPlace(top, widths, left, false, 0, j, line, Start(widths, j), Lead(|top[j]|, widths[j], left, false, reach));
    } else {
      var row := Filled(Under(title, rows)[i - 1], |widths|);
      assert Fits(row, widths);
      CellPlace(row, widths, left, true, reach, j, line, Start(widths, j), Lead(|row[j]|, widths[j], left, j == 0, reach));
    }
  }
}
