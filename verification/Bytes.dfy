/** Byte strings: searching, trimming, ASCII case folding and number texts, as the
    two clients' standard libraries do them. */
module Bytes {
  import opened Options
  type byte = b: int | 0 <= b < 256

  /** The two implementations; they differ in a few library calls. */
  datatype Client = Rust | Go

  const LF: byte := 10
  const CR: byte := 13
  const VT: byte := 11
  const SP: byte := 32
  const COLON: byte := 58
  const SEMICOLON: byte := 59
  const PLUS: byte := 43
  const MINUS: byte := 45
  const CRLF: seq<byte> := [CR, LF]

  /** The bytes of an ASCII literal. */
  function Ascii(s: string): (b: seq<byte>)
    requires forall i :: 0 <= i < |s| ==> s[i] < 128 as char
    ensures |b| == |s| && forall i :: 0 <= i < |s| ==> b[i] == s[i] as int
  {
    seq(|s|, i requires 0 <= i < |s| => s[i] as int)
  }

  // ---- searching ----

  /** The position of the first x in s, or |s|. */
  function IndexOf(s: seq<byte>, x: byte): (i: nat)
    ensures i <= |s|
    ensures i < |s| ==> s[i] == x
    ensures forall k :: 0 <= k < i ==> s[k] != x
  {
    if s == [] || s[0] == x then 0 else 1 + IndexOf(s[1..], x)
  }

  /** IndexOf is determined by what it promises. */
  lemma IndexOfIs(s: seq<byte>, x: byte, i: nat)
    requires i < |s| && s[i] == x && forall k :: 0 <= k < i ==> s[k] != x
    ensures IndexOf(s, x) == i
  {
  }

  lemma IndexOfNone(s: seq<byte>, x: byte)
    requires x !in s
    ensures IndexOf(s, x) == |s|
  {
  }

  /** A line without the carriage return of its ending. */
  function StripCr(line: seq<byte>): seq<byte> {
    if line != [] && line[|line| - 1] == CR then line[..|line| - 1] else line
  }

  // ---- trimming ----

  /** The single bytes trim_ascii and bytes.TrimSpace strip: the same of ASCII, but for the
      vertical tab, which only Go knows. */
  predicate IsSpace(client: Client, b: byte) {
    b == SP || b == 9 || b == LF || b == 12 || b == CR || (client.Go? && b == VT)
  }

  /** The spaces of Unicode beyond ASCII, as UTF-8: two of two bytes, the others of three. */
  predicate IsWideSpace(a: byte, b: byte) {
    a == 0xC2 && (b == 0x85 || b == 0xA0)
  }

  predicate IsWiderSpace(a: byte, b: byte, c: byte) {
    || (a == 0xE1 && b == 0x9A && c == 0x80)
    || (a == 0xE2 && b == 0x80 && (0x80 <= c <= 0x8A || c == 0xA8 || c == 0xA9 || c == 0xAF))
    || (a == 0xE2 && b == 0x81 && c == 0x9F)
    || (a == 0xE3 && b == 0x80 && c == 0x80)
  }

  /** How many bytes the space takes that v starts with; 0 if it starts with none. Go knows
      those of Unicode. */
  function LeadSpace(client: Client, v: seq<byte>): (n: nat)
    ensures n <= |v|
  {
    if v == [] then 0
    else if IsSpace(client, v[0]) then 1
    else if client.Go? && |v| >= 2 && IsWideSpace(v[0], v[1]) then 2
    else if client.Go? && |v| >= 3 && IsWiderSpace(v[0], v[1], v[2]) then 3
    else 0
  }

  /** The same at the end. */
  function TailSpace(client: Client, v: seq<byte>): (n: nat)
    ensures n <= |v|
  {
    var k := |v|;
    if v == [] then 0
    else if IsSpace(client, v[k - 1]) then 1
    else if client.Go? && k >= 2 && IsWideSpace(v[k - 2], v[k - 1]) then 2
    else if client.Go? && k >= 3 && IsWiderSpace(v[k - 3], v[k - 2], v[k - 1]) then 3
    else 0
  }

  function TrimLeft(client: Client, v: seq<byte>): seq<byte>
    decreases |v|
  {
    var n := LeadSpace(client, v);
    if n > 0 then TrimLeft(client, v[n..]) else v
  }

  function TrimRight(client: Client, v: seq<byte>): seq<byte>
    decreases |v|
  {
    var n := TailSpace(client, v);
    if n > 0 then TrimRight(client, v[..|v| - n]) else v
  }

  function Trim(client: Client, v: seq<byte>): seq<byte> {
    TrimRight(client, TrimLeft(client, v))
  }

  /** Optional whitespace, section 5.6.3 of RFC 9110. */
  predicate IsOws(v: seq<byte>) {
    forall i :: 0 <= i < |v| ==> v[i] == SP || v[i] == 9
  }

  predicate NoEdgeSpace(client: Client, v: seq<byte>) {
    LeadSpace(client, v) == 0 && TailSpace(client, v) == 0
  }

  /** An ASCII byte behind v is no part of a space v starts with. */
  lemma LeadSpaceAhead(client: Client, v: seq<byte>, more: seq<byte>)
    requires v != [] && (more == [] || more[0] < 128)
    ensures LeadSpace(client, v + more) == LeadSpace(client, v)
  {
  }

  /** ASCII that is no space at both ends. */
  lemma InkEdges(client: Client, v: seq<byte>)
    requires v != [] && v[0] < 128 && v[|v| - 1] < 128 && !IsSpace(client, v[0]) && !IsSpace(client, v[|v| - 1])
    ensures NoEdgeSpace(client, v)
  {
  }

  lemma {:induction false} TrimLeftPadded(client: Client, lead: seq<byte>, v: seq<byte>)
    requires IsOws(lead) && LeadSpace(client, v) == 0
    ensures TrimLeft(client, lead + v) == v
    decreases |lead|
  {
    if lead == [] {
      assert lead + v == v;
    } else {
      assert LeadSpace(client, lead + v) == 1;
      assert (lead + v)[1..] == lead[1..] + v;
      TrimLeftPadded(client, lead[1..], v);
    }
  }

  lemma {:induction false} TrimRightPadded(client: Client, v: seq<byte>, trail: seq<byte>)
    requires IsOws(trail) && TailSpace(client, v) == 0
    ensures TrimRight(client, v + trail) == v
    decreases |trail|
  {
    if trail == [] {
      assert v + trail == v;
    } else {
      var w := v + trail;
      assert TailSpace(client, w) == 1;
      assert w[..|w| - 1] == v + trail[..|trail| - 1];
      TrimRightPadded(client, v, trail[..|trail| - 1]);
    }
  }

  /** Optional whitespace around a value is exactly what trimming takes off. */
  lemma TrimPadded(client: Client, lead: seq<byte>, v: seq<byte>, trail: seq<byte>)
    requires IsOws(lead) && IsOws(trail) && NoEdgeSpace(client, v)
    ensures Trim(client, lead + v + trail) == v
  {
    if v == [] {
      TrimLeftPadded(client, lead + trail, []);
      assert lead + v + trail == lead + trail + [];
    } else {
      assert lead + v + trail == lead + (v + trail);
      LeadSpaceAhead(client, v, trail);
      TrimLeftPadded(client, lead, v + trail);
      TrimRightPadded(client, v, trail);
    }
  }

  // ---- ASCII case ----

  function Lower(b: byte): byte {
    if 65 <= b <= 90 then b + 32 else b
  }

  predicate EqualFold(a: seq<byte>, b: seq<byte>) {
    |a| == |b| && forall i :: 0 <= i < |a| ==> Lower(a[i]) == Lower(b[i])
  }

  predicate FoldAt(v: seq<byte>, word: seq<byte>, i: nat) {
    i + |word| <= |v| && EqualFold(v[i..i + |word|], word)
  }

  /** word occurs in v, case apart. */
  predicate ContainsFold(v: seq<byte>, word: seq<byte>) {
    exists i :: 0 <= i <= |v| && FoldAt(v, word, i)
  }

  // ---- numbers ----

  function Digit(base: nat, b: byte): Option<nat>
    requires base == 10 || base == 16
  {
    if 48 <= b <= 57 then Some(b - 48)
    else if base == 16 && 97 <= Lower(b) <= 102 then Some(Lower(b) - 87)
    else None
  }

  predicate AllDigits(base: nat, v: seq<byte>)
    requires base == 10 || base == 16
  {
    forall i :: 0 <= i < |v| ==> Digit(base, v[i]).Some?
  }

  /** The number a text of digits stands for. */
  function Value(base: nat, v: seq<byte>): nat
    requires base == 10 || base == 16
    requires AllDigits(base, v)
  {
    if v == [] then 0
    else base * Value(base, v[..|v| - 1]) + Digit(base, v[|v| - 1]).value
  }

  const USIZE_LIMIT: nat := 0x1_0000_0000_0000_0000
  const INT_LIMIT: nat := 0x8000_0000_0000_0000

  /** usize::from_str_radix, and strconv.Atoi or ParseInt with negative numbers refused. */
  function ParseNumber(client: Client, base: nat, v: seq<byte>): Option<nat>
    requires base == 10 || base == 16
  {
    var signed := v != [] && (v[0] == PLUS || (client.Go? && v[0] == MINUS));
    var digits := if signed then v[1..] else v;
    if digits == [] || !AllDigits(base, digits) then None
    else
      var n := Value(base, digits);
      if client.Rust? then (if n < USIZE_LIMIT then Some(n) else None)
      else if signed && v[0] == MINUS then (if n == 0 then Some(0) else None)
      else if n < INT_LIMIT then Some(n) else None
  }

  /** A text of digits, signed or not, that one client reads and the other does not: a
      negative zero, which only Go takes, or a number Go's int cannot hold and Rust's usize
      can. */
  predicate OneReads(base: nat, v: seq<byte>)
    requires base == 10 || base == 16
  {
    var digits := if v != [] && (v[0] == PLUS || v[0] == MINUS) then v[1..] else v;
    && digits != [] && AllDigits(base, digits)
    && if v[0] == MINUS then Value(base, digits) == 0
       else INT_LIMIT <= Value(base, digits) < USIZE_LIMIT
  }

  /** Those are all the texts they read differently. */
  lemma ParseNumberDiffers(base: nat, v: seq<byte>)
    requires base == 10 || base == 16
    ensures ParseNumber(Rust, base, v) != ParseNumber(Go, base, v) <==> OneReads(base, v)
    ensures OneReads(base, v) ==> ParseNumber(Rust, base, v).None? != ParseNumber(Go, base, v).None?
  {
    if v != [] && v[0] == MINUS {
      assert Digit(base, v[0]).None?;
      assert !AllDigits(base, v);
    }
  }

  /** A text of digits is read as its value by both clients. */
  lemma ParsePlain(client: Client, base: nat, v: seq<byte>)
    requires base == 10 || base == 16
    requires v != [] && AllDigits(base, v) && Value(base, v) < INT_LIMIT
    ensures ParseNumber(client, base, v) == Some(Value(base, v))
    ensures NoEdgeSpace(client, v)
  {
    assert Digit(base, v[0]).Some? && Digit(base, v[|v| - 1]).Some?;
    InkEdges(client, v);
  }

  /** A number in decimal. */
  function Decimal(n: nat): (v: seq<byte>)
    ensures v != []
  {
    if n < 10 then [48 + n] else Decimal(n / 10) + [48 + n % 10]
  }

  lemma {:induction false} DecimalValue(n: nat)
    ensures AllDigits(10, Decimal(n)) && Value(10, Decimal(n)) == n
  {
    var v := Decimal(n);
    if n < 10 {
      assert v[..|v| - 1] == [];
    } else {
      DecimalValue(n / 10);
      assert v[..|v| - 1] == Decimal(n / 10);
      assert Digit(10, v[|v| - 1]) == Some(n % 10);
    }
  }
}
