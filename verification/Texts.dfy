/** Characters the reports are made of. */
module Texts {
  import opened Bytes

  function Spaces(n: nat): (s: string)
    ensures |s| == n && forall i :: 0 <= i < n ==> s[i] == ' '
  {
    seq(n, _ => ' ')
  }

  /** A number in decimal, as characters. */
  function Digits(n: nat): (s: string)
    ensures |s| == |Decimal(n)| && forall i :: 0 <= i < |s| ==> s[i] as int == Decimal(n)[i] as int
  {
    var d := Decimal(n);
    seq(|d|, i requires 0 <= i < |d| => d[i] as char)
  }
}
