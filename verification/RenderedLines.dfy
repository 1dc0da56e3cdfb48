/** The text of rendered element lines: how an index is written, and how it is read back. */
module RenderedLines {
  import opened Options

  predicate IsDigit(c: char) {
    '0' <= c <= '9'
  }

  function DigitChar(d: nat): (c: char)
    requires d < 10
    ensures IsDigit(c)
  {
    '0' + d as char
  }

  function DigitValue(c: char): nat
    requires IsDigit(c)
  {
    (c - '0') as nat
  }

  function Decimal(n: nat): (s: string)
    ensures s != [] && forall k :: 0 <= k < |s| ==> IsDigit(s[k])
  {
    (if n < 10 then [] else Decimal(n / 10)) + [DigitChar(n % 10)]
  }

  function Number(digits: string): nat
    requires forall k :: 0 <= k < |digits| ==> IsDigit(digits[k])
  {
    if digits == [] then 0 else 10 * Number(digits[..|digits| - 1]) + DigitValue(digits[|digits| - 1])
  }

  function LeadingDigits(s: string): (n: nat)
    ensures n <= |s| && forall k :: 0 <= k < n ==> IsDigit(s[k])
    ensures n < |s| ==> !IsDigit(s[n])
  {
    if s != [] && IsDigit(s[0]) then 1 + LeadingDigits(s[1..]) else 0
  }

  function Tabs(depth: nat): (s: string)
    ensures |s| == depth
  {
    seq(depth, _ => '\t')
  }

  /** A slice from `depth` on; empty when the line is shorter. */
  function FromColumn(line: string, depth: nat): string {
    if depth <= |line| then line[depth..] else []
  }

  /** `rendered_element_index`. */
  function ElementIndex(line: string, depth: nat): Option<nat> {
    var text := FromColumn(line, depth);
    var n := LeadingDigits(text);
    if n == 0 then None else Some(Number(text[..n]))
  }

  lemma {:induction false} DecimalRoundTrip(n: nat)
    ensures Number(Decimal(n)) == n
  {
    var s := Decimal(n);
    assert DigitValue(DigitChar(n % 10)) == n % 10;
    if n < 10 {
      assert s == [DigitChar(n)] && s[..0] == [];
    } else {
      DecimalRoundTrip(n / 10);
      assert s[..|s| - 1] == Decimal(n / 10);
    }
  }

  lemma {:induction false} DigitRun(digits: string, rest: string)
    requires forall k :: 0 <= k < |digits| ==> IsDigit(digits[k])
    requires rest != [] ==> !IsDigit(rest[0])
    ensures LeadingDigits(digits + rest) == |digits|
    decreases |digits|
  {
    if digits == [] {
      assert digits + rest == rest;
    } else {
      assert (digits + rest)[1..] == digits[1..] + rest;
      DigitRun(digits[1..], rest);
    }
  }

  /** The index that a line was rendered with is the index read from it. */
  lemma ElementIndexRoundTrip(depth: nat, index: nat, rest: string)
    requires rest != [] ==> !IsDigit(rest[0])
    ensures ElementIndex(Tabs(depth) + (Decimal(index) + rest), depth) == Some(index)
  {
    var line := Tabs(depth) + (Decimal(index) + rest);
    assert line[depth..] == Decimal(index) + rest;
    DigitRun(Decimal(index), rest);
    assert (Decimal(index) + rest)[..|Decimal(index)|] == Decimal(index);
    DecimalRoundTrip(index);
  }
}
