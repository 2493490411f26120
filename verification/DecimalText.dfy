/** Decimal numbers as text, and literal prefixes. */
module DecimalText {
  import opened Sequences
  import opened Utf16

  const MAX_SAFE_INTEGER: nat := 0x1F_FFFF_FFFF_FFFF

  datatype Scan = Scan(value: nat, rest: Text)

  predicate IsDigit(unit: int) { '0' as int <= unit <= '9' as int }

  /** `String(n)`. */
  function Decimal(n: nat): (t: Text)
    ensures t != [] && forall i | 0 <= i < |t| :: IsDigit(t[i])
  {
    if n < 10 then [('0' as int) + n] else Decimal(n / 10) + [('0' as int) + n % 10]
  }

  function Digit(unit: int): nat
    requires IsDigit(unit)
  {
    unit - ('0' as int)
  }

  /** `Number(digits)`, before rounding. */
  function Value(digits: Text): nat
    requires forall i | 0 <= i < |digits| :: IsDigit(digits[i])
  {
    if digits == [] then 0 else Value(digits[..|digits| - 1]) * 10 + Digit(digits[|digits| - 1])
  }

  lemma {:induction false} ValueOfDecimal(n: nat)
    ensures Value(Decimal(n)) == n
  {
    if n < 10 {
      var digits := Decimal(n);
      assert digits[..|digits| - 1] == [];
    } else {
      ValueOfDecimal(n / 10);
      assert Decimal(n)[..|Decimal(n)| - 1] == Decimal(n / 10);
    }
  }

  /** How many digits `t` starts with. */
  function Digits(t: Text): (n: nat)
    ensures n <= |t| && forall i | 0 <= i < n :: IsDigit(t[i])
    ensures n < |t| ==> !IsDigit(t[n])
  {
    if t == [] || !IsDigit(t[0]) then 0 else
      var n := Digits(t[1..]);
      assert forall i | 0 < i < n + 1 :: t[i] == t[1..][i - 1];
      assert n < |t[1..]| ==> t[n + 1] == t[1..][n];
      n + 1
  }

  /** Reads a decimal number; it fails without a digit. */
  function ScanNumber(t: Text): Option<Scan> {
    var n := Digits(t);
    if n == 0 then None else Some(Scan(Value(t[..n]), t[n..]))
  }

  /** A printed number is read back, whatever non-digit follows it. */
  lemma ScanDecimal(n: nat, rest: Text)
    requires rest == [] || !IsDigit(rest[0])
    ensures ScanNumber(Decimal(n) + rest) == Some(Scan(n, rest))
  {
    var d := Decimal(n);
    var t := d + rest;
    var count := Digits(t);
    assert forall i | 0 <= i < |d| :: t[i] == d[i];
    if rest != [] { assert t[|d|] == rest[0]; }
    assert count == |d|;
    assert t[..count] == d && t[count..] == rest;
    ValueOfDecimal(n);
  }

  /** What follows `literal`, if `t` starts with it. */
  function After(t: Text, literal: Text): Option<Text> {
    if literal <= t then Some(t[|literal|..]) else None
  }

  lemma AfterLiteral(literal: Text, rest: Text)
    ensures After(literal + rest, literal) == Some(rest)
  {
    assert (literal + rest)[|literal|..] == rest;
  }
}
