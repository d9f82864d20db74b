/** `parseInt` and `parseFloat` as the row coercion of app.tsx calls them: with
    no radix, on a trimmed cell or on `undefined`. `NaN` is `None`; the
    `|| 0` that follows each call in the source turns `None` (and zero) into 0.
    Values are exact: the double rounding of large or fractional numbers is
    not modelled. */
module Numbers {
  import opened Wrappers
  import opened Text

  predicate IsDecimalDigit(c: char) {
    '0' <= c <= '9'
  }

  predicate IsRadixDigit(c: char, radix: nat) {
    if radix == 16 then IsDecimalDigit(c) || 'a' <= c <= 'f' || 'A' <= c <= 'F'
    else IsDecimalDigit(c)
  }

  function DigitValue(c: char): nat {
    if IsDecimalDigit(c) then c as int - '0' as int
    else if 'a' <= c <= 'f' then c as int - 'a' as int + 10
    else if 'A' <= c <= 'F' then c as int - 'A' as int + 10
    else 0
  }

  /** Length of the longest run of `radix` digits starting at `from`. */
  function DigitRun(s: string, from: nat, radix: nat): (n: nat)
    requires from <= |s|
    ensures from + n <= |s|
    ensures forall k :: from <= k < from + n ==> IsRadixDigit(s[k], radix)
    ensures from + n == |s| || !IsRadixDigit(s[from + n], radix)
    decreases |s| - from
  {
    if from < |s| && IsRadixDigit(s[from], radix) then 1 + DigitRun(s, from + 1, radix) else 0
  }

  /** The number a string of digits denotes, most significant digit first. */
  function ValueOf(digits: string, radix: nat): nat {
    if |digits| == 0 then 0
    else ValueOf(digits[..|digits| - 1], radix) * radix + DigitValue(digits[|digits| - 1])
  }

  /** `v` times ten to the power `e`, one decimal place at a time. */
  function Shift(v: real, e: int): real
    decreases if e >= 0 then e else -e
  {
    if e == 0 then v
    else if e > 0 then 10.0 * Shift(v, e - 1)
    else Shift(v, e + 1) / 10.0
  }

  /** The string without the one leading sign, if any. */
  function Unsigned(t: string): string {
    if |t| > 0 && (t[0] == '+' || t[0] == '-') then t[1..] else t
  }

  predicate IsNegative(t: string) {
    |t| > 0 && t[0] == '-'
  }

  predicate HasHexPrefix(u: string) {
    |u| >= 2 && u[0] == '0' && (u[1] == 'x' || u[1] == 'X')
  }

  /** The magnitude `parseInt` reads from an unsigned string: a `0x`/`0X`
      prefix switches to base 16, then the longest run of digits counts; no
      digit at all is `NaN`. */
  function UnsignedInt(u: string): (r: Option<nat>)
    ensures r.Some? <==>
              if HasHexPrefix(u) then |u| > 2 && IsRadixDigit(u[2], 16)
              else |u| > 0 && IsDecimalDigit(u[0])
  {
    var radix := if HasHexPrefix(u) then 16 else 10;
    var v := if HasHexPrefix(u) then u[2..] else u;
    var n := DigitRun(v, 0, radix);
    if n == 0 then None else Some(ValueOf(v[..n], radix))
  }

  /** `parseInt(s)` with no radix: leading whitespace skipped, one optional
      sign, then the unsigned part. */
  function ParseInt(s: string): (r: Option<int>)
    ensures r.Some? <==>
              var u := Unsigned(TrimStart(s));
              if HasHexPrefix(u) then |u| > 2 && IsRadixDigit(u[2], 16)
              else |u| > 0 && IsDecimalDigit(u[0])
  {
    var t := TrimStart(s);
    match UnsignedInt(Unsigned(t))
    case None => None
    case Some(m) => Some(if IsNegative(t) then -(m as int) else m)
  }

  /** The exponent part `e12`, `E-3`, `e+4` at `p`, or 0 when there is none
      (an `e` without digits is not part of the literal). */
  function ExponentAt(u: string, p: nat): int
    requires p <= |u|
  {
    if p < |u| && (u[p] == 'e' || u[p] == 'E') then
      var q := if p + 1 < |u| && (u[p + 1] == '+' || u[p + 1] == '-') then p + 2 else p + 1;
      var n := DigitRun(u, q, 10);
      if n == 0 then 0
      else if u[p + 1] == '-' then -(ValueOf(u[q..q + n], 10) as int)
      else ValueOf(u[q..q + n], 10)
    else 0
  }

  /** The magnitude `parseFloat` reads from an unsigned string: the longest
      decimal literal `digits [. digits] [e [sign] digits]` or
      `. digits [e [sign] digits]`; no digit before the exponent is `NaN`. */
  function UnsignedFloat(u: string): (r: Option<real>)
    ensures r.Some? <==>
              (|u| > 0 && IsDecimalDigit(u[0])) || (|u| > 1 && u[0] == '.' && IsDecimalDigit(u[1]))
  {
    var a := DigitRun(u, 0, 10);
    var hasDot := a < |u| && u[a] == '.';
    var b := if hasDot then DigitRun(u, a + 1, 10) else 0;
    if a == 0 && b == 0 then None
    else
      var digits := u[..a] + (if hasDot then u[a + 1..a + 1 + b] else []);
      var p := if hasDot then a + 1 + b else a;
      Some(Shift(ValueOf(digits, 10) as real, ExponentAt(u, p) - b))
  }

  /** `parseFloat(s)`: leading whitespace skipped, one optional sign, then the
      unsigned part. */
  function ParseFloat(s: string): (r: Option<real>)
    ensures r.Some? <==>
              var u := Unsigned(TrimStart(s));
              (|u| > 0 && IsDecimalDigit(u[0])) || (|u| > 1 && u[0] == '.' && IsDecimalDigit(u[1]))
  {
    var t := TrimStart(s);
    match UnsignedFloat(Unsigned(t))
    case None => None
    case Some(m) => Some(if IsNegative(t) then -m else m)
  }

  /** `parseInt(cell) || 0`. */
  function IntOrZero(cell: string): (r: int)
    ensures ParseInt(cell).None? ==> r == 0
    ensures ParseInt(cell).Some? ==> r == ParseInt(cell).value
    ensures r != 0 ==> ParseInt(cell) == Some(r)
  {
    ParseInt(cell).GetOr(0)
  }

  /** `parseFloat(cell) || 0`. */
  function RealOrZero(cell: string): (r: real)
    ensures ParseFloat(cell).None? ==> r == 0.0
    ensures ParseFloat(cell).Some? ==> r == ParseFloat(cell).value
    ensures r != 0.0 ==> ParseFloat(cell) == Some(r)
  {
    ParseFloat(cell).GetOr(0.0)
  }

  // ---------------------------------------------------------------------------
  // Decimal notation, the partner of both parsers

  function DigitChar(d: nat): (c: char)
    requires d < 10
    ensures IsDecimalDigit(c) && DigitValue(c) == d
  {
    ('0' as int + d) as char
  }

  /** The decimal digits of `n`, as `String(n)` writes them. */
  function NatDigits(n: nat): (s: string)
    ensures |s| >= 1
    ensures forall k :: 0 <= k < |s| ==> IsDecimalDigit(s[k])
    ensures n != 0 ==> s[0] != '0'
  {
    if n < 10 then [DigitChar(n)] else NatDigits(n / 10) + [DigitChar(n % 10)]
  }

  /** `String(n)` for an integer `n`. */
  function DecimalString(n: int): string {
    if n < 0 then "-" + NatDigits(-n) else NatDigits(n)
  }

  lemma {:induction false} NatDigitsValue(n: nat)
    ensures ValueOf(NatDigits(n), 10) == n
  {
    if n >= 10 {
      NatDigitsValue(n / 10);
      var s := NatDigits(n);
      assert s[..|s| - 1] == NatDigits(n / 10);
    }
  }

  /** The digit run over a string of digits followed by a non-digit. */
  lemma DigitRunExact(s: string, digits: string, rest: string)
    requires s == digits + rest
    requires forall k :: 0 <= k < |digits| ==> IsDecimalDigit(digits[k])
    requires |rest| == 0 || !IsDecimalDigit(rest[0])
    ensures DigitRun(s, 0, 10) == |digits|
  {
    var n := DigitRun(s, 0, 10);
    if |rest| > 0 {
      assert s[|digits|] == rest[0];
    }
    if n < |digits| {
      assert false;
    } else if n > |digits| {
      assert false;
    }
  }

  /** `parseInt` reads back what `String` writes, and stops at the first
      character that is not a digit (the `0x` of a zero excepted: that is a
      hexadecimal prefix). */
  lemma ParseIntDecimal(n: int, rest: string)
    requires |rest| == 0 || !IsDecimalDigit(rest[0])
    requires n == 0 ==> |rest| == 0 || (rest[0] != 'x' && rest[0] != 'X')
    ensures ParseInt(DecimalString(n) + rest) == Some(n)
  {
    var s := DecimalString(n) + rest;
    var m := if n < 0 then -n else n;
    var d := NatDigits(m);
    SignedDigits(n, rest);
    UnsignedIntDigits(m, rest);
  }

  /** `String(n)` followed by `rest` starts with no whitespace, carries a sign
      exactly when `n` is negative, and unsigns to the digits of `|n|`. */
  lemma SignedDigits(n: int, rest: string)
    ensures var t := TrimStart(DecimalString(n) + rest);
            && Unsigned(t) == NatDigits(if n < 0 then -n else n) + rest
            && (IsNegative(t) <==> n < 0)
  {
    var s := DecimalString(n) + rest;
    var d := NatDigits(if n < 0 then -n else n);
    assert IsDecimalDigit(d[0]);
    if n < 0 {
      assert s == ['-'] + (d + rest);
      assert s[0] == '-';
      assert s[1..] == d + rest;
      assert Unsigned(s) == d + rest;
    } else {
      assert s == d + rest;
      assert s[0] == d[0];
      assert s[0] != '+' && s[0] != '-';
      assert Unsigned(s) == d + rest;
    }
    TrimStartNoLead(s);
  }

  lemma UnsignedIntDigits(m: nat, rest: string)
    requires |rest| == 0 || !IsDecimalDigit(rest[0])
    requires m == 0 ==> |rest| == 0 || (rest[0] != 'x' && rest[0] != 'X')
    ensures UnsignedInt(NatDigits(m) + rest) == Some(m)
  {
    var d := NatDigits(m);
    var u := d + rest;
    assert !HasHexPrefix(u) by {
      if m != 0 { assert u[0] == d[0]; }
      else { assert d == "0"; }
    }
    DigitRunExact(u, d, rest);
    assert u[..|d|] == d;
    NatDigitsValue(m);
  }

  /** `parseFloat` reads back what `String` writes for an integer. */
  lemma ParseFloatDecimal(n: int)
    ensures ParseFloat(DecimalString(n)) == Some(n as real)
  {
    var m := if n < 0 then -n else n;
    var s := DecimalString(n);
    assert Unsigned(TrimStart(s)) == NatDigits(m) && (IsNegative(TrimStart(s)) <==> n < 0) by {
      assert s + [] == s;
      assert NatDigits(m) + [] == NatDigits(m);
      SignedDigits(n, []);
    }
    assert UnsignedFloat(NatDigits(m)) == Some(m as real) by {
      UnsignedFloatDigits(m);
    }
    ParseFloatSigned(s, m as real);
  }

  /** `parseFloat` applies the sign to what the unsigned part reads. */
  lemma ParseFloatSigned(s: string, v: real)
    requires UnsignedFloat(Unsigned(TrimStart(s))) == Some(v)
    ensures ParseFloat(s) == Some(if IsNegative(TrimStart(s)) then -v else v)
  {
    var t := TrimStart(s);
    assert ParseFloat(s).Some?;
    assert ParseFloat(s).value == (if IsNegative(t) then -v else v);
  }

  /** The digits of `m`, with nothing after them, read as `m`. */
  lemma UnsignedFloatDigits(m: nat)
    ensures UnsignedFloat(NatDigits(m)) == Some(m as real)
  {
    var d := NatDigits(m);
    DigitRunExact(d, d, []);
    assert d[..|d|] + [] == d;
    assert ExponentAt(d, |d|) == 0;
    NatDigitsValue(m);
  }

  /** A cell whose first non-blank character cannot start a number becomes 0
      for quantity, price and cost. */
  lemma NoNumeralIsZero(cell: string)
    requires var t := TrimStart(cell);
             |t| == 0 || !(IsDecimalDigit(t[0]) || t[0] == '+' || t[0] == '-' || t[0] == '.')
    ensures IntOrZero(cell) == 0
    ensures RealOrZero(cell) == 0.0
  {
  }

  /** The hexadecimal prefix `parseInt` honours when no radix is given. */
  lemma HexExample()
    ensures ParseInt("0x1A") == Some(26)
  {
    var s := "0x1A";
    TrimStartNoLead(s);
    assert Unsigned(s) == s;
    assert !IsNegative(s);
    HexMagnitude();
  }

  lemma HexMagnitude()
    ensures UnsignedInt("0x1A") == Some(26)
  {
    var s := "0x1A";
    assert HasHexPrefix(s);
    var v := "1A";
    assert s[2..] == v;
    assert DigitRun(v, 2, 16) == 0;
    assert DigitRun(v, 1, 16) == 1;
    assert DigitRun(v, 0, 16) == 2;
    assert v[..2] == v;
    assert v[..1] == "1";
    assert ValueOf("1", 16) == 1 by { assert "1"[..0] == ""; }
    assert ValueOf(v, 16) == 26;
  }
}
