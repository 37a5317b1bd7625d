/** The JavaScript number conversions the post service relies on:
    `parseInt` with no radix (query parameters), the decimal rendering of an
    integer inside a cache key, and `Math.ceil` of a quotient. Numbers are
    unbounded integers here; IEEE-754 rounding of huge values is not modelled. */
module JsNumbers {
  import opened Common

  /** WhiteSpace and LineTerminator code points (ECMA-262 sections 12.2 and
      12.3) that `parseInt` skips before the number. */
  predicate IsJsSpace(c: char)
  {
    || c == ' ' || c == '\t' || c == '\n' || c == '\r' || c == '\U{B}' || c == '\U{C}'
    || c == '\U{A0}' || c == '\U{FEFF}' || c == '\U{1680}' || ('\U{2000}' <= c <= '\U{200A}')
    || c == '\U{2028}' || c == '\U{2029}' || c == '\U{202F}' || c == '\U{205F}' || c == '\U{3000}'
  }

  /** Value of `c` as a digit of radix 16 or less, or -1. */
  function DigitValue(c: char): (d: int)
    ensures -1 <= d < 16
    ensures 0 <= d < 10 <==> '0' <= c <= '9'
  {
    if '0' <= c <= '9' then c as int - '0' as int
    else if 'a' <= c <= 'f' then c as int - 'a' as int + 10
    else if 'A' <= c <= 'F' then c as int - 'A' as int + 10
    else -1
  }

  predicate IsDigit(c: char, radix: nat)
  {
    0 <= DigitValue(c) < radix
  }

  function LeadingSpaces(s: string): (n: nat)
    ensures n <= |s|
    ensures forall i :: 0 <= i < n ==> IsJsSpace(s[i])
    ensures n < |s| ==> !IsJsSpace(s[n])
  {
    if |s| == 0 || !IsJsSpace(s[0]) then 0 else 1 + LeadingSpaces(s[1..])
  }

  /** Length of the longest prefix of `s` made of digits of `radix`. */
  function DigitPrefix(s: string, radix: nat): (n: nat)
    ensures n <= |s|
    ensures forall i :: 0 <= i < n ==> IsDigit(s[i], radix)
    ensures n < |s| ==> !IsDigit(s[n], radix)
  {
    if |s| == 0 || !IsDigit(s[0], radix) then 0 else 1 + DigitPrefix(s[1..], radix)
  }

  /** Positional value of a digit string, most significant digit first. */
  function DigitsValue(ds: string, radix: nat): int
    requires forall i :: 0 <= i < |ds| ==> IsDigit(ds[i], radix)
  {
    if |ds| == 0 then 0
    else
      var init := ds[..|ds| - 1];
      assert forall i :: 0 <= i < |init| ==> init[i] == ds[i];
      DigitsValue(init, radix) * radix + DigitValue(ds[|ds| - 1])
  }

  /** `parseInt(s)` with no radix: skip leading white space, take an optional
      sign, switch to radix 16 after a `0x`/`0X` prefix, then read the longest
      run of digits. `None` stands for `NaN` (no digit at all). */
  function ParseInt(s: string): (r: Option<int>)
    ensures LeadingSpaces(s) == |s| ==> r.None?
    ensures r.Some? && r.value < 0 ==> LeadingSpaces(s) < |s| && s[LeadingSpaces(s)] == '-'
    ensures (LeadingSpaces(s) < |s| && !IsDigit(s[LeadingSpaces(s)], 10)
             && s[LeadingSpaces(s)] != '-' && s[LeadingSpaces(s)] != '+') ==> r.None?
  {
    ParseSigned(s[LeadingSpaces(s)..])
  }

  function ParseSigned(t: string): Option<int>
  {
    if |t| > 0 && t[0] == '-' then
      match ParseUnsigned(t[1..])
      case Some(m) => Some(-m)
      case None => None
    else if |t| > 0 && t[0] == '+' then ParseUnsigned(t[1..])
    else ParseUnsigned(t)
  }

  function ParseUnsigned(u: string): (r: Option<int>)
    ensures r.Some? ==> r.value >= 0
  {
    if |u| >= 2 && u[0] == '0' && (u[1] == 'x' || u[1] == 'X') then ParseDigits(u[2..], 16)
    else ParseDigits(u, 10)
  }

  function ParseDigits(v: string, radix: nat): (r: Option<int>)
    ensures r.Some? ==> r.value >= 0
  {
    var n := DigitPrefix(v, radix);
    if n == 0 then None
    else
      DigitsValueNonNegative(v[..n], radix);
      Some(DigitsValue(v[..n], radix))
  }

  lemma {:induction false} DigitsValueNonNegative(ds: string, radix: nat)
    requires forall i :: 0 <= i < |ds| ==> IsDigit(ds[i], radix)
    ensures DigitsValue(ds, radix) >= 0
  {
    if |ds| > 0 {
      var init := ds[..|ds| - 1];
      assert forall i :: 0 <= i < |init| ==> init[i] == ds[i];
      DigitsValueNonNegative(init, radix);
    }
  }

  /** `parseInt(q) || fallback`: a missing parameter reaches `parseInt` as
      `undefined` and gives `NaN`; `NaN` and `0` are falsy. */
  function QueryIntOr(q: Option<string>, fallback: int): (r: int)
    requires fallback != 0
    ensures r != 0
    ensures q.None? ==> r == fallback
  {
    match q
    case None => fallback
    case Some(s) =>
      match ParseInt(s)
      case Some(v) => if v != 0 then v else fallback
      case None => fallback
  }

  function DigitChar(d: nat): (c: char)
    requires d < 10
    ensures DigitValue(c) == d
  {
    ('0' as int + d) as char
  }

  /** Decimal rendering of a natural number, without leading zeros. */
  function NatToString(n: nat): (s: string)
    ensures |s| > 0
    ensures forall i :: 0 <= i < |s| ==> '0' <= s[i] <= '9'
  {
    if n < 10 then [DigitChar(n)] else NatToString(n / 10) + [DigitChar(n % 10)]
  }

  /** How JavaScript renders an integer-valued number in a template string. */
  function IntToString(n: int): (s: string)
    ensures forall i :: 0 <= i < |s| ==> s[i] == '-' || '0' <= s[i] <= '9'
  {
    if n < 0 then "-" + NatToString(-n) else NatToString(n)
  }

  lemma {:induction false} NatToStringValue(n: nat)
    ensures DigitsValue(NatToString(n), 10) == n
  {
    var s := NatToString(n);
    if n >= 10 {
      NatToStringValue(n / 10);
      assert s[..|s| - 1] == NatToString(n / 10);
    }
  }

  /** `parseInt`'s digit reading takes the whole of a plain decimal run. */
  lemma ParseDecimalRun(u: string)
    requires |u| > 0 && forall i :: 0 <= i < |u| ==> '0' <= u[i] <= '9'
    ensures ParseUnsigned(u) == Some(DigitsValue(u, 10))
  {
    assert |u| >= 2 ==> u[1] != 'x' && u[1] != 'X';
    var n := DigitPrefix(u, 10);
    assert n == |u|;
    assert u[..n] == u;
  }

  /** A text starting with a sign or a digit is parsed without skipping. */
  lemma NoLeadingSpace(s: string)
    requires |s| > 0 && (s[0] == '-' || '0' <= s[0] <= '9')
    ensures ParseInt(s) == ParseSigned(s)
  {
    assert !IsJsSpace(s[0]);
    assert s[0..] == s;
  }

  lemma NatRoundTrip(m: nat)
    ensures ParseSigned(NatToString(m)) == Some(m)
  {
    var t := NatToString(m);
    NatToStringValue(m);
    ParseDecimalRun(t);
    assert t[0] != '-' && t[0] != '+';
  }

  lemma NegativeRoundTrip(m: nat)
    ensures ParseSigned("-" + NatToString(m)) == Some(-(m as int))
  {
    var t := NatToString(m);
    NatToStringValue(m);
    ParseDecimalRun(t);
    assert ("-" + t)[1..] == t;
  }

  /** `parseInt` reads back every integer its decimal rendering shows. */
  lemma IntToStringRoundTrip(n: int)
    ensures ParseInt(IntToString(n)) == Some(n)
  {
    var s := IntToString(n);
    if n < 0 {
      assert s == "-" + NatToString(-n);
      NegativeRoundTrip(-n);
      NoLeadingSpace(s);
      assert ParseSigned(s) == Some(n);
    } else {
      assert s == NatToString(n);
      NatRoundTrip(n);
      NoLeadingSpace(s);
      assert ParseSigned(s) == Some(n);
    }
  }

  /** `Math.ceil(a / b)` for a count `a` and a non-zero divisor. */
  function CeilDiv(a: nat, b: int): (q: int)
    requires b != 0
    ensures b > 0 ==> (q - 1) * b < a <= q * b
    ensures b < 0 ==> q * b <= a < (q - 1) * b
  {
    if b > 0 then
      var q := (a + b - 1) / b;
      assert q * b <= a + b - 1 < q * b + b;
      q
    else
      var q := -(a / -b);
      assert (a / -b) * -b <= a < (a / -b) * -b + -b;
      q
  }

  /** Every non-zero integer written in decimal, negative ones included,
      passes through `parseInt(q) || fallback` unchanged; zero, text without
      digits and a missing parameter give the fallback. */
  lemma QueryIntDefaults(n: int, fallback: int)
    requires fallback != 0
    ensures n != 0 ==> QueryIntOr(Some(IntToString(n)), fallback) == n
    ensures QueryIntOr(Some("0"), fallback) == fallback
    ensures QueryIntOr(Some("abc"), fallback) == fallback
    ensures QueryIntOr(None, fallback) == fallback
  {
    IntToStringRoundTrip(n);
    IntToStringRoundTrip(0);
    assert IntToString(0) == "0";
    assert LeadingSpaces("abc") == 0;
    assert DigitPrefix("abc", 10) == 0;
  }
}
