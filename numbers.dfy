/** Number parsing and rounding as the importer uses them, on exact reals. */
module Numbers {
  import opened Wrappers
  import opened Sequences
  import opened Strings

  predicate IsDigit(c: char) {
    '0' <= c <= '9'
  }

  predicate AllDigits(s: string) {
    forall i :: 0 <= i < |s| ==> IsDigit(s[i])
  }

  function DigitValue(c: char): nat
    requires IsDigit(c)
  {
    c as int - '0' as int
  }

  function DigitChar(d: nat): (c: char)
    requires d < 10
    ensures IsDigit(c) && DigitValue(c) == d
  {
    ('0' as int + d) as char
  }

  /** The natural number a string of decimal digits spells, most significant digit first. */
  function DigitsValue(s: string): nat
    requires AllDigits(s)
    decreases |s|
  {
    if s == [] then 0 else 10 * DigitsValue(s[..|s| - 1]) + DigitValue(s[|s| - 1])
  }

  /** The value of the digits after a decimal point: "25" is 0.25. */
  function FractionValue(s: string): (v: real)
    requires AllDigits(s)
    ensures 0.0 <= v <= 1.0
    decreases |s|
  {
    if s == [] then 0.0 else (DigitValue(s[0]) as real + FractionValue(s[1..])) / 10.0
  }

  /** An unsigned decimal: digits, optionally a '.' and further digits, with at least one digit in all. */
  function ParseUnsigned(t: string): (r: Option<real>)
    ensures r.Some? ==> r.value >= 0.0
  {
    if '.' in t then
      var i := FirstIndex(t, '.');
      var whole, frac := t[..i], t[i + 1..];
      if AllDigits(whole) && AllDigits(frac) && |whole| + |frac| > 0 then
        Some(DigitsValue(whole) as real + FractionValue(frac))
      else None
    else if t != [] && AllDigits(t) then Some(DigitsValue(t) as real)
    else None
  }

  /** Python's `float(s)` on a plain decimal: surrounding whitespace is ignored and a '+' or '-'
      sign may lead. Anything else is not a number. */
  function ParseNum(s: string): (r: Option<real>)
    ensures AllSpace(s) ==> r.None?
    ensures r.Some? && r.value < 0.0 ==> '-' in s
  {
    var t := Trim(s);
    if t != [] && (t[0] == '+' || t[0] == '-') then
      match ParseUnsigned(t[1..])
      case None => None
      case Some(v) =>
        assert t[0] in s by { TrimMember(s, 0); }
        Some(if t[0] == '-' then -v else v)
    else ParseUnsigned(t)
  }

  /** The whitespace pandas' own number reader skips around a number: the six ASCII ones. */
  predicate AsciiSpace(c: char) {
    c == ' ' || '\t' <= c <= '\r'
  }

  /** pandas' `to_numeric(..., errors='coerce')` on one text. It reads the same plain decimals as
      `float`, but skips only ASCII whitespace, so any other whitespace in the text makes it NaN. */
  function ToNumeric(s: string): (r: Option<real>)
    ensures r.Some? ==> r == ParseNum(s)
    ensures ParseNum(s).None? ==> r.None?
    ensures (exists i :: 0 <= i < |s| && IsSpace(s[i]) && !AsciiSpace(s[i])) ==> r.None?
  {
    if exists i :: 0 <= i < |s| && IsSpace(s[i]) && !AsciiSpace(s[i]) then None else ParseNum(s)
  }

  /** Text padded with ASCII whitespace only reads as `float` reads it. */
  lemma ToNumericAsciiPadding(p: string, t: string, q: string)
    requires forall i :: 0 <= i < |p| ==> AsciiSpace(p[i])
    requires forall i :: 0 <= i < |q| ==> AsciiSpace(q[i])
    requires forall i :: 0 <= i < |t| ==> !IsSpace(t[i])
    ensures ToNumeric(p + t + q) == ParseNum(p + t + q)
  {
    var s := p + t + q;
    forall i | 0 <= i < |s| ensures !IsSpace(s[i]) || AsciiSpace(s[i]) {
      if i < |p| {
        assert s[i] == p[i];
      } else if i < |p| + |t| {
        assert s[i] == t[i - |p|];
      } else {
        assert s[i] == q[i - |p| - |t|];
      }
    }
  }

  /** Every character that survives stripping was in the original string. */
  lemma TrimMember(s: string, k: nat)
    requires k < |Trim(s)|
    ensures Trim(s)[k] in s
  {
    var u := TrimStart(s);
    TrimStartSuffix(s);
    TrimEndPrefix(u);
    assert Trim(s)[k] == u[k];
    assert u[k] == s[|s| - |u| + k];
  }

  /** A comma is never part of a number, which is why the importer deletes them before parsing. */
  lemma ParseNumRejectsComma(s: string)
    requires ',' in s
    ensures ParseNum(s) == None
  {
    var t := Trim(s);
    TrimKeepsChar(s, ',');
    if t[0] == '+' || t[0] == '-' {
      var j :| 0 <= j < |t| && t[j] == ',';
      assert t[1..][j - 1] == ',';
      UnsignedRejectsComma(t[1..]);
    } else {
      UnsignedRejectsComma(t);
    }
  }

  lemma UnsignedRejectsComma(t: string)
    requires ',' in t
    ensures ParseUnsigned(t) == None
  {
    var m :| 0 <= m < |t| && t[m] == ',';
    if '.' in t {
      var i := FirstIndex(t, '.');
      if m < i {
        assert t[..i][m] == ',';
      } else {
        assert m > i;
        assert t[i + 1..][m - i - 1] == ',';
      }
    }
  }

  /** Decimal notation of a natural number, the form `str()` gives a whole number. */
  function ShowNat(n: nat): (s: string)
    ensures s != [] && AllDigits(s)
    decreases n
  {
    if n < 10 then [DigitChar(n)] else ShowNat(n / 10) + [DigitChar(n % 10)]
  }

  lemma {:induction false} ShowNatValue(n: nat)
    ensures DigitsValue(ShowNat(n)) == n
    decreases n
  {
    if n >= 10 {
      ShowNatValue(n / 10);
      var s := ShowNat(n);
      assert s[..|s| - 1] == ShowNat(n / 10);
    }
  }

  /** Reading back the decimal notation of a whole number gives the number. */
  lemma ParseShowNat(n: nat)
    ensures ParseNum(ShowNat(n)) == Some(n as real)
  {
    var s := ShowNat(n);
    assert [] + s + [] == s;
    TrimPadded([], s, []);
    assert Trim(s) == s;
    assert '.' !in s by {
      assert forall i :: 0 <= i < |s| ==> s[i] != '.';
    }
    assert !(s[0] == '+' || s[0] == '-');
    ShowNatValue(n);
    assert ParseUnsigned(s) == Some(n as real);
  }

  /** pandas reads the decimal notation of a whole number back as that number too. */
  lemma ToNumericShowNat(n: nat)
    ensures ToNumeric(ShowNat(n)) == Some(n as real)
  {
    ParseShowNat(n);
    var s := ShowNat(n);
    assert !exists i :: 0 <= i < |s| && IsSpace(s[i]) && !AsciiSpace(s[i]) by {
      assert forall i :: 0 <= i < |s| ==> IsDigit(s[i]);
    }
  }

  /** `x` has at most one decimal: it is a whole number of tenths. */
  predicate WholeTenths(x: real) {
    (x * 10.0).Floor as real == x * 10.0
  }

  /** Python's `round(x, 1)` on the exact value: the nearest multiple of 0.1, ties to the even tenth. */
  function Round1(x: real): (r: real)
    ensures WholeTenths(r)
    ensures -0.05 <= r - x <= 0.05
    ensures x >= 0.0 ==> r >= 0.0
  {
    var t := x * 10.0;
    var n := t.Floor;
    var f := t - n as real;
    var m := if f < 0.5 then n else if f > 0.5 then n + 1 else if n % 2 == 0 then n else n + 1;
    RoundedTenths(x, n, m);
    m as real / 10.0
  }

  /** Either neighbouring whole tenth, taken on the right side of the midpoint, is within 0.05. */
  lemma RoundedTenths(x: real, n: int, m: int)
    requires n == (x * 10.0).Floor
    requires m == n || m == n + 1
    requires m == n ==> x * 10.0 - n as real <= 0.5
    requires m == n + 1 ==> x * 10.0 - n as real >= 0.5
    ensures WholeTenths(m as real / 10.0)
    ensures -0.05 <= m as real / 10.0 - x <= 0.05
    ensures x >= 0.0 ==> m >= 0
  {
    assert (m as real / 10.0) * 10.0 == m as real;
    assert m as real / 10.0 - x == (m as real - x * 10.0) / 10.0;
  }

  function Abs(x: real): real {
    if x < 0.0 then -x else x
  }

  /** No whole number of tenths is closer to `x` than `Round1(x)`. */
  lemma Round1Nearest(x: real, k: int)
    ensures Abs(Round1(x) - x) <= Abs(k as real / 10.0 - x)
  {
    var t := x * 10.0;
    var n := t.Floor;
    assert n as real <= t < n as real + 1.0;
    if k <= n {
      assert k as real / 10.0 <= n as real / 10.0;
    } else {
      assert k as real / 10.0 >= (n + 1) as real / 10.0;
    }
  }

  /** A value that already has at most one decimal is left as it is. */
  lemma Round1Exact(k: int)
    ensures Round1(k as real / 10.0) == k as real / 10.0
  {
    var x := k as real / 10.0;
    assert x * 10.0 == k as real;
    assert (x * 10.0).Floor == k;
  }

  /** A value exactly halfway between two tenths goes to the one with an even last digit:
      `round(1.25, 1)` is 1.2 and `round(1.35, 1)` is 1.4. */
  lemma Round1Tie(k: int)
    ensures Round1((2 * k + 1) as real / 20.0) == (if k % 2 == 0 then k else k + 1) as real / 10.0
  {
    var x := (2 * k + 1) as real / 20.0;
    assert x * 10.0 == k as real + 0.5;
    assert (x * 10.0).Floor == k;
  }
}
