/** Python's `float(text)`, restricted to decimal literals, with the exact
    rational value of the literal in place of the nearest binary64 number. */
module Numeral {

  import opened Results
  import opened Strings

  predicate IsDigit(c: char) {
    '0' <= c <= '9'
  }

  predicate AllDigits(s: string) {
    forall i :: 0 <= i < |s| ==> IsDigit(s[i])
  }

  function Pow10(n: nat): (p: nat)
    ensures p >= 1
  {
    if n == 0 then 1 else 10 * Pow10(n - 1)
  }

  /** The number a run of decimal digits spells; the empty run spells 0. */
  function DigitsValue(ds: string): nat
    requires AllDigits(ds)
  {
    if ds == [] then 0
    else DigitsValue(ds[..|ds| - 1]) * 10 + (ds[|ds| - 1] as int - '0' as int)
  }

  /** The length of the run of digits at the front of `s`. */
  function DigitRun(s: string): (n: nat)
    ensures n <= |s| && AllDigits(s[..n]) && (n < |s| ==> !IsDigit(s[n]))
  {
    if s != [] && IsDigit(s[0]) then
      var n := 1 + DigitRun(s[1..]);
      assert s[..n] == [s[0]] + s[1..][..n - 1];
      n
    else 0
  }

  /** The exponent part of a literal: empty, or `e`/`E`, an optional sign and digits. */
  function Exponent(tail: string): Option<int> {
    if tail == [] then Some(0)
    else if tail[0] != 'e' && tail[0] != 'E' then None
    else
      var body := tail[1..];
      var neg := |body| > 0 && body[0] == '-';
      var digits := if |body| > 0 && (body[0] == '-' || body[0] == '+') then body[1..] else body;
      if digits != [] && AllDigits(digits) then
        Some(if neg then -(DigitsValue(digits) as int) else DigitsValue(digits))
      else None
  }

  /** The value of the fraction digits `f` after a decimal point:
      `0.f0f1...` is `(f0 + 0.f1...) / 10`. */
  function Fraction(f: string): (r: real)
    requires AllDigits(f)
    ensures 0.0 <= r < 1.0
  {
    if f == [] then 0.0 else ((f[0] as int - '0' as int) as real + Fraction(f[1..])) / 10.0
  }

  /** The value of the decimal literal `a.f`: the integer part plus the fraction. */
  function DecimalValue(a: string, f: string): real
    requires AllDigits(a) && AllDigits(f)
  {
    DigitsValue(a) as real + Fraction(f)
  }

  /** The value of the integer literal `a`. */
  function IntegerValue(a: string): real
    requires AllDigits(a)
  {
    DigitsValue(a) as real
  }

  /** `m * 10^e` as an exact rational. */
  function Scale(m: nat, e: int): real {
    if e >= 0 then (m * Pow10(e)) as real else m as real / Pow10(-e) as real
  }

  /** An unsigned decimal literal: digits with an optional point (at least one
      digit on either side of it), then an optional exponent. */
  function ParseUnsigned(u: string): Option<real> {
    var n := DigitRun(u);
    var rest := u[n..];
    var hasPoint := |rest| > 0 && rest[0] == '.';
    var afterPoint := if hasPoint then rest[1..] else rest;
    var m := if hasPoint then DigitRun(afterPoint) else 0;
    if n + m == 0 then None
    else
      match Exponent(afterPoint[m..])
      case None => None
      case Some(e) => Some(Scale(DigitsValue(u[..n] + afterPoint[..m]), e - m))
  }

  /** A literal's sign: a leading minus or plus. */
  predicate HasSign(t: string) {
    |t| > 0 && (t[0] == '-' || t[0] == '+')
  }

  function Unsigned(t: string): string {
    if HasSign(t) then t[1..] else t
  }

  /** A stripped literal: an optional sign, then an unsigned literal. */
  function ParseSigned(t: string): Option<real> {
    match ParseUnsigned(Unsigned(t))
    case None => None
    case Some(v) => Some(if HasSign(t) && t[0] == '-' then -v else v)
  }

  /** `float(s)` for a decimal literal: surrounding whitespace, an optional sign,
      then an unsigned literal. Any other text makes `float` raise. */
  function ParseFloat(s: string): (r: Result<real>)
    ensures r.Err? ==> r.error == FloatError(s)
  {
    match ParseSigned(Strip(s))
    case None => Err(FloatError(s))
    case Some(v) => Ok(v)
  }

  /** The characters a literal that `float` accepts may contain. */
  predicate IsLiteralChar(c: char) {
    IsDigit(c) || c == '+' || c == '-' || c == '.' || c == 'e' || c == 'E'
  }

  /** The decimal digits of a natural number, most significant first. */
  function ShowNat(n: nat): (s: string)
    ensures s != [] && AllDigits(s)
  {
    var d := ['0' + (n % 10) as char];
    if n < 10 then d else ShowNat(n / 10) + d
  }
}

/** What `float` gives for the literals the pipeline meets, and which texts
    it refuses. */
module NumeralFacts {

  import opened Results
  import opened Strings
  import opened Numeral


  lemma {:induction false} DigitsConcat(a: string, f: string)
    requires AllDigits(a) && AllDigits(f)
    ensures AllDigits(a + f)
    ensures DigitsValue(a + f) == DigitsValue(a) * Pow10(|f|) + DigitsValue(f)
    decreases |f|
  {
    if f == [] {
      assert a + f == a;
    } else {
      var f' := f[..|f| - 1];
      var g := a + f;
      assert g[..|g| - 1] == a + f';
      assert g[|g| - 1] == f[|f| - 1];
      DigitsConcat(a, f');
      var d := f[|f| - 1] as int - '0' as int;
      assert DigitsValue(g) == DigitsValue(a + f') * 10 + d;
      assert DigitsValue(f) == DigitsValue(f') * 10 + d;
      ShiftDigit(DigitsValue(a), Pow10(|f'|), DigitsValue(f'), d);
    }
  }

  /** Appending a digit to `x` shifted by `p`, followed by `y`. */
  lemma ShiftDigit(x: int, p: int, y: int, d: int)
    ensures (x * p + y) * 10 + d == x * (10 * p) + (y * 10 + d)
  {
  }

  lemma {:induction false} DigitRunAll(a: string, b: string)
    requires AllDigits(a) && (b == [] || !IsDigit(b[0]))
    ensures DigitRun(a + b) == |a|
    decreases |a|
  {
    if a == [] {
      assert a + b == b;
    } else {
      assert (a + b)[1..] == a[1..] + b;
      DigitRunAll(a[1..], b);
    }
  }

  lemma ShiftedFraction(x: nat, y: nat, p: nat)
    requires p >= 1
    ensures (x * p + y) as real / p as real == x as real + y as real / p as real
  {
    var P := p as real;
    assert (x * p + y) as real == x as real * P + y as real;
    assert (x as real * P + y as real) / P == x as real * P / P + y as real / P;
    assert x as real * P / P == x as real;
  }

  /** Digits with a point and an optional fraction: `lit` is `a.f`. */
  lemma {:induction false} PointLiteralParts(a: string, f: string, lit: string)
    requires AllDigits(a) && AllDigits(f) && a != [] && lit == a + ['.'] + f
    ensures ParseUnsigned(lit) == Some(Scale(DigitsValue(a + f), -|f|))
  {
    DigitRunAll(a, ['.'] + f);
    assert lit == a + (['.'] + f);
    assert lit[|a|..] == ['.'] + f && lit[..|a|] == a;
    assert (['.'] + f)[1..] == f;
    DigitRunAll(f, []);
    assert f + [] == f;
    assert f[..|f|] == f && f[|f|..] == [];
    DigitsConcat(a, f);
  }

  /** The fraction digits, read as a whole number and scaled down by their
      count, give the fraction. */
  lemma {:induction false} FractionDigits(f: string)
    requires AllDigits(f)
    ensures Fraction(f) == DigitsValue(f) as real / Pow10(|f|) as real
  {
    if f != [] {
      var g := f[1..];
      assert f == [f[0]] + g;
      FractionDigits(g);
      DigitsConcat([f[0]], g);
      var d := f[0] as int - '0' as int;
      assert DigitsValue([f[0]]) == d by {
        assert [f[0]][..0] == [];
      }
      var p := Pow10(|g|);
      ShiftedFraction(d, DigitsValue(g), p);
      TenthOf(d as real + DigitsValue(g) as real / p as real, (d * p + DigitsValue(g)) as real, p as real);
    }
  }

  lemma TenthOf(x: real, y: real, p: real)
    requires p >= 1.0 && y / p == x
    ensures y / (10.0 * p) == x / 10.0
  {
  }

  /** Scaling the digits of `a` and `f` down by the length of `f` gives `a.f`. */
  lemma ScaledDecimal(a: string, f: string)
    requires AllDigits(a) && AllDigits(f)
    ensures AllDigits(a + f) && Scale(DigitsValue(a + f), -|f|) == DecimalValue(a, f)
  {
    DigitsConcat(a, f);
    FractionDigits(f);
    var x, y, p := DigitsValue(a), DigitsValue(f), Pow10(|f|);
    ShiftedFraction(x, y, p);
    assert DigitsValue(a + f) == x * p + y;
  }

  lemma UnsignedPointLiteral(a: string, f: string, lit: string)
    requires AllDigits(a) && AllDigits(f) && a != [] && lit == a + ['.'] + f
    ensures ParseUnsigned(lit) == Some(DecimalValue(a, f))
    ensures lit != [] && IsDigit(lit[0]) && !IsSpace(lit[|lit| - 1])
  {
    PointLiteralEnds(a, f, lit);
    PointLiteralParts(a, f, lit);
    ScaledDecimal(a, f);
  }

  /** Digits alone. */
  lemma {:induction false} UnsignedIntegerLiteral(a: string)
    requires AllDigits(a) && a != []
    ensures ParseUnsigned(a) == Some(IntegerValue(a))
  {
    DigitRunAll(a, []);
    assert a + [] == a;
    assert a[..|a|] + [] == a && a[|a|..] == [];
  }

  /** A literal with no whitespace at either end that starts with a digit reads
      as its unsigned value. */
  lemma PlainLiteral(lit: string, v: real)
    requires lit != [] && IsDigit(lit[0]) && !IsSpace(lit[|lit| - 1])
    requires ParseUnsigned(lit) == Some(v)
    ensures ParseFloat(lit) == Ok(v)
  {
    StripNoSpace(lit);
  }

  lemma MinusStrip(s: string, lit: string)
    requires lit != [] && !IsSpace(lit[|lit| - 1]) && s == ['-'] + lit
    ensures Strip(s) == s
  {
    assert s[|s| - 1] == lit[|lit| - 1];
    StripNoSpace(s);
  }

  lemma MinusSigned(s: string, lit: string, v: real)
    requires s == ['-'] + lit && ParseUnsigned(lit) == Some(v)
    ensures ParseSigned(s) == Some(-v)
  {
    assert s[1..] == lit;
  }

  /** Under a leading minus sign it reads as the negated value. */
  lemma MinusLiteral(lit: string, v: real)
    requires lit != [] && !IsSpace(lit[|lit| - 1])
    requires ParseUnsigned(lit) == Some(v)
    ensures ParseFloat(['-'] + lit) == Ok(-v)
  {
    var s := ['-'] + lit;
    MinusStrip(s, lit);
    MinusSigned(s, lit, v);
  }

  /** Digits, a point and optional fraction digits: `float` gives the exact value
      of the literal, negated under a leading minus sign. */
  lemma DecimalLiteral(a: string, f: string, lit: string)
    requires AllDigits(a) && AllDigits(f) && a != [] && lit == a + ['.'] + f
    ensures ParseFloat(lit) == Ok(DecimalValue(a, f))
    ensures ParseFloat(['-'] + lit).Ok? && ParseFloat(['-'] + lit).value == -DecimalValue(a, f)
  {
    UnsignedPointLiteral(a, f, lit);
    SignedLiteral(lit, DecimalValue(a, f));
  }

  lemma SignedLiteral(lit: string, v: real)
    requires lit != [] && IsDigit(lit[0]) && !IsSpace(lit[|lit| - 1])
    requires ParseUnsigned(lit) == Some(v)
    ensures ParseFloat(lit) == Ok(v) && ParseFloat(['-'] + lit) == Ok(-v)
  {
    PlainLiteral(lit, v);
    MinusLiteral(lit, v);
  }

  lemma PointLiteralEnds(a: string, f: string, lit: string)
    requires AllDigits(a) && AllDigits(f) && a != [] && lit == a + ['.'] + f
    ensures lit != [] && IsDigit(lit[0]) && !IsSpace(lit[|lit| - 1])
  {
    assert lit[0] == a[0];
    if f == [] {
      assert lit[|lit| - 1] == '.';
    } else {
      assert lit[|lit| - 1] == f[|f| - 1];
    }
  }

  lemma DigitEnds(a: string)
    requires AllDigits(a) && a != []
    ensures IsDigit(a[0]) && !IsSpace(a[|a| - 1])
  {
  }

  /** Digits alone: `float` gives the number they spell. */
  lemma IntegerLiteral(a: string)
    requires AllDigits(a) && a != []
    ensures ParseFloat(a) == Ok(IntegerValue(a))
    ensures ParseFloat(['-'] + a).Ok? && ParseFloat(['-'] + a).value == -IntegerValue(a)
  {
    UnsignedIntegerLiteral(a);
    DigitEnds(a);
    SignedLiteral(a, IntegerValue(a));
  }

  /** `float("")` raises. */
  lemma EmptyFloatFails()
    ensures ParseFloat([]).Err?
  {
    assert Strip([]) == [];
    assert Unsigned([]) == [] && DigitRun([]) == 0;
  }

  predicate AllLiteral(s: string) {
    forall i :: 0 <= i < |s| ==> IsLiteralChar(s[i])
  }

  lemma AllLiteralConcat(a: string, b: string)
    requires AllLiteral(a) && AllLiteral(b)
    ensures AllLiteral(a + b)
  {
  }

  /** The exponent part of a literal is made of literal characters. */
  lemma ExponentChars(tail: string)
    requires Exponent(tail).Some?
    ensures AllLiteral(tail)
  {
    if tail != [] {
      var body := tail[1..];
      var digits := if |body| > 0 && (body[0] == '-' || body[0] == '+') then body[1..] else body;
      assert AllLiteral(digits);
      assert AllLiteral(body);
      assert tail == [tail[0]] + body;
    }
  }

  /** Digits followed by literal characters are literal characters. */
  lemma DigitsThenLiteral(s: string, m: nat)
    requires m <= |s| && AllDigits(s[..m]) && AllLiteral(s[m..])
    ensures AllLiteral(s)
  {
    forall i | 0 <= i < |s|
      ensures IsLiteralChar(s[i])
    {
      if i < m {
        assert s[..m][i] == s[i];
      } else {
        assert s[m..][i - m] == s[i];
      }
    }
  }

  /** An unsigned literal is made of literal characters. */
  lemma UnsignedChars(u: string)
    requires ParseUnsigned(u).Some?
    ensures AllLiteral(u)
  {
    var n := DigitRun(u);
    var rest := u[n..];
    var hasPoint := |rest| > 0 && rest[0] == '.';
    var afterPoint := if hasPoint then rest[1..] else rest;
    var m := if hasPoint then DigitRun(afterPoint) else 0;
    var tail := afterPoint[m..];
    assert Exponent(tail).Some?;
    ExponentChars(tail);
    DigitsThenLiteral(afterPoint, m);
    if hasPoint {
      AllLiteralConcat([rest[0]], afterPoint);
      assert rest == [rest[0]] + afterPoint;
    }
    DigitsThenLiteral(u, n);
  }

  /** A text `float` accepts is made of literal characters and whitespace only. */
  lemma LiteralChars(s: string)
    requires ParseFloat(s).Ok?
    ensures forall c :: c in s ==> IsLiteralChar(c) || IsSpace(c)
  {
    var t := Strip(s);
    var u := Unsigned(t);
    UnsignedChars(u);
    StripChars(s);
    if HasSign(t) {
      AllLiteralConcat([t[0]], u);
      assert t == [t[0]] + u;
    }
    assert AllLiteral(t);
    forall c | c in s
      ensures IsLiteralChar(c) || IsSpace(c)
    {
      if c in t {
        var i :| 0 <= i < |t| && t[i] == c;
      }
    }
  }

  /** Reading back the decimal digits of a natural number gives that number. */
  lemma {:induction false} ShowNatValue(n: nat)
    ensures DigitsValue(ShowNat(n)) == n
  {
    var d := ['0' + (n % 10) as char];
    if n >= 10 {
      ShowNatValue(n / 10);
      assert ShowNat(n)[..|ShowNat(n)| - 1] == ShowNat(n / 10);
    }
  }

  /** `float` reads a printed natural number back exactly. */
  lemma ShowNatRoundTrip(n: nat)
    ensures ParseFloat(ShowNat(n)) == Ok(n as real)
  {
    ShowNatValue(n);
    IntegerLiteral(ShowNat(n));
  }
}
