/** `parse_valor`: reads one cell of the flow table ("1.234,5", "-0,8 bi",
    "350 mi", "nan") as an amount in billions of reais. */
module Valor {

  import opened Results
  import opened Strings
  import opened Unicode
  import opened Numeral

  /** The text of a cell after the clean-up `parse_valor` performs, in its
      order: drop "r$", drop spaces, drop periods, turn commas into periods,
      strip surrounding whitespace, lowercase. */
  function Clean(s: string): string {
    LowerAll(Strip(Replace(Replace(Replace(Replace(s, "r$", ""), " ", ""), ".", ""), ",", ".")))
  }

  /** The texts that stand for "no amount". */
  predicate IsZeroToken(v: string) {
    v == [] || v == "-" || v == "nan"
  }

  /** Division of a parsed amount by 1000, keeping a failure as it is. */
  function Thousandth(r: Result<real>): Result<real> {
    match r
    case Ok(x) => Ok(x / 1000.0)
    case Err(e) => Err(e)
  }

  /** `parse_valor(valor)` for the text `s` of the cell: a cleaned text
      containing "mi" is millions, read as thousandths of a billion; one
      containing "bi" is billions; "", "-" and "nan" are 0; anything else is
      read by `float`, and a text `float` refuses is an error. */
  function ParseValor(s: string): Result<real> {
    var v := Clean(s);
    if Contains(v, "mi") then Thousandth(ParseFloat(Replace(v, "mi", "")))
    else if Contains(v, "bi") then ParseFloat(Replace(v, "bi", ""))
    else if IsZeroToken(v) then Ok(0.0)
    else ParseFloat(v)
  }

  /** The characters the clean-up leaves alone apart from spaces, periods and
      commas: digits, signs and lowercase letters other than the `r` of "r$". */
  predicate IsPlainChar(c: char) {
    IsDigit(c) || c == '.' || c == ',' || c == '-' || c == '+' || c == ' '
    || ('a' <= c <= 'z' && c != 'r')
  }

  predicate AllPlain(s: string) {
    forall i :: 0 <= i < |s| ==> IsPlainChar(s[i])
  }

  /** The clean-up of plain text, character by character: spaces and periods
      vanish and a comma becomes the decimal point. */
  function Retype(s: string): string {
    if s == [] then []
    else
      (if s[0] == ' ' || s[0] == '.' then [] else if s[0] == ',' then ['.'] else [s[0]])
      + Retype(s[1..])
  }
}

/** What `parse_valor` makes of the amounts the flow table prints. */
module ValorFacts {

  import opened Results
  import opened Strings
  import opened Unicode
  import opened Numeral
  import opened NumeralFacts
  import opened Valor

  /** The three one-character replacements of the clean-up. */
  function Scrub(s: string): string {
    Replace(Replace(Replace(s, " ", ""), ".", ""), ",", ".")
  }

  lemma ScrubSingle(c: char)
    ensures Scrub([c]) == Retype([c])
  {
    ReplaceSingle(c, ' ', "");
    var r1 := if c == ' ' then [] else [c];
    if r1 == [] {
      assert Replace([], ".", "") == [] && Replace([], ",", ".") == [];
    } else {
      ReplaceSingle(c, '.', "");
      var r2 := if c == '.' then [] else [c];
      if r2 == [] {
        assert Replace([], ",", ".") == [];
      } else {
        ReplaceSingle(c, ',', ".");
      }
    }
    assert [c][1..] == [];
  }

  /** The one-character replacements do what `Retype` does, on any text. */
  lemma {:induction false} ScrubIsRetype(s: string)
    ensures Scrub(s) == Retype(s)
    decreases |s|
  {
    if s != [] {
      var c, t := s[0], s[1..];
      assert s == [c] + t;
      ReplaceCharConcat([c], t, ' ', "");
      var a1, b1 := Replace([c], " ", ""), Replace(t, " ", "");
      ReplaceCharConcat(a1, b1, '.', "");
      var a2, b2 := Replace(a1, ".", ""), Replace(b1, ".", "");
      ReplaceCharConcat(a2, b2, ',', ".");
      ScrubSingle(c);
      ScrubIsRetype(t);
    }
  }

  lemma {:induction false} RetypeConcat(s: string, t: string)
    ensures Retype(s + t) == Retype(s) + Retype(t)
    decreases |s|
  {
    if s == [] {
      assert s + t == t;
    } else {
      assert (s + t)[1..] == s[1..] + t;
      RetypeConcat(s[1..], t);
    }
  }

  /** Plain text stays plain, and loses its spaces. */
  lemma {:induction false} RetypePlain(s: string)
    requires AllPlain(s)
    ensures AllPlain(Retype(s)) && ' ' !in Retype(s)
    decreases |s|
  {
    if s != [] {
      RetypePlain(s[1..]);
    }
  }

  /** Plain text holds no "r$". */
  lemma PlainNoCurrency(s: string)
    requires AllPlain(s)
    ensures Replace(s, "r$", "") == s
  {
    forall i | 0 <= i < |s|
      ensures s[i] != 'r'
    {
      assert IsPlainChar(s[i]);
    }
    NotContainsHead(s, "r$");
    ReplaceAbsent(s, "r$", "");
  }

  /** Plain text without spaces has no whitespace at its ends to strip. */
  lemma PlainStripped(r: string)
    requires AllPlain(r) && ' ' !in r
    ensures Strip(r) == r
  {
    if r != [] {
      assert IsPlainChar(r[0]) && r[0] != ' ';
      assert IsPlainChar(r[|r| - 1]) && r[|r| - 1] != ' ';
    }
    StripNoSpace(r);
  }

  /** Plain text has no capital to lower. */
  lemma PlainLowered(r: string)
    requires AllPlain(r)
    ensures LowerAll(r) == r
  {
    forall i | 0 <= i < |r|
      ensures LowerAll(r)[i] == r[i]
    {
      assert IsPlainChar(r[i]);
    }
  }

  /** On plain text the whole clean-up is `Retype`. */
  lemma CleanPlain(s: string)
    requires AllPlain(s)
    ensures Clean(s) == Retype(s)
  {
    PlainNoCurrency(s);
    ScrubIsRetype(s);
    RetypePlain(s);
    PlainStripped(Retype(s));
    PlainLowered(Retype(s));
  }

  /** Characters `Retype` writes come from its input, or are the decimal point. */
  lemma {:induction false} RetypeChars(s: string, x: char)
    requires x in Retype(s)
    ensures x in s || x == '.'
    decreases |s|
  {
    assert s == [s[0]] + s[1..];
    RetypeConcat([s[0]], s[1..]);
    assert [s[0]][1..] == [];
    if x !in Retype([s[0]]) {
      RetypeChars(s[1..], x);
    }
  }

  predicate DigitsAndDots(d: string) {
    forall i :: 0 <= i < |d| ==> IsDigit(d[i]) || d[i] == '.'
  }

  /** A run of digits with thousands separators loses the separators. */
  lemma {:induction false} RetypeDigits(d: string)
    requires DigitsAndDots(d)
    ensures AllPlain(d) && AllDigits(Retype(d))
    decreases |d|
  {
    if d != [] {
      RetypeDigits(d[1..]);
    }
  }

  /** How `parse_valor` routes a cleaned text with no unit and no zero token. */
  lemma PlainRoute(s: string, v: string)
    requires Clean(s) == v && !Contains(v, "mi") && !Contains(v, "bi") && !IsZeroToken(v)
    ensures ParseValor(s) == ParseFloat(v)
  {
  }

  /** A text without the letters `m` and `b` holds neither unit. */
  lemma NoUnits(v: string)
    requires 'm' !in v && 'b' !in v
    ensures !Contains(v, "mi") && !Contains(v, "bi")
  {
    NotContainsHead(v, "mi");
    NotContainsHead(v, "bi");
  }

  /** A cleaned text ending in "mi" is read as millions. */
  lemma MillionsRoute(s: string, v: string, w: string)
    requires w == v + "mi" && Clean(s) == w && 'm' !in v
    ensures ParseValor(s) == Thousandth(ParseFloat(v))
  {
    ContainsAt(w, "mi", |v|);
    UnitRemoved(v, "mi");
  }

  /** A cleaned text ending in "bi" and holding no "mi" is read as billions. */
  lemma BillionsRoute(s: string, v: string, w: string)
    requires w == v + "bi" && Clean(s) == w && 'm' !in v && 'b' !in v
    ensures ParseValor(s) == ParseFloat(v)
  {
    assert 'm' !in w;
    NotContainsHead(w, "mi");
    ContainsAt(w, "bi", |v|);
    UnitRemoved(v, "bi");
  }

  /** Removing a two-letter unit from the end of a text that lacks its first letter. */
  lemma UnitRemoved(v: string, u: string)
    requires |u| == 2 && u[0] !in v
    ensures Replace(v + u, u, "") == v
  {
    assert Replace(u, u, "") == [] by {
      assert u[..|u|] == u && u[|u|..] == [];
    }
    if v == [] {
      assert v + u == u;
    } else {
      forall k | 0 <= k < |v|
        ensures !StartsWith((v + u)[k..], u)
      {
        assert (v + u)[k..][0] == v[k];
      }
      ReplaceAfterPrefix(v, u, u, "");
    }
  }

  /** Brazilian notation: periods group thousands and the comma marks the
      decimals, so "2.500,75" is 2500.75; a leading minus negates. */
  lemma BrazilianDecimal(d: string, c: string)
    requires DigitsAndDots(d) && Retype(d) != [] && AllDigits(c)
    ensures AllDigits(Retype(d)) && ParseValor(d + [','] + c) == Ok(DecimalValue(Retype(d), c))
    ensures ParseValor(['-'] + d + [','] + c).Ok?
    ensures ParseValor(['-'] + d + [','] + c).value == -DecimalValue(Retype(d), c)
  {
    RetypeDigits(d);
    RetypeDigits(c);
    RetypeDigitsOnly(c);
    BrazilianValue(d, c, d + [','] + c, Retype(d) + ['.'] + c);
    BrazilianNegative(d, c, ['-'] + d + [','] + c, Retype(d) + ['.'] + c);
  }

  lemma BrazilianValue(d: string, c: string, s: string, lit: string)
    requires DigitsAndDots(d) && Retype(d) != [] && AllDigits(c)
    requires s == d + [','] + c && lit == Retype(d) + ['.'] + c
    ensures AllDigits(Retype(d)) && ParseValor(s) == Ok(DecimalValue(Retype(d), c))
  {
    RetypeDigits(d);
    RetypeDigits(c);
    RetypeDigitsOnly(c);
    BrazilianClean(d, c, s);
    DecimalLiteral(Retype(d), c, lit);
    DecimalLiteralChars(Retype(d), c, lit);
    RouteDecimal(s, lit);
  }

  lemma BrazilianNegative(d: string, c: string, s: string, lit: string)
    requires DigitsAndDots(d) && Retype(d) != [] && AllDigits(c)
    requires s == ['-'] + d + [','] + c && lit == Retype(d) + ['.'] + c
    ensures AllDigits(Retype(d)) && ParseValor(s).Ok? && ParseValor(s).value == -DecimalValue(Retype(d), c)
  {
    RetypeDigits(d);
    RetypeDigits(c);
    NegativeClean(d, c, s, lit);
    DecimalLiteral(Retype(d), c, lit);
    DecimalLiteralChars(Retype(d), c, lit);
    RouteDecimal(s, ['-'] + lit);
  }

  lemma NegativeClean(d: string, c: string, s: string, lit: string)
    requires AllPlain(d) && AllDigits(c) && s == ['-'] + d + [','] + c && lit == Retype(d) + ['.'] + c
    ensures Clean(s) == ['-'] + lit
  {
    RetypeDigits(c);
    RetypeDigitsOnly(c);
    var md := ['-'] + d;
    assert s == md + [','] + c;
    AllPlainConcat(['-'], d);
    BrazilianClean(md, c, s);
    RetypeConcat(['-'], d);
    RetypeSingle('-');
    ConcatAssoc(['-'], Retype(d), ['.'] + c);
    ConcatAssoc(Retype(d), ['.'], c);
    ConcatAssoc(['-'] + Retype(d), ['.'], c);
  }

  lemma ConcatAssoc(x: string, y: string, z: string)
    ensures x + y + z == x + (y + z)
  {
  }

  lemma DecimalLiteralChars(a: string, c: string, lit: string)
    requires AllDigits(a) && AllDigits(c) && a != [] && lit == a + ['.'] + c
    ensures |lit| >= 2 && forall i :: 0 <= i < |lit| ==> IsDigit(lit[i]) || lit[i] == '.'
    ensures |['-'] + lit| >= 2
    ensures forall i :: 0 <= i < |['-'] + lit| ==> IsDigit((['-'] + lit)[i]) || (['-'] + lit)[i] == '.' || (['-'] + lit)[i] == '-'
  {
    forall i | 0 <= i < |lit|
      ensures IsDigit(lit[i]) || lit[i] == '.'
    {
      if i < |a| {
        assert lit[i] == a[i];
      } else if i > |a| {
        assert lit[i] == c[i - |a| - 1];
      }
    }
  }

  lemma AllPlainConcat(x: string, y: string)
    requires AllPlain(x) && AllPlain(y)
    ensures AllPlain(x + y)
  {
    forall i | 0 <= i < |x + y|
      ensures IsPlainChar((x + y)[i])
    {
      if i < |x| {
        assert (x + y)[i] == x[i];
      } else {
        assert (x + y)[i] == y[i - |x|];
      }
    }
  }

  lemma CommaJoinPlain(d: string, c: string, s: string)
    requires AllPlain(d) && AllPlain(c) && s == d + [','] + c
    ensures AllPlain(s)
  {
    AllPlainConcat(d, [',']);
    AllPlainConcat(d + [','], c);
  }

  lemma CommaJoinRetype(d: string, c: string, s: string)
    requires s == d + [','] + c
    ensures Retype(s) == Retype(d) + ['.'] + Retype(c)
  {
    RetypeConcat(d, [',']);
    RetypeConcat(d + [','], c);
    RetypeSingle(',');
  }

  /** With the comma as decimal mark, the cleaned text is the integer digits,
      a point and the fraction digits. */
  lemma BrazilianClean(d: string, c: string, s: string)
    requires AllPlain(d) && AllPlain(c) && s == d + [','] + c
    ensures Clean(s) == Retype(d) + ['.'] + Retype(c)
  {
    CommaJoinPlain(d, c, s);
    CleanPlain(s);
    CommaJoinRetype(d, c, s);
  }

  /** `Retype` on one character. */
  lemma RetypeSingle(x: char)
    ensures Retype([x]) == if x == ' ' || x == '.' then [] else if x == ',' then ['.'] else [x]
  {
    assert [x][1..] == [];
  }

  /** Digits are left as they are. */
  lemma {:induction false} RetypeDigitsOnly(c: string)
    requires AllDigits(c)
    ensures Retype(c) == c
    decreases |c|
  {
    if c != [] {
      RetypeDigitsOnly(c[1..]);
    }
  }

  /** A cleaned decimal literal with an optional sign is no unit and no zero token. */
  lemma RouteDecimal(s: string, lit: string)
    requires Clean(s) == lit && lit != [] && (|lit| >= 2 || IsDigit(lit[0]))
    requires forall i :: 0 <= i < |lit| ==> IsDigit(lit[i]) || lit[i] == '.' || lit[i] == '-'
    ensures ParseValor(s) == ParseFloat(lit)
  {
    assert IsDigit(lit[0]) || lit[0] == '.' || lit[0] == '-';
    assert "nan"[0] == 'n';
    NoUnits(lit);
    PlainRoute(s, lit);
  }

  /** Without a comma every period is a thousands separator, so "1.234" is 1234
      and an English "1.5" reads as 15. */
  lemma GroupedInteger(d: string)
    requires DigitsAndDots(d) && Retype(d) != []
    ensures AllDigits(Retype(d)) && ParseValor(d) == Ok(IntegerValue(Retype(d)))
  {
    RetypeDigits(d);
    CleanPlain(d);
    IntegerLiteral(Retype(d));
    RouteDecimal(d, Retype(d));
  }

  /** An amount followed by a unit that cleans to "mi" is a thousandth of the
      amount, and one followed by a unit that cleans to "bi" is the amount,
      whenever the amount itself is no zero token. */
  lemma MillionsAreThousandths(s: string, u: string, w: string)
    requires AllPlain(s) && 'm' !in s && 'b' !in s && !IsZeroToken(Retype(s))
    requires AllPlain(u) && Retype(u) == "mi" && AllPlain(w) && Retype(w) == "bi"
    ensures ParseValor(s + u) == Thousandth(ParseValor(s))
    ensures ParseValor(s + w) == ParseValor(s)
  {
    var v := Retype(s);
    CleanPlain(s);
    NoUnitLetters(s);
    NoUnits(v);
    PlainRoute(s, v);
    UnitClean(s, u);
    MillionsRoute(s + u, v, v + "mi");
    UnitClean(s, w);
    BillionsRoute(s + w, v, v + "bi");
  }

  lemma NoUnitLetters(s: string)
    requires 'm' !in s && 'b' !in s
    ensures 'm' !in Retype(s) && 'b' !in Retype(s)
  {
    if 'm' in Retype(s) {
      RetypeChars(s, 'm');
    }
    if 'b' in Retype(s) {
      RetypeChars(s, 'b');
    }
  }

  lemma UnitClean(s: string, u: string)
    requires AllPlain(s) && AllPlain(u)
    ensures Clean(s + u) == Retype(s) + Retype(u)
  {
    AllPlainConcat(s, u);
    CleanPlain(s + u);
    RetypeConcat(s, u);
  }

  /** A unit with no amount in front of it is an error, although an empty
      cell is 0: `float("")` raises. */
  lemma BareUnitFails(u: string)
    requires AllPlain(u) && (Retype(u) == "mi" || Retype(u) == "bi")
    ensures ParseValor(u).Err?
  {
    CleanPlain(u);
    var v := Retype(u);
    assert [] + v == v;
    if v == "mi" {
      MillionsRoute(u, [], v);
    } else {
      BillionsRoute(u, [], v);
    }
    EmptyFloatFails();
  }

  /** A lowercase "r$" in front of the amount is dropped. */
  lemma LowercaseCurrencyStripped(s: string)
    ensures ParseValor("r$" + s) == ParseValor(s)
  {
    var t := "r$" + s;
    assert t[..2] == "r$" && t[2..] == s;
    assert Replace(t, "r$", "") == Replace(s, "r$", "");
  }

  /** A character the clean-up keeps, `float` cannot read, and neither unit
      name contains, makes the value an error. */
  lemma StrayCharFails(s: string, x: char)
    requires x in Clean(s) && !IsLiteralChar(x) && !IsSpace(x)
    requires x != 'm' && x != 'i' && x != 'b' && !IsZeroToken(Clean(s))
    ensures ParseValor(s).Err?
  {
    var v := Clean(s);
    if Contains(v, "mi") {
      ReplaceKeeps(v, "mi", "", x);
      Unreadable(Replace(v, "mi", ""), x);
    } else if Contains(v, "bi") {
      ReplaceKeeps(v, "bi", "", x);
      Unreadable(Replace(v, "bi", ""), x);
    } else {
      Unreadable(v, x);
    }
  }

  /** A unit letter with no unit around it reaches `float`, which refuses it:
      a cleaned "5m" or "2b" is an error. */
  lemma StrayUnitLetterFails(s: string, x: char)
    requires x in Clean(s) && (x == 'm' || x == 'i' || x == 'b')
    requires !Contains(Clean(s), "mi") && !Contains(Clean(s), "bi") && !IsZeroToken(Clean(s))
    ensures ParseValor(s).Err?
  {
    var v := Clean(s);
    PlainRoute(s, v);
    UnitLetterUnreadable(v, x);
  }

  lemma UnitLetterUnreadable(v: string, x: char)
    requires x in v && (x == 'm' || x == 'i' || x == 'b')
    ensures ParseFloat(v).Err?
  {
    Unreadable(v, x);
  }

  /** `float` refuses a text holding a character it cannot read. */
  lemma Unreadable(t: string, x: char)
    requires x in t && !IsLiteralChar(x) && !IsSpace(x)
    ensures ParseFloat(t).Err?
  {
    if ParseFloat(t).Ok? {
      LiteralChars(t);
    }
  }

  /** The clean-up lowercases after it removes "r$", so an uppercase "R$" is
      kept as "r$" and the value is an error. */
  lemma UppercaseCurrencyFails(s: string)
    ensures ParseValor("R$" + s).Err?
  {
    var t := "R$" + s;
    assert t[0] == 'R';
    KeepsCapitalR(t);
    CurrencyFails(t, Clean(t));
  }

  lemma CurrencyFails(t: string, v: string)
    requires v == Clean(t) && 'r' in v
    ensures ParseValor(t).Err?
  {
    ZeroTokensLackR(v);
    StrayCharFails(t, 'r');
  }

  lemma ZeroTokensLackR(v: string)
    requires 'r' in v
    ensures !IsZeroToken(v)
  {
    assert 'r' !in "-" && 'r' !in "nan";
  }

  /** The clean-up keeps an `R`, lowered. */
  lemma KeepsCapitalR(t: string)
    requires 'R' in t
    ensures 'r' in Clean(t)
  {
    var r4 := Replace(Replace(Replace(Replace(t, "r$", ""), " ", ""), ".", ""), ",", ".");
    ReplacementsKeepR(t, r4);
    LowersR(r4);
  }

  /** The four replacements never touch an `R`. */
  lemma ReplacementsKeepR(t: string, r4: string)
    requires 'R' in t
    requires r4 == Replace(Replace(Replace(Replace(t, "r$", ""), " ", ""), ".", ""), ",", ".")
    ensures 'R' in r4
  {
    var r1 := Replace(t, "r$", "");
    ReplaceKeeps(t, "r$", "", 'R');
    var r2 := Replace(r1, " ", "");
    ReplaceKeeps(r1, " ", "", 'R');
    var r3 := Replace(r2, ".", "");
    ReplaceKeeps(r2, ".", "", 'R');
    ReplaceKeeps(r3, ",", ".", 'R');
  }

  /** Stripping keeps an `R`, and lowercasing turns it into `r`. */
  lemma LowersR(u: string)
    requires 'R' in u
    ensures 'r' in LowerAll(Strip(u))
  {
    StripChars(u);
    var st := Strip(u);
    var i :| 0 <= i < |st| && st[i] == 'R';
    assert LowerAll(st)[i] == 'r';
  }

  /** A cleaned text with both units is an error: removing "mi" leaves the
      `b` of "bi" behind. */
  lemma BothUnitsFail(s: string)
    requires Contains(Clean(s), "mi") && 'b' in Clean(s)
    ensures ParseValor(s).Err?
  {
    var v := Clean(s);
    var t := Replace(v, "mi", "");
    MillionsBranch(s, v, t);
    BillionsLeftUnreadable(v, t);
  }

  /** Deleting "mi" from a text with a `b` leaves a text `float` rejects. */
  lemma BillionsLeftUnreadable(v: string, t: string)
    requires 'b' in v && t == Replace(v, "mi", "")
    ensures ParseFloat(t).Err?
  {
    ReplaceKeeps(v, "mi", "", 'b');
    Unreadable(t, 'b');
  }

  /** A cleaned text holding "mi" is read without it, then divided by 1000. */
  lemma MillionsBranch(s: string, v: string, t: string)
    requires Clean(s) == v && Contains(v, "mi") && t == Replace(v, "mi", "")
    ensures ParseValor(s) == Thousandth(ParseFloat(t))
  { }

  /** The clean-up leaves no space and no comma behind. */
  lemma NoSeparatorsLeft(s: string)
    ensures ' ' !in Clean(s) && ',' !in Clean(s)
  {
    var r1 := Replace(s, "r$", "");
    var r2 := Replace(r1, " ", "");
    ReplaceCharRemoves(r1, ' ', "");
    var r3 := Replace(r2, ".", "");
    ReplaceChars(r2, ".", "");
    var r4 := Replace(r3, ",", ".");
    ReplaceChars(r3, ",", ".");
    ReplaceCharRemoves(r3, ',', ".");
    StripChars(r4);
    LoweredKeepsOut(Strip(r4), ' ');
    LoweredKeepsOut(Strip(r4), ',');
  }

  /** Lowercasing neither makes nor removes a character other than a letter. */
  lemma LoweredKeepsOut(t: string, x: char)
    requires !('A' <= x <= 'Z') && !('a' <= x <= 'z') && x < '\U{00C0}'
    ensures x in LowerAll(t) <==> x in t
  {
    if x in LowerAll(t) {
      var i :| 0 <= i < |t| && LowerAll(t)[i] == x;
      assert t[i] == x;
    }
    if x in t {
      var i :| 0 <= i < |t| && t[i] == x;
      assert LowerAll(t)[i] == x;
    }
  }

  /** The cleaned text has a decimal point exactly when the cell has a comma. */
  lemma DecimalPointFromComma(s: string)
    ensures '.' in Clean(s) <==> ',' in s
  {
    var r1 := Replace(s, "r$", "");
    var r2 := Replace(r1, " ", "");
    var r3 := Replace(r2, ".", "");
    var r4 := Replace(r3, ",", ".");
    StripChars(r4);
    LoweredKeepsOut(Strip(r4), '.');
    if ',' in s {
      ReplaceKeeps(s, "r$", "", ',');
      ReplaceKeeps(r1, " ", "", ',');
      ReplaceKeeps(r2, ".", "", ',');
      ReplaceCharYields(r3, ',', ".", '.');
    }
    if '.' in r4 {
      ReplaceCharOrigin(r3, ',', ".", '.');
      ReplaceCharRemoves(r2, '.', "");
      ReplaceChars(r2, ".", "");
      ReplaceChars(r1, " ", "");
      ReplaceChars(s, "r$", "");
    }
  }

  /** A cell that cleans to "", "-" or "nan" is 0. */
  lemma ZeroTokens(s: string)
    requires IsZeroToken(Clean(s))
    ensures ParseValor(s) == Ok(0.0)
  {
    var v := Clean(s);
    assert 'm' !in v && 'b' !in v by {
      assert 'm' !in "-" && 'm' !in "nan" && 'b' !in "-" && 'b' !in "nan";
    }
    NotContainsHead(v, "mi");
    NotContainsHead(v, "bi");
  }

  /** An empty cell, a dash and a missing value (`str` of NaN is "nan") are 0. */
  lemma ZeroTokenValue(s: string)
    requires IsZeroToken(s)
    ensures ParseValor(s) == Ok(0.0)
  {
    ZeroTokenPlain(s);
    CleanPlain(s);
    ZeroTokenRetype(s);
    ZeroTokens(s);
  }

  lemma ZeroTokenPlain(s: string)
    requires IsZeroToken(s)
    ensures AllPlain(s)
  {
  }

  lemma ZeroTokenRetype(s: string)
    requires IsZeroToken(s)
    ensures Retype(s) == s
  {
    if s != [] {
      RetypeDigitsFree(s);
    }
  }

  lemma {:induction false} RetypeDigitsFree(s: string)
    requires forall i :: 0 <= i < |s| ==> s[i] != ' ' && s[i] != '.' && s[i] != ','
    ensures Retype(s) == s
    decreases |s|
  {
    if s != [] {
      RetypeDigitsFree(s[1..]);
      assert s == [s[0]] + s[1..];
    }
  }
}


/** The amounts the flow table prints, read one by one. */
module ValorExamples {

  import opened Results
  import opened Numeral
  import opened Valor
  import opened ValorFacts
  import opened NumeralFacts

  /** "2.500,75" is two thousand five hundred and three quarters. */
  lemma ThousandsExample(s: string)
    requires s == "2.500,75"
    ensures ParseValor(s) == Ok(2500.75)
  {
    var d, c := "2.500", "75";
    assert s == d + [','] + c;
    GroupedDigits(d, "2500");
    FractionOfDigits(c);
    ReadBrazilian(s, d, c, "2500", 2500.75);
  }

  /** A Brazilian amount whose parts are known. */
  lemma ReadBrazilian(s: string, d: string, c: string, g: string, v: real)
    requires s == d + [','] + c && DigitsAndDots(d) && AllDigits(c)
    requires Retype(d) == g && g != [] && AllDigits(g)
    requires DigitsValue(g) as real + Fraction(c) == v
    ensures ParseValor(s) == Ok(v)
  {
    RetypeDigits(d);
    BrazilianValue(d, c, s, g + ['.'] + c);
    assert DecimalValue(g, c) == v;
  }

  lemma GroupedDigits(d: string, g: string)
    requires d == "2.500" && g == "2500"
    ensures DigitsAndDots(d) && Retype(d) == g && AllDigits(g) && DigitsValue(g) == 2500
  {
    assert d == ['2'] + ['.'] + "500" && g == ['2'] + "500";
    SeparatorDropped(d, "500", g);
    ThousandsValue(g);
  }

  /** The grouping period vanishes. */
  lemma SeparatorDropped(d: string, w: string, g: string)
    requires AllDigits(w) && d == ['2'] + ['.'] + w && g == ['2'] + w
    ensures DigitsAndDots(d) && Retype(d) == g
  {
    var t := ['.'] + w;
    assert d[0] == '2' && d[1..] == t;
    assert t[0] == '.' && t[1..] == w;
    RetypeDigitsOnly(w);
    assert Retype(t) == w;
  }

  lemma ThousandsValue(g: string)
    requires g == "2500"
    ensures AllDigits(g) && DigitsValue(g) == 2500
  {
    assert g[..3] == "250" && "250"[..2] == "25" && "25"[..1] == "2";
    assert DigitsValue("25") == 25;
  }

  lemma FractionOfDigits(c: string)
    requires c == "75"
    ensures AllDigits(c) && Fraction(c) == 0.75
  {
    assert c[1..] == "5";
    assert Fraction("5") == 0.5;
  }

  /** "350 mi" is 350 million reais, 0.35 billion. */
  lemma MillionsExample(s: string)
    requires s == "350 mi"
    ensures ParseValor(s) == Ok(0.35)
  {
    var n, u := "350", " mi";
    assert s == n + u;
    NumberPieces(n);
    UnitPieces(u, "mi");
    CleanMillions(s, n, u, n + "mi");
    ReadMillions(s, n, 350.0, 0.35);
  }

  /** The clean-up of a number followed by a unit. */
  lemma CleanMillions(s: string, n: string, u: string, w: string)
    requires s == n + u && AllDigits(n) && AllPlain(u) && Retype(u) == "mi" && w == n + "mi"
    ensures Clean(s) == w
  {
    RetypeDigits(n);
    RetypeDigitsOnly(n);
    UnitClean(n, u);
  }

  /** An amount in millions whose number is known. */
  lemma ReadMillions(s: string, n: string, x: real, v: real)
    requires Clean(s) == n + "mi" && n != [] && AllDigits(n)
    requires DigitsValue(n) as real == x && x / 1000.0 == v
    ensures ParseValor(s) == Ok(v)
  {
    assert 'm' !in n by {
      assert forall i :: 0 <= i < |n| ==> IsDigit(n[i]);
    }
    MillionsRoute(s, n, n + "mi");
    ThousandthOfInteger(n, x, v);
  }

  lemma ThousandthOfInteger(n: string, x: real, v: real)
    requires n != [] && AllDigits(n) && DigitsValue(n) as real == x && x / 1000.0 == v
    ensures Thousandth(ParseFloat(n)) == Ok(v)
  {
    IntegerLiteral(n);
    ThousandthOk(ParseFloat(n), IntegerValue(n), v);
  }

  lemma ThousandthOk(r: Result<real>, x: real, v: real)
    requires r == Ok(x) && x / 1000.0 == v
    ensures Thousandth(r) == Ok(v)
  {
  }

  lemma NumberPieces(n: string)
    requires n == "350"
    ensures AllDigits(n) && DigitsValue(n) == 350
  {
    assert n[..2] == "35" && "35"[..1] == "3";
    assert DigitsValue("3") == 3;
    assert DigitsValue("35") == 35;
  }

  lemma UnitPieces(u: string, k: string)
    requires u == " mi" && k == "mi"
    ensures AllPlain(u) && Retype(u) == k
  {
    assert u[1..] == k;
    RetypeDigitsFree(k);
  }
}
