/** Header canonicalisation (`normalize_colname`): every scraped column header
    becomes the key that all later column lookups use. */
module Header {

  import opened Strings
  import opened Unicode

  /** Decompose, drop the nonspacing marks, lowercase, then delete spaces and periods. */
  function NormalizeColname(col: string): string {
    Replace(Replace(LowerAll(DropMarks(Nfd(col))), " ", ""), ".", "")
  }

  /** A canonical key character: one that canonicalisation maps to itself. */
  predicate IsKeyChar(c: char) {
    IsStable(c) && c != ' ' && c != '.'
  }

  /** Every character of a canonical key is lowercase, is no nonspacing mark, is
      neither a space nor a period, and has no further decomposition. */
  lemma {:induction false} NormalizeColnameKey(col: string)
    ensures forall c :: c in NormalizeColname(col) ==> IsKeyChar(c)
  {
    var decomposed := Nfd(col);
    var unmarked := DropMarks(decomposed);
    var lowered := LowerAll(unmarked);
    var spaced := Replace(lowered, " ", "");
    NfdChars(col);
    forall c | c in lowered
      ensures IsStable(c)
    {
      var i :| 0 <= i < |lowered| && lowered[i] == c;
      var x := unmarked[i];
      assert x in unmarked;
      var d :| d in col && x in Decompose(d);
      BaseLowerStable(d, x);
    }
    ReplaceChars(lowered, " ", "");
    ReplaceCharRemoves(lowered, ' ', "");
    ReplaceChars(spaced, ".", "");
    ReplaceCharRemoves(spaced, '.', "");
  }

  /** A header that is already a canonical key is left as it is. */
  lemma {:induction false} NormalizeColnameFixes(key: string)
    requires forall c :: c in key ==> IsKeyChar(c)
    ensures NormalizeColname(key) == key
  {
    NfdStable(key);
    DropMarksStable(key);
    LowerAllStable(key);
    NotContainsChar(key, ' ');
    ReplaceAbsent(key, " ", "");
    NotContainsChar(key, '.');
    ReplaceAbsent(key, ".", "");
  }

  /** Canonicalisation is idempotent. */
  lemma NormalizeColnameIdempotent(col: string)
    ensures NormalizeColname(NormalizeColname(col)) == NormalizeColname(col)
  {
    NormalizeColnameKey(col);
    NormalizeColnameFixes(NormalizeColname(col));
  }

  /** Canonicalisation works character by character, so it distributes over
      concatenation. */
  lemma NormalizeColnameConcat(a: string, b: string)
    ensures NormalizeColname(a + b) == NormalizeColname(a) + NormalizeColname(b)
  {
    NfdConcat(a, b);
    DropMarksConcat(Nfd(a), Nfd(b));
    LowerAllConcat(DropMarks(Nfd(a)), DropMarks(Nfd(b)));
    var la, lb := LowerAll(DropMarks(Nfd(a))), LowerAll(DropMarks(Nfd(b)));
    ReplaceCharConcat(la, lb, ' ', "");
    ReplaceCharConcat(Replace(la, " ", ""), Replace(lb, " ", ""), '.', "");
  }

  /** A word of small ASCII letters is its own key. */
  lemma SmallWordKey(w: string)
    requires forall c :: c in w ==> 'a' <= c <= 'z'
    ensures NormalizeColname(w) == w
  {
    forall c | c in w
      ensures IsKeyChar(c)
    {
      SmallAsciiStable(c);
    }
    NormalizeColnameFixes(w);
  }

  /** An ASCII capital becomes its small letter. */
  lemma CapitalKey(c: char)
    requires 'A' <= c <= 'Z'
    ensures NormalizeColname([c]) == [(c as int + 32) as char]
  {
    var l := (c as int + 32) as char;
    assert Nfd([c]) == [c];
    assert DropMarks([c]) == [c];
    assert LowerAll([c]) == [l];
    NotContainsChar([l], ' ');
    ReplaceAbsent([l], " ", "");
    NotContainsChar([l], '.');
    ReplaceAbsent([l], ".", "");
  }

  /** Spaces and periods vanish. */
  lemma SeparatorKey(c: char)
    requires c == ' ' || c == '.'
    ensures NormalizeColname([c]) == []
  {
    assert Nfd([c]) == [c];
    assert DropMarks([c]) == [c];
    assert LowerAll([c]) == [c];
    if c == ' ' {
      assert Replace([c], " ", "") == [];
      assert Replace([], ".", "") == [];
    } else {
      NotContainsChar([c], ' ');
      ReplaceAbsent([c], " ", "");
      assert Replace([c], ".", "") == [];
    }
  }

  /** A capitalised word is lowercased. */
  lemma {:induction false} CapitalisedWordKey(c: char, w: string)
    requires 'A' <= c <= 'Z' && forall x :: x in w ==> 'a' <= x <= 'z'
    ensures NormalizeColname([c] + w) == [(c as int + 32) as char] + w
  {
    CapitalKey(c);
    SmallWordKey(w);
    NormalizeColnameConcat([c], w);
  }

  /** A small letter carrying an accent becomes its base letter. */
  lemma AccentedKey(x: char)
    requires |Decompose(x)| == 2 && 'a' <= Decompose(x)[0] <= 'z'
    ensures NormalizeColname([x]) == [Decompose(x)[0]]
  {
    var b := Decompose(x)[0];
    assert Nfd([x]) == Decompose(x);
    assert DropMarks([Decompose(x)[1]]) == [];
    assert DropMarks(Decompose(x)) == [b];
    SmallAsciiStable(b);
    assert LowerAll([b]) == [b];
    NotContainsChar([b], ' ');
    ReplaceAbsent([b], " ", "");
    NotContainsChar([b], '.');
    ReplaceAbsent([b], ".", "");
  }

  /** A capitalised word whose second letter is accented loses case and accent. */
  lemma {:induction false} AccentedWordKey(c: char, x: char, w: string)
    requires 'A' <= c <= 'Z' && forall y :: y in w ==> 'a' <= y <= 'z'
    requires |Decompose(x)| == 2 && 'a' <= Decompose(x)[0] <= 'z'
    ensures NormalizeColname([c] + [x] + w) == [(c as int + 32) as char] + [Decompose(x)[0]] + w
  {
    CapitalKey(c);
    AccentedKey(x);
    SmallWordKey(w);
    NormalizeColnameConcat([c], [x]);
    NormalizeColnameConcat([c] + [x], w);
  }

  /** Separators made of spaces and periods vanish. */
  lemma {:induction false} SeparatorVanishes(sep: string)
    requires forall c :: c in sep ==> c == ' ' || c == '.'
    ensures NormalizeColname(sep) == []
  {
    if sep != [] {
      assert sep == [sep[0]] + sep[1..];
      assert sep[0] in sep;
      assert forall c :: c in sep[1..] ==> c in sep;
      SeparatorKey(sep[0]);
      SeparatorVanishes(sep[1..]);
      NormalizeColnameConcat([sep[0]], sep[1..]);
    }
  }

  /** Two words joined by spaces and periods give the two keys run together. */
  lemma JoinKey(a: string, sep: string, b: string, ka: string, kb: string)
    requires forall c :: c in sep ==> c == ' ' || c == '.'
    requires NormalizeColname(a) == ka && NormalizeColname(b) == kb
    ensures NormalizeColname(a + sep + b) == ka + kb
  {
    SeparatorVanishes(sep);
    ConcatKeys(a, sep, ka, []);
    assert ka + [] == ka;
    ConcatKeys(a + sep, b, ka, kb);
  }

  /** The key of a concatenation, from the keys of its parts. */
  lemma ConcatKeys(x: string, y: string, kx: string, ky: string)
    requires NormalizeColname(x) == kx && NormalizeColname(y) == ky
    ensures NormalizeColname(x + y) == kx + ky
  {
    NormalizeColnameConcat(x, y);
  }
}

/** The headers the scraped flow table actually carries, and their keys. Each
    lemma takes the header as a parameter equal to its spelling. */
module HeaderExamples {

  import opened Header

  lemma AccentedSpelling(h: string)
    requires h == "Pessoa Física"
    ensures h == ['P'] + "essoa" + " " + (['F'] + ['í'] + "sica")
  {
  }

  lemma PlainSpelling(h: string)
    requires h == "Pessoa Fisica"
    ensures h == ['P'] + "essoa" + " " + (['F'] + "isica")
  {
  }

  lemma {:induction false} FisicaAccentedKey(h: string)
    requires h == "Pessoa Física"
    ensures NormalizeColname(h) == "pessoafisica"
  {
    AccentedSpelling(h);
    var a, b := ['P'] + "essoa", ['F'] + ['í'] + "sica";
    CapitalisedHeader(a, 'P', "essoa", "pessoa");
    AccentedFisicaKey(b, "fisica");
    FisicaJoin(a, b, "pessoa", "fisica");
  }

  lemma {:induction false} FisicaPlainKey(h: string)
    requires h == "Pessoa Fisica"
    ensures NormalizeColname(h) == "pessoafisica"
  {
    PlainSpelling(h);
    var a, b := ['P'] + "essoa", ['F'] + "isica";
    CapitalisedHeader(a, 'P', "essoa", "pessoa");
    CapitalisedHeader(b, 'F', "isica", "fisica");
    FisicaJoin(a, b, "pessoa", "fisica");
  }

  lemma AccentedFisicaKey(w: string, k: string)
    requires w == ['F'] + ['í'] + "sica" && k == "fisica"
    ensures NormalizeColname(w) == k
  {
    AccentedWordKey('F', 'í', "sica");
  }

  /** "Pessoa" and "Física", joined by a space. */
  lemma FisicaJoin(a: string, b: string, ka: string, kb: string)
    requires ka == "pessoa" && kb == "fisica"
    requires NormalizeColname(a) == ka && NormalizeColname(b) == kb
    ensures NormalizeColname(a + " " + b) == "pessoafisica"
  {
    JoinKey(a, " ", b, ka, kb);
    assert ka + kb == "pessoafisica";
  }

  /** The accent in "Física" does not change the key. */
  lemma AccentedHeaderKey(accented: string, plain: string)
    requires accented == "Pessoa Física" && plain == "Pessoa Fisica"
    ensures NormalizeColname(accented) == NormalizeColname(plain) == "pessoafisica"
  {
    FisicaAccentedKey(accented);
    FisicaPlainKey(plain);
  }

  lemma PunctuatedSpelling(h: string)
    requires h == "Inst. Financeira"
    ensures h == ['I'] + "nst" + ". " + (['F'] + "inanceira")
  {
  }

  lemma PunctuatedJoin(a: string, b: string)
    requires a == ['I'] + "nst" && b == ['F'] + "inanceira"
    ensures NormalizeColname(a + ". " + b) == "inst" + "financeira"
  {
    CapitalisedHeader(a, 'I', "nst", "inst");
    CapitalisedHeader(b, 'F', "inanceira", "financeira");
    JoinKey(a, ". ", b, "inst", "financeira");
  }

  /** The period and the space in "Inst. Financeira" are dropped. */
  lemma {:induction false} PunctuatedHeaderKey(h: string)
    requires h == "Inst. Financeira"
    ensures NormalizeColname(h) == "instfinanceira"
  {
    PunctuatedSpelling(h);
    PunctuatedJoin(['I'] + "nst", ['F'] + "inanceira");
  }

  /** A header spelled as a capital and small letters has the lowered word as
      its key. */
  lemma CapitalisedHeader(h: string, c: char, w: string, k: string)
    requires 'A' <= c <= 'Z' && (forall x :: x in w ==> 'a' <= x <= 'z')
    requires h == [c] + w && k == [(c as int + 32) as char] + w
    ensures NormalizeColname(h) == k
  {
    CapitalisedWordKey(c, w);
  }

  /** The one-word headers of the table: three categories and the day. */
  lemma {:induction false} SingleWordKeys(h: string, k: string)
    requires (h == "Estrangeiro" && k == "estrangeiro") || (h == "Institucional" && k == "institucional")
      || (h == "Outros" && k == "outros") || (h == "Data" && k == "data")
    ensures NormalizeColname(h) == k
  {
    if h == "Estrangeiro" {
      CapitalisedHeader(h, 'E', "strangeiro", k);
    } else if h == "Institucional" {
      CapitalisedHeader(h, 'I', "nstitucional", k);
    } else if h == "Outros" {
      CapitalisedHeader(h, 'O', "utros", k);
    } else {
      CapitalisedHeader(h, 'D', "ata", k);
    }
  }
}
