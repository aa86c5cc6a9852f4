/** The slice of Unicode that header canonicalisation relies on: canonical
    decomposition (NFD), the nonspacing-mark category `Mn`, and lowercase
    mapping. The full Unicode tables are replaced by the Latin-1 letters that
    Portuguese headers use; every other character decomposes to itself and
    lowercases to itself, except ASCII capitals. */
module Unicode {

  import opened Results

  const Grave: char := '\U{0300}'
  const Acute: char := '\U{0301}'
  const Circumflex: char := '\U{0302}'
  const Tilde: char := '\U{0303}'
  const Diaeresis: char := '\U{0308}'
  const Ring: char := '\U{030A}'
  const Cedilla: char := '\U{0327}'

  /** `unicodedata.category(c) == 'Mn'`, restricted to the Combining
      Diacritical Marks block U+0300..U+036F (every character there is `Mn`). */
  predicate IsMn(c: char) {
    '\U{0300}' <= c <= '\U{036F}'
  }

  /** A Latin-1 capital letter: U+00C0..U+00DE without the multiplication sign.
      Its small letter sits 32 code points higher. */
  predicate IsLatinCapital(c: char) {
    'À' <= c <= 'Þ' && c != '×'
  }

  /** The precomposed small Latin-1 letters and their (base letter, combining mark)
      decomposition. */
  function SmallTable(c: char): (r: Option<(char, char)>)
    ensures r.Some? ==> 'a' <= r.value.0 <= 'z' && IsMn(r.value.1)
  {
    match c
    case 'à' => Some(('a', Grave))       case 'á' => Some(('a', Acute))
    case 'â' => Some(('a', Circumflex))  case 'ã' => Some(('a', Tilde))
    case 'ä' => Some(('a', Diaeresis))   case 'å' => Some(('a', Ring))
    case 'ç' => Some(('c', Cedilla))
    case 'è' => Some(('e', Grave))       case 'é' => Some(('e', Acute))
    case 'ê' => Some(('e', Circumflex))  case 'ë' => Some(('e', Diaeresis))
    case 'ì' => Some(('i', Grave))       case 'í' => Some(('i', Acute))
    case 'î' => Some(('i', Circumflex))  case 'ï' => Some(('i', Diaeresis))
    case 'ñ' => Some(('n', Tilde))
    case 'ò' => Some(('o', Grave))       case 'ó' => Some(('o', Acute))
    case 'ô' => Some(('o', Circumflex))  case 'õ' => Some(('o', Tilde))
    case 'ö' => Some(('o', Diaeresis))
    case 'ù' => Some(('u', Grave))       case 'ú' => Some(('u', Acute))
    case 'û' => Some(('u', Circumflex))  case 'ü' => Some(('u', Diaeresis))
    case 'ý' => Some(('y', Acute))       case 'ÿ' => Some(('y', Diaeresis))
    case _ => None
  }

  /** Canonical decomposition of one character. A Latin-1 capital decomposes as
      its small letter does, with the base letter in upper case; a character
      outside the table is its own decomposition. */
  function Decompose(c: char): (d: seq<char>)
    ensures d == [c] || (|d| == 2 && IsMn(d[1]) && ('A' <= d[0] <= 'Z' || 'a' <= d[0] <= 'z'))
  {
    var small := if IsLatinCapital(c) then (c as int + 32) as char else c;
    match SmallTable(small)
    case None => [c]
    case Some((base, mark)) =>
      if IsLatinCapital(c) then [(base as int - 32) as char, mark] else [base, mark]
  }

  /** Python's `str.lower()` on one character: ASCII capitals and the Latin-1
      capitals (the multiplication sign aside) move up by 32 code points. */
  function Lower(c: char): (l: char)
    ensures !IsMn(c) ==> !IsMn(l)
    ensures c != ' ' && c != '.' ==> l != ' ' && l != '.'
  {
    if 'A' <= c <= 'Z' || IsLatinCapital(c) then (c as int + 32) as char
    else c
  }

  /** Canonical decomposition (NFD) of a text, character by character. */
  function Nfd(s: string): string {
    if s == [] then [] else Decompose(s[0]) + Nfd(s[1..])
  }

  /** The text without its nonspacing marks. */
  function DropMarks(s: string): (r: string)
    ensures forall c :: c in r ==> c in s && !IsMn(c)
  {
    if s == [] then [] else (if IsMn(s[0]) then [] else [s[0]]) + DropMarks(s[1..])
  }

  /** Lowercasing of a whole text. */
  function LowerAll(s: string): (r: string)
    ensures |r| == |s| && forall i :: 0 <= i < |s| ==> r[i] == Lower(s[i])
  {
    if s == [] then [] else [Lower(s[0])] + LowerAll(s[1..])
  }

  /** A character that every stage of canonicalisation leaves alone. */
  predicate IsStable(c: char) {
    Decompose(c) == [c] && !IsMn(c) && Lower(c) == c
  }

  /** The table is closed: lowercasing a base letter of any decomposition gives
      a character that decomposes and lowercases to itself. */
  lemma BaseLowerStable(c: char, x: char)
    requires x in Decompose(c) && !IsMn(x)
    ensures IsStable(Lower(x))
  {
  }

  /** Every non-mark character of `Nfd(s)` is a base letter of the decomposition of
      some character of `s`. */
  lemma {:induction false} NfdChars(s: string)
    ensures forall x :: x in Nfd(s) ==> exists c :: c in s && x in Decompose(c)
  {
    if s != [] {
      NfdChars(s[1..]);
      forall x | x in Nfd(s)
        ensures exists c :: c in s && x in Decompose(c)
      {
        if x !in Decompose(s[0]) {
          assert x in Nfd(s[1..]);
          var c :| c in s[1..] && x in Decompose(c);
          assert c in s;
        }
      }
    }
  }

  lemma {:induction false} NfdStable(s: string)
    requires forall c :: c in s ==> IsStable(c)
    ensures Nfd(s) == s
  {
    if s != [] {
      assert s[0] in s;
      assert forall c :: c in s[1..] ==> c in s;
      NfdStable(s[1..]);
    }
  }

  lemma {:induction false} DropMarksStable(s: string)
    requires forall c :: c in s ==> !IsMn(c)
    ensures DropMarks(s) == s
  {
    if s != [] {
      assert s[0] in s;
      assert forall c :: c in s[1..] ==> c in s;
      DropMarksStable(s[1..]);
    }
  }

  lemma LowerAllStable(s: string)
    requires forall c :: c in s ==> Lower(c) == c
    ensures LowerAll(s) == s
  {
  }

  lemma {:induction false} NfdConcat(a: string, b: string)
    ensures Nfd(a + b) == Nfd(a) + Nfd(b)
  {
    if a != [] {
      assert (a + b)[0] == a[0] && (a + b)[1..] == a[1..] + b;
      NfdConcat(a[1..], b);
    } else {
      assert a + b == b;
    }
  }

  lemma {:induction false} DropMarksConcat(a: string, b: string)
    ensures DropMarks(a + b) == DropMarks(a) + DropMarks(b)
  {
    if a != [] {
      assert (a + b)[0] == a[0] && (a + b)[1..] == a[1..] + b;
      DropMarksConcat(a[1..], b);
    } else {
      assert a + b == b;
    }
  }

  lemma LowerAllConcat(a: string, b: string)
    ensures LowerAll(a + b) == LowerAll(a) + LowerAll(b)
  {
  }

  /** The characters from which the category names are spelled are stable. */
  lemma SmallAsciiStable(c: char)
    requires 'a' <= c <= 'z'
    ensures IsStable(c)
  {
  }
}
