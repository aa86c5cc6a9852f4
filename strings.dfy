/** The Python `str` operations the pipeline uses: `in` on substrings,
    `replace`, `strip`. Strings are sequences of characters. */
module Strings {

  predicate StartsWith(s: string, t: string) {
    |t| <= |s| && s[..|t|] == t
  }

  /** Python's `t in s` for strings. */
  predicate Contains(s: string, t: string)
    decreases |s|
  {
    StartsWith(s, t) || (|s| > 0 && Contains(s[1..], t))
  }

  /** Python's `s.replace(pat, rep)`: scans left to right and replaces every
      non-overlapping occurrence of `pat`. The pipeline never passes an empty `pat`. */
  function Replace(s: string, pat: string, rep: string): string
    requires pat != []
    decreases |s|
  {
    if s == [] then []
    else
      var hit := StartsWith(s, pat);
      (if hit then rep else [s[0]]) + Replace(s[if hit then |pat| else 1..], pat, rep)
  }

  /** Python's `str.isspace()` for one character, as used by `strip()` and `float()`. */
  predicate IsSpace(c: char) {
    c == ' ' || ('\t' <= c <= '\r') || ('\U{001C}' <= c <= '\U{001F}')
    || c == '\U{0085}' || c == '\U{00A0}' || c == '\U{1680}'
    || ('\U{2000}' <= c <= '\U{200A}') || c == '\U{2028}' || c == '\U{2029}'
    || c == '\U{202F}' || c == '\U{205F}' || c == '\U{3000}'
  }

  function TrimLeft(s: string): (r: string)
    ensures |r| <= |s| && r == s[|s| - |r|..]
    ensures r == [] || !IsSpace(r[0])
    ensures forall i :: 0 <= i < |s| - |r| ==> IsSpace(s[i])
    decreases |s|
  {
    if s != [] && IsSpace(s[0]) then TrimLeft(s[1..]) else s
  }

  function TrimRight(s: string): (r: string)
    ensures |r| <= |s| && r == s[..|r|]
    ensures r == [] || !IsSpace(r[|r| - 1])
    ensures forall i :: |r| <= i < |s| ==> IsSpace(s[i])
    decreases |s|
  {
    if s != [] && IsSpace(s[|s| - 1]) then TrimRight(s[..|s| - 1]) else s
  }

  /** Python's `s.strip()` with no argument: drops leading and trailing whitespace. */
  function Strip(s: string): (r: string)
    ensures r == [] || (!IsSpace(r[0]) && !IsSpace(r[|r| - 1]))
  {
    TrimRight(TrimLeft(s))
  }

  /** Strip removes whitespace and nothing else. */
  lemma StripChars(s: string)
    ensures forall c :: c in s ==> c in Strip(s) || IsSpace(c)
    ensures forall c :: c in Strip(s) ==> c in s
  {
    var l := TrimLeft(s);
    forall c | c in s
      ensures c in Strip(s) || IsSpace(c)
    {
      var i :| 0 <= i < |s| && s[i] == c;
      if i >= |s| - |l| {
        assert l[i - (|s| - |l|)] == c;
        var j := i - (|s| - |l|);
        if j < |Strip(s)| {
          assert Strip(s)[j] == c;
        }
      }
    }
  }

  // ---------------------------------------------------------------------------
  // Facts about Replace

  /** `replace` only ever copies characters of `s` or writes characters of `rep`. */
  lemma {:induction false} ReplaceChars(s: string, pat: string, rep: string)
    requires pat != []
    ensures forall c :: c in Replace(s, pat, rep) ==> c in s || c in rep
    decreases |s|
  {
    if s == [] {
    } else if StartsWith(s, pat) {
      ReplaceChars(s[|pat|..], pat, rep);
      assert forall c :: c in s[|pat|..] ==> c in s;
    } else {
      ReplaceChars(s[1..], pat, rep);
      assert forall c :: c in s[1..] ==> c in s;
    }
  }

  /** A character that is not part of `pat` survives `replace`. */
  lemma {:induction false} ReplaceKeeps(s: string, pat: string, rep: string, c: char)
    requires pat != [] && c in s && c !in pat
    ensures c in Replace(s, pat, rep)
    decreases |s|
  {
    if StartsWith(s, pat) {
      assert s[..|pat|] == pat;
      assert c !in s[..|pat|];
      assert s == s[..|pat|] + s[|pat|..];
      ReplaceKeeps(s[|pat|..], pat, rep, c);
    } else if s[0] != c {
      assert s == [s[0]] + s[1..];
      ReplaceKeeps(s[1..], pat, rep, c);
    }
  }

  /** Replacing a single character removes every occurrence of it, unless
      the replacement text brings it back. */
  lemma {:induction false} ReplaceCharRemoves(s: string, x: char, rep: string)
    requires x !in rep
    ensures x !in Replace(s, [x], rep)
    decreases |s|
  {
    if s != [] {
      ReplaceCharRemoves(s[1..], x, rep);
      assert s[|[x]|..] == s[1..];
    }
  }

  /** Text that does not contain `pat` is left as it is. */
  lemma {:induction false} ReplaceAbsent(s: string, pat: string, rep: string)
    requires pat != [] && !Contains(s, pat)
    ensures Replace(s, pat, rep) == s
    decreases |s|
  {
    if s != [] {
      ReplaceAbsent(s[1..], pat, rep);
    }
  }

  /** Replacing a single character distributes over concatenation. */
  lemma {:induction false} ReplaceCharConcat(s: string, t: string, x: char, rep: string)
    ensures Replace(s + t, [x], rep) == Replace(s, [x], rep) + Replace(t, [x], rep)
    decreases |s|
  {
    if s != [] {
      assert (s + t)[1..] == s[1..] + t;
      assert (s + t)[..1] == [s[0]] && s[..1] == [s[0]];
      assert StartsWith(s + t, [x]) == StartsWith(s, [x]);
      ReplaceCharConcat(s[1..], t, x, rep);
    } else {
      assert s + t == t;
    }
  }

  /** A string with no occurrence of `x` does not contain `x` as a substring. */
  lemma NotContainsChar(s: string, x: char)
    requires x !in s
    ensures !Contains(s, [x])
  {
    NotContainsHead(s, [x]);
  }

  /** `StartsWith` characterises `Contains` at position 0; a substring found
      further in is found in every longer suffix. */
  lemma {:induction false} ContainsAt(s: string, t: string, i: nat)
    requires i <= |s| && StartsWith(s[i..], t)
    ensures Contains(s, t)
    decreases i
  {
    if i > 0 {
      assert s[1..][i - 1..] == s[i..];
      ContainsAt(s[1..], t, i - 1);
    }
  }

  /** Removing text that begins with `x` cannot remove an `x` placed in front of it,
      nor can it create a match straddling the front. */
  lemma {:induction false} ReplaceAfterPrefix(p: string, s: string, pat: string, rep: string)
    requires pat != [] && |p| > 0
    requires forall k :: 0 <= k < |p| ==> !StartsWith((p + s)[k..], pat)
    ensures Replace(p + s, pat, rep) == p + Replace(s, pat, rep)
    decreases |p|
  {
    assert (p + s)[0..] == p + s;
    assert (p + s)[1..] == p[1..] + s;
    if |p| > 1 {
      forall k | 0 <= k < |p[1..]|
        ensures !StartsWith((p[1..] + s)[k..], pat)
      {
        assert (p[1..] + s)[k..] == (p + s)[k + 1..];
      }
      ReplaceAfterPrefix(p[1..], s, pat, rep);
    } else {
      assert p[1..] + s == s;
    }
  }

  /** A text lacking the first character of `t` does not contain `t`. */
  lemma {:induction false} NotContainsHead(s: string, t: string)
    requires t != [] && t[0] !in s
    ensures !Contains(s, t)
    decreases |s|
  {
    if s != [] {
      assert s[0] != t[0];
      NotContainsHead(s[1..], t);
    }
  }

  /** Replacing one character in a one-character text. */
  lemma ReplaceSingle(c: char, x: char, rep: string)
    ensures Replace([c], [x], rep) == if c == x then rep else [c]
  {
    assert [c][..1] == [c];
    assert Replace([], [x], rep) == [];
  }

  /** Where a character of the result of replacing `x` comes from: a character
      of `s` other than `x`, or the replacement text written for an `x`. */
  lemma {:induction false} ReplaceCharOrigin(s: string, x: char, rep: string, c: char)
    requires c in Replace(s, [x], rep)
    ensures (c in s && c != x) || (x in s && c in rep)
    decreases |s|
  {
    assert s == [s[0]] + s[1..];
    ReplaceCharConcat([s[0]], s[1..], x, rep);
    ReplaceSingle(s[0], x, rep);
    if c !in Replace([s[0]], [x], rep) {
      ReplaceCharOrigin(s[1..], x, rep, c);
    }
  }

  /** Replacing an `x` that occurs writes the replacement text. */
  lemma {:induction false} ReplaceCharYields(s: string, x: char, rep: string, c: char)
    requires x in s && c in rep
    ensures c in Replace(s, [x], rep)
    decreases |s|
  {
    assert s == [s[0]] + s[1..];
    ReplaceCharConcat([s[0]], s[1..], x, rep);
    ReplaceSingle(s[0], x, rep);
    if s[0] != x {
      ReplaceCharYields(s[1..], x, rep, c);
    }
  }

  /** Strip leaves text with no whitespace at either end as it is. */
  lemma StripNoSpace(s: string)
    requires s == [] || (!IsSpace(s[0]) && !IsSpace(s[|s| - 1]))
    ensures Strip(s) == s
  {
  }
}
