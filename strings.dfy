/**
 * The Python string operations the scraper and the two pages rely on: `str.lstrip(chars)`,
 * `str.strip()`, `str.replace(pat, '')`, removal of a character class by a
 * regular expression, the `in` substring test and the `<=` ordering of
 * strings used when pandas sorts a text column.
 */
module Strings {

  /** The characters Python's `str.isspace` accepts; `str.strip()` removes them. */
  const Whitespace: set<char> := {
    ' ', '\t', '\n', '\r', '\U{B}', '\U{C}', '\U{1C}', '\U{1D}', '\U{1E}', '\U{1F}',
    '\U{85}', '\U{A0}', '\U{1680}', '\U{2000}', '\U{2001}', '\U{2002}', '\U{2003}',
    '\U{2004}', '\U{2005}', '\U{2006}', '\U{2007}', '\U{2008}', '\U{2009}', '\U{200A}',
    '\U{2028}', '\U{2029}', '\U{202F}', '\U{205F}', '\U{3000}'
  }

  /** The number of leading characters of `s` that belong to `drop`. */
  function LeadingCount(s: string, drop: set<char>): (n: nat)
    ensures n <= |s|
    ensures forall i :: 0 <= i < n ==> s[i] in drop
    ensures n < |s| ==> s[n] !in drop
  {
    if |s| > 0 && s[0] in drop then
      assert forall i | 1 <= i <= LeadingCount(s[1..], drop) :: s[i] == s[1..][i - 1];
      1 + LeadingCount(s[1..], drop)
    else 0
  }

  /** The length of `s` without its trailing characters that belong to `drop`. */
  function TrailingStart(s: string, drop: set<char>): (n: nat)
    ensures n <= |s|
    ensures forall i :: n <= i < |s| ==> s[i] in drop
    ensures 0 < n ==> s[n - 1] !in drop
  {
    if |s| > 0 && s[|s| - 1] in drop then
      assert forall i | 0 <= i < |s| - 1 :: s[i] == s[..|s| - 1][i];
      TrailingStart(s[..|s| - 1], drop)
    else |s|
  }

  /** `s.lstrip(drop)`: removes the longest prefix made only of characters in `drop`. */
  function TrimStart(s: string, drop: set<char>): (r: string)
    ensures r == [] || r[0] !in drop
  {
    s[LeadingCount(s, drop)..]
  }

  /** `s.rstrip(drop)`: removes the longest suffix made only of characters in `drop`. */
  function TrimEnd(s: string, drop: set<char>): (r: string)
    ensures r == [] || r[|r| - 1] !in drop
  {
    s[..TrailingStart(s, drop)]
  }

  /** `s.strip(drop)`: removes both. */
  function Trim(s: string, drop: set<char>): (r: string)
    ensures r == [] || (r[0] !in drop && r[|r| - 1] !in drop)
  {
    var t := TrimStart(s, drop);
    var r := TrimEnd(t, drop);
    assert r != [] ==> r[0] == t[0];
    r
  }

  /** `Trim` removes characters of `drop` only, and only at the two ends: the
      result is the slice of `s` between the removed prefix and suffix. */
  lemma TrimSlice(s: string, drop: set<char>)
    ensures var i, r := LeadingCount(s, drop), Trim(s, drop);
      i + |r| <= |s| && r == s[i..i + |r|]
      && (forall k :: 0 <= k < i ==> s[k] in drop)
      && (forall k :: i + |r| <= k < |s| ==> s[k] in drop)
  {
    var i := LeadingCount(s, drop);
    var t := s[i..];
    var n := TrailingStart(t, drop);
    assert Trim(s, drop) == t[..n];
    assert t[..n] == s[i..i + n];
    forall k | i + n <= k < |s| ensures s[k] in drop {
      assert s[k] == t[k - i];
    }
  }

  /** Removing a prefix of `drop` characters in front of a string that does not
      start with one gives that string back. */
  lemma TrimStartAfter(p: string, s: string, drop: set<char>)
    requires forall i :: 0 <= i < |p| ==> p[i] in drop
    requires s == [] || s[0] !in drop
    ensures TrimStart(p + s, drop) == s
  {
    assert LeadingCount(p + s, drop) == |p|;
    assert (p + s)[|p|..] == s;
  }

  /** `s.strip()`: `Trim` of Python's whitespace. */
  function Strip(s: string): (r: string)
    ensures r == [] || (r[0] !in Whitespace && r[|r| - 1] !in Whitespace)
  {
    Trim(s, Whitespace)
  }

  /** A string that neither starts nor ends with whitespace is left alone by `Strip`. */
  lemma StripUnchanged(s: string)
    requires s == [] || (s[0] !in Whitespace && s[|s| - 1] !in Whitespace)
    ensures Strip(s) == s
  {
  }

  /** Removes every character of `drop` wherever it occurs; the regular-expression
      replacement `re.sub('[...]+', '', s)` of a character class. */
  function RemoveChars(s: string, drop: set<char>): (r: string)
    ensures |r| <= |s|
    ensures forall i :: 0 <= i < |r| ==> r[i] !in drop
    ensures (forall i :: 0 <= i < |s| ==> s[i] !in drop) ==> r == s
  {
    if s == [] then []
    else (if s[0] in drop then [] else [s[0]]) + RemoveChars(s[1..], drop)
  }

  /** Every character outside `drop` survives `RemoveChars` as often as it occurs. */
  lemma {:induction false} RemoveCharsKeeps(s: string, drop: set<char>, c: char)
    requires c !in drop
    ensures multiset(RemoveChars(s, drop))[c] == multiset(s)[c]
  {
    if s != [] {
      assert s == [s[0]] + s[1..];
      RemoveCharsKeeps(s[1..], drop, c);
    }
  }

  /** `RemoveChars` works character by character: it keeps the order of the
      characters it keeps. */
  lemma {:induction false} RemoveCharsAppend(s: string, t: string, drop: set<char>)
    ensures RemoveChars(s + t, drop) == RemoveChars(s, drop) + RemoveChars(t, drop)
  {
    if s == [] {
      assert s + t == t;
    } else {
      var head := if s[0] in drop then [] else [s[0]];
      assert (s + t)[0] == s[0] && (s + t)[1..] == s[1..] + t;
      RemoveCharsAppend(s[1..], t, drop);
      calc {
        RemoveChars(s + t, drop);
        head + RemoveChars(s[1..] + t, drop);
        head + (RemoveChars(s[1..], drop) + RemoveChars(t, drop));
        (head + RemoveChars(s[1..], drop)) + RemoveChars(t, drop);
      }
    }
  }

  /** Python's `pat in s`. */
  predicate Contains(s: string, pat: string)
    decreases |s|
  {
    pat <= s || (|s| > 0 && Contains(s[1..], pat))
  }

  /** `Contains` holds exactly when `pat` occurs at some position of `s`. */
  lemma {:induction false} ContainsIffOccurs(s: string, pat: string)
    ensures Contains(s, pat) <==> exists i :: 0 <= i <= |s| && pat <= s[i..]
  {
    if pat <= s {
      assert s[0..] == s;
    } else if |s| > 0 {
      ContainsIffOccurs(s[1..], pat);
      if Contains(s[1..], pat) {
        var i :| 0 <= i <= |s| - 1 && pat <= s[1..][i..];
        assert s[1..][i..] == s[i + 1..];
      } else {
        forall i | 0 <= i <= |s| ensures !(pat <= s[i..]) {
          if i > 0 {
            assert s[1..][i - 1..] == s[i..];
          }
        }
      }
    } else {
      forall i | 0 <= i <= |s| ensures !(pat <= s[i..]) {
        assert s[i..] == s;
      }
    }
  }

  /** `s.replace(pat, '')`: scanning left to right, every non-overlapping
      occurrence of `pat` is removed. */
  function RemoveAll(s: string, pat: string): (r: string)
    requires pat != []
    ensures |r| <= |s|
    ensures !Contains(s, pat) ==> r == s
    decreases |s|
  {
    if pat <= s then RemoveAll(s[|pat|..], pat)
    else if s == [] then []
    else [s[0]] + RemoveAll(s[1..], pat)
  }

  /** A string made of `pat` followed by text without `pat` loses exactly the
      leading `pat`. */
  lemma PrefixRemoved(pat: string, x: string)
    requires pat != [] && !Contains(x, pat)
    ensures RemoveAll(pat + x, pat) == x
  {
    assert (pat + x)[|pat|..] == x;
  }

  /** When `a` is not empty, an occurrence of `pat` at the front of `a + pat + b`
      would lie inside `a + pat[..|pat| - 1]`. */
  lemma NoEarlierMatch(a: string, pat: string, b: string)
    requires pat != [] && a != [] && !(pat <= a + pat[..|pat| - 1])
    ensures !(pat <= a + pat + b)
  {
    assert (a + pat + b)[..|pat|] == (a + pat[..|pat| - 1])[..|pat|];
  }

  /** `replace` keeps the text before the first occurrence of `pat`, drops that
      occurrence and goes on after it. With `RemoveAll`'s pass-through clause
      this determines the result on every input. */
  lemma {:induction false} RemoveAllFirst(a: string, pat: string, b: string)
    requires pat != [] && !Contains(a + pat[..|pat| - 1], pat)
    ensures RemoveAll(a + pat + b, pat) == a + RemoveAll(b, pat)
    decreases |a|, 1
  {
    if a == [] {
      assert a + pat + b == pat + b && (pat + b)[|pat|..] == b;
    } else {
      RemoveAllFirstStep(a, pat, b);
    }
  }

  lemma {:induction false} RemoveAllFirstStep(a: string, pat: string, b: string)
    requires pat != [] && a != [] && !Contains(a + pat[..|pat| - 1], pat)
    ensures RemoveAll(a + pat + b, pat) == a + RemoveAll(b, pat)
    decreases |a|, 0
  {
    NotContainedTail(a, pat);
    RemoveAllFirst(a[1..], pat, b);
    NoEarlierMatch(a, pat, b);
    RemoveAllSkip(a, pat, b);
    ConsAppend(a, RemoveAll(b, pat));
  }

  lemma ConsAppend(a: string, rest: string)
    requires a != []
    ensures [a[0]] + (a[1..] + rest) == a + rest
  {
    assert a == [a[0]] + a[1..];
  }

  lemma NotContainedTail(a: string, pat: string)
    requires pat != [] && a != [] && !Contains(a + pat[..|pat| - 1], pat)
    ensures !Contains(a[1..] + pat[..|pat| - 1], pat)
  {
    assert (a + pat[..|pat| - 1])[1..] == a[1..] + pat[..|pat| - 1];
  }

  lemma RemoveAllSkip(a: string, pat: string, b: string)
    requires pat != [] && a != [] && !(pat <= a + pat + b)
    ensures RemoveAll(a + pat + b, pat) == [a[0]] + RemoveAll(a[1..] + pat + b, pat)
  {
    assert (a + pat + b)[1..] == a[1..] + pat + b;
  }

  /** Python's `a <= b` on strings: lexicographic by code point. */
  predicate StrLe(a: string, b: string) {
    a == [] || (b != [] && (a[0] < b[0] || (a[0] == b[0] && StrLe(a[1..], b[1..]))))
  }

  lemma {:induction false} StrLeTotal(a: string, b: string)
    ensures StrLe(a, b) || StrLe(b, a)
  {
    if a != [] && b != [] && a[0] == b[0] {
      StrLeTotal(a[1..], b[1..]);
    }
  }

  lemma {:induction false} StrLeTransitive(a: string, b: string, c: string)
    requires StrLe(a, b) && StrLe(b, c)
    ensures StrLe(a, c)
  {
    if a != [] && a[0] == b[0] && b[0] == c[0] {
      StrLeTransitive(a[1..], b[1..], c[1..]);
    }
  }
}
