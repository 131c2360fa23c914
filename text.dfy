/**
 * The parts of .NET's string library that the core relies on, over `string` = `seq<char>`:
 * white space as `char.IsWhiteSpace` (and the regular-expression class `\s`) defines it,
 * ordinal case-insensitive comparison, ordinal substring search, `string.Replace`, and the
 * notion of one string being obtained from another by deleting characters.
 */
module Text {

  /** `char.IsWhiteSpace`: the Unicode separators and the controls U+0009..U+000D, U+0085. */
  predicate IsWhiteSpace(c: char)
  {
    || ('\U{0009}' <= c <= '\U{000D}')
    || c == ' '
    || c == '\U{0085}'
    || c == '\U{00A0}'
    || c == '\U{1680}'
    || ('\U{2000}' <= c <= '\U{200A}')
    || c == '\U{2028}'
    || c == '\U{2029}'
    || c == '\U{202F}'
    || c == '\U{205F}'
    || c == '\U{3000}'
  }

  /** `string.IsNullOrWhiteSpace` (a null string behaves like the empty one). */
  predicate IsBlank(s: string)
  {
    forall i :: 0 <= i < |s| ==> IsWhiteSpace(s[i])
  }

  predicate IsAsciiLetter(c: char)
  {
    'a' <= c <= 'z' || 'A' <= c <= 'Z'
  }

  predicate IsAsciiDigit(c: char)
  {
    '0' <= c <= '9'
  }

  /** Upper-casing of one character, for the ASCII letters. */
  function UpperChar(c: char): (r: char)
    ensures 'a' <= c <= 'z' ==> r as int == c as int - 32
    ensures !('a' <= c <= 'z') ==> r == c
  {
    if 'a' <= c <= 'z' then (c as int - 32) as char else c
  }

  /** The upper-casing behind `OrdinalIgnoreCase`, character by character. */
  function Upper(s: string): (r: string)
    ensures |r| == |s|
    ensures forall i :: 0 <= i < |s| ==> r[i] == UpperChar(s[i])
  {
    seq(|s|, i requires 0 <= i < |s| => UpperChar(s[i]))
  }

  /** `StringComparison.OrdinalIgnoreCase` equality. */
  predicate EqualsIgnoreCase(a: string, b: string)
  {
    Upper(a) == Upper(b)
  }

  /** `s.StartsWith(prefix, StringComparison.OrdinalIgnoreCase)`. */
  predicate StartsWithIgnoreCase(s: string, prefix: string)
  {
    |prefix| <= |s| && EqualsIgnoreCase(s[..|prefix|], prefix)
  }

  /** `p` occurs in `s` at index `i`. */
  predicate OccursAt(s: string, p: string, i: int)
  {
    0 <= i && i + |p| <= |s| && s[i..i + |p|] == p
  }

  /** Ordinal `s.Contains(p)`. */
  predicate Contains(s: string, p: string)
  {
    exists i | 0 <= i <= |s| - |p| :: OccursAt(s, p, i)
  }

  /** The number of times `c` occurs in `s`. */
  function Occurrences(s: string, c: char): nat
  {
    multiset(s)[c]
  }

  /**
   * `s.Replace(pat, rep)`: the occurrences of `pat` found scanning left to right, each
   * search resuming after the previous match, are replaced by `rep`.
   */
  function ReplaceAll(s: string, pat: string, rep: string): string
    requires pat != []
    decreases |s|
  {
    if |s| < |pat| then s
    else if s[..|pat|] == pat then rep + ReplaceAll(s[|pat|..], pat, rep)
    else [s[0]] + ReplaceAll(s[1..], pat, rep)
  }

  /** `a` is obtained from `b` by deleting characters. */
  predicate IsSubsequence(a: string, b: string)
    decreases |b|
  {
    if a == [] then true
    else if b == [] then false
    else if a[0] == b[0] then IsSubsequence(a[1..], b[1..])
    else IsSubsequence(a, b[1..])
  }

  lemma {:induction false} SubsequenceDropFirst(a: string, b: string)
    requires a != [] && IsSubsequence(a, b)
    ensures IsSubsequence(a[1..], b)
    decreases |b|, 0
  {
    assert [b[0]] + b[1..] == b;
    if a[0] != b[0] {
      SubsequenceDropFirst(a, b[1..]);
    }
    SubsequenceConsRight(a[1..], b[0], b[1..]);
  }

  lemma {:induction false} SubsequenceConsRight(a: string, x: char, b: string)
    requires IsSubsequence(a, b)
    ensures IsSubsequence(a, [x] + b)
    decreases |b|, 1
  {
    assert ([x] + b)[1..] == b;
    if a != [] && a[0] == x {
      SubsequenceDropFirst(a, b);
    }
  }

  lemma {:induction false} SubsequenceRefl(a: string)
    ensures IsSubsequence(a, a)
  {
    if a != [] {
      SubsequenceRefl(a[1..]);
    }
  }

  lemma {:induction false} SubsequenceAppendLeft(a: string, p: string, b: string)
    requires IsSubsequence(a, b)
    ensures IsSubsequence(a, p + b)
    decreases |p|
  {
    if p == [] {
      assert p + b == b;
    } else {
      SubsequenceAppendLeft(a, p[1..], b);
      SubsequenceConsRight(a, p[0], p[1..] + b);
      assert [p[0]] + (p[1..] + b) == p + b;
    }
  }

  /** Deleting characters twice is deleting characters. */
  lemma {:induction false} SubsequenceTransitive(a: string, b: string, c: string)
    requires IsSubsequence(a, b) && IsSubsequence(b, c)
    ensures IsSubsequence(a, c)
    decreases |c|
  {
    if a != [] {
      if b[0] == c[0] {
        if a[0] == b[0] {
          SubsequenceTransitive(a[1..], b[1..], c[1..]);
        } else {
          SubsequenceTransitive(a, b[1..], c[1..]);
        }
      } else {
        SubsequenceTransitive(a, b, c[1..]);
        if a[0] == c[0] {
          SubsequenceDropFirst(a, c[1..]);
        }
      }
    }
  }

  /** A character absent from a string is absent from every subsequence of it. */
  lemma {:induction false} SubsequenceKeepsAbsence(a: string, b: string, c: char)
    requires IsSubsequence(a, b) && c !in b
    ensures c !in a
    decreases |b|
  {
    if a != [] {
      if a[0] == b[0] {
        SubsequenceKeepsAbsence(a[1..], b[1..], c);
        assert a == [a[0]] + a[1..];
      } else {
        SubsequenceKeepsAbsence(a, b[1..], c);
      }
    }
  }

  /** Replacing by the empty string only deletes characters. */
  lemma {:induction false} RemoveAllIsSubsequence(s: string, pat: string)
    requires pat != []
    ensures IsSubsequence(ReplaceAll(s, pat, ""), s)
    decreases |s|
  {
    if |s| < |pat| {
      SubsequenceRefl(s);
    } else if s[..|pat|] == pat {
      RemoveAllIsSubsequence(s[|pat|..], pat);
      assert ReplaceAll(s, pat, "") == ReplaceAll(s[|pat|..], pat, "");
      SubsequenceAppendLeft(ReplaceAll(s[|pat|..], pat, ""), s[..|pat|], s[|pat|..]);
      assert s[..|pat|] + s[|pat|..] == s;
    } else {
      RemoveAllIsSubsequence(s[1..], pat);
      assert ([s[0]] + ReplaceAll(s[1..], pat, ""))[1..] == ReplaceAll(s[1..], pat, "");
    }
  }

  /** Removing a one-character pattern leaves no occurrence of that character. */
  lemma {:induction false} RemoveCharLeavesNone(s: string, c: char)
    ensures c !in ReplaceAll(s, [c], "")
    decreases |s|
  {
    if |s| >= 1 {
      RemoveCharLeavesNone(s[1..], c);
    }
  }

  /** Removal of a pattern that does not mention `c` keeps every `c`. */
  lemma {:induction false} RemoveKeepsOccurrences(s: string, pat: string, c: char)
    requires pat != [] && c !in pat
    ensures Occurrences(ReplaceAll(s, pat, ""), c) == Occurrences(s, c)
    decreases |s|
  {
    if |s| < |pat| {
    } else if s[..|pat|] == pat {
      RemoveKeepsOccurrences(s[|pat|..], pat, c);
      assert s == s[..|pat|] + s[|pat|..];
      assert multiset(s[..|pat|])[c] == 0;
    } else {
      RemoveKeepsOccurrences(s[1..], pat, c);
      assert s == [s[0]] + s[1..];
    }
  }

  /** Doubling a character doubles its count. */
  lemma {:induction false} DoubleCharCount(s: string, c: char)
    ensures Occurrences(ReplaceAll(s, [c], [c, c]), c) == 2 * Occurrences(s, c)
    decreases |s|
  {
    if |s| >= 1 {
      DoubleCharCount(s[1..], c);
      assert s == [s[0]] + s[1..];
    }
  }

  /** No two adjacent dashes. */
  predicate NoDoubleDash(s: string)
  {
    forall i :: 0 <= i < |s| - 1 ==> !(s[i] == '-' && s[i + 1] == '-')
  }

  lemma NoDoubleDashNotContained(s: string)
    requires NoDoubleDash(s)
    ensures !Contains(s, "--")
  {
    forall i | 0 <= i <= |s| - 2
      ensures !OccursAt(s, "--", i)
    {
      assert s[i..i + 2][0] == s[i] && s[i..i + 2][1] == s[i + 1];
    }
  }

  /** Removing "--" leaves no "--": each run of dashes shrinks to at most one dash. */
  lemma {:induction false} RemoveDoubleDashLeavesNone(s: string)
    ensures NoDoubleDash(ReplaceAll(s, "--", ""))
    ensures !Contains(ReplaceAll(s, "--", ""), "--")
    decreases |s|
  {
    var r := ReplaceAll(s, "--", "");
    if |s| < 2 {
    } else if s[..2] == "--" {
      RemoveDoubleDashLeavesNone(s[2..]);
    } else {
      RemoveDoubleDashLeavesNone(s[1..]);
      var t := ReplaceAll(s[1..], "--", "");
      assert r == [s[0]] + t;
      if s[0] == '-' && |t| > 0 {
        // s[1] is not a dash, and it heads the rest of the result
        assert s[1] != '-';
        if |s[1..]| >= 2 {
          assert s[1..][..2] != "--";
        }
        assert t[0] == s[1];
      }
    }
    NoDoubleDashNotContained(r);
  }

  /** A pattern that still occurs is removed, so the removal shortens the string. */
  lemma {:induction false} RemoveShortensWhenContained(s: string, pat: string)
    requires pat != [] && Contains(s, pat)
    ensures |ReplaceAll(s, pat, "")| < |s|
    decreases |s|
  {
    var i :| 0 <= i <= |s| - |pat| && OccursAt(s, pat, i);
    assert s[i..i + |pat|] == pat;
    RemoveNeverLengthens(s, pat);
    if |s| < |pat| {
    } else if s[..|pat|] == pat {
      RemoveNeverLengthens(s[|pat|..], pat);
    } else {
      assert i != 0 by {
        assert s[0..|pat|] == s[..|pat|];
      }
      assert OccursAt(s[1..], pat, i - 1) by {
        assert s[1..][i - 1..i - 1 + |pat|] == s[i..i + |pat|];
      }
      RemoveShortensWhenContained(s[1..], pat);
    }
  }

  lemma {:induction false} RemoveNeverLengthens(s: string, pat: string)
    requires pat != []
    ensures |ReplaceAll(s, pat, "")| <= |s|
    decreases |s|
  {
    if |s| < |pat| {
    } else if s[..|pat|] == pat {
      RemoveNeverLengthens(s[|pat|..], pat);
    } else {
      RemoveNeverLengthens(s[1..], pat);
    }
  }

  /** `s.IndexOf(c)`, with |s| standing for "not found". */
  function IndexOf(s: string, c: char): (i: nat)
    ensures i <= |s|
    ensures i < |s| ==> s[i] == c
    ensures forall k :: 0 <= k < i ==> s[k] != c
    ensures i == |s| <==> c !in s
  {
    if s == [] then 0
    else if s[0] == c then 0
    else
      var i := 1 + IndexOf(s[1..], c);
      assert forall k :: 1 <= k < |s| ==> s[k] == s[1..][k - 1];
      i
  }

  /** The first separator after a part free of it is where that part ends. */
  lemma {:induction false} IndexOfAfterPart(a: string, c: char, x: string)
    requires c !in a
    ensures IndexOf(a + [c] + x, c) == |a|
  {
    if a != [] {
      assert (a + [c] + x)[1..] == a[1..] + [c] + x;
      IndexOfAfterPart(a[1..], c, x);
    }
  }

  /** Joining two parts with a separator absent from the first part can be undone. */
  lemma SplitAtSeparator(a: string, c: char, x: string, b: string, y: string)
    requires c !in a && c !in b && a + [c] + x == b + [c] + y
    ensures a == b && x == y
  {
    IndexOfAfterPart(a, c, x);
    IndexOfAfterPart(b, c, y);
    var s := a + [c] + x;
    assert a == s[..|a|] && b == s[..|b|];
    assert x == s[|a| + 1..] && y == s[|b| + 1..];
  }

  /** Replacing a pattern that does not occur changes nothing. */
  lemma {:induction false} ReplaceAbsent(s: string, pat: string, rep: string)
    requires pat != [] && !Contains(s, pat)
    ensures ReplaceAll(s, pat, rep) == s
    decreases |s|
  {
    if |s| >= |pat| {
      assert !OccursAt(s, pat, 0);
      assert s[0..|pat|] == s[..|pat|];
      assert !Contains(s[1..], pat) by {
        forall i | 0 <= i <= |s[1..]| - |pat| ensures !OccursAt(s[1..], pat, i) {
          assert !OccursAt(s, pat, i + 1);
          assert s[1..][i..i + |pat|] == s[i + 1..i + 1 + |pat|];
        }
      }
      ReplaceAbsent(s[1..], pat, rep);
    }
  }

  /** `ToUpperInvariant` of one character as far as ASCII text is concerned: the one non-ASCII
   *  lower-case letter whose invariant upper case is ASCII (long s) included; dotless i keeps
   *  its own form under the invariant culture. */
  function UpperInvariantChar(c: char): (r: char)
    ensures 'a' <= c <= 'z' ==> r == UpperChar(c)
    ensures c as int < 128 ==> r == UpperChar(c)
    ensures c == '\U{017F}' ==> r == 'S'
    ensures c == '\U{0131}' ==> r == c
  {
    if c == '\U{017F}' then 'S'
    else UpperChar(c)
  }

  /** `ToUpperInvariant`, exact on every character whose upper case is ASCII. */
  function UpperInvariant(s: string): (r: string)
    ensures |r| == |s|
    ensures forall i :: 0 <= i < |s| ==> r[i] == UpperInvariantChar(s[i])
  {
    seq(|s|, i requires 0 <= i < |s| => UpperInvariantChar(s[i]))
  }
}
