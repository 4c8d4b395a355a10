/** The handful of Python `str` operations the scanner relies on, over `seq<char>`. */
module Text {

  /** The characters Python's `str.isspace` accepts, i.e. what a bare `str.strip()` removes. */
  predicate IsSpace(c: char)
  {
    || c == ' ' || c == '\t' || c == '\n' || c == '\r' || c == '\U{000B}' || c == '\U{000C}'
    || ('\U{001C}' <= c <= '\U{001F}')
    || c == '\U{0085}' || c == '\U{00A0}' || c == '\U{1680}'
    || ('\U{2000}' <= c <= '\U{200A}')
    || c == '\U{2028}' || c == '\U{2029}' || c == '\U{202F}' || c == '\U{205F}' || c == '\U{3000}'
  }

  predicate AllSpace(s: string)
  {
    forall k :: 0 <= k < |s| ==> IsSpace(s[k])
  }

  /** Length of the longest all-whitespace prefix of `s`. */
  function LeadingSpaces(s: string): (n: nat)
    ensures n <= |s|
  {
    if s == [] || !IsSpace(s[0]) then 0 else 1 + LeadingSpaces(s[1..])
  }

  lemma {:induction false} LeadingSpacesAreSpace(s: string)
    ensures AllSpace(s[..LeadingSpaces(s)])
    ensures LeadingSpaces(s) < |s| ==> !IsSpace(s[LeadingSpaces(s)])
  {
    if s != [] && IsSpace(s[0]) {
      LeadingSpacesAreSpace(s[1..]);
      assert forall k :: 1 <= k < LeadingSpaces(s) ==> s[..LeadingSpaces(s)][k] == s[1..][..LeadingSpaces(s[1..])][k - 1];
    }
  }

  /** Length of the longest all-whitespace suffix of `s`. */
  function TrailingSpaces(s: string): (n: nat)
    ensures n <= |s|
  {
    if s == [] || !IsSpace(s[|s| - 1]) then 0 else 1 + TrailingSpaces(s[..|s| - 1])
  }

  lemma {:induction false} TrailingSpacesAreSpace(s: string)
    ensures AllSpace(s[|s| - TrailingSpaces(s)..])
    ensures TrailingSpaces(s) < |s| ==> !IsSpace(s[|s| - TrailingSpaces(s) - 1])
  {
    if s != [] && IsSpace(s[|s| - 1]) {
      var init := s[..|s| - 1];
      TrailingSpacesAreSpace(init);
      assert forall k :: |s| - TrailingSpaces(s) <= k < |s| - 1 ==> s[k] == init[k];
    }
  }

  /** Python's `s.strip()`: `s` without its leading and trailing whitespace. */
  function Strip(s: string): string
  {
    var rest := s[LeadingSpaces(s)..];
    rest[..|rest| - TrailingSpaces(rest)]
  }

  /** What stripping keeps is the slice of `s` between the two whitespace runs. */
  lemma StripIsMiddleSlice(s: string)
    ensures LeadingSpaces(s) + |Strip(s)| + TrailingSpaces(s[LeadingSpaces(s)..]) == |s|
    ensures Strip(s) == s[LeadingSpaces(s)..LeadingSpaces(s) + |Strip(s)|]
  {
  }

  lemma StripDropsOnlySpace(s: string)
    ensures AllSpace(s[..LeadingSpaces(s)]) && AllSpace(s[LeadingSpaces(s) + |Strip(s)|..])
  {
    var rest := s[LeadingSpaces(s)..];
    StripIsMiddleSlice(s);
    LeadingSpacesAreSpace(s);
    TrailingSpacesAreSpace(rest);
    assert s[LeadingSpaces(s) + |Strip(s)|..] == rest[|rest| - TrailingSpaces(rest)..];
  }

  lemma StripEndsWithoutSpace(s: string)
    ensures Strip(s) != [] ==> !IsSpace(Strip(s)[0]) && !IsSpace(Strip(s)[|Strip(s)| - 1])
  {
    var i := LeadingSpaces(s);
    var rest := s[i..];
    var r := Strip(s);
    if r != [] {
      StripIsMiddleSlice(s);
      LeadingSpacesAreSpace(s);
      TrailingSpacesAreSpace(rest);
      assert r[0] == s[i];
      assert r[|r| - 1] == rest[|rest| - TrailingSpaces(rest) - 1];
    }
  }

  lemma StripEmptyIffAllSpace(s: string)
    ensures Strip(s) == [] <==> AllSpace(s)
  {
    var i := LeadingSpaces(s);
    StripIsMiddleSlice(s);
    StripDropsOnlySpace(s);
    LeadingSpacesAreSpace(s);
    if Strip(s) == [] {
      assert forall k :: 0 <= k < i ==> s[k] == s[..i][k];
    }
  }

  /** Stripping removes exactly the whitespace at both ends: what is left is a
      slice of `s` that neither starts nor ends with whitespace, everything
      around it is whitespace, and nothing is left exactly when `s` is all
      whitespace. */
  lemma StripRemovesOuterSpace(s: string)
    ensures LeadingSpaces(s) + |Strip(s)| <= |s|
    ensures Strip(s) == s[LeadingSpaces(s)..LeadingSpaces(s) + |Strip(s)|]
    ensures AllSpace(s[..LeadingSpaces(s)]) && AllSpace(s[LeadingSpaces(s) + |Strip(s)|..])
    ensures Strip(s) != [] ==> !IsSpace(Strip(s)[0]) && !IsSpace(Strip(s)[|Strip(s)| - 1])
    ensures Strip(s) == [] <==> AllSpace(s)
  {
    StripIsMiddleSlice(s);
    StripDropsOnlySpace(s);
    StripEndsWithoutSpace(s);
    StripEmptyIffAllSpace(s);
  }

  /** Python's `s.startswith(p)`. */
  predicate StartsWith(s: string, p: string)
  {
    |p| <= |s| && s[..|p|] == p
  }

  /** Python's `s.endswith(p)`. */
  predicate EndsWith(s: string, p: string)
  {
    |p| <= |s| && s[|s| - |p|..] == p
  }

  /** Python's `sub in s`. */
  predicate Contains(s: string, sub: string)
  {
    if StartsWith(s, sub) then true
    else if s == [] then false
    else Contains(s[1..], sub)
  }

  /** `sub in s` holds exactly when `sub` starts at some position of `s`. */
  lemma {:induction false} ContainsAt(s: string, sub: string)
    ensures Contains(s, sub) <==> exists k :: 0 <= k <= |s| && StartsWith(s[k..], sub)
  {
    if StartsWith(s, sub) {
      assert StartsWith(s[0..], sub);
    } else if s != [] {
      ContainsAt(s[1..], sub);
      assert forall k :: 1 <= k <= |s| ==> s[k..] == s[1..][k - 1..];
      assert forall k :: 0 <= k <= |s| - 1 ==> s[1..][k..] == s[k + 1..];
    }
  }

  /** Python's `s.replace(old, new)` for a non-empty `old`: every non-overlapping
      occurrence, scanning left to right, is replaced. */
  function ReplaceAll(s: string, needle: string, replacement: string): (r: string)
    requires needle != []
    ensures !Contains(s, needle) ==> r == s
    ensures |replacement| <= |needle| ==> |r| <= |s|
    decreases |s|
  {
    if |s| < |needle| then
      s
    else if s[..|needle|] == needle then
      replacement + ReplaceAll(s[|needle|..], needle, replacement)
    else
      [s[0]] + ReplaceAll(s[1..], needle, replacement)
  }

  /** Python's `s.split(c)` for a one-character separator. */
  function Split(s: string, c: char): (parts: seq<string>)
    ensures |parts| >= 1
    ensures forall k :: 0 <= k < |parts| ==> c !in parts[k]
    ensures Join(parts, c) == s
  {
    if s == [] then
      [[]]
    else if s[0] == c then
      [[]] + Split(s[1..], c)
    else
      var rest := Split(s[1..], c);
      JoinConsFirst(s[0], rest, c);
      [[s[0]] + rest[0]] + rest[1..]
  }

  /** Python's `c.join(parts)` for a one-character separator. */
  function Join(parts: seq<string>, c: char): string
  {
    if parts == [] then []
    else if |parts| == 1 then parts[0]
    else parts[0] + [c] + Join(parts[1..], c)
  }

  lemma JoinConsFirst(x: char, parts: seq<string>, c: char)
    requires |parts| >= 1
    ensures Join([[x] + parts[0]] + parts[1..], c) == [x] + Join(parts, c)
  {
    var q := [[x] + parts[0]] + parts[1..];
    assert q[1..] == parts[1..];
  }

  /** An occurrence in the tail is an occurrence in the whole. */
  lemma ContainsInTail(s: string, sub: string)
    requires s != [] && Contains(s[1..], sub)
    ensures Contains(s, sub)
  {
  }

  /** A string cannot contain a piece holding a character the string lacks. */
  lemma MissingCharNotContained(s: string, sub: string, c: char)
    requires c in sub && c !in s
    ensures !Contains(s, sub)
  {
    ContainsAt(s, sub);
  }

  /** A piece without the separator `c` found in `x + [c] + y` lies within `x` or within `y`. */
  lemma ContainsAcrossSeparator(x: string, c: char, y: string, sub: string)
    requires c !in sub
    requires Contains(x + [c] + y, sub)
    ensures Contains(x, sub) || Contains(y, sub)
  {
    var s := x + [c] + y;
    ContainsAt(s, sub);
    ContainsAt(x, sub);
    ContainsAt(y, sub);
    var k :| 0 <= k <= |s| && StartsWith(s[k..], sub);
    if k + |sub| <= |x| {
      assert x[k..][..|sub|] == s[k..][..|sub|];
      assert StartsWith(x[k..], sub);
    } else if k > |x| {
      assert y[k - |x| - 1..] == s[k..];
      assert StartsWith(y[k - |x| - 1..], sub);
    } else {
      CharOfOccurrence(s, k, sub, |x| - k);
      assert false;
    }
  }

  lemma CharOfOccurrence(s: string, k: int, sub: string, i: int)
    requires 0 <= k <= |s| && StartsWith(s[k..], sub) && 0 <= i < |sub|
    ensures k + i < |s| && s[k + i] == sub[i]
  {
    assert s[k..][i] == s[k + i];
  }

  /** A piece without the separator found in a join lies within one of the parts. */
  lemma {:induction false} JoinedContains(parts: seq<string>, c: char, sub: string)
    requires c !in sub && sub != []
    requires Contains(Join(parts, c), sub)
    ensures exists k :: 0 <= k < |parts| && Contains(parts[k], sub)
  {
    if |parts| == 1 {
      assert Contains(parts[0], sub);
    } else if |parts| > 1 {
      ContainsAcrossSeparator(parts[0], c, Join(parts[1..], c), sub);
      if !Contains(parts[0], sub) {
        JoinedContains(parts[1..], c, sub);
        var k :| 0 <= k < |parts[1..]| && Contains(parts[1..][k], sub);
        assert parts[k + 1] == parts[1..][k];
      }
    }
  }

  /** Splitting at a first separator. */
  lemma {:induction false} SplitAtFirst(a: string, c: char, b: string)
    requires c !in a
    ensures Split(a + [c] + b, c) == [a] + Split(b, c)
  {
    var s := a + [c] + b;
    if a == [] {
      assert s[0] == c && s[1..] == b;
    } else {
      assert s[0] == a[0] && s[1..] == a[1..] + [c] + b;
      assert c !in a[1..] by {
        assert forall x :: x in a[1..] ==> x in a;
      }
      SplitAtFirst(a[1..], c, b);
      assert [a[0]] + a[1..] == a;
    }
  }

  /** A string without the separator splits into itself alone. */
  lemma {:induction false} SplitWithoutSeparator(b: string, c: char)
    requires c !in b
    ensures Split(b, c) == [b]
  {
    if b != [] {
      assert c !in b[1..] by {
        assert forall x :: x in b[1..] ==> x in b;
      }
      SplitWithoutSeparator(b[1..], c);
      assert [b[0]] + b[1..] == b;
    }
  }

  /** Replacing a suffix `t` (whose first character `s` lacks) removes exactly it. */
  lemma {:induction false} ReplaceTrailing(s: string, t: string)
    requires t != [] && t[0] !in s
    ensures ReplaceAll(s + t, t, "") == s
  {
    var x := s + t;
    if s == [] {
      assert x == t && x[|t|..] == [];
    } else {
      assert x[0] == s[0] != t[0];
      assert x[..|t|] != t by {
        assert x[..|t|][0] == s[0];
      }
      assert x[1..] == s[1..] + t;
      assert t[0] !in s[1..] by {
        assert forall y :: y in s[1..] ==> y in s;
      }
      ReplaceTrailing(s[1..], t);
      assert [s[0]] + s[1..] == s;
    }
  }
}
