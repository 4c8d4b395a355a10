/** POSIX `pathlib` paths and `fnmatch` patterns, as the scanner uses them. */
module Paths {
  import opened Common
  import opened Text

  /** A path as `pathlib` normalises it: its components in order. An absolute
      path has the root "/" as its first component, as `Path.parts` reports it. */
  datatype FsPath = FsPath(parts: seq<string>)

  predicate IsAbsolute(p: FsPath)
  {
    |p.parts| > 0 && p.parts[0] == "/"
  }

  /** `str(path)`. */
  function Str(p: FsPath): string
  {
    if p.parts == [] then "."
    else if IsAbsolute(p) then "/" + Join(p.parts[1..], '/')
    else Join(p.parts, '/')
  }

  /** `path.name`: the final component, or "" for the root or the empty path. */
  function Name(p: FsPath): (r: string)
    ensures r != "" ==> p.parts != [] && r == p.parts[|p.parts| - 1]
    ensures p.parts != [] && !(|p.parts| == 1 && IsAbsolute(p)) ==> r == p.parts[|p.parts| - 1]
  {
    if p.parts == [] || (|p.parts| == 1 && IsAbsolute(p)) then "" else p.parts[|p.parts| - 1]
  }

  /** `s.rfind(c)`: the index of the last `c` in `s`, or -1. */
  function RFind(s: string, c: char): (i: int)
    ensures -1 <= i < |s|
    ensures i >= 0 ==> s[i] == c
    ensures forall k :: i < k < |s| ==> s[k] != c
  {
    if s == [] then -1
    else if s[|s| - 1] == c then |s| - 1
    else RFind(s[..|s| - 1], c)
  }

  /** `PurePath.suffix` of a final component: from its last dot, provided the dot
      is neither the first nor the last character; otherwise "". */
  function Suffix(name: string): (r: string)
    ensures r != "" ==> |r| >= 2 && r[0] == '.' && '.' !in r[1..]
    ensures r != "" ==> |r| < |name| && EndsWith(name, r)
  {
    var i := RFind(name, '.');
    if 0 < i < |name| - 1 then name[i..] else ""
  }

  /** A stem that does not start with a dot, then one extension, has exactly that suffix. */
  lemma SuffixOfStemAndExtension(stem: string, ext: string)
    requires stem != [] && stem[0] != '.'
    requires ext != [] && '.' !in ext
    ensures Suffix(stem + "." + ext) == "." + ext
  {
    var name := stem + "." + ext;
    var i := RFind(name, '.');
    assert name[|stem|] == '.';
    assert forall k :: |stem| < k < |name| ==> name[k] == ext[k - |stem| - 1];
    assert i == |stem|;
    assert name[i..] == "." + ext;
  }

  /** `fnmatch.fnmatch` on POSIX, where it is case-sensitive: `*` matches any run of
      characters (including '/'), `?` any one character, anything else itself. */
  predicate FnMatch(name: string, pattern: string)
    decreases |pattern| + |name|
  {
    if pattern == [] then name == []
    else if pattern[0] == '*' then
      FnMatch(name, pattern[1..]) || (name != [] && FnMatch(name[1..], pattern))
    else if pattern[0] == '?' then
      name != [] && FnMatch(name[1..], pattern[1..])
    else
      name != [] && name[0] == pattern[0] && FnMatch(name[1..], pattern[1..])
  }

  predicate IsLiteral(pattern: string)
  {
    '*' !in pattern && '?' !in pattern
  }

  /** A pattern without wildcards matches exactly itself. */
  lemma {:induction false} LiteralPatternMatchesItself(name: string, pattern: string)
    requires IsLiteral(pattern)
    ensures FnMatch(name, pattern) <==> name == pattern
    decreases |pattern|
  {
    if pattern != [] {
      assert IsLiteral(pattern[1..]) by {
        assert forall c :: c in pattern[1..] ==> c in pattern;
      }
      if name != [] {
        LiteralPatternMatchesItself(name[1..], pattern[1..]);
        assert name == pattern <==> name[0] == pattern[0] && name[1..] == pattern[1..];
      }
    }
  }

  /** A leading `*` followed by a literal tail matches exactly the names ending in that tail. */
  lemma {:induction false} StarLiteralMatchesSuffix(name: string, tail: string)
    requires IsLiteral(tail)
    ensures FnMatch(name, "*" + tail) <==> EndsWith(name, tail)
    decreases |name|
  {
    var pattern := "*" + tail;
    assert pattern[1..] == tail;
    LiteralPatternMatchesItself(name, tail);
    if name != [] {
      StarLiteralMatchesSuffix(name[1..], tail);
      assert EndsWith(name, tail) <==> name == tail || EndsWith(name[1..], tail) by {
        if |tail| <= |name| - 1 {
          assert name[|name| - |tail|..] == name[1..][|name[1..]| - |tail|..];
        }
      }
    } else {
      assert EndsWith(name, tail) <==> name == tail;
    }
  }

  /** The components of a pattern, as `pathlib` splits it: empty and "." components dropped. */
  function PatternParts(pattern: string): (parts: seq<string>)
    ensures forall k :: 0 <= k < |parts| ==> parts[k] != "" && parts[k] != "." && '/' !in parts[k]
  {
    KeepComponents(Split(pattern, '/'))
  }

  function KeepComponents(pieces: seq<string>): (parts: seq<string>)
    requires forall k :: 0 <= k < |pieces| ==> '/' !in pieces[k]
    ensures forall k :: 0 <= k < |parts| ==> parts[k] != "" && parts[k] != "." && '/' !in parts[k]
    ensures |parts| <= |pieces|
  {
    if pieces == [] then []
    else if pieces[0] == "" || pieces[0] == "." then KeepComponents(pieces[1..])
    else [pieces[0]] + KeepComponents(pieces[1..])
  }

  /** A pattern `pathlib` refuses with "empty pattern". */
  predicate IsEmptyPattern(pattern: string)
  {
    !StartsWith(pattern, "/") && PatternParts(pattern) == []
  }

  /** The last `|pats|` components of `parts` each match the pattern component at the same place. */
  predicate MatchFromRight(parts: seq<string>, pats: seq<string>)
    requires |pats| <= |parts|
    ensures MatchFromRight(parts, pats) <==>
      forall k :: 0 <= k < |pats| ==> FnMatch(parts[|parts| - |pats| + k], pats[k])
  {
    if pats == [] then true
    else
      var r := MatchFromRight(parts[..|parts| - 1], pats[..|pats| - 1]);
      FnMatch(parts[|parts| - 1], pats[|pats| - 1]) && r
  }

  /** `path.match(pattern)`: right-anchored, component-wise matching, where `**`
      is an ordinary wildcard component. An absolute pattern must cover the whole
      path; an empty pattern raises. */
  function PathMatch(p: FsPath, pattern: string): (r: Result<bool>)
    ensures r.Err? <==> IsEmptyPattern(pattern)
    ensures r == Ok(true) ==> |PatternParts(pattern)| <= |p.parts|
    ensures r == Ok(true) && PatternParts(pattern) != [] ==>
      FnMatch(p.parts[|p.parts| - 1], PatternParts(pattern)[|PatternParts(pattern)| - 1])
  {
    var pats := PatternParts(pattern);
    if StartsWith(pattern, "/") then
      Ok(IsAbsolute(p) && |pats| + 1 == |p.parts| && MatchFromRight(p.parts, pats))
    else if pats == [] then
      Err("empty pattern")
    else
      Ok(|pats| <= |p.parts| && MatchFromRight(p.parts, pats))
  }

  /** The final component of a path that ends in a file name is that name. */
  lemma NameOfFile(dirs: seq<string>, file: string)
    requires file != "/"
    ensures Name(FsPath(dirs + [file])) == file
  {
    var p := FsPath(dirs + [file]);
    assert p.parts[|p.parts| - 1] == file;
    assert |p.parts| == 1 ==> p.parts[0] == file;
  }

  /** A literal head, a star and a literal tail match any name made of that head,
      anything, and that tail. */
  lemma HeadStarTailMatches(head: string, middle: string, tail: string)
    requires IsLiteral(head) && IsLiteral(tail)
    ensures FnMatch(head + middle + tail, head + ("*" + tail))
  {
    var name := head + middle + tail;
    LiteralPrefixMatch(name, head, "*" + tail);
    assert name[..|head|] == head && name[|head|..] == middle + tail;
    StarLiteralMatchesSuffix(middle + tail, tail);
    assert (middle + tail)[|middle|..] == tail;
  }

  /** A literal head of a pattern must be matched character for character. */
  lemma {:induction false} LiteralPrefixMatch(name: string, lit: string, pattern: string)
    requires IsLiteral(lit)
    ensures FnMatch(name, lit + pattern) <==> StartsWith(name, lit) && FnMatch(name[|lit|..], pattern)
    decreases |lit|
  {
    if lit == [] {
      assert lit + pattern == pattern && name[0..] == name;
    } else {
      var whole := lit + pattern;
      assert whole[0] == lit[0] && whole[1..] == lit[1..] + pattern;
      assert IsLiteral(lit[1..]) by {
        assert forall c :: c in lit[1..] ==> c in lit;
      }
      if name != [] {
        LiteralPrefixMatch(name[1..], lit[1..], pattern);
        if |lit| <= |name| {
          assert name[1..][|lit| - 1..] == name[|lit|..];
        }
        assert StartsWith(name, lit) <==> name[0] == lit[0] && StartsWith(name[1..], lit[1..]) by {
          if |lit| <= |name| {
            assert name[..|lit|] == [name[0]] + name[1..][..|lit| - 1];
            assert lit == [lit[0]] + lit[1..];
          }
        }
      }
    }
  }

  /** Whatever a pattern matches contains each of the pattern's literal runs. */
  lemma {:induction false} LiteralRunOccurs(name: string, pre: string, lit: string, post: string)
    requires IsLiteral(lit)
    requires FnMatch(name, pre + lit + post)
    ensures Contains(name, lit)
    decreases |name| + |pre|
  {
    var pattern := pre + lit + post;
    if pre == [] {
      assert pattern == lit + post;
      LiteralPrefixMatch(name, lit, post);
      assert name[0..] == name;
    } else {
      assert pattern[0] == pre[0] && pattern[1..] == pre[1..] + lit + post;
      if pre[0] == '*' && FnMatch(name, pattern[1..]) {
        LiteralRunOccurs(name, pre[1..], lit, post);
      } else if pre[0] == '*' {
        LiteralRunOccurs(name[1..], pre, lit, post);
        ContainsInTail(name, lit);
      } else {
        LiteralRunOccurs(name[1..], pre[1..], lit, post);
        ContainsInTail(name, lit);
      }
    }
  }

  /** A piece without '/' found in `str(path)` lies within one of its components. */
  lemma PathStringContains(p: FsPath, sub: string)
    requires '/' !in sub && |sub| >= 2
    requires Contains(Str(p), sub)
    ensures exists k :: 0 <= k < |p.parts| && Contains(p.parts[k], sub)
  {
    if p.parts != [] && IsAbsolute(p) {
      var rest := Join(p.parts[1..], '/');
      assert Str(p) == [] + ['/'] + rest;
      ContainsAcrossSeparator([], '/', rest, sub);
      JoinedContains(p.parts[1..], '/', sub);
      var k :| 0 <= k < |p.parts[1..]| && Contains(p.parts[1..][k], sub);
      assert p.parts[k + 1] == p.parts[1..][k];
    } else if p.parts != [] {
      JoinedContains(p.parts, '/', sub);
    }
  }

  /** A piece without '/' that no component contains is not in `str(path)` either. */
  lemma PathStringLacks(p: FsPath, sub: string)
    requires '/' !in sub && |sub| >= 2
    requires forall k :: 0 <= k < |p.parts| ==> !Contains(p.parts[k], sub)
    ensures !Contains(Str(p), sub)
  {
    if Contains(Str(p), sub) {
      PathStringContains(p, sub);
    }
  }

  /** "**" + "/" + lit has the components "**" and lit. */
  lemma PatternPartsAfterGlobstar(lit: string)
    requires '/' !in lit && lit != "" && lit != "."
    ensures PatternParts("**/" + lit) == ["**", lit]
  {
    assert "**/" + lit == "**" + ['/'] + lit;
    SplitAtFirst("**", '/', lit);
    SplitWithoutSeparator(lit, '/');
    assert Split("**/" + lit, '/') == ["**", lit];
    assert ["**", lit][1..] == [lit] && [lit][1..] == [];
    assert KeepComponents([lit]) == [lit] + KeepComponents([]);
    assert KeepComponents(["**", lit]) == ["**"] + KeepComponents([lit]);
  }

  /** "**" + "/" + lit + "/" + "**" has the components "**", lit and "**". */
  lemma PatternPartsBetweenGlobstars(lit: string)
    requires '/' !in lit && lit != "" && lit != "."
    ensures PatternParts("**/" + lit + "/**") == ["**", lit, "**"]
  {
    assert "**/" + lit + "/**" == "**" + ['/'] + (lit + ['/'] + "**");
    SplitAtFirst("**", '/', lit + ['/'] + "**");
    SplitAtFirst(lit, '/', "**");
    SplitWithoutSeparator("**", '/');
    assert Split("**/" + lit + "/**", '/') == ["**", lit, "**"];
    assert ["**", lit, "**"][1..] == [lit, "**"] && [lit, "**"][1..] == ["**"] && ["**"][1..] == [];
    assert KeepComponents(["**"]) == ["**"] + KeepComponents([]);
    assert KeepComponents([lit, "**"]) == [lit] + KeepComponents(["**"]);
    assert KeepComponents(["**", lit, "**"]) == ["**"] + KeepComponents([lit, "**"]);
  }
}
