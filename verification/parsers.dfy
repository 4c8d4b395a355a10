/** Language dispatch by file suffix, and the JSDoc/TSDoc comment scans that
    decide whether a JavaScript or TypeScript function is documented. */
module Parsers {
  import opened Common
  import opened Text
  import opened Paths
  import opened Complexity
  import opened FileAnalysis

  /** The three parsers, each known by the suffixes it accepts. */
  datatype Language = Python | JavaScript | TypeScript {
    /** `supports_extension`: the exact, case-sensitive suffixes. */
    function Extensions(): seq<string>
    {
      match this
      case Python => [".py", ".pyi"]
      case JavaScript => [".js", ".jsx", ".mjs"]
      case TypeScript => [".ts", ".tsx"]
    }
  }

  /** `ParserFactory._parsers`, in registry order. */
  const Registry: seq<Language> := [Python, JavaScript, TypeScript]

  /** The first language of `registry` that accepts `ext`, if any. */
  function FirstSupporting(registry: seq<Language>, ext: string): (r: Option<Language>)
    ensures r.Some? ==> r.value in registry && ext in r.value.Extensions()
    ensures r.Some? ==> exists k :: 0 <= k < |registry| && registry[k] == r.value &&
                          forall j :: 0 <= j < k ==> ext !in registry[j].Extensions()
    ensures r.None? <==> forall l :: l in registry ==> ext !in l.Extensions()
  {
    if registry == [] then None
    else if ext in registry[0].Extensions() then Some(registry[0])
    else
      var r := FirstSupporting(registry[1..], ext);
      assert forall l :: l in registry ==> l == registry[0] || l in registry[1..];
      if r.Some? then
        var k :| 0 <= k < |registry[1..]| && registry[1..][k] == r.value &&
                  forall j :: 0 <= j < k ==> ext !in registry[1..][j].Extensions();
        assert registry[k + 1] == r.value;
        r
      else r
  }

  /** `ParserFactory.get_parser`: the parser for the path's suffix. A path is
      served by a language exactly when its suffix is one of that language's. */
  function GetParser(p: FsPath): (r: Option<Language>)
    ensures forall l :: r == Some(l) <==> Suffix(Name(p)) in l.Extensions()
    ensures r.None? <==> forall l: Language :: Suffix(Name(p)) !in l.Extensions()
  {
    var ext := Suffix(Name(p));
    var r := FirstSupporting(Registry, ext);
    ExtensionSetsAreDisjoint(ext);
    EveryLanguageIsRegistered(Registry);
    r
  }

  lemma EveryLanguageIsRegistered(registry: seq<Language>)
    requires registry == Registry
    ensures forall l: Language :: l in registry
  {
    forall l: Language ensures l in registry {
      match l
      case Python => assert registry[0] == l;
      case JavaScript => assert registry[1] == l;
      case TypeScript => assert registry[2] == l;
    }
  }

  /** No suffix belongs to two languages. */
  lemma ExtensionSetsAreDisjoint(ext: string)
    ensures forall l: Language, m: Language :: ext in l.Extensions() && ext in m.Extensions() ==> l == m
  {
  }

  /** Because the suffix sets are disjoint, any registry that lists every
      language, in any order, dispatches exactly as the built-in one. */
  lemma RegistryOrderIsIrrelevant(registry: seq<Language>, ext: string)
    requires forall l: Language :: l in registry
    ensures FirstSupporting(registry, ext) == FirstSupporting(Registry, ext)
  {
    ExtensionSetsAreDisjoint(ext);
    EveryLanguageIsRegistered(Registry);
  }

  /** The parser chosen for `stem.ext` in any directory is the one for ".ext". */
  lemma DispatchOnFileName(dirs: seq<string>, stem: string, ext: string)
    requires stem != [] && stem[0] != '.'
    requires ext != [] && '.' !in ext
    ensures GetParser(FsPath(dirs + [stem + "." + ext])) == FirstSupporting(Registry, "." + ext)
  {
    var file := stem + "." + ext;
    assert file[|stem|] == '.';
    NameOfFile(dirs, file);
    SuffixOfStemAndExtension(stem, ext);
  }

  /** Every known suffix ends in 'y', 'i', 's' or 'x'; a suffix ending in
      anything else belongs to no language. */
  lemma NotAnyLanguagesSuffix(ext: string)
    requires ext != [] && ext[|ext| - 1] !in "yisx"
    ensures forall l: Language :: ext !in l.Extensions()
  {
    forall l: Language ensures ext !in l.Extensions() {
      var es := l.Extensions();
      assert forall k :: 0 <= k < |es| ==> es[k][|es[k]| - 1] in "yisx";
    }
  }

  /** Neither Java sources nor upper-case Python suffixes have a parser. */
  lemma JavaHasNoParser(dirs: seq<string>, stem: string)
    requires stem != [] && stem[0] != '.'
    ensures GetParser(FsPath(dirs + [stem + "." + "java"])) == None
  {
    DispatchOnFileName(dirs, stem, "java");
    NotAnyLanguagesSuffix("." + "java");
  }

  lemma UpperCaseSuffixHasNoParser(dirs: seq<string>, stem: string)
    requires stem != [] && stem[0] != '.'
    ensures GetParser(FsPath(dirs + [stem + "." + "PY"])) == None
  {
    DispatchOnFileName(dirs, stem, "PY");
    NotAnyLanguagesSuffix("." + "PY");
  }

  // ---------------------------------------------------------------------------
  // Doc-comment scans

  // Some line at an index in `(lo, j]` contains the JSDoc opener "/**".
  predicate HasOpener(lines: seq<string>, j: int, lo: int)
    requires j < |lines| && 0 <= lo
    ensures HasOpener(lines, j, lo) <==> exists m :: lo < m <= j && Contains(lines[m], "/**")
    decreases j - lo
  {
    if j <= lo then false
    else Contains(lines[j], "/**") || HasOpener(lines, j - 1, lo)
  }

  // The backward scan shared by `_has_jsdoc` and `_has_documentation`, at
  // index `i` of the range that stops short of `stop`. Indices past the end
  // are skipped. A stripped line ending in "*/" decides: documented when a
  // line at most 19 above it (never index 0) contains "/**". With `tsdoc`,
  // a stripped line starting "///" documents at once. Blank lines and other
  // "//" or "*" lines are passed over; any other line ends the scan.
  predicate ScanBack(lines: seq<string>, i: int, stop: int, tsdoc: bool)
    requires 0 <= stop
    decreases i - stop
  {
    if i <= stop then false
    else if i >= |lines| then ScanBack(lines, i - 1, stop, tsdoc)
    else
      var line := Strip(lines[i]);
      if EndsWith(line, "*/") then HasOpener(lines, i, Max(0, i - 20))
      else if tsdoc && StartsWith(line, "///") then true
      else if line == [] then ScanBack(lines, i - 1, stop, tsdoc)
      else if !StartsWith(line, "//") && !StartsWith(line, "*") then false
      else ScanBack(lines, i - 1, stop, tsdoc)
  }

  /** `content.split("\n")`. */
  function Lines(content: string): (lines: seq<string>)
    ensures |lines| >= 1 && Join(lines, '\n') == content
  {
    Split(content, '\n')
  }

  /** `JavaScriptParser._has_jsdoc(content, line_number)`. */
  predicate HasJsdoc(content: string, lineNumber: int)
  {
    ScanBack(Lines(content), lineNumber - 2, Max(0, lineNumber - 10), false)
  }

  /** `TypeScriptParser._has_documentation(content, line_number)`. */
  predicate HasDocumentation(content: string, lineNumber: int)
  {
    ScanBack(Lines(content), lineNumber - 2, Max(0, lineNumber - 10), true)
  }

  /** A line that ends the scan, one way or the other. */
  predicate Decisive(line: string, tsdoc: bool)
  {
    var s := Strip(line);
    EndsWith(s, "*/") || (tsdoc && StartsWith(s, "///")) ||
    (s != [] && !StartsWith(s, "//") && !StartsWith(s, "*"))
  }

  /** Which lines are decisive, line by line. */
  function Decisions(lines: seq<string>, tsdoc: bool): (d: seq<bool>)
    ensures |d| == |lines|
  {
    if lines == [] then [] else [Decisive(lines[0], tsdoc)] + Decisions(lines[1..], tsdoc)
  }

  lemma {:induction false} DecisionAt(lines: seq<string>, tsdoc: bool, k: int)
    requires 0 <= k < |lines|
    ensures Decisions(lines, tsdoc)[k] == Decisive(lines[k], tsdoc)
  {
    if k > 0 {
      DecisionAt(lines[1..], tsdoc, k - 1);
    }
  }

  predicate DecidesAt(lines: seq<string>, i: int, tsdoc: bool)
  {
    0 <= i < |lines| && Decisions(lines, tsdoc)[i]
  }

  /** What a decisive line decides. */
  predicate Verdict(lines: seq<string>, i: int, tsdoc: bool)
    requires 0 <= i < |lines|
  {
    var s := Strip(lines[i]);
    if EndsWith(s, "*/") then
      exists m :: Max(0, i - 20) < m <= i && Contains(lines[m], "/**")
    else
      tsdoc && StartsWith(s, "///")
  }

  /** No line from `start` down to just above `i` is decisive. */
  predicate NoneDecisiveDownTo(lines: seq<string>, i: int, start: int, tsdoc: bool)
    decreases start - i
  {
    start <= i || (!DecidesAt(lines, start, tsdoc) && NoneDecisiveDownTo(lines, i, start - 1, tsdoc))
  }

  /** `i` is the first decisive line met going up from `start`, above `stop`. */
  predicate FirstDecisive(lines: seq<string>, i: int, start: int, stop: int, tsdoc: bool)
  {
    stop < i <= start && DecidesAt(lines, i, tsdoc) && NoneDecisiveDownTo(lines, i, start, tsdoc)
  }

  /** One step of the scan: a decisive line gives its verdict, any other line
      passes the scan on to the line above. */
  lemma ScanStep(lines: seq<string>, start: int, stop: int, tsdoc: bool)
    requires 0 <= stop < start
    ensures ScanBack(lines, start, stop, tsdoc) ==
      if DecidesAt(lines, start, tsdoc) then Verdict(lines, start, tsdoc) else ScanBack(lines, start - 1, stop, tsdoc)
  {
    if 0 <= start < |lines| {
      DecisionAt(lines, tsdoc, start);
    }
  }

  lemma FirstDecisiveAtStart(lines: seq<string>, i: int, start: int, stop: int, tsdoc: bool)
    requires stop < start && DecidesAt(lines, start, tsdoc)
    ensures FirstDecisive(lines, i, start, stop, tsdoc) <==> i == start
  {
  }

  lemma FirstDecisiveBelowStart(lines: seq<string>, i: int, start: int, stop: int, tsdoc: bool)
    requires stop < start && !DecidesAt(lines, start, tsdoc)
    ensures FirstDecisive(lines, i, start, stop, tsdoc) <==> FirstDecisive(lines, i, start - 1, stop, tsdoc)
  {
  }

  /** An empty range decides nothing and documents nothing. */
  lemma ScanOfEmptyRange(lines: seq<string>, start: int, stop: int, tsdoc: bool)
    requires 0 <= stop && start <= stop
    ensures !ScanBack(lines, start, stop, tsdoc)
    ensures forall i :: !FirstDecisive(lines, i, start, stop, tsdoc)
  {
  }

  /** A decisive line at `start` gives the scan's answer itself. */
  lemma ScanAtDecisiveLine(lines: seq<string>, start: int, stop: int, tsdoc: bool)
    requires 0 <= stop < start && DecidesAt(lines, start, tsdoc)
    ensures ScanBack(lines, start, stop, tsdoc) <==>
      exists i :: FirstDecisive(lines, i, start, stop, tsdoc) && Verdict(lines, i, tsdoc)
  {
    ScanStep(lines, start, stop, tsdoc);
    forall i ensures FirstDecisive(lines, i, start, stop, tsdoc) <==> i == start {
      FirstDecisiveAtStart(lines, i, start, stop, tsdoc);
    }
  }

  /** Past a line that decides nothing, the scan goes on as from the line above. */
  lemma ScanPastOtherLine(lines: seq<string>, start: int, stop: int, tsdoc: bool)
    requires 0 <= stop < start && !DecidesAt(lines, start, tsdoc)
    requires ScanBack(lines, start - 1, stop, tsdoc) <==>
      exists i :: FirstDecisive(lines, i, start - 1, stop, tsdoc) && Verdict(lines, i, tsdoc)
    ensures ScanBack(lines, start, stop, tsdoc) <==>
      exists i :: FirstDecisive(lines, i, start, stop, tsdoc) && Verdict(lines, i, tsdoc)
  {
    ScanStep(lines, start, stop, tsdoc);
    forall i ensures FirstDecisive(lines, i, start, stop, tsdoc) <==> FirstDecisive(lines, i, start - 1, stop, tsdoc) {
      FirstDecisiveBelowStart(lines, i, start, stop, tsdoc);
    }
  }

  /** The scan, stated without the loop: the result is the verdict of the
      first decisive line met going up from `start` to just above `stop`, and
      false when there is none. */
  lemma {:induction false} ScanFindsFirstDecisiveLine(lines: seq<string>, start: int, stop: int, tsdoc: bool)
    requires 0 <= stop
    ensures ScanBack(lines, start, stop, tsdoc) <==>
      exists i :: FirstDecisive(lines, i, start, stop, tsdoc) && Verdict(lines, i, tsdoc)
    decreases start - stop
  {
    if start <= stop {
      ScanOfEmptyRange(lines, start, stop, tsdoc);
    } else if DecidesAt(lines, start, tsdoc) {
      ScanAtDecisiveLine(lines, start, stop, tsdoc);
    } else {
      ScanFindsFirstDecisiveLine(lines, start - 1, stop, tsdoc);
      ScanPastOtherLine(lines, start, stop, tsdoc);
    }
  }

  /** Every TypeScript check accepts what the JavaScript check accepts: the
      TSDoc scan only adds a way to succeed. */
  lemma {:induction false} JsdocImpliesDocumentation(lines: seq<string>, start: int, stop: int)
    requires 0 <= stop
    ensures ScanBack(lines, start, stop, false) ==> ScanBack(lines, start, stop, true)
    decreases start - stop
  {
    if start > stop {
      JsdocImpliesDocumentation(lines, start - 1, stop);
    }
  }

  lemma HasJsdocImpliesHasDocumentation(content: string, lineNumber: int)
    ensures HasJsdoc(content, lineNumber) ==> HasDocumentation(content, lineNumber)
  {
    JsdocImpliesDocumentation(Lines(content), lineNumber - 2, Max(0, lineNumber - 10));
  }

  /** Functions on the first two lines are never documented: the range is empty. */
  lemma NoScanAboveLineTwo(content: string, lineNumber: int)
    requires lineNumber <= 2
    ensures !HasJsdoc(content, lineNumber) && !HasDocumentation(content, lineNumber)
  {
  }

  /** Two line lists that agree on the indices `1..start` (in which of them exist
      and in their text) scan alike: neither the first line of the file nor any
      line at or below the function is ever looked at. */
  lemma {:induction false} ScanReadsOnlyTheWindow(a: seq<string>, b: seq<string>, start: int, stop: int, tsdoc: bool)
    requires 0 <= stop
    requires forall k :: 0 < k <= start ==> LineAt(a, k) == LineAt(b, k)
    ensures ScanBack(a, start, stop, tsdoc) == ScanBack(b, start, stop, tsdoc)
    decreases start - stop
  {
    if start > stop {
      ScanReadsOnlyTheWindow(a, b, start - 1, stop, tsdoc);
      assert LineAt(a, start) == LineAt(b, start);
      if start < |a| {
        OpenerReadsOnlyTheWindow(a, b, start, Max(0, start - 20));
      }
    }
  }

  /** The line at index `k`, if the file has one. */
  function LineAt(lines: seq<string>, k: int): Option<string>
  {
    if 0 <= k < |lines| then Some(lines[k]) else None
  }

  lemma {:induction false} OpenerReadsOnlyTheWindow(a: seq<string>, b: seq<string>, j: int, lo: int)
    requires j < |a| && j < |b| && 0 <= lo
    requires forall k :: lo < k <= j ==> LineAt(a, k) == LineAt(b, k)
    ensures HasOpener(a, j, lo) == HasOpener(b, j, lo)
    decreases j - lo
  {
    if j > lo {
      assert LineAt(a, j) == LineAt(b, j);
      OpenerReadsOnlyTheWindow(a, b, j - 1, lo);
    }
  }

  // A documented function has its closing "*/" (or, for TypeScript, a "///"
  // line) at most eight lines above it, past any blank or "//" and "*" lines.
  lemma DocumentedMeansCommentWithinEightLines(content: string, lineNumber: int, tsdoc: bool)
    requires ScanBack(Lines(content), lineNumber - 2, Max(0, lineNumber - 10), tsdoc)
    ensures exists i :: lineNumber - 10 < i <= lineNumber - 2 && 0 < i < |Lines(content)| &&
                        (EndsWith(Strip(Lines(content)[i]), "*/") || (tsdoc && StartsWith(Strip(Lines(content)[i]), "///")))
  {
    ScanFindsFirstDecisiveLine(Lines(content), lineNumber - 2, Max(0, lineNumber - 10), tsdoc);
  }

  // A one-line "/** ... */" comment right above the function documents it.
  lemma CommentBlockRightAboveDocuments(lines: seq<string>, lineNumber: int, tsdoc: bool)
    requires 3 <= lineNumber <= |lines| + 1
    requires EndsWith(Strip(lines[lineNumber - 2]), "*/") && Contains(lines[lineNumber - 2], "/**")
    ensures ScanBack(lines, lineNumber - 2, Max(0, lineNumber - 10), tsdoc)
  {
  }

  /** A line of code right above the function, such as a previous statement,
      means no documentation, whatever lies further up. */
  lemma CodeRightAboveMeansUndocumented(lines: seq<string>, lineNumber: int, tsdoc: bool)
    requires 3 <= lineNumber <= |lines| + 1
    requires Strip(lines[lineNumber - 2]) != []
    requires !EndsWith(Strip(lines[lineNumber - 2]), "*/")
    requires !StartsWith(Strip(lines[lineNumber - 2]), "//") && !StartsWith(Strip(lines[lineNumber - 2]), "*")
    ensures !ScanBack(lines, lineNumber - 2, Max(0, lineNumber - 10), tsdoc)
  {
    TripleSlashIsACommentLine(Strip(lines[lineNumber - 2]));
  }

  lemma TripleSlashIsACommentLine(s: string)
    ensures StartsWith(s, "///") ==> StartsWith(s, "//")
  {
    if StartsWith(s, "///") {
      assert s[..2] == s[..3][..2];
    }
  }

  // ---------------------------------------------------------------------------
  // Parsing a file

  /** One function as lizard reports it. Its cyclomatic number is lizard's own
      computation, taken as given. */
  datatype LizardFunction = LizardFunction(name: string, startLine: int, cyclomatic: int)

  /** What the parsers can learn about a file: its Python syntax tree, lizard's
      function list (None when lizard raised) and its text (None when reading
      it raised). */
  datatype SourceFile = SourceFile(tree: Parsed, lizard: Option<seq<LizardFunction>>, text: Option<string>)

  /** Whether a JavaScript (`tsdoc` false) or TypeScript function starting at
      `line` of `text` is documented. */
  predicate DocumentedAt(text: string, line: int, tsdoc: bool)
  {
    if tsdoc then HasDocumentation(text, line) else HasJsdoc(text, line)
  }

  function FromLizard(fns: seq<LizardFunction>, text: string, tsdoc: bool): (r: seq<ComplexityResult>)
    ensures |r| == |fns|
    ensures forall k :: 0 <= k < |fns| ==>
      r[k] == ComplexityResult(fns[k].name, fns[k].startLine, fns[k].cyclomatic,
                               DocumentedAt(text, fns[k].startLine, tsdoc))
  {
    if fns == [] then []
    else
      [ComplexityResult(fns[0].name, fns[0].startLine, fns[0].cyclomatic, DocumentedAt(text, fns[0].startLine, tsdoc))]
      + FromLizard(fns[1..], text, tsdoc)
  }

  /** `parse_file` of each parser. The Python parser is `analyze_file`. The
      JavaScript and TypeScript parsers report one result per lizard function,
      in lizard's order, and nothing at all when lizard or the read fails. */
  function ParseFile(lang: Language, file: SourceFile): (r: seq<ComplexityResult>)
    ensures lang.Python? && file.tree.SyntaxError? ==> r == []
    ensures !lang.Python? && (file.lizard.None? || file.text.None?) ==> r == []
    ensures !lang.Python? && file.lizard.Some? && file.text.Some? ==>
      |r| == |file.lizard.value| &&
      forall k :: 0 <= k < |r| ==>
        var f := file.lizard.value[k];
        r[k].name == f.name && r[k].line == f.startLine && r[k].complexity == f.cyclomatic &&
        (r[k].hasDocstring <==> DocumentedAt(file.text.value, f.startLine, lang.TypeScript?))
  {
    match lang
    case Python => AnalyzeFile(file.tree)
    case JavaScript | TypeScript =>
      if file.lizard.None? || file.text.None? then []
      else FromLizard(file.lizard.value, file.text.value, lang.TypeScript?)
  }

  /** The same file reads as at least as well documented to the TypeScript
      parser as to the JavaScript parser. */
  lemma TypeScriptSeesEveryJsdoc(file: SourceFile, k: int)
    requires file.lizard.Some? && file.text.Some? && 0 <= k < |file.lizard.value|
    ensures ParseFile(JavaScript, file)[k].hasDocstring ==> ParseFile(TypeScript, file)[k].hasDocstring
  {
    HasJsdocImpliesHasDocumentation(file.text.value, file.lizard.value[k].startLine);
  }
}
