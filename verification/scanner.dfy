/** `core/scanner.py`: per-file results, whole-scan aggregation, the ignore
    rules and the two file-selection pipelines. */
module Scanner {
  import opened Common
  import opened Text
  import opened Paths
  import opened Complexity
  import opened Parsers
  import opened Settings

  // ---------------------------------------------------------------------------
  // Per-file results

  /** `FileResult`. Nothing in the record itself ties `violations` to
      `functions`; `scan_file` is what establishes `Consistent`. */
  datatype FileResult = FileResult(path: string, functions: seq<ComplexityResult>, violations: seq<ComplexityResult>)
  {
    function TotalFunctions(): nat
    {
      |functions|
    }

    function DocumentedFunctions(): nat
    {
      CountDocumented(functions)
    }

    /** The documented share of the file's functions; a file without functions
        counts as fully covered. */
    function Coverage(): (r: real)
      ensures 0.0 <= r <= 1.0
      ensures r == 1.0 <==> forall k :: 0 <= k < |functions| ==> functions[k].hasDocstring
      ensures functions != [] ==> r * (|functions| as real) == DocumentedFunctions() as real
    {
      CountDocumentedExtremes(functions);
      Ratio(DocumentedFunctions(), TotalFunctions())
    }
  }

  /** The number of documented functions. */
  function CountDocumented(fs: seq<ComplexityResult>): (n: nat)
    ensures n <= |fs|
  {
    if fs == [] then 0 else (if fs[0].hasDocstring then 1 else 0) + CountDocumented(fs[1..])
  }

  /** Every function is documented exactly when the count is the total, and
      none is exactly when it is zero. */
  lemma {:induction false} CountDocumentedExtremes(fs: seq<ComplexityResult>)
    ensures CountDocumented(fs) == |fs| <==> forall k :: 0 <= k < |fs| ==> fs[k].hasDocstring
    ensures CountDocumented(fs) == 0 <==> forall k :: 0 <= k < |fs| ==> !fs[k].hasDocstring
  {
    if fs != [] {
      CountDocumentedExtremes(fs[1..]);
      assert forall k :: 1 <= k < |fs| ==> fs[k] == fs[1..][k - 1];
    }
  }

  lemma {:induction false} CountDocumentedAppend(a: seq<ComplexityResult>, b: seq<ComplexityResult>)
    ensures CountDocumented(a + b) == CountDocumented(a) + CountDocumented(b)
  {
    if a == [] {
      assert a + b == b;
    } else {
      assert (a + b)[0] == a[0];
      assert (a + b)[1..] == a[1..] + b;
      CountDocumentedAppend(a[1..], b);
    }
  }

  /** `r` is the share `part` has of `whole`: between 0 and 1, exactly 1 when
      the part is the whole, and `part / whole` whenever `whole` is positive. */
  predicate IsShare(r: real, part: nat, whole: nat)
  {
    0.0 <= r <= 1.0 &&
    (r == 1.0 <==> part == whole) &&
    (whole > 0 ==> r * (whole as real) == part as real)
  }

  /** `part / whole`, or 1.0 when `whole` is 0. */
  function Ratio(part: nat, whole: nat): (r: real)
    requires part <= whole
    ensures IsShare(r, part, whole)
  {
    if whole == 0 then 1.0
    else
      var p, w := part as real, whole as real;
      var r := p / w;
      assert r * w == p;
      assert r <= 1.0;
      assert r == 1.0 ==> p == w;
      r
  }

  // ---------------------------------------------------------------------------
  // Violations

  /** A function that needs documentation: strictly above the threshold and
      without a docstring. */
  predicate IsViolation(f: ComplexityResult, threshold: int)
  {
    f.complexity > threshold && !f.hasDocstring
  }

  /** `a` is `b` with some elements left out, the rest in their original order. */
  predicate IsSubsequence<T(==)>(a: seq<T>, b: seq<T>)
  {
    if a == [] then true
    else if b == [] then false
    else (a[0] == b[0] && IsSubsequence(a[1..], b[1..])) || IsSubsequence(a, b[1..])
  }

  /** The violation filter of `scan_file`: exactly the violating functions,
      in their original order. */
  function Violations(fs: seq<ComplexityResult>, threshold: int): (vs: seq<ComplexityResult>)
    ensures IsSubsequence(vs, fs)
    ensures forall k :: 0 <= k < |vs| ==> IsViolation(vs[k], threshold)
    ensures forall f :: f in vs <==> f in fs && IsViolation(f, threshold)
  {
    if fs == [] then []
    else
      var rest := Violations(fs[1..], threshold);
      assert forall f :: f in fs <==> f == fs[0] || f in fs[1..];
      if IsViolation(fs[0], threshold) then
        assert ([fs[0]] + rest)[1..] == rest;
        [fs[0]] + rest
      else
        SubsequenceOfTail(rest, fs);
        rest
  }

  lemma SubsequenceOfTail<T>(a: seq<T>, b: seq<T>)
    requires b != [] && IsSubsequence(a, b[1..])
    ensures IsSubsequence(a, b)
  {
  }

  /** A function exactly at the threshold is not a violation. */
  lemma AtThresholdIsNoViolation(f: ComplexityResult, threshold: int)
    requires f.complexity == threshold
    ensures !IsViolation(f, threshold)
    ensures f !in Violations([f], threshold)
  {
  }

  /** Raising the threshold can only drop violations, never add them. */
  lemma {:induction false} HigherThresholdFewerViolations(fs: seq<ComplexityResult>, low: int, high: int)
    requires low <= high
    ensures IsSubsequence(Violations(fs, high), Violations(fs, low))
  {
    if fs != [] {
      HigherThresholdFewerViolations(fs[1..], low, high);
      var h, l := Violations(fs[1..], high), Violations(fs[1..], low);
      if IsViolation(fs[0], high) {
        assert Violations(fs, high) == [fs[0]] + h && Violations(fs, low) == [fs[0]] + l;
        assert ([fs[0]] + h)[1..] == h && ([fs[0]] + l)[1..] == l;
      } else if IsViolation(fs[0], low) {
        assert Violations(fs, low) == [fs[0]] + l;
        assert ([fs[0]] + l)[1..] == l;
        SubsequenceOfTail(h, [fs[0]] + l);
      }
    }
  }

  /** Filtering twice is filtering once. */
  lemma {:induction false} ViolationsIdempotent(fs: seq<ComplexityResult>, threshold: int)
    ensures Violations(Violations(fs, threshold), threshold) == Violations(fs, threshold)
  {
    if fs != [] {
      ViolationsIdempotent(fs[1..], threshold);
      var rest := Violations(fs[1..], threshold);
      if IsViolation(fs[0], threshold) {
        assert ([fs[0]] + rest)[0] == fs[0] && ([fs[0]] + rest)[1..] == rest;
      }
    }
  }

  /** The relation `scan_file` establishes between a file's functions and its
      violations. */
  predicate Consistent(fr: FileResult, threshold: int)
  {
    fr.violations == Violations(fr.functions, threshold)
  }

  // ---------------------------------------------------------------------------
  // Whole-scan aggregation

  function SumTotal(files: seq<FileResult>): nat
  {
    if files == [] then 0 else files[0].TotalFunctions() + SumTotal(files[1..])
  }

  function SumDocumented(files: seq<FileResult>): (n: nat)
    ensures n <= SumTotal(files)
  {
    if files == [] then 0 else files[0].DocumentedFunctions() + SumDocumented(files[1..])
  }

  /** `ScanResults.get_total_violations`. */
  function TotalViolations(files: seq<FileResult>): nat
  {
    if files == [] then 0 else |files[0].violations| + TotalViolations(files[1..])
  }

  /** `ScanResults.has_violations`: some file has a violation. */
  predicate HasViolations(files: seq<FileResult>)
  {
    exists k :: 0 <= k < |files| && files[k].violations != []
  }

  /** `ScanResults.get_coverage`: documented over total across all files, and
      1.0 when there are no functions at all. */
  function ScanCoverage(files: seq<FileResult>): (r: real)
    ensures IsShare(r, SumDocumented(files), SumTotal(files))
  {
    Ratio(SumDocumented(files), SumTotal(files))
  }

  /** Some file has violations exactly when the violation total is positive. */
  lemma {:induction false} HasViolationsIffTotalPositive(files: seq<FileResult>)
    ensures HasViolations(files) <==> TotalViolations(files) > 0
  {
    if files != [] {
      HasViolationsIffTotalPositive(files[1..]);
      assert HasViolations(files) <==> files[0].violations != [] || HasViolations(files[1..]) by {
        if HasViolations(files[1..]) {
          var k :| 0 <= k < |files[1..]| && files[1..][k].violations != [];
          assert files[k + 1].violations != [];
        }
        if HasViolations(files) {
          var k :| 0 <= k < |files| && files[k].violations != [];
          if k > 0 {
            assert files[1..][k - 1].violations != [];
          }
        }
      }
    }
  }

  /** An empty scan has no violations and full coverage. */
  lemma EmptyScan()
    ensures !HasViolations([]) && ScanCoverage([]) == 1.0 && TotalViolations([]) == 0
  {
  }

  /** A scan of one file reports that file's own coverage. */
  lemma OneFileScanCoverage(f: FileResult)
    ensures ScanCoverage([f]) == f.Coverage()
  {
    assert [f][1..] == [];
  }

  lemma {:induction false} SumsAppend(a: seq<FileResult>, b: seq<FileResult>)
    ensures SumTotal(a + b) == SumTotal(a) + SumTotal(b)
    ensures SumDocumented(a + b) == SumDocumented(a) + SumDocumented(b)
    ensures TotalViolations(a + b) == TotalViolations(a) + TotalViolations(b)
  {
    if a == [] {
      assert a + b == b;
    } else {
      assert (a + b)[0] == a[0];
      assert (a + b)[1..] == a[1..] + b;
      SumsAppend(a[1..], b);
    }
  }

  /** Coverage is insensitive to how the functions are spread over files:
      merging two files into one leaves the whole-scan coverage unchanged. */
  lemma MergingFilesKeepsCoverage(a: FileResult, b: FileResult, path: string)
    ensures ScanCoverage([FileResult(path, a.functions + b.functions, a.violations + b.violations)])
         == ScanCoverage([a, b])
  {
    var m := FileResult(path, a.functions + b.functions, a.violations + b.violations);
    CountDocumentedAppend(a.functions, b.functions);
    assert [m][1..] == [];
    assert [a, b][1..] == [b] && [b][1..] == [];
    assert SumTotal([b]) == |b.functions|;
    assert SumTotal([a, b]) == |a.functions| + SumTotal([b]);
    assert SumDocumented([m]) == SumDocumented([a, b]);
  }

  // ---------------------------------------------------------------------------
  // to_dict

  datatype ViolationEntry = ViolationEntry(functionName: string, line: int, complexity: int, severity: string)
  datatype FileSummary = FileSummary(path: string, functions: nat, documented: nat, violations: seq<ViolationEntry>)
  datatype Summary = Summary(totalFiles: nat, totalFunctions: nat, coverage: real, violations: nat,
                             files: seq<FileSummary>)

  function Entries(vs: seq<ComplexityResult>): (es: seq<ViolationEntry>)
    ensures |es| == |vs|
    ensures forall k :: 0 <= k < |vs| ==>
      es[k].functionName == vs[k].name && es[k].line == vs[k].line && es[k].complexity == vs[k].complexity &&
      es[k].severity == SeverityOf(vs[k].complexity).Label()
  {
    if vs == [] then []
    else [ViolationEntry(vs[0].name, vs[0].line, vs[0].complexity, vs[0].Severity().Label())] + Entries(vs[1..])
  }

  function FileSummaries(files: seq<FileResult>): (fs: seq<FileSummary>)
    ensures |fs| == |files|
    ensures forall k :: 0 <= k < |files| ==>
      fs[k].path == files[k].path && fs[k].functions == |files[k].functions| &&
      fs[k].documented == files[k].DocumentedFunctions() && fs[k].violations == Entries(files[k].violations)
  {
    if files == [] then []
    else
      var f := files[0];
      var rest := FileSummaries(files[1..]);
      assert forall k :: 1 <= k < |files| ==> files[k] == files[1..][k - 1];
      [FileSummary(f.path, f.TotalFunctions(), f.DocumentedFunctions(), Entries(f.violations))] + rest
  }

  /** `ScanResults.to_dict`. */
  function ToDict(files: seq<FileResult>): (s: Summary)
    ensures s.totalFiles == |files| == |s.files|
    ensures s.violations == TotalViolations(files)
    ensures s.violations > 0 <==> HasViolations(files)
    ensures s.totalFunctions == SumTotal(files)
    ensures IsShare(s.coverage, SumDocumented(files), SumTotal(files))
    ensures s.files == FileSummaries(files)
    ensures forall k :: 0 <= k < |files| ==>
      s.files[k].path == files[k].path && s.files[k].functions == |files[k].functions| &&
      s.files[k].documented == files[k].DocumentedFunctions() && s.files[k].violations == Entries(files[k].violations)
  {
    HasViolationsIffTotalPositive(files);
    Summary(|files|, SumTotal(files), ScanCoverage(files), TotalViolations(files), FileSummaries(files))
  }

  function EntryCount(fs: seq<FileSummary>): nat
  {
    if fs == [] then 0 else |fs[0].violations| + EntryCount(fs[1..])
  }

  function FunctionCount(fs: seq<FileSummary>): nat
  {
    if fs == [] then 0 else fs[0].functions + FunctionCount(fs[1..])
  }

  /** The summary adds up: its totals are the sums of its per-file entries. */
  lemma {:induction false} SummaryAddsUp(files: seq<FileResult>)
    ensures ToDict(files).violations == EntryCount(ToDict(files).files)
    ensures ToDict(files).totalFunctions == FunctionCount(ToDict(files).files)
  {
    if files != [] {
      SummaryAddsUp(files[1..]);
      assert FileSummaries(files)[1..] == FileSummaries(files[1..]);
    }
  }

  // ---------------------------------------------------------------------------
  // Ignore rules

  /** The pattern with every "**" + "/" and then every "/" + "**" removed. */
  function Trimmed(pattern: string): string
  {
    ReplaceAll(ReplaceAll(pattern, "**/", ""), "/**", "")
  }

  /** Trimming "**" + "/" + lit leaves lit. */
  lemma TrimmedAfterGlobstar(lit: string)
    requires '/' !in lit
    ensures Trimmed("**/" + lit) == lit
  {
    var s := "**/" + lit;
    assert s[..3] == "**/" && s[3..] == lit;
    MissingCharNotContained(lit, "**/", '/');
    MissingCharNotContained(lit, "/**", '/');
    assert ReplaceAll(lit, "**/", "") == lit;
    assert ReplaceAll(s, "**/", "") == lit;
  }

  /** Trimming "**" + "/" + lit + "/" + "**" leaves lit. */
  lemma TrimmedBetweenGlobstars(lit: string)
    requires '/' !in lit && '*' !in lit
    ensures Trimmed("**/" + lit + "/**") == lit
  {
    var tail := lit + "/**";
    var s := "**/" + tail;
    assert "**/" + lit + "/**" == s;
    assert s[..3] == "**/" && s[3..] == tail;
    NoGlobstarSlashBefore(lit);
    assert ReplaceAll(tail, "**/", "") == tail;
    assert ReplaceAll(s, "**/", "") == tail;
    ReplaceTrailing(lit, "/**");
  }

  lemma NoGlobstarSlashBefore(lit: string)
    requires '/' !in lit && '*' !in lit
    ensures !Contains(lit + "/**", "**/")
  {
    var s := lit + "/**";
    ContainsAt(s, "**/");
    if Contains(s, "**/") {
      var k :| 0 <= k <= |s| && StartsWith(s[k..], "**/");
      CharOfOccurrence(s, k, "**/", 0);
      CharOfOccurrence(s, k, "**/", 2);
      assert false;
    }
  }

  /** Some component of the path matches `pattern` as a whole. */
  predicate SomePartMatches(parts: seq<string>, pattern: string)
    ensures SomePartMatches(parts, pattern) <==> exists k :: 0 <= k < |parts| && FnMatch(parts[k], pattern)
  {
    if parts == [] then false
    else
      assert forall k :: 1 <= k < |parts| ==> parts[k] == parts[1..][k - 1];
      FnMatch(parts[0], pattern) || SomePartMatches(parts[1..], pattern)
  }

  /** The four rules of `should_ignore` that come after `Path.match`. */
  predicate LaterRules(p: FsPath, pattern: string)
  {
    || FnMatch(Str(p), pattern)
    || (StartsWith(pattern, "**/") && FnMatch(Name(p), pattern[3..]))
    || (Contains(pattern, "__pycache__") && Contains(Str(p), "__pycache__"))
    || SomePartMatches(p.parts, Trimmed(pattern))
  }

  /** One pattern's verdict: `Path.match` first (which raises on an empty
      pattern), then the other four rules. */
  function PatternVerdict(p: FsPath, pattern: string): (r: Result<bool>)
    ensures r.Err? <==> IsEmptyPattern(pattern)
    ensures r.Ok? ==> (r.value <==> PathMatch(p, pattern) == Ok(true) || LaterRules(p, pattern))
  {
    match PathMatch(p, pattern)
    case Err(e) => Err(e)
    case Ok(true) => Ok(true)
    case Ok(false) => Ok(LaterRules(p, pattern))
  }

  /** `CodeScanner.should_ignore`: the patterns in order, the first one that
      matches by any rule deciding; an empty pattern reached before that raises. */
  function ShouldIgnore(p: FsPath, patterns: seq<string>): (r: Result<bool>)
    ensures patterns == [] ==> r == Ok(false)
  {
    if patterns == [] then Ok(false)
    else
      match PatternVerdict(p, patterns[0])
      case Err(e) => Err(e)
      case Ok(true) => Ok(true)
      case Ok(false) => ShouldIgnore(p, patterns[1..])
  }

  /** A path is ignored only because some pattern matches it, and the check
      fails only because some pattern is empty. */
  lemma {:induction false} ShouldIgnoreWitnesses(p: FsPath, patterns: seq<string>)
    ensures ShouldIgnore(p, patterns) == Ok(true) ==>
      exists k :: 0 <= k < |patterns| && PatternVerdict(p, patterns[k]) == Ok(true)
    ensures ShouldIgnore(p, patterns).Err? ==> exists k :: 0 <= k < |patterns| && IsEmptyPattern(patterns[k])
  {
    if patterns != [] && PatternVerdict(p, patterns[0]) == Ok(false) {
      ShouldIgnoreWitnesses(p, patterns[1..]);
      assert forall k :: 1 <= k < |patterns| ==> patterns[k] == patterns[1..][k - 1];
    } else if patterns != [] {
      assert PatternVerdict(p, patterns[0]).Err? ==> IsEmptyPattern(patterns[0]);
    }
  }

  /** A pattern matches a path by one of the five rules. */
  predicate Matches(p: FsPath, pattern: string)
  {
    PathMatch(p, pattern) == Ok(true) || LaterRules(p, pattern)
  }

  /** With no empty pattern in the list, ignoring never fails, and a path is
      ignored exactly when some pattern matches it by some rule. */
  lemma {:induction false} ShouldIgnoreIsAnyMatch(p: FsPath, patterns: seq<string>)
    requires forall k :: 0 <= k < |patterns| ==> !IsEmptyPattern(patterns[k])
    ensures ShouldIgnore(p, patterns) == Ok(exists k :: 0 <= k < |patterns| && Matches(p, patterns[k]))
  {
    if patterns != [] {
      ShouldIgnoreIsAnyMatch(p, patterns[1..]);
      assert forall k :: 1 <= k < |patterns| ==> patterns[k] == patterns[1..][k - 1];
      assert (exists k :: 0 <= k < |patterns| && Matches(p, patterns[k])) <==>
             Matches(p, patterns[0]) || exists k :: 0 <= k < |patterns[1..]| && Matches(p, patterns[1..][k]) by {
        if exists k :: 0 <= k < |patterns| && Matches(p, patterns[k]) {
          var k :| 0 <= k < |patterns| && Matches(p, patterns[k]);
          if k > 0 {
            assert Matches(p, patterns[1..][k - 1]);
          }
        }
      }
    }
  }

  /** A pattern fails to match when each of the five rules fails on its own. */
  lemma NoRuleMatches(p: FsPath, pattern: string)
    requires PathMatch(p, pattern) != Ok(true)
    requires !FnMatch(Str(p), pattern)
    requires StartsWith(pattern, "**/") ==> !FnMatch(Name(p), pattern[3..])
    requires !Contains(Str(p), "__pycache__")
    requires !SomePartMatches(p.parts, Trimmed(pattern))
    ensures !Matches(p, pattern)
  {
  }

  /** The same, with the "__pycache__" rule ruled out by the path's components. */
  lemma NoRuleMatchesWithoutPycache(p: FsPath, pattern: string)
    requires PathMatch(p, pattern) != Ok(true)
    requires !FnMatch(Str(p), pattern)
    requires StartsWith(pattern, "**/") ==> !FnMatch(Name(p), pattern[3..])
    requires forall k :: 0 <= k < |p.parts| ==> !Contains(p.parts[k], "__pycache__")
    requires !SomePartMatches(p.parts, Trimmed(pattern))
    ensures !Matches(p, pattern)
  {
    PathStringLacks(p, "__pycache__");
    NoRuleMatches(p, pattern);
  }

  /** Appending patterns never un-ignores a path: the first matching pattern
      decides before any appended one is looked at, even an empty one. */
  lemma {:induction false} MorePatternsIgnoreMore(p: FsPath, patterns: seq<string>, extra: seq<string>)
    requires ShouldIgnore(p, patterns) == Ok(true)
    ensures ShouldIgnore(p, patterns + extra) == Ok(true)
  {
    var more := patterns + extra;
    assert patterns != [];
    assert more != [] && more[0] == patterns[0];
    var v := PatternVerdict(p, patterns[0]);
    if v == Ok(false) {
      assert ShouldIgnore(p, patterns[1..]) == Ok(true);
      assert more[1..] == patterns[1..] + extra;
      MorePatternsIgnoreMore(p, patterns[1..], extra);
      assert ShouldIgnore(p, more) == ShouldIgnore(p, more[1..]);
    } else {
      assert v == Ok(true);
    }
  }

  // ---------------------------------------------------------------------------
  // Scanning

  /** `CodeScanner.scan_file`: the parser's results and their violations, or an
      empty result for a file no parser handles. */
  function ScanFile(p: FsPath, file: SourceFile, threshold: int): (r: FileResult)
    ensures r.path == Str(p)
    ensures Consistent(r, threshold)
    ensures GetParser(p).None? ==> r.functions == []
    ensures GetParser(p).Some? ==> r.functions == ParseFile(GetParser(p).value, file)
  {
    match GetParser(p)
    case None => FileResult(Str(p), [], [])
    case Some(lang) =>
      var results := ParseFile(lang, file);
      FileResult(Str(p), results, Violations(results, threshold))
  }

  /** A file as the staged-file pipeline sees it: its path, whether it still
      exists on disk, and its contents. */
  datatype StagedFile = StagedFile(path: FsPath, present: bool, source: SourceFile)

  /** Whether the staged pipeline analyses `f`: it exists, is not ignored, and
      has the suffix ".py" exactly. */
  predicate StagedSelected(f: StagedFile, config: Config)
  {
    f.present && ShouldIgnore(f.path, config.ignore) == Ok(false) && Suffix(Name(f.path)) == ".py"
  }

  predicate Reported(fr: FileResult)
  {
    fr.functions != []
  }

  /** `CodeScanner.scan_staged`. `staged` is the list of staged paths, or None
      when the repository or its index could not be read. The results are the
      selected files that contain functions, in staging order; an empty ignore
      pattern met on an existing file fails the scan. */
  function ScanStaged(staged: Option<seq<StagedFile>>, config: Config): (r: Result<seq<FileResult>>)
    ensures staged.None? ==> r == Ok([])
    ensures staged.Some? ==>
      (r.Err? <==> exists k :: 0 <= k < |staged.value| &&
                     staged.value[k].present && ShouldIgnore(staged.value[k].path, config.ignore).Err?)
    ensures staged.Some? && r.Ok? ==> forall fr :: fr in r.value <==> StagedPickedIn(staged.value, config, fr)
  {
    match staged
    case None => Ok([])
    case Some(files) =>
      ScanStagedFilesFails(files, config);
      ScanStagedFilesMembers(files, config);
      ScanStagedFiles(files, config)
  }

  /** The staged scan over the list of staged files. */
  function ScanStagedFiles(files: seq<StagedFile>, config: Config): (r: Result<seq<FileResult>>)
    ensures r.Ok? ==> |r.value| <= |files|
  {
    if files == [] then Ok([])
    else
      var f := files[0];
      var rest := ScanStagedFiles(files[1..], config);
      if !f.present then rest
      else
        match ShouldIgnore(f.path, config.ignore)
        case Err(e) => Err(e)
        case Ok(true) => rest
        case Ok(false) =>
          if Suffix(Name(f.path)) != ".py" then rest
          else
            var fr := ScanFile(f.path, f.source, config.complexityThreshold);
            if !Reported(fr) || rest.Err? then rest
            else Ok([fr] + rest.value)
  }

  /** The staged scan fails exactly when some existing staged file meets an
      empty ignore pattern. */
  lemma {:induction false} ScanStagedFilesFails(files: seq<StagedFile>, config: Config)
    ensures ScanStagedFiles(files, config).Err? <==>
      exists k :: 0 <= k < |files| && files[k].present && ShouldIgnore(files[k].path, config.ignore).Err?
  {
    if files != [] {
      ScanStagedFilesFails(files[1..], config);
      assert forall k :: 1 <= k < |files| ==> files[k] == files[1..][k - 1];
    }
  }

  /** One step of the staged scan: a successful scan is the scan of the
      remaining files, with the first file's result in front when it is
      selected and reported. */
  lemma StagedScanStep(files: seq<StagedFile>, config: Config)
    requires files != []
    ensures var fr0 := ScanFile(files[0].path, files[0].source, config.complexityThreshold);
      ScanStagedFiles(files, config).Ok? ==>
        ScanStagedFiles(files[1..], config).Ok? &&
        ScanStagedFiles(files, config).value ==
          (if StagedSelected(files[0], config) && Reported(fr0) then [fr0] else []) + ScanStagedFiles(files[1..], config).value
  {
  }

  /** A successful staged scan reports exactly the selected files that
      contain functions. */
  lemma {:induction false} ScanStagedFilesMembers(files: seq<StagedFile>, config: Config)
    ensures ScanStagedFiles(files, config).Ok? ==> forall fr :: fr in ScanStagedFiles(files, config).value <==>
      StagedPickedIn(files, config, fr)
  {
    var r := ScanStagedFiles(files, config);
    if files != [] && r.Ok? {
      var rest := ScanStagedFiles(files[1..], config);
      ScanStagedFilesMembers(files[1..], config);
      StagedScanStep(files, config);
      assert forall fr :: fr in r.value <==> StagedPickedIn(files, config, fr);
    }
  }

  /** `f` is selected by the staged pipeline and reported as `fr`. */
  predicate StagedPicked(f: StagedFile, config: Config, fr: FileResult)
  {
    StagedSelected(f, config) && fr == ScanFile(f.path, f.source, config.complexityThreshold) && Reported(fr)
  }

  /** Some file of `files` is selected by the staged pipeline and reported as `fr`. */
  predicate StagedPickedIn(files: seq<StagedFile>, config: Config, fr: FileResult)
  {
    files != [] && (StagedPicked(files[0], config, fr) || StagedPickedIn(files[1..], config, fr))
  }

  /** The staged pipeline analyses ".py" files only: a ".pyi" stub, though the
      Python parser handles it, never appears in a staged scan. */
  lemma StagedScanSkipsStubs(f: StagedFile, config: Config)
    requires Suffix(Name(f.path)) == ".pyi"
    ensures !StagedSelected(f, config)
  {
  }

  /** `scan_all`'s glob patterns for the configured languages, in order; an
      unknown language contributes nothing. */
  function LanguageGlobs(languages: seq<string>): (globs: seq<string>)
    ensures forall g :: g in globs ==> g in ["*.py", "*.pyi", "*.js", "*.jsx", "*.mjs", "*.ts", "*.tsx", "*.java"]
    ensures (forall k :: 0 <= k < |languages| ==> languages[k] !in DefaultLanguages) ==> globs == []
  {
    if languages == [] then []
    else
      assert forall k :: 1 <= k < |languages| ==> languages[k] == languages[1..][k - 1];
      GlobsOf(languages[0]) + LanguageGlobs(languages[1..])
  }

  /** The globs one language contributes to `scan_all`. */
  function GlobsOf(lang: string): seq<string>
  {
    if lang == "python" then ["*.py", "*.pyi"]
    else if lang == "javascript" then ["*.js", "*.jsx", "*.mjs"]
    else if lang == "typescript" then ["*.ts", "*.tsx"]
    else if lang == "java" then ["*.java"]
    else []
  }

  /** Every glob `scan_all` knows, paired with the one language it belongs to. */
  const GlobOwners: seq<(string, string)> := [
    ("*.py", "python"), ("*.pyi", "python"),
    ("*.js", "javascript"), ("*.jsx", "javascript"), ("*.mjs", "javascript"),
    ("*.ts", "typescript"), ("*.tsx", "typescript"),
    ("*.java", "java")]

  /** A known glob is contributed by its own language and by no other. */
  lemma GlobOwner(g: string, lang: string, x: string)
    requires (g, lang) in GlobOwners
    ensures g in GlobsOf(x) <==> x == lang
  {
  }

  /** A known glob is produced exactly when its language is configured. */
  lemma {:induction false} GlobFollowsItsLanguage(languages: seq<string>, g: string, lang: string)
    requires (g, lang) in GlobOwners
    ensures g in LanguageGlobs(languages) <==> lang in languages
  {
    if languages != [] {
      GlobOwner(g, lang, languages[0]);
      GlobFollowsItsLanguage(languages[1..], g, lang);
      assert lang in languages <==> lang == languages[0] || lang in languages[1..];
    }
  }

  /** Which globs each language contributes: a glob is produced exactly when
      its language is configured. */
  lemma {:induction false} GlobsFollowLanguages(languages: seq<string>)
    ensures var globs := LanguageGlobs(languages);
      ("*.py" in globs <==> "python" in languages) &&
      ("*.pyi" in globs <==> "python" in languages) &&
      ("*.js" in globs <==> "javascript" in languages) &&
      ("*.jsx" in globs <==> "javascript" in languages) &&
      ("*.mjs" in globs <==> "javascript" in languages) &&
      ("*.ts" in globs <==> "typescript" in languages) &&
      ("*.tsx" in globs <==> "typescript" in languages) &&
      ("*.java" in globs <==> "java" in languages)
  {
    GlobFollowsItsLanguage(languages, "*.py", "python");
    GlobFollowsItsLanguage(languages, "*.pyi", "python");
    GlobFollowsItsLanguage(languages, "*.js", "javascript");
    GlobFollowsItsLanguage(languages, "*.jsx", "javascript");
    GlobFollowsItsLanguage(languages, "*.mjs", "javascript");
    GlobFollowsItsLanguage(languages, "*.ts", "typescript");
    GlobFollowsItsLanguage(languages, "*.tsx", "typescript");
    GlobFollowsItsLanguage(languages, "*.java", "java");
  }

  /** A file of the project tree as the recursive glob lists it. */
  datatype TreeFile = TreeFile(path: FsPath, source: SourceFile)

  /** What `Path.cwd().rglob(pattern)` yields from the listing: the entries
      whose final component matches the glob, in listing order. */
  function Glob(tree: seq<TreeFile>, glob: string): (r: seq<TreeFile>)
    ensures forall t :: t in r <==> t in tree && FnMatch(Name(t.path), glob)
  {
    if tree == [] then []
    else
      var rest := Glob(tree[1..], glob);
      assert forall t :: t in tree <==> t == tree[0] || t in tree[1..];
      if FnMatch(Name(tree[0].path), glob) then [tree[0]] + rest else rest
  }

  /** `t` is scanned, not ignored, and reported as `fr`. */
  predicate Picked(t: TreeFile, config: Config, fr: FileResult)
  {
    ShouldIgnore(t.path, config.ignore) == Ok(false) &&
    fr == ScanFile(t.path, t.source, config.complexityThreshold) && Reported(fr)
  }

  /** Some file of `files` is scanned, not ignored, and reported as `fr`. */
  predicate PickedIn(files: seq<TreeFile>, config: Config, fr: FileResult)
  {
    files != [] && (Picked(files[0], config, fr) || PickedIn(files[1..], config, fr))
  }

  /** Scanning the globbed files of one pattern: ignored files skipped, files
      without functions dropped. */
  function ScanGlobbed(files: seq<TreeFile>, config: Config): (r: Result<seq<FileResult>>)
    ensures r.Ok? ==> |r.value| <= |files|
  {
    if files == [] then Ok([])
    else
      var f := files[0];
      var rest := ScanGlobbed(files[1..], config);
      match ShouldIgnore(f.path, config.ignore)
      case Err(e) => Err(e)
      case Ok(true) => rest
      case Ok(false) =>
        var fr := ScanFile(f.path, f.source, config.complexityThreshold);
        if !Reported(fr) || rest.Err? then rest
        else Ok([fr] + rest.value)
  }

  /** Some file of `files` makes the ignore check fail. */
  predicate IgnoreFailsOn(files: seq<TreeFile>, config: Config)
  {
    exists k :: 0 <= k < |files| && ShouldIgnore(files[k].path, config.ignore).Err?
  }

  /** Scanning globbed files fails exactly when one of them meets an empty
      ignore pattern. */
  lemma {:induction false} ScanGlobbedFails(files: seq<TreeFile>, config: Config)
    ensures ScanGlobbed(files, config).Err? <==> IgnoreFailsOn(files, config)
  {
    if files != [] {
      ScanGlobbedFails(files[1..], config);
      GlobbedFailStep(files, config);
      var bad := (exists k :: 0 <= k < |files| && ShouldIgnore(files[k].path, config.ignore).Err?);
      var badRest := (exists k :: 0 <= k < |files[1..]| && ShouldIgnore(files[1..][k].path, config.ignore).Err?);
      if badRest {
        var k :| 0 <= k < |files[1..]| && ShouldIgnore(files[1..][k].path, config.ignore).Err?;
        assert files[1..][k] == files[k + 1];
      }
      if bad {
        var k :| 0 <= k < |files| && ShouldIgnore(files[k].path, config.ignore).Err?;
        if k > 0 {
          assert files[k] == files[1..][k - 1];
        }
      }
    }
  }

  /** One step of scanning globbed files: the scan fails when the first file's
      ignore check fails or the scan of the rest does. */
  lemma GlobbedFailStep(files: seq<TreeFile>, config: Config)
    requires files != []
    ensures ScanGlobbed(files, config).Err? <==>
      ShouldIgnore(files[0].path, config.ignore).Err? || ScanGlobbed(files[1..], config).Err?
  {
  }

  /** A successful scan of globbed files reports exactly the files that are
      not ignored and contain functions. */
  lemma {:induction false} ScanGlobbedMembers(files: seq<TreeFile>, config: Config)
    ensures ScanGlobbed(files, config).Ok? ==> forall fr :: fr in ScanGlobbed(files, config).value <==>
      PickedIn(files, config, fr)
  {
    var r := ScanGlobbed(files, config);
    if files != [] && r.Ok? {
      var rest := ScanGlobbed(files[1..], config);
      ScanGlobbedMembers(files[1..], config);
      GlobbedScanStep(files, config);
      assert forall fr :: fr in r.value <==> PickedIn(files, config, fr);
    }
  }

  /** One step of scanning globbed files: a successful scan is the scan of
      the remaining files, with the first file's result in front when it is
      not ignored and reported. */
  lemma GlobbedScanStep(files: seq<TreeFile>, config: Config)
    requires files != []
    ensures var fr0 := ScanFile(files[0].path, files[0].source, config.complexityThreshold);
      ScanGlobbed(files, config).Ok? ==>
        ScanGlobbed(files[1..], config).Ok? &&
        ScanGlobbed(files, config).value ==
          (if ShouldIgnore(files[0].path, config.ignore) == Ok(false) && Reported(fr0) then [fr0] else []) +
          ScanGlobbed(files[1..], config).value
  {
  }

  /** Some file globbed by `g` is scanned and reported as `fr`. */
  predicate Yields(tree: seq<TreeFile>, g: string, config: Config, fr: FileResult)
  {
    PickedIn(Glob(tree, g), config, fr)
  }

  /** Some file globbed by `g` makes the ignore check fail. */
  predicate GlobFails(tree: seq<TreeFile>, g: string, config: Config)
  {
    IgnoreFailsOn(Glob(tree, g), config)
  }

  /** `scan_all` from the glob patterns on: each pattern's files in turn. */
  function ScanGlobs(tree: seq<TreeFile>, globs: seq<string>, config: Config): (r: Result<seq<FileResult>>)
    ensures r.Err? <==> exists g :: g in globs && GlobFails(tree, g, config)
    ensures r.Ok? ==> forall fr :: fr in r.value <==> exists g :: g in globs && Yields(tree, g, config, fr)
  {
    if globs == [] then Ok([])
    else
      var here := ScanGlobbed(Glob(tree, globs[0]), config);
      var rest := ScanGlobs(tree, globs[1..], config);
      ScanGlobbedFails(Glob(tree, globs[0]), config);
      ScanGlobbedMembers(Glob(tree, globs[0]), config);
      assert forall g :: g in globs <==> g == globs[0] || g in globs[1..];
      assert here.Err? <==> GlobFails(tree, globs[0], config);
      assert here.Ok? ==> forall fr :: fr in here.value <==> Yields(tree, globs[0], config, fr);
      if here.Err? then here
      else if rest.Err? then rest
      else Ok(here.value + rest.value)
  }

  /** `CodeScanner.scan_all` over the project listing `tree`: every file one of
      the configured languages' globs selects, unless ignored, reported when it
      has functions, once per glob that selects it. */
  function ScanAll(tree: seq<TreeFile>, config: Config): (r: Result<seq<FileResult>>)
    ensures r.Err? <==> exists g :: g in LanguageGlobs(config.languages) && GlobFails(tree, g, config)
    ensures r.Ok? ==> forall fr :: fr in r.value <==>
      exists g :: g in LanguageGlobs(config.languages) && Yields(tree, g, config, fr)
    ensures r.Ok? ==> forall fr :: fr in r.value ==> Reported(fr) && Consistent(fr, config.complexityThreshold)
  {
    var globs := LanguageGlobs(config.languages);
    var r := ScanGlobs(tree, globs, config);
    if r.Ok? then YieldsAreReported(tree, globs, config, r.value); r else r
  }

  /** Every result some glob yields is a reported file whose violations are
      consistent with the threshold. */
  lemma YieldsAreReported(tree: seq<TreeFile>, globs: seq<string>, config: Config, frs: seq<FileResult>)
    requires forall fr :: fr in frs <==> exists g :: g in globs && Yields(tree, g, config, fr)
    ensures forall fr :: fr in frs ==> Reported(fr) && Consistent(fr, config.complexityThreshold)
  {
    forall fr | fr in frs
      ensures Reported(fr) && Consistent(fr, config.complexityThreshold)
    {
      var g :| g in globs && Yields(tree, g, config, fr);
      PickedInIsReported(Glob(tree, g), config, fr);
    }
  }

  /** A file picked from a list is reported, with consistent violations. */
  lemma {:induction false} PickedInIsReported(files: seq<TreeFile>, config: Config, fr: FileResult)
    ensures PickedIn(files, config, fr) ==> Reported(fr) && Consistent(fr, config.complexityThreshold)
  {
    if files != [] && !Picked(files[0], config, fr) {
      PickedInIsReported(files[1..], config, fr);
    }
  }

  /** Java files are globbed when "java" is configured, but no parser handles
      them, so they never appear in the results. */
  lemma JavaFilesNeverReported(t: TreeFile, config: Config)
    requires GetParser(t.path).None?
    ensures !Reported(ScanFile(t.path, t.source, config.complexityThreshold))
  {
  }
}

/** The two shapes of ignore pattern the scanner's configuration uses: a file
    pattern "**" + "/" + body, and a directory pattern "**" + "/" + dir + "/" + "**".
    Which paths each ignores, and the unit test's two patterns as an instance. */
module IgnoreExamples {
  import opened Common
  import opened Text
  import opened Paths
  import opened Scanner

  /** "**" + "/" + body has the components "**" and body, and trims to body. */
  lemma FilePatternShape(body: string)
    requires '/' !in body && body != "" && body != "."
    ensures PatternParts("**/" + body) == ["**", body]
    ensures !IsEmptyPattern("**/" + body)
    ensures Trimmed("**/" + body) == body
  {
    PatternPartsAfterGlobstar(body);
    TrimmedAfterGlobstar(body);
  }

  /** A file pattern ignores every path whose final name it matches. */
  lemma FilePatternMatchesName(p: FsPath, body: string)
    requires '/' !in body && body != "" && body != "."
    requires FnMatch(Name(p), body)
    ensures Matches(p, "**/" + body)
  {
    var pattern := "**/" + body;
    assert StartsWith(pattern, "**/") && pattern[3..] == body;
  }

  /** A file pattern whose body holds the literal run `lit` ignores no path in
      which no component contains `lit`. */
  lemma FilePatternMissesPath(p: FsPath, lit: string, tail: string)
    requires IsLiteral(lit) && |lit| >= 2 && '/' !in lit + tail
    requires !Contains(lit + tail, "__pycache__")
    requires forall k :: 0 <= k < |p.parts| ==> !Contains(p.parts[k], lit)
    ensures !Matches(p, "**/" + (lit + tail))
  {
    var body := lit + tail;
    var pattern := "**/" + body;
    FilePatternShape(body);
    assert body == [] + lit + tail;
    if PathMatch(p, pattern) == Ok(true) {
      LiteralRunOccurs(p.parts[|p.parts| - 1], [], lit, tail);
    }
    if FnMatch(Str(p), pattern) {
      assert pattern == "**/" + lit + tail;
      LiteralRunOccurs(Str(p), "**/", lit, tail);
      PathStringContains(p, lit);
    }
    assert pattern[3..] == body;
    if FnMatch(Name(p), body) {
      LiteralRunOccurs(Name(p), [], lit, tail);
    }
    assert pattern == "**" + ['/'] + body;
    if Contains(pattern, "__pycache__") {
      ContainsAcrossSeparator("**", '/', body, "__pycache__");
      MissingCharNotContained("**", "__pycache__", '_');
    }
    if SomePartMatches(p.parts, body) {
      var k :| 0 <= k < |p.parts| && FnMatch(p.parts[k], body);
      LiteralRunOccurs(p.parts[k], [], lit, tail);
    }
  }

  /** "**" + "/" + dir + "/" + "**" has the components "**", dir, "**", and trims to dir. */
  lemma DirPatternShape(dir: string)
    requires '/' !in dir && '*' !in dir && dir != "" && dir != "."
    ensures PatternParts("**/" + dir + "/**") == ["**", dir, "**"]
    ensures !IsEmptyPattern("**/" + dir + "/**")
    ensures Trimmed("**/" + dir + "/**") == dir
  {
    PatternPartsBetweenGlobstars(dir);
    TrimmedBetweenGlobstars(dir);
  }

  /** A directory pattern ignores every path with that directory among its components. */
  lemma DirPatternMatchesComponent(p: FsPath, i: int, dir: string)
    requires IsLiteral(dir) && '/' !in dir && dir != "" && dir != "."
    requires 0 <= i < |p.parts| && p.parts[i] == dir
    ensures Matches(p, "**/" + dir + "/**")
  {
    DirPatternShape(dir);
    LiteralPatternMatchesItself(dir, dir);
    assert SomePartMatches(p.parts, dir);
  }

  /** A directory pattern ignores no path in which no component contains the
      directory's name (nor "__pycache__", which the scanner singles out). */
  lemma DirPatternMissesPath(p: FsPath, dir: string)
    requires IsLiteral(dir) && '/' !in dir && |dir| >= 2
    requires forall k :: 0 <= k < |p.parts| ==> !Contains(p.parts[k], dir)
    requires forall k :: 0 <= k < |p.parts| ==> !Contains(p.parts[k], "__pycache__")
    ensures !Matches(p, "**/" + dir + "/**")
  {
    DirPatternMissesComponents(p, dir);
    DirPatternMissesWholePath(p, dir);
    NoRuleMatchesWithoutPycache(p, "**/" + dir + "/**");
  }

  /** Neither the whole path string nor the final name can match a directory
      pattern when no component contains the directory's name. */
  lemma DirPatternMissesWholePath(p: FsPath, dir: string)
    requires IsLiteral(dir) && '/' !in dir && |dir| >= 2
    requires forall k :: 0 <= k < |p.parts| ==> !Contains(p.parts[k], dir)
    ensures !FnMatch(Str(p), "**/" + dir + "/**")
    ensures !FnMatch(Name(p), ("**/" + dir + "/**")[3..])
  {
    var pattern := "**/" + dir + "/**";
    if FnMatch(Str(p), pattern) {
      LiteralRunOccurs(Str(p), "**/", dir, "/**");
      PathStringContains(p, dir);
    }
    assert pattern[3..] == [] + dir + "/**";
    if FnMatch(Name(p), pattern[3..]) {
      LiteralRunOccurs(Name(p), [], dir, "/**");
    }
  }

  /** Neither `Path.match` nor a single component can match a directory pattern
      when no component contains the directory's name. */
  lemma DirPatternMissesComponents(p: FsPath, dir: string)
    requires IsLiteral(dir) && '/' !in dir && |dir| >= 2
    requires forall k :: 0 <= k < |p.parts| ==> !Contains(p.parts[k], dir)
    ensures PathMatch(p, "**/" + dir + "/**") != Ok(true)
    ensures !SomePartMatches(p.parts, Trimmed("**/" + dir + "/**"))
  {
    DirPatternShape(dir);
    assert StartsWith(dir[0..], dir);
    DirPatternPathMatch(p, dir);
    if 3 <= |p.parts| && MatchFromRight(p.parts, ["**", dir, "**"]) {
      MatchedDirIsComponent(p.parts, dir);
    }
    if SomePartMatches(p.parts, dir) {
      var k :| 0 <= k < |p.parts| && FnMatch(p.parts[k], dir);
      LiteralPatternMatchesItself(p.parts[k], dir);
    }
  }

  /** `Path.match` against a directory pattern: the second-to-last component
      matches the directory, and the path has at least three components. */
  lemma DirPatternPathMatch(p: FsPath, dir: string)
    requires IsLiteral(dir) && '/' !in dir && |dir| >= 2
    ensures PathMatch(p, "**/" + dir + "/**") == Ok(3 <= |p.parts| && MatchFromRight(p.parts, ["**", dir, "**"]))
  {
    var pattern := "**/" + dir + "/**";
    DirPatternShape(dir);
    assert pattern[0] == '*';
  }

  lemma MatchedDirIsComponent(parts: seq<string>, dir: string)
    requires IsLiteral(dir) && 3 <= |parts|
    requires MatchFromRight(parts, ["**", dir, "**"])
    ensures parts[|parts| - 2] == dir
  {
    assert FnMatch(parts[|parts| - 2], dir);
    LiteralPatternMatchesItself(parts[|parts| - 2], dir);
  }

  /** The unit test's patterns, "**" + "/test_*.py" and "**" + "/__pycache__/" + "**",
      written as instances of the two shapes. */
  const TestPatterns: seq<string> := ["**/" + ("test_" + "*.py"), "**/" + "__pycache__" + "/**"]

  lemma TestPatternsShape()
    ensures !IsEmptyPattern(TestPatterns[0]) && !IsEmptyPattern(TestPatterns[1])
  {
    FilePatternShape("test_" + "*.py");
    DirPatternShape("__pycache__");
  }

  lemma TestPatternsAreNotEmpty()
    ensures forall k :: 0 <= k < |TestPatterns| ==> !IsEmptyPattern(TestPatterns[k])
  {
    TestPatternsShape();
  }

  /** A file named "test_" + anything + ".py" is ignored, in any directory. */
  lemma TestFilesAreIgnored(dirs: seq<string>, middle: string)
    ensures ShouldIgnore(FsPath(dirs + ["test_" + middle + ".py"]), TestPatterns) == Ok(true)
  {
    var file := "test_" + middle + ".py";
    var p := FsPath(dirs + [file]);
    TestPatternsAreNotEmpty();
    assert file[0] == 't';
    NameOfFile(dirs, file);
    HeadStarTailMatches("test_", middle, ".py");
    assert "*" + ".py" == "*.py";
    FilePatternMatchesName(p, "test_" + "*.py");
    ShouldIgnoreIsAnyMatch(p, TestPatterns);
  }

  /** Any path with a "__pycache__" component is ignored. */
  lemma PycacheIsIgnored(p: FsPath, i: int)
    requires 0 <= i < |p.parts| && p.parts[i] == "__pycache__"
    ensures ShouldIgnore(p, TestPatterns) == Ok(true)
  {
    TestPatternsAreNotEmpty();
    DirPatternMatchesComponent(p, i, "__pycache__");
    ShouldIgnoreIsAnyMatch(p, TestPatterns);
  }

  /** A path none of whose components contains "test_" or "__pycache__" is kept. */
  lemma OrdinaryPathIsKept(p: FsPath)
    requires forall k :: 0 <= k < |p.parts| ==> !Contains(p.parts[k], "test_") && !Contains(p.parts[k], "__pycache__")
    ensures ShouldIgnore(p, TestPatterns) == Ok(false)
  {
    TestPatternsAreNotEmpty();
    MissingCharNotContained("test_" + "*.py", "__pycache__", 'h');
    FilePatternMissesPath(p, "test_", "*.py");
    DirPatternMissesPath(p, "__pycache__");
    ShouldIgnoreIsAnyMatch(p, TestPatterns);
  }

  /** The four paths of the scanner's unit test: "test_example.py",
      "src/test_module.py" and "__pycache__/module.pyc" are ignored,
      "src/module.py" is kept. */
  lemma UnitTestTopLevelTestFile()
    ensures ShouldIgnore(FsPath(["test_" + "example" + ".py"]), TestPatterns) == Ok(true)
  {
    TestFilesAreIgnored([], "example");
    assert [] + ["test_" + "example" + ".py"] == ["test_" + "example" + ".py"];
  }

  lemma UnitTestNestedTestFile()
    ensures ShouldIgnore(FsPath(["src", "test_" + "module" + ".py"]), TestPatterns) == Ok(true)
  {
    TestFilesAreIgnored(["src"], "module");
    assert ["src"] + ["test_" + "module" + ".py"] == ["src", "test_" + "module" + ".py"];
  }

  lemma UnitTestCacheFile()
    ensures ShouldIgnore(FsPath(["__pycache__", "module.pyc"]), TestPatterns) == Ok(true)
  {
    PycacheIsIgnored(FsPath(["__pycache__", "module.pyc"]), 0);
  }

  lemma UnitTestSourceFile()
    ensures ShouldIgnore(FsPath(["src", "module" + ".py"]), TestPatterns) == Ok(false)
  {
    var p := FsPath(["src", "module" + ".py"]);
    assert forall k :: 0 <= k < |p.parts| ==> !Contains(p.parts[k], "test_") && !Contains(p.parts[k], "__pycache__") by {
      MissingCharNotContained("src", "test_", 't');
      MissingCharNotContained("module" + ".py", "test_", 't');
      MissingCharNotContained("src", "__pycache__", 'h');
      MissingCharNotContained("module" + ".py", "__pycache__", 'h');
    }
    OrdinaryPathIsKept(p);
  }
}
