# cognitive-guard, modelled in Dafny

cognitive-guard is a pre-commit guard that refuses undocumented complex code.
It scores every function's cognitive complexity from the Python syntax tree
(JavaScript and TypeScript functions get lizard's cyclomatic number). A function
is a violation when its score is above the configured threshold and it has no
docstring, JSDoc or TSDoc comment. The scanner aggregates the per-file results
into coverage figures. A small statistics tracker counts documented functions
and commits and unlocks achievements.

This project models that core as pure Dafny functions over immutable data:

- `Syntax`: the Python syntax tree as a datatype.
- `Complexity`: the scorer, the severity bands, `analyze_function`, and the
  analyzer's own running-counter traversal as a method.
- `FileAnalysis`: `analyze_file`, with `ast.walk`'s breadth-first order.
- `Parsers`: parser dispatch by path suffix, the JSDoc/TSDoc backward scans and
  the three `parse_file`s.
- `Settings`: `Config`, its validation bounds and its defaults.
- `Scanner`: `FileResult`, `ScanResults`, `should_ignore`, `scan_file`,
  `scan_staged` and `scan_all`.
- `IgnoreExamples`: the two ignore-pattern shapes the configuration uses, with
  the unit test's patterns as an instance.
- `StatsTracking`: the statistics value, its JSON dictionary form and the
  achievement state machine.
- `Text`, `Paths` and `Common`: Python's string operations, `pathlib` paths,
  `fnmatch`, and the `Option`/`Result` wrappers.

Every input the program gets from the outside is a parameter:

- the parsed syntax tree, or a syntax error;
- lizard's function list, or its failure;
- a file's text;
- the staged-file list and the project listing;
- the current time.

## Model

| member | source | states |
|---|---|---|
| Complexity.ScoreCountsBranches | cognitive_guard/core/complexity.py:71-117 | on a well-formed tree the score is at least the number of branch nodes (each branch costs at least 1) |
| Complexity.ScoreSeqAppend | cognitive_guard/core/complexity.py:90-91 | siblings are scored independently: the score of a concatenation is the sum of the scores |
| Complexity.ScoreDepthShift | cognitive_guard/core/complexity.py:75-81 | scoring a subtree e levels deeper adds exactly e per branch node, since only branches pay for nesting |
| Complexity.ScoreSeqDepthShift | cognitive_guard/core/complexity.py:112-117 | the same depth-shift law for a list of siblings |
| Complexity.ScoreLowerBound | cognitive_guard/core/complexity.py:75-81 | at depth d every branch costs at least 1 + d, so the score is at least (1 + d) times the branch count and never negative |
| Complexity.BranchInsideLoopCostsMore | cognitive_guard/core/complexity.py:75-117 | a branch inside a loop costs at least 2 more than the same branch at the top: the loop's own 1 plus 1 for the deeper level |
| Complexity.WithAddsOneButDeepens | cognitive_guard/core/complexity.py:83-85 | a `with` block costs a flat 1 at any depth, yet every branch inside it pays for one more level; async `with` is scored alike |
| Complexity.BareNameCallCostsOne | cognitive_guard/core/complexity.py:100-105 | any call through a bare name costs 1, whatever the name, on top of its arguments |
| Complexity.AttributeCallCostsNothing | cognitive_guard/core/complexity.py:100-105 | a call whose callee is not a bare name (attribute chain, subscript, call result) costs nothing of its own: the callee and the arguments are scored as they are |
| Complexity.NameAttributeCallCostsArguments | cognitive_guard/core/complexity.py:100-105 | `receiver.m(...)` costs exactly what its arguments cost |
| Complexity.ScoreAtLeastDescendant | cognitive_guard/core/complexity.py:71-117 | on a well-formed tree, a node scores at least as much as any node anywhere below it, at the same starting nesting |
| Complexity.NestedDefCountedInEnclosing | cognitive_guard/core/complexity.py:107-110 | a function defined anywhere inside another (in a branch, a `with`, a local class) is also scored as part of the enclosing one, which therefore scores at least as much |
| Complexity.SeverityOf | cognitive_guard/core/complexity.py:23-33 | the band's rank is the number of cut points 5, 10 and 15 that the score exceeds |
| Complexity.SeverityIsMonotone | cognitive_guard/core/complexity.py:23-33 | a higher score never gets a milder band |
| Complexity.SeverityDisplayIsInjective | cognitive_guard/core/complexity.py:23-44 | different bands have different ranks, labels and emoji |
| Complexity.SeverityCutPoints | cognitive_guard/core/complexity.py:23-33 | 0, 3 and 5 are simple; 6, 8 and 10 moderate; 11, 12 and 15 complex; 16 and 20 very complex |
| Complexity.DescriptionFollowsSeverity | cognitive_guard/core/complexity.py:138-148 | the description uses the same cut points as the severity: it is the description of the score's band |
| Complexity.AnalyzeFunction | cognitive_guard/core/complexity.py:54-69 | name and line are the definition's; has-docstring holds iff the body opens with a string-literal statement; the complexity is the sum of the arguments', body's and decorators' scores at depth 0 |
| Complexity.ScoreByVisiting | cognitive_guard/core/complexity.py:71-117 | one running total and one nesting counter, incremented on entering a branch or `with` and decremented after its children, compute exactly the recursive score; by the loop invariant, the counter always equals the number of pending decrements |
| ComplexityExamples.DocstringOnlyFunction | tests/unit/test_complexity.py:12-28 | a function with a docstring and otherwise inert code scores 0, is documented and is simple |
| ComplexityExamples.FunctionWithoutDocstring | tests/unit/test_complexity.py:64-76 | a body opening with anything but a string-literal statement has no docstring |
| ComplexityExamples.NestedIfScoresThree | tests/unit/test_complexity.py:47-62 | an `if` inside an `if` scores 1 + 2 = 3 |
| ComplexityExamples.ZeroCost | cognitive_guard/core/complexity.py:107-110 | a tree of names, literals and plain statements scores 0 at any depth |
| FileAnalysis.Walk | cognitive_guard/core/complexity.py:131 | the breadth-first walk yields as many nodes as the queued trees hold, the queued nodes first and in order |
| FileAnalysis.WalkVisitsEveryNodeOnce | cognitive_guard/core/complexity.py:131-134 | the walk yields every node of the tree exactly once (the same multiset as a depth-first listing), hence every definition exactly once |
| FileAnalysis.AnalyzeFile | cognitive_guard/core/complexity.py:119-136 | a file that does not parse gives no results |
| FileAnalysis.AnalyzeFileReportsEveryDef | cognitive_guard/core/complexity.py:119-136 | one result per definition in the module, nested ones and methods included, and every definition's analysis appears |
| FileAnalysis.TopLevelDefsComeFirst | cognitive_guard/core/complexity.py:131-134 | breadth-first order: the module's top-level definitions come first, in source order |
| Parsers.FirstSupporting | cognitive_guard/parsers/__init__.py:204-220 | the result is the first registered parser that accepts the suffix; none exactly when no parser accepts it |
| Parsers.GetParser | cognitive_guard/parsers/__init__.py:197-220 | a language is chosen iff the path's suffix is one of its extensions, and none iff no language accepts the suffix (the extension lists are at lines 34-35 and 113-114) |
| Parsers.ExtensionSetsAreDisjoint | cognitive_guard/parsers/__init__.py:34-35 | no suffix belongs to two languages (also lines 113-114, 197-198) |
| Parsers.RegistryOrderIsIrrelevant | cognitive_guard/parsers/__init__.py:204-220 | any registry listing all three parsers dispatches the same way |
| Parsers.DispatchOnFileName | cognitive_guard/parsers/__init__.py:214 | the parser for `stem.ext` in any directory is the one for ".ext" |
| Parsers.NotAnyLanguagesSuffix | cognitive_guard/parsers/__init__.py:34-35 | a suffix not ending in y, i, s or x belongs to no language (also lines 113-114, 197-198) |
| Parsers.JavaHasNoParser | cognitive_guard/parsers/__init__.py:204-220 | ".java" files have no parser |
| Parsers.UpperCaseSuffixHasNoParser | cognitive_guard/parsers/__init__.py:34-35 | suffix matching is case-sensitive: ".PY" has no parser |
| Parsers.HasOpener | cognitive_guard/parsers/__init__.py:96-100 | true iff some line in the inner scan's range contains "/**" |
| Parsers.Lines | cognitive_guard/parsers/__init__.py:84 | splitting on newlines gives at least one line and joining them back gives the content |
| Parsers.ScanFindsFirstDecisiveLine | cognitive_guard/parsers/__init__.py:87-111 | the scan's answer is the verdict of the first decisive line going upwards (a "*/" closer, a "///" line for TypeScript, or code), and false when there is none (also lines 167-195) |
| Parsers.JsdocImpliesDocumentation | cognitive_guard/parsers/__init__.py:87-111 | whatever the JavaScript scan accepts, the TypeScript scan accepts (also lines 167-195) |
| Parsers.HasJsdocImpliesHasDocumentation | cognitive_guard/parsers/__init__.py:78-111 | the same for the two checks on a file's content (also lines 158-195) |
| Parsers.NoScanAboveLineTwo | cognitive_guard/parsers/__init__.py:87 | a function on line 1 or 2 is never documented: the scan range is empty (also line 167) |
| Parsers.ScanReadsOnlyTheWindow | cognitive_guard/parsers/__init__.py:87-111 | two files agreeing on the lines above the function give the same answer |
| Parsers.OpenerReadsOnlyTheWindow | cognitive_guard/parsers/__init__.py:96-100 | the inner scan reads only its own range of lines |
| Parsers.DocumentedMeansCommentWithinEightLines | cognitive_guard/parsers/__init__.py:87-101 | a documented function has a "*/" line (or a "///" line for TypeScript) at most eight lines above it (also lines 167-185) |
| Parsers.CommentBlockRightAboveDocuments | cognitive_guard/parsers/__init__.py:94-100 | a one-line "/** ... */" right above the function documents it (also lines 174-180) |
| Parsers.CodeRightAboveMeansUndocumented | cognitive_guard/parsers/__init__.py:107-109 | a line of code right above the function means undocumented (also lines 191-193) |
| Parsers.FromLizard | cognitive_guard/parsers/__init__.py:56-67 | one result per lizard function, with its name, start line and cyclomatic number; documented iff the comment scan accepts its start line (also lines 136-147) |
| Parsers.ParseFile | cognitive_guard/parsers/__init__.py:28-32 | Python gives `analyze_file`'s results (none on a syntax error); JavaScript and TypeScript give nothing when lizard or the file read fails, else one result per lizard function (also lines 41-76, 120-156) |
| Parsers.TypeScriptSeesEveryJsdoc | cognitive_guard/parsers/__init__.py:58 | a function documented to the JavaScript parser is documented to the TypeScript parser (also line 138) |
| Settings.MakeConfig | cognitive_guard/core/__init__.py:18-39 | validation accepts exactly thresholds 1..20 and targets 0..1, and keeps the field values as given |
| Settings.CreateDefault | cognitive_guard/core/__init__.py:41-44 | the default configuration is valid, has every gamification switch on and includes "python" |
| Settings.DefaultsPassValidation | cognitive_guard/core/__init__.py:10-44 | threshold 10, target 0.9 and the default lists pass validation unchanged and give the default configuration |
| Settings.ThresholdAndTargetBounds | cognitive_guard/core/__init__.py:21-29 | 1 and 20 are accepted, 0 and 21 refused; targets below 0 or above 1 are refused |
| Scanner.FileResult.Coverage | cognitive_guard/core/scanner.py:24-36 | within [0, 1]; 1.0 iff every function is documented; otherwise coverage times the function count is the documented count |
| Scanner.CountDocumentedExtremes | cognitive_guard/core/scanner.py:28-30 | the documented count is the total iff every function is documented, and 0 iff none is |
| Scanner.Violations | cognitive_guard/core/scanner.py:173-177 | an order-preserving subsequence of the functions, holding exactly those above the threshold without a docstring |
| Scanner.AtThresholdIsNoViolation | cognitive_guard/core/scanner.py:175 | a function exactly at the threshold is not a violation |
| Scanner.HigherThresholdFewerViolations | cognitive_guard/core/scanner.py:173-177 | raising the threshold only drops violations |
| Scanner.ViolationsIdempotent | cognitive_guard/core/scanner.py:173-177 | filtering the violations again changes nothing |
| Scanner.ScanCoverage | cognitive_guard/core/scanner.py:50-57 | within [0, 1]; 1.0 iff everything is documented; otherwise coverage times the total is the documented sum |
| Scanner.HasViolationsIffTotalPositive | cognitive_guard/core/scanner.py:46-61 | `has_violations` holds iff the violation total is positive |
| Scanner.EmptyScan | cognitive_guard/core/scanner.py:46-61 | an empty scan has no violations, total 0 and coverage 1.0 |
| Scanner.OneFileScanCoverage | cognitive_guard/core/scanner.py:32-57 | a one-file scan's coverage is the file's own |
| Scanner.MergingFilesKeepsCoverage | cognitive_guard/core/scanner.py:50-57 | merging two files into one leaves the scan coverage unchanged |
| Scanner.ToDict | cognitive_guard/core/scanner.py:101-125 | one summary per file with its path, function counts and violation entries; the totals are the sums over the files, coverage is documented over total functions (1.0 when there are none), and the violation count is positive iff the scan has violations |
| Scanner.SummaryAddsUp | cognitive_guard/core/scanner.py:101-125 | the summary's violation and function totals are the sums of its per-file entries |
| Scanner.PatternVerdict | cognitive_guard/core/scanner.py:137-156 | a pattern fails iff `Path.match` raises on it (no components); otherwise it matches iff one of the five rules does |
| Scanner.ShouldIgnore | cognitive_guard/core/scanner.py:134-139 | with no patterns nothing is ignored |
| Scanner.ShouldIgnoreWitnesses | cognitive_guard/core/scanner.py:134-157 | a path is ignored only when some pattern matches it, and the check fails only when some pattern is empty |
| Scanner.ShouldIgnoreIsAnyMatch | cognitive_guard/core/scanner.py:134-157 | with no empty pattern, a path is ignored iff some pattern matches it by some rule |
| Scanner.MorePatternsIgnoreMore | cognitive_guard/core/scanner.py:136-157 | appending any patterns, empty ones included, never un-ignores a path: the first matching pattern decides before the appended ones are reached |
| Scanner.TrimmedAfterGlobstar | cognitive_guard/core/scanner.py:155 | removing "**/" and "/**" from a file pattern leaves its file part |
| Scanner.TrimmedBetweenGlobstars | cognitive_guard/core/scanner.py:155 | the same for a directory pattern leaves the directory name |
| Scanner.ScanFile | cognitive_guard/core/scanner.py:159-183 | the path string is kept; no parser means no functions; otherwise the parser's results, with violations exactly the filter of them |
| Scanner.ScanStaged | cognitive_guard/core/scanner.py:185-217 | no repository means no results; otherwise it fails iff an existing file meets an empty pattern, and a result is present iff it comes from an existing, not-ignored ".py" file that has functions |
| Scanner.ScanStagedFilesFails | cognitive_guard/core/scanner.py:205-210 | the staged loop fails exactly when some existing staged file meets an empty ignore pattern |
| Scanner.ScanStagedFilesMembers | cognitive_guard/core/scanner.py:205-217 | a successful staged loop reports exactly the existing, not-ignored ".py" files that have functions |
| Scanner.StagedScanSkipsStubs | cognitive_guard/core/scanner.py:212 | ".pyi" stubs are never scanned from the staging area |
| Scanner.LanguageGlobs | cognitive_guard/core/scanner.py:224-233 | only the known globs are produced, and unknown languages contribute none |
| Scanner.GlobFollowsItsLanguage | cognitive_guard/core/scanner.py:224-233 | any glob of the known table, paired with its one language, is produced for a language list exactly when that language is in it |
| Scanner.GlobsFollowLanguages | cognitive_guard/core/scanner.py:224-233 | each of the eight globs is produced exactly when its language is configured: python gives `*.py` and `*.pyi`, javascript `*.js`, `*.jsx` and `*.mjs`, typescript `*.ts` and `*.tsx`, java `*.java` |
| Scanner.Glob | cognitive_guard/core/scanner.py:237 | exactly the listed files whose name matches the glob |
| Scanner.ScanGlobbedFails | cognitive_guard/core/scanner.py:237-239 | scanning one glob's files fails exactly when one of them meets an empty ignore pattern |
| Scanner.ScanGlobbedMembers | cognitive_guard/core/scanner.py:237-243 | a successful scan of one glob's files reports exactly the not-ignored files that have functions |
| Scanner.ScanAll | cognitive_guard/core/scanner.py:219-245 | fails iff some globbed file meets an empty pattern; a result is present iff some glob yields a not-ignored file with functions; every result is consistent with the threshold |
| Scanner.JavaFilesNeverReported | cognitive_guard/core/scanner.py:159-168 | a file without a parser (such as ".java") is never reported (also lines 232-233) |
| IgnoreExamples.FilePatternShape | cognitive_guard/core/scanner.py:139-155 | "**/" + body has the components "**" and body, is not empty, and trims to body |
| IgnoreExamples.FilePatternMatchesName | cognitive_guard/core/scanner.py:145-148 | a file pattern matches every path whose final name matches its body |
| IgnoreExamples.FilePatternMissesPath | cognitive_guard/core/scanner.py:137-157 | a file pattern with a literal run matches no path in which no component contains that run |
| IgnoreExamples.DirPatternShape | cognitive_guard/core/scanner.py:139-155 | "**/" + dir + "/**" has the components "**", dir and "**", is not empty, and trims to dir |
| IgnoreExamples.DirPatternMatchesComponent | cognitive_guard/core/scanner.py:153-156 | a directory pattern matches every path with that directory among its components |
| IgnoreExamples.DirPatternMissesPath | cognitive_guard/core/scanner.py:137-157 | a directory pattern matches no path in which no component contains its name or "__pycache__" |
| IgnoreExamples.TestFilesAreIgnored | tests/unit/test_scanner.py:14-20 | under the test patterns, any "test_*.py" file is ignored in any directory |
| IgnoreExamples.PycacheIsIgnored | tests/unit/test_scanner.py:14-21 | any path with a "__pycache__" component is ignored |
| IgnoreExamples.OrdinaryPathIsKept | tests/unit/test_scanner.py:14-22 | a path with no component containing "test_" or "__pycache__" is kept |
| IgnoreExamples.UnitTestTopLevelTestFile | tests/unit/test_scanner.py:19 | "test_example.py" is ignored |
| IgnoreExamples.UnitTestNestedTestFile | tests/unit/test_scanner.py:20 | "src/test_module.py" is ignored |
| IgnoreExamples.UnitTestCacheFile | tests/unit/test_scanner.py:21 | "__pycache__/module.pyc" is ignored |
| IgnoreExamples.UnitTestSourceFile | tests/unit/test_scanner.py:22 | "src/module.py" is kept |
| Paths.Suffix | cognitive_guard/parsers/__init__.py:214 | a non-empty suffix starts with its only dot, is shorter than the name and ends it |
| Paths.SuffixOfStemAndExtension | cognitive_guard/parsers/__init__.py:214 | a stem not starting with a dot, a dot and a dot-free extension give exactly that suffix |
| Paths.PathMatch | cognitive_guard/core/scanner.py:139 | raises iff the pattern has no components; a match needs at least as many path components as pattern components, the last of which matches |
| Paths.LiteralPatternMatchesItself | cognitive_guard/core/scanner.py:142-155 | a wildcard-free pattern matches exactly itself |
| Paths.StarLiteralMatchesSuffix | cognitive_guard/core/scanner.py:147 | "*" followed by a literal matches exactly the names ending in that literal |
| Paths.LiteralRunOccurs | cognitive_guard/core/scanner.py:142-155 | whatever a pattern matches contains each of its literal runs |
| Text.StripRemovesOuterSpace | cognitive_guard/parsers/__init__.py:91 | stripping removes exactly the leading and trailing whitespace (also line 171) |
| Text.Split | cognitive_guard/parsers/__init__.py:84 | no piece contains the separator, and joining the pieces back gives the input |
| Text.ReplaceAll | cognitive_guard/core/scanner.py:155 | a string without the needle is unchanged, and replacing by something no longer never lengthens |
| StatsTracking.FreshStats | cognitive_guard/utils/__init__.py:91-101 | a tracker without a stats file starts at zero with all five achievements locked |
| StatsTracking.Unlock | cognitive_guard/utils/__init__.py:138-142 | only locked achievements with that id change, and they get the time; ids, names, descriptions and icons never change |
| StatsTracking.UnlockUnlocksEveryMatch | cognitive_guard/utils/__init__.py:138-142 | afterwards every achievement with that id is unlocked |
| StatsTracking.UnlockIsIdempotent | cognitive_guard/utils/__init__.py:138-142 | unlocking again, at any later time, changes nothing: the first time is kept |
| StatsTracking.UnlocksCommute | cognitive_guard/utils/__init__.py:126-142 | unlocking two ids can be done in either order |
| StatsTracking.CheckAchievements | cognitive_guard/utils/__init__.py:126-136 | only the achievements change, and their number and ids stay the same |
| StatsTracking.RecordDocumentation | cognitive_guard/utils/__init__.py:109-118 | the documented count goes up by exactly 1; the highest complexity becomes the larger of the old value and the new one, so it never falls; commits and streak are unchanged; the activity is stamped |
| StatsTracking.RecordCommit | cognitive_guard/utils/__init__.py:120-124 | the commit count goes up by exactly 1 and the activity is stamped; nothing else changes |
| StatsTracking.DocumentingUnlocksFirstSteps | cognitive_guard/utils/__init__.py:109-130 | from a non-negative count, documenting unlocks every "first_steps" |
| StatsTracking.ComplexWorkUnlocksMindReader | cognitive_guard/utils/__init__.py:112-136 | once the highest documented complexity exceeds 15, documenting unlocks every "mind_reader" |
| StatsTracking.DocumentingTouchesOnlyTwoAchievements | cognitive_guard/utils/__init__.py:126-136 | documenting changes no achievement other than "first_steps" and "mind_reader" |
| StatsTracking.OtherAchievementsNeverChange | cognitive_guard/utils/__init__.py:109-136 | no run of documentations and commits changes any other achievement |
| StatsTracking.UnreachableAchievementsStayLocked | cognitive_guard/utils/__init__.py:78-84 | from a fresh tracker, "marksman", "speed_demon" and "perfectionist" are never unlocked (also lines 126-136) |
| StatsTracking.ReplayCounts | cognitive_guard/utils/__init__.py:109-124 | after a run, the documented count has grown by the documentations and the commit count by the commits; the highest complexity has not fallen |
| StatsTracking.ToDict | cognitive_guard/utils/__init__.py:41-58 | exactly the six keys, with one achievement object per achievement |
| StatsTracking.AchievementFromJson | cognitive_guard/utils/__init__.py:62-64 | an accepted achievement object has only known keys and all four text fields |
| StatsTracking.FromDict | cognitive_guard/utils/__init__.py:60-72 | an accepted achievement list gives as many achievements |
| StatsTracking.FromDictInvertsToDict | cognitive_guard/utils/__init__.py:41-72 | loading what was saved gives back the same statistics |
| StatsTracking.MissingKeysTakeDefaults | cognitive_guard/utils/__init__.py:60-72 | a dictionary without the six keys loads as zero counters, no achievements and no activity |
| StatsTracking.AchievementNeedsId | cognitive_guard/utils/__init__.py:62-64 | an achievement object without an id is refused |
| StatsTracking.DocumentInFreshTrackerAsWritten | cognitive_guard/utils/__init__.py:94-142 | as written, documenting in a fresh tracker also rewrites the catalogue later fresh trackers start from |
| StatsTracking.SharedCatalogueLeaksUnlocks | cognitive_guard/utils/__init__.py:94-142 | after one fresh tracker documents a function, the next fresh tracker starts with "first_steps" unlocked and nothing documented |
| StatsTracking.DocumentInFreshTracker | cognitive_guard/utils/__init__.py:94-142 | corrected: the catalogue is left as it was |
| StatsTracking.FreshTrackersStayIndependent | cognitive_guard/utils/__init__.py:94 | corrected: the next fresh tracker starts with nothing unlocked |

## Left out

- File reading, `ast.parse` and lizard are inputs. A file is given as its syntax tree or syntax error, lizard's function list (or `None` when lizard raised) and its text (or `None` when reading failed).
- Decoding is not modelled. `analyze_file` catches only `SyntaxError`, so a `UnicodeDecodeError` propagates; there is no lossy fallback.
- Git is an input. Repository discovery, the index diff against HEAD and the index-entries fallback become one optional list of staged files. `None` stands for every git failure.
- `Path.exists` and `Path.cwd().rglob` are inputs: a presence flag per staged file, and a project listing in listing order.
- Paths are given as their component lists, already normalised as `pathlib` normalises them. An absolute path has "/" as its first component.
- fnmatch bracket classes (`[...]`) are not modelled; '[' is a literal character. POSIX case-sensitive matching is assumed.
- `Path.match` is modelled as right-anchored and component-wise, with `**` acting like `*` within one component, as Python before 3.13 does.
- `datetime.now()` is the parameter `now`. The model stamps one time per operation, where the source reads the clock separately for the activity and for each unlock.
- Display is not modelled: the rich tables, progress bars and emoji output of `ScanResults.display` and `StatsTracker.display`.
- Persistence is not modelled: the YAML config load/save, the stats JSON file and `json.dump`/`json.load` themselves. `Json` stands for the loaded value.
- `ScanResults.config` is not modelled; no operation reads it.
- Settings.MakeConfig: pydantic's coercion (a string "5" accepted as 5, say) is not modelled; values arrive with their types.
- StatsTracking.FromDict: refuses values of the wrong JSON type, which Python would store unchecked.
- StatsTracking.FromDict: does not model the unused `StatsTracker` fields or the JSON number/boolean distinctions.
- The CLI, TUI, hook installer, analyzer stubs and examples are outside the core.
- Python's `ast` is reduced to the node kinds the scorer tells apart. Every other kind is `Other` with its children.
- A `BoolOp`'s operator child is left out: it is a leaf that scores nothing.
- Names carry no context child; it scores nothing either.
- Python floats are modelled as exact `real` numbers: `Ratio`, `IsShare`, the scan coverage and `Config`'s target coverage carry no rounding.
- The warning the JavaScript and TypeScript parsers print to stderr when parsing fails (cognitive_guard/parsers/__init__.py:75 and :155) is not modelled; only the empty result is.
- Reading errors of a Python file other than a syntax error are not modelled: undecodable bytes, a directory named like `x.py` that `rglob` yields, or a missing read permission raise in the source and abort `scan_all` or `scan_staged`. A Python input here is always a syntax tree or a syntax error.
- Python's recursion limit is not modelled: on very deeply nested code `_analyze_node` raises `RecursionError`, which propagates; the model scores any depth.

Where the design notes and the code disagree, the model follows the code:

- Every call through a bare name costs 1, not only a recursive call (design notes: +2 for self-recursion).
- `with` blocks visit their children one level deeper.
- There is no lossy-decode fallback.
- Scanning is a sequential loop.
- The staged scan only takes files whose suffix is exactly ".py".
- The TypeScript scan accepts a "///" line at once, before looking at anything further up.

## Findings

| source | as written | input that shows it | evidently intended | confidence | as-written member | corrected member |
|---|---|---|---|---|---|---|
| cognitive_guard/utils/__init__.py:94, 101, 138-142 | a tracker without a stats file starts from `ACHIEVEMENTS.copy()`, a shallow copy, so `_unlock_achievement` sets `unlocked_at` on the class-wide catalogue's own objects | two trackers in one process: the first, with no stats file, records a documentation; the second starts where there is no stats file (another working directory) and already has "first_steps" unlocked with 0 functions documented | every fresh tracker starts with all achievements locked (a copy of each achievement) | medium, not executed; no command of the CLI creates two trackers in one process | StatsTracking.DocumentInFreshTrackerAsWritten, StatsTracking.SharedCatalogueLeaksUnlocks | StatsTracking.DocumentInFreshTracker, StatsTracking.FreshTrackersStayIndependent |
