/** The cognitive-complexity scorer for Python functions and the severity bands
    its results fall into. */
module Complexity {
  import opened Syntax

  /** The score a node contributes at nesting `depth`, children included.
      Branches and exception handlers cost `1 + depth`, `with` blocks a flat 1,
      and all three visit their children one level deeper. A boolean operation
      with k operands costs k - 1, a conditional expression 1, and a call 1 when
      its callee is a bare name, whatever that name is; these and every other
      node visit their children at the same depth. */
  function Score(n: Node, depth: int): int
    decreases Size(n), 0
  {
    SizeOfChildren(n);
    match n
    case If(_) | While(_) | For(_) | AsyncFor(_) => 1 + depth + ScoreSeq(Children(n), depth + 1)
    case ExceptHandler(_) => 1 + depth + ScoreSeq(Children(n), depth + 1)
    case With(_) | AsyncWith(_) => 1 + ScoreSeq(Children(n), depth + 1)
    case BoolOp(values) => |values| - 1 + ScoreSeq(Children(n), depth)
    case IfExp(_) => 1 + ScoreSeq(Children(n), depth)
    case Call(func, _) => (if func.Name? then 1 else 0) + ScoreSeq(Children(n), depth)
    case _ => ScoreSeq(Children(n), depth)
  }

  /** Siblings are all scored at the same depth. */
  function ScoreSeq(ns: seq<Node>, depth: int): int
    decreases SizeSeq(ns), 1
  {
    if ns == [] then 0 else Score(ns[0], depth) + ScoreSeq(ns[1..], depth)
  }

  /** On a well-formed tree every branch costs at least 1 and nothing costs
      less than zero, so the score is at least the number of branches. */
  lemma {:induction false} ScoreCountsBranches(n: Node, depth: int)
    requires WellFormed(n) && depth >= 0
    ensures Score(n, depth) >= Branches(n)
    decreases Size(n), 0
  {
    SizeOfChildren(n);
    ScoreSeqCountsBranches(Children(n), if IsNesting(n) then depth + 1 else depth);
  }

  lemma {:induction false} ScoreSeqCountsBranches(ns: seq<Node>, depth: int)
    requires WellFormedSeq(ns) && depth >= 0
    ensures ScoreSeq(ns, depth) >= BranchesSeq(ns)
    decreases SizeSeq(ns), 1
  {
    if ns != [] {
      ScoreCountsBranches(ns[0], depth);
      ScoreSeqCountsBranches(ns[1..], depth);
    }
  }

  lemma {:induction false} ScoreSeqAppend(a: seq<Node>, b: seq<Node>, depth: int)
    ensures ScoreSeq(a + b, depth) == ScoreSeq(a, depth) + ScoreSeq(b, depth)
  {
    if a == [] {
      assert a + b == b;
    } else {
      assert (a + b)[0] == a[0];
      assert (a + b)[1..] == a[1..] + b;
      ScoreSeqAppend(a[1..], b, depth);
    }
  }

  /** Only branches pay for depth: scoring `e` levels deeper adds exactly `e`
      for every branch in the tree, and nothing for any other construct. */
  lemma {:induction false} ScoreDepthShift(n: Node, depth: int, e: int)
    ensures Score(n, depth + e) == Score(n, depth) + e * Branches(n)
    decreases Size(n), 0
  {
    SizeOfChildren(n);
    var c := Children(n);
    if IsNesting(n) {
      ScoreSeqDepthShift(c, depth + 1, e);
      assert depth + e + 1 == depth + 1 + e;
    } else {
      ScoreSeqDepthShift(c, depth, e);
    }
    if IsBranch(n) {
      assert Branches(n) == 1 + BranchesSeq(c);
      Distribute(e, 1, BranchesSeq(c));
    } else {
      assert Branches(n) == BranchesSeq(c);
    }
  }

  lemma Distribute(e: int, a: int, b: int)
    ensures e * (a + b) == e * a + e * b
  {
  }

  lemma {:induction false} ScoreSeqDepthShift(ns: seq<Node>, depth: int, e: int)
    ensures ScoreSeq(ns, depth + e) == ScoreSeq(ns, depth) + e * BranchesSeq(ns)
    decreases SizeSeq(ns), 1
  {
    if ns != [] {
      ScoreDepthShift(ns[0], depth, e);
      ScoreSeqDepthShift(ns[1..], depth, e);
      assert BranchesSeq(ns) == Branches(ns[0]) + BranchesSeq(ns[1..]);
      Distribute(e, Branches(ns[0]), BranchesSeq(ns[1..]));
    }
  }

  /** Every branch of a well-formed tree scored at depth `d` or deeper costs at
      least `1 + d`, and nothing else costs less than zero. */
  lemma ScoreLowerBound(n: Node, d: int)
    requires WellFormed(n) && d >= 0
    ensures Score(n, d) >= (1 + d) * Branches(n)
    ensures Score(n, d) >= 0
  {
    ScoreDepthShift(n, 0, d);
    ScoreCountsBranches(n, 0);
    assert (1 + d) * Branches(n) == Branches(n) + d * Branches(n);
  }

  /** A branch placed inside a loop costs at least two more than the same branch
      at the top of the function: the loop's own 1, plus 1 for the deeper level. */
  lemma BranchInsideLoopCostsMore(x: Node, test: Node)
    requires IsBranch(x)
    ensures Score(While([test, x]), 0) >= Score(x, 0) + Score(test, 1) + 2
  {
    var w := While([test, x]);
    assert Children(w) == [test, x];
    assert [test, x][1..] == [x];
    assert [x][1..] == [];
    assert ScoreSeq([x], 1) == Score(x, 1);
    assert ScoreSeq([test, x], 1) == Score(test, 1) + ScoreSeq([x], 1);
    ScoreDepthShift(x, 0, 1);
    SizeOfChildren(x);
    assert Branches(x) == 1 + BranchesSeq(Children(x));
  }

  /** A `with` block costs a flat 1 whatever the depth, yet every branch inside
      it pays for one more level than the block itself sits at. */
  lemma WithAddsOneButDeepens(body: seq<Node>, d: int)
    ensures Score(With(body), d) == 1 + ScoreSeq(body, 0) + (d + 1) * BranchesSeq(body)
    ensures Score(AsyncWith(body), d) == Score(With(body), d)
  {
    ScoreSeqDepthShift(body, 0, d + 1);
  }

  /** Every call through a bare name costs 1, whatever the name. */
  lemma BareNameCallCostsOne(callee: string, args: seq<Node>, d: int)
    ensures Score(Call(Name(callee), args), d) == 1 + ScoreSeq(args, d)
  {
    var c := Call(Name(callee), args);
    assert Children(c) == [Name(callee)] + args;
    ScoreSeqAppend([Name(callee)], args, d);
    assert [Name(callee)][1..] == [];
    assert ScoreSeq([Name(callee)], d) == Score(Name(callee), d) + ScoreSeq([], d);
  }

  /** A call whose callee is anything but a bare name (an attribute such as
      `self.x.m`, a subscript, another call's result) costs nothing of its
      own: its score is that of the callee and the arguments. */
  lemma AttributeCallCostsNothing(f: Node, args: seq<Node>, d: int)
    requires !f.Name?
    ensures Score(Call(f, args), d) == Score(f, d) + ScoreSeq(args, d)
  {
    assert Children(Call(f, args)) == [f] + args;
    ScoreSeqAppend([f], args, d);
    assert [f][1..] == [];
  }

  /** In particular `receiver.m(...)`, whose callee node holds the receiver
      and a load context, costs exactly what its arguments cost. */
  lemma NameAttributeCallCostsArguments(receiver: string, args: seq<Node>, d: int)
    ensures Score(Call(Other([Name(receiver), Other([])]), args), d) == ScoreSeq(args, d)
  {
    var attribute := Other([Name(receiver), Other([])]);
    AttributeCallCostsNothing(attribute, args, d);
    assert [Name(receiver), Other([])][1..] == [Other([])];
    assert [Other([])][1..] == [];
    assert Score(Other([]), d) == ScoreSeq([], d) == 0;
    assert ScoreSeq([Other([])], d) == Score(Other([]), d) + ScoreSeq([], d);
    assert ScoreSeq([Name(receiver), Other([])], d) == Score(Name(receiver), d) + ScoreSeq([Other([])], d);
    assert Score(attribute, d) == ScoreSeq([Name(receiver), Other([])], d);
  }

  /** A node's own cost, before its children: never negative on a
      well-formed tree at a non-negative depth. */
  lemma {:induction false} OwnCostIsNonNegative(n: Node, d: int)
    requires WellFormed(n) && d >= 0
    ensures Score(n, d) >= ScoreSeq(Children(n), if IsNesting(n) then d + 1 else d)
  {
    var own := if IsBranch(n) then 1 + d
               else if n.With? || n.AsyncWith? then 1
               else if n.BoolOp? then |n.kids| - 1
               else if n.IfExp? || (n.Call? && n.func.Name?) then 1
               else 0;
    VisitCost(n, d, own, if IsNesting(n) then d + 1 else d);
  }

  /** The same node scored deeper down costs at least as much. */
  lemma DeeperScoresAtLeast(x: Node, d: int, c: int)
    requires d <= c
    ensures Score(x, c) >= Score(x, d)
  {
    ScoreDepthShift(x, d, c - d);
    assert d + (c - d) == c;
  }

  /** On a well-formed tree, a node scores at least as much as any node below
      it: everything on the way down costs zero or more, and the deeper level
      the descendant sits at only makes its branches cost more. */
  lemma {:induction false} ScoreAtLeastDescendant(n: Node, x: Node, d: int)
    requires WellFormed(n) && d >= 0 && x in Nodes(n)
    ensures Score(n, d) >= Score(x, d)
    decreases Size(n), 0
  {
    if x != n {
      SizeOfChildren(n);
      var c := if IsNesting(n) then d + 1 else d;
      OwnCostIsNonNegative(n, d);
      ScoreSeqAtLeastDescendant(Children(n), x, c);
      DeeperScoresAtLeast(x, d, c);
    }
  }

  lemma {:induction false} ScoreSeqAtLeastDescendant(ns: seq<Node>, x: Node, d: int)
    requires WellFormedSeq(ns) && d >= 0 && x in NodesSeq(ns)
    ensures ScoreSeq(ns, d) >= Score(x, d)
    decreases SizeSeq(ns), 1
  {
    if x in Nodes(ns[0]) {
      ScoreAtLeastDescendant(ns[0], x, d);
      ScoreSeqCountsBranches(ns[1..], d);
    } else {
      ScoreSeqAtLeastDescendant(ns[1..], x, d);
      ScoreCountsBranches(ns[0], d);
    }
  }

  /** A definition nested anywhere inside another function (in a branch, a
      `with` block, a local class or directly in the body) is also scored as
      part of the enclosing function, so the enclosing one scores at least as
      much. */
  lemma NestedDefCountedInEnclosing(outer: Node, inner: Node)
    requires outer.FunctionDef? && inner.FunctionDef? && WellFormed(outer) && inner in Nodes(outer)
    ensures AnalyzeFunction(outer).complexity >= AnalyzeFunction(inner).complexity
  {
    ScoreAtLeastDescendant(outer, inner, 0);
  }

  /** The severity band of a score. */
  datatype Severity = Simple | Moderate | Complex | VeryComplex {
    /** How many cut points the band lies above. */
    function Rank(): nat
    {
      match this
      case Simple => 0
      case Moderate => 1
      case Complex => 2
      case VeryComplex => 3
    }

    /** The label reports and tables show. */
    function Label(): string
    {
      match this
      case Simple => "simple"
      case Moderate => "moderate"
      case Complex => "complex"
      case VeryComplex => "very_complex"
    }

    /** The display symbol: green, yellow, orange and red circles. */
    function Emoji(): string
    {
      match this
      case Simple => "\U{1F7E2}"
      case Moderate => "\U{1F7E1}"
      case Complex => "\U{1F7E0}"
      case VeryComplex => "\U{1F534}"
    }
  }

  /** The number of the cut points 5, 10 and 15 that `score` exceeds. */
  function CutsExceeded(score: int): nat
  {
    (if score > 5 then 1 else 0) + (if score > 10 then 1 else 0) + (if score > 15 then 1 else 0)
  }

  /** `ComplexityResult.severity`. */
  function SeverityOf(score: int): (s: Severity)
    ensures s.Rank() == CutsExceeded(score)
  {
    if score <= 5 then Simple
    else if score <= 10 then Moderate
    else if score <= 15 then Complex
    else VeryComplex
  }

  /** `ComplexityAnalyzer.get_complexity_description`, with its own copy of the cut points. */
  function Description(score: int): string
  {
    if score <= 5 then "Simple - Easy to understand"
    else if score <= 10 then "Moderate - Reasonably clear"
    else if score <= 15 then "Complex - Requires careful reading"
    else "Very Complex - Consider refactoring"
  }

  /** The description each severity band is given. */
  function DescriptionOfBand(s: Severity): string
  {
    match s
    case Simple => "Simple - Easy to understand"
    case Moderate => "Moderate - Reasonably clear"
    case Complex => "Complex - Requires careful reading"
    case VeryComplex => "Very Complex - Consider refactoring"
  }

  /** The description and the severity use the same cut points. */
  lemma DescriptionFollowsSeverity(score: int)
    ensures Description(score) == DescriptionOfBand(SeverityOf(score))
  {
  }

  /** A higher score never gets a milder severity. */
  lemma SeverityIsMonotone(a: int, b: int)
    requires a <= b
    ensures SeverityOf(a).Rank() <= SeverityOf(b).Rank()
  {
  }

  /** Distinct bands have distinct ranks, labels and symbols. */
  lemma SeverityDisplayIsInjective(s: Severity, t: Severity)
    requires s != t
    ensures s.Rank() != t.Rank() && s.Label() != t.Label() && s.Emoji() != t.Emoji()
  {
  }

  /** The boundary and sample scores of the severity table. */
  lemma SeverityCutPoints()
    ensures SeverityOf(0) == Simple && SeverityOf(3) == Simple && SeverityOf(5) == Simple
    ensures SeverityOf(6) == Moderate && SeverityOf(8) == Moderate && SeverityOf(10) == Moderate
    ensures SeverityOf(11) == Complex && SeverityOf(12) == Complex && SeverityOf(15) == Complex
    ensures SeverityOf(16) == VeryComplex && SeverityOf(20) == VeryComplex
  {
  }

  /** `ComplexityResult`: one analysed function. */
  datatype ComplexityResult = ComplexityResult(name: string, line: int, complexity: int, hasDocstring: bool)
  {
    function Severity(): Severity
    {
      SeverityOf(complexity)
    }
  }

  /** `ast.get_docstring(...) is not None`: the body opens with a string-literal statement. */
  predicate HasDocstring(body: seq<Node>)
  {
    body != [] && body[0].Expr? && body[0].value.Str?
  }

  /** `ComplexityAnalyzer.analyze_function`: the score starts at 0 at depth 0;
      the definition itself adds nothing and its arguments, body, decorators and
      annotation are all scored at depth 0. */
  function AnalyzeFunction(def: Node): (r: ComplexityResult)
    requires def.FunctionDef?
    ensures r.name == def.name && r.line == def.line
    ensures r.hasDocstring <==> exists doc :: def.body != [] && def.body[0] == Expr(Str(doc))
    ensures r.complexity == ScoreSeq(def.signature, 0) + ScoreSeq(def.body, 0) + ScoreSeq(def.trailing, 0)
    ensures WellFormed(def) ==> r.complexity >= Branches(def)
  {
    ScoreSeqAppend(def.signature + def.body, def.trailing, 0);
    ScoreSeqAppend(def.signature, def.body, 0);
    assert HasDocstring(def.body) ==> def.body[0] == Expr(Str(def.body[0].value.text));
    assert WellFormed(def) ==> Score(def, 0) >= Branches(def) by {
      if WellFormed(def) {
        ScoreCountsBranches(def, 0);
      }
    }
    ComplexityResult(def.name, def.line, Score(def, 0), HasDocstring(def.body))
  }

  /** What the recursive analyzer still has to do, as an explicit stack of
      events: entering a node (`_analyze_node`) or leaving a nesting construct
      (the decrement at the end of `_analyze_nested`). The top of the stack is
      its last element. */
  datatype Event = Enter(node: Node) | Leave

  /** The score the pending events add when they are run, from the top down,
      starting from the nesting counter's value `nesting`. */
  function PendingScore(events: seq<Event>, nesting: int): int
  {
    if events == [] then 0
    else
      var rest := events[..|events| - 1];
      match events[|events| - 1]
      case Enter(n) => Score(n, nesting) + PendingScore(rest, nesting)
      case Leave => PendingScore(rest, nesting - 1)
  }

  /** The number of pending `Leave` markers: the increments still to be undone. */
  function LeaveCount(events: seq<Event>): nat
  {
    if events == [] then 0
    else LeaveCount(events[..|events| - 1]) + (if events[|events| - 1].Leave? then 1 else 0)
  }

  /** The nodes still to be entered, counted with their subtrees. */
  function PendingSize(events: seq<Event>): nat
  {
    if events == [] then 0
    else
      PendingSize(events[..|events| - 1]) +
      (match events[|events| - 1] case Enter(n) => Size(n) case Leave => 0)
  }

  /** The children pushed so that the first child is on top, so that they are
      entered in the order `ast.iter_child_nodes` yields them. */
  function Enters(ns: seq<Node>): (es: seq<Event>)
    ensures |es| == |ns|
  {
    if ns == [] then [] else Enters(ns[1..]) + [Enter(ns[0])]
  }

  lemma EnterTop(s: seq<Event>, n: Node, nesting: int)
    ensures PendingScore(s + [Enter(n)], nesting) == Score(n, nesting) + PendingScore(s, nesting)
  {
    var e := s + [Enter(n)];
    assert e[..|e| - 1] == s;
  }

  /** Pushing a node's children adds their scores at the current nesting. */
  lemma {:induction false} PendingEnters(s: seq<Event>, ns: seq<Node>, nesting: int)
    ensures PendingScore(s + Enters(ns), nesting) == ScoreSeq(ns, nesting) + PendingScore(s, nesting)
  {
    if ns == [] {
      assert s + Enters(ns) == s;
    } else {
      var below := s + Enters(ns[1..]);
      assert s + Enters(ns) == below + [Enter(ns[0])];
      EnterTop(below, ns[0], nesting);
      PendingEnters(s, ns[1..], nesting);
    }
  }

  /** Pushing children adds their sizes and no `Leave` marker. */
  lemma {:induction false} EntersCounts(s: seq<Event>, ns: seq<Node>)
    ensures PendingSize(s + Enters(ns)) == SizeSeq(ns) + PendingSize(s)
    ensures LeaveCount(s + Enters(ns)) == LeaveCount(s)
  {
    if ns == [] {
      assert s + Enters(ns) == s;
    } else {
      var e := s + Enters(ns);
      assert e[..|e| - 1] == s + Enters(ns[1..]);
      assert e[|e| - 1] == Enter(ns[0]);
      EntersCounts(s, ns[1..]);
    }
  }

  /** Entering a node: its own cost now, its children later at `childNesting`,
      with a `Leave` below them when the node raised the counter. */
  lemma EnterStep(rest: seq<Event>, n: Node, nesting: int, own: int, childNesting: int)
    requires own == if IsBranch(n) then 1 + nesting
                    else if n.With? || n.AsyncWith? then 1
                    else if n.BoolOp? then |n.kids| - 1
                    else if n.IfExp? || (n.Call? && n.func.Name?) then 1
                    else 0
    requires childNesting == if IsNesting(n) then nesting + 1 else nesting
    ensures var below := if IsNesting(n) then rest + [Leave] else rest;
            var after := below + Enters(Children(n));
            PendingScore(rest + [Enter(n)], nesting) == own + PendingScore(after, childNesting) &&
            PendingSize(after) < PendingSize(rest + [Enter(n)]) &&
            LeaveCount(after) == LeaveCount(rest) + childNesting - nesting
  {
    var below := if IsNesting(n) then rest + [Leave] else rest;
    var e := rest + [Enter(n)];
    assert e[..|e| - 1] == rest;
    if IsNesting(n) {
      LeaveStep(rest, nesting + 1);
    }
    VisitCost(n, nesting, own, childNesting);
    PendingEnters(below, Children(n), childNesting);
    EntersCounts(below, Children(n));
    SizeOfChildren(n);
  }

  /** Leaving a nesting construct undoes one increment. */
  lemma LeaveStep(rest: seq<Event>, nesting: int)
    ensures PendingScore(rest + [Leave], nesting) == PendingScore(rest, nesting - 1)
    ensures PendingSize(rest + [Leave]) == PendingSize(rest)
    ensures LeaveCount(rest + [Leave]) == LeaveCount(rest) + 1
  {
    var e := rest + [Leave];
    assert e[..|e| - 1] == rest;
  }

  /** One visit of the analyzer: a node's own cost, as the analyzer adds it to
      its running total, plus its children scored at the level it passes on. */
  lemma VisitCost(n: Node, nesting: int, own: int, childNesting: int)
    requires own == if IsBranch(n) then 1 + nesting
                    else if n.With? || n.AsyncWith? then 1
                    else if n.BoolOp? then |n.kids| - 1
                    else if n.IfExp? || (n.Call? && n.func.Name?) then 1
                    else 0
    requires childNesting == if IsNesting(n) then nesting + 1 else nesting
    ensures Score(n, nesting) == own + ScoreSeq(Children(n), childNesting)
  {
  }

  /** The analyzer as the source runs it: one running total and one nesting
      counter. Entering a branch or a `with` adds its cost at the current
      nesting, increments the counter and schedules a `Leave` below the
      node's children; the `Leave` decrements the counter once they are all
      scored. The counter always equals the number of pending `Leave`
      markers, and the total comes out as the recursive score. */
  method ScoreByVisiting(root: Node) returns (complexity: int)
    ensures complexity == Score(root, 0)
  {
    complexity := 0;
    var nesting := 0;
    var stack := [Enter(root)];
    assert stack[..0] == [];
    while stack != []
      invariant complexity + PendingScore(stack, nesting) == Score(root, 0)
      invariant nesting == LeaveCount(stack)
      decreases PendingSize(stack), |stack|
    {
      var top := stack[|stack| - 1];
      var rest := stack[..|stack| - 1];
      assert stack == rest + [top];
      match top
      case Leave =>
        LeaveStep(rest, nesting);
        nesting := nesting - 1;
        stack := rest;
      case Enter(n) =>
        var own := 0;
        if IsBranch(n) {
          own := 1 + nesting;
        } else if n.With? || n.AsyncWith? {
          own := 1;
        } else if n.BoolOp? {
          own := |n.kids| - 1;
        } else if n.IfExp? || (n.Call? && n.func.Name?) {
          own := 1;
        }
        complexity := complexity + own;
        if IsNesting(n) {
          EnterStep(rest, n, nesting, own, nesting + 1);
          nesting := nesting + 1;
          stack := rest + [Leave] + Enters(Children(n));
        } else {
          EnterStep(rest, n, nesting, own, nesting);
          stack := rest + Enters(Children(n));
        }
    }
  }
}

/** Worked examples: the functions of the analyzer's unit tests as syntax trees. */
module ComplexityExamples {
  import opened Syntax
  import opened Complexity

  /** `def simple(): """A simple function"""; return 42`, and every function
      like it: a docstring followed by statements without scoring constructs
      scores 0, is documented and is simple. */
  lemma DocstringOnlyFunction(doc: string, args: seq<Node>, rest: seq<Node>)
    requires InertSeq(args) && InertSeq(rest)
    ensures var r := AnalyzeFunction(FunctionDef(false, "simple", 2, args, [Expr(Str(doc))] + rest, []));
            r.complexity == 0 && r.hasDocstring && r.Severity() == Simple
  {
    var body := [Expr(Str(doc))] + rest;
    assert body[1..] == rest;
    assert Inert(Str(doc));
    assert InertSeq([Str(doc)]) by {
      assert [Str(doc)][1..] == [];
    }
    assert Inert(Expr(Str(doc)));
    ZeroCostSeq(args, 0);
    ZeroCostSeq(body, 0);
    ZeroCostSeq([], 0);
  }

  /** `def no_docs(): return 42`: a body that opens with any statement other
      than a string literal has no docstring. */
  lemma FunctionWithoutDocstring(first: Node, args: seq<Node>, rest: seq<Node>)
    requires !first.Expr? || !first.value.Str?
    ensures !AnalyzeFunction(FunctionDef(false, "no_docs", 2, args, [first] + rest, [])).hasDocstring
  {
  }

  /** An `if` whose test costs nothing scores its own 1 + depth plus its
      body one level deeper. */
  lemma InertTestIf(test: Node, body: Node, d: int)
    requires Inert(test)
    ensures Score(If([test, body]), d) == 1 + d + Score(body, d + 1)
  {
    ZeroCost(test, d + 1);
    assert [test, body][1..] == [body];
    assert ScoreSeq([body], d + 1) == Score(body, d + 1);
  }

  /** `def nested(x, y): if x > 0: if y > 0: return x + y; return 0`: an `if`
      inside an `if` scores 1 + 2 = 3, whatever the (construct-free) tests,
      statements and arguments are. */
  lemma NestedIfScoresThree(test1: Node, test2: Node, inside: Node, args: seq<Node>, after: seq<Node>)
    requires Inert(test1) && Inert(test2) && Inert(inside) && InertSeq(args) && InertSeq(after)
    ensures var def := FunctionDef(false, "nested", 2, args, [If([test1, If([test2, inside])])] + after, []);
            AnalyzeFunction(def).complexity == 3
  {
    var outer := If([test1, If([test2, inside])]);
    NestedIfScore(test1, test2, inside);
    ScoreSeqCons(outer, after, 0);
    ZeroCostSeq(args, 0);
    ZeroCostSeq(after, 0);
    PlainDefinitionScore("nested", args, [outer] + after);
  }

  lemma NestedIfScore(test1: Node, test2: Node, inside: Node)
    requires Inert(test1) && Inert(test2) && Inert(inside)
    ensures Score(If([test1, If([test2, inside])]), 0) == 3
  {
    ZeroCost(inside, 2);
    InertTestIf(test2, inside, 1);
    InertTestIf(test1, If([test2, inside]), 0);
  }

  lemma ScoreSeqCons(x: Node, rest: seq<Node>, d: int)
    ensures ScoreSeq([x] + rest, d) == Score(x, d) + ScoreSeq(rest, d)
  {
    assert ([x] + rest)[1..] == rest;
  }

  /** A synchronous, undecorated definition scores its arguments and body. */
  lemma PlainDefinitionScore(name: string, args: seq<Node>, body: seq<Node>)
    ensures AnalyzeFunction(FunctionDef(false, name, 2, args, body, [])).complexity == ScoreSeq(args, 0) + ScoreSeq(body, 0)
  {
  }

  /** A tree made only of names, string literals, expression statements and
      `Other` nodes costs nothing. */
  predicate Inert(n: Node)
    decreases Size(n), 0
  {
    SizeOfChildren(n);
    (n.Name? || n.Str? || n.Expr? || n.Other?) && InertSeq(Children(n))
  }

  predicate InertSeq(ns: seq<Node>)
    decreases SizeSeq(ns), 1
  {
    ns == [] || (Inert(ns[0]) && InertSeq(ns[1..]))
  }

  lemma ZeroCost(n: Node, d: int)
    requires Inert(n)
    ensures Score(n, d) == 0
    decreases Size(n), 0
  {
    SizeOfChildren(n);
    ZeroCostSeq(Children(n), d);
  }

  lemma ZeroCostSeq(ns: seq<Node>, d: int)
    requires InertSeq(ns)
    ensures ScoreSeq(ns, d) == 0
    decreases SizeSeq(ns), 1
  {
    if ns != [] {
      ZeroCost(ns[0], d);
      ZeroCostSeq(ns[1..], d);
    }
  }
}
