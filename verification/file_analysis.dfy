/** `ComplexityAnalyzer.analyze_file`: every function definition of a parsed
    module, in the order `ast.walk` meets them. */
module FileAnalysis {
  import opened Syntax
  import opened Complexity

  /** The outcome of `ast.parse` on a file's text. */
  datatype Parsed = SyntaxError | Module(tree: Node)

  /** `ast.walk` continued from a queue of pending nodes: breadth first, each
      node yielded as it leaves the front of the queue and its children queued
      at the back. It yields exactly as many nodes as the queued trees hold,
      and the queued nodes themselves come first, in order. */
  function Walk(queue: seq<Node>): (r: seq<Node>)
    ensures |r| == SizeSeq(queue)
    ensures |queue| <= |r| && r[..|queue|] == queue
    decreases SizeSeq(queue)
  {
    if queue == [] then []
    else
      var next := queue[1..] + Children(queue[0]);
      SizeSeqAppend(queue[1..], Children(queue[0]));
      SizeOfChildren(queue[0]);
      var rest := Walk(next);
      assert rest[..|queue| - 1] == next[..|queue| - 1] == queue[1..];
      [queue[0]] + rest
  }

  /** The function definitions among `ns`, in order. */
  function DefsIn(ns: seq<Node>): (r: seq<Node>)
    ensures |r| <= |ns|
    ensures forall k :: 0 <= k < |r| ==> r[k].FunctionDef?
    ensures forall x :: x in r <==> x in ns && x.FunctionDef?
  {
    if ns == [] then []
    else if ns[0].FunctionDef? then [ns[0]] + DefsIn(ns[1..])
    else DefsIn(ns[1..])
  }

  lemma {:induction false} DefsInAppend(a: seq<Node>, b: seq<Node>)
    ensures DefsIn(a + b) == DefsIn(a) + DefsIn(b)
  {
    if a == [] {
      assert a + b == b;
    } else {
      assert (a + b)[0] == a[0];
      assert (a + b)[1..] == a[1..] + b;
      DefsInAppend(a[1..], b);
    }
  }

  /** `analyze_function` applied to each definition in turn. */
  function AnalyzeAll(defs: seq<Node>): (r: seq<ComplexityResult>)
    requires forall k :: 0 <= k < |defs| ==> defs[k].FunctionDef?
    ensures |r| == |defs|
    ensures forall k :: 0 <= k < |defs| ==> r[k] == AnalyzeFunction(defs[k])
  {
    if defs == [] then [] else [AnalyzeFunction(defs[0])] + AnalyzeAll(defs[1..])
  }

  lemma {:induction false} AnalyzeAllAppend(a: seq<Node>, b: seq<Node>)
    requires forall k :: 0 <= k < |a| ==> a[k].FunctionDef?
    requires forall k :: 0 <= k < |b| ==> b[k].FunctionDef?
    ensures AnalyzeAll(a + b) == AnalyzeAll(a) + AnalyzeAll(b)
  {
  }

  /** `analyze_file`: nothing for a file that does not parse; otherwise one
      result per definition, nested definitions and methods included. */
  function AnalyzeFile(p: Parsed): (r: seq<ComplexityResult>)
    ensures p.SyntaxError? ==> r == []
  {
    match p
    case SyntaxError => []
    case Module(tree) => AnalyzeAll(DefsIn(Walk([tree])))
  }

  /** One step of the walk: the front node, then the walk of the rest of the
      queue with its children queued behind. */
  lemma WalkStep(queue: seq<Node>)
    requires queue != []
    ensures Walk(queue) == [queue[0]] + Walk(queue[1..] + Children(queue[0]))
  {
  }

  /** The depth-first listing of a queue, regrouped as the walk's next step sees it. */
  lemma NodesOfStep(queue: seq<Node>)
    requires queue != []
    ensures NodesSeq(queue) == [queue[0]] + NodesSeq(Children(queue[0])) + NodesSeq(queue[1..])
    ensures NodesSeq(queue[1..] + Children(queue[0])) == NodesSeq(queue[1..]) + NodesSeq(Children(queue[0]))
  {
    NodesSeqAppend(queue[1..], Children(queue[0]));
    assert Nodes(queue[0]) == [queue[0]] + NodesSeq(Children(queue[0]));
  }

  lemma {:induction false} WalkPermutesNodes(queue: seq<Node>)
    ensures multiset(Walk(queue)) == multiset(NodesSeq(queue))
    decreases SizeSeq(queue)
  {
    if queue != [] {
      var next := queue[1..] + Children(queue[0]);
      SizeSeqAppend(queue[1..], Children(queue[0]));
      SizeOfChildren(queue[0]);
      WalkPermutesNodes(next);
      WalkStep(queue);
      NodesOfStep(queue);
    }
  }

  lemma {:induction false} WalkPermutesDefs(queue: seq<Node>)
    ensures multiset(DefsIn(Walk(queue))) == multiset(DefsIn(NodesSeq(queue)))
    decreases SizeSeq(queue)
  {
    if queue != [] {
      var first, kids := queue[0], Children(queue[0]);
      var next := queue[1..] + kids;
      SizeSeqAppend(queue[1..], kids);
      SizeOfChildren(first);
      WalkPermutesDefs(next);
      WalkStep(queue);
      NodesOfStep(queue);
      DefsInAppend([first], Walk(next));
      DefsInAppend(NodesSeq(queue[1..]), NodesSeq(kids));
      DefsInAppend([first] + NodesSeq(kids), NodesSeq(queue[1..]));
      DefsInAppend([first], NodesSeq(kids));
    }
  }

  /** The walk yields every node of the queued trees exactly once, and so every
      definition exactly once. */
  lemma WalkVisitsEveryNodeOnce(queue: seq<Node>)
    ensures multiset(Walk(queue)) == multiset(NodesSeq(queue))
    ensures multiset(DefsIn(Walk(queue))) == multiset(DefsIn(NodesSeq(queue)))
  {
    WalkPermutesNodes(queue);
    WalkPermutesDefs(queue);
  }

  /** `analyze_file` reports every definition of the module, nested ones and
      methods included, and reports each exactly once. */
  lemma AnalyzeFileReportsEveryDef(tree: Node)
    ensures |AnalyzeFile(Module(tree))| == |DefsIn(Nodes(tree))|
    ensures forall d :: d in Nodes(tree) && d.FunctionDef? ==> AnalyzeFunction(d) in AnalyzeFile(Module(tree))
  {
    WalkVisitsEveryNodeOnce([tree]);
    assert [tree][1..] == [];
    assert NodesSeq([tree]) == Nodes(tree);
    var walked := DefsIn(Walk([tree]));
    assert |walked| == |multiset(walked)| == |multiset(DefsIn(Nodes(tree)))| == |DefsIn(Nodes(tree))|;
    forall d | d in Nodes(tree) && d.FunctionDef?
      ensures AnalyzeFunction(d) in AnalyzeFile(Module(tree))
    {
      assert d in DefsIn(Nodes(tree));
      assert d in multiset(walked);
      var k :| 0 <= k < |walked| && walked[k] == d;
      assert AnalyzeFile(Module(tree))[k] == AnalyzeFunction(d);
    }
  }

  /** Breadth-first order: the module's own top-level definitions are reported
      first, in source order, before any method or nested definition. */
  lemma TopLevelDefsComeFirst(body: seq<Node>)
    ensures var r := AnalyzeFile(Module(Other(body)));
            var top := AnalyzeAll(DefsIn(body));
            |top| <= |r| && r[..|top|] == top
  {
    var m := Other(body);
    SizeOfChildren(m);
    assert Walk([m]) == [m] + Walk(body) by {
      assert [m][1..] + Children(m) == body;
    }
    var w := Walk(body);
    assert w == body + w[|body|..];
    DefsInAppend([m], w);
    DefsInAppend(body, w[|body|..]);
    AnalyzeAllAppend(DefsIn(body), DefsIn(w[|body|..]));
  }
}
