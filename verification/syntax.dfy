/** The part of Python's `ast` that the complexity scorer tells apart. */
module Syntax {

  /** A Python syntax-tree node. `kids` holds a node's children in the order
      `ast.iter_child_nodes` yields them (for an `If`: the test, the body, the
      `else`/`elif` block). A `BoolOp` lists only its operand expressions: its
      operator child is a leaf that scores nothing and holds no definitions.
      Every other node kind (`Try`, `ClassDef`, `Return`, `Compare`, `Attribute`,
      `Lambda`, ...) is an `Other` with its children. */
  datatype Node =
    | If(kids: seq<Node>)
    | While(kids: seq<Node>)
    | For(kids: seq<Node>)
    | AsyncFor(kids: seq<Node>)
    | ExceptHandler(kids: seq<Node>)
    | With(kids: seq<Node>)
    | AsyncWith(kids: seq<Node>)
    | BoolOp(kids: seq<Node>)
    | IfExp(kids: seq<Node>)
    | Call(func: Node, kids: seq<Node>)
    | Name(id: string)
    | Str(text: string)
    | Expr(value: Node)
    | FunctionDef(isAsync: bool, name: string, line: int,
                  signature: seq<Node>, body: seq<Node>, trailing: seq<Node>)
    | Other(kids: seq<Node>)

  /** `ast.iter_child_nodes`: a call's callee comes before its arguments; a
      definition's arguments come before its body, and its decorators and
      return annotation (`trailing`) after it. */
  function Children(n: Node): seq<Node>
  {
    match n
    case Call(func, args) => [func] + args
    case Name(_) => []
    case Str(_) => []
    case Expr(value) => [value]
    case FunctionDef(_, _, _, signature, body, trailing) => signature + body + trailing
    case _ => n.kids
  }

  /** The number of nodes in the tree rooted at `n`. */
  function Size(n: Node): (r: nat)
    ensures r >= 1
  {
    match n
    case Call(func, args) => 1 + Size(func) + SizeSeq(args)
    case Name(_) => 1
    case Str(_) => 1
    case Expr(value) => 1 + Size(value)
    case FunctionDef(_, _, _, signature, body, trailing) =>
      1 + SizeSeq(signature) + SizeSeq(body) + SizeSeq(trailing)
    case _ => 1 + SizeSeq(n.kids)
  }

  function SizeSeq(ns: seq<Node>): (r: nat)
    ensures r >= |ns|
  {
    if ns == [] then 0 else Size(ns[0]) + SizeSeq(ns[1..])
  }

  lemma {:induction false} SizeSeqAppend(a: seq<Node>, b: seq<Node>)
    ensures SizeSeq(a + b) == SizeSeq(a) + SizeSeq(b)
  {
    if a == [] {
      assert a + b == b;
    } else {
      assert (a + b)[0] == a[0];
      assert (a + b)[1..] == a[1..] + b;
      SizeSeqAppend(a[1..], b);
    }
  }

  lemma SizeOfChildren(n: Node)
    ensures Size(n) == 1 + SizeSeq(Children(n))
  {
    match n
    case Call(func, args) =>
      SizeSeqAppend([func], args);
      assert SizeSeq([func]) == Size(func) by {
        assert [func][1..] == [];
      }
    case Name(_) =>
    case Str(_) =>
    case Expr(value) =>
      assert [value][1..] == [];
    case FunctionDef(_, _, _, signature, body, trailing) =>
      SizeSeqAppend(signature + body, trailing);
      SizeSeqAppend(signature, body);
    case _ =>
  }

  /** Every node of the tree, depth first and parent before children. */
  function Nodes(n: Node): (r: seq<Node>)
    ensures |r| == Size(n)
    ensures r != [] && r[0] == n
    decreases Size(n), 0
  {
    SizeOfChildren(n);
    [n] + NodesSeq(Children(n))
  }

  function NodesSeq(ns: seq<Node>): (r: seq<Node>)
    ensures |r| == SizeSeq(ns)
    decreases SizeSeq(ns), 1
  {
    if ns == [] then [] else Nodes(ns[0]) + NodesSeq(ns[1..])
  }

  lemma {:induction false} NodesSeqAppend(a: seq<Node>, b: seq<Node>)
    ensures NodesSeq(a + b) == NodesSeq(a) + NodesSeq(b)
  {
    if a == [] {
      assert a + b == b;
    } else {
      assert (a + b)[0] == a[0];
      assert (a + b)[1..] == a[1..] + b;
      NodesSeqAppend(a[1..], b);
    }
  }

  /** Python guarantees a `BoolOp` has at least two operands; the scorer relies on it. */
  predicate WellFormed(n: Node)
    decreases Size(n), 0
  {
    SizeOfChildren(n);
    (n.BoolOp? ==> |n.kids| >= 2) && WellFormedSeq(Children(n))
  }

  predicate WellFormedSeq(ns: seq<Node>)
    decreases SizeSeq(ns), 1
  {
    ns == [] || (WellFormed(ns[0]) && WellFormedSeq(ns[1..]))
  }

  lemma {:induction false} WellFormedSeqAppend(a: seq<Node>, b: seq<Node>)
    ensures WellFormedSeq(a + b) <==> WellFormedSeq(a) && WellFormedSeq(b)
  {
    if a == [] {
      assert a + b == b;
    } else {
      assert (a + b)[0] == a[0];
      assert (a + b)[1..] == a[1..] + b;
      WellFormedSeqAppend(a[1..], b);
    }
  }

  /** The statements whose cost grows with nesting depth: `if`, `while`, `for`,
      `async for` and `except` clauses. */
  predicate IsBranch(n: Node)
  {
    n.If? || n.While? || n.For? || n.AsyncFor? || n.ExceptHandler?
  }

  /** The constructs that open a deeper nesting level for their children:
      the branches above and `with`/`async with` blocks. */
  predicate IsNesting(n: Node)
  {
    IsBranch(n) || n.With? || n.AsyncWith?
  }

  /** The number of branch nodes in the tree rooted at `n`. */
  function Branches(n: Node): nat
    decreases Size(n), 0
  {
    SizeOfChildren(n);
    (if IsBranch(n) then 1 else 0) + BranchesSeq(Children(n))
  }

  function BranchesSeq(ns: seq<Node>): nat
    decreases SizeSeq(ns), 1
  {
    if ns == [] then 0 else Branches(ns[0]) + BranchesSeq(ns[1..])
  }

  lemma {:induction false} BranchesSeqAppend(a: seq<Node>, b: seq<Node>)
    ensures BranchesSeq(a + b) == BranchesSeq(a) + BranchesSeq(b)
  {
    if a == [] {
      assert a + b == b;
    } else {
      assert (a + b)[0] == a[0];
      assert (a + b)[1..] == a[1..] + b;
      BranchesSeqAppend(a[1..], b);
    }
  }
}
