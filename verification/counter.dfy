/** `CounterVisitor.LocalVarCounter`: the visitor the code generator runs over
    a method's subtree to size its frame. */
module Counter {

  /** The node kinds the counter can tell apart: a declaration statement
      (`int a, b[];` is one such node), one declared name inside it, and every
      other node of the syntax tree. */
  datatype NodeKind = VarDeclNode | VarNameNode(name: string) | OtherNode

  /** A syntax-tree node with its children in source order. */
  datatype Node = Node(kind: NodeKind, children: seq<Node>)

  /** The visitor's state: the inherited `count` field. */
  datatype LocalVarCounter = LocalVarCounter(count: nat)

  /** A freshly constructed counter. */
  function New(): (c: LocalVarCounter)
    ensures c.count == 0
  {
    LocalVarCounter(0)
  }

  /** One `visit`: only the `VarDecl` overload is overridden. */
  function Visit(c: LocalVarCounter, n: Node): (r: LocalVarCounter)
    ensures n.kind == VarDeclNode ==> r.count == c.count + 1
    ensures n.kind != VarDeclNode ==> r == c
  {
    if n.kind == VarDeclNode then LocalVarCounter(c.count + 1) else c
  }

  /** `traverseTopDown`: visit a node, then its children left to right. */
  function TraverseTopDown(c: LocalVarCounter, n: Node): (r: LocalVarCounter)
    decreases n, 1
  {
    TraverseChildren(Visit(c, n), n.children)
  }

  function TraverseChildren(c: LocalVarCounter, ns: seq<Node>): (r: LocalVarCounter)
    decreases ns, 0
  {
    if |ns| == 0 then c else TraverseChildren(TraverseTopDown(c, ns[0]), ns[1..])
  }

  /** `getCount` after a fresh counter has traversed `n`. */
  function CountVarDecls(n: Node): (k: nat)
  {
    TraverseTopDown(New(), n).count
  }

  // ---------------------------------------------------------------- reference

  /** Every node of the subtree in the order a top-down traversal meets them. */
  function Preorder(n: Node): (s: seq<Node>)
    ensures |s| >= 1 && s[0] == n
    decreases n, 1
  {
    [n] + PreorderAll(n.children)
  }

  function PreorderAll(ns: seq<Node>): (s: seq<Node>)
    decreases ns, 0
  {
    if |ns| == 0 then [] else Preorder(ns[0]) + PreorderAll(ns[1..])
  }

  /** The two node tests the counters use. */
  datatype Test = IsVarDecl | IsVarName

  predicate Matches(p: Test, n: Node)
  {
    match p
    case IsVarDecl => n.kind == VarDeclNode
    case IsVarName => n.kind.VarNameNode?
  }

  /** How many nodes of `s` pass test `p`. */
  function CountWhere(s: seq<Node>, p: Test): (k: nat)
    ensures k <= |s|
  {
    if |s| == 0 then 0 else CountWhere(s[..|s| - 1], p) + (if Matches(p, s[|s| - 1]) then 1 else 0)
  }

  lemma {:induction false} CountWhereAppend(s: seq<Node>, t: seq<Node>, p: Test)
    ensures CountWhere(s + t, p) == CountWhere(s, p) + CountWhere(t, p)
    decreases |t|
  {
    if |t| == 0 {
      assert s + t == s;
    } else {
      assert (s + t)[..|s + t| - 1] == s + t[..|t| - 1];
      CountWhereAppend(s, t[..|t| - 1], p);
    }
  }

  /** The traversal adds one for each `VarDecl` node it meets, and nothing for
      any other node. */
  lemma {:induction false} TraverseCounts(c: LocalVarCounter, n: Node)
    ensures TraverseTopDown(c, n).count == c.count + CountWhere(Preorder(n), IsVarDecl)
    decreases n, 1
  {
    TraverseChildrenCounts(Visit(c, n), n.children);
    CountWhereAppend([n], PreorderAll(n.children), IsVarDecl);
    assert CountWhere([n], IsVarDecl) == CountWhere([], IsVarDecl) + (if Matches(IsVarDecl, n) then 1 else 0);
  }

  lemma {:induction false} TraverseChildrenCounts(c: LocalVarCounter, ns: seq<Node>)
    ensures TraverseChildren(c, ns).count == c.count + CountWhere(PreorderAll(ns), IsVarDecl)
    decreases ns, 0
  {
    if |ns| > 0 {
      TraverseCounts(c, ns[0]);
      TraverseChildrenCounts(TraverseTopDown(c, ns[0]), ns[1..]);
      CountWhereAppend(Preorder(ns[0]), PreorderAll(ns[1..]), IsVarDecl);
    }
  }

  /** `getCount` after a full traversal is the number of `VarDecl` nodes in the
      subtree, whatever else it holds. */
  lemma CountIsVarDeclNodes(n: Node)
    ensures CountVarDecls(n) == CountWhere(Preorder(n), IsVarDecl)
  {
    TraverseCounts(New(), n);
  }

  // ---------------------------------------------------------------- frame size

  /** The number of local variables a method declares: one per declared
      name. */
  function LocalNames(n: Node): (k: nat)
  {
    CountWhere(Preorder(n), IsVarName)
  }

  /** `int a, b;` inside a method body: one declaration node holding two
      names. */
  function TwoNamesOneDecl(): (n: Node)
  {
    Node(OtherNode, [Node(VarDeclNode, [Node(OtherNode, []), Node(VarNameNode("a"), []), Node(VarNameNode("b"), [])])])
  }

  /** The frame size the code generator uses is the node count, which falls
      short of the number of locals as soon as one declaration lists two
      names. */
  lemma FrameTooSmall()
    ensures CountVarDecls(TwoNamesOneDecl()) == 1
    ensures LocalNames(TwoNamesOneDecl()) == 2
  {
    var n := TwoNamesOneDecl();
    CountIsVarDeclNodes(n);
    var d := n.children[0];
    var c0, c1, c2 := d.children[0], d.children[1], d.children[2];
    assert PreorderAll(d.children) == d.children by {
      assert PreorderAll(d.children[2..]) == [c2];
      assert PreorderAll(d.children[1..]) == d.children[1..];
    }
    assert Preorder(n) == [n] + ([d] + ([c0] + ([c1] + [c2]))) by {
      assert PreorderAll(n.children) == Preorder(d);
    }
    forall p: Test
      ensures CountWhere(Preorder(n), p) == CountWhere([n], p) + CountWhere([d], p)
                + CountWhere([c0], p) + CountWhere([c1], p) + CountWhere([c2], p)
    {
      CountWhereAppend([c1], [c2], p);
      CountWhereAppend([c0], [c1] + [c2], p);
      CountWhereAppend([d], [c0] + ([c1] + [c2]), p);
      CountWhereAppend([n], [d] + ([c0] + ([c1] + [c2])), p);
    }
    assert CountWhere([c1], IsVarName) == CountWhere([], IsVarName) + 1;
    assert CountWhere([c2], IsVarName) == CountWhere([], IsVarName) + 1;
  }

  /** The frame size as intended: a counter that visits declared names. */
  function CountLocalNames(c: LocalVarCounter, n: Node): (r: LocalVarCounter)
    decreases n, 1
  {
    CountNamesIn(if Matches(IsVarName, n) then LocalVarCounter(c.count + 1) else c, n.children)
  }

  function CountNamesIn(c: LocalVarCounter, ns: seq<Node>): (r: LocalVarCounter)
    decreases ns, 0
  {
    if |ns| == 0 then c else CountNamesIn(CountLocalNames(c, ns[0]), ns[1..])
  }

  lemma {:induction false} CountLocalNamesCounts(c: LocalVarCounter, n: Node)
    ensures CountLocalNames(c, n).count == c.count + CountWhere(Preorder(n), IsVarName)
    decreases n, 1
  {
    CountNamesInCounts(if Matches(IsVarName, n) then LocalVarCounter(c.count + 1) else c, n.children);
    CountWhereAppend([n], PreorderAll(n.children), IsVarName);
    assert CountWhere([n], IsVarName) == CountWhere([], IsVarName) + (if Matches(IsVarName, n) then 1 else 0);
  }

  lemma {:induction false} CountNamesInCounts(c: LocalVarCounter, ns: seq<Node>)
    ensures CountNamesIn(c, ns).count == c.count + CountWhere(PreorderAll(ns), IsVarName)
    decreases ns, 0
  {
    if |ns| > 0 {
      CountLocalNamesCounts(c, ns[0]);
      CountNamesInCounts(CountLocalNames(c, ns[0]), ns[1..]);
      CountWhereAppend(Preorder(ns[0]), PreorderAll(ns[1..]), IsVarName);
    }
  }

  /** The corrected frame size: exactly one slot per declared local. */
  function FrameSize(n: Node): (k: nat)
    ensures k == LocalNames(n)
  {
    CountLocalNamesCounts(New(), n);
    CountLocalNames(New(), n).count
  }
}
