/** Python syntax trees as both complexity analyzers see them: a node kind and the nodes that
    `ast.iter_child_nodes` yields, in order.  The children of a BoolOp are its operator followed by
    its values. */
module PyAst {
  datatype Kind =
    | If | For | AsyncFor | While | With | AsyncWith | Try
    | BoolOp | ExceptHandler | FunctionDef | AsyncFunctionDef | ClassDef | Other

  datatype Node = Node(kind: Kind, children: seq<Node>)

  const DECISIONS: set<Kind> := {If, While, For, AsyncFor}

  /** `len(node.values) - 1` of a BoolOp. */
  function ExtraOperands(n: Node): int {
    |n.children| - 2
  }

  // Each measure below is defined on a forest, so that it is additive over the child subtrees.

  function Size(ns: seq<Node>): nat {
    if ns == [] then 0 else 1 + Size(ns[0].children) + Size(ns[1..])
  }

  function Preorder(ns: seq<Node>): seq<Node> {
    if ns == [] then [] else [ns[0]] + Preorder(ns[0].children) + Preorder(ns[1..])
  }

  /** What one node adds to cyclomatic complexity. */
  function Decision(n: Node): int {
    if n.kind in DECISIONS || n.kind == ExceptHandler then 1
    else if n.kind == BoolOp then ExtraOperands(n)
    else 0
  }

  /** Decisions of a forest, by structural recursion. */
  function Decisions(ns: seq<Node>): int {
    if ns == [] then 0 else Decision(ns[0]) + Decisions(ns[0].children) + Decisions(ns[1..])
  }

  function BoolOperands(ns: seq<Node>): int {
    if ns == [] then 0
    else (if ns[0].kind == BoolOp then ExtraOperands(ns[0]) else 0)
         + BoolOperands(ns[0].children) + BoolOperands(ns[1..])
  }

  /** How many nodes of a forest have one of the given kinds. */
  function Count(kinds: set<Kind>, ns: seq<Node>): nat {
    if ns == [] then 0
    else (if ns[0].kind in kinds then 1 else 0) + Count(kinds, ns[0].children) + Count(kinds, ns[1..])
  }

  /** Greatest number of nodes of the given kinds on a downward path. */
  function Nesting(kinds: set<Kind>, ns: seq<Node>): nat {
    if ns == [] then 0
    else
      var first := (if ns[0].kind in kinds then 1 else 0) + Nesting(kinds, ns[0].children);
      var rest := Nesting(kinds, ns[1..]);
      if first >= rest then first else rest
  }

  /** Preorder list of the nesting levels of the nodes of the given kinds: 1 for an outermost one in
      a forest at level 0. */
  function Levels(kinds: set<Kind>, ns: seq<Node>, level: nat): seq<nat> {
    if ns == [] then []
    else
      (if ns[0].kind in kinds then [level + 1] + Levels(kinds, ns[0].children, level + 1)
       else Levels(kinds, ns[0].children, level))
      + Levels(kinds, ns[1..], level)
  }

  function Total(xs: seq<nat>): nat {
    if xs == [] then 0 else xs[0] + Total(xs[1..])
  }

  /** Breadth-first order: `ast.walk` takes from the left of its queue and appends the children. */
  function BreadthFirst(todo: seq<Node>): seq<Node>
    decreases Size(todo)
  {
    if todo == [] then []
    else
      SizeAppend(todo[1..], todo[0].children);
      [todo[0]] + BreadthFirst(todo[1..] + todo[0].children)
  }

  function DecisionTotal(ns: seq<Node>): int {
    if ns == [] then 0 else Decision(ns[0]) + DecisionTotal(ns[1..])
  }

  function KindTotal(kinds: set<Kind>, ns: seq<Node>): nat {
    if ns == [] then 0 else (if ns[0].kind in kinds then 1 else 0) + KindTotal(kinds, ns[1..])
  }

  /** A chain of values joined by one boolean operator adds one less than it has values. */
  lemma ChainAdds(op: Node, values: seq<Node>)
    ensures Decision(Node(BoolOp, [op] + values)) == |values| - 1
  {
  }

  // ---------------------------------------------------------------- the worklist walk

  lemma {:induction false} SizeAppend(a: seq<Node>, b: seq<Node>)
    ensures Size(a + b) == Size(a) + Size(b)
  {
    if a == [] {
      assert a + b == b;
    } else {
      assert (a + b)[1..] == a[1..] + b;
      SizeAppend(a[1..], b);
    }
  }

  lemma {:induction false} MeasuresAppend(kinds: set<Kind>, a: seq<Node>, b: seq<Node>)
    ensures Decisions(a + b) == Decisions(a) + Decisions(b)
    ensures Count(kinds, a + b) == Count(kinds, a) + Count(kinds, b)
    ensures Preorder(a + b) == Preorder(a) + Preorder(b)
  {
    if a == [] {
      assert a + b == b;
    } else {
      assert (a + b)[1..] == a[1..] + b;
      MeasuresAppend(kinds, a[1..], b);
    }
  }

  method Walk(node: Node) returns (visited: seq<Node>)
    ensures visited == BreadthFirst([node])
  {
    var todo := [node];
    visited := [];
    while todo != []
      invariant BreadthFirst([node]) == visited + BreadthFirst(todo)
      decreases Size(todo)
    {
      var next := todo[0];
      SizeAppend(todo[1..], next.children);
      todo := todo[1..] + next.children;
      visited := visited + [next];
    }
  }

  /** The walk visits every node of the tree exactly once. */
  lemma {:induction false} WalkVisitsOnce(ns: seq<Node>)
    ensures multiset(BreadthFirst(ns)) == multiset(Preorder(ns))
    ensures |BreadthFirst(ns)| == Size(ns)
    decreases Size(ns)
  {
    if ns != [] {
      var rest := ns[1..] + ns[0].children;
      SizeAppend(ns[1..], ns[0].children);
      MeasuresAppend({}, ns[1..], ns[0].children);
      WalkVisitsOnce(rest);
    }
  }

  /** Adding up along the walk is the structural recursion. */
  lemma {:induction false} WalkTotals(kinds: set<Kind>, ns: seq<Node>)
    ensures DecisionTotal(BreadthFirst(ns)) == Decisions(ns)
    ensures KindTotal(kinds, BreadthFirst(ns)) == Count(kinds, ns)
    decreases Size(ns)
  {
    if ns != [] {
      var rest := ns[1..] + ns[0].children;
      SizeAppend(ns[1..], ns[0].children);
      MeasuresAppend(kinds, ns[1..], ns[0].children);
      WalkTotals(kinds, rest);
      assert BreadthFirst(ns)[1..] == BreadthFirst(rest);
    }
  }

  // ---------------------------------------------------------------- the measures, said without recursion on trees

  /** Reached from the forest: one of its trees, or a child of a node reached.  The walk reaches all. */
  lemma {:induction false} WalkIsClosed(ns: seq<Node>)
    ensures forall n :: n in ns ==> n in BreadthFirst(ns)
    ensures forall n, c :: n in BreadthFirst(ns) && c in n.children ==> c in BreadthFirst(ns)
    decreases Size(ns)
  {
    if ns != [] {
      var rest := ns[1..] + ns[0].children;
      SizeAppend(ns[1..], ns[0].children);
      WalkIsClosed(rest);
      assert forall n :: n in ns ==> n == ns[0] || n in rest;
    }
  }

  /** A count is the number of places in the list. */
  lemma KindTotalIsCardinality(kinds: set<Kind>, ns: seq<Node>)
    ensures KindTotal(kinds, ns) == |set i | 0 <= i < |ns| && ns[i].kind in kinds|
  {
    PlacesUpTo(kinds, ns, |ns|);
    assert ns[..|ns|] == ns;
  }

  lemma {:induction false} PlacesUpTo(kinds: set<Kind>, ns: seq<Node>, k: nat)
    requires k <= |ns|
    ensures KindTotal(kinds, ns[..k]) == |set i | 0 <= i < k && ns[i].kind in kinds|
    decreases k
  {
    var places := set i | 0 <= i < k && ns[i].kind in kinds;
    if k == 0 {
      assert places == {};
    } else {
      var before := set i | 0 <= i < k - 1 && ns[i].kind in kinds;
      PlacesUpTo(kinds, ns, k - 1);
      KindTotalLast(kinds, ns[..k - 1], ns[k - 1]);
      assert ns[..k] == ns[..k - 1] + [ns[k - 1]];
      assert places == if ns[k - 1].kind in kinds then before + {k - 1} else before;
    }
  }

  lemma {:induction false} KindTotalLast(kinds: set<Kind>, ns: seq<Node>, last: Node)
    ensures KindTotal(kinds, ns + [last]) == KindTotal(kinds, ns) + if last.kind in kinds then 1 else 0
  {
    if ns == [] {
      assert ns + [last] == [last];
    } else {
      assert (ns + [last])[1..] == ns[1..] + [last];
      KindTotalLast(kinds, ns[1..], last);
    }
  }

  /** What complexity counts: branches, loops and handlers, and one per operator of a boolean chain. */
  lemma {:induction false} DecisionsAreCounts(ns: seq<Node>)
    ensures Decisions(ns) == Count({If, While, For, AsyncFor, ExceptHandler}, ns) + BoolOperands(ns)
  {
    if ns != [] {
      DecisionsAreCounts(ns[0].children);
      DecisionsAreCounts(ns[1..]);
    }
  }

  /** A downward path: a tree of the forest, then a child, then a child of that, and so on. */
  predicate IsPath(ns: seq<Node>, path: seq<Node>) {
    path == [] || (path[0] in ns && IsPath(path[0].children, path[1..]))
  }

  /** Nesting is the greatest number of nodes of the kinds on a downward path. */
  lemma {:induction false} NestingIsDeepestPath(kinds: set<Kind>, ns: seq<Node>)
    ensures exists path :: IsPath(ns, path) && KindTotal(kinds, path) == Nesting(kinds, ns)
    ensures forall path :: IsPath(ns, path) ==> KindTotal(kinds, path) <= Nesting(kinds, ns)
  {
    var path := DeepestPath(kinds, ns);
    forall path | IsPath(ns, path)
      ensures KindTotal(kinds, path) <= Nesting(kinds, ns)
    {
      PathBounded(kinds, ns, path);
    }
  }

  lemma {:induction false} DeepestPath(kinds: set<Kind>, ns: seq<Node>) returns (path: seq<Node>)
    ensures IsPath(ns, path) && KindTotal(kinds, path) == Nesting(kinds, ns)
  {
    path := [];
    if ns != [] {
      var below := DeepestPath(kinds, ns[0].children);
      var beside := DeepestPath(kinds, ns[1..]);
      path := [ns[0]] + below;
      assert path[1..] == below;
      if KindTotal(kinds, path) < KindTotal(kinds, beside) {
        path := beside;
      }
    }
  }

  lemma {:induction false} PathBounded(kinds: set<Kind>, ns: seq<Node>, path: seq<Node>)
    requires IsPath(ns, path)
    ensures KindTotal(kinds, path) <= Nesting(kinds, ns)
    decreases path
  {
    if path != [] {
      var i :| 0 <= i < |ns| && ns[i] == path[0];
      PathBounded(kinds, ns[i].children, path[1..]);
      NestingOfMember(kinds, ns, i);
    }
  }

  lemma {:induction false} NestingOfMember(kinds: set<Kind>, ns: seq<Node>, i: nat)
    requires i < |ns|
    ensures (if ns[i].kind in kinds then 1 else 0) + Nesting(kinds, ns[i].children) <= Nesting(kinds, ns)
  {
    if i > 0 {
      NestingOfMember(kinds, ns[1..], i - 1);
    }
  }

  /** For every node of the kinds, how many nodes of the kinds its tree holds, itself included. */
  function HeldBelow(kinds: set<Kind>, ns: seq<Node>): nat {
    if ns == [] then 0
    else
      (if ns[0].kind in kinds then 1 + Count(kinds, ns[0].children) else 0)
      + HeldBelow(kinds, ns[0].children) + HeldBelow(kinds, ns[1..])
  }
}
