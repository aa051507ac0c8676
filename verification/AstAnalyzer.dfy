/** The per-function metrics of framework/analyzers/ast_analyzer.py, and how they compare with the
    module-level metrics of `NativeMetrics`, which measure the same trees. */
module AstAnalyzer {
  import opened PyAst
  import opened NativeMetrics

  /** The kinds `cognitive_walk` charges and deepens on. */
  const COGNITIVE: set<Kind> := {If, For, While, Try}

  /** The kinds `depth_walk` deepens on. */
  const NESTED: set<Kind> := {If, For, While, Try, With}

  method CalculateComplexity(node: Node) returns (complexity: int)
    ensures complexity == 1 + Decisions([node])
    ensures complexity == 1 + Count({If, While, For, AsyncFor, ExceptHandler}, [node]) + BoolOperands([node])
  {
    complexity := 1;
    var nodes := Walk(node);
    var i := 0;
    while i < |nodes|
      invariant 0 <= i <= |nodes|
      invariant complexity + DecisionTotal(nodes[i..]) == 1 + DecisionTotal(nodes)
    {
      var child := nodes[i];
      assert nodes[i..][1..] == nodes[i + 1..];
      if child.kind in {If, While, For, AsyncFor} {
        complexity := complexity + 1;
      } else if child.kind == BoolOp {
        complexity := complexity + ExtraOperands(child);
      } else if child.kind == ExceptHandler {
        complexity := complexity + 1;
      }
      i := i + 1;
    }
    WalkTotals({}, [node]);
    DecisionsAreCounts([node]);
  }

  /** `cognitive_walk` on one node: its own charge, then each child, one deeper if the child nests. */
  function NodeScore(n: Node, depth: nat): int {
    (if n.kind in COGNITIVE then 1 + depth else if n.kind == BoolOp then ExtraOperands(n) else 0)
    + ChildScores(n.children, depth)
  }

  function ChildScores(ns: seq<Node>, depth: nat): int {
    if ns == [] then 0
    else NodeScore(ns[0], if ns[0].kind in COGNITIVE then depth + 1 else depth) + ChildScores(ns[1..], depth)
  }

  method CognitiveWalk(node: Node, depth: nat) returns (score: int)
    ensures score == NodeScore(node, depth)
    decreases node
  {
    score := 0;
    if node.kind in COGNITIVE {
      score := score + 1 + depth;
    } else if node.kind == BoolOp {
      score := score + ExtraOperands(node);
    }
    var i := 0;
    while i < |node.children|
      invariant 0 <= i <= |node.children|
      invariant score + ChildScores(node.children[i..], depth) == NodeScore(node, depth)
    {
      var child := node.children[i];
      assert node.children[i..][1..] == node.children[i + 1..];
      var below := CognitiveWalk(child, if child.kind in COGNITIVE then depth + 1 else depth);
      score := score + below;
      i := i + 1;
    }
  }

  method CalculateCognitiveComplexity(node: Node) returns (score: int)
    ensures score == NodeScore(node, 0)
  {
    score := CognitiveWalk(node, 0);
  }

  method DepthWalk(node: Node, currentDepth: nat) returns (maxDepth: nat)
    ensures maxDepth == currentDepth + Nesting(NESTED, node.children)
    decreases node
  {
    maxDepth := currentDepth;
    var i := 0;
    while i < |node.children|
      invariant 0 <= i <= |node.children|
      invariant maxDepth >= currentDepth
      invariant Max(maxDepth, currentDepth + Nesting(NESTED, node.children[i..]))
             == currentDepth + Nesting(NESTED, node.children)
    {
      var child := node.children[i];
      assert node.children[i..][1..] == node.children[i + 1..];
      var childDepth := DepthWalk(child, if child.kind in NESTED then currentDepth + 1 else currentDepth);
      maxDepth := if maxDepth >= childDepth then maxDepth else childDepth;
      i := i + 1;
    }
  }

  method CalculateNestedDepth(node: Node) returns (maxDepth: nat)
    ensures maxDepth == Nesting({If, For, While, Try, With}, node.children)
  {
    maxDepth := DepthWalk(node, 0);
  }

  // ---------------------------------------------------------------- comparison with the native metrics

  /** On any forest: every charged node costs one more than its level, and BoolOps come on top. */
  lemma {:induction false} ChildScoresAreLevels(ns: seq<Node>, depth: nat)
    ensures var charged := {If, For, While, Try};
            ChildScores(ns, depth) == Total(Levels(charged, ns, depth)) + Count(charged, ns) + BoolOperands(ns)
  {
    if ns != [] {
      LevelsTotal(COGNITIVE, ns, depth);
      ChildScoresAreLevels(ns[1..], depth);
      ChildScoresAreLevels(ns[0].children, if ns[0].kind in COGNITIVE then depth + 1 else depth);
    }
  }

  /** Counting more kinds and starting deeper never costs less, and costs strictly more as soon as
      one node of an extra kind occurs. */
  lemma {:induction false} MoreKindsCostMore(few: set<Kind>, many: set<Kind>, ns: seq<Node>, d: nat, e: nat)
    requires few <= many && d <= e
    ensures Count(few, ns) + Count(many - few, ns) == Count(many, ns)
    ensures Count(many - few, ns) == 0 && d == e ==> Total(Levels(few, ns, d)) == Total(Levels(many, ns, e))
    ensures Total(Levels(few, ns, d)) + Count(many - few, ns) <= Total(Levels(many, ns, e))
  {
    if ns != [] {
      LevelsTotal(few, ns, d);
      LevelsTotal(many, ns, e);
      MoreKindsCostMore(few, many, ns[1..], d, e);
      var d', e' := if ns[0].kind in few then d + 1 else d, if ns[0].kind in many then e + 1 else e;
      MoreKindsCostMore(few, many, ns[0].children, d', e');
    }
  }

  /** The two cognitive scores differ by exactly one per nesting node plus the extra operands, for a
      root that is not itself charged (a function), precisely when no With, AsyncWith or AsyncFor
      occurs below it; otherwise the native score is the larger side. */
  lemma CognitiveScoresCompared(root: Node)
    requires root.kind !in COGNITIVE
    ensures var native := Total(Levels(NESTING, root.children, 0));
            var corrected := native + Count(NESTING, root.children) + BoolOperands([root]);
            && (NodeScore(root, 0) == corrected <==> Count({With, AsyncWith, AsyncFor}, root.children) == 0)
            && NodeScore(root, 0) <= corrected
  {
    ChildScoresAreLevels(root.children, 0);
    ExtraKinds();
    MoreKindsCostMore(COGNITIVE, NESTING, root.children, 0, 0);
  }

  lemma ExtraKinds()
    ensures COGNITIVE <= NESTING && NESTING - COGNITIVE == {With, AsyncWith, AsyncFor}
  {
  }

  /** The two nesting depths agree when no AsyncFor or AsyncWith occurs below the root, and the native
      one is never the smaller. */
  lemma {:induction false} NestingDepthsCompared(ns: seq<Node>)
    ensures Count({AsyncFor, AsyncWith}, ns) == 0 ==> Nesting(NESTED, ns) == Nesting(NESTING, ns)
    ensures Nesting(NESTED, ns) <= Nesting(NESTING, ns)
  {
    if ns != [] {
      NestingDepthsCompared(ns[0].children);
      NestingDepthsCompared(ns[1..]);
    }
  }

  /** Sum, over a list of trees, of what each scores on its own, less one. */
  function ScoresLessOne(ns: seq<Node>): int {
    if ns == [] then 0 else Decisions([ns[0]]) + ScoresLessOne(ns[1..])
  }

  lemma {:induction false} DecisionsAreScores(ns: seq<Node>)
    ensures Decisions(ns) == ScoresLessOne(ns)
  {
    if ns != [] {
      DecisionsAreScores(ns[1..]);
      MeasuresAppend({}, [ns[0]], ns[1..]);
      assert [ns[0]] + ns[1..] == ns;
    }
  }

  /** Cyclomatic complexity less one is what the node itself adds plus the same for each of its child
      subtrees scored on its own; `CalculateComplexity` and `Cyclomatic` both return
      `1 + Decisions([node])`. */
  lemma ComplexityAdditive(node: Node)
    ensures Decisions([node]) == Decision(node) + ScoresLessOne(node.children)
  {
    DecisionsAreScores(node.children);
    assert [node][1..] == [];
  }
}
