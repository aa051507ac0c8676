/** The pure-Python fallback of framework/analyzers/native.py: cyclomatic loop, `_max_nesting` and
    `_cognitive`, each method proved against a structural measure of the tree. */
module NativeMetrics {
  import opened PyAst

  /** `_NESTING`. */
  const NESTING: set<Kind> := {If, For, AsyncFor, While, With, AsyncWith, Try}

  const FUNCTIONS: set<Kind> := {FunctionDef, AsyncFunctionDef}

  method Cyclomatic(tree: Node) returns (cyclomatic: int, functions: nat, classes: nat)
    ensures cyclomatic == 1 + Decisions([tree])
    ensures cyclomatic == 1 + Count({If, While, For, AsyncFor, ExceptHandler}, [tree]) + BoolOperands([tree])
    ensures functions == Count({FunctionDef, AsyncFunctionDef}, [tree])
    ensures classes == Count({ClassDef}, [tree])
  {
    var nodes := Walk(tree);
    cyclomatic, functions, classes := 1, 0, 0;
    var i := 0;
    while i < |nodes|
      invariant 0 <= i <= |nodes|
      invariant cyclomatic + DecisionTotal(nodes[i..]) == 1 + DecisionTotal(nodes)
      invariant functions + KindTotal(FUNCTIONS, nodes[i..]) == KindTotal(FUNCTIONS, nodes)
      invariant classes + KindTotal({ClassDef}, nodes[i..]) == KindTotal({ClassDef}, nodes)
    {
      var node := nodes[i];
      TotalsNext(nodes, i);
      if node.kind == If || node.kind == While || node.kind == For || node.kind == AsyncFor {
        cyclomatic := cyclomatic + 1;
      } else if node.kind == BoolOp {
        cyclomatic := cyclomatic + ExtraOperands(node);
      } else if node.kind == ExceptHandler {
        cyclomatic := cyclomatic + 1;
      }
      if node.kind == FunctionDef || node.kind == AsyncFunctionDef {
        functions := functions + 1;
      } else if node.kind == ClassDef {
        classes := classes + 1;
      }
      i := i + 1;
    }
    WalkTotals(FUNCTIONS, [tree]);
    WalkTotals({ClassDef}, [tree]);
    DecisionsAreCounts([tree]);
  }

  lemma TotalsNext(nodes: seq<Node>, i: nat)
    requires i < |nodes|
    ensures DecisionTotal(nodes[i..]) == Decision(nodes[i]) + DecisionTotal(nodes[i + 1..])
    ensures forall kinds :: KindTotal(kinds, nodes[i..])
              == (if nodes[i].kind in kinds then 1 else 0) + KindTotal(kinds, nodes[i + 1..])
  {
    assert nodes[i..][1..] == nodes[i + 1..];
  }

  method MaxNesting(tree: Node) returns (best: nat)
    ensures best == Nesting({If, For, AsyncFor, While, With, AsyncWith, Try}, tree.children)
  {
    best := NestingDepth(tree, 0);
  }

  method NestingDepth(node: Node, current: nat) returns (best: nat)
    ensures best == current + Nesting(NESTING, node.children)
    decreases node
  {
    best := current;
    var i := 0;
    while i < |node.children|
      invariant 0 <= i <= |node.children|
      invariant best >= current
      invariant Max(best, current + Nesting(NESTING, node.children[i..])) == current + Nesting(NESTING, node.children)
    {
      var child := node.children[i];
      var step := if child.kind in NESTING then 1 else 0;
      var below := NestingDepth(child, current + step);
      assert node.children[i..][1..] == node.children[i + 1..];
      best := if best >= below then best else below;
      i := i + 1;
    }
  }

  function Max(a: int, b: int): int {
    if a >= b then a else b
  }

  /** The closure variable `total` that `visit` adds to. */
  class CognitiveCounter {
    var total: nat

    constructor ()
      ensures total == 0
    {
      total := 0;
    }

    method Visit(node: Node, level: nat)
      modifies this
      ensures total == old(total) + Total(Levels(NESTING, node.children, level))
      decreases node
    {
      var i := 0;
      while i < |node.children|
        invariant 0 <= i <= |node.children|
        invariant total + Total(Levels(NESTING, node.children[i..], level))
               == old(total) + Total(Levels(NESTING, node.children, level))
      {
        var child := node.children[i];
        assert node.children[i..][1..] == node.children[i + 1..];
        LevelsTotal(NESTING, node.children[i..], level);
        if child.kind in NESTING {
          total := total + 1 + level;
          Visit(child, level + 1);
        } else {
          Visit(child, level);
        }
        i := i + 1;
      }
    }
  }

  /** Every nesting node costs exactly its level, so the result is the sum of the levels. */
  method Cognitive(tree: Node) returns (total: nat)
    ensures total == Total(Levels({If, For, AsyncFor, While, With, AsyncWith, Try}, tree.children, 0))
  {
    var counter := new CognitiveCounter();
    counter.Visit(tree, 0);
    total := counter.total;
  }

  // ---------------------------------------------------------------- sums of levels

  lemma {:induction false} TotalAppend(a: seq<nat>, b: seq<nat>)
    ensures Total(a + b) == Total(a) + Total(b)
  {
    if a == [] {
      assert a + b == b;
    } else {
      assert (a + b)[1..] == a[1..] + b;
      TotalAppend(a[1..], b);
    }
  }

  /** The total of the levels, one tree at a time. */
  lemma LevelsTotal(kinds: set<Kind>, ns: seq<Node>, level: nat)
    requires ns != []
    ensures Total(Levels(kinds, ns, level)) ==
            FirstTotal(kinds, ns, level) + Total(Levels(kinds, ns[1..], level))
  {
    var rest := Levels(kinds, ns[1..], level);
    if ns[0].kind in kinds {
      var inner := Levels(kinds, ns[0].children, level + 1);
      TotalAppend([level + 1] + inner, rest);
      TotalAppend([level + 1], inner);
      assert Total([level + 1]) == level + 1;
    } else {
      TotalAppend(Levels(kinds, ns[0].children, level), rest);
    }
  }

  /** The levels counted from above: a nesting node's level is the number of nesting nodes that hold it, so
      their sum is the number of nesting nodes that each of them holds, itself included. */
  lemma {:induction false} LevelsCountHolders(kinds: set<Kind>, ns: seq<Node>, level: nat)
    ensures Total(Levels(kinds, ns, level)) == level * Count(kinds, ns) + HeldBelow(kinds, ns)
    decreases ns, 1
  {
    if ns != [] {
      LevelsTotal(kinds, ns, level);
      LevelsCountHolders(kinds, ns[1..], level);
      FirstTreeHolders(kinds, ns, level);
      Distribute(level, FirstCount(kinds, ns), Count(kinds, ns[1..]));
    }
  }

  function FirstHeld(kinds: set<Kind>, ns: seq<Node>): nat
    requires ns != []
  {
    (if ns[0].kind in kinds then 1 + Count(kinds, ns[0].children) else 0) + HeldBelow(kinds, ns[0].children)
  }

  lemma {:induction false} FirstTreeHolders(kinds: set<Kind>, ns: seq<Node>, level: nat)
    requires ns != []
    ensures FirstTotal(kinds, ns, level) == level * FirstCount(kinds, ns) + FirstHeld(kinds, ns)
    decreases ns, 0
  {
    var below := ns[0].children;
    if ns[0].kind in kinds {
      LevelsCountHolders(kinds, below, level + 1);
      Distribute(Count(kinds, below), level, 1);
      Distribute(level, 1, Count(kinds, below));
    } else {
      LevelsCountHolders(kinds, below, level);
    }
  }

  lemma Distribute(k: nat, a: nat, b: nat)
    ensures k * (a + b) == k * a + k * b && (a + b) * k == k * a + k * b
  {
  }

  /** One level is listed per node of the kinds; each lies between `level + 1` and
      `level + Nesting`, and every value in between is listed. */
  lemma {:induction false} LevelsRange(kinds: set<Kind>, ns: seq<Node>, level: nat)
    ensures |Levels(kinds, ns, level)| == Count(kinds, ns)
    ensures forall v :: v in Levels(kinds, ns, level) <==> level + 1 <= v <= level + Nesting(kinds, ns)
  {
    if ns != [] {
      LevelsRange(kinds, ns[1..], level);
      if ns[0].kind in kinds {
        LevelsRange(kinds, ns[0].children, level + 1);
      } else {
        LevelsRange(kinds, ns[0].children, level);
      }
    }
  }

  /** n (n + 1) / 2, as the sum it is. */
  function Triangle(n: nat): nat {
    if n == 0 then 0 else n + Triangle(n - 1)
  }

  lemma {:induction false} TriangleClosed(n: nat)
    ensures 2 * Triangle(n) == n * (n + 1)
  {
    if n > 0 {
      TriangleClosed(n - 1);
      assert 2 * Triangle(n) == 2 * n + (n - 1) * n;
    }
  }

  /** N nesting nodes, depth m: one chain of m and the others outermost. */
  function LeastCost(N: nat, m: nat): nat
    requires m <= N
  {
    Triangle(m) + (N - m)
  }

  /** N nesting nodes, depth m: one chain of m and the others innermost. */
  function MostCost(N: nat, m: nat): nat
    requires m <= N
  {
    Triangle(m) + (N - m) * m
  }

  /** Bounds on the cost `c` of a forest at a level, with N nesting nodes and depth m. */
  ghost predicate Within(N: nat, m: nat, level: nat, c: int) {
    m <= N && N * level + LeastCost(N, m) <= c <= N * level + MostCost(N, m)
  }

  /** Putting a forest under one more nesting node. */
  lemma Deeper(N: nat, m: nat, level: nat, c: int)
    requires Within(N, m, level + 1, c)
    ensures Within(N + 1, m + 1, level, c + 1 + level)
  {
    assert N * (level + 1) == N * level + N;
    assert (N + 1) * level == N * level + level;
    assert (N - m) * (m + 1) == (N - m) * m + (N - m);
  }

  /** Putting a forest beside one that is at least as deep. */
  lemma Beside(n1: nat, m1: nat, c1: int, n2: nat, m2: nat, c2: int, level: nat)
    requires m2 <= m1 && Within(n1, m1, level, c1) && Within(n2, m2, level, c2)
    ensures Within(n1 + n2, m1, level, c1 + c2)
  {
    Products(n1, m1, n2, m2);
    assert (n1 + n2) * level == n1 * level + n2 * level;
  }

  lemma Products(n1: nat, m1: nat, n2: nat, m2: nat)
    requires m2 <= m1 <= n1 && m2 <= n2
    ensures Triangle(m2) >= m2
    ensures (n1 - m1) * m1 + Triangle(m2) + (n2 - m2) * m2 <= (n1 + n2 - m1) * m1
  {
    TriangleClosed(m2);
    SquareAtLeast(m2);
    assert m2 * (m2 + 1) == m2 * m2 + m2;
    assert Triangle(m2) <= m2 * m2;
    var k := n2 - m2;
    assert k * m2 + m2 * m2 == n2 * m2;
    MulMonotone(n2, m2, m1);
    assert (n1 + n2 - m1) * m1 == (n1 - m1) * m1 + n2 * m1;
  }

  lemma MulMonotone(k: nat, a: nat, b: nat)
    requires a <= b
    ensures k * a <= k * b
  {
  }

  lemma SquareAtLeast(m: nat)
    ensures m * m >= m
  {
    if m > 0 {
      MulMonotone(m, 1, m);
    }
  }

  lemma {:induction false} LevelsBounds(kinds: set<Kind>, ns: seq<Node>, level: nat)
    ensures Within(Count(kinds, ns), Nesting(kinds, ns), level, Total(Levels(kinds, ns, level)))
    decreases ns, 1
  {
    if ns != [] {
      LevelsBounds(kinds, ns[1..], level);
      FirstTreeBounds(kinds, ns, level);
      LevelsTotal(kinds, ns, level);
      var n1, m1, c1 := FirstCount(kinds, ns), FirstNesting(kinds, ns), FirstTotal(kinds, ns, level);
      var n2, m2, c2 := Count(kinds, ns[1..]), Nesting(kinds, ns[1..]), Total(Levels(kinds, ns[1..], level));
      if m1 >= m2 {
        Beside(n1, m1, c1, n2, m2, c2, level);
      } else {
        Beside(n2, m2, c2, n1, m1, c1, level);
      }
    }
  }

  function FirstCount(kinds: set<Kind>, ns: seq<Node>): nat
    requires ns != []
  {
    (if ns[0].kind in kinds then 1 else 0) + Count(kinds, ns[0].children)
  }

  function FirstNesting(kinds: set<Kind>, ns: seq<Node>): nat
    requires ns != []
  {
    (if ns[0].kind in kinds then 1 else 0) + Nesting(kinds, ns[0].children)
  }

  function FirstTotal(kinds: set<Kind>, ns: seq<Node>, level: nat): nat
    requires ns != []
  {
    if ns[0].kind in kinds then 1 + level + Total(Levels(kinds, ns[0].children, level + 1))
    else Total(Levels(kinds, ns[0].children, level))
  }

  lemma {:induction false} FirstTreeBounds(kinds: set<Kind>, ns: seq<Node>, level: nat)
    requires ns != []
    ensures Within(FirstCount(kinds, ns), FirstNesting(kinds, ns), level, FirstTotal(kinds, ns, level))
    decreases ns, 0
  {
    var below := ns[0].children;
    if ns[0].kind in kinds {
      LevelsBounds(kinds, below, level + 1);
      Deeper(Count(kinds, below), Nesting(kinds, below), level, Total(Levels(kinds, below, level + 1)));
    } else {
      LevelsBounds(kinds, below, level);
    }
  }

  /** The bounds for a whole tree, with the coarser ones N m and N (N + 1) / 2 they imply. */
  lemma CognitiveBounds(tree: Node)
    ensures var N, m, c := Count(NESTING, tree.children), Nesting(NESTING, tree.children),
                           Total(Levels(NESTING, tree.children, 0));
            && m <= N && LeastCost(N, m) <= c <= MostCost(N, m)
            && c <= N * m
            && 2 * c <= N * (N + 1)
  {
    ForestBounds(NESTING, tree.children);
  }

  lemma ForestBounds(kinds: set<Kind>, ns: seq<Node>)
    ensures var N, m, c := Count(kinds, ns), Nesting(kinds, ns), Total(Levels(kinds, ns, 0));
            m <= N && LeastCost(N, m) <= c <= MostCost(N, m) && c <= N * m && 2 * c <= N * (N + 1)
  {
    LevelsBounds(kinds, ns, 0);
    CoarseBounds(Count(kinds, ns), Nesting(kinds, ns));
  }

  lemma CoarseBounds(N: nat, m: nat)
    requires m <= N
    ensures Triangle(m) + (N - m) * m <= N * m
    ensures 2 * (Triangle(m) + (N - m) * m) <= N * (N + 1)
  {
    TriangleClosed(m);
    SquareAtLeast(m);
    var k := N - m;
    assert k * m + m * m == N * m;
    assert m * (m + 1) == m * m + m;
    assert N * (N + 1) == m * m + m + 2 * (k * m) + (k * k + k) by {
      assert N * (N + 1) == (m + k) * (m + k) + m + k;
    }
    SquareAtLeast(k);
  }

  // ---------------------------------------------------------------- both bounds are attained

  function Loop(body: seq<Node>): Node {
    Node(While, body)
  }

  function Flat(n: nat): (ns: seq<Node>)
    ensures |ns| == n
  {
    if n == 0 then [] else [Loop([])] + Flat(n - 1)
  }

  /** `m` loops inside each other, around `core`. */
  function Chain(m: nat, core: seq<Node>): seq<Node> {
    if m == 0 then core else [Loop(Chain(m - 1, core))]
  }

  lemma {:induction false} FlatShape(n: nat)
    ensures Count(NESTING, Flat(n)) == n
    ensures Nesting(NESTING, Flat(n)) == if n == 0 then 0 else 1
  {
    if n > 0 {
      FlatShape(n - 1);
      assert Flat(n)[1..] == Flat(n - 1);
    }
  }

  lemma {:induction false} FlatTotal(n: nat, level: nat)
    ensures Total(Levels(NESTING, Flat(n), level)) == n * (level + 1)
  {
    if n > 0 {
      FlatTotal(n - 1, level);
      LevelsTotal(NESTING, Flat(n), level);
      assert Flat(n)[1..] == Flat(n - 1);
      assert n * (level + 1) == (n - 1) * (level + 1) + level + 1;
    }
  }

  lemma {:induction false} ChainShape(m: nat, core: seq<Node>)
    ensures Count(NESTING, Chain(m, core)) == m + Count(NESTING, core)
    ensures Nesting(NESTING, Chain(m, core)) == m + Nesting(NESTING, core)
  {
    if m > 0 {
      ChainShape(m - 1, core);
      assert Chain(m, core)[1..] == [];
    }
  }

  /** (level + 1) + ... + (level + m). */
  function Ramp(level: nat, m: nat): nat
    decreases m
  {
    if m == 0 then 0 else level + 1 + Ramp(level + 1, m - 1)
  }

  lemma {:induction false} RampFromZero(level: nat, m: nat)
    ensures level + 1 + Ramp(level + 1, m) == Ramp(level, m) + level + m + 1
    ensures Ramp(0, m) == Triangle(m)
    decreases m
  {
    if m > 0 {
      RampFromZero(level + 1, m - 1);
      RampFromZero(0, m - 1);
    }
  }

  lemma LoopTotal(kinds: set<Kind>, body: seq<Node>, level: nat)
    requires While in kinds
    ensures Total(Levels(kinds, [Loop(body)], level)) == level + 1 + Total(Levels(kinds, body, level + 1))
  {
    var c := [Loop(body)];
    LevelsTotal(kinds, c, level);
    assert c[1..] == [];
  }

  lemma {:induction false} ChainTotal(kinds: set<Kind>, m: nat, core: seq<Node>, level: nat)
    requires While in kinds
    ensures Total(Levels(kinds, Chain(m, core), level)) == Ramp(level, m) + Total(Levels(kinds, core, level + m))
    decreases m
  {
    if m > 0 {
      var inner := Chain(m - 1, core);
      ChainTotal(kinds, m - 1, core, level + 1);
      LoopTotal(kinds, inner, level);
      assert Chain(m, core) == [Loop(inner)];
    }
  }

  /** A tree with N nesting nodes, depth m and cognitive complexity c. */
  ghost predicate Scores(tree: Node, N: nat, m: nat, c: int) {
    && Count(NESTING, tree.children) == N
    && Nesting(NESTING, tree.children) == m
    && Total(Levels(NESTING, tree.children, 0)) == c
  }

  lemma CheapestTree(m: nat, N: nat) returns (low: Node)
    requires 1 <= m <= N
    ensures Scores(low, N, m, LeastCost(N, m))
  {
    var k, tower := N - m, Chain(m, []);
    low := Node(Other, tower + Flat(k));
    ChainShape(m, []);
    FlatShape(k);
    assert low.children[0] == tower[0] && low.children[1..] == Flat(k) && tower[1..] == [];
    CheapestTotal(m, k);
  }

  lemma CheapestTotal(m: nat, k: nat)
    requires m >= 1
    ensures Total(Levels(NESTING, Chain(m, []) + Flat(k), 0)) == Triangle(m) + k
  {
    var tower := Chain(m, []);
    ChainTotal(NESTING, m, [], 0);
    FlatTotal(k, 0);
    RampFromZero(0, m);
    assert (tower + Flat(k))[0] == tower[0] && (tower + Flat(k))[1..] == Flat(k) && tower[1..] == [];
    LevelsTotal(NESTING, tower + Flat(k), 0);
    LevelsTotal(NESTING, tower, 0);
  }

  lemma DearestTree(m: nat, N: nat) returns (high: Node)
    requires 1 <= m <= N
    ensures Scores(high, N, m, MostCost(N, m))
  {
    var leaves := Flat(N - m + 1);
    high := Node(Other, Chain(m - 1, leaves));
    ChainShape(m - 1, leaves);
    FlatShape(N - m + 1);
    DearestTotal(m, N - m);
  }

  lemma DearestTotal(m: nat, k: nat)
    requires m >= 1
    ensures Total(Levels(NESTING, Chain(m - 1, Flat(k + 1)), 0)) == Triangle(m) + k * m
  {
    ChainTotal(NESTING, m - 1, Flat(k + 1), 0);
    FlatTotal(k + 1, m - 1);
    RampFromZero(0, m - 1);
    assert (k + 1) * m == k * m + m;
  }

  /** For every depth m >= 1 and every N >= m there is a tree that meets the lower bound and one that
      meets the upper bound, so neither can be improved. */
  lemma CognitiveBoundsAttained(m: nat, N: nat)
    requires 1 <= m <= N
    ensures exists low: Node :: Scores(low, N, m, LeastCost(N, m))
    ensures exists high: Node :: Scores(high, N, m, MostCost(N, m))
  {
    var low := CheapestTree(m, N);
    var high := DearestTree(m, N);
  }
}
