/** Graphs of state transitions, walks from their genesis states, and shortest walks. */
module TransitionGraph {

  type Node = string

  /** Logged transitions: the states with outgoing transitions in order of first appearance, and their successors. */
  datatype Graph = Graph(keys: seq<Node>, edges: map<Node, seq<Node>>)

  predicate Valid(g: Graph) {
    (forall i, j :: 0 <= i < j < |g.keys| ==> g.keys[i] != g.keys[j]) && (set k | k in g.keys) == g.edges.Keys
  }

  /** Successors; a state without outgoing transitions has none. */
  function Children(g: Graph, n: Node): seq<Node> { if n in g.edges then g.edges[n] else [] }

  ghost predicate Edge(g: Graph, u: Node, v: Node) { v in Children(g, u) }

  /** All states mentioned in the log. */
  ghost function Nodes(g: Graph): set<Node> {
    g.edges.Keys + set k, i | k in g.edges && 0 <= i < |g.edges[k]| :: g.edges[k][i]
  }

  /** A state with outgoing but no incoming transitions. */
  ghost predicate Genesis(g: Graph, n: Node) { n in g.edges && forall k :: k in g.edges ==> !Edge(g, k, n) }

  // ----- Walks -----

  ghost predicate Connected(g: Graph, p: seq<Node>) { forall i :: 0 < i < |p| ==> Edge(g, p[i - 1], p[i]) }

  /** A walk from a genesis state. */
  ghost predicate Walk(g: Graph, p: seq<Node>) { p != [] && Genesis(g, p[0]) && Connected(g, p) }

  ghost predicate WalkTo(g: Graph, p: seq<Node>, v: Node) { Walk(g, p) && p[|p| - 1] == v }

  ghost predicate Shortest(g: Graph, p: seq<Node>) {
    Walk(g, p) && forall q :: WalkTo(g, q, p[|p| - 1]) ==> |p| <= |q|
  }

  ghost predicate Longest(g: Graph, p: seq<Node>) { Walk(g, p) && forall q :: Walk(g, q) ==> |q| <= |p| }

  /** A shortest walk to a state that is farthest from the genesis states. */
  ghost predicate Deepest(g: Graph, p: seq<Node>) {
    Shortest(g, p) && forall q :: Shortest(g, q) ==> |q| <= |p|
  }

  lemma ExtendWalk(g: Graph, p: seq<Node>, v: Node)
    requires Walk(g, p) && Edge(g, p[|p| - 1], v)
    ensures WalkTo(g, p + [v], v)
  {}

  lemma WalkPrefix(g: Graph, p: seq<Node>)
    requires Walk(g, p) && |p| > 1
    ensures WalkTo(g, p[..|p| - 1], p[|p| - 2]) && Edge(g, p[|p| - 2], p[|p| - 1])
  {
    assert Edge(g, p[|p| - 1 - 1], p[|p| - 1]);
  }

  // ----- When the deepest walk is the longest -----

  ghost predicate Reachable(g: Graph, v: Node) { exists p :: WalkTo(g, p, v) }

  /** The reachable states fit on the levels 0 to `top`, with every transition going up. */
  ghost predicate Layered(g: Graph, levels: map<Node, nat>, top: nat) {
    forall u, v :: Reachable(g, u) && Edge(g, u, v) ==>
      u in levels && v in levels && levels[u] < levels[v] <= top
  }

  ghost predicate FitsOn(g: Graph, top: nat) { exists levels :: Layered(g, levels, top) }

  /** On layered states a walk climbs at least one level per step. */
  lemma {:induction false} WalkClimbs(g: Graph, levels: map<Node, nat>, top: nat, q: seq<Node>)
    requires Layered(g, levels, top) && Walk(g, q) && |q| > 1
    ensures q[|q| - 1] in levels && |q| - 1 <= levels[q[|q| - 1]] <= top
    decreases |q|
  {
    var u, v := q[|q| - 2], q[|q| - 1];
    WalkPrefix(g, q);
    assert Reachable(g, u) && Edge(g, u, v);
    if |q| > 2 { WalkClimbs(g, levels, top, q[..|q| - 1]); }
  }

  ghost predicate HasWalkOf(g: Graph, v: Node, steps: nat) { exists p :: WalkTo(g, p, v) && |p| == steps + 1 }

  /** The length of the longest walk to a state among those of at most `n` steps. */
  ghost function Depth(g: Graph, v: Node, n: nat): (d: nat)
    ensures d <= n
    ensures forall k: nat :: k <= n && HasWalkOf(g, v, k) ==> k <= d
  {
    if n == 0 || HasWalkOf(g, v, n) then n else Depth(g, v, n - 1)
  }

  lemma {:induction false} DepthReached(g: Graph, v: Node, k: nat, n: nat)
    requires HasWalkOf(g, v, k) && k <= n
    ensures HasWalkOf(g, v, Depth(g, v, n))
    decreases n
  {
    if n > 0 && !HasWalkOf(g, v, n) { DepthReached(g, v, k, n - 1); }
  }

  ghost function Depths(g: Graph, n: nat): map<Node, nat> { map v | v in Nodes(g) :: Depth(g, v, n) }

  /** When walks are bounded, their lengths layer the reachable states. */
  lemma DepthsLayer(g: Graph, n: nat)
    requires forall q :: Walk(g, q) ==> |q| <= n + 1
    ensures Layered(g, Depths(g, n), n)
  {
    var levels := Depths(g, n);
    forall u, v | Reachable(g, u) && Edge(g, u, v)
      ensures u in levels && v in levels && levels[u] < levels[v] <= n
    {
      var q :| WalkTo(g, q, u);
      assert |q| == |q| - 1 + 1;
      DepthReached(g, u, |q| - 1, n);
      var p :| WalkTo(g, p, u) && |p| == Depth(g, u, n) + 1;
      ExtendWalk(g, p, v);
      assert |p + [v]| == Depth(g, u, n) + 1 + 1;
      assert HasWalkOf(g, v, Depth(g, u, n) + 1);
    }
  }

  /** A walk is a longest one exactly when the reachable states fit on as many levels as it has states, with every
      transition going up. So the walk the search returns is longest exactly when the states fit on the levels of its
      own distances. */
  lemma LongestIff(g: Graph, p: seq<Node>)
    requires Walk(g, p)
    ensures Longest(g, p) <==> FitsOn(g, |p| - 1)
  {
    if Longest(g, p) { DepthsLayer(g, |p| - 1); }
    if FitsOn(g, |p| - 1) {
      var levels :| Layered(g, levels, |p| - 1);
      forall q | Walk(g, q) ensures |q| <= |p| {
        if |q| > 1 { WalkClimbs(g, levels, |p| - 1, q); }
      }
    }
  }

  /** Every state has at most one distinct predecessor, as in the tree the log is taken for. */
  ghost predicate TreeLike(g: Graph) { forall u, v, w :: Edge(g, u, w) && Edge(g, v, w) ==> u == v }

  /** In a tree-like graph there is only one walk to each state. */
  lemma {:induction false} TreeWalkUnique(g: Graph, p: seq<Node>, q: seq<Node>)
    requires TreeLike(g) && Walk(g, p) && WalkTo(g, q, p[|p| - 1])
    ensures p == q
    decreases |p|
  {
    if |p| > 1 { WalkPrefix(g, p); }
    if |q| > 1 { WalkPrefix(g, q); }
    if |p| > 1 && |q| > 1 {
      var u, v, w := p[|p| - 2], q[|q| - 2], p[|p| - 1];
      assert Edge(g, u, w) && Edge(g, v, w);
      TreeWalkUnique(g, p[..|p| - 1], q[..|q| - 1]);
      assert p == p[..|p| - 1] + [w] && q == q[..|q| - 1] + [w];
    } else if |p| > 1 {
      GenesisHasNoEdge(g, p[|p| - 2], q[0]);
    } else if |q| > 1 {
      GenesisHasNoEdge(g, q[|q| - 2], p[0]);
    }
  }

  lemma GenesisHasNoEdge(g: Graph, u: Node, v: Node)
    requires Genesis(g, v)
    ensures !Edge(g, u, v)
  {}

  /** In a tree-like graph the deepest walk is the longest one. */
  lemma TreeDeepestIsLongest(g: Graph, p: seq<Node>)
    requires TreeLike(g) && Deepest(g, p)
    ensures Longest(g, p)
  {
    forall q | Walk(g, q) ensures |q| <= |p| {
      forall r | WalkTo(g, r, q[|q| - 1]) ensures |q| <= |r| { TreeWalkUnique(g, q, r); }
      assert Shortest(g, q);
    }
  }

  /** A transition that skips a state: the deepest walk then misses a longer one. */
  const SHORTCUT: Graph := Graph(["g", "a"], map["g" := ["a", "b"], "a" := ["b"]])

  lemma ShortcutWalks(g: Graph)
    requires g == SHORTCUT
    ensures forall u, v :: Edge(g, u, v) ==> v == "a" || v == "b"
    ensures WalkTo(g, ["g", "a"], "a") && WalkTo(g, ["g", "b"], "b")
    ensures Walk(g, ["g", "a", "b"]) && Shortest(g, ["g", "a"])
  {
    assert Genesis(g, "g") && !Genesis(g, "a") by { assert Edge(g, "g", "a"); }
  }

  lemma ShortcutDefeatsLongest(p: seq<Node>)
    requires Deepest(SHORTCUT, p)
    ensures Walk(SHORTCUT, ["g", "a", "b"]) && |p| == 2 && !Longest(SHORTCUT, p)
  {
    ShortcutWalks(SHORTCUT);
    if |p| > 1 { WalkPrefix(SHORTCUT, p); }
  }
}
