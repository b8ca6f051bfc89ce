/** The label-correcting search of the divergence finder and the path it reconstructs. */
module DivergenceSearch {
  import opened TransitionGraph
  import opened Options

  /** The distance of a state from the genesis states as far as known, and the state it was reached from. */
  datatype Label = Label(dist: nat, parent: Option<Node>)

  /** The labels, the order in which states were first labelled, and the states still to be expanded. */
  datatype State = State(labels: map<Node, Label>, order: seq<Node>, frontier: seq<Node>)

  // ----- Invariant -----

  ghost predicate Distinct(s: seq<Node>) { forall i, j :: 0 <= i < j < |s| ==> s[i] != s[j] }

  /** The labels cover exactly the recorded states, all of them logged. */
  ghost predicate Covers(g: Graph, s: State) {
    && Distinct(s.order)
    && (forall v :: v in s.order <==> v in s.labels)
    && (forall v :: v in s.order ==> v in Nodes(g))
    && (forall v :: v in s.frontier ==> v in s.labels)
  }

  /** Every label is the length of some walk. */
  ghost predicate Witnessed(g: Graph, labels: map<Node, Label>) {
    forall v :: v in labels ==> HasWalk(g, v, labels[v].dist)
  }

  ghost predicate HasWalk(g: Graph, v: Node, dist: nat) { exists p :: WalkTo(g, p, v) && |p| == dist + 1 }

  ghost predicate ParentOk(g: Graph, labels: map<Node, Label>, v: Node)
    requires v in labels
  {
    match labels[v].parent
    case None => labels[v].dist == 0 && Genesis(g, v)
    case Some(u) => u in labels && Edge(g, u, v) && labels[u].dist + 1 <= labels[v].dist
  }

  ghost predicate ParentsOk(g: Graph, labels: map<Node, Label>) { forall v :: v in labels ==> ParentOk(g, labels, v) }

  ghost predicate GenesisLabelled(g: Graph, labels: map<Node, Label>) {
    forall v :: Genesis(g, v) ==> v in labels && labels[v].dist == 0
  }

  /** A transition that cannot shorten any label. */
  ghost predicate Relaxed(labels: map<Node, Label>, u: Node, v: Node) {
    u in labels && v in labels && labels[v].dist <= labels[u].dist + 1
  }

  /** Transitions out of labelled states that are neither on the frontier nor being expanded are relaxed. */
  ghost predicate Settled(g: Graph, s: State, busy: set<Node>) {
    forall u, v :: u in s.labels && u !in s.frontier && u !in busy && Edge(g, u, v) ==> Relaxed(s.labels, u, v)
  }

  ghost predicate Invariant(g: Graph, s: State, busy: set<Node>) {
    && Covers(g, s) && Witnessed(g, s.labels) && ParentsOk(g, s.labels)
    && GenesisLabelled(g, s.labels) && Settled(g, s, busy)
  }

  // ----- One relaxation -----

  /** The body of the inner loop. */
  function Relax(s: State, curr: Node, node: Node): State
    requires curr in s.labels
  {
    var d := s.labels[curr].dist + 1;
    if node !in s.labels then State(s.labels[node := Label(d, Some(curr))], s.order + [node], s.frontier + [node])
    else if d < s.labels[node].dist then State(s.labels[node := Label(d, Some(curr))], s.order, s.frontier + [node])
    else s
  }

  lemma RelaxCovers(g: Graph, s: State, curr: Node, node: Node)
    requires Covers(g, s) && curr in s.labels && Edge(g, curr, node)
    ensures Covers(g, Relax(s, curr, node))
  {
    assert node in Nodes(g);
    var t := Relax(s, curr, node);
    assert forall v :: v in t.order <==> v in s.order || (v == node && t.order != s.order);
    assert forall v :: v in t.frontier <==> v in s.frontier || (v == node && t.frontier != s.frontier);
  }

  lemma RelaxWitnessed(g: Graph, s: State, curr: Node, node: Node)
    requires Witnessed(g, s.labels) && curr in s.labels && Edge(g, curr, node)
    ensures Witnessed(g, Relax(s, curr, node).labels)
  {
    assert HasWalk(g, curr, s.labels[curr].dist);
    var p :| WalkTo(g, p, curr) && |p| == s.labels[curr].dist + 1;
    ExtendWalk(g, p, node);
    assert HasWalk(g, node, s.labels[curr].dist + 1);
  }

  lemma RelaxParents(g: Graph, s: State, curr: Node, node: Node)
    requires ParentsOk(g, s.labels) && curr in s.labels && Edge(g, curr, node)
    ensures ParentsOk(g, Relax(s, curr, node).labels)
  {
    var t := Relax(s, curr, node);
    forall v | v in t.labels ensures ParentOk(g, t.labels, v) {
      if v in s.labels { assert ParentOk(g, s.labels, v); }
    }
  }

  lemma RelaxGenesis(g: Graph, s: State, curr: Node, node: Node)
    requires GenesisLabelled(g, s.labels) && curr in s.labels && Edge(g, curr, node)
    ensures GenesisLabelled(g, Relax(s, curr, node).labels)
  {
    if Genesis(g, node) { GenesisHasNoEdge(g, curr, node); }
  }

  lemma RelaxSettled(g: Graph, s: State, curr: Node, node: Node)
    requires Settled(g, s, {curr}) && curr in s.labels
    ensures Settled(g, Relax(s, curr, node), {curr})
  {
    var t := Relax(s, curr, node);
    forall u, v | u in t.labels && u !in t.frontier && u !in {curr} && Edge(g, u, v) ensures Relaxed(t.labels, u, v) {
      assert u != node || t == s;
      assert u in s.labels && u !in s.frontier;
      assert Relaxed(s.labels, u, v);
    }
  }

  /** What one relaxation achieves: the target is labelled within one of the source, no label grows, and the source
      keeps its own. */
  lemma RelaxEffect(s: State, curr: Node, node: Node)
    requires curr in s.labels
    ensures var t := Relax(s, curr, node);
            && Relaxed(t.labels, curr, node)
            && t.labels[curr] == s.labels[curr]
            && forall v :: v in s.labels ==> v in t.labels && t.labels[v].dist <= s.labels[v].dist
  {}

  // ----- Termination measure -----

  function DistSum(order: seq<Node>, labels: map<Node, Label>): nat
    requires forall v :: v in order ==> v in labels
  {
    if order == [] then 0 else labels[order[0]].dist + DistSum(order[1..], labels)
  }

  lemma {:induction false} DistSumUnchanged(order: seq<Node>, labels: map<Node, Label>, node: Node, l: Label)
    requires (forall v :: v in order ==> v in labels) && node !in order
    ensures DistSum(order, labels[node := l]) == DistSum(order, labels)
  {
    if order != [] { DistSumUnchanged(order[1..], labels, node, l); }
  }

  /** Lowering the label of one recorded state lowers the sum. */
  lemma {:induction false} DistSumDecreases(order: seq<Node>, labels: map<Node, Label>, node: Node, l: Label)
    requires (forall v :: v in order ==> v in labels) && Distinct(order) && node in order && l.dist < labels[node].dist
    ensures DistSum(order, labels[node := l]) < DistSum(order, labels)
  {
    if order[0] == node {
      DistSumUnchanged(order[1..], labels, node, l);
    } else {
      DistSumDecreases(order[1..], labels, node, l);
    }
  }

  lemma {:induction false} DistinctBound(order: seq<Node>, all: set<Node>)
    requires Distinct(order) && forall v :: v in order ==> v in all
    ensures |order| <= |all|
  {
    if order != [] { DistinctBound(order[1..], all - {order[0]}); }
  }

  /** States not yet labelled, then the sum of the labels. */
  ghost predicate Progressed(s: State, t: State)
    requires forall v :: v in s.order ==> v in s.labels
    requires forall v :: v in t.order ==> v in t.labels
  {
    |t.order| > |s.order| || (|t.order| == |s.order| && DistSum(t.order, t.labels) < DistSum(s.order, s.labels))
  }

  /** A relaxation changes nothing or makes progress. */
  lemma RelaxProgress(g: Graph, s: State, curr: Node, node: Node)
    requires Covers(g, s) && curr in s.labels && Covers(g, Relax(s, curr, node))
    ensures Relax(s, curr, node) == s || Progressed(s, Relax(s, curr, node))
  {
    var d := s.labels[curr].dist + 1;
    if node in s.labels && d < s.labels[node].dist { DistSumDecreases(s.order, s.labels, node, Label(d, Some(curr))); }
  }

  // ----- The search -----

  lemma RelaxKeeps(g: Graph, s: State, curr: Node, node: Node)
    requires Invariant(g, s, {curr}) && curr in s.labels && Edge(g, curr, node)
    ensures Invariant(g, Relax(s, curr, node), {curr})
    ensures Relax(s, curr, node) == s || Progressed(s, Relax(s, curr, node))
  {
    RelaxCovers(g, s, curr, node);
    RelaxWitnessed(g, s, curr, node);
    RelaxParents(g, s, curr, node);
    RelaxGenesis(g, s, curr, node);
    RelaxSettled(g, s, curr, node);
    RelaxProgress(g, s, curr, node);
  }

  lemma ProgressTransitive(g: Graph, s: State, t: State, u: State)
    requires Covers(g, s) && Covers(g, t) && Covers(g, u)
    requires (t == s || Progressed(s, t)) && (u == t || Progressed(t, u))
    ensures u == s || Progressed(s, u)
  {}

  /** The first `i` transitions out of `curr` are relaxed. */
  ghost predicate RelaxedUpTo(g: Graph, labels: map<Node, Label>, curr: Node, i: nat) {
    curr in labels && forall k :: 0 <= k < i && k < |Children(g, curr)| ==> Relaxed(labels, curr, Children(g, curr)[k])
  }

  lemma RelaxNext(g: Graph, s: State, curr: Node, i: nat)
    requires RelaxedUpTo(g, s.labels, curr, i) && i < |Children(g, curr)|
    ensures RelaxedUpTo(g, Relax(s, curr, Children(g, curr)[i]).labels, curr, i + 1)
  {
    RelaxEffect(s, curr, Children(g, curr)[i]);
    forall k | 0 <= k < i ensures Relaxed(Relax(s, curr, Children(g, curr)[i]).labels, curr, Children(g, curr)[k]) {
      assert Relaxed(s.labels, curr, Children(g, curr)[k]);
    }
  }

  lemma ExpandedSettles(g: Graph, s: State, curr: Node)
    requires Settled(g, s, {curr}) && RelaxedUpTo(g, s.labels, curr, |Children(g, curr)|)
    ensures Settled(g, s, {})
  {
    forall u, v | u in s.labels && u !in s.frontier && Edge(g, u, v) ensures Relaxed(s.labels, u, v) {
      if u == curr { var k :| 0 <= k < |Children(g, curr)| && Children(g, curr)[k] == v; }
    }
  }

  /** Expanding one state: relax all its transitions in turn. */
  method Expand(g: Graph, s: State, curr: Node) returns (t: State)
    requires Invariant(g, s, {curr}) && curr in s.labels
    ensures Invariant(g, t, {})
    ensures t == s || Progressed(s, t)
  {
    t := s;
    var nxt := Children(g, curr);
    for i := 0 to |nxt|
      invariant Invariant(g, t, {curr})
      invariant RelaxedUpTo(g, t.labels, curr, i)
      invariant t == s || Progressed(s, t)
    {
      ghost var before := t;
      RelaxKeeps(g, t, curr, nxt[i]);
      RelaxNext(g, t, curr, i);
      t := Relax(t, curr, nxt[i]);
      ProgressTransitive(g, s, before, t);
    }
    ExpandedSettles(g, t, curr);
  }

  /** The states with some incoming transition. */
  method StatesWithParents(g: Graph) returns (children: set<Node>)
    requires Valid(g)
    ensures forall v :: v in children <==> exists i :: 0 <= i < |g.keys| && Edge(g, g.keys[i], v)
  {
    children := {};
    for i := 0 to |g.keys|
      invariant forall v :: v in children <==> exists k :: 0 <= k < i && Edge(g, g.keys[k], v)
    {
      children := children + set c | c in Children(g, g.keys[i]);
    }
  }

  /** The states with outgoing but no incoming transitions, in order of appearance. */
  method GenesisPoints(g: Graph) returns (points: seq<Node>)
    requires Valid(g)
    ensures Distinct(points) && forall v :: v in points <==> Genesis(g, v)
  {
    var children := StatesWithParents(g);
    points := [];
    for i := 0 to |g.keys|
      invariant forall v :: v in points <==> v in g.keys[..i] && v !in children
      invariant Distinct(points)
    {
      assert g.keys[..i + 1] == g.keys[..i] + [g.keys[i]];
      if g.keys[i] !in children { points := points + [g.keys[i]]; }
    }
    assert g.keys[..|g.keys|] == g.keys;
    assert forall k :: k in g.edges <==> k in g.keys;
  }

  lemma InitialInvariant(g: Graph, s: State)
    requires s.order == s.frontier && Distinct(s.order) && (forall v :: v in s.order <==> Genesis(g, v))
    requires forall v :: v in s.labels <==> v in s.order
    requires forall v :: v in s.labels ==> s.labels[v] == Label(0, None)
    ensures Invariant(g, s, {})
  {
    forall v | v in s.labels ensures HasWalk(g, v, 0) { assert WalkTo(g, [v], v); }
  }

  /** All genesis states at distance zero, all of them still to be expanded. */
  method InitialState(g: Graph) returns (s: State)
    requires Valid(g)
    ensures Invariant(g, s, {})
  {
    var genesis := GenesisPoints(g);
    var labels: map<Node, Label> := map[];
    for i := 0 to |genesis|
      invariant forall v :: v in labels <==> v in genesis[..i]
      invariant forall v :: v in labels ==> labels[v] == Label(0, None)
    {
      labels := labels[genesis[i] := Label(0, None)];
    }
    s := State(labels, genesis, genesis);
    InitialInvariant(g, s);
  }

  lemma PopSettles(g: Graph, s: State, rest: seq<Node>, curr: Node)
    requires Settled(g, s, {}) && s.frontier == rest + [curr]
    ensures Settled(g, s.(frontier := rest), {curr})
  {
    var t := s.(frontier := rest);
    forall u, v | u in t.labels && u !in t.frontier && u !in {curr} && Edge(g, u, v) ensures Relaxed(t.labels, u, v) {
      assert u !in s.frontier;
    }
  }

  lemma PopKeeps(g: Graph, s: State, rest: seq<Node>, curr: Node)
    requires Invariant(g, s, {}) && s.frontier == rest + [curr]
    ensures Invariant(g, s.(frontier := rest), {curr}) && curr in s.labels
  {
    PopSettles(g, s, rest, curr);
    assert curr in s.frontier;
    assert forall v :: v in rest ==> v in s.frontier;
  }

  /** One state is taken off the frontier: states get labelled, or labels fall, or only the frontier shrinks. */
  ghost predicate Descends(g: Graph, s: State, t: State)
    requires forall v :: v in s.order ==> v in s.labels
    requires forall v :: v in t.order ==> v in t.labels
  {
    && |t.order| <= |Nodes(g)|
    && (Progressed(s, t) || (t.order == s.order && t.labels == s.labels && |t.frontier| < |s.frontier|))
  }

  method ExpandLast(g: Graph, s: State) returns (t: State)
    requires Invariant(g, s, {}) && s.frontier != []
    ensures Invariant(g, t, {}) && Descends(g, s, t)
  {
    var n := |s.frontier| - 1;
    var curr, rest := s.frontier[n], s.frontier[..n];
    PopKeeps(g, s, rest, curr);
    t := Expand(g, s.(frontier := rest), curr);
    PoppedDescends(g, s, rest, t);
  }

  lemma PoppedDescends(g: Graph, s: State, rest: seq<Node>, t: State)
    requires Covers(g, s) && Covers(g, s.(frontier := rest)) && Covers(g, t) && |rest| < |s.frontier|
    requires t == s.(frontier := rest) || Progressed(s.(frontier := rest), t)
    ensures Descends(g, s, t)
  {
    DistinctBound(t.order, Nodes(g));
  }

  /** The search: terminates on every graph, cyclic or not. */
  method Search(g: Graph) returns (s: State)
    requires Valid(g)
    ensures Invariant(g, s, {}) && s.frontier == []
  {
    s := InitialState(g);
    while s.frontier != []
      invariant Invariant(g, s, {})
      decreases |Nodes(g)| - |s.order|, DistSum(s.order, s.labels), |s.frontier|
    {
      s := ExpandLast(g, s);
    }
  }

  // ----- The labels are shortest distances -----

  ghost predicate AllRelaxed(g: Graph, labels: map<Node, Label>) {
    forall u, v :: u in labels && Edge(g, u, v) ==> Relaxed(labels, u, v)
  }

  lemma ExitRelaxed(g: Graph, s: State)
    requires Settled(g, s, {}) && s.frontier == []
    ensures AllRelaxed(g, s.labels)
  {}

  /** On exit every walk is at least as long as the label of its last state. */
  lemma {:induction false} LabelsAtMostWalks(g: Graph, s: State, p: seq<Node>)
    requires Invariant(g, s, {}) && s.frontier == [] && Walk(g, p)
    ensures p[|p| - 1] in s.labels && s.labels[p[|p| - 1]].dist + 1 <= |p|
    decreases |p|
  {
    if |p| > 1 {
      WalkPrefix(g, p);
      LabelsAtMostWalks(g, s, p[..|p| - 1]);
      assert Relaxed(s.labels, p[|p| - 2], p[|p| - 1]);
    }
  }

  /** On exit exactly the reachable states are labelled, each with its shortest distance from the genesis states. */
  lemma LabelsShortest(g: Graph, s: State, v: Node)
    requires Invariant(g, s, {}) && s.frontier == []
    ensures v in s.labels <==> exists p :: WalkTo(g, p, v)
    ensures v in s.labels ==> exists p :: WalkTo(g, p, v) && Shortest(g, p) && |p| == s.labels[v].dist + 1
  {
    forall p | WalkTo(g, p, v) ensures v in s.labels && s.labels[v].dist + 1 <= |p| { LabelsAtMostWalks(g, s, p); }
    if v in s.labels {
      assert HasWalk(g, v, s.labels[v].dist);
      var p :| WalkTo(g, p, v) && |p| == s.labels[v].dist + 1;
      assert Shortest(g, p);
    }
  }

  /** The parent of a state is exactly one step closer; a state without one is a genesis state. */
  ghost predicate ChainOk(g: Graph, labels: map<Node, Label>, v: Node)
    requires v in labels
  {
    match labels[v].parent
    case None => labels[v].dist == 0 && Genesis(g, v)
    case Some(u) => u in labels && Edge(g, u, v) && labels[u].dist + 1 == labels[v].dist
  }

  ghost predicate Chained(g: Graph, labels: map<Node, Label>) { forall v :: v in labels ==> ChainOk(g, labels, v) }

  /** On exit the parents chain every labelled state back to a genesis state. */
  lemma ParentsChain(g: Graph, labels: map<Node, Label>)
    requires ParentsOk(g, labels) && AllRelaxed(g, labels)
    ensures Chained(g, labels)
  {
    forall v | v in labels ensures ChainOk(g, labels, v) {
      assert ParentOk(g, labels, v);
      if labels[v].parent.Some? { assert Relaxed(labels, labels[v].parent.value, v); }
    }
  }

  // ----- The path -----

  /** No state has a larger label than the one recorded at `i`, and none recorded before it an equal one. */
  ghost predicate FirstFarthest(s: State, i: nat)
    requires forall v :: v in s.order ==> v in s.labels
  {
    && i < |s.order|
    && (forall k :: 0 <= k < |s.order| ==> s.labels[s.order[k]].dist <= s.labels[s.order[i]].dist)
    && (forall k :: 0 <= k < i ==> s.labels[s.order[k]].dist < s.labels[s.order[i]].dist)
  }

  /** The first recorded state with the largest label. */
  method Farthest(s: State) returns (end: Node)
    requires s.order != [] && forall v :: v in s.order ==> v in s.labels
    ensures end in s.order && forall v :: v in s.order ==> s.labels[v].dist <= s.labels[end].dist
    ensures exists i: nat :: FirstFarthest(s, i) && s.order[i] == end
  {
    end := s.order[0];
    ghost var at := 0;
    for i := 1 to |s.order|
      invariant at < i && s.order[at] == end
      invariant forall k :: 0 <= k < i ==> s.labels[s.order[k]].dist <= s.labels[end].dist
      invariant forall k :: 0 <= k < at ==> s.labels[s.order[k]].dist < s.labels[end].dist
    {
      if s.labels[end].dist < s.labels[s.order[i]].dist { end, at := s.order[i], i; }
    }
    assert FirstFarthest(s, at);
  }

  function Reversed(s: seq<Node>): (r: seq<Node>)
    ensures |r| == |s| && forall i :: 0 <= i < |s| ==> r[i] == s[|s| - 1 - i]
  {
    if s == [] then [] else Reversed(s[1..]) + [s[0]]
  }

  /** The states walked back so far: each is one transition after the next, and one step farther. */
  ghost predicate Backwards(g: Graph, path: seq<Node>) { forall i :: 0 < i < |path| ==> Edge(g, path[i], path[i - 1]) }

  /** Where the backward walk stands: the next state leads to the last one, or the last one is a genesis state. */
  ghost predicate Resumes(g: Graph, labels: map<Node, Label>, path: seq<Node>, curr: Option<Node>, total: nat) {
    && Backwards(g, path)
    && (curr.Some? ==> curr.value in labels && |path| + labels[curr.value].dist + 1 == total
                       && (path != [] ==> Edge(g, curr.value, path[|path| - 1])))
    && (curr.None? ==> path != [] && |path| == total && Genesis(g, path[|path| - 1]))
  }

  lemma StepBack(g: Graph, labels: map<Node, Label>, path: seq<Node>, curr: Node, total: nat)
    requires Chained(g, labels) && Resumes(g, labels, path, Some(curr), total)
    ensures Resumes(g, labels, path + [curr], labels[curr].parent, total)
  {
    assert ChainOk(g, labels, curr);
  }

  lemma ReversedWalk(g: Graph, path: seq<Node>)
    requires path != [] && Backwards(g, path) && Genesis(g, path[|path| - 1])
    ensures WalkTo(g, Reversed(path), path[0])
  {
    var p := Reversed(path);
    forall i | 0 < i < |p| ensures Edge(g, p[i - 1], p[i]) {
      var k := |path| - i;
      assert Edge(g, path[k], path[k - 1]);
    }
  }

  /** Following parents from a labelled state to a genesis state, and turning the states around. */
  method Reconstruct(g: Graph, labels: map<Node, Label>, end: Node) returns (path: seq<Node>)
    requires Chained(g, labels) && end in labels
    ensures WalkTo(g, path, end) && |path| == labels[end].dist + 1
  {
    ghost var total := labels[end].dist + 1;
    var curr := Some(end);
    path := [];
    while curr.Some?
      invariant Resumes(g, labels, path, curr, total)
      invariant if path == [] then curr == Some(end) else path[0] == end
      decreases total - |path|
    {
      StepBack(g, labels, path, curr.value, total);
      path, curr := path + [curr.value], labels[curr.value].parent;
    }
    ReversedWalk(g, path);
    path := Reversed(path);
  }

  /** `longest_path`: the deepest walk, or none when there is no genesis state and `max` fails. */
  method LongestPath(g: Graph) returns (r: Option<seq<Node>>)
    requires Valid(g)
    ensures r.None? <==> forall v :: !Genesis(g, v)
    ensures r.Some? ==> Deepest(g, r.value)
  {
    var s := Search(g);
    if s.order == [] {
      return None;
    }
    var end := Farthest(s);
    ExitRelaxed(g, s);
    ParentsChain(g, s.labels);
    var path := Reconstruct(g, s.labels, end);
    DeepestFromLabels(g, s, end, path);
    r := Some(path);
  }

  lemma ShortestLength(g: Graph, s: State, q: seq<Node>)
    requires Invariant(g, s, {}) && s.frontier == [] && Shortest(g, q)
    ensures q[|q| - 1] in s.order && |q| == s.labels[q[|q| - 1]].dist + 1
  {
    var v := q[|q| - 1];
    LabelsAtMostWalks(g, s, q);
    assert HasWalk(g, v, s.labels[v].dist);
    var p :| WalkTo(g, p, v) && |p| == s.labels[v].dist + 1;
  }

  lemma DeepestFromLabels(g: Graph, s: State, end: Node, path: seq<Node>)
    requires Invariant(g, s, {}) && s.frontier == [] && end in s.labels
    requires (forall v :: v in s.order ==> v in s.labels && s.labels[v].dist <= s.labels[end].dist)
    requires WalkTo(g, path, end) && |path| == s.labels[end].dist + 1
    ensures Deepest(g, path)
  {
    forall q | WalkTo(g, q, end) ensures |path| <= |q| { LabelsAtMostWalks(g, s, q); }
    forall q | Shortest(g, q) ensures |q| <= |path| { ShortestLength(g, s, q); }
  }
}
