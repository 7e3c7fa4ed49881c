module DepTree {
  // The dependency forest of a CI run (pkgs/nom-web/deps.go).
  //
  // The full graph relates derivations by "is an input of". Only some of them are
  // planned in the run; NearestIn collapses every chain of unplanned ones with a
  // memoised depth-first walk, and BuildTree lays the planned ones out as a forest.

  import opened Options
  import opened Text
  import StorePath

  type Drv = string

  datatype Graph = Graph(inputs: map<Drv, seq<Drv>>) {
    function Inputs(n: Drv): seq<Drv> {
      if n in inputs then inputs[n] else []
    }
  }

  datatype TreeNode = TreeNode(name: string, drv: Drv, children: seq<nat>)

  datatype Tree = Tree(nodes: seq<TreeNode>, roots: seq<nat>)

  // ---------------------------------------------------------------- paths

  /** p follows input edges from its first element to its last. */
  ghost predicate Walk(g: Graph, p: seq<Drv>) {
    |p| >= 1 && forall k :: 0 <= k < |p| - 1 ==> p[k + 1] in g.Inputs(p[k])
  }

  ghost predicate WalkFromTo(g: Graph, p: seq<Drv>, a: Drv, b: Drv) {
    Walk(g, p) && |p| >= 2 && p[0] == a && p[|p| - 1] == b
  }

  /** b is a strict (transitive) input of a. */
  ghost predicate Reaches(g: Graph, a: Drv, b: Drv) {
    exists p :: WalkFromTo(g, p, a, b)
  }

  ghost predicate Acyclic(g: Graph) {
    forall n :: !Reaches(g, n, n)
  }

  /** p leads from a to b and only its inner nodes are collapsed, all of them unplanned. */
  ghost predicate CollapsedWalk(g: Graph, planned: set<Drv>, p: seq<Drv>, a: Drv, b: Drv) {
    WalkFromTo(g, p, a, b) && b in planned &&
    forall k :: 0 < k < |p| - 1 ==> p[k] !in planned
  }

  /** b is one of the planned derivations nearest to a. */
  ghost predicate Nearest(g: Graph, planned: set<Drv>, a: Drv, b: Drv) {
    exists p :: CollapsedWalk(g, planned, p, a, b)
  }

  lemma ReachesJoin(g: Graph, a: Drv, b: Drv, c: Drv)
    requires Reaches(g, a, b) && Reaches(g, b, c)
    ensures Reaches(g, a, c)
  {
    var p :| WalkFromTo(g, p, a, b);
    var q :| WalkFromTo(g, q, b, c);
    assert WalkFromTo(g, p + q[1..], a, c);
  }

  lemma EdgeReaches(g: Graph, a: Drv, b: Drv)
    requires b in g.Inputs(a)
    ensures Reaches(g, a, b)
  {
    assert WalkFromTo(g, [a, b], a, b);
  }

  lemma NearestReaches(g: Graph, planned: set<Drv>, a: Drv, b: Drv)
    requires Nearest(g, planned, a, b)
    ensures Reaches(g, a, b)
  {
    var p :| CollapsedWalk(g, planned, p, a, b);
    assert WalkFromTo(g, p, a, b);
  }

  /** What one input of a contributes to the nodes nearest to a. */
  ghost predicate Contributes(g: Graph, planned: set<Drv>, input: Drv, b: Drv) {
    if input in planned then b == input else Nearest(g, planned, input, b)
  }

  lemma InputContributes(g: Graph, planned: set<Drv>, a: Drv, input: Drv, b: Drv)
    requires input in g.Inputs(a) && Contributes(g, planned, input, b)
    ensures Nearest(g, planned, a, b)
  {
    if input in planned {
      assert CollapsedWalk(g, planned, [a, b], a, b);
    } else {
      var p :| CollapsedWalk(g, planned, p, input, b);
      assert CollapsedWalk(g, planned, [a] + p, a, b);
    }
  }

  lemma NearestSplits(g: Graph, planned: set<Drv>, a: Drv, b: Drv) returns (input: Drv)
    requires Nearest(g, planned, a, b)
    ensures input in g.Inputs(a) && Contributes(g, planned, input, b)
  {
    var p :| CollapsedWalk(g, planned, p, a, b);
    input := p[1];
    if |p| > 2 {
      assert CollapsedWalk(g, planned, p[1..], input, b);
    }
  }

  // ---------------------------------------------------------------- nearestIn

  /** The memo table the walks share; an entry is empty while its node is on the walk. */
  class Memo {
    var entries: map<Drv, seq<Drv>>

    constructor ()
      ensures entries == map[]
    {
      entries := map[];
    }

    ghost predicate Valid(g: Graph, planned: set<Drv>, stack: set<Drv>)
      reads this
    {
      EntriesValid(entries, g, planned, stack)
    }
  }

  /** Every entry lists distinct nearest nodes; entries off the stack list all of them. */
  ghost predicate EntriesValid(entries: map<Drv, seq<Drv>>, g: Graph, planned: set<Drv>, stack: set<Drv>) {
    forall n :: n in entries ==> EntryValid(entries[n], g, planned, n, n in stack)
  }

  ghost predicate EntryValid(entry: seq<Drv>, g: Graph, planned: set<Drv>, n: Drv, open: bool) {
    Distinct(entry) &&
    (forall d :: d in entry ==> Nearest(g, planned, n, d)) &&
    (Acyclic(g) && !open ==> forall d :: Nearest(g, planned, n, d) ==> d in entry)
  }

  /** The cycle guard: an empty entry, valid while its node is on the stack. */
  lemma OpenEntry(entries: map<Drv, seq<Drv>>, g: Graph, planned: set<Drv>, stack: set<Drv>, n: Drv)
    requires EntriesValid(entries, g, planned, stack)
    ensures EntriesValid(entries[n := []], g, planned, stack + {n})
  {
  }

  lemma CloseEntry(entries: map<Drv, seq<Drv>>, g: Graph, planned: set<Drv>, stack: set<Drv>, n: Drv, out: seq<Drv>)
    requires EntriesValid(entries, g, planned, stack + {n}) && EntryValid(out, g, planned, n, false)
    ensures EntriesValid(entries[n := out], g, planned, stack)
  {
  }

  ghost function NodesOf(g: Graph): set<Drv> {
    g.inputs.Keys + (set n, d | n in g.inputs && d in g.inputs[n] :: d)
  }

  /** Appends the elements of more that are not in out yet; seen is the set of out's elements. */
  method AppendUnseen(out: seq<Drv>, seen: set<Drv>, more: seq<Drv>) returns (out': seq<Drv>, seen': set<Drv>)
    requires Distinct(out) && forall d :: d in seen <==> d in out
    ensures Distinct(out') && forall d :: d in seen' <==> d in out'
    ensures out <= out' && forall d :: d in out' <==> d in out || d in more
  {
    out', seen' := out, seen;
    for m := 0 to |more|
      invariant Distinct(out') && forall d :: d in seen' <==> d in out'
      invariant out <= out' && forall d :: d in out' <==> d in out || d in more[..m]
    {
      assert more[..m + 1] == more[..m] + [more[m]];
      if more[m] !in seen' {
        seen' := seen' + {more[m]};
        out' := out' + [more[m]];
      }
    }
    assert more[..|more|] == more;
  }

  method NearestIn(g: Graph, node: Drv, idx: map<Drv, nat>, memo: Memo, ghost stack: set<Drv>)
    returns (out: seq<Drv>)
    requires memo.Valid(g, idx.Keys, stack)
    requires forall s :: s in stack ==> s in memo.entries && Reaches(g, s, node)
    modifies memo
    ensures memo.Valid(g, idx.Keys, stack)
    ensures old(memo.entries.Keys) <= memo.entries.Keys
    ensures Distinct(out)
    ensures forall d :: d in out ==> Nearest(g, idx.Keys, node, d)
    ensures Acyclic(g) ==> forall d :: Nearest(g, idx.Keys, node, d) ==> d in out
    decreases NodesOf(g) - memo.entries.Keys, if node in NodesOf(g) then 0 else 1
  {
    if node in memo.entries {
      assert node in stack ==> Reaches(g, node, node);
      return memo.entries[node];
    }
    OpenEntry(memo.entries, g, idx.Keys, stack, node);
    memo.entries := memo.entries[node := []];
    out := [];
    var seen: set<Drv> := {};
    var ins := g.Inputs(node);
    for k := 0 to |ins|
      invariant memo.Valid(g, idx.Keys, stack + {node})
      invariant old(memo.entries.Keys) + {node} <= memo.entries.Keys
      invariant Distinct(out) && forall d :: d in seen <==> d in out
      invariant forall d :: d in out ==> Nearest(g, idx.Keys, node, d)
      invariant Acyclic(g) ==> forall i, d :: 0 <= i < k && Contributes(g, idx.Keys, ins[i], d) ==> d in out
    {
      var input := ins[k];
      assert input in g.inputs[node];
      var more := [input];
      if input !in idx {
        InputExtendsStack(g, node, input, stack);
        assert node in NodesOf(g) - old(memo.entries.Keys) && node !in NodesOf(g) - memo.entries.Keys;
        more := NearestIn(g, input, idx, memo, stack + {node});
      }
      AllContribute(g, idx.Keys, node, input, more);
      out, seen := AppendUnseen(out, seen, more);
    }
    AllContributionsFound(g, idx.Keys, node, out);
    CloseEntry(memo.entries, g, idx.Keys, stack, node, out);
    memo.entries := memo.entries[node := out];
  }

  lemma AllContribute(g: Graph, planned: set<Drv>, node: Drv, input: Drv, more: seq<Drv>)
    requires input in g.Inputs(node) && forall d :: d in more ==> Contributes(g, planned, input, d)
    ensures forall d :: d in more ==> Nearest(g, planned, node, d)
  {
    forall d | d in more
      ensures Nearest(g, planned, node, d)
    {
      InputContributes(g, planned, node, input, d);
    }
  }

  lemma InputExtendsStack(g: Graph, node: Drv, input: Drv, stack: set<Drv>)
    requires input in g.Inputs(node)
    requires forall s :: s in stack ==> Reaches(g, s, node)
    ensures forall s :: s in stack + {node} ==> Reaches(g, s, input)
  {
    EdgeReaches(g, node, input);
    forall s | s in stack
      ensures Reaches(g, s, input)
    {
      ReachesJoin(g, s, node, input);
    }
  }

  lemma AllContributionsFound(g: Graph, planned: set<Drv>, node: Drv, out: seq<Drv>)
    ensures (forall i, d :: 0 <= i < |g.Inputs(node)| && Contributes(g, planned, g.Inputs(node)[i], d) ==> d in out)
        ==> forall d :: Nearest(g, planned, node, d) ==> d in out
  {
    if forall i, d :: 0 <= i < |g.Inputs(node)| && Contributes(g, planned, g.Inputs(node)[i], d) ==> d in out {
      forall d | Nearest(g, planned, node, d)
        ensures d in out
      {
        var input := NearestSplits(g, planned, node, d);
      }
    }
  }

  // ---------------------------------------------------------------- buildTree

  ghost function Planned(drvs: seq<Drv>): set<Drv> {
    set d | d in drvs
  }

  /** Node indices are in range, no child is listed twice and no node is its own child. */
  ghost predicate WellFormed(t: Tree) {
    (forall i, c :: 0 <= i < |t.nodes| && c in t.nodes[i].children ==> c < |t.nodes| && c != i) &&
    (forall i :: 0 <= i < |t.nodes| ==> Distinct(t.nodes[i].children)) &&
    (forall r :: r in t.roots ==> r < |t.nodes|) && Distinct(t.roots)
  }

  ghost predicate IsChild(t: Tree, j: nat) {
    exists i :: 0 <= i < |t.nodes| && j in t.nodes[i].children
  }

  /** The roots are the nodes no other node has as a child. */
  ghost predicate RootsAreParentless(t: Tree) {
    forall j: nat :: j in t.roots <==> j < |t.nodes| && !IsChild(t, j)
  }

  /** Node i is the i-th derivation of the run, named after its store path. */
  ghost predicate Labelled(t: Tree, drvs: seq<Drv>) {
    |t.nodes| == |drvs| &&
    forall i :: 0 <= i < |drvs| ==>
      t.nodes[i].drv == drvs[i] && t.nodes[i].name == NodeName(drvs[i])
  }

  /** i lists j exactly when j is one of the planned derivations nearest to i. */
  ghost predicate EdgesAreNearest(t: Tree, drvs: seq<Drv>, g: Graph)
    requires |t.nodes| == |drvs|
  {
    forall i: nat, j: nat :: i < |drvs| && j < |drvs| ==>
      (j in t.nodes[i].children <==> Nearest(g, Planned(drvs), drvs[i], drvs[j]))
  }

  ghost predicate IndexesDrvs(idx: map<Drv, nat>, drvs: seq<Drv>) {
    idx.Keys == Planned(drvs) && forall d :: d in idx ==> idx[d] < |drvs| && drvs[idx[d]] == d
  }

  function NodeName(d: Drv): string { TrimSuffix(StorePath.Name(d), ".drv") }

  /** The label of a node is its derivation's name. */
  lemma NodeNameOf(hash: string, name: string)
    requires '-' !in hash && '/' !in hash && '/' !in name
    ensures NodeName(hash + "-" + (name + ".drv")) == name
  {
    StorePath.NameOf("", hash, name + ".drv");
    StorePath.NameOfDrv("", hash, name);
  }

  method IndexDrvs(drvs: seq<Drv>) returns (idx: map<Drv, nat>, nodes: seq<TreeNode>)
    ensures IndexesDrvs(idx, drvs)
    ensures Labelled(Tree(nodes, []), drvs)
    ensures forall i :: 0 <= i < |nodes| ==> nodes[i].children == []
  {
    hide NodeName;
    idx, nodes := map[], [];
    for i := 0 to |drvs|
      invariant |nodes| == i
      invariant forall k :: 0 <= k < i ==> nodes[k] == TreeNode(NodeName(drvs[k]), drvs[k], [])
      invariant forall k :: 0 <= k < i ==> drvs[k] in idx
      invariant forall d :: d in idx ==> idx[d] < i && drvs[idx[d]] == d
    {
      idx := idx[drvs[i] := i];
      nodes := nodes + [TreeNode(NodeName(drvs[i]), drvs[i], [])];
    }
  }

  /** The children of node i: the positions of its nearest planned derivations, i itself excepted. */
  method ChildrenOf(nearest: seq<Drv>, idx: map<Drv, nat>, drvs: seq<Drv>, i: nat, isChild: array<bool>)
    returns (children: seq<nat>)
    requires IndexesDrvs(idx, drvs) && isChild.Length == |drvs|
    requires Distinct(nearest)
    modifies isChild
    ensures Distinct(children)
    ensures forall j: nat :: j in children <==>
      j < |drvs| && j != i && drvs[j] in nearest && drvs[j] in idx && idx[drvs[j]] == j
    ensures forall j :: 0 <= j < |drvs| ==> isChild[j] == (old(isChild[j]) || j in children)
  {
    children := [];
    for k := 0 to |nearest|
      invariant Distinct(children)
      invariant forall j: nat :: j in children <==>
        j < |drvs| && j != i && drvs[j] in nearest[..k] && drvs[j] in idx && idx[drvs[j]] == j
      invariant forall j :: 0 <= j < |drvs| ==> isChild[j] == (old(isChild[j]) || j in children)
    {
      assert nearest[..k + 1] == nearest[..k] + [nearest[k]];
      if nearest[k] in idx && idx[nearest[k]] != i {
        var j := idx[nearest[k]];
        children := children + [j];
        isChild[j] := true;
      }
    }
    assert nearest[..|nearest|] == nearest;
  }

  /** What the loop of BuildTree has established about node k once its children are set. */
  ghost predicate NodeDone(g: Graph, drvs: seq<Drv>, idx: map<Drv, nat>, k: nat, children: seq<nat>)
    requires IndexesDrvs(idx, drvs) && k < |drvs|
  {
    Distinct(children) &&
    (forall c :: c in children ==> c < |drvs| && c != k && Nearest(g, idx.Keys, drvs[k], drvs[c])) &&
    (Acyclic(g) ==> forall c: nat ::
      c < |drvs| && c != k && idx[drvs[c]] == c && Nearest(g, idx.Keys, drvs[k], drvs[c]) ==> c in children)
  }

  ghost predicate HasParent(kids: seq<seq<nat>>, j: nat) {
    exists k :: 0 <= k < |kids| && j in kids[k]
  }

  lemma HasParentAppend(kids: seq<seq<nat>>, more: seq<nat>, j: nat)
    ensures HasParent(kids + [more], j) <==> HasParent(kids, j) || j in more
  {
    if HasParent(kids, j) {
      var k :| 0 <= k < |kids| && j in kids[k];
      assert j in (kids + [more])[k];
    }
    if j in more {
      assert j in (kids + [more])[|kids|];
    }
  }

  /** The main loop of buildTree: gives every node its children and marks them in isChild. */
  method LinkNodes(g: Graph, drvs: seq<Drv>, idx: map<Drv, nat>, bare: seq<TreeNode>, isChild: array<bool>)
    returns (nodes: seq<TreeNode>)
    requires IndexesDrvs(idx, drvs) && |bare| == |drvs| && isChild.Length == |drvs|
    requires forall j :: 0 <= j < |drvs| ==> !isChild[j]
    modifies isChild
    ensures |nodes| == |drvs|
    ensures forall k :: 0 <= k < |drvs| ==> nodes[k].name == bare[k].name && nodes[k].drv == bare[k].drv
    ensures forall k :: 0 <= k < |drvs| ==> NodeDone(g, drvs, idx, k, nodes[k].children)
    ensures forall j: nat :: j < |drvs| ==> isChild[j] == IsChild(Tree(nodes, []), j)
  {
    var memo := new Memo();
    nodes := bare;
    ghost var kids: seq<seq<nat>> := [];
    for i := 0 to |drvs|
      invariant memo.Valid(g, idx.Keys, {})
      invariant |kids| == i && |nodes| == |drvs|
      invariant forall k :: 0 <= k < |drvs| ==> nodes[k].name == bare[k].name && nodes[k].drv == bare[k].drv
      invariant forall k :: 0 <= k < i ==> nodes[k].children == kids[k] && NodeDone(g, drvs, idx, k, kids[k])
      invariant forall j :: 0 <= j < |drvs| ==> isChild[j] == HasParent(kids, j)
    {
      var nearest := NearestIn(g, drvs[i], idx, memo, {});
      var children := ChildrenOf(nearest, idx, drvs, i, isChild);
      forall j: nat
        ensures HasParent(kids + [children], j) <==> HasParent(kids, j) || j in children
      {
        HasParentAppend(kids, children, j);
      }
      nodes := nodes[i := nodes[i].(children := children)];
      kids := kids + [children];
    }
    KidsAreChildren(kids, Tree(nodes, []));
  }

  lemma KidsAreChildren(kids: seq<seq<nat>>, t: Tree)
    requires |kids| == |t.nodes| && forall k :: 0 <= k < |kids| ==> t.nodes[k].children == kids[k]
    ensures forall j: nat :: HasParent(kids, j) <==> IsChild(t, j)
  {
    forall j: nat
      ensures HasParent(kids, j) <==> IsChild(t, j)
    {
      if HasParent(kids, j) {
        var k :| 0 <= k < |kids| && j in kids[k];
        assert j in t.nodes[k].children;
      }
      if IsChild(t, j) {
        var k :| 0 <= k < |t.nodes| && j in t.nodes[k].children;
        assert j in kids[k];
      }
    }
  }

  method BuildTree(drvs: seq<Drv>, graph: Option<Graph>) returns (t: Tree)
    ensures Labelled(t, drvs) && WellFormed(t) && RootsAreParentless(t)
    ensures graph.None? ==> t.roots == seq(|drvs|, i => i) && forall i :: 0 <= i < |drvs| ==> t.nodes[i].children == []
    ensures graph.Some? ==> forall i: nat, j: nat :: i < |drvs| && j in t.nodes[i].children ==>
      Nearest(graph.value, Planned(drvs), drvs[i], drvs[j])
    ensures graph.Some? && Acyclic(graph.value) && Distinct(drvs) ==> EdgesAreNearest(t, drvs, graph.value)
    ensures graph.Some? ==> RootsByName(t)
  {
    var idx, bare := IndexDrvs(drvs);
    if graph.None? {
      t := Tree(bare, seq(|drvs|, i => i));
      FlatForest(t);
      return;
    }
    var isChild := new bool[|drvs|](_ => false);
    var nodes := LinkNodes(graph.value, drvs, idx, bare, isChild);
    var roots := Parentless(isChild);
    var sorted := SortByKey(roots, (r: nat) => NameAt(nodes, r));
    PermutationKeepsDistinct(roots, sorted);
    t := Tree(nodes, sorted);
    assert forall j: nat :: IsChild(t, j) <==> IsChild(Tree(nodes, []), j);
    if Acyclic(graph.value) && Distinct(drvs) {
      NodesDoneAreExact(t, drvs, graph.value, idx);
    }
  }

  lemma FlatForest(t: Tree)
    requires t.roots == seq(|t.nodes|, i => i)
    requires forall i :: 0 <= i < |t.nodes| ==> t.nodes[i].children == []
    ensures WellFormed(t) && RootsAreParentless(t)
  {
    forall j: nat
      ensures j in t.roots <==> j < |t.nodes|
    {
      if j < |t.nodes| {
        assert t.roots[j] == j;
      }
    }
  }

  function NameAt(nodes: seq<TreeNode>, r: nat): string {
    if r < |nodes| then nodes[r].name else ""
  }

  ghost predicate RootsByName(t: Tree) {
    SortedBy(t.roots, (r: nat) => NameAt(t.nodes, r))
  }

  method Parentless(isChild: array<bool>) returns (roots: seq<nat>)
    ensures Distinct(roots)
    ensures forall r: nat :: r in roots <==> r < isChild.Length && !isChild[r]
  {
    roots := [];
    for i := 0 to isChild.Length
      invariant Distinct(roots)
      invariant forall r: nat :: r in roots <==> r < i && !isChild[r]
    {
      if !isChild[i] {
        roots := roots + [i];
      }
    }
  }

  lemma NodesDoneAreExact(t: Tree, drvs: seq<Drv>, g: Graph, idx: map<Drv, nat>)
    requires |t.nodes| == |drvs| && IndexesDrvs(idx, drvs) && Acyclic(g) && Distinct(drvs)
    requires forall k :: 0 <= k < |drvs| ==> NodeDone(g, drvs, idx, k, t.nodes[k].children)
    ensures EdgesAreNearest(t, drvs, g)
  {
    forall i: nat, j: nat | i < |drvs| && j < |drvs| && Nearest(g, Planned(drvs), drvs[i], drvs[j])
      ensures j in t.nodes[i].children
    {
      NearestReaches(g, Planned(drvs), drvs[i], drvs[j]);
      assert drvs[j] in idx && idx[drvs[j]] == j;
      assert NodeDone(g, drvs, idx, i, t.nodes[i].children);
    }
  }

  lemma PermutationKeepsDistinct<T(!new)>(xs: seq<T>, ys: seq<T>)
    requires multiset(xs) == multiset(ys) && Distinct(xs)
    ensures Distinct(ys)
    ensures forall x :: x in xs <==> x in ys
  {
    forall x
      ensures x in xs <==> x in ys
    {
      assert x in multiset(xs) <==> x in multiset(ys);
    }
    forall i, j | 0 <= i < j < |ys|
      ensures ys[i] != ys[j]
    {
      if ys[i] == ys[j] {
        assert ys == ys[..i] + [ys[i]] + ys[i + 1..j] + [ys[j]] + ys[j + 1..];
        assert multiset(ys)[ys[i]] >= 2;
        DistinctCountsOnce(xs, ys[i]);
      }
    }
  }

  lemma {:induction false} DistinctCountsOnce<T(!new)>(xs: seq<T>, x: T)
    requires Distinct(xs)
    ensures multiset(xs)[x] <= 1
  {
    if xs != [] {
      DistinctCountsOnce(xs[1..], x);
      assert xs == [xs[0]] + xs[1..];
      if xs[0] == x {
        assert x !in xs[1..];
      }
    }
  }

  // ---------------------------------------------------------------- reachability in the forest

  ghost predicate TreeWalk(t: Tree, p: seq<nat>) {
    |p| >= 1 && (forall k :: 0 <= k < |p| ==> p[k] < |t.nodes|) &&
    forall k :: 0 <= k < |p| - 1 ==> p[k + 1] in t.nodes[p[k]].children
  }

  ghost predicate TreeWalkFromTo(t: Tree, p: seq<nat>, i: nat, j: nat) {
    TreeWalk(t, p) && |p| >= 2 && p[0] == i && p[|p| - 1] == j
  }

  /** j is a strict descendant of i in the forest. */
  ghost predicate TreeReaches(t: Tree, i: nat, j: nat) {
    exists p :: TreeWalkFromTo(t, p, i, j)
  }

  /** What BuildTree returns for an acyclic graph and distinct derivations. */
  ghost predicate Contracted(t: Tree, drvs: seq<Drv>, g: Graph) {
    Labelled(t, drvs) && WellFormed(t) && RootsAreParentless(t) &&
    Acyclic(g) && Distinct(drvs) && EdgesAreNearest(t, drvs, g)
  }

  /** Contraction neither adds nor loses reachability between planned derivations. */
  lemma ContractionPreservesReachability(t: Tree, drvs: seq<Drv>, g: Graph, i: nat, j: nat)
    requires Contracted(t, drvs, g) && i < |drvs| && j < |drvs|
    ensures TreeReaches(t, i, j) <==> Reaches(g, drvs[i], drvs[j])
  {
    if TreeReaches(t, i, j) {
      var p :| TreeWalkFromTo(t, p, i, j);
      TreeWalkReaches(t, drvs, g, p);
    }
    if Reaches(g, drvs[i], drvs[j]) {
      var p :| WalkFromTo(g, p, drvs[i], drvs[j]);
      WalkContracts(t, drvs, g, p, i, j);
    }
  }

  lemma {:induction false} TreeWalkReaches(t: Tree, drvs: seq<Drv>, g: Graph, p: seq<nat>)
    requires Contracted(t, drvs, g) && TreeWalk(t, p) && |p| >= 2
    ensures Reaches(g, drvs[p[0]], drvs[p[|p| - 1]])
    decreases |p|
  {
    assert p[1] in t.nodes[p[0]].children;
    NearestReaches(g, Planned(drvs), drvs[p[0]], drvs[p[1]]);
    if |p| > 2 {
      TreeWalkReaches(t, drvs, g, p[1..]);
      ReachesJoin(g, drvs[p[0]], drvs[p[1]], drvs[p[|p| - 1]]);
    }
  }

  /** First index after 0 at which a walk meets a planned derivation. */
  ghost function FirstPlanned(p: seq<Drv>, planned: set<Drv>, from: nat): (k: nat)
    requires 0 < from < |p| && p[|p| - 1] in planned
    ensures from <= k < |p| && p[k] in planned
    ensures forall m :: from <= m < k ==> p[m] !in planned
    decreases |p| - from
  {
    if p[from] in planned then from else FirstPlanned(p, planned, from + 1)
  }

  lemma WalkSplitsAtFirstPlanned(g: Graph, planned: set<Drv>, p: seq<Drv>, a: Drv, b: Drv) returns (k: nat)
    requires WalkFromTo(g, p, a, b) && b in planned
    ensures 0 < k < |p| && p[k] in planned && Nearest(g, planned, a, p[k])
    ensures k < |p| - 1 ==> WalkFromTo(g, p[k..], p[k], b)
  {
    k := FirstPlanned(p, planned, 1);
    assert CollapsedWalk(g, planned, p[..k + 1], a, p[k]);
  }

  lemma {:induction false} WalkContracts(t: Tree, drvs: seq<Drv>, g: Graph, p: seq<Drv>, i: nat, j: nat)
    requires |t.nodes| == |drvs| && Distinct(drvs) && EdgesAreNearest(t, drvs, g) && i < |drvs| && j < |drvs|
    requires WalkFromTo(g, p, drvs[i], drvs[j])
    ensures TreeReaches(t, i, j)
    decreases |p|
  {
    var k := WalkSplitsAtFirstPlanned(g, Planned(drvs), p, drvs[i], drvs[j]);
    var m: nat :| m < |drvs| && drvs[m] == p[k];
    if k == |p| - 1 {
      ChildIsReached(t, i, m);
    } else {
      WalkContracts(t, drvs, g, p[k..], m, j);
      TreeReachesDown(t, i, m, j);
    }
  }

  lemma ChildIsReached(t: Tree, i: nat, j: nat)
    requires i < |t.nodes| && j < |t.nodes| && j in t.nodes[i].children
    ensures TreeReaches(t, i, j)
  {
    assert TreeWalkFromTo(t, [i, j], i, j);
  }

  lemma TreeReachesDown(t: Tree, i: nat, m: nat, j: nat)
    requires i < |t.nodes| && m < |t.nodes| && m in t.nodes[i].children && TreeReaches(t, m, j)
    ensures TreeReaches(t, i, j)
  {
    var q :| TreeWalkFromTo(t, q, m, j);
    assert TreeWalkFromTo(t, [i] + q, i, j);
  }

  lemma TreeReachesUp(t: Tree, r: nat, m: nat, i: nat)
    requires i < |t.nodes| && m < |t.nodes| && i in t.nodes[m].children && TreeReaches(t, r, m)
    ensures TreeReaches(t, r, i)
  {
    var q :| TreeWalkFromTo(t, q, r, m);
    assert TreeWalkFromTo(t, q + [i], r, i);
  }

  /** The roots are exactly the planned derivations no other planned one depends on. */
  lemma RootsHaveNoPlannedDependent(t: Tree, drvs: seq<Drv>, g: Graph, j: nat)
    requires Contracted(t, drvs, g) && j < |drvs|
    ensures j in t.roots <==> forall i: nat :: i < |drvs| ==> !Reaches(g, drvs[i], drvs[j])
  {
    if IsChild(t, j) {
      var i :| 0 <= i < |t.nodes| && j in t.nodes[i].children;
      NearestReaches(g, Planned(drvs), drvs[i], drvs[j]);
    }
    forall i: nat | i < |drvs| && Reaches(g, drvs[i], drvs[j])
      ensures IsChild(t, j)
    {
      ContractionPreservesReachability(t, drvs, g, i, j);
      var p :| TreeWalkFromTo(t, p, i, j);
      assert j in t.nodes[p[|p| - 2]].children;
    }
  }

  /** Every node of the forest is a root or lies below one. */
  lemma EveryNodeUnderARoot(t: Tree, drvs: seq<Drv>, g: Graph, i: nat) returns (r: nat)
    requires Contracted(t, drvs, g) && i < |drvs|
    ensures r in t.roots && (r == i || TreeReaches(t, r, i))
  {
    r := ClimbToRoot(t, drvs, g, i, {});
  }

  lemma {:induction false} ClimbToRoot(t: Tree, drvs: seq<Drv>, g: Graph, i: nat, below: set<nat>) returns (r: nat)
    requires Contracted(t, drvs, g) && i < |drvs|
    requires forall b :: b in below ==> b < |drvs| && Reaches(g, drvs[i], drvs[b])
    ensures r in t.roots && (r == i || TreeReaches(t, r, i))
    decreases |drvs| - |below|
  {
    if i in t.roots {
      r := i;
    } else {
      var up := ParentOf(t, drvs, g, i);
      ParentReachesBelow(drvs, g, up, i, below);
      assert i !in below;
      BoundedSetSize(below + {i}, |drvs|);
      r := ClimbToRoot(t, drvs, g, up, below + {i});
      if r == up {
        ChildIsReached(t, up, i);
      } else {
        TreeReachesUp(t, r, up, i);
      }
    }
  }

  lemma ParentOf(t: Tree, drvs: seq<Drv>, g: Graph, i: nat) returns (up: nat)
    requires Contracted(t, drvs, g) && i < |drvs| && i !in t.roots
    ensures up < |drvs| && i in t.nodes[up].children && Reaches(g, drvs[up], drvs[i])
  {
    assert IsChild(t, i);
    up :| up < |t.nodes| && i in t.nodes[up].children;
    NearestReaches(g, Planned(drvs), drvs[up], drvs[i]);
  }

  lemma ParentReachesBelow(drvs: seq<Drv>, g: Graph, up: nat, i: nat, below: set<nat>)
    requires up < |drvs| && i < |drvs| && Reaches(g, drvs[up], drvs[i])
    requires forall b :: b in below ==> b < |drvs| && Reaches(g, drvs[i], drvs[b])
    ensures forall b :: b in below + {i} ==> b < |drvs| && Reaches(g, drvs[up], drvs[b])
  {
    forall b | b in below
      ensures Reaches(g, drvs[up], drvs[b])
    {
      ReachesJoin(g, drvs[up], drvs[i], drvs[b]);
    }
  }

  lemma {:induction false} BoundedSetSize(s: set<nat>, n: nat)
    requires forall x :: x in s ==> x < n
    ensures |s| <= n
  {
    if n > 0 {
      BoundedSetSize(s - {n - 1}, n - 1);
      assert |s| <= |s - {n - 1}| + 1;
    } else {
      assert s == {};
    }
  }
}
