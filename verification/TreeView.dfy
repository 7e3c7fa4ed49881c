module TreeView {
  // The browser's view of the forest (pkgs/nom-web/static/app.js): the breadth-first
  // parent map, the "active only" visible set and the recursive row renderer.

  import opened Options
  import opened Text
  import opened DepTree

  const UNREACHED := -2
  const ROOT := -1
  const MAX_TREE_ROWS := 3000

  // ---------------------------------------------------------------- computeParents

  /** Some root leads to i over exactly k child edges. */
  ghost predicate AtDepth(t: Tree, i: nat, k: nat) {
    exists p :: TreeWalk(t, p) && p[0] in t.roots && |p| == k + 1 && p[k] == i
  }

  /** k edges lead from a root to i and no fewer do. */
  ghost predicate FewestEdges(t: Tree, i: nat, k: nat) {
    AtDepth(t, i, k) && forall m: nat :: m < k ==> !AtDepth(t, i, m)
  }

  /**
   parent is a breadth-first parent map of t: every reachable node's chain of
   parents ends at a root after the fewest possible edges, depth[i] of them.
   */
  ghost predicate ShortestParents(t: Tree, parent: seq<int>, depth: seq<nat>) {
    |parent| == |depth| == |t.nodes| &&
    ParentsOk(t, parent, depth) &&
    (forall i: nat :: i < |parent| && parent[i] != UNREACHED ==> FewestEdges(t, i, depth[i])) &&
    (forall i: nat, k: nat :: i < |parent| && AtDepth(t, i, k) ==> parent[i] != UNREACHED)
  }

  ghost predicate IsParentMap(t: Tree, parent: seq<int>) {
    exists depth :: ShortestParents(t, parent, depth)
  }

  ghost predicate ParentOk(t: Tree, parent: seq<int>, depth: seq<nat>, i: nat)
    requires |parent| == |depth| == |t.nodes| && i < |parent|
  {
    UNREACHED <= parent[i] < |parent| &&
    (parent[i] == ROOT <==> i in t.roots) &&
    (parent[i] == ROOT ==> depth[i] == 0) &&
    (parent[i] >= 0 ==>
      i in t.nodes[parent[i]].children && parent[parent[i]] != UNREACHED && depth[i] == depth[parent[i]] + 1)
  }

  ghost predicate ParentsOk(t: Tree, parent: seq<int>, depth: seq<nat>)
    requires |parent| == |depth| == |t.nodes|
  {
    forall i :: 0 <= i < |parent| ==> ParentOk(t, parent, depth, i)
  }

  ghost predicate DepthsOk(t: Tree, parent: seq<int>, depth: seq<nat>)
    requires |parent| == |depth| == |t.nodes|
  {
    forall i: nat :: i < |parent| && parent[i] != UNREACHED ==> AtDepth(t, i, depth[i])
  }

  /** The queue holds exactly the nodes reached so far, in order of depth. */
  ghost predicate QueueOk(t: Tree, parent: seq<int>, depth: seq<nat>, queue: seq<nat>, head: nat)
    requires |parent| == |depth| == |t.nodes|
  {
    head <= |queue| && Distinct(queue) &&
    (forall a :: 0 <= a < |queue| ==> queue[a] < |t.nodes|) &&
    (forall i: nat :: i < |parent| ==> (parent[i] != UNREACHED <==> i in queue)) &&
    (forall a, b :: 0 <= a < b < |queue| ==> depth[queue[a]] <= depth[queue[b]]) &&
    (forall a, b :: 0 <= a < |queue| && head <= b < |queue| ==> depth[queue[a]] <= depth[queue[b]] + 1)
  }

  /** The children of every node taken off the queue are reached, at most one edge further away. */
  ghost predicate ProcessedOk(t: Tree, depth: seq<nat>, queue: seq<nat>, head: nat)
    requires |depth| == |t.nodes| && WellFormed(t)
    requires forall a :: 0 <= a < |queue| ==> queue[a] < |t.nodes|
  {
    forall a, c :: 0 <= a < head && a < |queue| && c in t.nodes[queue[a]].children ==>
      c in queue && depth[c] <= depth[queue[a]] + 1
  }

  lemma RootAtDepthZero(t: Tree, r: nat)
    requires WellFormed(t) && r in t.roots
    ensures AtDepth(t, r, 0)
  {
    assert TreeWalk(t, [r]);
  }

  lemma ChildOneDeeper(t: Tree, i: nat, c: nat, k: nat)
    requires WellFormed(t) && i < |t.nodes| && c in t.nodes[i].children && AtDepth(t, i, k)
    ensures AtDepth(t, c, k + 1)
  {
    var p :| TreeWalk(t, p) && p[0] in t.roots && |p| == k + 1 && p[k] == i;
    var q := p + [c];
    assert TreeWalk(t, q) && q[0] in t.roots && |q| == k + 2 && q[k + 1] == c;
  }

  /** The breadth-first invariant: every reached node has a correct parent and a real depth. */
  ghost predicate BfsOk(t: Tree, parent: seq<int>, depth: seq<nat>, queue: seq<nat>, head: nat) {
    WellFormed(t) && |parent| == |depth| == |t.nodes| && QueueOk(t, parent, depth, queue, head) &&
    t.roots <= queue && ParentsOk(t, parent, depth) && DepthsOk(t, parent, depth)
  }

  method ComputeParents(t: Tree) returns (parent: seq<int>, ghost depth: seq<nat>)
    requires WellFormed(t)
    ensures ShortestParents(t, parent, depth) && IsParentMap(t, parent)
  {
    parent := seq(|t.nodes|, _ => UNREACHED);
    depth := seq(|t.nodes|, _ => 0);
    var queue: seq<nat> := [];
    for k := 0 to |t.roots|
      invariant |parent| == |t.nodes|
      invariant queue == t.roots[..k]
      invariant forall i: nat :: i < |parent| ==> parent[i] == (if i in queue then ROOT else UNREACHED)
    {
      assert t.roots[k] in t.roots;
      parent := parent[t.roots[k] := ROOT];
      queue := queue + [t.roots[k]];
    }
    assert queue == t.roots;
    forall r | r in t.roots
      ensures AtDepth(t, r, 0)
    {
      RootAtDepthZero(t, r);
    }
    var head := 0;
    assert forall a :: 0 <= a < |queue| ==> queue[a] in t.roots;
    while head < |queue|
      invariant BfsOk(t, parent, depth, queue, head)
      invariant ProcessedOk(t, depth, queue, head)
      decreases |t.nodes| - head
    {
      DistinctFits(queue, |t.nodes|);
      parent, depth, queue := ReachChildren(t, queue[head], parent, depth, queue, head);
      head := head + 1;
    }
    ReachedAtFewestEdges(t, parent, depth, queue);
  }

  lemma DistinctFits(queue: seq<nat>, n: nat)
    requires Distinct(queue) && forall a :: 0 <= a < |queue| ==> queue[a] < n
    ensures |queue| <= n
  {
    DistinctSize(queue);
    BoundedSetSize(Elements(queue), n);
  }

  /** The queue grows at its end and the depths of the nodes it held are final. */
  ghost predicate Extends(queue: seq<nat>, depth: seq<nat>, queue': seq<nat>, depth': seq<nat>) {
    queue <= queue' && |depth| == |depth'| &&
    forall a :: 0 <= a < |queue| ==> queue[a] < |depth| && depth'[queue[a]] == depth[queue[a]]
  }

  lemma ExtendsAgain(q: seq<nat>, d: seq<nat>, q': seq<nat>, d': seq<nat>, q'': seq<nat>, d'': seq<nat>)
    requires Extends(q, d, q', d') && Extends(q', d', q'', d'')
    ensures Extends(q, d, q'', d'')
  {
    forall a | 0 <= a < |q|
      ensures q[a] < |d| && d''[q[a]] == d[q[a]]
    {
      assert q[a] == q'[a];
    }
  }

  lemma QueueGrows(t: Tree, parent: seq<int>, depth: seq<nat>, queue: seq<nat>, head: nat, c: nat)
    requires |parent| == |depth| == |t.nodes| && c < |t.nodes| && parent[c] == UNREACHED
    requires QueueOk(t, parent, depth, queue, head) && head < |queue|
    ensures c !in queue
    ensures QueueOk(t, parent[c := queue[head]], depth[c := depth[queue[head]] + 1], queue + [c], head)
  {
    assert c !in queue;
    var depth' := depth[c := depth[queue[head]] + 1];
    assert forall a :: 0 <= a < |queue| ==> queue[a] != c && depth'[queue[a]] == depth[queue[a]];
  }

  lemma ParentsGrow(t: Tree, parent: seq<int>, depth: seq<nat>, i: nat, c: nat)
    requires |parent| == |depth| == |t.nodes| && i < |t.nodes| && c < |t.nodes|
    requires parent[c] == UNREACHED && parent[i] != UNREACHED && c in t.nodes[i].children
    requires ParentsOk(t, parent, depth)
    ensures ParentsOk(t, parent[c := i], depth[c := depth[i] + 1])
  {
    var parent', depth' := parent[c := i], depth[c := depth[i] + 1];
    forall k | 0 <= k < |parent|
      ensures ParentOk(t, parent', depth', k)
    {
      assert ParentOk(t, parent, depth, k);
      assert ParentOk(t, parent, depth, c);
    }
  }

  lemma DepthsGrow(t: Tree, parent: seq<int>, depth: seq<nat>, i: nat, c: nat)
    requires WellFormed(t) && |parent| == |depth| == |t.nodes| && i < |t.nodes| && c in t.nodes[i].children
    requires parent[i] != UNREACHED && DepthsOk(t, parent, depth)
    ensures DepthsOk(t, parent[c := i], depth[c := depth[i] + 1])
  {
    ChildOneDeeper(t, i, c, depth[i]);
    var parent', depth' := parent[c := i], depth[c := depth[i] + 1];
    forall k: nat | k < |parent'| && parent'[k] != UNREACHED
      ensures AtDepth(t, k, depth'[k])
    {
    }
  }

  /** Enqueueing an unreached child of the node at the head keeps the invariant. */
  lemma ReachOne(t: Tree, parent: seq<int>, depth: seq<nat>, queue: seq<nat>, head: nat, c: nat)
    requires BfsOk(t, parent, depth, queue, head) && head < |queue|
    requires c in t.nodes[queue[head]].children && parent[c] == UNREACHED
    ensures BfsOk(t, parent[c := queue[head]], depth[c := depth[queue[head]] + 1], queue + [c], head)
    ensures Extends(queue, depth, queue + [c], depth[c := depth[queue[head]] + 1])
  {
    var i := queue[head];
    assert i in queue;
    QueueGrows(t, parent, depth, queue, head, c);
    ParentsGrow(t, parent, depth, i, c);
    DepthsGrow(t, parent, depth, i, c);
  }

  /** The body of the breadth-first loop: enqueue the children of i that were not reached before. */
  method ReachChildren(t: Tree, i: nat, parent: seq<int>, ghost depth: seq<nat>, queue: seq<nat>, ghost head: nat)
    returns (parent': seq<int>, ghost depth': seq<nat>, queue': seq<nat>)
    requires BfsOk(t, parent, depth, queue, head) && head < |queue| && queue[head] == i
    requires ProcessedOk(t, depth, queue, head)
    ensures BfsOk(t, parent', depth', queue', head + 1)
    ensures ProcessedOk(t, depth', queue', head + 1)
  {
    parent', depth', queue' := parent, depth, queue;
    var children := t.nodes[i].children;
    ExtendsItself(queue, depth);
    parent', depth', queue' := ReachAll(t, i, children, parent, depth, queue, head);
    HeadDone(t, depth, queue, parent', depth', queue', head);
  }

  lemma ExtendsItself(queue: seq<nat>, depth: seq<nat>)
    requires forall a :: 0 <= a < |queue| ==> queue[a] < |depth|
    ensures Extends(queue, depth, queue, depth)
  {
  }

  /** The for loop over the children. */
  method ReachAll(t: Tree, i: nat, children: seq<nat>, parent: seq<int>, ghost depth: seq<nat>, queue: seq<nat>,
                  ghost head: nat)
    returns (parent': seq<int>, ghost depth': seq<nat>, queue': seq<nat>)
    requires i < |t.nodes| && Elements(children) <= Elements(t.nodes[i].children)
    requires BfsOk(t, parent, depth, queue, head) && head < |queue| && queue[head] == i
    requires Extends(queue, depth, queue, depth)
    ensures BfsOk(t, parent', depth', queue', head)
    ensures Extends(queue, depth, queue', depth')
    ensures Elements(children) <= Elements(queue')
  {
    hide BfsOk, Extends;
    parent', depth', queue' := parent, depth, queue;
    for m := 0 to |children|
      invariant BfsOk(t, parent', depth', queue', head) && head < |queue'| && queue'[head] == i
      invariant Extends(queue, depth, queue', depth')
      invariant forall a :: 0 <= a < m ==> children[a] in Elements(queue')
    {
      assert children[m] in Elements(children);
      parent', depth', queue' := ReachChild(t, i, children[m], parent', depth', queue', head, queue, depth);
    }
  }

  lemma HeadDone(t: Tree, depth: seq<nat>, queue: seq<nat>, parent': seq<int>, depth': seq<nat>, queue': seq<nat>,
                 head: nat)
    requires BfsOk(t, parent', depth', queue', head) && head < |queue| && Extends(queue, depth, queue', depth')
    requires Elements(t.nodes[queue[head]].children) <= Elements(queue')
    requires ProcessedOk(t, depth, queue, head)
    ensures BfsOk(t, parent', depth', queue', head + 1)
    ensures ProcessedOk(t, depth', queue', head + 1)
  {
    forall c | c in t.nodes[queue[head]].children
      ensures c in queue'
    {
      assert c in Elements(queue');
    }
    HeadProcessed(t, depth, queue, depth', queue', head);
  }

  method ReachChild(t: Tree, i: nat, c: nat, parent: seq<int>, ghost depth: seq<nat>, queue: seq<nat>, ghost head: nat,
                    ghost queue0: seq<nat>, ghost depth0: seq<nat>)
    returns (parent': seq<int>, ghost depth': seq<nat>, queue': seq<nat>)
    requires BfsOk(t, parent, depth, queue, head) && head < |queue| && queue[head] == i
    requires i < |t.nodes| && c in t.nodes[i].children
    requires Extends(queue0, depth0, queue, depth)
    ensures BfsOk(t, parent', depth', queue', head)
    ensures Extends(queue0, depth0, queue', depth')
    ensures Elements(queue) + {c} <= Elements(queue') && queue <= queue'
  {
    hide Extends;
    parent', depth', queue' := parent, depth, queue;
    if parent[c] == UNREACHED {
      ReachOne(t, parent, depth, queue, head, c);
      ExtendsAgain(queue0, depth0, queue, depth, queue + [c], depth[c := depth[i] + 1]);
      parent' := parent[c := i];
      depth' := depth[c := depth[i] + 1];
      queue' := queue + [c];
    }
  }

  lemma HeadProcessed(t: Tree, depth: seq<nat>, queue: seq<nat>, depth': seq<nat>, queue': seq<nat>, head: nat)
    requires WellFormed(t) && |depth| == |t.nodes| && head < |queue| && Extends(queue, depth, queue', depth')
    requires forall a :: 0 <= a < |queue'| ==> queue'[a] < |t.nodes|
    requires forall a :: 0 <= a < |queue'| ==> depth'[queue'[a]] <= depth'[queue'[head]] + 1
    requires forall c :: c in t.nodes[queue[head]].children ==> c in queue'
    requires ProcessedOk(t, depth, queue, head)
    ensures ProcessedOk(t, depth', queue', head + 1)
  {
    forall a, c | 0 <= a < head + 1 && c in t.nodes[queue'[a]].children
      ensures c in queue' && depth'[c] <= depth'[queue'[a]] + 1
    {
      if a < head {
        assert c in queue;
        var b :| 0 <= b < |queue| && queue[b] == c;
      } else {
        var b :| 0 <= b < |queue'| && queue'[b] == c;
      }
    }
  }

  /** When the queue is exhausted, no walk from a root is shorter than the recorded depth. */
  lemma ReachedAtFewestEdges(t: Tree, parent: seq<int>, depth: seq<nat>, queue: seq<nat>)
    requires BfsOk(t, parent, depth, queue, |queue|) && ProcessedOk(t, depth, queue, |queue|)
    ensures ShortestParents(t, parent, depth)
  {
    forall i: nat, k: nat | i < |parent| && AtDepth(t, i, k)
      ensures parent[i] != UNREACHED && depth[i] <= k
    {
      var p :| TreeWalk(t, p) && p[0] in t.roots && |p| == k + 1 && p[k] == i;
      WalkBoundsDepth(t, parent, depth, queue, p, k);
    }
  }

  lemma {:induction false} WalkBoundsDepth(t: Tree, parent: seq<int>, depth: seq<nat>, queue: seq<nat>, p: seq<nat>,
                                           k: nat)
    requires BfsOk(t, parent, depth, queue, |queue|) && ProcessedOk(t, depth, queue, |queue|)
    requires TreeWalk(t, p) && p[0] in t.roots && k < |p|
    ensures p[k] in queue && depth[p[k]] <= k
  {
    if k == 0 {
      assert ParentOk(t, parent, depth, p[0]);
    } else {
      WalkBoundsDepth(t, parent, depth, queue, p, k - 1);
      var a :| 0 <= a < |queue| && queue[a] == p[k - 1];
      assert p[k - 1 + 1] in t.nodes[queue[a]].children;
    }
  }

  // ---------------------------------------------------------------- visibleSet

  /** n is the k-th ancestor of i. */
  ghost predicate Above(parent: seq<int>, n: nat, i: nat, k: nat)
    decreases k
  {
    i < |parent| && if k == 0 then n == i else 0 <= parent[i] && Above(parent, n, parent[i], k - 1)
  }

  /** n is i itself or lies on i's chain of parents. */
  ghost predicate OnChain(parent: seq<int>, n: nat, i: nat) {
    exists k: nat :: Above(parent, n, i, k)
  }

  /** State bytes 1 (building) and 3 (transferring); a node without a byte is planned. */
  predicate Active(states: seq<nat>, i: nat) {
    i < |states| && (states[i] == 1 || states[i] == 3)
  }

  ghost predicate ClosedUnderParents(parent: seq<int>, visible: seq<bool>) {
    |visible| == |parent| &&
    forall m :: 0 <= m < |parent| && visible[m] && parent[m] >= 0 ==> parent[m] < |parent| && visible[parent[m]]
  }

  ghost predicate OnActiveChain(parent: seq<int>, states: seq<nat>, m: nat, upto: nat) {
    exists i: nat :: i < upto && Active(states, i) && OnChain(parent, m, i)
  }

  method VisibleSet(parent: seq<int>, states: seq<nat>) returns (visible: seq<bool>)
    requires forall i :: 0 <= i < |parent| ==> parent[i] < |parent|
    ensures ClosedUnderParents(parent, visible)
    ensures forall m :: 0 <= m < |parent| ==> (visible[m] <==> OnActiveChain(parent, states, m, |parent|))
  {
    hide OnChain, MarksJustified, OnActiveChain;
    visible := seq(|parent|, _ => false);
    NothingMarked(parent, states, visible);
    for i := 0 to |parent|
      invariant ClosedUnderParents(parent, visible)
      invariant ActiveMarked(states, visible, i)
      invariant MarksJustified(parent, states, visible, i)
    {
      var before := visible;
      if Active(states, i) {
        visible := MarkChain(parent, visible, i);
      }
      MarksStayJustified(parent, states, before, visible, i);
    }
    MarksComplete(parent, states, visible);
  }

  ghost predicate ActiveMarked(states: seq<nat>, visible: seq<bool>, upto: nat) {
    forall a: nat :: a < upto && a < |visible| && Active(states, a) ==> visible[a]
  }

  ghost predicate MarksJustified(parent: seq<int>, states: seq<nat>, visible: seq<bool>, upto: nat) {
    forall m: nat :: m < |visible| && visible[m] ==> OnActiveChain(parent, states, m, upto)
  }

  lemma NothingMarked(parent: seq<int>, states: seq<nat>, visible: seq<bool>)
    requires forall m :: 0 <= m < |visible| ==> !visible[m]
    ensures MarksJustified(parent, states, visible, 0)
  {
  }

  lemma MarksStayJustified(parent: seq<int>, states: seq<nat>, before: seq<bool>, visible: seq<bool>, i: nat)
    requires |before| == |visible| == |parent| && i < |parent| && MarksJustified(parent, states, before, i)
    requires visible == before || (Active(states, i) &&
      forall m: nat :: m < |parent| && visible[m] ==> before[m] || OnChain(parent, m, i))
    ensures MarksJustified(parent, states, visible, i + 1)
  {
    forall m: nat | m < |visible| && visible[m]
      ensures OnActiveChain(parent, states, m, i + 1)
    {
      if before[m] {
        var a: nat :| a < i && Active(states, a) && OnChain(parent, m, a);
      }
    }
  }

  lemma MarksComplete(parent: seq<int>, states: seq<nat>, visible: seq<bool>)
    requires ClosedUnderParents(parent, visible) && ActiveMarked(states, visible, |parent|)
    requires MarksJustified(parent, states, visible, |parent|)
    ensures forall m :: 0 <= m < |parent| ==> (visible[m] <==> OnActiveChain(parent, states, m, |parent|))
  {
    forall m: nat | m < |parent| && OnActiveChain(parent, states, m, |parent|)
      ensures visible[m]
    {
      var i: nat :| i < |parent| && Active(states, i) && OnChain(parent, m, i);
      var k :| Above(parent, m, i, k);
      ClosedReachesAncestors(parent, visible, m, i, k);
    }
  }

  /** The inner loop: walks up from i until a root or an already visible node. */
  method MarkChain(parent: seq<int>, before: seq<bool>, i: nat) returns (visible: seq<bool>)
    requires forall i :: 0 <= i < |parent| ==> parent[i] < |parent|
    requires ClosedUnderParents(parent, before) && i < |parent|
    ensures ClosedUnderParents(parent, visible) && visible[i]
    ensures forall m :: 0 <= m < |parent| ==> (before[m] ==> visible[m])
    ensures forall m :: 0 <= m < |parent| && visible[m] ==> before[m] || OnChain(parent, m, i)
  {
    visible := before;
    var n: int := i;
    ghost var k: nat := 0;
    while n >= 0 && !visible[n]
      invariant |visible| == |parent| && n < |parent|
      invariant n >= 0 ==> Above(parent, n, i, k)
      invariant n == i || visible[i]
      invariant forall m :: 0 <= m < |parent| ==> (before[m] ==> visible[m])
      invariant forall m :: 0 <= m < |parent| && visible[m] ==> before[m] || OnChain(parent, m, i)
      invariant forall m :: 0 <= m < |parent| && visible[m] && parent[m] >= 0 ==> visible[parent[m]] || parent[m] == n
      decreases Elements(seq(|parent|, j => j)) - HoldingSet(visible)
    {
      assert n in Elements(seq(|parent|, j => j)) by {
        assert seq(|parent|, j => j)[n] == n;
      }
      assert n !in HoldingSet(visible) && n in HoldingSet(visible[n := true]);
      visible := visible[n := true];
      if parent[n] >= 0 {
        AboveOneMore(parent, n, i, k);
      }
      n, k := parent[n], k + 1;
    }
  }

  ghost function HoldingSet(visible: seq<bool>): set<int> {
    set m | 0 <= m < |visible| && visible[m]
  }

  lemma {:induction false} AboveOneMore(parent: seq<int>, n: nat, i: nat, k: nat)
    requires Above(parent, n, i, k) && n < |parent| && 0 <= parent[n] < |parent|
    ensures Above(parent, parent[n], i, k + 1)
    decreases k
  {
    if k > 0 {
      AboveOneMore(parent, n, parent[i], k - 1);
    }
  }

  lemma {:induction false} ClosedReachesAncestors(parent: seq<int>, visible: seq<bool>, n: nat, i: nat, k: nat)
    requires ClosedUnderParents(parent, visible) && Above(parent, n, i, k) && visible[i]
    ensures n < |parent| && visible[n]
    decreases k
  {
    if k > 0 {
      ClosedReachesAncestors(parent, visible, n, parent[i], k - 1);
    }
  }

  // ---------------------------------------------------------------- renderTree

  /** The part of ShortestParents the renderer relies on. */
  ghost predicate ParentMap(t: Tree, parent: seq<int>, depth: seq<nat>) {
    WellFormed(t) && |parent| == |depth| == |t.nodes| && ParentsOk(t, parent, depth)
  }

  ghost function VisibleNodes(visible: seq<bool>): set<nat> {
    set m: nat | m < |visible| && visible[m]
  }

  /** The visible nodes at or below i. */
  ghost function Below(parent: seq<int>, visible: seq<bool>, i: nat): set<nat> {
    set m: nat | m < |visible| && visible[m] && OnChain(parent, i, m)
  }

  /** The visible nodes below the first m children of i that have i as their parent. */
  ghost function BelowChildren(parent: seq<int>, visible: seq<bool>, i: int, children: seq<nat>): set<nat> {
    set n: nat | n < |visible| && visible[n] && InSomeSubtree(parent, i, children, n)
  }

  ghost predicate InSomeSubtree(parent: seq<int>, i: int, children: seq<nat>, n: nat) {
    exists a :: 0 <= a < |children| && HangsUnder(parent, i, children[a]) && OnChain(parent, children[a], n)
  }

  ghost predicate HangsUnder(parent: seq<int>, i: int, c: nat) {
    c < |parent| && parent[c] == i
  }

  lemma SelfOnChain(parent: seq<int>, i: nat)
    requires i < |parent|
    ensures OnChain(parent, i, i)
  {
    assert Above(parent, i, i, 0);
  }

  /** Going up k edges from m lowers the depth by k. */
  lemma {:induction false} DepthAbove(t: Tree, parent: seq<int>, depth: seq<nat>, i: nat, m: nat, k: nat)
    requires ParentMap(t, parent, depth) && Above(parent, i, m, k)
    ensures i < |parent| && depth[m] == depth[i] + k
    decreases k
  {
    assert ParentOk(t, parent, depth, m);
    if k > 0 {
      DepthAbove(t, parent, depth, i, parent[m], k - 1);
    }
  }

  lemma {:induction false} AboveUnique(parent: seq<int>, i: nat, j: nat, m: nat, k: nat)
    requires Above(parent, i, m, k) && Above(parent, j, m, k)
    ensures i == j
    decreases k
  {
    if k > 0 {
      AboveUnique(parent, i, j, parent[m], k - 1);
    }
  }

  /** Subtrees of two nodes at the same depth are disjoint. */
  lemma SubtreesDisjoint(t: Tree, parent: seq<int>, depth: seq<nat>, i: nat, j: nat, m: nat)
    requires ParentMap(t, parent, depth) && OnChain(parent, i, m) && OnChain(parent, j, m)
    requires i < |parent| && j < |parent| && depth[i] == depth[j]
    ensures i == j
  {
    var k :| Above(parent, i, m, k);
    var l :| Above(parent, j, m, l);
    DepthAbove(t, parent, depth, i, m, k);
    DepthAbove(t, parent, depth, j, m, l);
    AboveUnique(parent, i, j, m, k);
  }

  /** A strict descendant of i hangs below one of the nodes whose parent is i. */
  lemma ChainEntersAt(parent: seq<int>, i: nat, m: nat) returns (c: nat)
    requires OnChain(parent, i, m) && m != i
    ensures HangsUnder(parent, i, c) && OnChain(parent, c, m)
  {
    var k :| Above(parent, i, m, k);
    c := StepBelow(parent, i, m, k);
  }

  lemma {:induction false} StepBelow(parent: seq<int>, i: nat, m: nat, k: nat) returns (c: nat)
    requires Above(parent, i, m, k) && k > 0
    ensures HangsUnder(parent, i, c) && Above(parent, c, m, k - 1)
    ensures OnChain(parent, c, m)
    decreases k
  {
    if k == 1 {
      c := m;
      assert Above(parent, c, m, 0);
    } else {
      c := StepBelow(parent, i, parent[m], k - 1);
      assert Above(parent, c, m, k - 1);
    }
  }

  lemma ChildChainExtends(parent: seq<int>, i: nat, c: nat, m: nat)
    requires HangsUnder(parent, i, c) && OnChain(parent, c, m) && i < |parent|
    ensures OnChain(parent, i, m)
  {
    var k :| Above(parent, c, m, k);
    AboveOneMore(parent, c, m, k);
  }

  /** i's subtree is i and the subtrees of the children that have i as their parent. */
  lemma SubtreeSplits(t: Tree, parent: seq<int>, depth: seq<nat>, visible: seq<bool>, i: nat)
    requires ParentMap(t, parent, depth) && |visible| == |parent| && i < |parent| && visible[i]
    ensures Below(parent, visible, i) == {i} + BelowChildren(parent, visible, i, t.nodes[i].children)
  {
    SelfOnChain(parent, i);
    var children := t.nodes[i].children;
    forall m | m in Below(parent, visible, i)
      ensures m in {i} + BelowChildren(parent, visible, i, children)
    {
      if m != i {
        var c := ChainEntersAt(parent, i, m);
        assert ParentOk(t, parent, depth, c);
        var a :| 0 <= a < |children| && children[a] == c;
      }
    }
    forall m | m in BelowChildren(parent, visible, i, children)
      ensures m in Below(parent, visible, i)
    {
      var a :| 0 <= a < |children| && HangsUnder(parent, i, children[a]) && OnChain(parent, children[a], m);
      ChildChainExtends(parent, i, children[a], m);
    }
  }

  /** What rendering node i under from adds to the drawn nodes. */
  ghost function NewNodes(parent: seq<int>, visible: seq<bool>, i: nat, from: int): set<nat>
    requires i < |parent| == |visible|
  {
    if visible[i] && parent[i] == from then Below(parent, visible, i) else {}
  }

  lemma NextChild(parent: seq<int>, visible: seq<bool>, i: int, children: seq<nat>, m: nat)
    requires ClosedUnderParents(parent, visible) && m < |children| && children[m] < |parent|
    ensures BelowChildren(parent, visible, i, children[..m + 1]) ==
      BelowChildren(parent, visible, i, children[..m]) + NewNodes(parent, visible, children[m], i)
  {
    var c := children[m];
    forall n: nat | n < |visible| && visible[n]
      ensures InSomeSubtree(parent, i, children[..m + 1], n) <==>
        InSomeSubtree(parent, i, children[..m], n) || n in NewNodes(parent, visible, c, i)
    {
      if InSomeSubtree(parent, i, children[..m + 1], n) {
        var a :| 0 <= a < m + 1 && HangsUnder(parent, i, children[..m + 1][a]) &&
          OnChain(parent, children[..m + 1][a], n);
        if a < m {
          assert children[..m][a] == children[a];
        } else {
          var k :| Above(parent, c, n, k);
          ClosedReachesAncestors(parent, visible, c, n, k);
        }
      }
      if InSomeSubtree(parent, i, children[..m], n) {
        var a :| 0 <= a < m && HangsUnder(parent, i, children[..m][a]) && OnChain(parent, children[..m][a], n);
        assert children[..m + 1][a] == children[a];
      }
      if n in NewNodes(parent, visible, c, i) {
        assert children[..m + 1][m] == c;
      }
    }
  }

  /** No node of the next child's subtree was drawn with i or with an earlier child. */
  lemma NextChildIsNew(t: Tree, parent: seq<int>, depth: seq<nat>, visible: seq<bool>, i: nat, m: nat)
    requires ParentMap(t, parent, depth) && |visible| == |parent| && i < |parent| && m < |t.nodes[i].children|
    ensures t.nodes[i].children[m] < |parent|
    ensures NewNodes(parent, visible, t.nodes[i].children[m], i) !!
      {i} + BelowChildren(parent, visible, i, t.nodes[i].children[..m])
    ensures NewNodes(parent, visible, t.nodes[i].children[m], i) <= Below(parent, visible, i)
  {
    var children := t.nodes[i].children;
    var c := children[m];
    assert c in children;
    forall n | n in NewNodes(parent, visible, c, i)
      ensures n != i && n !in BelowChildren(parent, visible, i, children[..m]) && n in Below(parent, visible, i)
    {
      assert ParentOk(t, parent, depth, c);
      ChildChainExtends(parent, i, c, n);
      if n == i {
        var k :| Above(parent, c, i, k);
        DepthAbove(t, parent, depth, c, i, k);
      }
      if n in BelowChildren(parent, visible, i, children[..m]) {
        var a :| 0 <= a < m && HangsUnder(parent, i, children[..m][a]) && OnChain(parent, children[..m][a], n);
        assert ParentOk(t, parent, depth, children[a]);
        SubtreesDisjoint(t, parent, depth, c, children[a], n);
      }
    }
  }

  datatype Row = Row(node: nat, depth: nat, dup: bool)

  /** Among the first k rows one shows n and is no back-reference. */
  ghost predicate HasFirstRow(drawn: seq<Row>, n: nat, k: nat)
    requires k <= |drawn|
  {
    exists j :: 0 <= j < k && drawn[j].node == n && !drawn[j].dup
  }

  /** Every expanded node has exactly one row that is no back-reference, which its back-references follow. */
  ghost predicate FirstRowsOf(drawn: seq<Row>, expanded: set<nat>) {
    (forall n :: n in expanded <==> HasFirstRow(drawn, n, |drawn|)) &&
    (forall j, k :: 0 <= j < k < |drawn| && !drawn[j].dup && !drawn[k].dup ==> drawn[j].node != drawn[k].node) &&
    forall k :: 0 <= k < |drawn| && drawn[k].dup ==> HasFirstRow(drawn, drawn[k].node, k)
  }

  lemma RowKeepsFirstRows(drawn: seq<Row>, expanded: set<nat>, i: nat, level: nat)
    requires FirstRowsOf(drawn, expanded)
    ensures FirstRowsOf(drawn + [Row(i, level, i in expanded)], expanded + {i})
  {
    AnotherRow(drawn, Row(i, level, i in expanded));
  }

  lemma AnotherRow(drawn: seq<Row>, row: Row)
    ensures forall n, k: nat :: k <= |drawn| ==> (HasFirstRow(drawn + [row], n, k) <==> HasFirstRow(drawn, n, k))
    ensures forall n :: HasFirstRow(drawn + [row], n, |drawn| + 1) <==>
      HasFirstRow(drawn, n, |drawn|) || (n == row.node && !row.dup)
  {
    var more := drawn + [row];
    forall n, k: nat | k <= |drawn|
      ensures HasFirstRow(more, n, k) <==> HasFirstRow(drawn, n, k)
    {
      if j :| 0 <= j < k && drawn[j].node == n && !drawn[j].dup {
        assert more[j] == drawn[j];
      }
    }
    forall n
      ensures HasFirstRow(more, n, |drawn| + 1) <==> HasFirstRow(drawn, n, |drawn|) || (n == row.node && !row.dup)
    {
      if j :| 0 <= j < |drawn| && drawn[j].node == n && !drawn[j].dup {
        assert more[j] == drawn[j];
      }
      if n == row.node && !row.dup {
        assert more[|drawn|] == row;
      }
    }
  }

  /** All children of the nodes in after that are not in before are in after. */
  ghost predicate ChildrenFollow(t: Tree, before: set<nat>, after: set<nat>) {
    forall n, c :: n in after && n !in before && n < |t.nodes| && c in t.nodes[n].children ==> c in after
  }

  lemma NothingFollows(t: Tree, expanded: set<nat>)
    ensures ChildrenFollow(t, expanded, expanded)
  {
  }

  lemma FollowedOn(t: Tree, a: set<nat>, b: set<nat>, c: set<nat>)
    requires a <= b <= c && ChildrenFollow(t, a, b) && ChildrenFollow(t, b, c)
    ensures ChildrenFollow(t, a, c)
  {
  }

  lemma NodeFollowed(t: Tree, before: set<nat>, after: set<nat>, i: nat)
    requires i < |t.nodes| && ChildrenFollow(t, before + {i}, after) && forall c :: c in t.nodes[i].children ==>
      c in after
    ensures ChildrenFollow(t, before, after)
  {
  }

  /** n follows the siblings that the rows from number from on show at this depth, in the list's order. */
  ghost predicate AfterSiblings(siblings: seq<nat>, n: nat, drawn: seq<Row>, from: nat, depth: nat) {
    exists c :: 0 <= c < |siblings| && siblings[c] == n &&
      forall m :: from <= m < |drawn| && drawn[m].depth == depth ==> drawn[m].node in siblings[..c]
  }

  /**
   A row for n at this depth may come next: as a root, or below the expanded row, one
   level up, that nothing has closed yet, as a child of that row's node; after its
   siblings in their order.
   */
  ghost predicate Fits(t: Tree, drawn: seq<Row>, n: nat, depth: nat) {
    if depth == 0 then AfterSiblings(t.roots, n, drawn, 0, 0)
    else exists j :: 0 <= j < |drawn| && HangsBelow(t, drawn, j, n, depth)
  }

  ghost predicate HangsBelow(t: Tree, drawn: seq<Row>, j: nat, n: nat, depth: nat)
    requires j < |drawn|
  {
    drawn[j].depth + 1 == depth && !drawn[j].dup && drawn[j].node < |t.nodes| &&
    (forall m :: j < m < |drawn| ==> drawn[m].depth >= depth) &&
    AfterSiblings(t.nodes[drawn[j].node].children, n, drawn, j + 1, depth)
  }

  /** Read from the top, the indentation is that of the forest, in its order. */
  ghost predicate Nested(t: Tree, drawn: seq<Row>) {
    forall k :: 0 <= k < |drawn| ==> Fits(t, drawn[..k], drawn[k].node, drawn[k].depth)
  }

  lemma RowFits(t: Tree, drawn: seq<Row>, row: Row)
    requires Nested(t, drawn) && Fits(t, drawn, row.node, row.depth)
    ensures Nested(t, drawn + [row])
  {
    hide Fits;
    var more := drawn + [row];
    assert more[..|drawn|] == drawn;
    assert forall k :: 0 <= k < |drawn| ==> more[..k] == drawn[..k];
  }

  /** The rows from number from on are at this depth or deeper, and those at it show siblings. */
  ghost predicate Shows(drawn: seq<Row>, from: nat, depth: nat, siblings: seq<nat>) {
    forall m :: from <= m < |drawn| ==>
      drawn[m].depth >= depth && (drawn[m].depth == depth ==> drawn[m].node in siblings)
  }

  lemma NothingNested(t: Tree)
    ensures Nested(t, [])
  {
  }

  lemma NothingShown(drawn: seq<Row>, depth: nat)
    ensures Shows(drawn, |drawn|, depth, [])
  {
  }

  lemma ShowsNext(before: seq<Row>, after: seq<Row>, from: nat, depth: nat, siblings: seq<nat>, c: nat)
    requires before <= after && c < |siblings| && from <= |before|
    requires Shows(before, from, depth, siblings[..c]) && Shows(after, |before|, depth, [siblings[c]])
    ensures Shows(after, from, depth, siblings[..c + 1])
  {
    assert siblings[..c + 1] == siblings[..c] + [siblings[c]];
    assert forall m :: 0 <= m < |before| ==> after[m] == before[m];
  }

  lemma ShowsNode(before: seq<Row>, after: seq<Row>, i: nat, level: nat, siblings: seq<nat>)
    requires |before| < |after| && after[|before|].node == i && after[|before|].depth == level
    requires Shows(after, |before| + 1, level + 1, siblings)
    ensures Shows(after, |before|, level, [i])
  {
  }

  lemma ChildFits(t: Tree, drawn: seq<Row>, at: nat, c: nat)
    requires at < |drawn| && drawn[at].node < |t.nodes| && !drawn[at].dup
    requires c < |t.nodes[drawn[at].node].children|
    requires Shows(drawn, at + 1, drawn[at].depth + 1, t.nodes[drawn[at].node].children[..c])
    ensures Fits(t, drawn, t.nodes[drawn[at].node].children[c], drawn[at].depth + 1)
  {
    assert HangsBelow(t, drawn, at, t.nodes[drawn[at].node].children[c], drawn[at].depth + 1);
  }

  lemma RootFits(t: Tree, drawn: seq<Row>, c: nat)
    requires c < |t.roots| && Shows(drawn, 0, 0, t.roots[..c])
    ensures Fits(t, drawn, t.roots[c], 0)
  {
  }

  /** One rendering of the forest: the rows written so far and the nodes already expanded. */
  class Renderer {
    const t: Tree
    const parent: seq<int>
    const visible: Option<seq<bool>>
    ghost const depth: seq<nat>
    var rows: nat
    var expanded: set<nat>
    var drawn: seq<Row>

    constructor (t: Tree, parent: seq<int>, visible: Option<seq<bool>>, ghost depth: seq<nat>)
      ensures this.t == t && this.parent == parent && this.visible == visible && this.depth == depth
      ensures rows == 0 && expanded == {} && drawn == []
    {
      this.t, this.parent, this.visible, this.depth := t, parent, visible, depth;
      rows, expanded, drawn := 0, {}, [];
    }

    ghost predicate Valid()
      reads this
    {
      WellFormed(t) && rows == |drawn| && rows <= MAX_TREE_ROWS &&
      forall n :: n in expanded ==> n < |t.nodes|
    }

    ghost function Unexpanded(): set<nat>
      reads this
    {
      set n: nat | n < |t.nodes| && n !in expanded
    }

    /** The active view over a breadth-first parent map, with few enough visible nodes. */
    ghost predicate ActiveView() {
      ParentMap(t, parent, depth) && visible.Some? && ClosedUnderParents(parent, visible.value) &&
      |VisibleNodes(visible.value)| <= MAX_TREE_ROWS
    }

    /** In the active view every drawn node has one row, at the depth of its chain. */
    ghost predicate EachOnce()
      reads this
    {
      ActiveView() ==>
        expanded <= VisibleNodes(visible.value) && |expanded| == rows &&
        (forall r :: r in drawn ==> r.node in expanded && !r.dup && r.depth == depth[r.node]) &&
        (forall n :: n in expanded ==> Row(n, depth[n], false) in drawn)
    }

    ghost predicate FirstRows()
      reads this
    {
      FirstRowsOf(drawn, expanded)
    }

    /** The tests at the top of emit. */
    predicate Allowed(i: nat, from: int)
      reads this
    {
      rows < MAX_TREE_ROWS &&
      (visible.Some? ==> i < |visible.value| && i < |parent| && visible.value[i] && parent[i] == from)
    }

    ghost predicate Draws(i: nat, from: int) {
      ActiveView() && i < |parent| && visible.value[i] && parent[i] == from
    }

    /** What rendering node i under from adds to the drawn nodes in the active view. */
    ghost function Adds(i: nat, from: int): set<nat> {
      if Draws(i, from) then Below(parent, visible.value, i) else {}
    }

    ghost predicate CanEmit(i: nat, level: nat, from: int)
      reads this
    {
      Valid() && EachOnce() && i < |t.nodes| && Adds(i, from) !! expanded &&
      (Draws(i, from) ==> level == depth[i]) && Nested(t, drawn) && Fits(t, drawn, i, level)
    }

    /** Writes node i's row unless a guard forbids it; descend says whether its children follow. */
    method DrawRow(i: nat, level: nat, from: int) returns (descend: bool)
      requires CanEmit(i, level, from) && FirstRows()
      modifies this
      ensures Valid() && EachOnce() && FirstRows() && Nested(t, drawn)
      ensures drawn == if old(Allowed(i, from)) then old(drawn) + [Row(i, level, i in old(expanded))] else old(drawn)
      ensures descend <==> old(Allowed(i, from)) && i !in old(expanded)
      ensures expanded == if descend then old(expanded) + {i} else old(expanded)
      ensures ActiveView() ==> (descend <==> Draws(i, from))
    {
      hide Nested, Fits, FirstRowsOf;
      if Draws(i, from) {
        RoomFor(i, from);
      }
      if rows >= MAX_TREE_ROWS {
        return false;
      }
      if visible.Some? && !(i < |visible.value| && i < |parent| && visible.value[i] && parent[i] == from) {
        return false;
      }
      descend := i !in expanded;
      RowKeepsFirstRows(drawn, expanded, i, level);
      assert expanded + {i} == if descend then expanded + {i} else expanded;
      RowFits(t, drawn, Row(i, level, !descend));
      rows := rows + 1;
      drawn := drawn + [Row(i, level, !descend)];
      if descend {
        expanded := expanded + {i};
      }
    }

    method Emit(i: nat, level: nat, from: int)
      requires CanEmit(i, level, from) && FirstRows()
      modifies this
      ensures Valid() && EachOnce() && FirstRows() && old(expanded) <= expanded && old(drawn) <= drawn
      ensures Nested(t, drawn) && Shows(drawn, |old(drawn)|, level, [i])
      ensures ActiveView() ==> expanded == old(expanded) + Adds(i, from)
      ensures visible.None? && rows < MAX_TREE_ROWS ==> i in expanded && ChildrenFollow(t, old(expanded), expanded)
      decreases Unexpanded(), 0
    {
      hide FirstRows, ChildrenFollow, EachOnce, ParentMap, ClosedUnderParents, Below, BelowChildren, Nested, Fits;
      NothingFollows(t, expanded);
      var descend := DrawRow(i, level, from);
      if descend {
        assert i in old(Unexpanded()) && i !in Unexpanded();
        EmitChildren(i, level, old(expanded));
        ShowsNode(old(drawn), drawn, i, level, t.nodes[i].children);
        if visible.None? && rows < MAX_TREE_ROWS {
          NodeFollowed(t, old(expanded), expanded, i);
        }
        if ActiveView() {
          SubtreeDrawn(i, from);
        }
      }
    }

    /** A drawn node and the subtrees of all its children are its whole subtree. */
    lemma SubtreeDrawn(i: nat, from: int)
      requires Draws(i, from) && i < |t.nodes|
      ensures {i} + AddedByChildren(i, |t.nodes[i].children|) == Adds(i, from)
    {
      assert t.nodes[i].children[..|t.nodes[i].children|] == t.nodes[i].children;
      SubtreeSplits(t, parent, depth, visible.value, i);
    }

    /** The loop at the end of emit. */
    method EmitChildren(i: nat, level: nat, ghost before: set<nat>)
      requires Valid() && EachOnce() && FirstRows() && i < |t.nodes| && expanded == before + {i}
      requires ActiveView() ==> level == depth[i] && Below(parent, visible.value, i) !! before
      requires Nested(t, drawn) && drawn != [] && drawn[|drawn| - 1] == Row(i, level, false)
      modifies this
      ensures Valid() && EachOnce() && FirstRows() && old(expanded) <= expanded && old(drawn) <= drawn
      ensures Nested(t, drawn) && Shows(drawn, |old(drawn)|, level + 1, t.nodes[i].children)
      ensures ActiveView() ==> expanded == before + {i} + AddedByChildren(i, |t.nodes[i].children|)
      ensures visible.None? && rows < MAX_TREE_ROWS ==>
        (forall c :: c in t.nodes[i].children ==> c in expanded) && ChildrenFollow(t, old(expanded), expanded)
      decreases Unexpanded(), 1
    {
      hide FirstRows, ChildrenFollow, EachOnce, ParentMap, ClosedUnderParents, Below, VisibleNodes;
      hide Nested, Fits, Shows;
      var children := t.nodes[i].children;
      NothingShown(drawn, level + 1);
      NothingFollows(t, expanded);
      for m := 0 to |children|
        invariant Valid() && EachOnce() && FirstRows() && old(expanded) <= expanded && old(drawn) <= drawn
        invariant Nested(t, drawn) && Shows(drawn, |old(drawn)|, level + 1, children[..m])
        invariant ActiveView() ==> expanded == before + {i} + AddedByChildren(i, m)
        invariant visible.None? && rows < MAX_TREE_ROWS ==>
          (forall a :: 0 <= a < m ==> children[a] in expanded) && ChildrenFollow(t, old(expanded), expanded)
      {
        assert children[m] in children;
        if ActiveView() {
          ChildReady(i, m, before);
        }
        ghost var sofar, shown := expanded, drawn;
        ChildFits(t, drawn, |old(drawn)| - 1, m);
        Emit(children[m], level + 1, i);
        ShowsNext(shown, drawn, |old(drawn)|, level + 1, children, m);
        if visible.None? && rows < MAX_TREE_ROWS {
          FollowedOn(t, old(expanded), sofar, expanded);
        }
      }
      assert children[..|children|] == children;
    }

    ghost function AddedByChildren(i: nat, m: nat): set<nat>
      requires i < |t.nodes| && m <= |t.nodes[i].children|
    {
      if ActiveView() then BelowChildren(parent, visible.value, i, t.nodes[i].children[..m]) else {}
    }

    lemma ChildReady(i: nat, m: nat, before: set<nat>)
      requires ActiveView() && i < |t.nodes| && m < |t.nodes[i].children|
      requires expanded == before + {i} + AddedByChildren(i, m)
      requires Below(parent, visible.value, i) !! before
      ensures var c := t.nodes[i].children[m];
        Adds(c, i) !! expanded && (Draws(c, i) ==> depth[c] == depth[i] + 1) &&
        AddedByChildren(i, m + 1) == AddedByChildren(i, m) + Adds(c, i)
    {
      NextChildIsNew(t, parent, depth, visible.value, i, m);
      NextChild(parent, visible.value, i, t.nodes[i].children, m);
      assert ParentOk(t, parent, depth, t.nodes[i].children[m]);
    }

    /** The loop over the roots. */
    method EmitRoots()
      requires Valid() && EachOnce() && FirstRows() && drawn == [] && expanded == {}
      requires ShortestParents(t, parent, depth)
      modifies this
      ensures Valid() && EachOnce() && FirstRows() && Nested(t, drawn)
      ensures ActiveView() ==> expanded == BelowRoots(parent, visible.value, t.roots)
      ensures visible.None? && rows < MAX_TREE_ROWS ==>
        (forall r :: r in t.roots ==> r in expanded) && ChildrenFollow(t, {}, expanded)
    {
      hide FirstRows, EachOnce, ChildrenFollow, Fits, Shows, Nested, ParentMap, ShortestParents;
      NothingShown([], 0);
      NothingNested(t);
      NothingFollows(t, {});
      if ActiveView() {
        assert BelowRoots(parent, visible.value, t.roots[..0]) == {};
      }
      for k := 0 to |t.roots|
        invariant Valid() && EachOnce() && FirstRows()
        invariant Nested(t, drawn) && Shows(drawn, 0, 0, t.roots[..k])
        invariant ActiveView() ==> expanded == BelowRoots(parent, visible.value, t.roots[..k])
        invariant visible.None? && rows < MAX_TREE_ROWS ==>
          (forall a :: 0 <= a < k ==> t.roots[a] in expanded) && ChildrenFollow(t, {}, expanded)
      {
        assert t.roots[k] in t.roots;
        ghost var sofar, shown := expanded, drawn;
        RootFits(t, drawn, k);
        if ActiveView() {
          NextRootIsNew(t, parent, depth, visible.value, k);
          NextChild(parent, visible.value, ROOT, t.roots, k);
        }
        Emit(t.roots[k], 0, ROOT);
        ShowsNext(shown, drawn, 0, 0, t.roots, k);
        if visible.None? && rows < MAX_TREE_ROWS {
          FollowedOn(t, {}, sofar, expanded);
        }
      }
      assert t.roots[..|t.roots|] == t.roots;
    }

    /** In the active view the row cap is never met while a visible node is still to be drawn. */
    lemma RoomFor(i: nat, from: int)
      requires Valid() && EachOnce() && Draws(i, from) && Adds(i, from) !! expanded
      ensures i !in expanded && rows < MAX_TREE_ROWS
    {
      SelfOnChain(parent, i);
      assert i in Adds(i, from);
      SubsetSize(expanded + {i}, VisibleNodes(visible.value));
    }
  }

  lemma {:induction false} SubsetSize<T>(a: set<T>, b: set<T>)
    requires a <= b
    ensures |a| <= |b|
  {
    if a != {} {
      var x :| x in a;
      SubsetSize(a - {x}, b - {x});
    }
  }

  /** The visible nodes whose chain starts at one of the first k roots. */
  ghost function BelowRoots(parent: seq<int>, visible: seq<bool>, roots: seq<nat>): set<nat> {
    BelowChildren(parent, visible, ROOT, roots)
  }

  lemma NextRootIsNew(t: Tree, parent: seq<int>, depth: seq<nat>, visible: seq<bool>, k: nat)
    requires ParentMap(t, parent, depth) && |visible| == |parent| && k < |t.roots|
    ensures t.roots[k] < |parent| && parent[t.roots[k]] == ROOT && depth[t.roots[k]] == 0
    ensures Below(parent, visible, t.roots[k]) !! BelowRoots(parent, visible, t.roots[..k])
  {
    var r := t.roots[k];
    assert r in t.roots;
    assert ParentOk(t, parent, depth, r);
    forall n | n in Below(parent, visible, r)
      ensures n !in BelowRoots(parent, visible, t.roots[..k])
    {
      if n in BelowRoots(parent, visible, t.roots[..k]) {
        var a :| 0 <= a < k && HangsUnder(parent, ROOT, t.roots[..k][a]) && OnChain(parent, t.roots[..k][a], n);
        assert ParentOk(t, parent, depth, t.roots[a]);
        SubtreesDisjoint(t, parent, depth, r, t.roots[a], n);
      }
    }
  }

  lemma {:induction false} ChainEndsAtRoot(t: Tree, parent: seq<int>, depth: seq<nat>, n: nat) returns (r: nat)
    requires ParentMap(t, parent, depth) && n < |parent| && parent[n] != UNREACHED
    ensures r in t.roots && r < |parent| && parent[r] == ROOT && Above(parent, r, n, depth[n])
    decreases depth[n]
  {
    assert ParentOk(t, parent, depth, n);
    if parent[n] == ROOT {
      r := n;
    } else {
      r := ChainEndsAtRoot(t, parent, depth, parent[n]);
    }
  }

  lemma AllRootsCovered(t: Tree, parent: seq<int>, depth: seq<nat>, visible: seq<bool>, n: nat)
    requires ParentMap(t, parent, depth) && |visible| == |parent| && n < |parent|
    ensures n in BelowRoots(parent, visible, t.roots) <==> visible[n] && parent[n] != UNREACHED
  {
    if parent[n] != UNREACHED {
      var r := ChainEndsAtRoot(t, parent, depth, n);
      var a :| 0 <= a < |t.roots| && t.roots[a] == r;
      assert HangsUnder(parent, ROOT, t.roots[a]) && OnChain(parent, t.roots[a], n);
    }
    if n in BelowRoots(parent, visible, t.roots) {
      var a :| 0 <= a < |t.roots| && HangsUnder(parent, ROOT, t.roots[a]) && OnChain(parent, t.roots[a], n);
      var k :| Above(parent, t.roots[a], n, k);
    }
  }

  /** n is reachable from a root and is active or lies on an active node's chain. */
  ghost predicate Shown(parent: seq<int>, states: seq<nat>, n: nat) {
    n < |parent| && parent[n] != UNREACHED && OnActiveChain(parent, states, n, |parent|)
  }

  ghost function ActiveChains(parent: seq<int>, states: seq<nat>): set<nat> {
    set n: nat | n < |parent| && OnActiveChain(parent, states, n, |parent|)
  }

  /** Exactly the shown nodes have a row, each of them one, indented by its distance from the root. */
  ghost predicate DrawsExactly(drawn: seq<Row>, parent: seq<int>, states: seq<nat>, depth: seq<nat>)
    requires |depth| == |parent|
  {
    (forall n: nat :: Shown(parent, states, n) ==> Row(n, depth[n], false) in drawn) &&
    (forall k :: 0 <= k < |drawn| ==>
      Shown(parent, states, drawn[k].node) && !drawn[k].dup && drawn[k].depth == depth[drawn[k].node]) &&
    |drawn| == |set n: nat | n < |parent| && Shown(parent, states, n)|
  }

  method RenderTree(t: Tree, states: seq<nat>, parent: seq<int>, activeOnly: bool, ghost depth: seq<nat>)
    returns (drawn: seq<Row>)
    requires WellFormed(t) && ShortestParents(t, parent, depth)
    ensures |drawn| <= MAX_TREE_ROWS && OneFirstRowEach(drawn) && Nested(t, drawn)
    ensures !activeOnly && |drawn| < MAX_TREE_ROWS ==>
      forall n: nat :: n < |parent| && parent[n] != UNREACHED ==> HasFirstRow(drawn, n, |drawn|)
    ensures activeOnly && |ActiveChains(parent, states)| <= MAX_TREE_ROWS ==> DrawsExactly(drawn, parent, states, depth)
  {
    var visible: Option<seq<bool>> := None;
    forall i | 0 <= i < |parent|
      ensures parent[i] < |parent|
    {
      assert ParentOk(t, parent, depth, i);
    }
    if activeOnly {
      var v := VisibleSet(parent, states);
      visible := Some(v);
      assert VisibleNodes(v) == ActiveChains(parent, states);
    }
    var out := new Renderer(t, parent, visible, depth);
    NoRowsYet(out);
    hide Renderer.FirstRows, Renderer.EachOnce, ChildrenFollow, Nested, BelowChildren, ParentMap, ClosedUnderParents;
    out.EmitRoots();
    drawn := out.drawn;
    FirstRowsAreOnce(out);
    if visible.None? && out.rows < MAX_TREE_ROWS {
      AllReachedAreExpanded(out);
    }
    if out.ActiveView() {
      RowsAreShown(out, states);
    }
  }

  /** No node has two rows that are not back-references, and every back-reference repeats an earlier row. */
  ghost predicate OneFirstRowEach(drawn: seq<Row>) {
    (forall j, k :: 0 <= j < k < |drawn| && !drawn[j].dup && !drawn[k].dup ==> drawn[j].node != drawn[k].node) &&
    forall k :: 0 <= k < |drawn| && drawn[k].dup ==> HasFirstRow(drawn, drawn[k].node, k)
  }

  lemma NoRowsYet(out: Renderer)
    requires out.drawn == [] && out.expanded == {} && out.rows == 0
    ensures out.FirstRows() && out.EachOnce()
  {
  }

  lemma FirstRowsAreOnce(out: Renderer)
    requires out.FirstRows()
    ensures OneFirstRowEach(out.drawn)
  {
  }

  /** A set of nodes that has the roots and is closed under children has every reached node. */
  lemma {:induction false} ClosedHasReached(t: Tree, parent: seq<int>, depth: seq<nat>, expanded: set<nat>, n: nat)
    requires ParentMap(t, parent, depth) && n < |parent| && parent[n] != UNREACHED
    requires (forall r :: r in t.roots ==> r in expanded) && ChildrenFollow(t, {}, expanded)
    ensures n in expanded
    decreases depth[n]
  {
    assert ParentOk(t, parent, depth, n);
    if parent[n] >= 0 {
      ClosedHasReached(t, parent, depth, expanded, parent[n]);
    }
  }

  lemma AllReachedAreExpanded(out: Renderer)
    requires out.Valid() && out.FirstRows() && ParentMap(out.t, out.parent, out.depth)
    requires (forall r :: r in out.t.roots ==> r in out.expanded) && ChildrenFollow(out.t, {}, out.expanded)
    ensures forall n: nat :: n < |out.parent| && out.parent[n] != UNREACHED ==> HasFirstRow(out.drawn, n, |out.drawn|)
  {
    hide ChildrenFollow, ParentMap;
    forall n: nat | n < |out.parent| && out.parent[n] != UNREACHED
      ensures HasFirstRow(out.drawn, n, |out.drawn|)
    {
      ClosedHasReached(out.t, out.parent, out.depth, out.expanded, n);
      assert n in out.expanded;
    }
  }

  lemma RowsAreShown(out: Renderer, states: seq<nat>)
    requires out.Valid() && out.EachOnce() && out.ActiveView()
    requires out.expanded == BelowRoots(out.parent, out.visible.value, out.t.roots)
    requires VisibleNodes(out.visible.value) == ActiveChains(out.parent, states)
    ensures DrawsExactly(out.drawn, out.parent, states, out.depth)
  {
    forall n: nat
      ensures n in out.expanded <==> n < |out.parent| && Shown(out.parent, states, n)
    {
      if n < |out.parent| {
        AllRootsCovered(out.t, out.parent, out.depth, out.visible.value, n);
        assert n in VisibleNodes(out.visible.value) <==> n in ActiveChains(out.parent, states);
      }
    }
    assert out.expanded == set n: nat | n < |out.parent| && Shown(out.parent, states, n);
    assert forall k :: 0 <= k < |out.drawn| ==> out.drawn[k] in out.drawn;
  }

  /** In a forest contracted from an acyclic graph every node is reached, so every active one is shown. */
  lemma ContractedForestIsReached(t: Tree, drvs: seq<Drv>, g: Graph, parent: seq<int>, depth: seq<nat>, n: nat)
    requires Contracted(t, drvs, g) && ShortestParents(t, parent, depth) && n < |drvs|
    ensures parent[n] != UNREACHED
  {
    var r := EveryNodeUnderARoot(t, drvs, g, n);
    if r == n {
      RootAtDepthZero(t, r);
      assert AtDepth(t, n, 0);
    } else {
      var p :| TreeWalkFromTo(t, p, r, n);
      var k := |p| - 1;
      assert TreeWalk(t, p) && p[0] in t.roots && |p| == k + 1 && p[k] == n;
      assert AtDepth(t, n, k);
    }
  }

  lemma ActiveDerivationIsShown(t: Tree, drvs: seq<Drv>, g: Graph, parent: seq<int>, depth: seq<nat>,
                                states: seq<nat>, n: nat)
    requires Contracted(t, drvs, g) && ShortestParents(t, parent, depth) && n < |drvs| && Active(states, n)
    ensures Shown(parent, states, n)
  {
    ContractedForestIsReached(t, drvs, g, parent, depth, n);
    SelfOnChain(parent, n);
  }
}
