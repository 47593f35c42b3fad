/** Is an artifact derivable from the declared roots? A three-valued answer with a proof path. */
module Derivability {
  import opened Digraph
  import opened BreadthFirst
  import opened Invalidation
  import opened Refinement

  datatype CoverageClass =
    | CompleteCoverage | OverapproximatedCoverage | ObservedCoverage | PartialCoverage | UnknownCoverage

  datatype Grade = SoundGrade | ObservedGrade

  datatype UnknownReason = ArtifactUnknown | RuntimeObservedRegion(runtimeEdges: nat)

  datatype DerivabilityAnswer =
    | Derivable(root: ArtifactId, path: seq<ArtifactId>, grade: Grade)
    | NotDerivable(certified: bool, coverage: CoverageClass)
    | Unknown(reason: UnknownReason)

  datatype DerivabilityPredicate = DerivabilityPredicate(
    forward: Forward, roots: set<ArtifactId>, runtimeEdges: set<Edge>, coverage: CoverageClass)

  ghost predicate UsesRuntimeEdge(p: seq<ArtifactId>, runtime: set<Edge>) {
    exists i :: 0 <= i < |p| - 1 && (p[i], p[i + 1]) in runtime
  }

  // ----- which path is found ------------------------------------------------------------------

  /** Lexicographic order of paths of equal length. */
  ghost predicate LexLess(p: seq<ArtifactId>, q: seq<ArtifactId>)
    requires |p| == |q|
    decreases |p|
  {
    && p != []
    && var front, back := p[..|p| - 1], q[..|q| - 1];
       LexLess(front, back) || (front == back && p[|p| - 1] < q[|q| - 1])
  }

  /** The order in which paths are met: shorter ones first, and by ascending ids among equals. */
  ghost predicate Sooner(p: seq<ArtifactId>, q: seq<ArtifactId>) {
    |p| < |q| || (|p| == |q| && LexLess(p, q))
  }

  lemma {:induction false} LexOrder(p: seq<ArtifactId>, q: seq<ArtifactId>, r: seq<ArtifactId>)
    requires |p| == |q| == |r|
    ensures !LexLess(p, p) && (LexLess(p, q) && LexLess(q, r) ==> LexLess(p, r))
    decreases |p|
  {
    if p != [] {
      LexOrder(p[..|p| - 1], q[..|q| - 1], r[..|r| - 1]);
    }
  }

  lemma SoonerTrans(p: seq<ArtifactId>, q: seq<ArtifactId>, r: seq<ArtifactId>)
    requires Sooner(p, q) && (q == r || Sooner(q, r))
    ensures Sooner(p, r)
  {
    if |p| == |q| == |r| {
      LexOrder(p, q, r);
    }
  }

  lemma SoonerAppend(p: seq<ArtifactId>, q: seq<ArtifactId>, x: ArtifactId, y: ArtifactId)
    requires Sooner(p, q) || (p == q && x < y)
    ensures Sooner(p + [x], q + [y])
  {
    assert (p + [x])[..|p|] == p && (q + [y])[..|q|] == q;
  }

  /** The first of all walks from a root to `x`. */
  ghost predicate IsFirst(q: DerivabilityPredicate, x: ArtifactId, p: seq<ArtifactId>) {
    && WalkFrom(Edges(q.forward), q.roots, x, p)
    && forall r {:trigger WalkFrom(Edges(q.forward), q.roots, x, r)} ::
         WalkFrom(Edges(q.forward), q.roots, x, r) ==> p == r || Sooner(p, r)
  }

  lemma FirstIsUnique(q: DerivabilityPredicate, x: ArtifactId, p: seq<ArtifactId>, r: seq<ArtifactId>)
    requires IsFirst(q, x, p) && IsFirst(q, x, r)
    ensures p == r
  {
    if p != r {
      SoonerTrans(p, r, p);
      LexOrder(p, p, p);
      assert false;
    }
  }

  lemma FirstIsShortest(q: DerivabilityPredicate, x: ArtifactId, p: seq<ArtifactId>)
    requires IsFirst(q, x, p)
    ensures Distance(Edges(q.forward), q.roots, x, |p| - 1)
  {
    assert HasWalk(Edges(q.forward), q.roots, x, |p| - 1);
  }

  /** The answer: the first path with its weakest label when a root reaches the artifact; no absence
      claim once any edge is known to have been missing. */
  ghost predicate Answers(q: DerivabilityPredicate, x: ArtifactId, a: DerivabilityAnswer) {
    if x !in q.forward then a == Unknown(ArtifactUnknown)
    else if ReachedFrom(Edges(q.forward), q.roots, x) then
      && a.Derivable? && IsFirst(q, x, a.path) && a.root == a.path[0]
      && (a.grade.ObservedGrade? <==> UsesRuntimeEdge(a.path, q.runtimeEdges))
    else if q.runtimeEdges != {} then a == Unknown(RuntimeObservedRegion(|q.runtimeEdges|))
    else a == NotDerivable(q.coverage.CompleteCoverage?, q.coverage)
  }

  /** There is one answer to each question. */
  lemma AnswerIsUnique(q: DerivabilityPredicate, x: ArtifactId, a: DerivabilityAnswer, b: DerivabilityAnswer)
    requires Answers(q, x, a) && Answers(q, x, b)
    ensures a == b
  {
    if a.Derivable? {
      FirstIsUnique(q, x, a.path, b.path);
    }
  }

  // ----- the search ---------------------------------------------------------------------------

  type Paths = map<ArtifactId, seq<ArtifactId>>

  ghost predicate TreeAt(q: DerivabilityPredicate, best: Paths, parent: map<ArtifactId, ArtifactId>, v: ArtifactId)
    requires v in best
  {
    && WalkFrom(Edges(q.forward), q.roots, v, best[v])
    && if v in parent then parent[v] in best && best[v] == best[parent[v]] + [v] else best[v] == [v]
  }

  /** Each discovered node has its path, by way of its parent. */
  ghost predicate IsSearchTree(q: DerivabilityPredicate, best: Paths, parent: map<ArtifactId, ArtifactId>) {
    && q.roots <= best.Keys && parent.Keys <= best.Keys
    && forall v {:trigger TreeAt(q, best, parent, v)} :: v in best ==> TreeAt(q, best, parent, v)
  }

  ghost predicate AllFirst(q: DerivabilityPredicate, best: Paths) {
    forall v {:trigger IsFirst(q, v, best[v])} :: v in best ==> IsFirst(q, v, best[v])
  }

  ghost predicate SoonerAt(best: Paths, queue: seq<ArtifactId>, i: nat, j: nat) {
    i < j < |queue| && queue[i] in best && queue[j] in best ==> Sooner(best[queue[i]], best[queue[j]])
  }

  /** The queue holds discovered nodes in the order of their paths, and all that were taken from it
      are expanded. */
  ghost predicate IsQueue(q: DerivabilityPredicate, best: Paths, queue: seq<ArtifactId>) {
    && (forall v :: v in queue ==> v in best)
    && (forall i: nat, j: nat {:trigger SoonerAt(best, queue, i, j)} :: SoonerAt(best, queue, i, j))
    && (forall u, v :: u in best && u !in queue && (u, v) in Edges(q.forward) ==> v in best)
  }

  ghost predicate ParentSooner(best: Paths, p: seq<ArtifactId>, v: ArtifactId) {
    v in best && |best[v]| > 1 ==> Sooner(best[v][..|best[v]| - 1], p)
  }

  /** The parents of queued nodes came before the head. */
  ghost predicate ParentsCameFirst(best: Paths, queue: seq<ArtifactId>) {
    queue != [] && queue[0] in best ==>
      forall v {:trigger ParentSooner(best, best[queue[0]], v)} :: v in queue ==> ParentSooner(best, best[queue[0]], v)
  }

  /** A walk to a node that is not discovered leaves what is discovered at a queued node. */
  lemma {:induction false} LeavesAtQueue(q: DerivabilityPredicate, best: Paths, queue: seq<ArtifactId>,
                                         p: seq<ArtifactId>)
    returns (i: nat)
    requires IsQueue(q, best, queue) && IsPath(Edges(q.forward), p) && p[0] in best && p[|p| - 1] !in best
    ensures i + 1 < |p| && p[i] in queue
  {
    if p[1] !in best {
      assert (p[0], p[1]) in Edges(q.forward);
      i := 0;
    } else {
      i := LeavesAtQueue(q, best, queue, p[1..]);
      i := i + 1;
    }
  }

  lemma HeadIsFirst(q: DerivabilityPredicate, best: Paths, queue: seq<ArtifactId>, v: ArtifactId)
    requires IsQueue(q, best, queue) && v in queue
    ensures best[queue[0]] == best[v] || Sooner(best[queue[0]], best[v])
  {
    var j :| 0 <= j < |queue| && queue[j] == v;
    assert SoonerAt(best, queue, 0, j);
  }

  /** Found from the head of the queue, a node is found on its first path. */
  lemma FoundOnFirst(q: DerivabilityPredicate, best: Paths, queue: seq<ArtifactId>, v: ArtifactId)
    requires AllFirst(q, best) && IsQueue(q, best, queue) && q.roots <= best.Keys && queue != []
    requires v !in best && (queue[0], v) in Edges(q.forward)
    ensures IsFirst(q, v, best[queue[0]] + [v])
  {
    var u, edges := queue[0], Edges(q.forward);
    var mine := best[u] + [v];
    assert IsFirst(q, u, best[u]);
    assert WalkFrom(edges, q.roots, v, mine);
    forall p | WalkFrom(edges, q.roots, v, p) ensures mine == p || Sooner(mine, p) {
      var i := LeavesAtQueue(q, best, queue, p);
      var front := p[..i + 1];
      assert WalkFrom(edges, q.roots, p[i], front);
      HeadIsFirst(q, best, queue, p[i]);
      assert IsFirst(q, p[i], best[p[i]]);
      if best[u] != front {
        if best[u] != best[p[i]] {
          SoonerTrans(best[u], best[p[i]], front);
        }
        assert Sooner(best[u], front);
      }
      if i + 2 == |p| {
        assert p == front + [v];
        if best[u] != front {
          SoonerAppend(best[u], front, v, v);
        }
      }
    }
  }

  /** Breadth-first from the roots, by ascending ids, until the artifact comes to the head. */
  method Search(q: DerivabilityPredicate, x: ArtifactId)
    returns (reached: set<ArtifactId>, parent: map<ArtifactId, ArtifactId>, ghost best: Paths)
    ensures reached == best.Keys && IsSearchTree(q, best, parent) && AllFirst(q, best)
    ensures x in reached <==> ReachedFrom(Edges(q.forward), q.roots, x)
  {
    ghost var reach := ForwardReach(q.forward, q.roots);
    reached, parent := q.roots, map[];
    best := map v | v in q.roots :: [v];
    var queue := Ascending(q.roots);
    SearchStarts(q, best, queue);
    while queue != []
      invariant reached == best.Keys && reached <= reach
      invariant IsSearchTree(q, best, parent) && AllFirst(q, best)
      invariant IsQueue(q, best, queue) && ParentsCameFirst(best, queue)
      decreases reach - reached, |queue|
    {
      var u := queue[0];
      if u == x {
        assert TreeAt(q, best, parent, x);
        WalkReaches(q, x, best[x]);
        return;
      }
      ghost var before, waiting, found := best, queue, [];
      reached, parent, best, queue, found := Expand(q, reached, parent, best, queue);
      ExpansionKeeps(q, before, waiting, found, best);
      WithinReach(q, reach, best);
      Shrinks(reach, before.Keys, reached);
    }
    if x in best {
      assert TreeAt(q, best, parent, x);
      WalkReaches(q, x, best[x]);
    }
    AllReached(q, best, x);
  }

  lemma SearchStarts(q: DerivabilityPredicate, best: Paths, queue: seq<ArtifactId>)
    requires best == map v | v in q.roots :: [v]
    requires Elems(queue) == q.roots && IsAscending(queue)
    ensures IsSearchTree(q, best, map[]) && AllFirst(q, best) && IsQueue(q, best, queue)
    ensures ParentsCameFirst(best, queue)
  {
    assert forall v :: v in queue <==> v in Elems(queue);
    forall v | v in best ensures IsFirst(q, v, best[v]) && TreeAt(q, best, map[], v) {
      assert WalkFrom(Edges(q.forward), q.roots, v, [v]);
    }
    forall i: nat, j: nat ensures SoonerAt(best, queue, i, j) {
      if i < j < |queue| {
        SoonerAppend([], [], queue[i], queue[j]);
        assert [] + [queue[i]] == [queue[i]] && [] + [queue[j]] == [queue[j]];
      }
    }
  }

  lemma WithinReach(q: DerivabilityPredicate, reach: set<ArtifactId>, best: Paths)
    requires IsReachSet(Edges(q.forward), q.roots, reach) && AllFirst(q, best)
    ensures best.Keys <= reach
  {
    forall v | v in best ensures v in reach {
      assert IsFirst(q, v, best[v]);
      WalkReaches(q, v, best[v]);
    }
  }

  lemma WalkReaches(q: DerivabilityPredicate, x: ArtifactId, p: seq<ArtifactId>)
    requires WalkFrom(Edges(q.forward), q.roots, x, p)
    ensures ReachedFrom(Edges(q.forward), q.roots, x)
  {
    assert Links(Edges(q.forward), p[0], x, p);
  }

  /** With an empty queue everything reached is discovered. */
  lemma AllReached(q: DerivabilityPredicate, best: Paths, x: ArtifactId)
    requires q.roots <= best.Keys && IsQueue(q, best, [])
    ensures ReachedFrom(Edges(q.forward), q.roots, x) ==> x in best
  {
    if ReachedFrom(Edges(q.forward), q.roots, x) {
      var a :| a in q.roots && Reaches(Edges(q.forward), a, x);
      var p :| Links(Edges(q.forward), a, x, p);
      PathStaysInside(Edges(q.forward), best.Keys, p);
    }
  }

  /** What expanding the head does: its undiscovered targets come to the back, by ascending ids. */
  ghost predicate Expansion(q: DerivabilityPredicate, best: Paths, u: ArtifactId, found: seq<ArtifactId>, best1: Paths)
    requires u in best
  {
    && IsAscending(found)
    && (forall v :: v in found <==> v !in best && (u, v) in Edges(q.forward))
    && best1 == best + map v | v in found :: best[u] + [v]
  }

  /** The targets of one node: the new ones get it as parent and are queued. */
  method Expand(q: DerivabilityPredicate, reached0: set<ArtifactId>, parent0: map<ArtifactId, ArtifactId>,
                ghost best0: Paths, queue0: seq<ArtifactId>)
    returns (reached: set<ArtifactId>, parent: map<ArtifactId, ArtifactId>, ghost best: Paths, queue: seq<ArtifactId>,
             ghost found: seq<ArtifactId>)
    requires reached0 == best0.Keys && IsSearchTree(q, best0, parent0) && queue0 != [] && queue0[0] in best0
    ensures reached == best.Keys && IsSearchTree(q, best, parent)
    ensures Expansion(q, best0, queue0[0], found, best) && queue == queue0[1..] + found
    ensures reached0 <= reached && (reached == reached0 ==> |queue| < |queue0|)
  {
    var u := queue0[0];
    var targets := if u in q.forward then q.forward[u] else {};
    var next := Ascending(targets - reached0);
    found := next;
    reached := reached0 + targets;
    queue := queue0[1..] + next;
    parent := parent0 + map v | v in targets - reached0 :: u;
    best := best0 + map v | v in found :: best0[u] + [v];
    assert forall v :: v in found <==> v in Elems(found);
    assert next == [] || next[0] in next;
    GrowTree(q, best0, parent0, u, found, best, parent);
  }

  lemma GrowTree(q: DerivabilityPredicate, best: Paths, parent: map<ArtifactId, ArtifactId>, u: ArtifactId,
                 found: seq<ArtifactId>, best1: Paths, parent1: map<ArtifactId, ArtifactId>)
    requires IsSearchTree(q, best, parent) && u in best
    requires forall v :: v in found ==> v !in best && (u, v) in Edges(q.forward)
    requires best1 == best + map v | v in found :: best[u] + [v]
    requires parent1 == parent + map v | v in found :: u
    ensures IsSearchTree(q, best1, parent1)
  {
    forall v | v in best1 ensures TreeAt(q, best1, parent1, v) {
      if v in best {
        assert TreeAt(q, best, parent, v);
      } else {
        assert TreeAt(q, best, parent, u);
        ExtendPath(Edges(q.forward), best[u][0], u, v, best[u]);
      }
    }
  }

  lemma ExpansionKeeps(q: DerivabilityPredicate, best: Paths, queue: seq<ArtifactId>, found: seq<ArtifactId>,
                       best1: Paths)
    requires AllFirst(q, best) && IsQueue(q, best, queue) && ParentsCameFirst(best, queue)
    requires q.roots <= best.Keys && queue != [] && Expansion(q, best, queue[0], found, best1)
    ensures var queue1 := queue[1..] + found;
      AllFirst(q, best1) && IsQueue(q, best1, queue1) && ParentsCameFirst(best1, queue1)
  {
    var queue1 := queue[1..] + found;
    forall v | v in best1 ensures IsFirst(q, v, best1[v]) {
      if v in best {
        assert IsFirst(q, v, best[v]);
      } else {
        FoundOnFirst(q, best, queue, v);
      }
    }
    forall i: nat, j: nat ensures SoonerAt(best1, queue1, i, j) {
      if i < j < |queue1| {
        QueueOrdered(q, best, queue, found, best1, i, j);
      }
    }
    assert forall v :: v in queue ==> v == queue[0] || v in queue[1..];
    if queue1 != [] {
      NextIsLater(q, best, queue, found, best1);
      forall v | v in queue1 ensures ParentSooner(best1, best1[queue1[0]], v) {
        ParentCameFirst(q, best, queue, found, best1, best1[queue1[0]], v);
      }
    }
  }

  lemma QueueOrdered(q: DerivabilityPredicate, best: Paths, queue: seq<ArtifactId>, found: seq<ArtifactId>,
                     best1: Paths,
                     i: nat, j: nat)
    requires AllFirst(q, best) && IsQueue(q, best, queue) && ParentsCameFirst(best, queue) && queue != []
    requires Expansion(q, best, queue[0], found, best1) && i < j < |queue[1..] + found|
    ensures SoonerAt(best1, queue[1..] + found, i, j)
  {
    var u, n, queue1 := queue[0], |queue| - 1, queue[1..] + found;
    if j < n {
      assert queue1[i] == queue[i + 1] && queue1[j] == queue[j + 1];
      assert SoonerAt(best, queue, i + 1, j + 1);
    } else if i < n {
      assert queue1[i] == queue[i + 1] && queue1[j] == found[j - n];
      assert IsFirst(q, u, best[u]) && ParentSooner(best, best[u], queue[i + 1]);
      LaterIsLater(best, queue[i + 1], u, queue1[j]);
    } else {
      assert queue1[i] == found[i - n] && queue1[j] == found[j - n];
      SoonerAppend(best[u], best[u], queue1[i], queue1[j]);
    }
  }

  /** A queued node, whose parent came before `u`, comes before what `u` leads to. */
  lemma LaterIsLater(best: Paths, y: ArtifactId, u: ArtifactId, v: ArtifactId)
    requires y in best && u in best && best[u] != [] && ParentSooner(best, best[u], y)
    ensures Sooner(best[y], best[u] + [v])
  {
    var p := best[y];
    if |p| > 1 {
      SoonerAppend(p[..|p| - 1], best[u], p[|p| - 1], v);
      assert p[..|p| - 1] + [p[|p| - 1]] == p;
    }
  }

  lemma NextIsLater(q: DerivabilityPredicate, best: Paths, queue: seq<ArtifactId>, found: seq<ArtifactId>, best1: Paths)
    requires IsQueue(q, best, queue) && queue != [] && Expansion(q, best, queue[0], found, best1)
    requires queue[1..] + found != []
    ensures var next := (queue[1..] + found)[0]; next in best1 && Sooner(best[queue[0]], best1[next])
  {
    var next := (queue[1..] + found)[0];
    if |queue| > 1 {
      assert next == queue[1];
      assert SoonerAt(best, queue, 0, 1);
    } else {
      assert next == found[0];
    }
  }

  lemma ParentCameFirst(q: DerivabilityPredicate, best: Paths, queue: seq<ArtifactId>, found: seq<ArtifactId>,
                        best1: Paths,
                        next: seq<ArtifactId>, v: ArtifactId)
    requires IsQueue(q, best, queue) && ParentsCameFirst(best, queue) && queue != []
    requires Expansion(q, best, queue[0], found, best1) && v in queue[1..] + found && Sooner(best[queue[0]], next)
    ensures ParentSooner(best1, next, v)
  {
    var u := queue[0];
    if v in best {
      assert v in queue;
      assert ParentSooner(best, best[u], v);
      if |best[v]| > 1 {
        SoonerTrans(best[v][..|best[v]| - 1], best[u], next);
      }
    } else {
      assert (best[u] + [v])[..|best[u]|] == best[u];
    }
  }

  predicate IsAscending(r: seq<ArtifactId>) {
    forall i, j :: 0 <= i < j < |r| ==> r[i] < r[j]
  }

  method Least(s: set<ArtifactId>) returns (x: ArtifactId)
    requires s != {}
    ensures x in s && forall y :: y in s ==> x <= y
  {
    x :| x in s;
    var rest := s;
    while rest != {}
      invariant rest <= s && x in s && forall y :: y in s && y !in rest ==> x <= y
    {
      var y :| y in rest;
      rest := rest - {y};
      if y < x {
        x := y;
      }
    }
  }

  method Ascending(s: set<ArtifactId>) returns (r: seq<ArtifactId>)
    ensures Elems(r) == s && IsAscending(r)
  {
    r := [];
    var rest := s;
    while rest != {}
      invariant Elems(r) + rest == s && IsAscending(r)
      invariant r != [] ==> forall y :: y in rest ==> r[|r| - 1] < y
    {
      var x := Least(rest);
      PushElem(r, x);
      PushAscending(r, x);
      r, rest := r + [x], rest - {x};
    }
  }

  lemma PushAscending(r: seq<ArtifactId>, x: ArtifactId)
    requires IsAscending(r) && (r != [] ==> r[|r| - 1] < x)
    ensures IsAscending(r + [x])
  {
  }

  /** Follow the parents back from `x` to a root. */
  method ProofPath(q: DerivabilityPredicate, x: ArtifactId, ghost best: Paths, parent: map<ArtifactId, ArtifactId>)
    returns (path: seq<ArtifactId>)
    requires IsSearchTree(q, best, parent) && x in best
    ensures path == best[x]
  {
    assert TreeAt(q, best, parent, x);
    path := [x];
    var current := x;
    while current in parent
      invariant current in best && 0 < |best[current]| <= |best[x]|
      invariant best[current] == best[x][..|best[current]|] && path == best[x][|best[current]| - 1..]
      decreases |best[current]|
    {
      assert TreeAt(q, best, parent, current) && TreeAt(q, best, parent, parent[current]);
      StepBack(best[x], best[current], best[parent[current]], parent[current], current);
      path := [parent[current]] + path;
      current := parent[current];
    }
    assert TreeAt(q, best, parent, current);
  }

  lemma StepBack(whole: seq<ArtifactId>, p: seq<ArtifactId>, front: seq<ArtifactId>, u: ArtifactId, v: ArtifactId)
    requires 0 < |p| <= |whole| && p == whole[..|p|] && p == front + [v] && front != [] && front[|front| - 1] == u
    ensures front == whole[..|front|] && [u] + whole[|p| - 1..] == whole[|front| - 1..]
  {
    assert front == p[..|front|];
    assert whole[|front| - 1] == p[|front| - 1] == u;
  }

  method AnyRuntime(path: seq<ArtifactId>, runtime: set<Edge>) returns (any: bool)
    ensures any <==> UsesRuntimeEdge(path, runtime)
  {
    var i := 0;
    while i + 1 < |path|
      invariant forall j :: 0 <= j < i && j < |path| - 1 ==> (path[j], path[j + 1]) !in runtime
    {
      if (path[i], path[i + 1]) in runtime {
        return true;
      }
      i := i + 1;
    }
    any := false;
  }

  method Derive(q: DerivabilityPredicate, x: ArtifactId) returns (a: DerivabilityAnswer)
    ensures Answers(q, x, a)
  {
    if x !in q.forward {
      return Unknown(ArtifactUnknown);
    }
    var reached, parent, best := Search(q, x);
    if x in reached {
      assert IsFirst(q, x, best[x]);
      var path := ProofPath(q, x, best, parent);
      var runtime := AnyRuntime(path, q.runtimeEdges);
      return Derivable(path[0], path, if runtime then ObservedGrade else SoundGrade);
    }
    if q.runtimeEdges != {} {
      return Unknown(RuntimeObservedRegion(|q.runtimeEdges|));
    }
    a := NotDerivable(q.coverage.CompleteCoverage?, q.coverage);
  }

  /** Derivability over a refined graph: once anything was retained, absence is never claimed, and
      the static grade means that only declared edges were used. */
  method DeriveAfterRefinement(refined: RefinementLoop, roots: set<ArtifactId>, coverage: CoverageClass, x: ArtifactId)
    returns (a: DerivabilityAnswer)
    requires refined.Valid()
    ensures Answers(DerivabilityPredicate(refined.graph.forward, roots, refined.applied, coverage), x, a)
    ensures refined.records != [] ==> !a.NotDerivable?
    ensures a.Derivable? && a.grade.SoundGrade? ==> IsPath(refined.declared, a.path)
  {
    var runtime := refined.RuntimeEdges();
    if refined.records != [] {
      assert refined.records[0].edgeAdded in refined.applied;
    }
    a := Derive(DerivabilityPredicate(refined.graph.forward, roots, runtime, coverage), x);
    if a.Derivable? && a.grade.SoundGrade? {
      forall i | 0 <= i < |a.path| - 1 ensures (a.path[i], a.path[i + 1]) in refined.declared {
        assert (a.path[i], a.path[i + 1]) in Edges(refined.graph.forward);
      }
    }
  }

  /** The grade is that of the first path, not of the best one: a declared detour beside a runtime
      shortcut is graded as observed. */
  lemma ShortcutHidesDeclaredPath(a: DerivabilityAnswer)
    requires Answers(DerivabilityPredicate(map[0 := {1, 2}, 1 := {}, 2 := {1}], {0}, {(0, 1)}, CompleteCoverage), 1, a)
    ensures a.Derivable? && a.grade.ObservedGrade?
    ensures IsPath(Edges(map[0 := {1, 2}, 1 := {}, 2 := {1}]) - {(0, 1)}, [0, 2, 1])
  {
    var f: Forward := map[0 := {1, 2}, 1 := {}, 2 := {1}];
    HasEdgeIsEdge(f, (0, 1));
    HasEdgeIsEdge(f, (0, 2));
    HasEdgeIsEdge(f, (2, 1));
    assert Links(Edges(f), 0, 1, [0, 1]);
    assert WalkFrom(Edges(f), {0}, 1, [0, 1]);
    assert |a.path| == 2;
    assert (a.path[0], a.path[1]) == (0, 1);
  }

  /** Exactly when: the grade is static if and only if the first path uses declared edges only. */
  lemma StaticGradeIff(q: DerivabilityPredicate, x: ArtifactId, a: DerivabilityAnswer)
    requires Answers(q, x, a) && x in q.forward && ReachedFrom(Edges(q.forward), q.roots, x)
    ensures a.grade.SoundGrade? <==>
            exists p :: IsFirst(q, x, p) && WalkFrom(Edges(q.forward) - q.runtimeEdges, q.roots, x, p)
  {
    if p :| IsFirst(q, x, p) && WalkFrom(Edges(q.forward) - q.runtimeEdges, q.roots, x, p) {
      FirstIsUnique(q, x, p, a.path);
      assert forall i :: 0 <= i < |p| - 1 ==> (p[i], p[i + 1]) in Edges(q.forward) - q.runtimeEdges;
    }
    if a.grade.SoundGrade? {
      assert WalkFrom(Edges(q.forward) - q.runtimeEdges, q.roots, x, a.path);
    }
  }
}
