/** Breadth-first search: what a depth map and a queue must satisfy between two steps, and why the
    depths are then shortest distances. */
module BreadthFirst {
  import opened Digraph

  ghost predicate WalkFrom<N>(edges: set<(N, N)>, roots: set<N>, x: N, p: seq<N>) {
    IsPath(edges, p) && p[0] in roots && p[|p| - 1] == x
  }

  ghost predicate HasWalk<N(!new)>(edges: set<(N, N)>, roots: set<N>, x: N, d: nat) {
    exists p: seq<N> :: WalkFrom(edges, roots, x, p) && |p| == d + 1
  }

  /** The shortest walk from a root to `x` has exactly `d` edges. */
  ghost predicate Distance<N(!new)>(edges: set<(N, N)>, roots: set<N>, x: N, d: nat) {
    && HasWalk(edges, roots, x, d)
    && (forall p: seq<N> :: WalkFrom(edges, roots, x, p) ==> |p| >= d + 1)
  }

  /** All edges out of `x` lead to nodes at most one hop deeper. */
  ghost predicate Expanded<N(!new)>(edges: set<(N, N)>, depth: map<N, nat>, x: N)
    requires x in depth
  {
    forall y :: (x, y) in edges ==> y in depth && depth[y] <= depth[x] + 1
  }

  /** Every depth is the length of some walk. */
  ghost predicate Walked<N(!new)>(edges: set<(N, N)>, roots: set<N>, depth: map<N, nat>) {
    && (forall r :: r in roots ==> r in depth && depth[r] == 0)
    && (forall x :: x in depth ==> HasWalk(edges, roots, x, depth[x]))
  }

  /** The queue holds discovered nodes, once each, in order of depth. */
  ghost predicate Queued<N(!new)>(depth: map<N, nat>, queue: seq<N>) {
    && (forall x :: x in queue ==> x in depth)
    && Distinct(queue)
    && (forall i, j :: 0 <= i < j < |queue| ==> depth[queue[i]] <= depth[queue[j]])
  }

  /** The state between two steps of the search. */
  ghost predicate Frontier<N(!new)>(edges: set<(N, N)>, roots: set<N>, limit: nat, depth: map<N, nat>, queue: seq<N>) {
    && Walked(edges, roots, depth)
    && Queued(depth, queue)
    && (queue != [] ==> forall x :: x in depth ==> depth[x] <= depth[queue[0]] + 1)
    && (forall x :: x in depth && x !in queue && depth[x] < limit ==> Expanded(edges, depth, x))
  }

  lemma FrontierStarts<N(!new)>(edges: set<(N, N)>, roots: set<N>, limit: nat, depth: map<N, nat>, queue: seq<N>)
    requires depth.Keys == roots && forall x :: x in depth ==> depth[x] == 0
    requires Distinct(queue) && Elems(queue) == roots
    ensures Frontier(edges, roots, limit, depth, queue)
  {
    forall x | x in depth ensures HasWalk(edges, roots, x, depth[x]) {
      assert WalkFrom(edges, roots, x, [x]);
    }
    forall x ensures x in queue <==> x in roots {
      assert x in Elems(queue) <==> x in queue;
    }
  }

  /** What expanding the head of the queue does: its undiscovered successors come one hop deeper, at
      the back of the queue. */
  ghost predicate Expansion<N(!new)>(edges: set<(N, N)>, depth: map<N, nat>, queue: seq<N>, depth1: map<N, nat>,
                                     queue1: seq<N>)
    requires queue != [] && queue[0] in depth
  {
    var u := queue[0];
    && (forall x :: x in depth1 <==> x in depth || (u, x) in edges)
    && (forall x :: x in depth ==> depth1[x] == depth[x])
    && (forall x :: x in depth1 && x !in depth ==> depth1[x] == depth[u] + 1)
    && queue[1..] <= queue1 && Distinct(queue1)
    && (forall x :: x in queue1[|queue| - 1..] <==> x in depth1 && x !in depth)
  }

  lemma ExpansionWalks<N(!new)>(edges: set<(N, N)>, roots: set<N>, limit: nat, depth: map<N, nat>, queue: seq<N>,
                                depth1: map<N, nat>, queue1: seq<N>)
    requires Frontier(edges, roots, limit, depth, queue) && queue != []
    requires Expansion(edges, depth, queue, depth1, queue1)
    ensures Walked(edges, roots, depth1)
  {
    var u := queue[0];
    var p: seq<N> :| WalkFrom(edges, roots, u, p) && |p| == depth[u] + 1;
    forall x | x in depth1 ensures HasWalk(edges, roots, x, depth1[x]) {
      if x !in depth {
        assert WalkFrom(edges, roots, x, p + [x]);
      }
    }
  }

  lemma ExpansionQueues<N(!new)>(edges: set<(N, N)>, roots: set<N>, limit: nat, depth: map<N, nat>, queue: seq<N>,
                                 depth1: map<N, nat>, queue1: seq<N>)
    requires Frontier(edges, roots, limit, depth, queue) && queue != []
    requires Expansion(edges, depth, queue, depth1, queue1)
    ensures Queued(depth1, queue1)
    ensures forall x :: x in queue1 <==> x in queue[1..] || (x in depth1 && x !in depth)
    ensures queue1 != [] ==> forall x :: x in depth1 ==> depth1[x] <= depth1[queue1[0]] + 1
  {
    var u, n := queue[0], |queue| - 1;
    assert queue1 == queue[1..] + queue1[n..];
    forall i | 0 <= i < |queue1|
      ensures i < n ==> queue1[i] == queue[i + 1] && queue1[i] in depth
      ensures i >= n ==> queue1[i] in depth1 && depth1[queue1[i]] == depth[u] + 1
    {
      if i < n {
        assert queue1[i] == queue[1..][i];
      } else {
        assert queue1[i] in queue1[n..];
      }
    }
  }

  lemma ExpansionKeeps<N(!new)>(edges: set<(N, N)>, roots: set<N>, limit: nat, depth: map<N, nat>, queue: seq<N>,
                                depth1: map<N, nat>, queue1: seq<N>)
    requires Frontier(edges, roots, limit, depth, queue) && queue != []
    requires Expansion(edges, depth, queue, depth1, queue1)
    ensures Frontier(edges, roots, limit, depth1, queue1)
  {
    ExpansionWalks(edges, roots, limit, depth, queue, depth1, queue1);
    ExpansionQueues(edges, roots, limit, depth, queue, depth1, queue1);
    PopElem(queue);
    forall x | x in depth1 && x !in queue1 && depth1[x] < limit ensures Expanded(edges, depth1, x) {
      if x == queue[0] {
        forall y | (x, y) in edges ensures y in depth1 && depth1[y] <= depth1[x] + 1 {
        }
      } else {
        assert x in depth && x !in queue;
        assert Expanded(edges, depth, x);
      }
    }
  }

  /** A head at the horizon is dropped unexpanded. */
  lemma SkipKeeps<N(!new)>(edges: set<(N, N)>, roots: set<N>, limit: nat, depth: map<N, nat>, queue: seq<N>)
    requires Frontier(edges, roots, limit, depth, queue) && queue != []
    requires depth[queue[0]] >= limit
    ensures Frontier(edges, roots, limit, depth, queue[1..])
  {
    PopElem(queue);
    forall x | x in depth && x !in queue[1..] && depth[x] < limit ensures Expanded(edges, depth, x) {
      assert x !in queue;
    }
  }

  /** Where everything shallower than `limit` is expanded, depths are at most the lengths of walks. */
  lemma {:induction false} DepthBoundsWalk<N(!new)>(edges: set<(N, N)>, depth: map<N, nat>, limit: nat, p: seq<N>)
    requires IsPath(edges, p) && p[0] in depth && depth[p[0]] == 0 && |p| - 1 <= limit
    requires forall x :: x in depth && depth[x] < limit ==> Expanded(edges, depth, x)
    ensures p[|p| - 1] in depth && depth[p[|p| - 1]] <= |p| - 1
    decreases |p|
  {
    if |p| > 1 {
      DepthBoundsWalk(edges, depth, limit, p[..|p| - 1]);
      assert (p[|p| - 2], p[|p| - 1]) in edges;
      assert Expanded(edges, depth, p[|p| - 2]);
    }
  }

  /** When the queue is empty the map holds exactly the nodes within the horizon, at their distances. */
  lemma DepthIsDistance<N(!new)>(edges: set<(N, N)>, roots: set<N>, limit: nat, depth: map<N, nat>, x: N, d: nat)
    requires Frontier(edges, roots, limit, depth, [])
    requires forall y :: y in depth ==> depth[y] <= limit
    ensures x in depth && depth[x] == d <==> d <= limit && Distance(edges, roots, x, d)
  {
    if x in depth {
      assert HasWalk(edges, roots, x, depth[x]);
      forall p: seq<N> | WalkFrom(edges, roots, x, p) ensures |p| >= depth[x] + 1 {
        if |p| - 1 <= limit {
          DepthBoundsWalk(edges, depth, limit, p);
        }
      }
      assert Distance(edges, roots, x, depth[x]);
    }
    if d <= limit && Distance(edges, roots, x, d) {
      var p: seq<N> :| WalkFrom(edges, roots, x, p) && |p| == d + 1;
      DepthBoundsWalk(edges, depth, limit, p);
      assert HasWalk(edges, roots, x, depth[x]);
    }
  }
}
