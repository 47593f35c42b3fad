/** Bounded reverse walks over the stored graph: the edges a rewrite implies, and the callers a
    reservation's footprint takes in. */
module GraphWalks {
  import opened Digraph
  import opened BreadthFirst
  import opened ReverseIndexing
  import opened Wrappers

  const CALLS: nat := 0
  const IMPORTS: nat := 1
  const REFS: nat := 2
  const MAX_REVERSE_CALL_HOPS: nat := 4

  datatype Relation = Calls | Refs | Imports

  datatype PropagationPolicy = PropagationPolicy(relations: seq<Relation>, maxDepth: nat)

  datatype ImpliedEdge = ImpliedEdge(src: nat, edgeIdx: nat, relation: Relation, hop: nat)

  predicate IsCall(kind: nat) {
    kind == CALLS
  }

  predicate IsBlastKind(kind: nat) {
    kind == CALLS || kind == REFS || kind == IMPORTS
  }

  function RelationOf(kind: nat): Option<Relation> {
    if kind == CALLS then Some(Calls)
    else if kind == REFS then Some(Refs)
    else if kind == IMPORTS then Some(Imports)
    else None
  }

  predicate Follows(policy: PropagationPolicy, kind: nat) {
    RelationOf(kind).Some? && RelationOf(kind).value in policy.relations
  }

  function Keep(policy: PropagationPolicy): nat -> bool {
    (kind: nat) => Follows(policy, kind)
  }

  // ----- the graph walked ---------------------------------------------------------------------

  /** The kept edges turned around: from a symbol to the symbols that refer to it. */
  ghost function Reverse(csr: Csr, keep: nat -> bool): set<(nat, nat)>
    requires Aligned(csr)
  {
    set s, i | 0 <= s < NumSymbols(csr) && 0 <= i < |csr.targets| && Enters(csr, keep, csr.targets[i], (s, i))
      :: (csr.targets[i], s)
  }

  lemma ReverseEdge(csr: Csr, keep: nat -> bool, t: nat, s: nat)
    requires Aligned(csr)
    ensures (t, s) in Reverse(csr, keep) <==> exists i: nat :: Enters(csr, keep, t, (s, i))
  {
    if i: nat :| Enters(csr, keep, t, (s, i)) {
      assert s < NumSymbols(csr) && i < |csr.targets| && csr.targets[i] == t;
    }
  }

  function Sources(list: seq<Site>): set<nat> {
    set s | s in list :: s.0
  }

  lemma PushSource(list: seq<Site>, j: nat)
    requires j < |list|
    ensures Sources(list[..j + 1]) == Sources(list[..j]) + {list[j].0}
  {
    assert list[..j + 1] == list[..j] + [list[j]];
  }

  lemma ListedSources(csr: Csr, keep: nat -> bool, t: nat, list: seq<Site>, s: nat)
    requires Aligned(csr) && IsListing(csr, keep, t, list)
    ensures s in Sources(list) <==> (t, s) in Reverse(csr, keep)
  {
    ReverseEdge(csr, keep, t, s);
    if s in Sources(list) {
      var e: Site :| e in list && e.0 == s;
      assert Enters(csr, keep, t, (s, e.1));
    }
    if i: nat :| Enters(csr, keep, t, (s, i)) {
      assert (s, i) in list;
    }
  }

  /** Nodes that a walk can meet: the root and the sources of edges. */
  ghost function Universe(csr: Csr, keep: nat -> bool, root: nat): set<nat>
    requires Aligned(csr)
  {
    {root} + set e | e in Reverse(csr, keep) :: e.1
  }

  // ----- discovering --------------------------------------------------------------------------

  /** The undiscovered ones among `found` came one hop deeper and to the back of the queue. */
  ghost predicate Found(depth0: map<nat, nat>, queue0: seq<nat>, found: set<nat>, hop: nat, depth: map<nat, nat>,
                        queue: seq<nat>) {
    && depth.Keys == depth0.Keys + found
    && (forall x :: x in depth0 ==> depth[x] == depth0[x])
    && (forall x :: x in depth && x !in depth0 ==> depth[x] == hop + 1)
    && queue0 <= queue && Distinct(queue)
    && Elems(queue[|queue0|..]) == depth.Keys - depth0.Keys
  }

  method Discover(ghost depth0: map<nat, nat>, ghost queue0: seq<nat>, ghost found: set<nat>, hop: nat, x: nat,
                  depth1: map<nat, nat>, queue1: seq<nat>)
    returns (depth: map<nat, nat>, queue: seq<nat>)
    requires Found(depth0, queue0, found, hop, depth1, queue1) && Elems(queue0) <= depth0.Keys
    ensures Found(depth0, queue0, found + {x}, hop, depth, queue)
  {
    depth, queue := depth1, queue1;
    if x !in depth {
      ghost var news := queue1[|queue0|..];
      assert queue1 == queue0 + news;
      assert x !in queue0 by {
        assert x !in Elems(queue0);
      }
      assert x !in news by {
        assert x !in Elems(news);
      }
      depth := depth[x := hop + 1];
      queue := queue + [x];
      PushElem(queue1, x);
      PushElem(news, x);
      assert queue[|queue0|..] == news + [x];
    }
  }

  lemma FoundIsExpansion(edges: set<(nat, nat)>, depth: map<nat, nat>, queue: seq<nat>, found: set<nat>,
                         depth1: map<nat, nat>, queue1: seq<nat>)
    requires queue != [] && queue[0] in depth
    requires Found(depth, queue[1..], found, depth[queue[0]], depth1, queue1)
    requires forall x :: x in found <==> (queue[0], x) in edges
    ensures Expansion(edges, depth, queue, depth1, queue1)
  {
    forall x ensures x in queue1[|queue| - 1..] <==> x in depth1 && x !in depth {
      assert x in queue1[|queue| - 1..] <==> x in Elems(queue1[|queue| - 1..]);
    }
  }

  // ----- callers within a few hops ------------------------------------------------------------

  method DiscoverCallers(list: seq<Site>, hop: nat, depth0: map<nat, nat>, queue0: seq<nat>)
    returns (depth: map<nat, nat>, queue: seq<nat>)
    requires Distinct(queue0) && Elems(queue0) <= depth0.Keys
    ensures Found(depth0, queue0, Sources(list), hop, depth, queue)
  {
    depth, queue := depth0, queue0;
    assert queue0[|queue0|..] == [];
    for j := 0 to |list|
      invariant Found(depth0, queue0, Sources(list[..j]), hop, depth, queue)
    {
      PushSource(list, j);
      depth, queue := Discover(depth0, queue0, Sources(list[..j]), hop, list[j].0, depth, queue);
    }
    assert list[..|list|] == list;
  }

  /** The state of a bounded walk between two steps. */
  ghost predicate Walking(csr: Csr, keep: nat -> bool, root: nat, limit: nat, depth: map<nat, nat>, queue: seq<nat>)
    requires Aligned(csr)
  {
    && Frontier(Reverse(csr, keep), {root}, limit, depth, queue)
    && depth.Keys <= Universe(csr, keep, root)
    && (forall x :: x in depth ==> depth[x] <= limit)
  }

  lemma WalkStarts(csr: Csr, keep: nat -> bool, root: nat, limit: nat)
    requires Aligned(csr)
    ensures Walking(csr, keep, root, limit, map[root := 0], [root])
  {
    assert Elems([root]) == {root};
    FrontierStarts(Reverse(csr, keep), {root}, limit, map[root := 0], [root]);
  }

  lemma WalkSkips(csr: Csr, keep: nat -> bool, root: nat, limit: nat, depth: map<nat, nat>, queue: seq<nat>)
    requires Aligned(csr) && Walking(csr, keep, root, limit, depth, queue) && queue != []
    requires depth[queue[0]] >= limit
    ensures Walking(csr, keep, root, limit, depth, queue[1..])
  {
    SkipKeeps(Reverse(csr, keep), {root}, limit, depth, queue);
  }

  lemma QueueFacts(depth: map<nat, nat>, queue: seq<nat>)
    requires Queued(depth, queue) && queue != []
    ensures Distinct(queue[1..]) && Elems(queue[1..]) <= depth.Keys
  {
    PopElem(queue);
  }

  lemma ListingExpands(csr: Csr, keep: nat -> bool, depth: map<nat, nat>, queue: seq<nat>,
                       list: seq<Site>, depth1: map<nat, nat>, queue1: seq<nat>)
    requires Aligned(csr) && queue != [] && queue[0] in depth && IsListing(csr, keep, queue[0], list)
    requires Found(depth, queue[1..], Sources(list), depth[queue[0]], depth1, queue1)
    ensures Expansion(Reverse(csr, keep), depth, queue, depth1, queue1)
  {
    forall x ensures x in Sources(list) <==> (queue[0], x) in Reverse(csr, keep) {
      ListedSources(csr, keep, queue[0], list, x);
    }
    FoundIsExpansion(Reverse(csr, keep), depth, queue, Sources(list), depth1, queue1);
  }

  lemma NothingFound(edges: set<(nat, nat)>, depth: map<nat, nat>, queue: seq<nat>, depth1: map<nat, nat>,
                     queue1: seq<nat>)
    requires queue != [] && queue[0] in depth && Expansion(edges, depth, queue, depth1, queue1)
    requires depth1.Keys == depth.Keys
    ensures queue1 == queue[1..]
  {
    var rest, news := queue[1..], queue1[|queue| - 1..];
    assert queue1 == rest + news;
    HasElement(news);
    forall x ensures x !in news {
      assert x in depth1.Keys <==> x in depth.Keys;
    }
  }

  lemma HasElement(s: seq<nat>)
    ensures s == [] || exists x :: x in s
  {
    if s != [] {
      assert s[0] in s;
    }
  }

  lemma WalkExpands(csr: Csr, keep: nat -> bool, root: nat, limit: nat, depth: map<nat, nat>, queue: seq<nat>,
                    depth1: map<nat, nat>, queue1: seq<nat>)
    requires Aligned(csr) && Walking(csr, keep, root, limit, depth, queue) && queue != []
    requires depth[queue[0]] < limit
    requires Expansion(Reverse(csr, keep), depth, queue, depth1, queue1)
    ensures Walking(csr, keep, root, limit, depth1, queue1)
    ensures depth1.Keys == depth.Keys ==> queue1 == queue[1..]
  {
    var edges := Reverse(csr, keep);
    ExpansionKeeps(edges, {root}, limit, depth, queue, depth1, queue1);
    if depth1.Keys == depth.Keys {
      NothingFound(edges, depth, queue, depth1, queue1);
    }
    forall x | x in depth1 ensures x in Universe(csr, keep, root) {
      if x !in depth {
        assert (queue[0], x) in edges;
      }
    }
  }

  /** Exactly the symbols within four hops against the calls, each at its shortest distance. */
  method ReverseCallDepth(csr: Csr, target: nat) returns (depth: map<nat, nat>)
    requires Aligned(csr)
    ensures forall x, d: nat {:trigger Distance(Reverse(csr, IsCall), {target}, x, d)} ::
              x in depth && depth[x] == d <==>
                d <= MAX_REVERSE_CALL_HOPS && Distance(Reverse(csr, IsCall), {target}, x, d)
  {
    var index := BuildFiltered(csr, IsCall);
    depth := map[target := 0];
    var queue := [target];
    ghost var all := Universe(csr, IsCall, target);
    WalkStarts(csr, IsCall, target, MAX_REVERSE_CALL_HOPS);
    while queue != []
      invariant Walking(csr, IsCall, target, MAX_REVERSE_CALL_HOPS, depth, queue)
      decreases all - depth.Keys, |queue|
    {
      var node := queue[0];
      var hop := depth[node];
      if hop >= MAX_REVERSE_CALL_HOPS {
        WalkSkips(csr, IsCall, target, MAX_REVERSE_CALL_HOPS, depth, queue);
        queue := queue[1..];
      } else {
        QueueFacts(depth, queue);
        var depth1, queue1 := DiscoverCallers(Callers(index, node), hop, depth, queue[1..]);
        ListingExpands(csr, IsCall, depth, queue, Callers(index, node), depth1, queue1);
        WalkExpands(csr, IsCall, target, MAX_REVERSE_CALL_HOPS, depth, queue, depth1, queue1);
        Shrinks(all, depth.Keys, depth1.Keys);
        depth, queue := depth1, queue1;
      }
    }
    forall x, d: nat
      ensures x in depth && depth[x] == d <==>
                d <= MAX_REVERSE_CALL_HOPS && Distance(Reverse(csr, IsCall), {target}, x, d)
    {
      DepthIsDistance(Reverse(csr, IsCall), {target}, MAX_REVERSE_CALL_HOPS, depth, x, d);
    }
  }

  // ----- implied edges ------------------------------------------------------------------------

  /** The kind of an edge, looked up through its offset from its source's first edge. */
  function EdgeKindAt(csr: Csr, s: Site): Option<nat>
    requires Aligned(csr)
  {
    var range := Range(csr, s.0);
    if s.1 < range.0 then None
    else if s.1 - range.0 >= range.1 - range.0 then None
    else Some(csr.kinds[s.1])
  }

  function SiteOf(e: ImpliedEdge): Site {
    (e.src, e.edgeIdx)
  }

  predicate DistinctSites(implied: seq<ImpliedEdge>) {
    forall i, j :: 0 <= i < j < |implied| ==> SiteOf(implied[i]) != SiteOf(implied[j])
  }

  /** `e` is an edge into `t` that the policy follows, named by its relation. */
  ghost predicate IsFollowed(csr: Csr, policy: PropagationPolicy, t: nat, e: ImpliedEdge)
    requires Aligned(csr)
  {
    Enters(csr, Keep(policy), t, SiteOf(e)) && RelationOf(csr.kinds[e.edgeIdx]) == Some(e.relation)
  }

  /** The edges a policy implies: those into a symbol nearer to the root than the depth limit, one
      hop beyond its distance. */
  ghost predicate IsImplied(csr: Csr, policy: PropagationPolicy, root: nat, e: ImpliedEdge)
    requires Aligned(csr)
  {
    exists t: nat, d: nat {:trigger IsFollowed(csr, policy, t, e),
      Distance(Reverse(csr, Keep(policy)), {root}, t, d)} ::
      && IsFollowed(csr, policy, t, e) && Distance(Reverse(csr, Keep(policy)), {root}, t, d)
      && d < policy.maxDepth && e.hop == d + 1
  }

  /** Emitted so far: the followed edges into symbols already expanded. */
  ghost predicate IsSettled(csr: Csr, policy: PropagationPolicy, depth: map<nat, nat>, queue: seq<nat>, e: ImpliedEdge)
    requires Aligned(csr)
  {
    exists t: nat {:trigger IsFollowed(csr, policy, t, e)} ::
      IsFollowed(csr, policy, t, e) && t in depth && t !in queue && depth[t] < policy.maxDepth && e.hop == depth[t] + 1
  }

  ghost predicate Emitted(csr: Csr, policy: PropagationPolicy, depth: map<nat, nat>, queue: seq<nat>,
                          seenEdges: set<Site>, implied: seq<ImpliedEdge>)
    requires Aligned(csr)
  {
    && (forall e {:trigger e in implied} :: e in implied <==> IsSettled(csr, policy, depth, queue, e))
    && DistinctSites(implied)
    && Recorded(seenEdges, implied)
  }

  ghost predicate HasSite(implied: seq<ImpliedEdge>, s: Site) {
    exists e :: e in implied && SiteOf(e) == s
  }

  ghost predicate Recorded(seenEdges: set<Site>, implied: seq<ImpliedEdge>) {
    forall s {:trigger HasSite(implied, s)} :: s in seenEdges <==> HasSite(implied, s)
  }

  lemma StartsEmpty(csr: Csr, policy: PropagationPolicy, root: nat)
    requires Aligned(csr)
    ensures Emitted(csr, policy, map[root := 0], [root], {}, [])
  {
  }

  lemma SkipSettles(csr: Csr, policy: PropagationPolicy, depth: map<nat, nat>, queue: seq<nat>,
                    seenEdges: set<Site>, implied: seq<ImpliedEdge>)
    requires Aligned(csr) && Emitted(csr, policy, depth, queue, seenEdges, implied)
    requires queue != [] && queue[0] in depth && depth[queue[0]] >= policy.maxDepth
    ensures Emitted(csr, policy, depth, queue[1..], seenEdges, implied)
  {
    PopElem(queue);
    forall e ensures IsSettled(csr, policy, depth, queue, e) <==> IsSettled(csr, policy, depth, queue[1..], e) {
      forall t: nat ensures t in queue <==> t in queue[1..] || t == queue[0] {
        assert t in queue <==> t in Elems(queue);
      }
    }
  }

  /** What the expansion of `u` adds: its followed edges. */
  ghost predicate IsFresh(csr: Csr, policy: PropagationPolicy, u: nat, hop: nat, list: seq<Site>, e: ImpliedEdge)
    requires Aligned(csr)
  {
    IsFollowed(csr, policy, u, e) && SiteOf(e) in list && e.hop == hop + 1
  }

  lemma SettledGrows(csr: Csr, policy: PropagationPolicy, depth: map<nat, nat>, queue: seq<nat>, depth1: map<nat, nat>,
                     queue1: seq<nat>, list: seq<Site>, e: ImpliedEdge)
    requires Aligned(csr) && Queued(depth, queue) && queue != [] && depth[queue[0]] < policy.maxDepth
    requires Expansion(Reverse(csr, Keep(policy)), depth, queue, depth1, queue1)
    requires forall x :: x in queue1 <==> x in queue[1..] || (x in depth1 && x !in depth)
    requires forall s: Site :: s in list <==> Enters(csr, IsBlastKind, queue[0], s)
    ensures IsSettled(csr, policy, depth1, queue1, e) <==>
            IsSettled(csr, policy, depth, queue, e) || IsFresh(csr, policy, queue[0], depth[queue[0]], list, e)
  {
    PopElem(queue);
    forall t: nat ensures t in depth1 && t !in queue1 <==> t in depth && (t !in queue || t == queue[0]) {
      assert t in queue <==> t in Elems(queue);
      assert t in queue[1..] <==> t in Elems(queue[1..]);
    }
  }

  /** The sources, among the first callers, of edges the policy follows. */
  ghost function FollowedSources(csr: Csr, policy: PropagationPolicy, list: seq<Site>): set<nat>
    requires Aligned(csr)
  {
    set s | s in list && IsEdge(csr, s) && Follows(policy, csr.kinds[s.1]) :: s.0
  }

  lemma PushFollowed(csr: Csr, policy: PropagationPolicy, list: seq<Site>, j: nat)
    requires Aligned(csr) && j < |list| && IsEdge(csr, list[j])
    ensures FollowedSources(csr, policy, list[..j + 1]) ==
            FollowedSources(csr, policy, list[..j]) + if Follows(policy, csr.kinds[list[j].1]) then {list[j].0} else {}
  {
    assert list[..j + 1] == list[..j] + [list[j]];
  }

  lemma FollowedAreNext(csr: Csr, policy: PropagationPolicy, u: nat, list: seq<Site>, x: nat)
    requires Aligned(csr) && forall s: Site :: s in list <==> Enters(csr, IsBlastKind, u, s)
    ensures x in FollowedSources(csr, policy, list) <==> (u, x) in Reverse(csr, Keep(policy))
  {
    ReverseEdge(csr, Keep(policy), u, x);
    if x in FollowedSources(csr, policy, list) {
      var s: Site :| s in list && IsEdge(csr, s) && Follows(policy, csr.kinds[s.1]) && s.0 == x;
      assert Enters(csr, Keep(policy), u, (x, s.1));
    }
    if i: nat :| Enters(csr, Keep(policy), u, (x, i)) {
      assert Enters(csr, IsBlastKind, u, (x, i));
      assert (x, i) in list;
    }
  }

  /** The callers before the `j`-th are dealt with. */
  ghost predicate Emitting(csr: Csr, policy: PropagationPolicy, u: nat, hop: nat, list: seq<Site>, j: nat,
                           implied0: seq<ImpliedEdge>, seenEdges: set<Site>, implied: seq<ImpliedEdge>)
    requires Aligned(csr) && j <= |list|
  {
    && (forall e {:trigger e in implied} :: e in implied <==>
        e in implied0 || IsFresh(csr, policy, u, hop, list[..j], e))
    && DistinctSites(implied)
    && Recorded(seenEdges, implied)
  }

  lemma FreshStep(csr: Csr, policy: PropagationPolicy, u: nat, hop: nat, list: seq<Site>, j: nat, e: ImpliedEdge)
    requires Aligned(csr) && j < |list| && Enters(csr, IsBlastKind, u, list[j])
    ensures IsFresh(csr, policy, u, hop, list[..j + 1], e) <==>
            || IsFresh(csr, policy, u, hop, list[..j], e)
            || (Follows(policy, csr.kinds[list[j].1])
                && e == ImpliedEdge(list[j].0, list[j].1, RelationOf(csr.kinds[list[j].1]).value, hop + 1))
  {
    assert list[..j + 1] == list[..j] + [list[j]];
  }

  /** One caller: its edge is emitted when the policy follows it. */
  method EmitOne(csr: Csr, policy: PropagationPolicy, ghost u: nat, hop: nat, list: seq<Site>, j: nat,
                 ghost implied0: seq<ImpliedEdge>, seen1: set<Site>, implied1: seq<ImpliedEdge>)
    returns (follow: bool, seenEdges: set<Site>, implied: seq<ImpliedEdge>)
    requires Aligned(csr) && j < |list| && Enters(csr, IsBlastKind, u, list[j])
    requires Ascending(list) && !HasSite(implied0, list[j])
    requires Emitting(csr, policy, u, hop, list, j, implied0, seen1, implied1)
    ensures Emitting(csr, policy, u, hop, list, j + 1, implied0, seenEdges, implied)
    ensures follow <==> Follows(policy, csr.kinds[list[j].1])
  {
    seenEdges, implied := seen1, implied1;
    var site := list[j];
    forall e ensures IsFresh(csr, policy, u, hop, list[..j + 1], e) <==>
            || IsFresh(csr, policy, u, hop, list[..j], e)
            || (Follows(policy, csr.kinds[list[j].1])
                && e == ImpliedEdge(list[j].0, list[j].1, RelationOf(csr.kinds[list[j].1]).value, hop + 1))
    {
      FreshStep(csr, policy, u, hop, list, j, e);
    }
    var kind := EdgeKindAt(csr, site);
    follow := kind.Some? && Follows(policy, kind.value);
    if follow {
      NotSeen(csr, policy, u, hop, list, j, implied0, seen1, implied1);
      var edge := ImpliedEdge(site.0, site.1, RelationOf(kind.value).value, hop + 1);
      if site !in seenEdges {
        PushImplied(seen1, implied1, edge);
        seenEdges := seenEdges + {site};
        implied := implied + [edge];
      }
    }
  }

  lemma NotSeen(csr: Csr, policy: PropagationPolicy, u: nat, hop: nat, list: seq<Site>, j: nat,
                implied0: seq<ImpliedEdge>, seenEdges: set<Site>, implied: seq<ImpliedEdge>)
    requires Aligned(csr) && j < |list|
    requires Ascending(list) && !HasSite(implied0, list[j])
    requires Emitting(csr, policy, u, hop, list, j, implied0, seenEdges, implied)
    ensures list[j] !in seenEdges
  {
    forall e | e in implied ensures SiteOf(e) != list[j] {
      if e !in implied0 {
        assert SiteOf(e) in list[..j];
        var k :| 0 <= k < j && list[k] == SiteOf(e);
        assert Before(list[k], list[j]);
      }
    }
    assert list[j] in seenEdges <==> HasSite(implied, list[j]);
  }

  lemma PushImplied(seenEdges: set<Site>, implied: seq<ImpliedEdge>, edge: ImpliedEdge)
    requires DistinctSites(implied) && Recorded(seenEdges, implied) && SiteOf(edge) !in seenEdges
    ensures DistinctSites(implied + [edge]) && Recorded(seenEdges + {SiteOf(edge)}, implied + [edge])
  {
    var more := implied + [edge];
    forall s ensures HasSite(more, s) <==> HasSite(implied, s) || s == SiteOf(edge) {
      assert edge in more;
      if HasSite(implied, s) {
        var e :| e in implied && SiteOf(e) == s;
        assert e in more;
      }
    }
    assert !HasSite(implied, SiteOf(edge));
  }

  method EmitCallers(csr: Csr, policy: PropagationPolicy, ghost u: nat, hop: nat, list: seq<Site>,
                     depth0: map<nat, nat>, queue0: seq<nat>, seen0: set<Site>, implied0: seq<ImpliedEdge>)
    returns (depth: map<nat, nat>, queue: seq<nat>, seenEdges: set<Site>, implied: seq<ImpliedEdge>)
    requires Aligned(csr) && IsListing(csr, IsBlastKind, u, list)
    requires Distinct(queue0) && Elems(queue0) <= depth0.Keys
    requires DistinctSites(implied0) && Recorded(seen0, implied0)
    requires forall s :: s in list ==> !HasSite(implied0, s)
    ensures Found(depth0, queue0, FollowedSources(csr, policy, list), hop, depth, queue)
    ensures Emitting(csr, policy, u, hop, list, |list|, implied0, seenEdges, implied)
  {
    depth, queue, seenEdges, implied := depth0, queue0, seen0, implied0;
    assert queue0[|queue0|..] == [];
    for j := 0 to |list|
      invariant Found(depth0, queue0, FollowedSources(csr, policy, list[..j]), hop, depth, queue)
      invariant Emitting(csr, policy, u, hop, list, j, implied0, seenEdges, implied)
    {
      assert list[j] in list;
      PushFollowed(csr, policy, list, j);
      var follow;
      follow, seenEdges, implied := EmitOne(csr, policy, u, hop, list, j, implied0, seenEdges, implied);
      if follow {
        depth, queue := Discover(depth0, queue0, FollowedSources(csr, policy, list[..j]), hop, list[j].0, depth, queue);
      }
    }
    assert list[..|list|] == list;
  }

  lemma HeadNotEmitted(csr: Csr, policy: PropagationPolicy, depth: map<nat, nat>, queue: seq<nat>,
                       seenEdges: set<Site>, implied: seq<ImpliedEdge>, s: Site)
    requires Aligned(csr) && Emitted(csr, policy, depth, queue, seenEdges, implied) && queue != []
    requires Enters(csr, IsBlastKind, queue[0], s)
    ensures !HasSite(implied, s)
  {
    forall e | e in implied ensures SiteOf(e) != s {
      assert IsSettled(csr, policy, depth, queue, e);
    }
  }

  lemma ExpandSettles(csr: Csr, policy: PropagationPolicy, root: nat, depth: map<nat, nat>, queue: seq<nat>,
                      depth1: map<nat, nat>, queue1: seq<nat>, list: seq<Site>,
                      seen0: set<Site>, implied0: seq<ImpliedEdge>, seenEdges: set<Site>, implied: seq<ImpliedEdge>)
    requires Aligned(csr) && Walking(csr, Keep(policy), root, policy.maxDepth, depth, queue)
    requires queue != [] && depth[queue[0]] < policy.maxDepth
    requires Expansion(Reverse(csr, Keep(policy)), depth, queue, depth1, queue1)
    requires IsListing(csr, IsBlastKind, queue[0], list)
    requires Emitted(csr, policy, depth, queue, seen0, implied0)
    requires Emitting(csr, policy, queue[0], depth[queue[0]], list, |list|, implied0, seenEdges, implied)
    ensures Emitted(csr, policy, depth1, queue1, seenEdges, implied)
  {
    ExpansionQueues(Reverse(csr, Keep(policy)), {root}, policy.maxDepth, depth, queue, depth1, queue1);
    assert list[..|list|] == list;
    forall e ensures e in implied <==> IsSettled(csr, policy, depth1, queue1, e) {
      SettledGrows(csr, policy, depth, queue, depth1, queue1, list, e);
    }
  }

  lemma SettledIsImplied(csr: Csr, policy: PropagationPolicy, root: nat, depth: map<nat, nat>, e: ImpliedEdge)
    requires Aligned(csr) && Walking(csr, Keep(policy), root, policy.maxDepth, depth, [])
    ensures IsSettled(csr, policy, depth, [], e) <==> IsImplied(csr, policy, root, e)
  {
    var edges := Reverse(csr, Keep(policy));
    forall t: nat, d: nat
      ensures t in depth && depth[t] == d <==> d <= policy.maxDepth && Distance(edges, {root}, t, d)
    {
      DepthIsDistance(edges, {root}, policy.maxDepth, depth, t, d);
    }
    if IsSettled(csr, policy, depth, [], e) {
      var t: nat :| IsFollowed(csr, policy, t, e) && t in depth && depth[t] < policy.maxDepth && e.hop == depth[t] + 1;
      assert Distance(edges, {root}, t, depth[t]);
    }
  }

  /** Exactly the implied edges, each once. */
  method WalkImpliedEdges(csr: Csr, reverse: ReverseIndex, root: nat, policy: PropagationPolicy)
    returns (implied: seq<ImpliedEdge>)
    requires Aligned(csr) && forall t: nat :: IsListing(csr, IsBlastKind, t, Callers(reverse, t))
    ensures forall e :: e in implied <==> IsImplied(csr, policy, root, e)
    ensures DistinctSites(implied)
  {
    var depth: map<nat, nat> := map[root := 0];
    var queue: seq<nat> := [root];
    var seenEdges: set<Site> := {};
    implied := [];
    ghost var all := Universe(csr, Keep(policy), root);
    WalkStarts(csr, Keep(policy), root, policy.maxDepth);
    StartsEmpty(csr, policy, root);
    while queue != []
      invariant Walking(csr, Keep(policy), root, policy.maxDepth, depth, queue)
      invariant Emitted(csr, policy, depth, queue, seenEdges, implied)
      decreases all - depth.Keys, |queue|
    {
      if depth[queue[0]] >= policy.maxDepth {
        WalkSkips(csr, Keep(policy), root, policy.maxDepth, depth, queue);
        SkipSettles(csr, policy, depth, queue, seenEdges, implied);
        queue := queue[1..];
      } else {
        ghost var before := depth.Keys;
        depth, queue, seenEdges, implied := ExpandNode(csr, reverse, root, policy, depth, queue, seenEdges, implied);
        Shrinks(all, before, depth.Keys);
      }
    }
    forall e ensures e in implied <==> IsImplied(csr, policy, root, e) {
      SettledIsImplied(csr, policy, root, depth, e);
    }
  }

  method ExpandNode(csr: Csr, reverse: ReverseIndex, ghost root: nat, policy: PropagationPolicy,
                    depth0: map<nat, nat>, queue0: seq<nat>, seen0: set<Site>, implied0: seq<ImpliedEdge>)
    returns (depth: map<nat, nat>, queue: seq<nat>, seenEdges: set<Site>, implied: seq<ImpliedEdge>)
    requires Aligned(csr) && forall t: nat :: IsListing(csr, IsBlastKind, t, Callers(reverse, t))
    requires Walking(csr, Keep(policy), root, policy.maxDepth, depth0, queue0)
    requires Emitted(csr, policy, depth0, queue0, seen0, implied0)
    requires queue0 != [] && depth0[queue0[0]] < policy.maxDepth
    ensures Walking(csr, Keep(policy), root, policy.maxDepth, depth, queue)
    ensures Emitted(csr, policy, depth, queue, seenEdges, implied)
    ensures depth0.Keys <= depth.Keys && (depth.Keys == depth0.Keys ==> |queue| < |queue0|)
  {
    var node := queue0[0];
    var list := Callers(reverse, node);
    QueueFacts(depth0, queue0);
    forall s | s in list ensures !HasSite(implied0, s) {
      HeadNotEmitted(csr, policy, depth0, queue0, seen0, implied0, s);
    }
    depth, queue, seenEdges, implied :=
      EmitCallers(csr, policy, node, depth0[node], list, depth0, queue0[1..], seen0, implied0);
    forall x ensures x in FollowedSources(csr, policy, list) <==> (node, x) in Reverse(csr, Keep(policy)) {
      FollowedAreNext(csr, policy, node, list, x);
    }
    FoundIsExpansion(Reverse(csr, Keep(policy)), depth0, queue0, FollowedSources(csr, policy, list), depth, queue);
    WalkExpands(csr, Keep(policy), root, policy.maxDepth, depth0, queue0, depth, queue);
    ExpandSettles(csr, policy, root, depth0, queue0, depth, queue, list, seen0, implied0, seenEdges, implied);
  }
}
