/** The influence graph of graphzero-core: upward closure and Kahn's topological order. */
module Invalidation {
  import opened Digraph
  import opened Wrappers

  // A content hash; only equality of identifiers matters.
  type ArtifactId = nat

  type Forward = map<ArtifactId, set<ArtifactId>>

  datatype InfluenceClass = ExactSupport | SoundOverapproximation | Heuristic

  predicate ProtectsIncrementalEquivalence(c: InfluenceClass) {
    c.ExactSupport? || c.SoundOverapproximation?
  }

  datatype DependencyKind = Build | Schema | Effect | Data | RuntimeObserved

  datatype InvalidationError =
    | Cycle(nodes: set<ArtifactId>)
    | UnprotectedInfluence(influence: InfluenceClass)
    | MissingProducer(id: ArtifactId)
    | EquivalenceDivergence(id: ArtifactId)

  datatype InvalidationCertificate = InvalidationCertificate(
    influence: InfluenceClass,
    changed: set<ArtifactId>,
    invalidated: set<ArtifactId>,
    isUpwardClosure: bool)

  ghost function Edges(f: Forward): set<(ArtifactId, ArtifactId)> {
    set u, v | u in f && v in f[u] :: (u, v)
  }

  /** Keys plus targets: a target need not have an entry of its own. */
  ghost function Nodes(f: Forward): set<ArtifactId> {
    f.Keys + set u, v | u in f && v in f[u] :: v
  }

  ghost function Preds(f: Forward, v: ArtifactId): set<ArtifactId> {
    set u | u in f && v in f[u]
  }

  /** Every node once, and every node after all of its predecessors. */
  ghost predicate IsTopologicalOrder(f: Forward, order: seq<ArtifactId>) {
    && Distinct(order)
    && Elems(order) == Nodes(f)
    && PredsFirst(f, order)
  }

  ghost predicate PredsFirst(f: Forward, order: seq<ArtifactId>) {
    forall j :: 0 <= j < |order| ==> Preds(f, order[j]) <= Elems(order[..j])
  }

  /** `s` is the largest set of nodes in which every member has a predecessor. */
  ghost predicate IsCyclicCore(f: Forward, s: set<ArtifactId>) {
    && s != {}
    && Stuck(Edges(f), s)
    && forall t: set<ArtifactId> :: Stuck(Edges(f), t) ==> t <= s
  }

  lemma {:induction false} StuckAvoidsPrefix(f: Forward, order: seq<ArtifactId>, t: set<ArtifactId>, n: nat)
    requires n <= |order| && PredsFirst(f, order) && Stuck(Edges(f), t)
    ensures t !! Elems(order[..n])
  {
    if n > 0 {
      StuckAvoidsPrefix(f, order, t, n - 1);
      assert order[..n] == order[..n - 1] + [order[n - 1]];
      if order[n - 1] in t {
        PredIsBefore(f, t, order[n - 1]);
        assert false;
      }
    }
  }

  lemma PredIsBefore(f: Forward, t: set<ArtifactId>, x: ArtifactId)
    requires Stuck(Edges(f), t) && x in t
    ensures exists u :: u in t && u in Preds(f, x)
  {
    assert HasPredIn(Edges(f), t, x);
  }

  lemma StuckInNodes(f: Forward, t: set<ArtifactId>)
    requires Stuck(Edges(f), t)
    ensures t <= Nodes(f)
  {
    forall x | x in t ensures x in Nodes(f) {
      assert HasPredIn(Edges(f), t, x);
    }
  }

  lemma OrderIsAcyclic(f: Forward, order: seq<ArtifactId>)
    requires IsTopologicalOrder(f, order)
    ensures !HasCycle(Edges(f))
  {
    var rank: map<ArtifactId, int> := map x | x in order :: IndexOf(order, x);
    forall e | e in Edges(f) ensures e.0 in rank && e.1 in rank && rank[e.0] < rank[e.1] {
      assert e.1 in Nodes(f) && e.1 in Elems(order);
      var j := IndexOf(order, e.1);
      assert e.0 in Preds(f, order[j]);
      assert e.0 in Elems(order[..j]);
      var i :| 0 <= i < j && order[i] == e.0;
    }
    RankedIsAcyclic(Edges(f), rank);
  }

  function IndexOf(order: seq<ArtifactId>, x: ArtifactId): (i: nat)
    requires x in order
    ensures i < |order| && order[i] == x
  {
    if order[0] == x then 0 else 1 + IndexOf(order[1..], x)
  }

  ghost predicate Counts(degree: map<ArtifactId, nat>, sets: map<ArtifactId, set<ArtifactId>>) {
    degree.Keys == sets.Keys && forall k :: k in sets ==> degree[k] == |sets[k]|
  }

  class DependencyGraph {
    var influence: InfluenceClass
    var forward: Forward
    var kinds: map<(ArtifactId, ArtifactId), DependencyKind>

    constructor (influence: InfluenceClass)
      ensures this.influence == influence && forward == map[] && kinds == map[]
    {
      this.influence, forward, kinds := influence, map[], map[];
    }

    method AddDependency(input: ArtifactId, output: ArtifactId)
      modifies this`forward
      ensures Edges(forward) == old(Edges(forward)) + {(input, output)}
      ensures forward.Keys == old(forward.Keys) + {input, output}
    {
      EnsureNode(input);
      forward := forward[input := forward[input] + {output}];
      EnsureNode(output);
      var before, added := old(Edges(forward)), (input, output);
      assert forall e :: e in Edges(forward) <==> e in before || e == added;
    }

    method AddDependencyKinded(input: ArtifactId, output: ArtifactId, kind: DependencyKind)
      modifies this`forward, this`kinds
      ensures Edges(forward) == old(Edges(forward)) + {(input, output)}
      ensures forward.Keys == old(forward.Keys) + {input, output}
      ensures kinds == old(kinds)[(input, output) := kind]
    {
      AddDependency(input, output);
      kinds := kinds[(input, output) := kind];
    }

    method EnsureNode(id: ArtifactId)
      modifies this`forward
      ensures Edges(forward) == old(Edges(forward))
      ensures forward.Keys == old(forward.Keys) + {id}
      ensures forall k :: k in old(forward) ==> forward[k] == old(forward)[k]
    {
      if id !in forward {
        forward := forward[id := {}];
      }
      assert forall e :: e in Edges(forward) <==> e in old(Edges(forward));
    }

    /** Everything reachable from `changed`, including `changed` itself. */
    method UpwardClosure(changed: set<ArtifactId>) returns (out: set<ArtifactId>)
      ensures IsReachSet(Edges(forward), changed, out)
    {
      out := Closure(forward, changed);
    }

    method CertifyInvalidation(changed: set<ArtifactId>) returns (c: InvalidationCertificate)
      ensures c.influence == influence && c.changed == changed && c.isUpwardClosure
      ensures IsReachSet(Edges(forward), changed, c.invalidated)
    {
      var invalidated := UpwardClosure(changed);
      c := InvalidationCertificate(influence, changed, invalidated, true);
    }

    /** Kahn's algorithm. It succeeds exactly on acyclic graphs; on failure the reported nodes
        are the largest set in which everything waits for something else in the set. */
    method TopologicalOrder() returns (r: Result<seq<ArtifactId>, InvalidationError>)
      ensures r.Ok? <==> !HasCycle(Edges(forward))
      ensures r.Ok? ==> IsTopologicalOrder(forward, r.value)
      ensures r.Err? ==> r.error.Cycle? && IsCyclicCore(forward, r.error.nodes)
    {
      r := Kahn(forward);
    }
  }

  method Closure(f: Forward, changed: set<ArtifactId>) returns (out: set<ArtifactId>)
    ensures IsReachSet(Edges(f), changed, out)
  {
    ghost var reach := ForwardReach(f, changed);
    out := changed;
    var q := SetToSeq(changed);
    while q != []
      invariant changed <= out <= reach
      invariant forall x :: x in q ==> x in out
      invariant forall u, v :: u in out && u !in q && u in f && v in f[u] ==> v in out
      decreases reach - out, |q|
    {
      var x := q[0];
      q := q[1..];
      if x in f {
        out, q := InsertAll(out, q, f[x]);
      }
    }
    ReachSetIsLeast(Edges(f), changed, reach, out);
    assert out == reach;
  }

  lemma ForwardReach(f: Forward, changed: set<ArtifactId>) returns (reach: set<ArtifactId>)
    ensures IsReachSet(Edges(f), changed, reach) && changed <= reach
    ensures forall u, v :: u in reach && u in f && v in f[u] ==> v in reach
    ensures reach <= changed + Nodes(f)
  {
    reach := ReachSetExists(Edges(f), changed);
    forall u, v | u in reach && u in f && v in f[u] ensures v in reach {
      assert (u, v) in Edges(f);
    }
  }

  lemma Without(s: set<ArtifactId>, x: ArtifactId) returns (w: set<ArtifactId>)
    requires x in s
    ensures |w| == |s| - 1 && forall u :: u in w <==> u in s && u != x
  {
    w := s - {x};
  }

  lemma With(s: set<ArtifactId>, x: ArtifactId) returns (w: set<ArtifactId>)
    requires x !in s
    ensures |w| == |s| + 1 && forall u :: u in w <==> u in s || u == x
  {
    w := s + {x};
  }

  ghost predicate IsPreds(f: Forward, preds: map<ArtifactId, set<ArtifactId>>) {
    && preds.Keys == Nodes(f)
    && forall k, u :: k in preds ==> (u in preds[k] <==> u in f && k in f[u])
  }

  method InDegrees(f: Forward) returns (indegree: map<ArtifactId, nat>, ghost preds: map<ArtifactId, set<ArtifactId>>)
    ensures IsPreds(f, preds) && Counts(indegree, preds)
  {
    indegree := map k | k in f :: 0;
    preds := map k | k in f :: {};
    var sources := f.Keys;
    while sources != {}
      invariant sources <= f.Keys && Counts(indegree, preds) && IsPartial(f, sources, preds)
      decreases sources
    {
      var u :| u in sources;
      ghost var preds0 := preds;
      indegree, preds := CountTargets(f[u], u, indegree, preds);
      PartialStep(f, sources, u, preds0, preds);
      sources := sources - {u};
    }
    assert preds.Keys == Nodes(f);
  }

  /** The predecessors found once only `sources` are left to scan. */
  ghost predicate IsPartial(f: Forward, sources: set<ArtifactId>, preds: map<ArtifactId, set<ArtifactId>>) {
    && f.Keys <= preds.Keys
    && (forall u :: u in f && u !in sources ==> f[u] <= preds.Keys)
    && (forall k :: k in preds && k !in f ==> preds[k] != {})
    && (forall k, u :: k in preds ==> (u in preds[k] <==> u in f && k in f[u] && u !in sources))
  }

  lemma PartialStep(f: Forward, sources: set<ArtifactId>, u: ArtifactId, preds0: map<ArtifactId, set<ArtifactId>>,
                    preds: map<ArtifactId, set<ArtifactId>>)
    requires IsPartial(f, sources, preds0) && u in sources && u in f && preds.Keys == preds0.Keys + f[u]
    requires forall k, v :: k in preds ==> (v in preds[k] <==> (k in preds0 && v in preds0[k]) || (k in f[u] && v == u))
    ensures IsPartial(f, sources - {u}, preds)
  {
    forall k | k in preds && k !in f ensures preds[k] != {} {
      if k in preds0 {
        var v :| v in preds0[k];
        assert v in preds[k];
      } else {
        assert u in preds[k];
      }
    }
    forall k, v | k in preds ensures v in preds[k] <==> v in f && k in f[v] && v !in sources - {u} {
      if k in preds0 {
        assert v in preds0[k] <==> v in f && k in f[v] && v !in sources;
      }
    }
  }

  method CountTargets(all: set<ArtifactId>, u: ArtifactId,
                      indegree0: map<ArtifactId, nat>, ghost preds0: map<ArtifactId, set<ArtifactId>>)
    returns (indegree: map<ArtifactId, nat>, ghost preds: map<ArtifactId, set<ArtifactId>>)
    requires Counts(indegree0, preds0)
    requires forall k :: k in preds0 ==> u !in preds0[k]
    ensures Counts(indegree, preds) && preds.Keys == preds0.Keys + all
    ensures forall k, v :: k in preds ==>
              (v in preds[k] <==> (k in preds0 && v in preds0[k]) || (k in all && v == u))
  {
    indegree, preds := indegree0, preds0;
    var targets := all;
    while targets != {}
      invariant targets <= all
      invariant Counts(indegree, preds) && preds.Keys == preds0.Keys + (all - targets)
      invariant forall k, v :: k in preds ==>
                  (v in preds[k] <==> (k in preds0 && v in preds0[k]) || (k in all && k !in targets && v == u))
      decreases targets
    {
      var t :| t in targets;
      targets := targets - {t};
      var count := if t in indegree then indegree[t] else 0;
      ghost var more := With(if t in preds then preds[t] else {}, u);
      indegree := indegree[t := count + 1];
      preds := preds[t := more];
    }
  }

  ghost predicate IsReady(waiting: map<ArtifactId, set<ArtifactId>>, out: set<ArtifactId>, q: set<ArtifactId>) {
    forall k :: k in q <==> k in waiting && k !in out && waiting[k] == {}
  }

  ghost predicate IsWaiting(f: Forward, out: set<ArtifactId>, waiting: map<ArtifactId, set<ArtifactId>>) {
    forall k, u :: k in waiting ==> (u in waiting[k] <==> u in f && k in f[u] && u !in out)
  }

  method Kahn(f: Forward) returns (r: Result<seq<ArtifactId>, InvalidationError>)
    ensures r.Ok? <==> !HasCycle(Edges(f))
    ensures r.Ok? ==> IsTopologicalOrder(f, r.value)
    ensures r.Err? ==> r.error.Cycle? && IsCyclicCore(f, r.error.nodes)
  {
    var out, indegree, waiting := Drain(f);
    DistinctCount(out);
    assert |indegree.Keys| == |indegree|;
    if |out| != |indegree| {
      r := Err(Cycle(set k | k in indegree && indegree[k] > 0));
      CoreIsCyclic(f, out, waiting, r.error.nodes);
    } else {
      FullSizeIsAll(Elems(out), waiting.Keys);
      r := Ok(out);
      OrderIsAcyclic(f, out);
    }
  }

  /** Emit until no node is ready. */
  method Drain(f: Forward)
    returns (out: seq<ArtifactId>, indegree: map<ArtifactId, nat>, ghost waiting: map<ArtifactId, set<ArtifactId>>)
    ensures KahnInvariant(f, Nodes(f), indegree, waiting, [], out)
  {
    indegree, waiting := InDegrees(f);
    ghost var nodes := waiting.Keys;
    var q := SetToSeq(set k | k in indegree && indegree[k] == 0);
    out := [];
    while q != []
      invariant KahnInvariant(f, nodes, indegree, waiting, q, out)
      decreases |nodes| - |out|
    {
      indegree, q, out, waiting := EmitHead(f, nodes, indegree, q, out, waiting);
      DistinctFits(out, nodes);
    }
  }

  ghost predicate KahnInvariant(f: Forward, nodes: set<ArtifactId>, indegree: map<ArtifactId, nat>,
                                waiting: map<ArtifactId, set<ArtifactId>>, q: seq<ArtifactId>, out: seq<ArtifactId>) {
    && waiting.Keys == nodes && Counts(indegree, waiting)
    && Distinct(out) && Elems(out) <= nodes
    && Distinct(q) && IsReady(waiting, Elems(out), Elems(q))
    && IsWaiting(f, Elems(out), waiting)
    && (forall k :: k in out ==> waiting[k] == {})
    && PredsFirst(f, out)
  }

  /** One turn of the loop: emit the head of the queue and release its targets. */
  method EmitHead(f: Forward, ghost nodes: set<ArtifactId>, indegree0: map<ArtifactId, nat>, q0: seq<ArtifactId>,
                  out0: seq<ArtifactId>, ghost waiting0: map<ArtifactId, set<ArtifactId>>)
    returns (indegree: map<ArtifactId, nat>, q: seq<ArtifactId>, out: seq<ArtifactId>,
             ghost waiting: map<ArtifactId, set<ArtifactId>>)
    requires KahnInvariant(f, nodes, indegree0, waiting0, q0, out0) && q0 != []
    requires forall u :: u in f ==> f[u] <= nodes
    ensures KahnInvariant(f, nodes, indegree, waiting, q, out)
    ensures out == out0 + [q0[0]]
  {
    var x := q0[0];
    EmitFacts(f, nodes, indegree0, q0, out0, waiting0);
    indegree, waiting, q, out := indegree0, waiting0, q0[1..], out0 + [x];
    if x in f {
      indegree, waiting, q := Release(x, f[x], indegree, waiting, q, Elems(out));
    }
    EmitKeeps(f, out0, x, waiting0, waiting);
  }

  /** The head of the queue can be emitted. */
  lemma EmitFacts(f: Forward, nodes: set<ArtifactId>, indegree: map<ArtifactId, nat>, q: seq<ArtifactId>,
                  out: seq<ArtifactId>, waiting: map<ArtifactId, set<ArtifactId>>)
    requires KahnInvariant(f, nodes, indegree, waiting, q, out) && q != []
    requires forall u :: u in f ==> f[u] <= nodes
    ensures var x := q[0];
            && x in waiting && waiting[x] == {}
            && Distinct(out + [x]) && Elems(out + [x]) == Elems(out) + {x} && Elems(out + [x]) <= nodes
            && Distinct(q[1..]) && IsReady(waiting, Elems(out + [x]), Elems(q[1..]))
            && PredsFirst(f, out + [x])
            && (x in f ==> f[x] <= waiting.Keys)
            && (forall k :: x in f && k in f[x] ==> x in waiting[k] && k !in Elems(out + [x]))
  {
    var x := q[0];
    PopElem(q);
    PushElem(out, x);
    assert x in Elems(q);
    assert x !in out by {
      assert x !in Elems(out);
    }
    PushEmitted(f, out, x, waiting);
    if x in f {
      forall k | k in f[x] ensures x in waiting[k] && k !in Elems(out + [x]) {
        assert k in waiting;
      }
    }
  }

  lemma EmitKeeps(f: Forward, out: seq<ArtifactId>, x: ArtifactId, waiting0: map<ArtifactId, set<ArtifactId>>,
                  waiting: map<ArtifactId, set<ArtifactId>>)
    requires IsWaiting(f, Elems(out), waiting0) && waiting.Keys == waiting0.Keys
    requires forall k, u :: k in waiting ==> (u in waiting[k] <==> u in waiting0[k] && (x in f && k in f[x] ==> u != x))
    requires (forall k :: k in out ==> k in waiting0 && waiting0[k] == {}) && x in waiting0 && waiting0[x] == {}
    ensures IsWaiting(f, Elems(out + [x]), waiting)
    ensures forall k :: k in out + [x] ==> waiting[k] == {}
  {
    PushElem(out, x);
    forall k | k in out + [x] ensures waiting[k] == {} {
      forall u ensures u !in waiting[k] {
        assert u !in waiting0[k];
      }
    }
  }

  method ReleaseOne(x: ArtifactId, y: ArtifactId, indegree0: map<ArtifactId, nat>,
                    ghost waiting0: map<ArtifactId, set<ArtifactId>>, q0: seq<ArtifactId>, ghost out: set<ArtifactId>)
    returns (indegree: map<ArtifactId, nat>, ghost waiting: map<ArtifactId, set<ArtifactId>>, q: seq<ArtifactId>)
    requires Counts(indegree0, waiting0) && y in waiting0 && x in waiting0[y] && y !in out && Distinct(q0)
    requires IsReady(waiting0, out, Elems(q0))
    ensures Counts(indegree, waiting) && waiting.Keys == waiting0.Keys
    ensures forall k, u :: k in waiting ==> (u in waiting[k] <==> u in waiting0[k] && (k == y ==> u != x))
    ensures Distinct(q) && IsReady(waiting, out, Elems(q))
  {
    assert y !in Elems(q0);
    indegree, q := indegree0[y := indegree0[y] - 1], q0;
    ghost var fewer := Without(waiting0[y], x);
    waiting := waiting0[y := fewer];
    if indegree[y] == 0 {
      PushElem(q, y);
      q := q + [y];
    }
  }

  /** The inner loop: one predecessor fewer for every target of the emitted node. */
  method Release(x: ArtifactId, released: set<ArtifactId>, indegree0: map<ArtifactId, nat>,
                 ghost waiting0: map<ArtifactId, set<ArtifactId>>, q0: seq<ArtifactId>, ghost out: set<ArtifactId>)
    returns (indegree: map<ArtifactId, nat>, ghost waiting: map<ArtifactId, set<ArtifactId>>, q: seq<ArtifactId>)
    requires Counts(indegree0, waiting0) && released <= waiting0.Keys && Distinct(q0)
    requires forall k :: k in released ==> x in waiting0[k] && k !in out
    requires IsReady(waiting0, out, Elems(q0))
    ensures Counts(indegree, waiting) && waiting.Keys == waiting0.Keys
    ensures forall k, u :: k in waiting ==>
              (u in waiting[k] <==> u in waiting0[k] && (k in released ==> u != x))
    ensures Distinct(q) && IsReady(waiting, out, Elems(q))
  {
    indegree, waiting, q := indegree0, waiting0, q0;
    var targets := released;
    while targets != {}
      invariant targets <= released
      invariant Counts(indegree, waiting) && waiting.Keys == waiting0.Keys
      invariant forall k, u :: k in waiting ==>
                  (u in waiting[k] <==> u in waiting0[k] && (k in released && k !in targets ==> u != x))
      invariant Distinct(q) && IsReady(waiting, out, Elems(q))
      decreases targets
    {
      var y :| y in targets;
      indegree, waiting, q := ReleaseOne(x, y, indegree, waiting, q, out);
      targets := targets - {y};
    }
  }

  lemma PushEmitted(f: Forward, out: seq<ArtifactId>, x: ArtifactId, waiting: map<ArtifactId, set<ArtifactId>>)
    requires PredsFirst(f, out) && x in waiting && waiting[x] == {}
    requires IsWaiting(f, Elems(out), waiting)
    ensures PredsFirst(f, out + [x])
  {
    forall u | u in Preds(f, x) ensures u in Elems(out) {
      assert u !in waiting[x];
    }
    forall j | 0 <= j < |out + [x]| ensures Preds(f, (out + [x])[j]) <= Elems((out + [x])[..j]) {
      assert (out + [x])[..j] == if j < |out| then out[..j] else out;
    }
  }

  lemma CoreIsCyclic(f: Forward, out: seq<ArtifactId>, waiting: map<ArtifactId, set<ArtifactId>>, core: set<ArtifactId>)
    requires PredsFirst(f, out) && waiting.Keys == Nodes(f)
    requires Elems(out) <= waiting.Keys && |Elems(out)| != |waiting.Keys|
    requires IsWaiting(f, Elems(out), waiting)
    requires forall k :: k in waiting ==> (k in out <==> waiting[k] == {})
    requires core == set k | k in waiting && |waiting[k]| > 0
    ensures IsCyclicCore(f, core) && HasCycle(Edges(f))
  {
    SomeNodeLeft(Elems(out), waiting.Keys);
    CoreIsStuck(f, out, waiting, core);
    forall t: set<ArtifactId> | Stuck(Edges(f), t) ensures t <= core {
      StuckIsInCore(f, out, waiting, core, t);
    }
    StuckSetHasCycle(Edges(f), core);
  }

  lemma SomeNodeLeft(out: set<ArtifactId>, all: set<ArtifactId>)
    requires out <= all && |out| != |all|
    ensures exists x :: x in all && x !in out
  {
    assert all <= out ==> all == out;
  }

  lemma CoreIsStuck(f: Forward, out: seq<ArtifactId>, waiting: map<ArtifactId, set<ArtifactId>>, core: set<ArtifactId>)
    requires waiting.Keys == Nodes(f) && IsWaiting(f, Elems(out), waiting)
    requires forall k :: k in waiting ==> (k in out <==> waiting[k] == {})
    requires core == set k | k in waiting && |waiting[k]| > 0
    ensures Stuck(Edges(f), core)
    ensures forall k :: k in core <==> k in Nodes(f) && k !in out
  {
    forall k | k in waiting ensures k in core <==> k !in out {
      assert |waiting[k]| > 0 <==> waiting[k] != {};
    }
    forall y | y in core ensures HasPredIn(Edges(f), core, y) {
      var u :| u in waiting[y];
      assert u in f && y in f[u] && u !in Elems(out);
      assert (u, y) in Edges(f) && u in core;
    }
  }

  lemma StuckIsInCore(f: Forward, out: seq<ArtifactId>, waiting: map<ArtifactId, set<ArtifactId>>,
                      core: set<ArtifactId>,
                      t: set<ArtifactId>)
    requires PredsFirst(f, out) && Stuck(Edges(f), t)
    requires forall k :: k in core <==> k in Nodes(f) && k !in out
    ensures t <= core
  {
    StuckAvoidsPrefix(f, out, t, |out|);
    assert out[..|out|] == out;
    StuckInNodes(f, t);
  }

  lemma FullSizeIsAll<T>(part: set<T>, whole: set<T>)
    requires part <= whole && |part| == |whole|
    ensures part == whole
  {
    assert |whole - part| == |whole| - |part|;
  }

  /** Insert every element of `next`; the ones that were new are queued. */
  method InsertAll<T(==)>(out0: set<T>, q0: seq<T>, next: set<T>) returns (out: set<T>, q: seq<T>)
    ensures out == out0 + next
    ensures q0 <= q && Distinct(q[|q0|..])
    ensures forall y :: y in q <==> y in q0 || (y in next && y !in out0)
    ensures next <= out0 ==> q == q0
  {
    out := out0;
    var added: seq<T> := [];
    var rest := next;
    while rest != {}
      invariant rest <= next && out == out0 + (next - rest)
      invariant Distinct(added) && Elems(added) == next - rest - out0
    {
      var y :| y in rest;
      rest := rest - {y};
      if y !in out {
        assert y !in Elems(added);
        out := out + {y};
        PushElem(added, y);
        added := added + [y];
      }
    }
    q := q0 + added;
    assert q[|q0|..] == added;
    assert forall y :: y in added <==> y in Elems(added);
    assert |added| > 0 ==> added[0] in added;
  }
}
