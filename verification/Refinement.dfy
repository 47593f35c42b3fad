/** Counterexample-guided refinement of the influence graph. */
module Refinement {
  import opened Digraph
  import opened Invalidation
  import opened Wrappers

  type Edge = (ArtifactId, ArtifactId)

  datatype ObservedInfluence = ObservedInfluence(source: ArtifactId, target: ArtifactId, evidence: string)

  datatype EdgeProvenance = Declared | Observed

  datatype RetainedCounterexample = RetainedCounterexample(
    sequence: nat,
    influence: ObservedInfluence,
    edgeAdded: Edge,
    invalidation: InvalidationCertificate)

  datatype FixedPointReport = FixedPointReport(iterations: nat, edgesAdded: nat, fixedPoint: bool)

  function EdgeOf(o: ObservedInfluence): Edge {
    (o.source, o.target)
  }

  function TraceEdges(trace: seq<ObservedInfluence>): set<Edge> {
    set o | o in trace :: EdgeOf(o)
  }

  /** What refinement by a trace must arrive at: nothing but the two edge sets matters, so neither
      the order of the trace nor repetitions in it do. */
  lemma OrderIsIrrelevant(declared: set<Edge>, t: seq<ObservedInfluence>, u: seq<ObservedInfluence>)
    requires Elems(t) == Elems(u)
    ensures declared + TraceEdges(t) == declared + TraceEdges(u)
  {
    forall o ensures o in t <==> o in u {
      assert o in t <==> o in Elems(t);
      assert o in u <==> o in Elems(u);
    }
  }

  predicate HasEdge(f: Forward, e: Edge) {
    e.0 in f && e.1 in f[e.0]
  }

  lemma HasEdgeIsEdge(f: Forward, e: Edge)
    ensures HasEdge(f, e) <==> e in Edges(f)
  {
  }

  class RefinementLoop {
    const graph: DependencyGraph
    ghost const declared: set<Edge>
    var records: seq<RetainedCounterexample>
    var applied: set<Edge>
    var nextSequence: nat
    var edgeLabels: map<Edge, EdgeProvenance>

    /** The graph is the declared edges plus the applied ones; the applied edges, the labels and the
        retained records match one to one. */
    ghost predicate Valid()
      reads this, graph
    {
      && Edges(graph.forward) == declared + applied
      && applied !! declared
      && edgeLabels.Keys == applied && (forall e :: e in edgeLabels ==> edgeLabels[e].Observed?)
      && nextSequence == |records|
      && RecordsMatch(records, applied)
    }

    constructor (graph: DependencyGraph)
      ensures Valid() && this.graph == graph && declared == Edges(graph.forward)
      ensures applied == {} && records == []
    {
      this.graph := graph;
      declared := Edges(graph.forward);
      records, applied, nextSequence, edgeLabels := [], {}, 0, map[];
    }

    /** Add the edge, certify what depends on its source, retain the counterexample; or do nothing
        when the edge is there already. */
    method Observe(o: ObservedInfluence) returns (added: bool)
      requires Valid()
      modifies this, graph`forward
      ensures Valid()
      ensures added <==> EdgeOf(o) !in old(Edges(graph.forward))
      ensures Edges(graph.forward) == old(Edges(graph.forward)) + {EdgeOf(o)}
      ensures !added ==> records == old(records) && applied == old(applied) && graph.forward == old(graph.forward)
      ensures added ==> |records| == |old(records)| + 1 && records[..|old(records)|] == old(records)
      ensures added ==> var r := records[|records| - 1];
                && r.influence == o && r.edgeAdded == EdgeOf(o) && r.sequence == |old(records)|
                && IsReachSet(Edges(graph.forward), {o.source}, r.invalidation.invalidated)
      ensures added ==> applied == old(applied) + {EdgeOf(o)}
    {
      HasEdgeIsEdge(graph.forward, EdgeOf(o));
      if HasEdge(graph.forward, EdgeOf(o)) {
        return false;
      }
      graph.AddDependency(o.source, o.target);
      var certificate := graph.CertifyInvalidation({o.source});
      edgeLabels := edgeLabels[EdgeOf(o) := Observed];
      Retain(o, certificate);
      added := true;
    }

    method Retain(o: ObservedInfluence, certificate: InvalidationCertificate)
      requires RecordsMatch(records, applied) && nextSequence == |records| && EdgeOf(o) !in applied
      modifies this`records, this`applied, this`nextSequence
      ensures RecordsMatch(records, applied) && nextSequence == |records|
      ensures applied == old(applied) + {EdgeOf(o)}
      ensures records == old(records) + [RetainedCounterexample(|old(records)|, o, EdgeOf(o), certificate)]
    {
      PushRecord(records, applied, RetainedCounterexample(nextSequence, o, EdgeOf(o), certificate));
      records := records + [RetainedCounterexample(nextSequence, o, EdgeOf(o), certificate)];
      applied := applied + {EdgeOf(o)};
      nextSequence := nextSequence + 1;
    }

    /** One pass over the trace. */
    method Sweep(trace: seq<ObservedInfluence>)
      requires Valid()
      modifies this, graph`forward
      ensures Valid()
      ensures Edges(graph.forward) == old(Edges(graph.forward)) + TraceEdges(trace)
      ensures |records| >= |old(records)|
      ensures |records| == |old(records)| <==> TraceEdges(trace) <= old(Edges(graph.forward))
    {
      for i := 0 to |trace|
        invariant Valid()
        invariant Edges(graph.forward) == old(Edges(graph.forward)) + TraceEdges(trace[..i])
        invariant |records| >= |old(records)|
        invariant |records| == |old(records)| <==> TraceEdges(trace[..i]) <= old(Edges(graph.forward))
      {
        PushTrace(trace, i);
        var added := Observe(trace[i]);
      }
      assert trace[..|trace|] == trace;
    }

    /** Sweeps until nothing is added. Whatever the order of the trace, the result is the edges
        before plus the edges of the trace, after at most one sweep that adds anything. */
    method RefineToFixedPoint(trace: seq<ObservedInfluence>) returns (report: FixedPointReport)
      requires Valid()
      modifies this, graph`forward
      ensures Valid()
      ensures Edges(graph.forward) == old(Edges(graph.forward)) + TraceEdges(trace)
      ensures report.fixedPoint && report.edgesAdded == |records|
      ensures report.iterations == if TraceEdges(trace) <= old(Edges(graph.forward)) then 0 else 1
    {
      var iterations := 0;
      ghost var start := Edges(graph.forward);
      while true
        invariant Valid()
        invariant iterations <= 1
        invariant iterations == 0 ==> Edges(graph.forward) == start
        invariant iterations == 1 ==> Edges(graph.forward) == start + TraceEdges(trace) && !(TraceEdges(trace) <= start)
        decreases 1 - iterations
      {
        var before := |records|;
        Sweep(trace);
        if |records| == before {
          return FixedPointReport(iterations, |records|, true);
        }
        iterations := iterations + 1;
      }
    }

    function ProvenanceOf(e: Edge): (r: Option<EdgeProvenance>)
      requires Valid()
      reads this, graph
      ensures r == Some(Observed) <==> e in applied
      ensures r == Some(Declared) <==> e in declared
    {
      HasEdgeIsEdge(graph.forward, e);
      if !HasEdge(graph.forward, e) then None
      else if e in edgeLabels && edgeLabels[e].Observed? then Some(Observed)
      else Some(Declared)
    }

    /** The edges the loop labelled, found edge by edge through their provenance. */
    method RuntimeEdges() returns (runtime: set<Edge>)
      requires Valid()
      ensures runtime == applied
    {
      runtime := {};
      var sources := graph.forward.Keys;
      while sources != {}
        invariant sources <= graph.forward.Keys
        invariant forall e :: e in runtime <==> e in applied && e.0 !in sources
      {
        var u :| u in sources;
        sources := sources - {u};
        var targets := graph.forward[u];
        while targets != {}
          invariant targets <= graph.forward[u]
          invariant forall e :: e in runtime <==> e in applied && e.0 !in sources && (e.0 == u ==> e.1 !in targets)
        {
          var v :| v in targets;
          targets := targets - {v};
          if ProvenanceOf((u, v)) == Some(Observed) {
            runtime := runtime + {(u, v)};
          }
        }
        forall e | e in applied && e.0 == u ensures e.1 in graph.forward[u] {
          HasEdgeIsEdge(graph.forward, e);
          assert e in Edges(graph.forward);
        }
      }
      forall e | e in applied ensures e.0 in graph.forward {
        assert e in Edges(graph.forward);
      }
    }
  }

  ghost predicate RecordsMatch(records: seq<RetainedCounterexample>, applied: set<Edge>) {
    && (forall i :: 0 <= i < |records| ==> records[i].sequence == i && records[i].edgeAdded in applied)
    && (forall i, j :: 0 <= i < j < |records| ==> records[i].edgeAdded != records[j].edgeAdded)
    && (forall e {:trigger HasRecord(records, e)} :: e in applied ==> HasRecord(records, e))
  }

  ghost predicate HasRecord(records: seq<RetainedCounterexample>, e: Edge) {
    exists i :: 0 <= i < |records| && records[i].edgeAdded == e
  }

  lemma PushRecord(records: seq<RetainedCounterexample>, applied: set<Edge>, r: RetainedCounterexample)
    requires RecordsMatch(records, applied) && r.sequence == |records| && r.edgeAdded !in applied
    ensures RecordsMatch(records + [r], applied + {r.edgeAdded})
  {
    var more := records + [r];
    forall e | e in applied + {r.edgeAdded} ensures HasRecord(more, e) {
      if e == r.edgeAdded {
        assert more[|records|].edgeAdded == e;
      } else {
        assert HasRecord(records, e);
        var i :| 0 <= i < |records| && records[i].edgeAdded == e;
        assert more[i].edgeAdded == e;
      }
    }
  }

  lemma PushTrace(trace: seq<ObservedInfluence>, i: nat)
    requires i < |trace|
    ensures TraceEdges(trace[..i + 1]) == TraceEdges(trace[..i]) + {EdgeOf(trace[i])}
  {
    assert trace[..i + 1] == trace[..i] + [trace[i]];
    forall e ensures e in TraceEdges(trace[..i + 1]) <==> e in TraceEdges(trace[..i]) || e == EdgeOf(trace[i]) {
      if e == EdgeOf(trace[i]) {
        assert trace[i] in trace[..i + 1];
      }
      if e in TraceEdges(trace[..i]) {
        var o :| o in trace[..i] && EdgeOf(o) == e;
        assert o in trace[..i + 1];
      }
    }
  }
}
