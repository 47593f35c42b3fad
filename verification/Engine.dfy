/** The recompute engine: a graph with its producers, incremental recompute, and the equivalence check
    that compares it with full rebuilds. */
module Engine {
  import opened Agreement
  import opened Digraph
  import opened Equivalence
  import opened Incremental
  import opened Invalidation
  import opened Recompute
  import opened Wrappers

  /** The graph suits what the producers read. */
  ghost predicate Suited(f: Forward, prods: Producers) {
    exists uses: Uses :: ReadsOnly(prods, uses) && Suits(f, uses)
  }

  lemma LocalIsSuited(f: Forward, prods: Producers)
    requires Local(f, prods) && !HasCycle(Edges(f))
    ensures Suited(f, prods) && forall inputs :: HasRebuild(prods, inputs) <==> Rebuildable(prods, inputs)
  {
    var uses := LocalSuits(f, prods);
    forall inputs: State, c: State ensures IsRebuild(prods, inputs, c) <==> Consistent(prods, inputs, c) {
      RebuildIsConsistent(prods, uses, inputs, c);
    }
  }

  /** The rebuild succeeds exactly when there is something to rebuild to, and finds it. */
  lemma OutcomeIff(f: Forward, order: seq<ArtifactId>, prods: Producers, inputs: State,
                   r: Result<RecomputeResult, InvalidationError>)
    requires IsTopologicalOrder(f, order) && Suited(f, prods) && prods.Keys <= Nodes(f)
    requires IsOutcome(prods, Planned(order, prods.Keys), inputs, r)
    ensures r.Ok? <==> HasRebuild(prods, inputs)
    ensures r.Ok? ==> IsRebuild(prods, inputs, r.value.state)
  {
    var uses: Uses :| ReadsOnly(prods, uses) && Suits(f, uses);
    UpstreamFirst(f, order, uses);
    if r.Ok? {
      RebuiltIff(order, uses, prods, inputs, r.value.state);
    } else if c: State :| IsRebuild(prods, inputs, c) {
      RebuiltIff(order, uses, prods, inputs, c);
    }
  }

  lemma SuitedPass(t: Task, order: seq<ArtifactId>, inputs: State, c: State)
    requires IsTopologicalOrder(t.f, order) && t.prods.Keys <= Nodes(t.f) && Suited(t.f, t.prods)
    requires DirtyClosed(t) && t.changed.Keys <= t.dirty && BothRebuilt(t, inputs, c)
    ensures Walk(t, order, |order|).state == c
    ensures forall id :: id in t.prods && Lookup(c, id) != Lookup(t.old_, id) ==>
            id in Walk(t, order, |order|).recomputed
  {
    var uses: Uses :| ReadsOnly(t.prods, uses) && Suits(t.f, uses);
    UpstreamFirst(t.f, order, uses);
    AgreesWhenWatched(t, uses, inputs, order, c);
  }

  /** What the equivalence check answers where the graph suits the producers. */
  ghost predicate Verdict(f: Forward, prods: Producers, baseline: State, changed: State, r: Result<(),
                          InvalidationError>) {
    && (r.Ok? <==> !HasCycle(Edges(f)) && HasRebuild(prods, baseline) && HasRebuild(prods, baseline + changed))
    && (r.Err? ==> !r.error.EquivalenceDivergence?)
  }

  class RecomputeEngine {
    const graph: DependencyGraph
    var producers: Producers

    ghost predicate Valid()
      reads this, graph
    {
      producers.Keys <= graph.forward.Keys
    }

    constructor (graph: DependencyGraph)
      ensures Valid() && this.graph == graph && producers == map[]
    {
      this.graph, producers := graph, map[];
    }

    method RegisterProducer(id: ArtifactId, p: Producer)
      requires Valid()
      modifies this`producers, graph`forward
      ensures Valid() && producers == old(producers)[id := p]
      ensures Edges(graph.forward) == old(Edges(graph.forward))
      ensures graph.forward.Keys == old(graph.forward.Keys) + {id}
    {
      graph.EnsureNode(id);
      producers := producers[id := p];
    }

    /** Incremental recompute with its report. Downstream of a producer that declined, nothing is
        trusted; and from a rebuild the pass ends in the rebuild of the changed inputs, having
        recomputed every producer whose value changed, where the graph suits the reads. */
    method IncrementalRecompute(oldState: State, changed: State)
      returns (r: Result<(RecomputeResult, CutoffReport), InvalidationError>, ghost t: Task)
      requires Valid()
      ensures r.Ok? <==> !HasCycle(Edges(graph.forward))
      ensures t == Task(graph.forward, producers, oldState, changed, t.dirty)
      ensures IsReachSet(Edges(graph.forward), changed.Keys, t.dirty)
      ensures r.Ok? ==> r.value.0.recomputed == r.value.1.recomputed
      ensures r.Ok? ==> r.value.1.boundaryNodes <= r.value.1.recomputed && r.value.1.recomputed !! r.value.1.cutOff
      ensures r.Ok? ==> forall x, y :: Failed(t, r.value.1, x) && Reaches(Edges(graph.forward), x, y) ==>
                y !in r.value.1.boundaryNodes && y !in r.value.1.cutOff
      ensures r.Ok? && Suited(graph.forward, producers) ==> forall inputs, c ::
                IsRebuild(producers, inputs, oldState) && IsRebuild(producers, inputs + changed, c) ==>
                && r.value.0.state == c
                && forall id :: id in producers && Lookup(c, id) != Lookup(oldState, id) ==> id in r.value.0.recomputed
    {
      var pass, order, task := RunPass(graph.forward, producers, oldState, changed);
      t := task;
      if pass.Err? {
        return Err(pass.error), t;
      }
      var acc := pass.value;
      var report := CutoffReport(acc.recomputed, acc.cutOff, acc.boundary);
      r := Ok((RecomputeResult(acc.state, acc.recomputed), report));
      WalkKeepsBooks(t, order, |order|);
      forall x, y | Failed(t, report, x) && Reaches(Edges(t.f), x, y) ensures y !in acc.boundary && y !in acc.cutOff {
        FailureIsNeverTrusted(t, order, x, y);
      }
      if Suited(t.f, t.prods) {
        forall inputs, c | IsRebuild(t.prods, inputs, oldState) && IsRebuild(t.prods, inputs + changed, c)
          ensures acc.state == c
          ensures forall id :: id in t.prods && Lookup(c, id) != Lookup(oldState, id) ==> id in acc.recomputed
        {
          SuitedPass(t, order, inputs, c);
        }
      }
    }

    /** The protected claim. Where the graph suits what the producers read, it holds exactly when the
        class is protected, the graph is acyclic and both rebuilds succeed; divergence is never
        reported. */
    method AssertIncrementalEquivalence(baseline: State, changed: State) returns (r: Result<(), InvalidationError>)
      requires Valid()
      ensures !ProtectsIncrementalEquivalence(graph.influence) ==> r == Err(UnprotectedInfluence(graph.influence))
      ensures r.Ok? ==> ProtectsIncrementalEquivalence(graph.influence) && !HasCycle(Edges(graph.forward))
      ensures ProtectsIncrementalEquivalence(graph.influence) && Suited(graph.forward, producers) ==>
                Verdict(graph.forward, producers, baseline, changed, r)
      ensures Local(graph.forward, producers) ==>
                (r.Ok? <==> && ProtectsIncrementalEquivalence(graph.influence)
                            && !HasCycle(Edges(graph.forward))
                            && Rebuildable(producers, baseline)
                            && Rebuildable(producers, baseline + changed))
      ensures Local(graph.forward, producers) && r.Err? ==> !r.error.EquivalenceDivergence?
    {
      if !ProtectsIncrementalEquivalence(graph.influence) {
        return Err(UnprotectedInfluence(graph.influence));
      }
      r := CompareRebuilds(baseline, changed);
      if Local(graph.forward, producers) && !HasCycle(Edges(graph.forward)) {
        LocalVerdict(graph.forward, producers, baseline, changed, r);
      }
    }

    /** Rebuild before and after the change, and compare the pass between them. */
    method CompareRebuilds(baseline: State, changed: State) returns (r: Result<(), InvalidationError>)
      requires Valid()
      ensures HasCycle(Edges(graph.forward)) ==> r.Err? && !r.error.EquivalenceDivergence?
      ensures Suited(graph.forward, producers) ==> Verdict(graph.forward, producers, baseline, changed, r)
    {
      var full := RebuildOf(graph.forward, producers, baseline + changed);
      if full.Err? {
        return Err(full.error);
      }
      var base := RebuildOf(graph.forward, producers, baseline);
      if base.Err? {
        return Err(base.error);
      }
      var incr, t := IncrementalRecompute(base.value, changed);
      if incr.Err? {
        return Err(incr.error);
      }
      r := Compare(producers, full.value, base.value, incr.value.0.state, incr.value.0.recomputed);
      if Suited(graph.forward, producers) {
        SameIsEquivalent(producers, full.value, base.value, incr.value.0.recomputed);
      }
    }
  }

  lemma SameIsEquivalent(prods: Producers, full: State, base: State, recomputed: set<ArtifactId>)
    requires forall id :: id in prods && Lookup(full, id) != Lookup(base, id) ==> id in recomputed
    ensures Equivalent(prods, full, base, full, recomputed)
  {
  }

  /** The full rebuild, as the check uses it. */
  method RebuildOf(f: Forward, prods: Producers, inputs: State) returns (r: Result<State, InvalidationError>)
    requires prods.Keys <= Nodes(f)
    ensures HasCycle(Edges(f)) ==> r.Err?
    ensures Suited(f, prods) && !HasCycle(Edges(f)) ==> (r.Ok? <==> HasRebuild(prods, inputs))
    ensures Suited(f, prods) && r.Ok? ==> IsRebuild(prods, inputs, r.value)
    ensures r.Err? ==> !r.error.EquivalenceDivergence?
  {
    var full, schedule, order := FullRecompute(f, prods, inputs);
    if Suited(f, prods) && !HasCycle(Edges(f)) {
      OutcomeIff(f, order, prods, inputs, full);
    }
    r := if full.Ok? then Ok(full.value.state) else Err(full.error);
  }

  /** For producers that read their graph predecessors only, the check accepts exactly when both
      consistent states exist. */
  lemma LocalVerdict(f: Forward, prods: Producers, baseline: State, changed: State, r: Result<(), InvalidationError>)
    requires Local(f, prods) && !HasCycle(Edges(f)) && (Suited(f, prods) ==> Verdict(f, prods, baseline, changed, r))
    ensures r.Ok? <==> Rebuildable(prods, baseline) && Rebuildable(prods, baseline + changed)
    ensures r.Err? ==> !r.error.EquivalenceDivergence?
  {
    LocalIsSuited(f, prods);
  }

  method Compare(prods: Producers, full: State, base: State, incr: State, recomputed: set<ArtifactId>)
    returns (r: Result<(), InvalidationError>)
    ensures r.Ok? <==> Equivalent(prods, full, base, incr, recomputed)
    ensures r.Err? ==> r.error.EquivalenceDivergence? && r.error.id in prods
  {
    var rest := prods.Keys;
    while rest != {}
      invariant rest <= prods.Keys
      invariant forall id :: id in prods && id !in rest ==> Lookup(full, id) == Lookup(incr, id)
    {
      var id :| id in rest;
      rest := rest - {id};
      if Lookup(full, id) != Lookup(incr, id) {
        return Err(EquivalenceDivergence(id));
      }
    }
    rest := prods.Keys;
    while rest != {}
      invariant rest <= prods.Keys
      invariant forall id :: id in prods && id !in rest ==> Lookup(base, id) == Lookup(full, id) || id in recomputed
    {
      var id :| id in rest;
      rest := rest - {id};
      if Lookup(base, id) != Lookup(full, id) && id !in recomputed {
        return Err(EquivalenceDivergence(id));
      }
    }
    r := Ok(());
  }
}
