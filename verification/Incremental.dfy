/** Incremental recompute with equality-boundary cutoff, and its agreement with a full rebuild. */
module Incremental {
  import opened Digraph
  import opened Invalidation
  import opened Recompute
  import opened Wrappers

  /** What one pass is given: the graph, the producers, the previous state, the changed inputs
      and the dirty set. */
  datatype Task = Task(f: Forward, prods: Producers, old_: State, changed: State, dirty: set<ArtifactId>)

  datatype Pass = Pass(
    state: State,
    recomputed: set<ArtifactId>,
    cutOff: set<ArtifactId>,
    boundary: set<ArtifactId>,
    tainted: set<ArtifactId>,
    reachedIds: set<ArtifactId>)

  predicate Propagates(t: Task, acc: Pass, p: ArtifactId) {
    p !in acc.boundary && (if p in t.prods then p in acc.reachedIds else p in t.dirty)
  }

  predicate IsReached(t: Task, acc: Pass, id: ArtifactId, preds: set<ArtifactId>) {
    id in t.changed || exists p :: p in preds && Propagates(t, acc, p)
  }

  function Visit(t: Task, acc: Pass, id: ArtifactId, preds: set<ArtifactId>): Pass {
    if id !in t.dirty then acc
    else if !IsReached(t, acc, id, preds) then
      if id in t.prods then acc.(cutOff := acc.cutOff + {id}) else acc
    else
      var inputsTainted := acc.tainted * preds != {};
      var acc1 := if inputsTainted then acc.(tainted := acc.tainted + {id}) else acc;
      if id !in t.prods then acc1
      else
        var acc2 := acc1.(reachedIds := acc1.reachedIds + {id});
        match t.prods[id](acc2.state)
        case Some(v) =>
          var acc3 := acc2.(state := acc2.state[id := v], recomputed := acc2.recomputed + {id});
          if !inputsTainted && Lookup(t.old_, id) == Some(v) then acc3.(boundary := acc3.boundary + {id}) else acc3
        case None => acc2.(tainted := acc2.tainted + {id})
  }

  function Start(t: Task): Pass {
    Pass(t.old_ + t.changed, {}, {}, {}, {}, {})
  }

  /** The pass after the first `n` nodes of the order. */
  ghost function Walk(t: Task, order: seq<ArtifactId>, n: nat): Pass
    requires n <= |order|
  {
    if n == 0 then Start(t) else Visit(t, Walk(t, order, n - 1), order[n - 1], Preds(t.f, order[n - 1]))
  }

  ghost predicate DirtyClosed(t: Task) {
    forall u, v :: u in t.dirty && u in t.f && v in t.f[u] ==> v in t.dirty
  }

  // ----- fail-closed taint --------------------------------------------------------------------

  /** `seen` are the nodes visited so far. */
  ghost predicate Bookkeeping(t: Task, seen: set<ArtifactId>, acc: Pass) {
    && (forall x :: x in acc.boundary ==> x in acc.recomputed && x !in acc.tainted)
    && (forall x :: x in acc.recomputed ==> x in acc.reachedIds)
    && (forall x :: x in acc.reachedIds ==> x in t.prods && x in t.dirty && x in seen && x !in acc.cutOff)
    && (forall x :: x in acc.cutOff ==> x in t.prods && x in t.dirty && x in seen && x !in acc.tainted)
    && (forall x :: x in acc.tainted ==> x in t.dirty && x in seen && (x in t.prods ==> x in acc.reachedIds))
    && (forall x :: x in seen && x in t.dirty && x in t.prods ==>
          x in acc.recomputed || x in acc.cutOff || x in acc.tainted)
  }

  ghost predicate TaintFlows(t: Task, order: seq<ArtifactId>, n: nat, acc: Pass)
    requires n <= |order|
  {
    forall j :: 0 <= j < n && acc.tainted * Preds(t.f, order[j]) != {} ==> order[j] in acc.tainted
  }

  lemma BookkeepingStep(t: Task, order: seq<ArtifactId>, n: nat, acc: Pass)
    requires n < |order| && Distinct(order) && PredsFirst(t.f, order)
    requires Bookkeeping(t, Elems(order[..n]), acc)
    ensures Bookkeeping(t, Elems(order[..n + 1]), Visit(t, acc, order[n], Preds(t.f, order[n])))
  {
    var id := order[n];
    assert id !in Elems(order[..n]);
    assert order[..n + 1] == order[..n] + [id];
    PushElem(order[..n], id);
    BookOne(t, Elems(order[..n]), acc, id, Preds(t.f, order[n]));
  }

  lemma BookOne(t: Task, seen: set<ArtifactId>, acc: Pass, id: ArtifactId, preds: set<ArtifactId>)
    requires Bookkeeping(t, seen, acc) && id !in seen
    ensures Bookkeeping(t, seen + {id}, Visit(t, acc, id, preds))
  {
    if id in t.dirty && IsReached(t, acc, id, preds) && id in t.prods {
      BookRun(t, seen, acc, id, preds);
    }
  }

  lemma BookRun(t: Task, seen: set<ArtifactId>, acc: Pass, id: ArtifactId, preds: set<ArtifactId>)
    requires Bookkeeping(t, seen, acc) && id !in seen && id in t.dirty && IsReached(t, acc, id, preds) && id in t.prods
    ensures Bookkeeping(t, seen + {id}, Visit(t, acc, id, preds))
  {
  }

  /** A tainted predecessor always propagates, so its dependents are reached and tainted. */
  lemma TaintStep(t: Task, order: seq<ArtifactId>, n: nat, acc: Pass)
    requires n < |order| && Distinct(order) && PredsFirst(t.f, order) && DirtyClosed(t)
    requires Bookkeeping(t, Elems(order[..n]), acc) && TaintFlows(t, order, n, acc)
    ensures TaintFlows(t, order, n + 1, Visit(t, acc, order[n], Preds(t.f, order[n])))
  {
    var next := Visit(t, acc, order[n], Preds(t.f, order[n]));
    forall j | 0 <= j < n + 1 && next.tainted * Preds(t.f, order[j]) != {} ensures order[j] in next.tainted {
      var p :| p in next.tainted * Preds(t.f, order[j]);
      TaintedBefore(t, order, n, acc, j, p);
      if j == n {
        TaintOne(t, Elems(order[..n]), acc, order[n], Preds(t.f, order[n]), p);
      }
    }
  }

  lemma TaintedBefore(t: Task, order: seq<ArtifactId>, n: nat, acc: Pass, j: nat, p: ArtifactId)
    requires j <= n < |order| && Distinct(order) && PredsFirst(t.f, order) && p in Preds(t.f, order[j])
    requires p in Visit(t, acc, order[n], Preds(t.f, order[n])).tainted
    ensures p in acc.tainted && p != order[n]
  {
    assert p in Elems(order[..j]);
  }

  lemma TaintOne(t: Task, seen: set<ArtifactId>, acc: Pass, id: ArtifactId, preds: set<ArtifactId>, p: ArtifactId)
    requires Bookkeeping(t, seen, acc) && DirtyClosed(t) && preds == Preds(t.f, id) && p in acc.tainted * preds
    ensures id in Visit(t, acc, id, preds).tainted
  {
    assert Propagates(t, acc, p) && id in t.dirty;
  }

  lemma StepKeepsBooks(t: Task, order: seq<ArtifactId>, n: nat, acc: Pass, next: Pass)
    requires n < |order| && Distinct(order) && PredsFirst(t.f, order) && DirtyClosed(t)
    requires Bookkeeping(t, Elems(order[..n]), acc) && TaintFlows(t, order, n, acc)
    requires next == Visit(t, acc, order[n], Preds(t.f, order[n]))
    ensures Bookkeeping(t, Elems(order[..n + 1]), next) && TaintFlows(t, order, n + 1, next)
  {
    BookkeepingStep(t, order, n, acc);
    TaintStep(t, order, n, acc);
  }

  lemma {:induction false} WalkKeepsBooks(t: Task, order: seq<ArtifactId>, n: nat)
    requires n <= |order| && Distinct(order) && PredsFirst(t.f, order) && DirtyClosed(t)
    ensures Bookkeeping(t, Elems(order[..n]), Walk(t, order, n)) && TaintFlows(t, order, n, Walk(t, order, n))
  {
    if n > 0 {
      WalkKeepsBooks(t, order, n - 1);
      StepKeepsBooks(t, order, n - 1, Walk(t, order, n - 1), Walk(t, order, n));
    }
  }

  /** A dirty producer that is neither recomputed nor cut off was run and declined. */
  ghost predicate Failed(t: Task, report: CutoffReport, id: ArtifactId) {
    id in t.prods && id in t.dirty && id !in report.recomputed && id !in report.cutOff
  }

  ghost function Report(acc: Pass): CutoffReport {
    CutoffReport(acc.recomputed, acc.cutOff, acc.boundary)
  }

  lemma {:induction false} TaintFollowsPath(t: Task, order: seq<ArtifactId>, acc: Pass, p: seq<ArtifactId>)
    requires IsTopologicalOrder(t.f, order) && TaintFlows(t, order, |order|, acc)
    requires IsPath(Edges(t.f), p) && p[0] in acc.tainted
    ensures p[|p| - 1] in acc.tainted
    decreases |p|
  {
    if |p| > 1 {
      TaintFollowsPath(t, order, acc, p[..|p| - 1]);
      var u, v := p[|p| - 2], p[|p| - 1];
      assert (u, v) in Edges(t.f);
      assert v in Nodes(t.f) && v in Elems(order);
      var j :| 0 <= j < |order| && order[j] == v;
      assert u in acc.tainted * Preds(t.f, order[j]);
    }
  }

  /** Whatever lies downstream of a failed producer is reached and tainted; it is neither trusted as
      an equality boundary nor counted as saved work. */
  lemma FailureIsNeverTrusted(t: Task, order: seq<ArtifactId>, failed: ArtifactId, x: ArtifactId)
    requires IsTopologicalOrder(t.f, order) && DirtyClosed(t)
    requires Failed(t, Report(Walk(t, order, |order|)), failed) && failed in Nodes(t.f)
    requires Reaches(Edges(t.f), failed, x)
    ensures x in Walk(t, order, |order|).tainted && (x in t.prods ==> x in Walk(t, order, |order|).reachedIds)
    ensures x !in Report(Walk(t, order, |order|)).boundaryNodes && x !in Report(Walk(t, order, |order|)).cutOff
  {
    var acc := Walk(t, order, |order|);
    WalkKeepsBooks(t, order, |order|);
    assert failed in Elems(order);
    var j :| 0 <= j < |order| && order[j] == failed;
    assert order[..|order|] == order;
    assert failed in acc.tainted;
    var p :| Links(Edges(t.f), failed, x, p);
    TaintFollowsPath(t, order, acc, p);
  }

  // ----- the loops ----------------------------------------------------------------------------

  method PredecessorMap(f: Forward) returns (preds: map<ArtifactId, set<ArtifactId>>)
    ensures forall v :: (if v in preds then preds[v] else {}) == Preds(f, v)
  {
    preds := map[];
    var sources := f.Keys;
    while sources != {}
      invariant sources <= f.Keys
      invariant forall v, u :: (u in (if v in preds then preds[v] else {})) <==> u in f && v in f[u] && u !in sources
    {
      var u :| u in sources;
      sources := sources - {u};
      var targets := f[u];
      while targets != {}
        invariant targets <= f[u]
        invariant forall v, w :: (w in (if v in preds then preds[v] else {})) <==>
                    w in f && v in f[w] && w !in sources && (w == u ==> v !in targets)
      {
        var v :| v in targets;
        targets := targets - {v};
        preds := preds[v := (if v in preds then preds[v] else {}) + {u}];
      }
    }
  }

  /** One incremental pass: the walk over some topological order with the dirty set as the exact
      upward closure of the changed inputs. */
  method RunPass(f: Forward, prods: Producers, old_: State, changed: State)
    returns (r: Result<Pass, InvalidationError>, ghost order: seq<ArtifactId>, ghost t: Task)
    ensures r.Ok? <==> !HasCycle(Edges(f))
    ensures r.Err? ==> r.error.Cycle?
    ensures t == Task(f, prods, old_, changed, t.dirty) && IsReachSet(Edges(f), changed.Keys, t.dirty)
    ensures DirtyClosed(t) && changed.Keys <= t.dirty
    ensures r.Ok? ==> IsTopologicalOrder(f, order) && r.value == Walk(t, order, |order|)
  {
    order := [];
    var dirty := Closure(f, changed.Keys);
    var task := Task(f, prods, old_, changed, dirty);
    t := task;
    ClosureFacts(f, changed.Keys, dirty);
    var sorted := Kahn(f);
    if sorted.Err? {
      return Err(sorted.error), order, t;
    }
    order := sorted.value;
    var preds := PredecessorMap(f);
    var acc := VisitAll(task, sorted.value, preds);
    r := Ok(acc);
  }

  method VisitAll(t: Task, order: seq<ArtifactId>, preds: map<ArtifactId, set<ArtifactId>>) returns (acc: Pass)
    requires forall v :: (if v in preds then preds[v] else {}) == Preds(t.f, v)
    ensures acc == Walk(t, order, |order|)
  {
    acc := Start(t);
    for i := 0 to |order|
      invariant acc == Walk(t, order, i)
    {
      var id := order[i];
      acc := Visit(t, acc, id, if id in preds then preds[id] else {});
    }
  }

  lemma ClosureFacts(f: Forward, roots: set<ArtifactId>, s: set<ArtifactId>)
    requires IsReachSet(Edges(f), roots, s)
    ensures roots <= s
    ensures forall u, v :: u in s && u in f && v in f[u] ==> v in s
  {
    var reach := ForwardReach(f, roots);
    forall x ensures x in reach <==> x in s {
      assert x in s <==> ReachedFrom(Edges(f), roots, x);
    }
    assert reach == s;
  }
}
