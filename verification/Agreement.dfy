/** When incremental recompute ends in the state of a full rebuild: for producers that read their
    graph predecessors, and for undeclared reads that the graph watches. */
module Agreement {
  import opened Digraph
  import opened Incremental
  import opened Invalidation
  import opened Recompute
  import opened Wrappers

  ghost predicate Unchanged(t: Task, c: State, x: ArtifactId) {
    Lookup(c, x) == Lookup(t.old_, x)
  }

  // ----- reads --------------------------------------------------------------------------------

  /** A change can start here: at an input, or at a producer that reads its own artifact, for which
      a value may be handed in. */
  predicate IsSource(uses: Uses, x: ArtifactId) {
    x in uses ==> x in uses[x]
  }

  ghost predicate ReadAt(uses: Uses, p: seq<ArtifactId>, i: nat)
    requires 0 < i < |p|
  {
    p[i] in uses && p[i - 1] in uses[p[i]] && p[i - 1] != p[i]
  }

  /** Each member is read by the next, and a change can start at the first. */
  ghost predicate ReadChain(uses: Uses, p: seq<ArtifactId>) {
    |p| > 0 && IsSource(uses, p[0]) && forall i {:trigger ReadAt(uses, p, i)} :: 0 < i < |p| ==> ReadAt(uses, p, i)
  }

  /** A change that travels along the reads `p` is passed on to the last reader: one of the others is
      its graph predecessor, or the first leads to a predecessor that is no producer. */
  ghost predicate Watched(f: Forward, producers: set<ArtifactId>, p: seq<ArtifactId>)
    requires |p| > 0
  {
    var preds := Preds(f, p[|p| - 1]);
    || (exists i :: 0 <= i < |p| - 1 && p[i] in preds)
    || (exists q :: q in preds && q !in producers && Reaches(Edges(f), p[0], q))
  }

  ghost predicate AllWatched(f: Forward, uses: Uses) {
    forall p {:trigger ReadChain(uses, p)} :: ReadChain(uses, p) && |p| > 1 ==> Watched(f, uses.Keys, p)
  }

  /** If `b` reads its own artifact, no change can come to a predecessor and have `b` recomputed. */
  ghost predicate Alone(f: Forward, uses: Uses, b: ArtifactId) {
    b in uses && b in uses[b] ==>
      forall p {:trigger ReadChain(uses, p)} :: ReadChain(uses, p) ==> p[|p| - 1] !in Preds(f, b)
  }

  ghost predicate AllAlone(f: Forward, order: seq<ArtifactId>, uses: Uses, n: nat)
    requires n <= |order|
  {
    forall j :: 0 <= j < n ==> Alone(f, uses, order[j])
  }

  /** Producers come before their readers in every topological order. */
  ghost predicate ReadsUpstream(f: Forward, uses: Uses) {
    forall b, a :: b in uses && a in uses[b] && a in uses && a != b ==>
      exists q :: q in Preds(f, b) && Reaches(Edges(f), a, q)
  }

  /** What the graph must provide, whatever the order: producers lead to their readers, every chain
      of reads is watched, and what reads itself is not recomputed for others. */
  ghost predicate Suits(f: Forward, uses: Uses) {
    ReadsUpstream(f, uses) && AllWatched(f, uses) && forall b {:trigger Alone(f, uses, b)} :: Alone(f, uses, b)
  }

  /** What leads to a clean node is clean. */
  lemma CleanBefore(t: Task, a: ArtifactId, x: ArtifactId)
    requires DirtyClosed(t) && Reaches(Edges(t.f), a, x) && x !in t.dirty
    ensures a !in t.dirty
  {
    var p :| Links(Edges(t.f), a, x, p);
    if a in t.dirty {
      assert ClosedUnder(Edges(t.f), t.dirty);
      PathStaysInside(Edges(t.f), t.dirty, p);
    }
  }

  lemma {:induction false} SeenBefore(f: Forward, seen: set<ArtifactId>, p: seq<ArtifactId>)
    requires forall x :: x in seen ==> Preds(f, x) <= seen
    requires IsPath(Edges(f), p) && p[|p| - 1] in seen
    ensures p[0] in seen
    decreases |p|
  {
    if |p| > 1 {
      assert (p[0], p[1]) in Edges(f);
      SeenBefore(f, seen, p[1..]);
    }
  }

  lemma PrefixHoldsPreds(f: Forward, order: seq<ArtifactId>, n: nat)
    requires PredsFirst(f, order) && n <= |order|
    ensures forall x :: x in Elems(order[..n]) ==> Preds(f, x) <= Elems(order[..n])
  {
    forall x | x in Elems(order[..n]) ensures Preds(f, x) <= Elems(order[..n]) {
      var j :| 0 <= j < n && order[j] == x;
      assert forall y :: y in order[..j] ==> y in order[..n];
    }
  }

  lemma UpstreamFirst(f: Forward, order: seq<ArtifactId>, uses: Uses)
    requires IsTopologicalOrder(f, order) && ReadsUpstream(f, uses)
    ensures ReadsFirst(order, uses)
  {
    forall j, a | 0 <= j < |order| && order[j] in uses && a in uses[order[j]] && a in uses && a != order[j]
      ensures a in order[..j]
    {
      var q :| q in Preds(f, order[j]) && Reaches(Edges(f), a, q);
      var p :| Links(Edges(f), a, q, p);
      PrefixHoldsPreds(f, order, j);
      SeenBefore(f, Elems(order[..j]), p);
    }
  }

  // ----- what changes, and how it is noticed --------------------------------------------------

  /** The previous state and `c` are the rebuilds before and after the change. */
  ghost predicate Setting(t: Task, uses: Uses, order: seq<ArtifactId>, inputs: State, c: State) {
    && ReadsOnly(t.prods, uses) && AllWatched(t.f, uses) && ReadsFirst(order, uses)
    && IsTopologicalOrder(t.f, order) && t.prods.Keys <= Nodes(t.f)
    && DirtyClosed(t) && t.changed.Keys <= t.dirty && BothRebuilt(t, inputs, c)
  }

  ghost predicate BothRebuilt(t: Task, inputs: State, c: State) {
    IsRebuild(t.prods, inputs, t.old_) && IsRebuild(t.prods, inputs + t.changed, c)
  }

  ghost predicate OnTrack(t: Task, seen: set<ArtifactId>, acc: Pass, c: State) {
    && acc.tainted == {}
    && (forall x :: x in seen || x !in t.prods ==> Lookup(acc.state, x) == Lookup(c, x))
    && (forall x :: x in t.prods && x !in seen ==>
          Lookup(acc.state, x) == if x in t.changed then Some(t.changed[x]) else Lookup(t.old_, x))
    && (forall x :: x in acc.boundary || x in acc.cutOff ==> Unchanged(t, c, x))
    && (forall x :: x in acc.reachedIds && x !in acc.boundary ==> x in seen && !Unchanged(t, c, x))
    && (forall x :: x in seen && x !in t.dirty ==> Unchanged(t, c, x))
    && (forall x :: x in seen && x in t.prods && !Unchanged(t, c, x) ==> x in acc.recomputed)
  }

  lemma PlainUnchanged(t: Task, inputs: State, c: State, x: ArtifactId)
    requires BothRebuilt(t, inputs, c) && x !in t.prods && x !in t.changed
    ensures Unchanged(t, c, x)
  {
  }

  ghost predicate AllChanged(t: Task, c: State, p: seq<ArtifactId>) {
    forall i :: 0 <= i < |p| ==> !Unchanged(t, c, p[i])
  }

  lemma ChainGrows(t: Task, uses: Uses, c: State, p: seq<ArtifactId>, a: ArtifactId)
    requires ReadChain(uses, p) && AllChanged(t, c, p) && !Unchanged(t, c, a)
    requires a in uses && p[|p| - 1] in uses[a] && p[|p| - 1] != a
    ensures ReadChain(uses, p + [a]) && AllChanged(t, c, p + [a])
  {
    var q := p + [a];
    forall i | 0 < i < |q| ensures ReadAt(uses, q, i) {
      assert i < |p| ==> ReadAt(uses, p, i);
    }
  }

  /** A producer changed because something else it reads did, or because a value was handed in for its
      own artifact. */
  lemma ChangedRead(t: Task, uses: Uses, inputs: State, c: State, a: ArtifactId) returns (r: ArtifactId)
    requires ReadsOnly(t.prods, uses) && a in t.prods && !Unchanged(t, c, a) && BothRebuilt(t, inputs, c)
    requires a in uses[a] ==> a !in t.changed
    ensures r in uses[a] && r != a && !Unchanged(t, c, r)
  {
    if forall x :: x in uses[a] && x != a ==> Unchanged(t, c, x) {
      SameReads(t, uses, inputs, c, a);
      assert false;
    }
    r :| r in uses[a] && r != a && !Unchanged(t, c, r);
  }

  lemma SameReads(t: Task, uses: Uses, inputs: State, c: State, a: ArtifactId)
    requires ReadsOnly(t.prods, uses) && a in t.prods && BothRebuilt(t, inputs, c)
    requires a in uses[a] ==> a !in t.changed
    requires forall x :: x in uses[a] && x != a ==> Unchanged(t, c, x)
    ensures Unchanged(t, c, a)
  {
    assert AgreeOn(InTurnOf(t.old_, inputs, a), InTurnOf(c, inputs + t.changed, a), uses[a]);
  }

  /** Whatever changed did so along a chain of changed reads, from a source that was handed in. */
  lemma {:induction false} ChangedChain(t: Task, uses: Uses, order: seq<ArtifactId>, inputs: State, c: State,
                                        a: ArtifactId, n: nat) returns (p: seq<ArtifactId>)
    requires ReadsOnly(t.prods, uses) && ReadsFirst(order, uses) && !Unchanged(t, c, a) && BothRebuilt(t, inputs, c)
    requires n <= |order| && (a in uses ==> a in order[..n])
    ensures ReadChain(uses, p) && p[0] in t.changed && p[|p| - 1] == a && AllChanged(t, c, p)
    decreases n
  {
    if a !in uses {
      if a !in t.changed {
        PlainUnchanged(t, inputs, c, a);
      }
      p := [a];
    } else if a in uses[a] && a in t.changed {
      p := [a];
    } else {
      var j :| 0 <= j < n && order[j] == a;
      var r := ChangedRead(t, uses, inputs, c, a);
      var q := ChangedChain(t, uses, order, inputs, c, r, j);
      ChainGrows(t, uses, c, q, a);
      p := q + [a];
    }
  }

  lemma ChangedChainTo(t: Task, uses: Uses, order: seq<ArtifactId>, inputs: State, c: State, a: ArtifactId)
    returns (p: seq<ArtifactId>)
    requires Setting(t, uses, order, inputs, c) && !Unchanged(t, c, a)
    ensures ReadChain(uses, p) && p[0] in t.changed && p[|p| - 1] == a && AllChanged(t, c, p)
  {
    assert order[..|order|] == order;
    assert a in uses ==> a in Elems(order);
    p := ChangedChain(t, uses, order, inputs, c, a, |order|);
  }

  lemma ChangedPropagates(t: Task, c: State, seen: set<ArtifactId>, acc: Pass, q: ArtifactId)
    requires Bookkeeping(t, seen, acc) && OnTrack(t, seen, acc, c) && q in seen && !Unchanged(t, c, q)
    ensures q in t.dirty && Propagates(t, acc, q)
  {
  }

  /** A producer that changed, other than by being handed in, is dirty and reached. */
  lemma ChangeIsNoticed(t: Task, uses: Uses, order: seq<ArtifactId>, inputs: State, c: State,
                        seen: set<ArtifactId>, acc: Pass, id: ArtifactId)
    requires Setting(t, uses, order, inputs, c) && Bookkeeping(t, seen, acc) && OnTrack(t, seen, acc, c)
    requires Preds(t.f, id) <= seen && id in t.prods && id !in t.changed && !Unchanged(t, c, id)
    ensures id in t.dirty && IsReached(t, acc, id, Preds(t.f, id))
  {
    var p := ChangedChainTo(t, uses, order, inputs, c, id);
    assert Watched(t.f, uses.Keys, p);
    if i :| 0 <= i < |p| - 1 && p[i] in Preds(t.f, id) {
      ChangedPropagates(t, c, seen, acc, p[i]);
    } else {
      var q :| q in Preds(t.f, id) && q !in uses.Keys && Reaches(Edges(t.f), p[0], q);
      if q !in t.dirty {
        CleanBefore(t, p[0], q);
        assert false;
      }
      assert Propagates(t, acc, q);
    }
  }

  /** A node that was skipped, clean or cut off, is unchanged. */
  lemma SkippedUnchanged(t: Task, uses: Uses, order: seq<ArtifactId>, inputs: State, c: State,
                         seen: set<ArtifactId>, acc: Pass, id: ArtifactId)
    requires Setting(t, uses, order, inputs, c) && Bookkeeping(t, seen, acc) && OnTrack(t, seen, acc, c)
    requires Preds(t.f, id) <= seen
    requires id !in t.dirty || !IsReached(t, acc, id, Preds(t.f, id))
    ensures Unchanged(t, c, id)
  {
    if id !in t.prods {
      PlainUnchanged(t, inputs, c, id);
    } else if !Unchanged(t, c, id) {
      ChangeIsNoticed(t, uses, order, inputs, c, seen, acc, id);
      assert false;
    }
  }

  /** What reads its own artifact is recomputed only when a value was handed in for it. */
  lemma AloneIsHandedIn(t: Task, uses: Uses, order: seq<ArtifactId>, inputs: State, c: State,
                        seen: set<ArtifactId>, acc: Pass, id: ArtifactId)
    requires Setting(t, uses, order, inputs, c) && Bookkeeping(t, seen, acc) && OnTrack(t, seen, acc, c)
    requires id in t.prods && id in uses[id] && Alone(t.f, uses, id) && IsReached(t, acc, id, Preds(t.f, id))
    ensures id in t.changed
  {
    if id !in t.changed {
      var q :| q in Preds(t.f, id) && Propagates(t, acc, q);
      if q in t.prods {
        var p := ChangedChainTo(t, uses, order, inputs, c, q);
      } else {
        assert ReadChain(uses, [q]);
      }
      assert false;
    }
  }

  lemma ComputesTarget(prods: Producers, uses: Uses, inputs: State, c: State, id: ArtifactId, s: State)
    requires ReadsOnly(prods, uses) && IsRebuild(prods, inputs, c) && id in prods
    requires forall a :: a in uses[id] && a != id ==> Lookup(s, a) == Lookup(c, a)
    requires id in uses[id] ==> Lookup(s, id) == Lookup(inputs, id)
    ensures id in c && prods[id](s) == Some(c[id])
  {
    assert AgreeOn(s, InTurnOf(c, inputs, id), uses[id]);
  }

  lemma ReachedComputesTarget(t: Task, uses: Uses, order: seq<ArtifactId>, inputs: State, c: State, n: nat, acc: Pass)
    requires Setting(t, uses, order, inputs, c) && n < |order| && OnTrack(t, Elems(order[..n]), acc, c)
    requires order[n] in t.prods && (order[n] in uses[order[n]] ==> order[n] in t.changed)
    ensures order[n] in c && t.prods[order[n]](acc.state) == Some(c[order[n]])
  {
    var id := order[n];
    assert id !in Elems(order[..n]);
    forall a | a in uses[id] && a != id ensures Lookup(acc.state, a) == Lookup(c, a) {
      assert a in uses ==> a in Elems(order[..n]);
    }
    ComputesTarget(t.prods, uses, inputs + t.changed, c, id, acc.state);
  }

  lemma OnTrackStep(t: Task, uses: Uses, order: seq<ArtifactId>, inputs: State, c: State, n: nat, acc: Pass, next: Pass)
    requires Setting(t, uses, order, inputs, c) && n < |order| && Alone(t.f, uses, order[n])
    requires Bookkeeping(t, Elems(order[..n]), acc) && OnTrack(t, Elems(order[..n]), acc, c)
    requires next == Visit(t, acc, order[n], Preds(t.f, order[n]))
    ensures OnTrack(t, Elems(order[..n + 1]), next, c)
  {
    var seen, id := Elems(order[..n]), order[n];
    if id !in t.dirty || !IsReached(t, acc, id, Preds(t.f, id)) {
      SkippedUnchanged(t, uses, order, inputs, c, seen, acc, id);
    } else if id in t.prods {
      if id in uses[id] {
        AloneIsHandedIn(t, uses, order, inputs, c, seen, acc, id);
      }
      ReachedComputesTarget(t, uses, order, inputs, c, n, acc);
    }
    OnTrackOne(t, c, seen, acc, id, Preds(t.f, id));
    assert order[..n + 1] == order[..n] + [id];
    PushElem(order[..n], id);
  }

  lemma OnTrackOne(t: Task, c: State, seen: set<ArtifactId>, acc: Pass, id: ArtifactId, preds: set<ArtifactId>)
    requires OnTrack(t, seen, acc, c) && id !in seen && t.changed.Keys <= t.dirty
    requires id !in t.dirty || !IsReached(t, acc, id, preds) ==> Unchanged(t, c, id)
    requires id in t.dirty && IsReached(t, acc, id, preds) && id in t.prods ==>
               id in c && t.prods[id](acc.state) == Some(c[id])
    ensures OnTrack(t, seen + {id}, Visit(t, acc, id, preds), c)
  {
  }

  lemma StartsOnTrack(t: Task, inputs: State, c: State)
    requires BothRebuilt(t, inputs, c)
    ensures OnTrack(t, {}, Start(t), c)
  {
    forall x | x !in t.prods ensures Lookup(Start(t).state, x) == Lookup(c, x) {
      PlainStart(t, inputs, c, x);
    }
    TrackStarts(t, c);
  }

  lemma PlainStart(t: Task, inputs: State, c: State, x: ArtifactId)
    requires BothRebuilt(t, inputs, c) && x !in t.prods
    ensures Lookup(Start(t).state, x) == Lookup(c, x)
  {
  }

  lemma TrackStarts(t: Task, c: State)
    requires forall x :: x !in t.prods ==> Lookup(Start(t).state, x) == Lookup(c, x)
    ensures OnTrack(t, {}, Start(t), c)
  {
  }

  lemma {:induction false} WalkStaysOnTrack(t: Task, uses: Uses, order: seq<ArtifactId>, inputs: State, n: nat,
                                            c: State)
    requires Setting(t, uses, order, inputs, c) && n <= |order| && AllAlone(t.f, order, uses, n)
    ensures OnTrack(t, Elems(order[..n]), Walk(t, order, n), c)
  {
    if n == 0 {
      StartsOnTrack(t, inputs, c);
    } else {
      WalkStaysOnTrack(t, uses, order, inputs, n - 1, c);
      WalkKeepsBooks(t, order, n - 1);
      OnTrackStep(t, uses, order, inputs, c, n - 1, Walk(t, order, n - 1), Walk(t, order, n));
    }
  }

  /** Starting from a rebuild, the pass with cutoff ends in exactly the rebuild of the changed inputs,
      and lists every producer whose value moved, whenever every chain of reads is watched, the order
      puts producers before their readers, and what reads itself is left alone. */
  lemma AgreesWhenWatched(t: Task, uses: Uses, inputs: State, order: seq<ArtifactId>, c: State)
    requires Setting(t, uses, order, inputs, c) && AllAlone(t.f, order, uses, |order|)
    ensures Walk(t, order, |order|).state == c
    ensures forall id :: id in t.prods && !Unchanged(t, c, id) ==> id in Walk(t, order, |order|).recomputed
  {
    var acc := Walk(t, order, |order|);
    WalkStaysOnTrack(t, uses, order, inputs, |order|, c);
    assert order[..|order|] == order;
    SameLookups(t, order, acc, c);
  }

  lemma SameLookups(t: Task, order: seq<ArtifactId>, acc: Pass, c: State)
    requires OnTrack(t, Elems(order), acc, c) && t.prods.Keys <= Elems(order)
    ensures acc.state == c
    ensures forall id :: id in t.prods && !Unchanged(t, c, id) ==> id in acc.recomputed
  {
    forall k ensures Lookup(acc.state, k) == Lookup(c, k) {
    }
    assert forall k :: k in acc.state <==> Lookup(acc.state, k).Some?;
    assert forall k :: k in c <==> Lookup(c, k).Some?;
    assert acc.state.Keys == c.Keys;
    forall k | k in c ensures acc.state[k] == c[k] {
      assert Lookup(acc.state, k) == Lookup(c, k);
    }
  }

  // ----- declared reads -----------------------------------------------------------------------

  /** In particular for producers that read their graph predecessors only. */
  lemma AgreesWithRebuild(t: Task, inputs: State, order: seq<ArtifactId>, c: State)
    requires Local(t.f, t.prods) && DirtyClosed(t) && t.changed.Keys <= t.dirty
    requires Consistent(t.prods, inputs, t.old_) && Consistent(t.prods, inputs + t.changed, c)
    requires IsTopologicalOrder(t.f, order) && t.prods.Keys <= Nodes(t.f)
    ensures Walk(t, order, |order|).state == c
    ensures forall id :: id in t.prods && !Unchanged(t, c, id) ==> id in Walk(t, order, |order|).recomputed
  {
    OrderIsAcyclic(t.f, order);
    var uses := LocalSuits(t.f, t.prods);
    UpstreamFirst(t.f, order, uses);
    RebuildIsConsistent(t.prods, uses, inputs, t.old_);
    RebuildIsConsistent(t.prods, uses, inputs + t.changed, c);
    AgreesWhenWatched(t, uses, inputs, order, c);
  }

  lemma LocalSuits(f: Forward, prods: Producers) returns (uses: Uses)
    requires Local(f, prods) && !HasCycle(Edges(f))
    ensures ReadsOnly(prods, uses) && Suits(f, uses) && forall id :: id in uses ==> id !in uses[id]
  {
    uses := map id | id in prods :: Preds(f, id);
    forall id, s: State, u: State | id in prods && AgreeOn(s, u, uses[id]) ensures prods[id](s) == prods[id](u) {
      assert AgreeOn(s, u, Preds(f, id));
    }
    forall p | ReadChain(uses, p) && |p| > 1 ensures Watched(f, uses.Keys, p) {
      assert ReadAt(uses, p, |p| - 1);
      assert p[|p| - 2] in Preds(f, p[|p| - 1]);
    }
    forall b, a | b in uses && a in uses[b] && a in uses
      ensures exists q :: q in Preds(f, b) && Reaches(Edges(f), a, q)
    {
      ReachesSelf(Edges(f), a);
    }
    forall id | id in uses ensures id !in uses[id] {
      if id in uses[id] {
        assert IsPath(Edges(f), [id, id]);
        assert false;
      }
    }
  }
}
