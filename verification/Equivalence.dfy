/** Exactly when incremental recompute and the full rebuild, made in the same order, give the same
    values: what the equivalence check of the engine can report for producers with given reads. */
module Equivalence {
  import opened Agreement
  import opened Digraph
  import opened Incremental
  import opened Invalidation
  import opened Recompute
  import opened UndeclaredReads
  import opened Wrappers

  /** What the equivalence check accepts: the same values, and every change was recomputed. */
  ghost predicate Equivalent(prods: Producers, full: State, base: State, incr: State, recomputed: set<ArtifactId>) {
    forall id :: id in prods ==>
      && Lookup(full, id) == Lookup(incr, id)
      && (Lookup(base, id) != Lookup(full, id) ==> id in recomputed)
  }

  ghost predicate AgreesOn(t: Task, order: seq<ArtifactId>, c: State) {
    Equivalent(t.prods, c, t.old_, Walk(t, order, |order|).state, Walk(t, order, |order|).recomputed)
  }

  /** Both rebuilds succeed, in the order the pass uses, and `t` goes from one to the other. */
  ghost predicate Compares(t: Task, order: seq<ArtifactId>, uses: Uses, inputs: State, c: State) {
    && ReadsOnly(t.prods, uses) && IsReachSet(Edges(t.f), t.changed.Keys, t.dirty)
    && (forall id :: id in Planned(order, uses.Keys) ==> id in t.prods)
    && Rebuilt(t.prods, Planned(order, uses.Keys), inputs, t.old_)
    && Rebuilt(t.prods, Planned(order, uses.Keys), inputs + t.changed, c)
  }

  /** Whatever producers with these reads compute, whatever the inputs and whatever changes: where
      both rebuilds succeed, the check accepts. */
  ghost predicate AlwaysAgrees(f: Forward, order: seq<ArtifactId>, uses: Uses) {
    forall t: Task, inputs: State, c: State {:trigger Compares(t, order, uses, inputs, c)} ::
      t.f == f && Compares(t, order, uses, inputs, c) ==> AgreesOn(t, order, c)
  }

  lemma Disagrees(t: Task, order: seq<ArtifactId>, uses: Uses, inputs: State, c: State, b: ArtifactId)
    requires Compares(t, order, uses, inputs, c) && b in t.prods
    requires Lookup(Walk(t, order, |order|).state, b) != Lookup(c, b)
    ensures !AlwaysAgrees(t.f, order, uses)
  {
    assert !AgreesOn(t, order, c);
  }

  lemma RebuildsCompare(t: Task, order: seq<ArtifactId>, uses: Uses, inputs: State, c: State)
    requires Distinct(order) && ReadsFirst(order, uses) && uses.Keys <= Elems(order)
    requires ReadsOnly(t.prods, uses) && IsReachSet(Edges(t.f), t.changed.Keys, t.dirty)
    requires IsRebuild(t.prods, inputs, t.old_) && IsRebuild(t.prods, inputs + t.changed, c)
    ensures Compares(t, order, uses, inputs, c)
  {
    RebuiltIff(order, uses, t.prods, inputs, t.old_);
    RebuiltIff(order, uses, t.prods, inputs + t.changed, c);
  }

  function CopyOf(a: ArtifactId): Producer {
    (s: State) => Lookup(s, a)
  }

  function Always(v: Bytes): Producer {
    (s: State) => Some(v)
  }

  // ----- an unwatched chain goes stale --------------------------------------------------------

  /** What `x` reads on the chain; the first reads itself. */
  ghost function Source(p: seq<ArtifactId>, x: ArtifactId): (r: ArtifactId)
    requires x in p
    ensures r in p
  {
    if x == p[0] then x
    else
      var i :| 0 < i < |p| && p[i] == x;
      p[i - 1]
  }

  lemma SourceIsRead(uses: Uses, p: seq<ArtifactId>, x: ArtifactId)
    requires ReadChain(uses, p) && x in p && x in uses
    ensures Source(p, x) in uses[x] && (Source(p, x) in uses || Source(p, x) == p[0])
    ensures x != p[0] ==> Source(p, x) != x
  {
    if x != p[0] {
      var i :| 0 < i < |p| && p[i] == x && Source(p, x) == p[i - 1];
      assert ReadAt(uses, p, i);
      assert i > 1 ==> ReadAt(uses, p, i - 1);
    }
  }

  /** Producers on the chain copy what they read there; all others are constant. */
  ghost function Copying(producers: set<ArtifactId>, p: seq<ArtifactId>): Producers {
    map id | id in producers :: if id in p then CopyOf(Source(p, id)) else Always([])
  }

  /** `v` along the chain and nothing elsewhere. */
  ghost function Filled(producers: set<ArtifactId>, p: seq<ArtifactId>, v: Bytes): State
    requires |p| > 0
  {
    map id | id in producers + {p[0]} :: if id in p then v else []
  }

  lemma CopyingReads(uses: Uses, p: seq<ArtifactId>)
    requires ReadChain(uses, p)
    ensures ReadsOnly(Copying(uses.Keys, p), uses)
  {
    var prods := Copying(uses.Keys, p);
    forall id, s: State, u: State | id in prods && AgreeOn(s, u, uses[id]) ensures prods[id](s) == prods[id](u) {
      if id in p {
        SourceIsRead(uses, p, id);
      }
    }
  }

  lemma CopiesInTurn(uses: Uses, p: seq<ArtifactId>, v: Bytes, inputs: State, c: State, id: ArtifactId)
    requires ReadChain(uses, p) && id in uses && id in p && p[0] in inputs && inputs[p[0]] == v
    requires Lookup(c, Source(p, id)) == Some(v)
    ensures CopyOf(Source(p, id))(InTurnOf(c, inputs, id)) == Some(v)
  {
    SourceIsRead(uses, p, id);
  }

  lemma CopyingAt(uses: Uses, p: seq<ArtifactId>, v: Bytes, inputs: State, c: State, id: ArtifactId)
    requires ReadChain(uses, p) && id in uses && p[0] in inputs && inputs[p[0]] == v
    requires forall x :: x in p && (x in uses || x == p[0]) ==> Lookup(c, x) == Some(v)
    requires Lookup(c, id) == Some(if id in p then v else [])
    ensures Copying(uses.Keys, p)[id](InTurnOf(c, inputs, id)) == Some(c[id])
  {
    if id in p {
      SourceIsRead(uses, p, id);
      CopiesInTurn(uses, p, v, inputs, c, id);
    }
  }

  lemma CopyingRebuilds(uses: Uses, p: seq<ArtifactId>, v: Bytes)
    requires ReadChain(uses, p)
    ensures IsRebuild(Copying(uses.Keys, p), map[p[0] := v], Filled(uses.Keys, p, v))
  {
    var prods, inputs, c := Copying(uses.Keys, p), map[p[0] := v], Filled(uses.Keys, p, v);
    forall id | id in prods ensures prods[id](InTurnOf(c, inputs, id)) == Some(c[id]) {
      if id in p {
        SourceIsRead(uses, p, id);
      }
    }
  }

  ghost function ChainTask(f: Forward, producers: set<ArtifactId>, p: seq<ArtifactId>, dirty: set<ArtifactId>): Task
    requires |p| > 0
  {
    Task(f, Copying(producers, p), Filled(producers, p, []), map[p[0] := [0]], dirty)
  }

  /** Nothing fails, every producer met off the chain recomputes to its old value, and `b` is not met. */
  ghost predicate StaysBlank(t: Task, p: seq<ArtifactId>, b: ArtifactId, acc: Pass) {
    && acc.tainted == {} && b !in acc.reachedIds && t.old_.Keys <= acc.state.Keys
    && (forall x :: x in acc.reachedIds && x !in p ==> x in acc.boundary)
    && b in acc.state && acc.state[b] == []
  }

  /** The chain, its producers, and a graph that does not watch it. */
  ghost predicate Unheard(t: Task, uses: Uses, p: seq<ArtifactId>) {
    && ReadChain(uses, p) && |p| > 1 && p[|p| - 1] in uses && p[|p| - 1] != p[0]
    && t == ChainTask(t.f, uses.Keys, p, t.dirty)
    && (forall i :: 0 <= i < |p| - 1 ==> p[i] !in Preds(t.f, p[|p| - 1]))
    && (forall q :: q in Preds(t.f, p[|p| - 1]) && q !in uses ==> q !in t.dirty)
  }

  lemma BlankStep(t: Task, uses: Uses, p: seq<ArtifactId>, acc: Pass, id: ArtifactId, preds: set<ArtifactId>)
    requires Unheard(t, uses, p) && preds == Preds(t.f, id) && StaysBlank(t, p, p[|p| - 1], acc)
    ensures StaysBlank(t, p, p[|p| - 1], Visit(t, acc, id, preds))
  {
    if id == p[|p| - 1] {
      assert forall q :: q in preds ==> !Propagates(t, acc, q);
    } else if id in uses {
      if id in p {
        SourceIsRead(uses, p, id);
        assert t.prods[id](acc.state).Some?;
      } else {
        assert t.prods[id](acc.state) == Some([]) && Lookup(t.old_, id) == Some([]);
      }
    }
  }

  lemma {:induction false} BlankWalk(t: Task, uses: Uses, p: seq<ArtifactId>, order: seq<ArtifactId>, n: nat)
    requires Unheard(t, uses, p) && n <= |order|
    ensures StaysBlank(t, p, p[|p| - 1], Walk(t, order, n))
  {
    if n > 0 {
      BlankWalk(t, uses, p, order, n - 1);
      BlankStep(t, uses, p, Walk(t, order, n - 1), order[n - 1], Preds(t.f, order[n - 1]));
    }
  }

  /** Where producers come before their readers, a chain moves on in the order. */
  lemma {:induction false} ChainMovesOn(order: seq<ArtifactId>, uses: Uses, p: seq<ArtifactId>, n: nat, i: nat, j: nat)
    requires ReadsFirst(order, uses) && ReadChain(uses, p) && n < i < |p| && p[n] in uses
    requires j < |order| && order[j] == p[i]
    ensures p[n] in order[..j]
    decreases i
  {
    assert ReadAt(uses, p, i);
    if i - 1 > n {
      assert ReadAt(uses, p, i - 1);
      assert p[i - 1] in order[..j];
      var m :| 0 <= m < j && order[m] == p[i - 1];
      ChainMovesOn(order, uses, p, n, i - 1, m);
    }
  }

  lemma EndIsNotStart(order: seq<ArtifactId>, uses: Uses, p: seq<ArtifactId>)
    requires Distinct(order) && ReadsFirst(order, uses) && ReadChain(uses, p) && |p| > 1 && uses.Keys <= Elems(order)
    ensures p[|p| - 1] in uses && p[|p| - 1] != p[0]
  {
    assert ReadAt(uses, p, |p| - 1);
    assert p[|p| - 1] in Elems(order);
    var j :| 0 <= j < |order| && order[j] == p[|p| - 1];
    if p[0] in uses {
      ChainMovesOn(order, uses, p, 0, |p| - 1, j);
    }
  }

  lemma UnwatchedIsUnheard(t: Task, order: seq<ArtifactId>, uses: Uses, p: seq<ArtifactId>)
    requires Distinct(order) && ReadsFirst(order, uses) && uses.Keys <= Elems(order)
    requires ReadChain(uses, p) && |p| > 1 && !Watched(t.f, uses.Keys, p)
    requires t == ChainTask(t.f, uses.Keys, p, t.dirty) && IsReachSet(Edges(t.f), {p[0]}, t.dirty)
    ensures Unheard(t, uses, p)
  {
    EndIsNotStart(order, uses, p);
    forall q | q in t.dirty ensures Reaches(Edges(t.f), p[0], q) {
      assert ReachedFrom(Edges(t.f), {p[0]}, q);
    }
  }

  /** With an unwatched chain of reads, some producers with these reads keep a stale value. */
  lemma UnwatchedChainGoesStale(f: Forward, order: seq<ArtifactId>, uses: Uses, p: seq<ArtifactId>)
    requires Distinct(order) && ReadsFirst(order, uses) && uses.Keys <= Elems(order)
    requires ReadChain(uses, p) && |p| > 1 && !Watched(f, uses.Keys, p)
    ensures !AlwaysAgrees(f, order, uses)
  {
    var dirty := ForwardReach(f, {p[0]});
    var t := ChainTask(f, uses.Keys, p, dirty);
    var inputs, c := map[p[0] := []], Filled(uses.Keys, p, [0]);
    assert t.changed.Keys == {p[0]} && inputs + t.changed == map[p[0] := [0]];
    CopyingReads(uses, p);
    CopyingRebuilds(uses, p, []);
    CopyingRebuilds(uses, p, [0]);
    RebuildsCompare(t, order, uses, inputs, c);
    UnwatchedIsUnheard(t, order, uses, p);
    BlankWalk(t, uses, p, order, |order|);
    Disagrees(t, order, uses, inputs, c, p[|p| - 1]);
  }

  // ----- a reader before what it reads --------------------------------------------------------

  /** Producer `b` copies `a`, and all else is constant. */
  function CopyingOne(producers: set<ArtifactId>, a: ArtifactId, b: ArtifactId): Producers {
    map id | id in producers :: if id == b then CopyOf(a) else Always([])
  }

  /** Nothing but `v` for `b`. */
  function Blanks(producers: set<ArtifactId>, b: ArtifactId, v: Bytes): State {
    map id | id in producers :: if id == b then v else []
  }

  /** What these read. */
  function OneRead(producers: set<ArtifactId>, a: ArtifactId, b: ArtifactId): Uses {
    map id | id in producers :: if id == b then {a} else {}
  }

  lemma CopyingOneWaits(producers: set<ArtifactId>, a: ArtifactId, b: ArtifactId)
    ensures ReadsOnly(CopyingOne(producers, a, b), OneRead(producers, a, b))
    ensures Waits(CopyingOne(producers, a, b), OneRead(producers, a, b))
  {
    var prods, own := CopyingOne(producers, a, b), OneRead(producers, a, b);
    forall id, s: State, u: State | id in prods && AgreeOn(s, u, own[id]) ensures prods[id](s) == prods[id](u) {
      assert id == b ==> Lookup(s, a) == Lookup(u, a);
    }
  }

  lemma BlankIsConsistent(producers: set<ArtifactId>, a: ArtifactId, b: ArtifactId, c: State)
    requires a in producers && b in producers && a != b && Consistent(CopyingOne(producers, a, b), map[], c)
    ensures c == Blanks(producers, b, [])
  {
    var prods := CopyingOne(producers, a, b);
    assert prods[a](c) == Some([]) && prods[b](c) == Some(c[a]);
  }

  /** Without a value for `a` the reader waits for it, and the rebuild is right. */
  lemma BlankBaseline(uses: Uses, a: ArtifactId, b: ArtifactId, schedule: seq<ArtifactId>)
    requires a in uses && b in uses && a != b && Elems(schedule) == uses.Keys && forall x :: x in schedule ==> x in uses
    ensures Rebuilt(CopyingOne(uses.Keys, a, b), schedule, map[], Blanks(uses.Keys, b, []))
  {
    var prods, own := CopyingOne(uses.Keys, a, b), OneRead(uses.Keys, a, b);
    var rank: map<ArtifactId, nat> := map id | id in uses :: if id == b then 1 else 0;
    CopyingOneWaits(uses.Keys, a, b);
    AllFinish(prods, own, rank, map[], schedule);
    var c := Rounds(prods, schedule, |prods| + 1, map[]).state;
    UndeclaredReadsRebuild(prods, own, rank, map[], schedule, Ok(RecomputeResult(c, uses.Keys)));
    BlankIsConsistent(uses.Keys, a, b, c);
  }

  /** After the first `n` attempts, with `[0]` handed in for `a`. */
  ghost predicate EarlyAt(producers: set<ArtifactId>, a: ArtifactId, b: ArtifactId, done: set<ArtifactId>,
                          g: Progress) {
    && g.pending == producers - done && g.state.Keys == done + {a}
    && (forall x :: x in done ==> g.state[x] == if x == b then [0] else [])
    && (a !in done ==> g.state[a] == [0])
  }

  /** The reader comes first and takes the value that was handed in. */
  lemma {:induction false} EarlySweep(producers: set<ArtifactId>, a: ArtifactId, b: ArtifactId,
                                      schedule: seq<ArtifactId>,
                                      i: nat, n: nat)
    requires Distinct(schedule) && (forall x :: x in schedule ==> x in producers) && a != b
    requires i < |schedule| && schedule[i] == b && a !in schedule[..i] && n <= |schedule|
    ensures EarlyAt(producers, a, b, Elems(schedule[..n]),
                    Sweep(CopyingOne(producers, a, b), schedule, n, Progress(map[a := [0]], producers, {})))
  {
    if n > 0 {
      var id, done := schedule[n - 1], Elems(schedule[..n - 1]);
      EarlySweep(producers, a, b, schedule, i, n - 1);
      assert schedule[..n] == schedule[..n - 1] + [id];
      PushElem(schedule[..n - 1], id);
      assert id in schedule && id !in done;
      assert id == b ==> n - 1 == i && a !in done;
      EarlyStep(producers, a, b, done,
                Sweep(CopyingOne(producers, a, b), schedule, n - 1, Progress(map[a := [0]], producers, {})), id);
    }
  }

  lemma EarlyStep(producers: set<ArtifactId>, a: ArtifactId, b: ArtifactId, done: set<ArtifactId>, g: Progress,
                  id: ArtifactId)
    requires EarlyAt(producers, a, b, done, g) && a != b && id in producers && id !in done && (id == b ==> a !in done)
    ensures EarlyAt(producers, a, b, done + {id}, Attempt(CopyingOne(producers, a, b), id, g))
  {
  }

  lemma PlannedEarly(producers: set<ArtifactId>, a: ArtifactId, b: ArtifactId, order: seq<ArtifactId>,
                     j: nat) returns (i: nat)
    requires Distinct(order) && producers <= Elems(order) && b in producers
    requires j < |order| && order[j] == b && a !in order[..j]
    ensures var schedule := Planned(order, producers);
      && Distinct(schedule) && Elems(schedule) == producers && i < |schedule| && schedule[i] == b && a !in schedule[..i]
  {
    var schedule := Planned(order, producers);
    PlannedElems(order, producers);
    assert b in Elems(schedule);
    var k :| 0 <= k < |schedule| && schedule[k] == b;
    i := k;
    var m := PlannedAt(order, producers, i);
    assert m == j && a !in Elems(order[..m]);
    assert a !in Elems(schedule[..i]);
  }

  lemma EarlyRebuild(uses: Uses, a: ArtifactId, b: ArtifactId, schedule: seq<ArtifactId>, i: nat)
    requires Distinct(schedule) && Elems(schedule) == uses.Keys && a in uses && a != b
    requires i < |schedule| && schedule[i] == b && a !in schedule[..i] && forall x :: x in schedule ==> x in uses
    ensures Rebuilt(CopyingOne(uses.Keys, a, b), schedule, map[a := [0]], Blanks(uses.Keys, b, [0]))
  {
    var prods, inputs: State := CopyingOne(uses.Keys, a, b), map[a := [0]];
    EarlySweep(uses.Keys, a, b, schedule, i, |schedule|);
    assert schedule[..|schedule|] == schedule;
    assert Rounds(prods, schedule, 0, inputs) == Progress(inputs, uses.Keys, {});
    var g := Rounds(prods, schedule, 1, inputs);
    EarlyDone(uses.Keys, a, b, g);
  }

  lemma EarlyDone(producers: set<ArtifactId>, a: ArtifactId, b: ArtifactId, g: Progress)
    requires EarlyAt(producers, a, b, producers, g) && a in producers
    ensures g.pending == {} && g.state == Blanks(producers, b, [0])
  {
  }

  lemma EarlyRebuilds(uses: Uses, a: ArtifactId, b: ArtifactId, order: seq<ArtifactId>, j: nat)
    requires Distinct(order) && uses.Keys <= Elems(order) && a in uses && b in uses && a != b
    requires j < |order| && order[j] == b && a !in order[..j]
    ensures forall x :: x in Planned(order, uses.Keys) ==> x in uses
    ensures Rebuilt(CopyingOne(uses.Keys, a, b), Planned(order, uses.Keys), map[], Blanks(uses.Keys, b, []))
    ensures Rebuilt(CopyingOne(uses.Keys, a, b), Planned(order, uses.Keys), map[a := [0]], Blanks(uses.Keys, b, [0]))
  {
    var schedule := Planned(order, uses.Keys);
    var i := PlannedEarly(uses.Keys, a, b, order, j);
    assert forall x :: x in schedule ==> x in Elems(schedule);
    EarlyRebuild(uses, a, b, schedule, i);
    BlankBaseline(uses, a, b, schedule);
  }

  lemma {:induction false} CleanIsKept(t: Task, order: seq<ArtifactId>, n: nat, b: ArtifactId)
    requires n <= |order| && b !in t.dirty
    ensures Lookup(Walk(t, order, n).state, b) == Lookup(Start(t).state, b)
  {
    if n > 0 {
      CleanIsKept(t, order, n - 1, b);
    }
  }

  /** What comes before `a` is not reached from it. */
  lemma NotDownstream(f: Forward, order: seq<ArtifactId>, j: nat, a: ArtifactId)
    requires IsTopologicalOrder(f, order) && j < |order| && a !in order[..j] && a != order[j]
    ensures !Reaches(Edges(f), a, order[j])
  {
    if Reaches(Edges(f), a, order[j]) {
      var p :| Links(Edges(f), a, order[j], p);
      assert (p[|p| - 2], p[|p| - 1]) in Edges(f);
      PrefixHoldsPreds(f, order, j);
      SeenBefore(f, Elems(order[..j]), p[..|p| - 1]);
      assert false;
    }
  }

  /** Hand in a value for a producer that comes after its reader: the rebuild has the reader take it,
      the pass leaves the reader as it was. */
  lemma EarlyReaderGoesStale(f: Forward, order: seq<ArtifactId>, uses: Uses, j: nat, a: ArtifactId)
    requires IsTopologicalOrder(f, order) && uses.Keys <= Nodes(f) && j < |order| && order[j] in uses
    requires a in uses[order[j]] && a in uses && a != order[j] && a !in order[..j]
    ensures !AlwaysAgrees(f, order, uses)
  {
    var b := order[j];
    var dirty := ForwardReach(f, {a});
    var t := Task(f, CopyingOne(uses.Keys, a, b), Blanks(uses.Keys, b, []), map[a := [0]], dirty);
    EarlyCompares(t, order, uses, j, a, b);
    NotDownstream(f, order, j, a);
    assert b !in dirty by {
      assert b in dirty <==> ReachedFrom(Edges(f), {a}, b);
    }
    CleanIsKept(t, order, |order|, b);
    Disagrees(t, order, uses, map[], Blanks(uses.Keys, b, [0]), b);
  }

  lemma EarlyCompares(t: Task, order: seq<ArtifactId>, uses: Uses, j: nat, a: ArtifactId, b: ArtifactId)
    requires Distinct(order) && uses.Keys <= Elems(order) && j < |order| && order[j] == b && b in uses
    requires a in uses[b] && a in uses && a != b && a !in order[..j]
    requires t.prods == CopyingOne(uses.Keys, a, b) && t.old_ == Blanks(uses.Keys, b, []) && t.changed == map[a := [0]]
    requires IsReachSet(Edges(t.f), {a}, t.dirty)
    ensures Compares(t, order, uses, map[], Blanks(uses.Keys, b, [0]))
  {
    assert t.changed.Keys == {a} && map[] + t.changed == map[a := [0]];
    CopyingOneReads(uses, a, b);
    EarlyRebuilds(uses, a, b, order, j);
  }

  lemma CopyingOneReads(uses: Uses, a: ArtifactId, b: ArtifactId)
    requires b in uses && a in uses[b]
    ensures ReadsOnly(CopyingOne(uses.Keys, a, b), uses)
  {
    var prods := CopyingOne(uses.Keys, a, b);
    forall id, s: State, u: State | id in prods && AgreeOn(s, u, uses[id]) ensures prods[id](s) == prods[id](u) {
      assert id == b ==> Lookup(s, a) == Lookup(u, a);
    }
  }

  // ----- a producer that reads its own artifact -----------------------------------------------

  function Counting(b: ArtifactId): Producer {
    (s: State) => Some((if b in s then s[b] else []) + [0])
  }

  /** Copying along the chain, with `b` counting how often it was run. */
  ghost function CountTask(f: Forward, producers: set<ArtifactId>, p: seq<ArtifactId>, b: ArtifactId,
                           dirty: set<ArtifactId>): Task
    requires |p| > 0
  {
    Task(f, Copying(producers, p)[b := Counting(b)], Filled(producers, p, [])[b := [0]], map[p[0] := [0]], dirty)
  }

  lemma CountingReads(uses: Uses, p: seq<ArtifactId>, b: ArtifactId)
    requires ReadChain(uses, p) && b in uses && b in uses[b]
    ensures ReadsOnly(Copying(uses.Keys, p)[b := Counting(b)], uses)
  {
    var prods := Copying(uses.Keys, p)[b := Counting(b)];
    CopyingReads(uses, p);
    forall id, s: State, u: State | id in prods && AgreeOn(s, u, uses[id]) ensures prods[id](s) == prods[id](u) {
      if id == b {
        assert Lookup(s, b) == Lookup(u, b);
      } else {
        assert Copying(uses.Keys, p)[id](s) == Copying(uses.Keys, p)[id](u);
      }
    }
  }

  lemma CountingRebuilds(uses: Uses, p: seq<ArtifactId>, b: ArtifactId, v: Bytes, inputs: State, c: State)
    requires ReadChain(uses, p) && b in uses && b !in p
    requires inputs == map[p[0] := v, b := []] && c == Filled(uses.Keys, p, v)[b := [0]]
    ensures IsRebuild(Copying(uses.Keys, p)[b := Counting(b)], inputs, c)
  {
    var prods := Copying(uses.Keys, p)[b := Counting(b)];
    forall id | id in prods ensures prods[id](InTurnOf(c, inputs, id)) == Some(c[id]) {
      if id == b {
        assert inputs[b] + [0] == c[b];
      } else {
        CopyingAt(uses, p, v, inputs, c, id);
      }
    }
    RebuildFrom(prods, inputs, c);
  }

  /** A producer on a chain that ends before `b` is not `b`. */
  lemma ChainStaysBefore(f: Forward, order: seq<ArtifactId>, uses: Uses, p: seq<ArtifactId>, j: nat)
    requires IsTopologicalOrder(f, order) && ReadsFirst(order, uses) && ReadChain(uses, p)
    requires j < |order| && order[j] in uses && p[|p| - 1] in Preds(f, order[j])
    ensures order[j] !in p
  {
    var q := p[|p| - 1];
    assert q in Elems(order[..j]);
    var m :| 0 <= m < j && order[m] == q;
    forall n | 0 <= n < |p| ensures p[n] != order[j] {
      if p[n] == order[j] && n < |p| - 1 {
        ChainMovesOn(order, uses, p, n, |p| - 1, m);
      }
    }
  }

  /** From its turn on the counter stays as the second run left it. */
  lemma {:induction false} CountStays(t: Task, order: seq<ArtifactId>, j: nat, n: nat, v: Option<Bytes>)
    requires Distinct(order) && j < n <= |order| && Lookup(Walk(t, order, j + 1).state, order[j]) == v
    ensures Lookup(Walk(t, order, n).state, order[j]) == v
  {
    if n > j + 1 {
      CountStays(t, order, j, n - 1, v);
    }
  }

  /** A change that comes to a predecessor of a producer that reads its own artifact: the pass runs it
      again on its own result, the rebuild on what was handed in. */
  lemma OwnReaderRunsTwice(f: Forward, order: seq<ArtifactId>, uses: Uses, j: nat, p: seq<ArtifactId>)
    requires IsTopologicalOrder(f, order) && uses.Keys <= Nodes(f) && ReadsFirst(order, uses) && AllWatched(f, uses)
    requires j < |order| && order[j] in uses && order[j] in uses[order[j]] && AllAlone(f, order, uses, j)
    requires ReadChain(uses, p) && p[|p| - 1] in Preds(f, order[j])
    ensures !AlwaysAgrees(f, order, uses)
  {
    var b := order[j];
    var dirty := ForwardReach(f, {p[0]});
    ClosureFacts(f, {p[0]}, dirty);
    var t := CountTask(f, uses.Keys, p, b, dirty);
    var inputs, c := map[p[0] := [], b := []], Filled(uses.Keys, p, [0])[b := [0]];
    ChainStaysBefore(f, order, uses, p, j);
    CountCompares(t, order, uses, p, b, inputs, c);
    WalkStaysOnTrack(t, uses, order, inputs, j, c);
    WalkKeepsBooks(t, order, j);
    CountedTwice(t, uses, order, p, j, c, Walk(t, order, j));
    CountStays(t, order, j, |order|, Some([0, 0]));
    Disagrees(t, order, uses, inputs, c, b);
  }

  lemma CountCompares(t: Task, order: seq<ArtifactId>, uses: Uses, p: seq<ArtifactId>, b: ArtifactId, inputs: State,
                      c: State)
    requires Distinct(order) && ReadsFirst(order, uses) && uses.Keys <= Elems(order)
    requires ReadChain(uses, p) && b in uses && b in uses[b] && b !in p
    requires t == CountTask(t.f, uses.Keys, p, b, t.dirty) && IsReachSet(Edges(t.f), {p[0]}, t.dirty)
    requires inputs == map[p[0] := [], b := []] && c == Filled(uses.Keys, p, [0])[b := [0]]
    ensures Compares(t, order, uses, inputs, c) && BothRebuilt(t, inputs, c)
  {
    assert t.changed.Keys == {p[0]} && inputs + t.changed == map[p[0] := [0], b := []];
    CountingReads(uses, p, b);
    CountingRebuilds(uses, p, b, [], inputs, t.old_);
    CountingRebuilds(uses, p, b, [0], inputs + t.changed, c);
    RebuildsCompare(t, order, uses, inputs, c);
  }

  lemma CountedTwice(t: Task, uses: Uses, order: seq<ArtifactId>, p: seq<ArtifactId>, j: nat, c: State, acc: Pass)
    requires IsTopologicalOrder(t.f, order) && DirtyClosed(t) && j < |order| && order[j] in uses && ReadChain(uses, p)
    requires order[j] !in p && p[|p| - 1] in Preds(t.f, order[j])
    requires t == CountTask(t.f, uses.Keys, p, order[j], t.dirty) && c == Filled(uses.Keys, p, [0])[order[j] := [0]]
    requires OnTrack(t, Elems(order[..j]), acc, c) && Bookkeeping(t, Elems(order[..j]), acc)
    ensures Lookup(Visit(t, acc, order[j], Preds(t.f, order[j])).state, order[j]) == Some([0, 0])
  {
    var b, q := order[j], p[|p| - 1];
    assert b !in Elems(order[..j]);
    assert |p| > 1 ==> ReadAt(uses, p, |p| - 1);
    assert !Unchanged(t, c, q);
    ChangedPropagates(t, c, Elems(order[..j]), acc, q);
    assert acc.state[b] == [0];
    RunAgain(t, acc, b, Preds(t.f, b), q);
  }

  lemma RunAgain(t: Task, acc: Pass, b: ArtifactId, preds: set<ArtifactId>, q: ArtifactId)
    requires b in t.prods && t.prods[b] == Counting(b) && b in t.dirty && b in acc.state && acc.state[b] == [0]
    requires q in preds && Propagates(t, acc, q)
    ensures Lookup(Visit(t, acc, b, preds).state, b) == Some([0, 0])
  {
    assert acc.state[b] + [0] == [0, 0];
  }

  // ----- exactly when -------------------------------------------------------------------------

  /** Exactly when the graph suffices. For all producers with these reads, all inputs and all changes
      for which both rebuilds succeed, pass and rebuild agree if and only if every producer comes
      after those it reads, every chain of reads is watched, and no change can come to a predecessor
      of a producer that reads its own artifact. */
  lemma WatchedReadsDecide(f: Forward, order: seq<ArtifactId>, uses: Uses)
    requires IsTopologicalOrder(f, order) && uses.Keys <= Nodes(f)
    ensures AlwaysAgrees(f, order, uses) <==>
              ReadsFirst(order, uses) && AllWatched(f, uses) && AllAlone(f, order, uses, |order|)
  {
    if !ReadsFirst(order, uses) {
      var j, a :| 0 <= j < |order| && order[j] in uses && a in uses[order[j]] && a in uses && a != order[j] &&
        a !in order[..j];
      EarlyReaderGoesStale(f, order, uses, j, a);
    } else if !AllWatched(f, uses) {
      var p :| ReadChain(uses, p) && |p| > 1 && !Watched(f, uses.Keys, p);
      UnwatchedChainGoesStale(f, order, uses, p);
    } else if !AllAlone(f, order, uses, |order|) {
      var j := FirstNotAlone(f, order, uses, |order|);
      var p :| ReadChain(uses, p) && p[|p| - 1] in Preds(f, order[j]);
      OwnReaderRunsTwice(f, order, uses, j, p);
    } else {
      forall t: Task, inputs: State, c: State | t.f == f && Compares(t, order, uses, inputs, c)
        ensures AgreesOn(t, order, c)
      {
        SuitedAgrees(t, order, uses, inputs, c);
      }
    }
  }

  lemma SuitedAgrees(t: Task, order: seq<ArtifactId>, uses: Uses, inputs: State, c: State)
    requires IsTopologicalOrder(t.f, order) && uses.Keys <= Nodes(t.f) && Compares(t, order, uses, inputs, c)
    requires ReadsFirst(order, uses) && AllWatched(t.f, uses) && AllAlone(t.f, order, uses, |order|)
    ensures AgreesOn(t, order, c)
  {
    ClosureFacts(t.f, t.changed.Keys, t.dirty);
    RebuiltIff(order, uses, t.prods, inputs, t.old_);
    RebuiltIff(order, uses, t.prods, inputs + t.changed, c);
    AgreesWhenWatched(t, uses, inputs, order, c);
  }

  lemma {:induction false} FirstNotAlone(f: Forward, order: seq<ArtifactId>, uses: Uses, n: nat) returns (j: nat)
    requires n <= |order| && !AllAlone(f, order, uses, n)
    ensures j < n && AllAlone(f, order, uses, j) && !Alone(f, uses, order[j])
  {
    if AllAlone(f, order, uses, n - 1) {
      j := n - 1;
    } else {
      j := FirstNotAlone(f, order, uses, n - 1);
    }
  }
}
