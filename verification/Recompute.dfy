/** The full rebuild over the influence graph.

    A state is consistent when every producer, run on it, yields the value the state already
    holds. For producers that read only their graph predecessors a consistent state is unique and
    the rebuild finds it in one sweep. The same holds of any reads, where producers come before
    their readers. */
module Recompute {
  import opened Digraph
  import opened Invalidation
  import opened Wrappers

  type Bytes = seq<bv8>
  type State = map<ArtifactId, Bytes>
  // A producer may decline (None), for instance when an input is missing.
  type Producer = State -> Option<Bytes>
  type Producers = map<ArtifactId, Producer>

  datatype RecomputeResult = RecomputeResult(state: State, recomputed: set<ArtifactId>)

  datatype CutoffReport = CutoffReport(
    recomputed: set<ArtifactId>,
    cutOff: set<ArtifactId>,
    boundaryNodes: set<ArtifactId>)

  function Lookup(s: State, k: ArtifactId): Option<Bytes> {
    if k in s then Some(s[k]) else None
  }

  ghost predicate AgreeOn(s: State, t: State, ids: set<ArtifactId>) {
    forall k :: k in ids ==> Lookup(s, k) == Lookup(t, k)
  }

  /** Producers depend on nothing but their graph predecessors: no influence edge is missing. */
  ghost predicate Local(f: Forward, prods: Producers) {
    forall id, s: State, t: State {:trigger prods[id], AgreeOn(s, t, Preds(f, id))} ::
      id in prods && AgreeOn(s, t, Preds(f, id)) ==> prods[id](s) == prods[id](t)
  }

  /** What each producer really reads, whether or not the graph declares it. */
  type Uses = map<ArtifactId, set<ArtifactId>>

  ghost predicate ReadsOnly(prods: Producers, uses: Uses) {
    && uses.Keys == prods.Keys
    && forall id, s: State, t: State {:trigger prods[id], AgreeOn(s, t, uses[id])} ::
         id in prods && AgreeOn(s, t, uses[id]) ==> prods[id](s) == prods[id](t)
  }

  ghost predicate Consistent(prods: Producers, inputs: State, s: State) {
    && s.Keys == inputs.Keys + prods.Keys
    && (forall k :: k in inputs && k !in prods ==> s[k] == inputs[k])
    && (forall id :: id in prods ==> prods[id](s) == Some(s[id]))
  }

  ghost predicate Rebuildable(prods: Producers, inputs: State) {
    exists c: State :: Consistent(prods, inputs, c)
  }

  // ----- the full rebuild ---------------------------------------------------------------------

  datatype Progress = Progress(state: State, pending: set<ArtifactId>, recomputed: set<ArtifactId>)

  function Attempt(prods: Producers, id: ArtifactId, g: Progress): Progress
    requires id in prods
  {
    if id !in g.pending then g
    else match prods[id](g.state)
      case Some(v) => Progress(g.state[id := v], g.pending - {id}, g.recomputed + {id})
      case None => g
  }

  /** The first `n` attempts of one sweep over the schedule. */
  function Sweep(prods: Producers, schedule: seq<ArtifactId>, n: nat, g: Progress): Progress
    requires n <= |schedule| && forall id :: id in schedule ==> id in prods
  {
    if n == 0 then g else Attempt(prods, schedule[n - 1], Sweep(prods, schedule, n - 1, g))
  }

  /** Each producer once, after the producers it reads. */
  ghost predicate IsSchedule(f: Forward, prods: Producers, schedule: seq<ArtifactId>) {
    Distinct(schedule) && Elems(schedule) == prods.Keys && PredsScheduled(f, prods, schedule)
  }

  lemma {:induction false} SweepFrame(prods: Producers, schedule: seq<ArtifactId>, n: nat, g: Progress)
    requires n <= |schedule| && forall id :: id in schedule ==> id in prods
    ensures var h := Sweep(prods, schedule, n, g);
      && h.pending <= g.pending
      && h.recomputed == g.recomputed + (g.pending - h.pending)
      && h.state.Keys == g.state.Keys + (g.pending - h.pending)
      && (forall k :: k in g.state && (k !in g.pending || k in h.pending) ==> k in h.state && h.state[k] == g.state[k])
  {
    if n > 0 {
      SweepFrame(prods, schedule, n - 1, g);
    }
  }

  lemma {:induction false} SweepKeepsRest(prods: Producers, schedule: seq<ArtifactId>, n: nat, g: Progress)
    requires n <= |schedule| && forall id :: id in schedule ==> id in prods
    ensures forall id :: id in g.pending && id !in schedule[..n] ==> id in Sweep(prods, schedule, n, g).pending
  {
    if n > 0 {
      SweepKeepsRest(prods, schedule, n - 1, g);
      assert schedule[..n] == schedule[..n - 1] + [schedule[n - 1]];
    }
  }

  /** A pending producer that declines although nothing it reads is pending. */
  ghost predicate Blocked(f: Forward, prods: Producers, g: Progress, id: ArtifactId) {
    id in prods && id in g.pending && Preds(f, id) !! g.pending && prods[id](g.state).None?
  }

  lemma BlockedAfterAttempt(f: Forward, prods: Producers, tried: ArtifactId, g: Progress, id: ArtifactId)
    requires Local(f, prods) && Blocked(f, prods, g, id) && tried in prods
    ensures Blocked(f, prods, Attempt(prods, tried, g), id)
  {
    assert AgreeOn(g.state, Attempt(prods, tried, g).state, Preds(f, id));
  }

  /** Such a producer declines forever: no later attempt can change what it reads. */
  lemma {:induction false} BlockedStaysBlocked(f: Forward, prods: Producers, schedule: seq<ArtifactId>, n: nat,
                                               g: Progress, id: ArtifactId)
    requires Local(f, prods) && Blocked(f, prods, g, id)
    requires n <= |schedule| && forall k :: k in schedule ==> k in prods
    ensures Blocked(f, prods, Sweep(prods, schedule, n, g), id)
  {
    if n > 0 {
      BlockedStaysBlocked(f, prods, schedule, n - 1, g, id);
      BlockedAfterAttempt(f, prods, schedule[n - 1], Sweep(prods, schedule, n - 1, g), id);
    }
  }

  /** The first `n` scheduled producers have succeeded on the values the state holds. */
  ghost predicate Settled(prods: Producers, schedule: seq<ArtifactId>, n: nat, h: Progress)
    requires n <= |schedule| && forall id :: id in schedule ==> id in prods
  {
    forall j :: 0 <= j < n ==>
      schedule[j] !in h.pending && schedule[j] in h.state && prods[schedule[j]](h.state) == Some(h.state[schedule[j]])
  }

  lemma ReadsSettled(f: Forward, prods: Producers, schedule: seq<ArtifactId>, n: nat, pending: set<ArtifactId>)
    requires IsSchedule(f, prods, schedule) && n < |schedule| && pending <= prods.Keys
    requires forall j :: 0 <= j < n ==> schedule[j] !in pending
    ensures Preds(f, schedule[n]) !! pending
  {
    assert forall k :: k in Elems(schedule[..n]) ==> k !in pending;
  }

  lemma SettleNext(f: Forward, prods: Producers, schedule: seq<ArtifactId>, n: nat, h: Progress)
    requires Local(f, prods) && IsSchedule(f, prods, schedule) && n < |schedule| && h.pending <= prods.Keys
    requires forall id :: id in schedule ==> id in prods
    requires Settled(prods, schedule, n, h) && schedule[n] in h.pending
    ensures var h' := Attempt(prods, schedule[n], h);
      Blocked(f, prods, h', schedule[n]) || Settled(prods, schedule, n + 1, h')
  {
    var id, h' := schedule[n], Attempt(prods, schedule[n], h);
    ReadsSettled(f, prods, schedule, n, h.pending);
    if prods[id](h.state).Some? {
      assert AgreeOn(h.state, h'.state, Preds(f, id));
      forall j | 0 <= j < n ensures prods[schedule[j]](h'.state) == Some(h'.state[schedule[j]]) {
        EarlierUnaffected(f, prods, schedule, j, n, h.state, h'.state);
      }
    }
  }

  ghost predicate BlockedOrSettled(f: Forward, prods: Producers, schedule: seq<ArtifactId>, n: nat, h: Progress)
    requires n <= |schedule| && forall id :: id in schedule ==> id in prods
  {
    (exists id :: Blocked(f, prods, h, id)) || Settled(prods, schedule, n, h)
  }

  lemma DecideNext(f: Forward, prods: Producers, schedule: seq<ArtifactId>, n: nat, h: Progress)
    requires Local(f, prods) && IsSchedule(f, prods, schedule) && n < |schedule| && h.pending <= prods.Keys
    requires forall id :: id in schedule ==> id in prods
    requires BlockedOrSettled(f, prods, schedule, n, h) && schedule[n] in h.pending
    ensures BlockedOrSettled(f, prods, schedule, n + 1, Attempt(prods, schedule[n], h))
  {
    if b :| Blocked(f, prods, h, b) {
      BlockedAfterAttempt(f, prods, schedule[n], h, b);
    } else {
      SettleNext(f, prods, schedule, n, h);
    }
  }

  lemma NextIsPending(prods: Producers, schedule: seq<ArtifactId>, n: nat, g: Progress)
    requires n < |schedule| && Distinct(schedule) && g.pending == prods.Keys
    requires forall id :: id in schedule ==> id in prods
    ensures var h := Sweep(prods, schedule, n, g); h.pending <= prods.Keys && schedule[n] in h.pending
  {
    SweepFrame(prods, schedule, n, g);
    SweepKeepsRest(prods, schedule, n, g);
    assert schedule[n] in schedule;
  }

  /** After the first sweep either some producer is blocked for good, or every swept producer
      has succeeded on values that no later attempt changes. */
  lemma {:induction false} FirstSweep(f: Forward, prods: Producers, schedule: seq<ArtifactId>, n: nat, g: Progress)
    requires Local(f, prods) && IsSchedule(f, prods, schedule) && n <= |schedule| && g.pending == prods.Keys
    requires forall id :: id in schedule ==> id in prods
    ensures BlockedOrSettled(f, prods, schedule, n, Sweep(prods, schedule, n, g))
  {
    if n > 0 {
      FirstSweep(f, prods, schedule, n - 1, g);
      NextIsPending(prods, schedule, n - 1, g);
      DecideNext(f, prods, schedule, n - 1, Sweep(prods, schedule, n - 1, g));
    }
  }

  lemma EarlierUnaffected(f: Forward, prods: Producers, schedule: seq<ArtifactId>, j: nat, m: nat, s: State, t: State)
    requires Local(f, prods) && IsSchedule(f, prods, schedule) && j < m < |schedule|
    requires forall k :: k != schedule[m] ==> Lookup(s, k) == Lookup(t, k)
    ensures prods[schedule[j]](s) == prods[schedule[j]](t)
  {
    assert schedule[m] !in Elems(schedule[..j]);
    assert schedule[m] in Elems(schedule);
    assert AgreeOn(s, t, Preds(f, schedule[j]));
  }

  /** Two consistent states for the same inputs are equal. */
  lemma ConsistentIsUnique(f: Forward, prods: Producers, inputs: State, schedule: seq<ArtifactId>, c: State, d: State)
    requires Local(f, prods) && IsSchedule(f, prods, schedule)
    requires Consistent(prods, inputs, c) && Consistent(prods, inputs, d)
    ensures c == d
  {
    UniqueOnPrefix(f, prods, inputs, schedule, |schedule|, c, d);
    forall k | k in c ensures c[k] == d[k] {
      if k in prods {
        assert k in Elems(schedule);
      }
    }
  }

  lemma {:induction false} UniqueOnPrefix(f: Forward, prods: Producers, inputs: State, schedule: seq<ArtifactId>,
                                          n: nat, c: State, d: State)
    requires Local(f, prods) && IsSchedule(f, prods, schedule) && n <= |schedule|
    requires Consistent(prods, inputs, c) && Consistent(prods, inputs, d)
    ensures forall j :: 0 <= j < n ==> c[schedule[j]] == d[schedule[j]]
  {
    if n > 0 {
      UniqueOnPrefix(f, prods, inputs, schedule, n - 1, c, d);
      var id := schedule[n - 1];
      assert id in Elems(schedule);
      forall k | k in Preds(f, id) ensures Lookup(c, k) == Lookup(d, k) {
        if k in prods {
          assert k in Elems(schedule[..n - 1]);
        }
      }
      assert AgreeOn(c, d, Preds(f, id));
    }
  }

  /** When a consistent state exists, the first sweep meets no refusal and computes it. */
  lemma {:induction false} SweepMeets(f: Forward, prods: Producers, inputs: State, schedule: seq<ArtifactId>,
                                      n: nat, c: State)
    requires Local(f, prods) && IsSchedule(f, prods, schedule) && n <= |schedule| && Consistent(prods, inputs, c)
    requires forall id :: id in schedule ==> id in prods
    ensures Meets(schedule, n, Sweep(prods, schedule, n, Progress(inputs, prods.Keys, {})), c)
  {
    if n > 0 {
      var g := Progress(inputs, prods.Keys, {});
      SweepMeets(f, prods, inputs, schedule, n - 1, c);
      NextIsPending(prods, schedule, n - 1, g);
      PlainIsKept(prods, inputs, schedule, n - 1);
      MeetsAttempt(f, prods, inputs, schedule, n - 1, Sweep(prods, schedule, n - 1, g), c);
    }
  }

  lemma PlainIsKept(prods: Producers, inputs: State, schedule: seq<ArtifactId>, n: nat)
    requires n <= |schedule| && forall id :: id in schedule ==> id in prods
    ensures forall k :: k !in prods ==>
              Lookup(Sweep(prods, schedule, n, Progress(inputs, prods.Keys, {})).state, k) == Lookup(inputs, k)
  {
    SweepFrame(prods, schedule, n, Progress(inputs, prods.Keys, {}));
  }

  lemma MeetsAttempt(f: Forward, prods: Producers, inputs: State, schedule: seq<ArtifactId>, n: nat, h: Progress,
                     c: State)
    requires Local(f, prods) && IsSchedule(f, prods, schedule) && n < |schedule| && Consistent(prods, inputs, c)
    requires schedule[n] in prods && schedule[n] in h.pending && Meets(schedule, n, h, c)
    requires forall k :: k !in prods ==> Lookup(h.state, k) == Lookup(inputs, k)
    ensures Meets(schedule, n + 1, Attempt(prods, schedule[n], h), c)
  {
    AgreesOnReads(f, prods, inputs, schedule, n, h.state, c);
    MeetNext(prods, schedule, n, h, c);
  }

  ghost predicate Meets(schedule: seq<ArtifactId>, n: nat, h: Progress, c: State)
    requires n <= |schedule|
  {
    forall j :: 0 <= j < n ==> schedule[j] !in h.pending && Lookup(h.state, schedule[j]) == Lookup(c, schedule[j])
  }

  lemma MeetNext(prods: Producers, schedule: seq<ArtifactId>, n: nat, h: Progress, c: State)
    requires n < |schedule| && Distinct(schedule) && schedule[n] in prods && schedule[n] in h.pending
    requires schedule[n] in c && prods[schedule[n]](h.state) == Some(c[schedule[n]])
    requires Meets(schedule, n, h, c)
    ensures Meets(schedule, n + 1, Attempt(prods, schedule[n], h), c)
  {
  }

  lemma AgreesOnReads(f: Forward, prods: Producers, inputs: State, schedule: seq<ArtifactId>, n: nat, s: State,
                      c: State)
    requires Local(f, prods) && IsSchedule(f, prods, schedule) && n < |schedule| && Consistent(prods, inputs, c)
    requires schedule[n] in prods
    requires forall j :: 0 <= j < n ==> Lookup(s, schedule[j]) == Lookup(c, schedule[j])
    requires forall k :: k !in prods ==> Lookup(s, k) == Lookup(inputs, k)
    ensures prods[schedule[n]](s) == Some(c[schedule[n]])
  {
    forall k | k in Preds(f, schedule[n]) ensures Lookup(s, k) == Lookup(c, k) {
      if k in prods {
        assert k in Elems(schedule[..n]);
      }
    }
    assert AgreeOn(s, c, Preds(f, schedule[n]));
  }

  /** The verdict of the first sweep is final: all done and consistent, or blocked with no
      consistent state to be found. */
  ghost predicate Decided(f: Forward, prods: Producers, inputs: State, g: Progress) {
    || (g.pending == {} && Consistent(prods, inputs, g.state))
    || (!Rebuildable(prods, inputs) && exists id :: Blocked(f, prods, g, id))
  }

  lemma FirstSweepDecides(f: Forward, prods: Producers, inputs: State, schedule: seq<ArtifactId>)
    requires Local(f, prods) && IsSchedule(f, prods, schedule)
    requires forall id :: id in schedule ==> id in prods
    ensures Decided(f, prods, inputs, Sweep(prods, schedule, |schedule|, Progress(inputs, prods.Keys, {})))
  {
    var g := Progress(inputs, prods.Keys, {});
    var h := Sweep(prods, schedule, |schedule|, g);
    FirstSweep(f, prods, schedule, |schedule|, g);
    SweepFrame(prods, schedule, |schedule|, g);
    if c: State :| Consistent(prods, inputs, c) {
      SweepMeets(f, prods, inputs, schedule, |schedule|, c);
      AllSwept(prods, schedule, h.pending);
      assert !exists id :: Blocked(f, prods, h, id);
    }
    if Settled(prods, schedule, |schedule|, h) {
      AllSwept(prods, schedule, h.pending);
      SettledIsConsistent(prods, inputs, schedule, h);
    }
  }

  lemma AllSwept(prods: Producers, schedule: seq<ArtifactId>, pending: set<ArtifactId>)
    requires Elems(schedule) == prods.Keys && pending <= prods.Keys
    requires forall j :: 0 <= j < |schedule| ==> schedule[j] !in pending
    ensures pending == {}
  {
    assert forall id :: id in Elems(schedule) ==> id !in pending;
  }

  lemma SettledIsConsistent(prods: Producers, inputs: State, schedule: seq<ArtifactId>, h: Progress)
    requires Elems(schedule) == prods.Keys && forall id :: id in schedule ==> id in prods
    requires Settled(prods, schedule, |schedule|, h)
    requires h.state.Keys == inputs.Keys + prods.Keys
    requires forall k :: k in inputs && k !in prods ==> h.state[k] == inputs[k]
    ensures Consistent(prods, inputs, h.state)
  {
    forall id | id in prods ensures prods[id](h.state) == Some(h.state[id]) {
      assert id in Elems(schedule);
    }
  }

  ghost predicate PredsScheduled(f: Forward, prods: Producers, schedule: seq<ArtifactId>) {
    forall j :: 0 <= j < |schedule| ==> Preds(f, schedule[j]) * prods.Keys <= Elems(schedule[..j])
  }

  lemma PushScheduled(f: Forward, prods: Producers, schedule: seq<ArtifactId>, id: ArtifactId)
    requires PredsScheduled(f, prods, schedule) && Preds(f, id) * prods.Keys <= Elems(schedule)
    ensures PredsScheduled(f, prods, schedule + [id])
  {
    forall j | 0 <= j <= |schedule|
      ensures Preds(f, (schedule + [id])[j]) * prods.Keys <= Elems((schedule + [id])[..j])
    {
      assert (schedule + [id])[..j] == if j < |schedule| then schedule[..j] else schedule;
    }
  }

  /** The producers among `order`. */
  ghost function Planned(order: seq<ArtifactId>, producers: set<ArtifactId>): seq<ArtifactId> {
    if order == [] then []
    else
      var rest, last := Planned(order[..|order| - 1], producers), order[|order| - 1];
      if last in producers then rest + [last] else rest
  }

  lemma {:induction false} PlannedElems(order: seq<ArtifactId>, producers: set<ArtifactId>)
    requires Distinct(order)
    ensures Distinct(Planned(order, producers)) && Elems(Planned(order, producers)) == Elems(order) * producers
  {
    if order != [] {
      var rest, last := order[..|order| - 1], order[|order| - 1];
      PlannedElems(rest, producers);
      assert order == rest + [last];
      PushElem(rest, last);
      assert last !in Elems(Planned(rest, producers));
      PushElem(Planned(rest, producers), last);
    }
  }

  /** Before a planned producer come the producers that come before it in the order. */
  lemma {:induction false} PlannedAt(order: seq<ArtifactId>, producers: set<ArtifactId>, i: nat) returns (j: nat)
    requires Distinct(order) && i < |Planned(order, producers)|
    ensures j < |order| && order[j] == Planned(order, producers)[i]
    ensures Elems(Planned(order, producers)[..i]) == Elems(order[..j]) * producers
  {
    var rest, last := order[..|order| - 1], order[|order| - 1];
    if i < |Planned(rest, producers)| {
      j := PlannedAt(rest, producers, i);
      assert order[..j] == rest[..j] && Planned(order, producers)[..i] == Planned(rest, producers)[..i];
    } else {
      j := |order| - 1;
      PlannedElems(rest, producers);
      assert Planned(order, producers)[..i] == Planned(rest, producers);
    }
  }

  lemma PlannedFollows(f: Forward, prods: Producers, order: seq<ArtifactId>)
    requires IsTopologicalOrder(f, order)
    ensures PredsScheduled(f, prods, Planned(order, prods.Keys))
  {
    var schedule := Planned(order, prods.Keys);
    forall i | 0 <= i < |schedule| ensures Preds(f, schedule[i]) * prods.Keys <= Elems(schedule[..i]) {
      var j := PlannedAt(order, prods.Keys, i);
    }
  }

  method PlanOrder(prods: Producers, order: seq<ArtifactId>) returns (schedule: seq<ArtifactId>)
    ensures schedule == Planned(order, prods.Keys)
  {
    schedule := [];
    for i := 0 to |order|
      invariant schedule == Planned(order[..i], prods.Keys)
    {
      assert order[..i + 1][..i] == order[..i];
      if order[i] in prods {
        schedule := schedule + [order[i]];
      }
    }
    assert order[..|order|] == order;
  }

  /** Topological order first, then the producers the graph does not know. */
  method MakeSchedule(ghost f: Forward, prods: Producers, order: seq<ArtifactId>) returns (schedule: seq<ArtifactId>)
    requires IsTopologicalOrder(f, order)
    ensures IsSchedule(f, prods, schedule)
    ensures prods.Keys <= Nodes(f) ==> schedule == Planned(order, prods.Keys)
    ensures forall id :: id in schedule ==> id in prods
  {
    schedule := PlanOrder(prods, order);
    PlannedElems(order, prods.Keys);
    PlannedFollows(f, prods, order);
    var rest := prods.Keys;
    while rest != {}
      invariant rest <= prods.Keys && (prods.Keys <= Nodes(f) ==> schedule == Planned(order, prods.Keys))
      invariant Distinct(schedule) && Elems(schedule) == Nodes(f) * prods.Keys + (prods.Keys - rest)
      invariant PredsScheduled(f, prods, schedule)
    {
      var id :| id in rest;
      rest := rest - {id};
      if id !in schedule {
        assert id !in Elems(schedule);
        assert Preds(f, id) == {};
        PushScheduled(f, prods, schedule, id);
        PushElem(schedule, id);
        schedule := schedule + [id];
      } else {
        assert id in Elems(schedule);
      }
    }
    assert forall id :: id in schedule ==> id in Elems(schedule);
  }

  method RunSweep(prods: Producers, schedule: seq<ArtifactId>, g: Progress) returns (h: Progress, progressed: bool)
    requires forall id :: id in schedule ==> id in prods
    ensures h == Sweep(prods, schedule, |schedule|, g)
    ensures progressed <==> h.pending != g.pending
  {
    h, progressed := g, false;
    for i := 0 to |schedule|
      invariant h == Sweep(prods, schedule, i, g)
      invariant h.pending <= g.pending && (progressed <==> h.pending != g.pending)
    {
      var id := schedule[i];
      if id in h.pending {
        match prods[id](h.state) {
          case Some(value) =>
            h := Progress(h.state[id := value], h.pending - {id}, h.recomputed + {id});
            progressed := true;
          case None =>
        }
      }
    }
  }

  /** The progress after `k` sweeps. */
  function Rounds(prods: Producers, schedule: seq<ArtifactId>, k: nat, inputs: State): Progress
    requires forall id :: id in schedule ==> id in prods
  {
    if k == 0 then Progress(inputs, prods.Keys, {})
    else Sweep(prods, schedule, |schedule|, Rounds(prods, schedule, k - 1, inputs))
  }

  /** However many sweeps are made, this producer does not succeed. */
  ghost predicate NeverSucceeds(prods: Producers, schedule: seq<ArtifactId>, inputs: State, id: ArtifactId)
    requires forall x :: x in schedule ==> x in prods
  {
    forall k: nat :: id in Rounds(prods, schedule, k, inputs).pending
  }

  lemma {:induction false} RoundsShrink(prods: Producers, schedule: seq<ArtifactId>, j: nat, k: nat, inputs: State)
    requires j <= k && forall id :: id in schedule ==> id in prods
    ensures Rounds(prods, schedule, k, inputs).pending <= Rounds(prods, schedule, j, inputs).pending
    decreases k
  {
    if j < k {
      RoundsShrink(prods, schedule, j, k - 1, inputs);
      SweepFrame(prods, schedule, |schedule|, Rounds(prods, schedule, k - 1, inputs));
    }
  }

  lemma {:induction false} NoProgressNoChange(prods: Producers, schedule: seq<ArtifactId>, n: nat, g: Progress)
    requires n <= |schedule| && forall id :: id in schedule ==> id in prods
    requires Sweep(prods, schedule, n, g).pending == g.pending
    ensures Sweep(prods, schedule, n, g) == g
    ensures forall j :: 0 <= j < n && schedule[j] in g.pending ==> prods[schedule[j]](g.state).None?
  {
    if n > 0 {
      SweepFrame(prods, schedule, n - 1, g);
      assert Sweep(prods, schedule, n, g).pending <= Sweep(prods, schedule, n - 1, g).pending;
      NoProgressNoChange(prods, schedule, n - 1, g);
    }
  }

  lemma {:induction false} RoundsStay(prods: Producers, schedule: seq<ArtifactId>, j: nat, k: nat, inputs: State)
    requires j <= k && forall id :: id in schedule ==> id in prods
    requires Rounds(prods, schedule, j + 1, inputs).pending == Rounds(prods, schedule, j, inputs).pending
    ensures Rounds(prods, schedule, k, inputs) == Rounds(prods, schedule, j, inputs)
    decreases k
  {
    if j < k {
      RoundsStay(prods, schedule, j, k - 1, inputs);
      NoProgressNoChange(prods, schedule, |schedule|, Rounds(prods, schedule, j, inputs));
    }
  }

  /** A sweep without progress is the last that could have made any. */
  lemma StalledForGood(prods: Producers, schedule: seq<ArtifactId>, j: nat, inputs: State, id: ArtifactId)
    requires forall x :: x in schedule ==> x in prods
    requires Rounds(prods, schedule, j + 1, inputs).pending == Rounds(prods, schedule, j, inputs).pending
    requires id in Rounds(prods, schedule, j, inputs).pending
    ensures NeverSucceeds(prods, schedule, inputs, id)
  {
    forall k: nat ensures id in Rounds(prods, schedule, k, inputs).pending {
      if k <= j {
        RoundsShrink(prods, schedule, k, j, inputs);
      } else {
        RoundsStay(prods, schedule, j, k, inputs);
      }
    }
  }

  lemma RoundShrinks(prods: Producers, schedule: seq<ArtifactId>, k: nat, inputs: State)
    requires forall id :: id in schedule ==> id in prods
    ensures var g, h := Rounds(prods, schedule, k, inputs).pending, Rounds(prods, schedule, k + 1, inputs).pending;
            h == g || |h| < |g|
  {
    var g, h := Rounds(prods, schedule, k, inputs).pending, Rounds(prods, schedule, k + 1, inputs).pending;
    SweepFrame(prods, schedule, |schedule|, Rounds(prods, schedule, k, inputs));
    if h != g {
      SmallerSet(h, g);
    }
  }

  ghost predicate StallsAt(prods: Producers, schedule: seq<ArtifactId>, j: nat, inputs: State)
    requires forall id :: id in schedule ==> id in prods
  {
    Rounds(prods, schedule, j + 1, inputs).pending == Rounds(prods, schedule, j, inputs).pending
  }

  /** Each sweep makes progress or none does from then on; so as many sweeps as producers suffice. */
  lemma {:induction false} RoundsSettle(prods: Producers, schedule: seq<ArtifactId>, k: nat,
                                        inputs: State) returns (j: nat)
    requires forall id :: id in schedule ==> id in prods
    ensures j <= k
    ensures StallsAt(prods, schedule, j, inputs) || |Rounds(prods, schedule, k, inputs).pending| + k <= |prods|
  {
    if k == 0 {
      j := 0;
      assert |prods.Keys| == |prods|;
    } else {
      j := RoundsSettle(prods, schedule, k - 1, inputs);
      RoundShrinks(prods, schedule, k - 1, inputs);
      if StallsAt(prods, schedule, k - 1, inputs) {
        j := k - 1;
      }
    }
  }

  lemma SmallerSet(a: set<ArtifactId>, b: set<ArtifactId>)
    requires a < b
    ensures |a| < |b|
  {
    assert b == a + (b - a);
    assert |b - a| > 0;
  }

  /** What is pending after more sweeps than producers never succeeds. */
  lemma TooManyRounds(prods: Producers, schedule: seq<ArtifactId>, k: nat, inputs: State, id: ArtifactId)
    requires k > |prods| && forall x :: x in schedule ==> x in prods
    requires id in Rounds(prods, schedule, k, inputs).pending
    ensures NeverSucceeds(prods, schedule, inputs, id)
  {
    var j := RoundsSettle(prods, schedule, k, inputs);
    RoundsShrink(prods, schedule, j, k, inputs);
    StalledForGood(prods, schedule, j, inputs, id);
  }

  /** Full rebuild. It fails only for a producer that no number of sweeps would bring to succeed. For
      local producers it succeeds exactly when the graph is acyclic and a consistent state exists,
      and then returns that state. */
  method FullRecompute(f: Forward, prods: Producers, inputs: State)
    returns (r: Result<RecomputeResult, InvalidationError>, ghost schedule: seq<ArtifactId>,
      ghost order: seq<ArtifactId>)
    ensures HasCycle(Edges(f)) ==> r.Err? && r.error.Cycle?
    ensures !HasCycle(Edges(f)) ==> IsTopologicalOrder(f, order)
    ensures !HasCycle(Edges(f)) && prods.Keys <= Nodes(f) ==> schedule == Planned(order, prods.Keys)
    ensures !HasCycle(Edges(f)) ==> IsSchedule(f, prods, schedule) && IsOutcome(prods, schedule, inputs, r)
    ensures r.Ok? ==> r.value.recomputed == prods.Keys && r.value.state.Keys == inputs.Keys + prods.Keys
    ensures r.Ok? ==> forall k :: k in inputs && k !in prods ==> r.value.state[k] == inputs[k]
    ensures Local(f, prods) && !HasCycle(Edges(f)) ==> (r.Ok? <==> Rebuildable(prods, inputs))
    ensures Local(f, prods) && r.Ok? ==> Consistent(prods, inputs, r.value.state)
  {
    schedule, order := [], [];
    var sorted := Kahn(f);
    if sorted.Err? {
      return Err(sorted.error), [], [];
    }
    order := sorted.value;
    var plan := MakeSchedule(f, prods, sorted.value);
    schedule := plan;
    r := Saturate(f, prods, inputs, plan);
  }

  /** The state after some number of sweeps that left nothing pending. */
  ghost predicate Rebuilt(prods: Producers, schedule: seq<ArtifactId>, inputs: State, c: State)
    requires forall id :: id in schedule ==> id in prods
  {
    exists k: nat :: Rounds(prods, schedule, k, inputs).pending == {} && Rounds(prods, schedule, k, inputs).state == c
  }

  /** A rebuilt state, or a producer that never succeeds. */
  ghost predicate IsOutcome(prods: Producers, schedule: seq<ArtifactId>, inputs: State,
                            r: Result<RecomputeResult, InvalidationError>) {
    && (forall id :: id in schedule ==> id in prods)
    && (r.Ok? ==> Rebuilt(prods, schedule, inputs, r.value.state))
    && (r.Err? ==>
          r.error.MissingProducer? && r.error.id in prods && NeverSucceeds(prods, schedule, inputs, r.error.id))
  }

  method Saturate(ghost f: Forward, prods: Producers, inputs: State, schedule: seq<ArtifactId>)
    returns (r: Result<RecomputeResult, InvalidationError>)
    requires IsSchedule(f, prods, schedule) && forall id :: id in schedule ==> id in prods
    ensures IsOutcome(prods, schedule, inputs, r)
    ensures r.Ok? ==> r.value.recomputed == prods.Keys && r.value.state.Keys == inputs.Keys + prods.Keys
    ensures r.Ok? ==> forall k :: k in inputs && k !in prods ==> r.value.state[k] == inputs[k]
    ensures Local(f, prods) ==> (r.Ok? <==> Rebuildable(prods, inputs))
    ensures Local(f, prods) && r.Ok? ==> Consistent(prods, inputs, r.value.state)
  {
    var g, stuck, k := Iterate(prods, inputs, schedule);
    RoundsFramed(prods, inputs, schedule, k);
    if Local(f, prods) && k > 0 {
      RoundsDecided(f, prods, inputs, schedule, k);
    }
    r := if stuck.Some? then Err(MissingProducer(stuck.value)) else Ok(RecomputeResult(g.state, g.recomputed));
  }

  /** Sweep until nothing is pending or nothing can change. */
  method Iterate(prods: Producers, inputs: State, schedule: seq<ArtifactId>)
    returns (g: Progress, stuck: Option<ArtifactId>, ghost k: nat)
    requires forall id :: id in schedule ==> id in prods
    ensures g == Rounds(prods, schedule, k, inputs)
    ensures stuck.None? ==> g.pending == {}
    ensures stuck.Some? ==> k > 0 && stuck.value in g.pending && NeverSucceeds(prods, schedule, inputs, stuck.value)
  {
    g, stuck, k := Progress(inputs, prods.Keys, {}), None, 0;
    var guard := 0;
    while g.pending != {}
      invariant 0 <= guard <= |prods| + 2 && guard == k && g == Rounds(prods, schedule, k, inputs)
      invariant stuck.None?
      decreases |prods| + 2 - guard
    {
      guard := guard + 1;
      if guard > |prods| + 2 {
        var id :| id in g.pending;
        TooManyRounds(prods, schedule, k, inputs, id);
        stuck := Some(id);
        return;
      }
      var progressed;
      g, progressed := RunSweep(prods, schedule, g);
      k := k + 1;
      if !progressed {
        var id :| id in g.pending;
        StalledForGood(prods, schedule, k - 1, inputs, id);
        stuck := Some(id);
        return;
      }
    }
  }

  lemma {:induction false} RoundsFramed(prods: Producers, inputs: State, schedule: seq<ArtifactId>, k: nat)
    requires forall id :: id in schedule ==> id in prods
    ensures Framed(prods, inputs, Rounds(prods, schedule, k, inputs))
  {
    if k > 0 {
      RoundsFramed(prods, inputs, schedule, k - 1);
      FramedSweep(prods, inputs, schedule, Rounds(prods, schedule, k - 1, inputs));
    }
  }

  /** For local producers the verdict stands from the first sweep on. */
  lemma {:induction false} RoundsDecided(f: Forward, prods: Producers, inputs: State, schedule: seq<ArtifactId>, k: nat)
    requires Local(f, prods) && IsSchedule(f, prods, schedule) && (forall id :: id in schedule ==> id in prods) && k > 0
    ensures Decided(f, prods, inputs, Rounds(prods, schedule, k, inputs))
  {
    var g := Rounds(prods, schedule, k - 1, inputs);
    if k == 1 {
      FirstSweepDecides(f, prods, inputs, schedule);
    } else {
      RoundsDecided(f, prods, inputs, schedule, k - 1);
      if g.pending == {} {
        SweepFrame(prods, schedule, |schedule|, g);
        NoProgressNoChange(prods, schedule, |schedule|, g);
      } else {
        var id :| Blocked(f, prods, g, id);
        BlockedStaysBlocked(f, prods, schedule, |schedule|, g, id);
      }
    }
  }

  ghost predicate Framed(prods: Producers, inputs: State, g: Progress) {
    && g.pending <= prods.Keys && g.recomputed == prods.Keys - g.pending
    && g.state.Keys == inputs.Keys + g.recomputed
    && (forall k :: k in inputs && k !in prods ==> g.state[k] == inputs[k])
    && (prods.Keys == {} ==> Consistent(prods, inputs, g.state))
  }

  lemma FramedSweep(prods: Producers, inputs: State, schedule: seq<ArtifactId>, g: Progress)
    requires Framed(prods, inputs, g) && forall id :: id in schedule ==> id in prods
    ensures Framed(prods, inputs, Sweep(prods, schedule, |schedule|, g))
  {
    SweepFrame(prods, schedule, |schedule|, g);
  }

  /** Enough for a rebuild: producers succeed whenever everything they read is present, and every
      plain input they read is given. */
  lemma PresentInputsRebuild(f: Forward, prods: Producers, inputs: State, schedule: seq<ArtifactId>)
    requires Local(f, prods) && IsSchedule(f, prods, schedule)
    requires forall id :: id in schedule ==> id in prods
    requires forall id, s: State :: id in prods && Preds(f, id) <= s.Keys ==> prods[id](s).Some?
    requires forall id :: id in prods ==> Preds(f, id) <= inputs.Keys + prods.Keys
    ensures Rebuildable(prods, inputs)
  {
    var g := Progress(inputs, prods.Keys, {});
    var h := Sweep(prods, schedule, |schedule|, g);
    FirstSweepDecides(f, prods, inputs, schedule);
    SweepFrame(prods, schedule, |schedule|, g);
    assert forall id :: id in prods && Preds(f, id) !! h.pending ==> Preds(f, id) <= h.state.Keys;
  }

  // ----- producers that read their own artifact -----------------------------------------------

  /** Every producer that is pending still has the value handed in. */
  ghost predicate OwnPending(inputs: State, g: Progress) {
    forall id :: id in g.pending ==> Lookup(g.state, id) == Lookup(inputs, id)
  }

  /** The state as `id` finds it in its turn: its own value is the one handed in. */
  ghost function InTurnOf(s: State, inputs: State, id: ArtifactId): State {
    if id in inputs then s[id := inputs[id]] else s - {id}
  }

  /** The same producers, each shown its own value as it was handed in. */
  ghost function Primed(prods: Producers, inputs: State): Producers {
    map id | id in prods :: (s: State) => prods[id](InTurnOf(s, inputs, id))
  }

  lemma AttemptPrimed(prods: Producers, inputs: State, id: ArtifactId, g: Progress)
    requires id in prods && OwnPending(inputs, g)
    ensures Attempt(prods, id, g) == Attempt(Primed(prods, inputs), id, g) && OwnPending(inputs, Attempt(prods, id, g))
  {
    if id in g.pending {
      assert InTurnOf(g.state, inputs, id) == g.state;
    }
  }

  lemma {:induction false} SweepPrimed(prods: Producers, inputs: State, schedule: seq<ArtifactId>, n: nat, g: Progress)
    requires n <= |schedule| && (forall id :: id in schedule ==> id in prods) && OwnPending(inputs, g)
    ensures Sweep(prods, schedule, n, g) == Sweep(Primed(prods, inputs), schedule, n, g)
    ensures OwnPending(inputs, Sweep(prods, schedule, n, g))
  {
    if n > 0 {
      SweepPrimed(prods, inputs, schedule, n - 1, g);
      AttemptPrimed(prods, inputs, schedule[n - 1], Sweep(prods, schedule, n - 1, g));
    }
  }

  lemma {:induction false} RoundsPrimed(prods: Producers, inputs: State, schedule: seq<ArtifactId>, k: nat)
    requires forall id :: id in schedule ==> id in prods
    ensures Rounds(prods, schedule, k, inputs) == Rounds(Primed(prods, inputs), schedule, k, inputs)
    ensures OwnPending(inputs, Rounds(prods, schedule, k, inputs))
  {
    if k > 0 {
      RoundsPrimed(prods, inputs, schedule, k - 1);
      SweepPrimed(prods, inputs, schedule, |schedule|, Rounds(prods, schedule, k - 1, inputs));
    }
  }

  /** Each value is what its producer computes in its turn, from the other values and its own as it
      was handed in. */
  ghost predicate IsRebuild(prods: Producers, inputs: State, c: State) {
    Consistent(Primed(prods, inputs), inputs, c)
  }

  ghost predicate HasRebuild(prods: Producers, inputs: State) {
    exists c: State :: IsRebuild(prods, inputs, c)
  }

  lemma RebuildFrom(prods: Producers, inputs: State, c: State)
    requires c.Keys == inputs.Keys + prods.Keys && forall k :: k in inputs && k !in prods ==> c[k] == inputs[k]
    requires forall id :: id in prods ==> prods[id](InTurnOf(c, inputs, id)) == Some(c[id])
    ensures IsRebuild(prods, inputs, c)
  {
  }

  lemma RebuildTo(prods: Producers, inputs: State, c: State)
    requires IsRebuild(prods, inputs, c)
    ensures c.Keys == inputs.Keys + prods.Keys && forall k :: k in inputs && k !in prods ==> c[k] == inputs[k]
    ensures forall id :: id in prods ==> prods[id](InTurnOf(c, inputs, id)) == Some(c[id])
  {
    forall id | id in prods ensures prods[id](InTurnOf(c, inputs, id)) == Some(c[id]) {
      assert Primed(prods, inputs)[id](c) == Some(c[id]);
    }
  }

  lemma OthersOnly(prods: Producers, uses: Uses, inputs: State, c: State, id: ArtifactId)
    requires ReadsOnly(prods, uses) && id in uses && id !in uses[id]
    ensures prods[id](InTurnOf(c, inputs, id)) == prods[id](c)
  {
    assert AgreeOn(InTurnOf(c, inputs, id), c, uses[id]);
  }

  /** Where no producer reads its own artifact, that is consistency. */
  lemma RebuildIsConsistent(prods: Producers, uses: Uses, inputs: State, c: State)
    requires ReadsOnly(prods, uses) && forall id :: id in uses ==> id !in uses[id]
    ensures IsRebuild(prods, inputs, c) <==> Consistent(prods, inputs, c)
  {
    if IsRebuild(prods, inputs, c) {
      RebuildTo(prods, inputs, c);
      forall id | id in prods ensures prods[id](c) == Some(c[id]) {
        OthersOnly(prods, uses, inputs, c, id);
      }
    }
    if Consistent(prods, inputs, c) {
      forall id | id in prods ensures prods[id](InTurnOf(c, inputs, id)) == Some(c[id]) {
        OthersOnly(prods, uses, inputs, c, id);
      }
      RebuildFrom(prods, inputs, c);
    }
  }

  // ----- one sweep suffices where producers come before their readers -------------------------

  /** Every producer comes after the other producers it reads. */
  ghost predicate ReadsFirst(order: seq<ArtifactId>, uses: Uses) {
    forall j, a :: 0 <= j < |order| && order[j] in uses && a in uses[order[j]] && a in uses && a != order[j] ==>
      a in order[..j]
  }

  /** From each artifact to its readers, other than itself. */
  ghost function ReadGraph(uses: Uses): Forward {
    var read := set b, a | b in uses && a in uses[b] :: a;
    map a | a in read :: set b | b in uses && a in uses[b] && a != b
  }

  lemma ReadPreds(uses: Uses, b: ArtifactId)
    requires b in uses
    ensures Preds(ReadGraph(uses), b) == uses[b] - {b}
  {
  }

  lemma PrimedIsLocal(prods: Producers, uses: Uses, inputs: State)
    requires ReadsOnly(prods, uses)
    ensures Local(ReadGraph(uses), Primed(prods, inputs))
  {
    var primed := Primed(prods, inputs);
    forall id, s: State, t: State | id in primed && AgreeOn(s, t, Preds(ReadGraph(uses), id))
      ensures primed[id](s) == primed[id](t)
    {
      ReadPreds(uses, id);
      forall k | k in uses[id] && k != id ensures Lookup(s, k) == Lookup(t, k) {
        assert k in Preds(ReadGraph(uses), id);
      }
      assert AgreeOn(InTurnOf(s, inputs, id), InTurnOf(t, inputs, id), uses[id]);
    }
  }

  lemma PlannedIsSchedule(order: seq<ArtifactId>, uses: Uses, prods: Producers)
    requires Distinct(order) && ReadsFirst(order, uses) && prods.Keys == uses.Keys <= Elems(order)
    ensures IsSchedule(ReadGraph(uses), prods, Planned(order, uses.Keys))
    ensures forall id :: id in Planned(order, uses.Keys) ==> id in prods
  {
    var schedule := Planned(order, uses.Keys);
    PlannedElems(order, uses.Keys);
    assert forall id :: id in schedule ==> id in Elems(schedule);
    forall i | 0 <= i < |schedule| ensures Preds(ReadGraph(uses), schedule[i]) * prods.Keys <= Elems(schedule[..i]) {
      PlannedReads(order, uses, i);
      ReadPreds(uses, schedule[i]);
    }
  }

  lemma PlannedReads(order: seq<ArtifactId>, uses: Uses, i: nat)
    requires Distinct(order) && ReadsFirst(order, uses) && i < |Planned(order, uses.Keys)|
    ensures var schedule := Planned(order, uses.Keys);
      schedule[i] in uses && (uses[schedule[i]] - {schedule[i]}) * uses.Keys <= Elems(schedule[..i])
  {
    var j := PlannedAt(order, uses.Keys, i);
    PlannedElems(order, uses.Keys);
    assert order[j] in Elems(Planned(order, uses.Keys));
    forall a | a in uses[order[j]] && a in uses && a != order[j] ensures a in Elems(order[..j]) {
      assert a in order[..j];
    }
  }

  /** Then the sweeps find exactly the rebuild. */
  lemma RebuiltIff(order: seq<ArtifactId>, uses: Uses, prods: Producers, inputs: State, c: State)
    requires Distinct(order) && ReadsFirst(order, uses) && ReadsOnly(prods, uses) && uses.Keys <= Elems(order)
    ensures forall id :: id in Planned(order, uses.Keys) ==> id in prods
    ensures Rebuilt(prods, Planned(order, uses.Keys), inputs, c) <==> IsRebuild(prods, inputs, c)
  {
    var schedule, primed, f := Planned(order, uses.Keys), Primed(prods, inputs), ReadGraph(uses);
    PlannedIsSchedule(order, uses, prods);
    PrimedIsLocal(prods, uses, inputs);
    if Rebuilt(prods, schedule, inputs, c) {
      var k: nat :| Rounds(prods, schedule, k, inputs).pending == {} && Rounds(prods, schedule, k, inputs).state == c;
      RoundsPrimed(prods, inputs, schedule, k);
      RoundsFramed(primed, inputs, schedule, k);
      if k > 0 {
        RoundsDecided(f, primed, inputs, schedule, k);
      }
    }
    if IsRebuild(prods, inputs, c) {
      RoundsPrimed(prods, inputs, schedule, 1);
      RoundsDecided(f, primed, inputs, schedule, 1);
      ConsistentIsUnique(f, primed, inputs, schedule, c, Rounds(primed, schedule, 1, inputs).state);
    }
  }
}
