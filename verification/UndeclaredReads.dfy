/** The full rebuild when producers read more than the graph declares, and wait for what they read. */
module UndeclaredReads {
  import opened Digraph
  import opened Invalidation
  import opened Recompute
  import opened Wrappers

  /** A producer succeeds exactly when everything it reads is present. */
  ghost predicate Waits(prods: Producers, uses: Uses) {
    && uses.Keys == prods.Keys
    && forall id, s: State {:trigger prods[id](s)} :: id in prods ==> (prods[id](s).Some? <==> uses[id] <= s.Keys)
  }

  /** Reads among producers go down in rank. */
  ghost predicate IsRanked(uses: Uses, rank: map<ArtifactId, nat>) {
    && rank.Keys == uses.Keys
    && forall id, r :: id in uses && r in uses[id] && r in uses ==> rank[r] < rank[id]
  }

  // ----- who finishes when --------------------------------------------------------------------

  /** Everything `id` reads is given or no longer pending. */
  predicate HasReads(uses: Uses, given: set<ArtifactId>, pending: set<ArtifactId>, id: ArtifactId) {
    id in uses && uses[id] <= given + (uses.Keys - pending)
  }

  /** The sweep by presence alone: a pending producer is done once everything it reads is there. */
  function DrySweep(uses: Uses, given: set<ArtifactId>, schedule: seq<ArtifactId>, n: nat, pending: set<ArtifactId>)
    : set<ArtifactId>
    requires n <= |schedule|
  {
    if n == 0 then pending
    else
      var rest := DrySweep(uses, given, schedule, n - 1, pending);
      if HasReads(uses, given, rest, schedule[n - 1]) then rest - {schedule[n - 1]} else rest
  }

  function DryRounds(uses: Uses, given: set<ArtifactId>, schedule: seq<ArtifactId>, k: nat): set<ArtifactId> {
    if k == 0 then uses.Keys else DrySweep(uses, given, schedule, |schedule|, DryRounds(uses, given, schedule, k - 1))
  }

  /** What is pending before the `n`-th attempt of the sweep after the first `k`. */
  function DryAt(uses: Uses, given: set<ArtifactId>, schedule: seq<ArtifactId>, k: nat, n: nat): set<ArtifactId>
    requires n <= |schedule|
  {
    DrySweep(uses, given, schedule, n, DryRounds(uses, given, schedule, k))
  }

  /** What `prods` have left is what presence alone says. */
  ghost predicate Matches(uses: Uses, inputs: State, g: Progress, pending: set<ArtifactId>) {
    g.pending == pending && pending <= uses.Keys && g.state.Keys == inputs.Keys + (uses.Keys - pending)
  }

  lemma {:induction false} SweepIsDry(prods: Producers, uses: Uses, inputs: State, schedule: seq<ArtifactId>, n: nat,
                                      g: Progress, pending: set<ArtifactId>)
    requires Waits(prods, uses) && n <= |schedule| && (forall id :: id in schedule ==> id in prods)
    requires Matches(uses, inputs, g, pending)
    ensures Matches(uses, inputs, Sweep(prods, schedule, n, g), DrySweep(uses, inputs.Keys, schedule, n, pending))
  {
    if n > 0 {
      SweepIsDry(prods, uses, inputs, schedule, n - 1, g, pending);
      var id, h := schedule[n - 1], Sweep(prods, schedule, n - 1, g);
      assert id in h.pending ==> (prods[id](h.state).Some? <==> uses[id] <= h.state.Keys);
    }
  }

  lemma {:induction false} RoundsAreDry(prods: Producers, uses: Uses, inputs: State, schedule: seq<ArtifactId>, k: nat)
    requires Waits(prods, uses) && forall id :: id in schedule ==> id in prods
    ensures Matches(uses, inputs, Rounds(prods, schedule, k, inputs), DryRounds(uses, inputs.Keys, schedule, k))
  {
    if k > 0 {
      RoundsAreDry(prods, uses, inputs, schedule, k - 1);
      SweepIsDry(prods, uses, inputs, schedule, |schedule|, Rounds(prods, schedule, k - 1, inputs),
                 DryRounds(uses, inputs.Keys, schedule, k - 1));
    }
  }

  // ----- nothing stale is read ----------------------------------------------------------------

  /** If the `n`-th attempt of the sweep after the first `k` succeeds, nothing it reads is pending. */
  ghost predicate FreshAt(uses: Uses, given: set<ArtifactId>, schedule: seq<ArtifactId>, k: nat, n: nat) {
    n < |schedule| ==>
      var pending := DryAt(uses, given, schedule, k, n);
      schedule[n] in pending && HasReads(uses, given, pending, schedule[n]) ==> uses[schedule[n]] !! pending
  }

  ghost predicate ReadsFresh(uses: Uses, given: set<ArtifactId>, schedule: seq<ArtifactId>) {
    forall k: nat, n: nat {:trigger FreshAt(uses, given, schedule, k, n)} :: FreshAt(uses, given, schedule, k, n)
  }

  ghost predicate Finishes(uses: Uses, given: set<ArtifactId>, schedule: seq<ArtifactId>) {
    exists k: nat :: DryRounds(uses, given, schedule, k) == {}
  }

  /** What has been produced was produced from what the state still holds, and will hold. */
  ghost predicate Faithful(prods: Producers, uses: Uses, g: Progress) {
    forall id :: id in prods && id in uses && id !in g.pending ==>
      id in g.state && prods[id](g.state) == Some(g.state[id]) && uses[id] !! g.pending
  }

  lemma AttemptFaithful(prods: Producers, uses: Uses, g: Progress, id: ArtifactId)
    requires ReadsOnly(prods, uses) && Faithful(prods, uses, g) && id in prods && g.pending <= prods.Keys
    requires id in g.pending && prods[id](g.state).Some? ==> uses[id] !! g.pending
    ensures Faithful(prods, uses, Attempt(prods, id, g))
  {
    var h := Attempt(prods, id, g);
    if id in g.pending && prods[id](g.state).Some? {
      forall x | x in prods && x !in h.pending ensures prods[x](h.state) == Some(h.state[x]) && uses[x] !! h.pending {
        assert uses[x] !! g.pending;
        assert AgreeOn(g.state, h.state, uses[x]);
      }
    }
  }

  lemma {:induction false} SweepFaithful(prods: Producers, uses: Uses, inputs: State, schedule: seq<ArtifactId>,
                                         k: nat, n: nat)
    requires ReadsOnly(prods, uses) && Waits(prods, uses) && ReadsFresh(uses, inputs.Keys, schedule)
    requires n <= |schedule| && (forall id :: id in schedule ==> id in prods)
    requires Faithful(prods, uses, Rounds(prods, schedule, k, inputs))
    ensures Faithful(prods, uses, Sweep(prods, schedule, n, Rounds(prods, schedule, k, inputs)))
  {
    if n > 0 {
      var g := Rounds(prods, schedule, k, inputs);
      SweepFaithful(prods, uses, inputs, schedule, k, n - 1);
      RoundsAreDry(prods, uses, inputs, schedule, k);
      SweepIsDry(prods, uses, inputs, schedule, n - 1, g, DryRounds(uses, inputs.Keys, schedule, k));
      assert FreshAt(uses, inputs.Keys, schedule, k, n - 1);
      AttemptFaithful(prods, uses, Sweep(prods, schedule, n - 1, g), schedule[n - 1]);
    }
  }

  lemma {:induction false} RoundsFaithful(prods: Producers, uses: Uses, inputs: State, schedule: seq<ArtifactId>,
                                          k: nat)
    requires ReadsOnly(prods, uses) && Waits(prods, uses) && ReadsFresh(uses, inputs.Keys, schedule)
    requires forall id :: id in schedule ==> id in prods
    ensures Faithful(prods, uses, Rounds(prods, schedule, k, inputs))
  {
    if k > 0 {
      RoundsFaithful(prods, uses, inputs, schedule, k - 1);
      SweepFaithful(prods, uses, inputs, schedule, k - 1, |schedule|);
    }
  }

  /** Where the dry run finishes and nothing stale is read, the rebuild succeeds and is consistent. */
  lemma FreshRebuild(prods: Producers, uses: Uses, inputs: State, schedule: seq<ArtifactId>,
                     r: Result<RecomputeResult, InvalidationError>)
    requires ReadsOnly(prods, uses) && Waits(prods, uses) && IsOutcome(prods, schedule, inputs, r)
    requires Finishes(uses, inputs.Keys, schedule) && ReadsFresh(uses, inputs.Keys, schedule)
    ensures r.Ok? && Consistent(prods, inputs, r.value.state)
  {
    var k: nat :| DryRounds(uses, inputs.Keys, schedule, k) == {};
    RoundsAreDry(prods, uses, inputs, schedule, k);
    assert Rounds(prods, schedule, k, inputs).pending == {};
    var n: nat :| Rounds(prods, schedule, n, inputs).pending == {} &&
      Rounds(prods, schedule, n, inputs).state == r.value.state;
    RoundsFaithful(prods, uses, inputs, schedule, n);
    RoundsFramed(prods, inputs, schedule, n);
  }

  // ----- acyclic reads finish -----------------------------------------------------------------

  lemma {:induction false} LowestRank(ids: set<ArtifactId>, rank: map<ArtifactId, nat>) returns (least: ArtifactId)
    requires ids != {} && ids <= rank.Keys
    ensures least in ids && forall x :: x in ids ==> rank[least] <= rank[x]
  {
    var x :| x in ids;
    least := x;
    assert ids == {x} + (ids - {x});
    if ids - {x} != {} {
      var y := LowestRank(ids - {x}, rank);
      assert forall z :: z in ids ==> z == x || z in ids - {x};
      if rank[y] < rank[x] {
        least := y;
      }
    }
  }

  /** While anything is pending, the lowest pending producer has all it reads and succeeds. */
  lemma NoneIsStuck(prods: Producers, uses: Uses, rank: map<ArtifactId, nat>, inputs: State, schedule: seq<ArtifactId>,
                    k: nat)
    requires ReadsOnly(prods, uses) && Waits(prods, uses) && IsRanked(uses, rank)
    requires Elems(schedule) == prods.Keys && forall id :: id in schedule ==> id in prods
    requires forall id :: id in uses ==> uses[id] <= inputs.Keys + prods.Keys
    requires Rounds(prods, schedule, k, inputs).pending != {}
    ensures !StallsAt(prods, schedule, k, inputs)
  {
    var g := Rounds(prods, schedule, k, inputs);
    RoundsFramed(prods, inputs, schedule, k);
    var id := LowestRank(g.pending, rank);
    assert uses[id] <= g.state.Keys;
    assert id in Elems(schedule);
    var j :| 0 <= j < |schedule| && schedule[j] == id;
    assert prods[id](g.state).Some?;
    if StallsAt(prods, schedule, k, inputs) {
      NoProgressNoChange(prods, schedule, |schedule|, g);
      assert false;
    }
  }

  lemma AllFinish(prods: Producers, uses: Uses, rank: map<ArtifactId, nat>, inputs: State, schedule: seq<ArtifactId>)
    requires ReadsOnly(prods, uses) && Waits(prods, uses) && IsRanked(uses, rank)
    requires Elems(schedule) == prods.Keys && forall id :: id in schedule ==> id in prods
    requires forall id :: id in uses ==> uses[id] <= inputs.Keys + prods.Keys
    ensures Rounds(prods, schedule, |prods| + 1, inputs).pending == {}
  {
    var j := RoundsSettle(prods, schedule, |prods| + 1, inputs);
    if Rounds(prods, schedule, j, inputs).pending != {} {
      NoneIsStuck(prods, uses, rank, inputs, schedule, j);
    }
    RoundsShrink(prods, schedule, j, |prods| + 1, inputs);
  }

  /** No producer reads a producer whose value is handed in. */
  ghost predicate NoneHandedIn(uses: Uses, given: set<ArtifactId>) {
    forall b, a :: b in uses && a in uses[b] && a in uses ==> a !in given
  }

  /** A missing influence edge does not spoil the full rebuild: producers that wait for what they
      really read, along any acyclic read relation, are all rebuilt to a consistent state. */
  lemma UndeclaredReadsRebuild(prods: Producers, uses: Uses, rank: map<ArtifactId, nat>, inputs: State,
                               schedule: seq<ArtifactId>, r: Result<RecomputeResult, InvalidationError>)
    requires ReadsOnly(prods, uses) && Waits(prods, uses) && IsRanked(uses, rank) && NoneHandedIn(uses, inputs.Keys)
    requires Elems(schedule) == prods.Keys && forall id :: id in uses ==> uses[id] <= inputs.Keys + prods.Keys
    requires IsOutcome(prods, schedule, inputs, r)
    ensures r.Ok? && Consistent(prods, inputs, r.value.state)
  {
    AllFinish(prods, uses, rank, inputs, schedule);
    RoundsAreDry(prods, uses, inputs, schedule, |prods| + 1);
    forall k: nat, n: nat ensures FreshAt(uses, inputs.Keys, schedule, k, n) {
      if n < |schedule| {
        RoundsAreDry(prods, uses, inputs, schedule, k);
        SweepIsDry(prods, uses, inputs, schedule, n, Rounds(prods, schedule, k, inputs),
                   DryRounds(uses, inputs.Keys, schedule, k));
      }
    }
    FreshRebuild(prods, uses, inputs, schedule, r);
  }

  // ----- a stale value that is handed in ------------------------------------------------------

  /** Whatever the producers with these reads compute, and whatever is handed in for `given`, the
      rebuild succeeds and is consistent. */
  ghost predicate AlwaysRebuilds(uses: Uses, given: set<ArtifactId>, schedule: seq<ArtifactId>) {
    forall prods: Producers, inputs: State, r: Result<RecomputeResult, InvalidationError>
      {:trigger ReadsOnly(prods, uses), IsOutcome(prods, schedule, inputs, r)} ::
      ReadsOnly(prods, uses) && Waits(prods, uses) && inputs.Keys == given && IsOutcome(prods, schedule, inputs, r) ==>
      r.Ok? && Consistent(prods, inputs, r.value.state)
  }

  /** Waiting producers: `b` answers by what it finds for `a`, all others give nothing. */
  function Flipping(uses: Uses, a: ArtifactId, b: ArtifactId): Producers {
    map id | id in uses ::
      (s: State) => if !(uses[id] <= s.Keys) then None
                    else if id == b && a in s then Some(if s[a] == [0] then [1] else [0])
                    else Some([])
  }

  lemma FlippingWaits(uses: Uses, a: ArtifactId, b: ArtifactId)
    requires b in uses && a in uses[b]
    ensures ReadsOnly(Flipping(uses, a, b), uses) && Waits(Flipping(uses, a, b), uses)
  {
    var prods := Flipping(uses, a, b);
    forall id, s: State, u: State | id in prods && AgreeOn(s, u, uses[id]) ensures prods[id](s) == prods[id](u) {
      assert forall k :: k in uses[id] ==> Lookup(s, k) == Lookup(u, k);
      assert uses[id] <= s.Keys <==> uses[id] <= u.Keys;
      if id == b {
        assert Lookup(s, a) == Lookup(u, a);
      }
    }
  }

  lemma FlippedIsInconsistent(uses: Uses, a: ArtifactId, b: ArtifactId, inputs: State, c: State)
    requires b in uses && a in uses && a in uses[b] && b in c && c[b] == [1]
    ensures !Consistent(Flipping(uses, a, b), inputs, c)
  {
    var prods := Flipping(uses, a, b);
    if prods[b](c) == Some(c[b]) && a != b && a in c {
      assert c[a] == [0];
      assert prods[a](c) != Some(c[a]);
    }
  }

  lemma {:induction false} DoneStays(prods: Producers, schedule: seq<ArtifactId>, m: nat, n: nat, g: Progress,
                                     b: ArtifactId)
    requires m <= n <= |schedule| && forall x :: x in schedule ==> x in prods
    requires b !in Sweep(prods, schedule, m, g).pending
    ensures b !in Sweep(prods, schedule, n, g).pending
    ensures Lookup(Sweep(prods, schedule, n, g).state, b) == Lookup(Sweep(prods, schedule, m, g).state, b)
    decreases n
  {
    if m < n {
      DoneStays(prods, schedule, m, n - 1, g, b);
    }
  }

  lemma {:induction false} DoneForGood(prods: Producers, schedule: seq<ArtifactId>, j: nat, k: nat, inputs: State,
                                       b: ArtifactId)
    requires j <= k && forall x :: x in schedule ==> x in prods
    requires b !in Rounds(prods, schedule, j, inputs).pending
    ensures b !in Rounds(prods, schedule, k, inputs).pending
    ensures Lookup(Rounds(prods, schedule, k, inputs).state, b) == Lookup(Rounds(prods, schedule, j, inputs).state, b)
    decreases k
  {
    if j < k {
      DoneForGood(prods, schedule, j, k - 1, inputs, b);
      DoneStays(prods, schedule, 0, |schedule|, Rounds(prods, schedule, k - 1, inputs), b);
    }
  }

  /** The reader that is done while `a` is pending took the value of `a` that was handed in. */
  lemma ReaderTakesStale(uses: Uses, inputs: State, schedule: seq<ArtifactId>, k: nat, n: nat, a: ArtifactId)
    requires n < |schedule| && (forall x :: x in schedule ==> x in uses)
    requires forall x :: x in inputs ==> inputs[x] == [0]
    requires var pending := DryAt(uses, inputs.Keys, schedule, k, n);
      schedule[n] in pending && HasReads(uses, inputs.Keys, pending, schedule[n]) && a in uses[schedule[n]] &&
        a in pending
    ensures var prods := Flipping(uses, a, schedule[n]);
      var g := Rounds(prods, schedule, k + 1, inputs);
      a in uses && schedule[n] !in g.pending && Lookup(g.state, schedule[n]) == Some([1])
  {
    var b, prods := schedule[n], Flipping(uses, a, schedule[n]);
    var g := Rounds(prods, schedule, k, inputs);
    FlippingWaits(uses, a, b);
    RoundsAreDry(prods, uses, inputs, schedule, k);
    SweepIsDry(prods, uses, inputs, schedule, n, g, DryRounds(uses, inputs.Keys, schedule, k));
    RoundsPrimed(prods, inputs, schedule, k);
    SweepPrimed(prods, inputs, schedule, n, g);
    var h := Sweep(prods, schedule, n, g);
    assert a in h.pending && Lookup(h.state, a) == Lookup(inputs, a) == Some([0]);
    assert Sweep(prods, schedule, n + 1, g) == Attempt(prods, b, h);
    DoneStays(prods, schedule, n + 1, |schedule|, g, b);
  }

  /** An attempt that succeeds while something it reads is pending: some rebuild is not consistent. */
  lemma StaleInputIsUsed(uses: Uses, given: set<ArtifactId>, schedule: seq<ArtifactId>, k: nat, n: nat)
    requires (forall x :: x in schedule ==> x in uses) && Finishes(uses, given, schedule)
    requires !FreshAt(uses, given, schedule, k, n)
    ensures !AlwaysRebuilds(uses, given, schedule)
  {
    var b, pending := schedule[n], DryAt(uses, given, schedule, k, n);
    var a :| a in uses[b] && a in pending;
    var inputs: State := map x | x in given :: [0];
    assert inputs.Keys == given;
    var prods := Flipping(uses, a, b);
    FlippingWaits(uses, a, b);
    ReaderTakesStale(uses, inputs, schedule, k, n, a);
    var m: nat :| DryRounds(uses, given, schedule, m) == {};
    var last := if m < k + 1 then k + 1 else m;
    RoundsAreDry(prods, uses, inputs, schedule, m);
    RoundsShrink(prods, schedule, m, last, inputs);
    DoneForGood(prods, schedule, k + 1, last, inputs, b);
    var c := Rounds(prods, schedule, last, inputs).state;
    FlippedIsInconsistent(uses, a, b, inputs, c);
    NotAlways(prods, uses, inputs, schedule, Ok(RecomputeResult(c, uses.Keys)));
  }

  lemma NotAlways(prods: Producers, uses: Uses, inputs: State, schedule: seq<ArtifactId>,
                  r: Result<RecomputeResult, InvalidationError>)
    requires ReadsOnly(prods, uses) && Waits(prods, uses) && IsOutcome(prods, schedule, inputs, r)
    requires r.Err? || !Consistent(prods, inputs, r.value.state)
    ensures !AlwaysRebuilds(uses, inputs.Keys, schedule)
  {
  }

  /** Waiting producers that wait for ever make the rebuild fail. */
  lemma UnfinishedFails(uses: Uses, given: set<ArtifactId>, schedule: seq<ArtifactId>)
    requires (forall x :: x in schedule ==> x in uses) && !Finishes(uses, given, schedule)
    ensures !AlwaysRebuilds(uses, given, schedule)
  {
    var prods: Producers := map id | id in uses :: (s: State) => if uses[id] <= s.Keys then Some([]) else None;
    var inputs: State := map x | x in given :: [0];
    assert inputs.Keys == given;
    forall id, s: State, u: State | id in prods && AgreeOn(s, u, uses[id]) ensures prods[id](s) == prods[id](u) {
      assert forall k :: k in uses[id] ==> Lookup(s, k) == Lookup(u, k);
      assert uses[id] <= s.Keys <==> uses[id] <= u.Keys;
    }
    var k := |prods| + 1;
    RoundsAreDry(prods, uses, inputs, schedule, k);
    var id :| id in Rounds(prods, schedule, k, inputs).pending;
    TooManyRounds(prods, schedule, k, inputs, id);
    NotAlways(prods, uses, inputs, schedule, Err(MissingProducer(id)));
  }

  /** Exactly when a missing influence edge is harmless to the full rebuild, in a given order: for all
      producers with these reads that wait for them, if and only if by presence alone all finish and
      none succeeds while something it reads is pending. */
  lemma HandedInDecides(uses: Uses, given: set<ArtifactId>, schedule: seq<ArtifactId>)
    requires forall x :: x in schedule ==> x in uses
    ensures AlwaysRebuilds(uses, given, schedule) <==>
            Finishes(uses, given, schedule) && ReadsFresh(uses, given, schedule)
  {
    if !Finishes(uses, given, schedule) {
      UnfinishedFails(uses, given, schedule);
    } else if !ReadsFresh(uses, given, schedule) {
      var k: nat, n: nat :| !FreshAt(uses, given, schedule, k, n);
      StaleInputIsUsed(uses, given, schedule, k, n);
    } else {
      forall prods: Producers, inputs: State, r: Result<RecomputeResult, InvalidationError> |
        ReadsOnly(prods, uses) && Waits(prods, uses) && inputs.Keys == given && IsOutcome(prods, schedule, inputs, r)
        ensures r.Ok? && Consistent(prods, inputs, r.value.state)
      {
        FreshRebuild(prods, uses, inputs, schedule, r);
      }
    }
  }
}
