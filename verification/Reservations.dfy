/** The reservation protocol of graphzero-reserve: agents declare, acquire and release intents over
    an append-only ledger whose records expire.

    Every locked section is one atomic step on the ledger. The clock of a step is read before the
    lock is taken, so a step may commit with a clock older than one already used. */
module Reservations {
  import opened Digraph
  import opened Wrappers

  type AgentId = string
  type RepoId = string
  type NodeRef = string

  datatype ReservationStatus = Declared | Active | Released | Expired

  datatype IntentOperation = IntentOperation(
    kind: string, targetSymbol: Option<string>, intentText: Option<string>)

  datatype IntentReservation = IntentReservation(
    reservationId: string,
    repoId: RepoId,
    agentId: AgentId,
    ttlSeconds: nat,
    status: ReservationStatus,
    createdAt: nat,
    expiresAt: nat,
    contractNodes: set<NodeRef>)

  /** The part of a footprint the protocol looks at. */
  datatype Footprint = Footprint(contractNodes: set<NodeRef>, fullyCovered: bool)

  // First eight bytes, in hex, of the SHA-256 over the intent operations and the agent. Arbitrary here.
  type IntentDigest = (AgentId, seq<IntentOperation>) -> string

  const MIN_TTL_SECONDS: nat := 60
  const DEFAULT_TTL_SECONDS: nat := 3600

  function Max(a: nat, b: nat): nat {
    if a < b then b else a
  }

  function ReservationId(digest: IntentDigest, agent: AgentId, ops: seq<IntentOperation>): string {
    "res_" + agent + "_" + digest(agent, ops)
  }

  predicate IsBlank(s: string) {
    forall c :: c in s ==> IsWhitespace(c)
  }

  // The characters of the Unicode White_Space property.
  predicate IsWhitespace(c: char) {
    var u := c as int;
    || 0x9 <= u <= 0xD || u == 0x20 || u == 0x85 || u == 0xA0 || u == 0x1680 || 0x2000 <= u <= 0x200A
    || u == 0x2028 || u == 0x2029 || u == 0x202F || u == 0x205F || u == 0x3000
  }

  datatype Step =
    | DeclareStep(agent: AgentId, ops: seq<IntentOperation>, ttl: nat, repo: RepoId, fp: Footprint, now: nat)
    | CheckStep(agent: AgentId, ops: seq<IntentOperation>, acquire: bool, ttlOpt: Option<nat>, repo: RepoId,
                fp: Footprint, now: nat)
    | ReleaseStep(agent: AgentId, id: string, now: nat)

  // ----- the ledger ---------------------------------------------------------------------------

  type Records = seq<IntentReservation>
  type Tip = map<string, IntentReservation>

  /** Last write wins, per reservation id. */
  function TipOf(rs: Records): Tip {
    if rs == [] then map[] else TipOf(rs[..|rs| - 1])[rs[|rs| - 1].reservationId := rs[|rs| - 1]]
  }

  ghost predicate IsFirstAt(rs: Records, id: string, k: int) {
    0 <= k < |rs| && rs[k].reservationId == id && forall j :: 0 <= j < k ==> rs[j].reservationId != id
  }

  ghost predicate IsLastAt(rs: Records, id: string, k: int) {
    0 <= k < |rs| && rs[k].reservationId == id && forall j :: k < j < |rs| ==> rs[j].reservationId != id
  }

  function First(rs: Records, id: string): (r: Option<IntentReservation>)
    ensures r.None? <==> forall k :: 0 <= k < |rs| ==> rs[k].reservationId != id
    ensures r.Some? ==> exists k :: IsFirstAt(rs, id, k) && rs[k] == r.value
  {
    if rs == [] then None
    else if rs[0].reservationId == id then assert IsFirstAt(rs, id, 0); Some(rs[0])
    else
      var rest := First(rs[1..], id);
      assert forall k :: IsFirstAt(rs[1..], id, k) ==> IsFirstAt(rs, id, k + 1) && rs[k + 1] == rs[1..][k];
      rest
  }

  lemma {:induction false} TipIsLastWrite(rs: Records, id: string)
    ensures id in TipOf(rs) <==> exists k :: 0 <= k < |rs| && rs[k].reservationId == id
    ensures id in TipOf(rs) ==> exists k :: IsLastAt(rs, id, k) && rs[k] == TipOf(rs)[id]
  {
    if rs != [] {
      var front := rs[..|rs| - 1];
      TipIsLastWrite(front, id);
      if rs[|rs| - 1].reservationId == id {
        assert IsLastAt(rs, id, |rs| - 1);
      } else if id in TipOf(front) {
        var k :| IsLastAt(front, id, k) && front[k] == TipOf(front)[id];
        assert IsLastAt(rs, id, k);
      }
    }
  }

  lemma AppendTip(rs: Records, r: IntentReservation)
    ensures TipOf(rs + [r]) == TipOf(rs)[r.reservationId := r]
  {
    assert (rs + [r])[..|rs|] == rs;
  }

  predicate IsOpen(s: ReservationStatus) {
    s.Active? || s.Declared?
  }

  function Materialize(r: IntentReservation, now: nat): IntentReservation {
    if IsOpen(r.status) && r.expiresAt <= now then r.(status := Expired) else r
  }

  /** Blocks other agents: declared or active, not yet expired. */
  predicate Blocks(r: IntentReservation, repo: RepoId, now: nat) {
    var m := Materialize(r, now);
    m.repoId == repo && IsOpen(m.status)
  }

  predicate Conflicts(r: IntentReservation, repo: RepoId, now: nat, agent: AgentId, nodes: set<NodeRef>) {
    Blocks(r, repo, now) && r.agentId != agent && r.contractNodes * nodes != {}
  }

  predicate HasConflict(tip: Tip, repo: RepoId, now: nat, agent: AgentId, nodes: set<NodeRef>) {
    exists id :: id in tip && Conflicts(tip[id], repo, now, agent, nodes)
  }

  // ----- one atomic step ----------------------------------------------------------------------

  /** The record a refresh clones: the first one ever written under the id, when it is open. */
  function Refreshable(digest: IntentDigest, rs: Records, agent: AgentId, ops: seq<IntentOperation>)
    : Option<IntentReservation>
  {
    var first := First(rs, ReservationId(digest, agent, ops));
    if first.Some? && IsOpen(first.value.status) then first else None
  }

  function Refreshed(r: IntentReservation, now: nat, span: nat): IntentReservation {
    r.(expiresAt := now + span, ttlSeconds := span)
  }

  predicate IsValidDeclare(agent: AgentId, ops: seq<IntentOperation>) {
    !IsBlank(agent) && ops != []
  }

  function Clock(step: Step): nat {
    step.now
  }

  /** The record a step appends, if it appends one. */
  function Written(digest: IntentDigest, rs: Records, step: Step): Option<IntentReservation> {
    match step
    case DeclareStep(agent, ops, ttl, repo, fp, now) =>
      if !IsValidDeclare(agent, ops) then None
      else
        var span := Max(ttl, MIN_TTL_SECONDS);
        var old_ := Refreshable(digest, rs, agent, ops);
        if old_.Some? then Some(Refreshed(old_.value, now, span))
        else Some(IntentReservation(ReservationId(digest, agent, ops), repo, agent, span, Declared,
                                    now, now + span, fp.contractNodes))
    case CheckStep(agent, ops, acquire, ttlOpt, repo, fp, now) =>
      if HasConflict(TipOf(rs), repo, now, agent, fp.contractNodes) || !fp.fullyCovered || !acquire then None
      else
        var span := Max(if ttlOpt.Some? then ttlOpt.value else DEFAULT_TTL_SECONDS, MIN_TTL_SECONDS);
        Some(IntentReservation(ReservationId(digest, agent, ops), repo, agent, span, Active,
                               now, now + span, fp.contractNodes))
    case ReleaseStep(agent, id, now) =>
      if id in TipOf(rs) && TipOf(rs)[id].agentId == agent then Some(TipOf(rs)[id].(status := Released)) else None
  }

  function Apply(digest: IntentDigest, rs: Records, step: Step): Records {
    match Written(digest, rs, step)
    case Some(r) => rs + [r]
    case None => rs
  }

  // ----- mutual exclusion over runs -----------------------------------------------------------

  /** Active and unexpired at time `t`. */
  predicate Held(r: IntentReservation, t: nat) {
    r.status.Active? && r.expiresAt > t
  }

  predicate Collide(a: IntentReservation, b: IntentReservation, t: nat) {
    Held(a, t) && Held(b, t) && a.agentId != b.agentId && a.repoId == b.repoId &&
      a.contractNodes * b.contractNodes != {}
  }

  /** No two agents hold overlapping nodes of one repository at time `t`. */
  ghost predicate Exclusive(tip: Tip, t: nat) {
    forall i, j :: i in tip && j in tip ==> !Collide(tip[i], tip[j], t)
  }

  /** The ledger together with the largest clock any step has used. */
  datatype System = System(records: Records, clock: nat)

  function Exec(digest: IntentDigest, s: System, step: Step): System {
    System(Apply(digest, s.records, step), Max(s.clock, Clock(step)))
  }

  function Run(digest: IntentDigest, steps: seq<Step>, n: nat): System
    requires n <= |steps|
  {
    if n == 0 then System([], 0) else Exec(digest, Run(digest, steps, n - 1), steps[n - 1])
  }

  /** A declare that revives an Active first record although another agent holds an overlapping
      node: the one branch that writes an Active record without looking for conflicts. */
  ghost predicate RevivesIntoConflict(digest: IntentDigest, s: System, step: Step) {
    && step.DeclareStep? && IsValidDeclare(step.agent, step.ops)
    && var first := First(s.records, ReservationId(digest, step.agent, step.ops));
    && first.Some? && first.value.status.Active?
    && var revived := Refreshed(first.value, step.now, Max(step.ttl, MIN_TTL_SECONDS));
    && exists id :: id in TipOf(s.records) && id != revived.reservationId
                    && Collide(revived, TipOf(s.records)[id], Max(s.clock, step.now))
  }

  lemma LaterIsSafer(tip: Tip, t: nat, later: nat)
    requires Exclusive(tip, t) && t <= later
    ensures Exclusive(tip, later)
  {
    forall i, j | i in tip && j in tip ensures !Collide(tip[i], tip[j], later) {
      assert !Collide(tip[i], tip[j], t);
    }
  }

  /** Replacing one tip keeps exclusion exactly when the new record collides with no other tip. */
  lemma ReplaceTip(tip: Tip, r: IntentReservation, t: nat)
    requires Exclusive(tip, t)
    ensures Exclusive(tip[r.reservationId := r], t) <==>
              forall id :: id in tip && id != r.reservationId ==> !Collide(r, tip[id], t)
  {
    var tip' := tip[r.reservationId := r];
    if Exclusive(tip', t) {
      forall id | id in tip && id != r.reservationId ensures !Collide(r, tip[id], t) {
        assert !Collide(tip'[r.reservationId], tip'[id], t);
      }
    } else {
      var i, j :| i in tip' && j in tip' && Collide(tip'[i], tip'[j], t);
      assert i in tip && j in tip ==> !Collide(tip[i], tip[j], t);
      var other := if i == r.reservationId then j else i;
      assert Collide(r, tip[other], t);
    }
  }

  /** An acquire that found no conflict, even under an old clock, collides with nobody later. */
  lemma AcquireIsClear(digest: IntentDigest, s: System, step: Step)
    requires step.CheckStep? && Written(digest, s.records, step).Some?
    ensures var r := Written(digest, s.records, step).value; var t := Max(s.clock, step.now);
      forall id :: id in TipOf(s.records) ==> !Collide(r, TipOf(s.records)[id], t)
  {
    var tip := TipOf(s.records);
    forall id | id in tip ensures !Collide(Written(digest, s.records, step).value, tip[id], Max(s.clock, step.now)) {
      assert !Conflicts(tip[id], step.repo, step.now, step.agent, step.fp.contractNodes);
    }
  }

  /** A single step breaks exclusion exactly when it revives a record into a conflict. */
  lemma StepKeepsExclusion(digest: IntentDigest, s: System, step: Step)
    requires Exclusive(TipOf(s.records), s.clock)
    ensures var s' := Exec(digest, s, step);
      Exclusive(TipOf(s'.records), s'.clock) <==> !RevivesIntoConflict(digest, s, step)
  {
    var t := Max(s.clock, Clock(step));
    var tip := TipOf(s.records);
    LaterIsSafer(tip, s.clock, t);
    match Written(digest, s.records, step) {
      case None =>
      case Some(r) =>
        AppendTip(s.records, r);
        ReplaceTip(tip, r, t);
        if step.CheckStep? {
          AcquireIsClear(digest, s, step);
        } else if step.DeclareStep? {
          DeclareCollision(digest, s, step, r, t);
        }
    }
  }

  lemma DeclareCollision(digest: IntentDigest, s: System, step: Step, r: IntentReservation, t: nat)
    requires step.DeclareStep? && Written(digest, s.records, step) == Some(r) && t == Max(s.clock, step.now)
    ensures RevivesIntoConflict(digest, s, step) <==>
              exists id :: id in TipOf(s.records) && id != r.reservationId && Collide(r, TipOf(s.records)[id], t)
  {
    var first := First(s.records, ReservationId(digest, step.agent, step.ops));
    if first.None? || !first.value.status.Active? {
      assert !Held(r, t);
    } else {
      var revived := Refreshed(first.value, step.now, Max(step.ttl, MIN_TTL_SECONDS));
      assert Refreshable(digest, s.records, step.agent, step.ops) == first && r == revived;
      if id :| id in TipOf(s.records) && id != r.reservationId && Collide(r, TipOf(s.records)[id], t) {
        assert id in TipOf(s.records) && id != revived.reservationId && Collide(revived, TipOf(s.records)[id], t);
      }
    }
  }

  ghost predicate SafeAfter(digest: IntentDigest, steps: seq<Step>, k: nat)
    requires k <= |steps|
  {
    Exclusive(TipOf(Run(digest, steps, k).records), Run(digest, steps, k).clock)
  }

  ghost predicate BadStep(digest: IntentDigest, steps: seq<Step>, k: nat)
    requires k < |steps|
  {
    RevivesIntoConflict(digest, Run(digest, steps, k), steps[k])
  }

  lemma NextIsSafe(digest: IntentDigest, steps: seq<Step>, k: nat)
    requires k < |steps| && SafeAfter(digest, steps, k)
    ensures SafeAfter(digest, steps, k + 1) <==> !BadStep(digest, steps, k)
  {
    StepKeepsExclusion(digest, Run(digest, steps, k), steps[k]);
  }

  /** If a safe point is followed by a safe point exactly when the step between is not bad, then
      everything is safe exactly when nothing is bad. */
  lemma {:induction false} SafeChain(safe: seq<bool>, bad: seq<bool>)
    requires |safe| == |bad| + 1 && safe[0]
    requires forall k :: 0 <= k < |bad| && safe[k] ==> (safe[k + 1] <==> !bad[k])
    ensures (forall k :: 0 <= k < |safe| ==> safe[k]) <==> (forall k :: 0 <= k < |bad| ==> !bad[k])
    decreases |bad|
  {
    if |bad| > 0 {
      var n := |bad| - 1;
      SafeChain(safe[..n + 1], bad[..n]);
      assert forall k :: 0 <= k <= n ==> safe[..n + 1][k] == safe[k];
      assert forall k :: 0 <= k < n ==> bad[..n][k] == bad[k];
      if forall k :: 0 <= k < |bad| ==> !bad[k] {
        assert safe[..n + 1][n];
        assert safe[n + 1];
      }
      if forall k :: 0 <= k < |safe| ==> safe[k] {
        assert safe[n] && safe[n + 1];
      }
    }
  }

  ghost function SafePoints(digest: IntentDigest, steps: seq<Step>): (r: seq<bool>)
    ensures |r| == |steps| + 1 && forall k :: 0 <= k <= |steps| ==> r[k] == SafeAfter(digest, steps, k)
  {
    seq(|steps| + 1, k requires 0 <= k <= |steps| => SafeAfter(digest, steps, k))
  }

  ghost function BadSteps(digest: IntentDigest, steps: seq<Step>): (r: seq<bool>)
    ensures |r| == |steps| && forall k :: 0 <= k < |steps| ==> r[k] == BadStep(digest, steps, k)
  {
    seq(|steps|, k requires 0 <= k < |steps| => BadStep(digest, steps, k))
  }

  lemma StartIsSafe(digest: IntentDigest, steps: seq<Step>)
    ensures SafeAfter(digest, steps, 0)
  {
  }

  /** Over every run: exclusion holds after every step, at the latest clock used, if and only if
      no step revives a record into a conflict. */
  lemma RunIsExclusive(digest: IntentDigest, steps: seq<Step>)
    ensures (forall k :: 0 <= k <= |steps| ==> SafeAfter(digest, steps, k)) <==>
            (forall k :: 0 <= k < |steps| ==> !BadStep(digest, steps, k))
  {
    PointsAreSafe(digest, steps);
    var safe, bad := SafePoints(digest, steps), BadSteps(digest, steps);
    assert forall k :: 0 <= k <= |steps| ==> safe[k] == SafeAfter(digest, steps, k);
    assert forall k :: 0 <= k < |steps| ==> bad[k] == BadStep(digest, steps, k);
  }

  lemma PointsAreSafe(digest: IntentDigest, steps: seq<Step>)
    ensures var safe, bad := SafePoints(digest, steps), BadSteps(digest, steps);
      (forall k :: 0 <= k <= |steps| ==> safe[k]) <==> (forall k :: 0 <= k < |steps| ==> !bad[k])
  {
    var safe, bad := SafePoints(digest, steps), BadSteps(digest, steps);
    StartIsSafe(digest, steps);
    forall k | 0 <= k < |bad| && safe[k] ensures safe[k + 1] <==> !bad[k] {
      NextIsSafe(digest, steps, k);
    }
    SafeChain(safe, bad);
  }

  lemma {:induction false} ClockCovers(digest: IntentDigest, steps: seq<Step>, n: nat)
    requires n <= |steps|
    ensures forall k :: 0 <= k < n ==> Clock(steps[k]) <= Run(digest, steps, n).clock
  {
    if n > 0 {
      ClockCovers(digest, steps, n - 1);
    }
  }

  /** In particular: when no valid declare ever meets an id whose first record is Active, exclusion
      holds after every run at every time not before a clock that was used. */
  lemma ExclusionWithoutRevival(digest: IntentDigest, steps: seq<Step>, t: nat)
    requires forall k :: 0 <= k < |steps| && steps[k].DeclareStep? && IsValidDeclare(steps[k].agent, steps[k].ops) ==>
               var first := First(Run(digest, steps, k).records, ReservationId(digest, steps[k].agent, steps[k].ops));
               first.None? || !first.value.status.Active?
    requires t >= Run(digest, steps, |steps|).clock
    ensures Exclusive(TipOf(Run(digest, steps, |steps|).records), t)
  {
    RunIsExclusive(digest, steps);
    assert SafeAfter(digest, steps, |steps|);
    LaterIsSafer(TipOf(Run(digest, steps, |steps|).records), Run(digest, steps, |steps|).clock, t);
  }

  /** Exclusion can fail: `a` acquires, the lease runs out, `b` acquires the same node, and a
      declare by `a` revives its first record, which is Active. */
  function RevivalRun(a: AgentId, b: AgentId, ops: seq<IntentOperation>, repo: RepoId, node: NodeRef): seq<Step> {
    var fp := Footprint({node}, true);
    [CheckStep(a, ops, true, Some(60), repo, fp, 0),
     CheckStep(b, ops, true, Some(600), repo, fp, 60),
     DeclareStep(a, ops, 60, repo, fp, 60)]
  }

  lemma RunStep(digest: IntentDigest, steps: seq<Step>, k: nat, rs: Records, clock: nat, r: IntentReservation)
    requires k < |steps| && Run(digest, steps, k) == System(rs, clock) && Written(digest, rs, steps[k]) == Some(r)
    ensures Run(digest, steps, k + 1) == System(rs + [r], Max(clock, Clock(steps[k])))
    ensures TipOf(rs + [r]) == TipOf(rs)[r.reservationId := r]
  {
    AppendTip(rs, r);
  }

  lemma AcquireOverExpired(digest: IntentDigest, rs: Records, step: Step, span: nat)
    requires step.CheckStep? && step.acquire && step.fp.fullyCovered && step.ttlOpt == Some(span)
    requires span >= MIN_TTL_SECONDS
    requires forall id :: id in TipOf(rs) ==> TipOf(rs)[id].expiresAt <= step.now
    ensures Written(digest, rs, step) ==
            Some(IntentReservation(ReservationId(digest, step.agent, step.ops), step.repo, step.agent, span, Active,
                                   step.now, step.now + span, step.fp.contractNodes))
  {
  }

  lemma RevivalCollides(digest: IntentDigest, a: AgentId, b: AgentId, ops: seq<IntentOperation>, repo: RepoId,
                        node: NodeRef)
    requires IsValidDeclare(a, ops) && a != b
    requires ReservationId(digest, a, ops) != ReservationId(digest, b, ops)
    ensures !SafeAfter(digest, RevivalRun(a, b, ops, repo, node), 3)
  {
    var steps := RevivalRun(a, b, ops, repo, node);
    var ida, idb := ReservationId(digest, a, ops), ReservationId(digest, b, ops);
    var ra := IntentReservation(ida, repo, a, 60, Active, 0, 60, {node});
    var rb := IntentReservation(idb, repo, b, 600, Active, 60, 660, {node});
    assert Run(digest, steps, 0) == System([], 0);
    AcquireOverExpired(digest, [], steps[0], 60);
    RunStep(digest, steps, 0, [], 0, ra);
    AcquireOverExpired(digest, [] + [ra], steps[1], 600);
    RunStep(digest, steps, 1, [] + [ra], 0, rb);
    var rs := [] + [ra] + [rb];
    assert rs[0] == ra;
    RunStep(digest, steps, 2, rs, 60, ra.(expiresAt := 120));
    var tip := TipOf(Run(digest, steps, 3).records);
    assert node in tip[ida].contractNodes * tip[idb].contractNodes;
    assert Collide(tip[ida], tip[idb], 60);
  }

  /** Two agents suffice, whatever the digest. */
  lemma RevivalBreaksExclusion(digest: IntentDigest)
    ensures exists steps: seq<Step> :: |steps| == 3 && !SafeAfter(digest, steps, 3)
  {
    var ops := [IntentOperation("edit", None, None)];
    assert ReservationId(digest, "a", ops)[4] == 'a' && ReservationId(digest, "b", ops)[4] == 'b';
    assert "a"[0] == 'a' && !IsWhitespace('a');
    RevivalCollides(digest, "a", "b", ops, "repo", "node/f");
  }

  // ----- the ledger object and the service ----------------------------------------------------

  datatype ConflictGraphEdge = ConflictGraphEdge(fromReservationId: string, toAgentId: AgentId, node: NodeRef)

  datatype Verdict = Clear | Unknown | Conflict

  datatype CheckResponse = CheckResponse(verdict: Verdict, edges: seq<ConflictGraphEdge>, blocking: seq<string>)

  datatype DeclareResponse = DeclareResponse(reservationId: string, ttlSeconds: nat, expiresAt: nat)

  datatype ReserveError = Validation | NotFound(id: string) | StoreFailure

  lemma {:induction false} TipKeys(rs: Records)
    ensures forall id :: id in TipOf(rs) ==> TipOf(rs)[id].reservationId == id
  {
    if rs != [] {
      TipKeys(rs[..|rs| - 1]);
    }
  }

  /** `edges` lists, once each, the nodes that the conflicting reservations among `ids` share. */
  ghost predicate ListsConflicts(edges: seq<ConflictGraphEdge>, tip: Tip, ids: set<string>, repo: RepoId, now: nat,
                                 agent: AgentId, nodes: set<NodeRef>) {
    && Distinct(edges)
    && forall e :: e in edges <==>
         && e.fromReservationId in ids && e.fromReservationId in tip
         && Conflicts(tip[e.fromReservationId], repo, now, agent, nodes)
         && e.toAgentId == tip[e.fromReservationId].agentId
         && e.node in tip[e.fromReservationId].contractNodes * nodes
  }

  ghost predicate ListsBlocking(blocking: seq<string>, tip: Tip, ids: set<string>, repo: RepoId, now: nat,
                                agent: AgentId, nodes: set<NodeRef>) {
    && Distinct(blocking)
    && forall id :: id in blocking <==> id in ids && id in tip && Conflicts(tip[id], repo, now, agent, nodes)
  }

  method EdgesOf(r: IntentReservation, shared: set<NodeRef>) returns (edges: seq<ConflictGraphEdge>)
    ensures Distinct(edges)
    ensures forall e :: e in edges <==>
              e.fromReservationId == r.reservationId && e.toAgentId == r.agentId && e.node in shared
  {
    edges := [];
    var rest := shared;
    while rest != {}
      invariant rest <= shared && Distinct(edges)
      invariant forall e :: e in edges <==>
                  e.fromReservationId == r.reservationId && e.toAgentId == r.agentId && e.node in shared - rest
    {
      var n :| n in rest;
      rest := rest - {n};
      PushElem(edges, ConflictGraphEdge(r.reservationId, r.agentId, n));
      edges := edges + [ConflictGraphEdge(r.reservationId, r.agentId, n)];
    }
  }

  lemma EdgeShowsConflict(edges: seq<ConflictGraphEdge>, tip: Tip, repo: RepoId, now: nat, agent: AgentId,
                          nodes: set<NodeRef>)
    requires ListsConflicts(edges, tip, tip.Keys, repo, now, agent, nodes) && edges != []
    ensures HasConflict(tip, repo, now, agent, nodes)
  {
    assert edges[0] in edges;
    assert Conflicts(tip[edges[0].fromReservationId], repo, now, agent, nodes);
  }

  /** What a declare writes, and under which id. */
  method DeclareRecord(digest: IntentDigest, rs: Records, agent: AgentId, ops: seq<IntentOperation>, ttl: nat,
                       repo: RepoId, fp: Footprint, now: nat) returns (rec: IntentReservation)
    requires IsValidDeclare(agent, ops)
    ensures Written(digest, rs, DeclareStep(agent, ops, ttl, repo, fp, now)) == Some(rec)
    ensures rec.reservationId == ReservationId(digest, agent, ops)
    ensures rec.expiresAt == now + Max(ttl, MIN_TTL_SECONDS) && rec.ttlSeconds == Max(ttl, MIN_TTL_SECONDS)
    ensures IsOpen(rec.status)
  {
    var span := Max(ttl, MIN_TTL_SECONDS);
    var id := ReservationId(digest, agent, ops);
    var first := First(rs, id);
    if first.Some? && IsOpen(first.value.status) {
      rec := Refreshed(first.value, now, span);
    } else {
      rec := IntentReservation(id, repo, agent, span, Declared, now, now + span, fp.contractNodes);
    }
  }

  class ReservationLedger {
    var records: Records
    var tip: Tip

    ghost predicate Valid()
      reads this
    {
      tip == TipOf(records)
    }

    /** Opening replays the log. */
    constructor (wal: Records)
      ensures Valid() && records == wal
    {
      records := wal;
      tip := map[];
      new;
      for i := 0 to |wal|
        invariant records == wal && tip == TipOf(wal[..i])
      {
        AppendTip(wal[..i], wal[i]);
        assert wal[..i + 1] == wal[..i] + [wal[i]];
        tip := tip[wal[i].reservationId := wal[i]];
      }
      assert wal[..|wal|] == wal;
    }

    /** The log is written first; if that fails nothing else happens. */
    method Append(r: IntentReservation, stored: bool) returns (ok: bool)
      requires Valid()
      modifies this
      ensures Valid() && ok == stored
      ensures records == if stored then old(records) + [r] else old(records)
      ensures !stored ==> tip == old(tip)
    {
      if !stored {
        return false;
      }
      AppendTip(records, r);
      tip := tip[r.reservationId := r];
      records := records + [r];
      ok := true;
    }

    method ConflictOverlap(repo: RepoId, now: nat, agent: AgentId, nodes: set<NodeRef>)
      returns (edges: seq<ConflictGraphEdge>, blocking: seq<string>)
      requires Valid()
      ensures ListsConflicts(edges, tip, tip.Keys, repo, now, agent, nodes)
      ensures ListsBlocking(blocking, tip, tip.Keys, repo, now, agent, nodes)
      ensures edges != [] <==> HasConflict(tip, repo, now, agent, nodes)
    {
      TipKeys(records);
      edges, blocking := [], [];
      var ids := tip.Keys;
      while ids != {}
        invariant ids <= tip.Keys
        invariant ListsConflicts(edges, tip, tip.Keys - ids, repo, now, agent, nodes)
        invariant ListsBlocking(blocking, tip, tip.Keys - ids, repo, now, agent, nodes)
      {
        var id :| id in ids;
        ids := ids - {id};
        var shared := tip[id].contractNodes * nodes;
        if Blocks(tip[id], repo, now) && tip[id].agentId != agent && shared != {} {
          var more := EdgesOf(tip[id], shared);
          JoinDistinct(edges, more);
          PushElem(blocking, id);
          edges, blocking := edges + more, blocking + [id];
        }
      }
      if HasConflict(tip, repo, now, agent, nodes) {
        var id :| id in tip && Conflicts(tip[id], repo, now, agent, nodes);
        var n :| n in tip[id].contractNodes * nodes;
        assert ConflictGraphEdge(id, tip[id].agentId, n) in edges;
      }
      if edges != [] {
        EdgeShowsConflict(edges, tip, repo, now, agent, nodes);
      }
    }

    method Declare(digest: IntentDigest, agent: AgentId, ops: seq<IntentOperation>, ttl: nat, repo: RepoId,
                   fp: Footprint, now: nat, stored: bool) returns (r: Result<DeclareResponse, ReserveError>)
      requires Valid()
      modifies this
      ensures Valid()
      ensures var step := DeclareStep(agent, ops, ttl, repo, fp, now);
              records == if r.Ok? then Apply(digest, old(records), step) else old(records)
      ensures r.Ok? <==> IsValidDeclare(agent, ops) && stored
      ensures r == Err(Validation) <==> !IsValidDeclare(agent, ops)
      ensures r.Ok? ==> r.value == DeclareResponse(ReservationId(digest, agent, ops), Max(ttl, MIN_TTL_SECONDS),
                                                   now + Max(ttl, MIN_TTL_SECONDS))
      ensures r.Ok? ==> var id := r.value.reservationId;
                id in tip && tip[id].expiresAt == r.value.expiresAt && tip[id].ttlSeconds == r.value.ttlSeconds
    {
      if !IsValidDeclare(agent, ops) {
        return Err(Validation);
      }
      var rec := DeclareRecord(digest, records, agent, ops, ttl, repo, fp, now);
      var ok := Append(rec, stored);
      if !ok {
        return Err(StoreFailure);
      }
      AppendTip(old(records), rec);
      r := Ok(DeclareResponse(rec.reservationId, rec.ttlSeconds, rec.expiresAt));
    }

    /** Check, and acquire when asked to. The verdict is exact; a record is written only when it
        is Clear. */
    method CheckWithTtl(digest: IntentDigest, agent: AgentId, ops: seq<IntentOperation>, acquire: bool,
                        ttlOpt: Option<nat>, repo: RepoId, fp: Footprint, now: nat, stored: bool)
      returns (r: Result<CheckResponse, ReserveError>)
      requires Valid()
      modifies this
      ensures Valid()
      ensures var step := CheckStep(agent, ops, acquire, ttlOpt, repo, fp, now);
              records == if r.Ok? then Apply(digest, old(records), step) else old(records)
      ensures r.Err? <==>
                !HasConflict(old(tip), repo, now, agent, fp.contractNodes) && fp.fullyCovered && acquire && !stored
      ensures r.Err? ==> r.error == StoreFailure
      ensures r.Ok? ==> && (r.value.verdict.Conflict? <==> HasConflict(old(tip), repo, now, agent, fp.contractNodes))
                        && (r.value.verdict.Unknown? <==> !r.value.verdict.Conflict? && !fp.fullyCovered)
      ensures r.Ok? ==> && ListsConflicts(r.value.edges, old(tip), old(tip).Keys, repo, now, agent, fp.contractNodes)
                        && ListsBlocking(r.value.blocking, old(tip), old(tip).Keys, repo, now, agent, fp.contractNodes)
      ensures records != old(records) ==> r.Ok? && r.value.verdict.Clear? && acquire
    {
      var edges, blocking := ConflictOverlap(repo, now, agent, fp.contractNodes);
      if edges != [] {
        return Ok(CheckResponse(Conflict, edges, blocking));
      }
      if !fp.fullyCovered {
        return Ok(CheckResponse(Unknown, edges, blocking));
      }
      if acquire {
        // The same check once more, as the acquire path repeats it under the same lock.
        var again, _ := ConflictOverlap(repo, now, agent, fp.contractNodes);
        if again != [] {
          return Err(Validation);
        }
        var span := Max(if ttlOpt.Some? then ttlOpt.value else DEFAULT_TTL_SECONDS, MIN_TTL_SECONDS);
        var ok := Append(IntentReservation(ReservationId(digest, agent, ops), repo, agent, span, Active,
                                           now, now + span, fp.contractNodes), stored);
        if !ok {
          return Err(StoreFailure);
        }
      }
      r := Ok(CheckResponse(Clear, edges, blocking));
    }

    method Release(agent: AgentId, id: string, now: nat, stored: bool) returns (r: Result<(), ReserveError>)
      requires Valid()
      modifies this
      ensures Valid()
      ensures forall digest ::
                records == if r.Ok? then Apply(digest, old(records), ReleaseStep(agent, id, now)) else old(records)
      ensures r == Err(NotFound(id)) <==> !(id in old(tip) && old(tip)[id].agentId == agent)
      ensures r.Ok? <==> id in old(tip) && old(tip)[id].agentId == agent && stored
      ensures r.Ok? ==> id in tip && tip[id].status.Released?
    {
      TipKeys(records);
      if id !in tip || Materialize(tip[id], now).agentId != agent {
        return Err(NotFound(id));
      }
      AppendTip(records, tip[id].(status := Released));
      var ok := Append(Materialize(tip[id], now).(status := Released), stored);
      if !ok {
        return Err(StoreFailure);
      }
      r := Ok(());
    }
  }
}
