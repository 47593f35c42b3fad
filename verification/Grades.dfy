/** The evidence-grade ledger of graphzero-core: upgrades justified by evidence, and revocations
    that cascade to everything built on a revoked upgrade. */
module Grades {
  import opened Digraph
  import opened Wrappers

  datatype GradeName = Complete | SoundOverapproximation | ObservedOnly | Unknown

  predicate MayUpgradeTo(from: GradeName, to: GradeName) {
    || (from.ObservedOnly? && (to.SoundOverapproximation? || to.Complete?))
    || (from.SoundOverapproximation? && to.Complete?)
  }

  predicate AtMost(a: GradeName, b: GradeName) {
    a == b || MayUpgradeTo(a, b)
  }

  datatype GradeEvidence =
    | VerificationReceipt(digest: string)
    | TestRun(runRef: string)
    | BoundedAnalysis(bound: string, digest: string)
    | PriorUpgrade(record: nat)

  function Decimal(n: nat): string {
    (if n < 10 then "" else Decimal(n / 10)) + ["0123456789"[n % 10]]
  }

  function EvidenceId(e: GradeEvidence): string {
    match e
    case VerificationReceipt(digest) => "receipt:" + digest
    case TestRun(runRef) => "test_run:" + runRef
    case BoundedAnalysis(_, digest) => "analysis:" + digest
    case PriorUpgrade(record) => "record:" + Decimal(record)
  }

  predicate HasEmptyReference(e: GradeEvidence) {
    match e
    case VerificationReceipt(digest) => digest == ""
    case TestRun(runRef) => runRef == ""
    case BoundedAnalysis(bound, digest) => bound == "" || digest == ""
    case PriorUpgrade(_) => false
  }

  datatype GradeUpgradeRecord = GradeUpgradeRecord(
    artifact: string, from: GradeName, to: GradeName, evidence: GradeEvidence, actor: string, ordinal: nat)

  datatype GradeRevocation = GradeRevocation(
    ordinal: nat, record: nat, reason: string, actor: string, restoredTo: GradeName)

  datatype GradeError =
    | UnknownArtifact(artifact: string)
    | AlreadyDeclared(artifact: string)
    | EvidenceRequired
    | UpgradeNotAllowed(from: GradeName, to: GradeName)
    | NoSuchRecord(record: nat)
    | AlreadyRevoked(record: nat)

  /** The state that grades depend on. `next` bounds every ordinal handed out. */
  datatype Ledger = Ledger(
    baseline: map<string, GradeName>,
    records: map<nat, GradeUpgradeRecord>,
    revoked: set<nat>,
    next: nat)

  predicate IsLive(l: Ledger, o: nat) {
    o in l.records && o !in l.revoked
  }

  predicate IsLiveOf(l: Ledger, artifact: string, o: nat) {
    IsLive(l, o) && l.records[o].artifact == artifact
  }

  /** The newest live record of the artifact below ordinal `n`. */
  function LastLive(l: Ledger, artifact: string, n: nat): (r: Option<nat>)
    ensures r.Some? ==> r.value < n && IsLiveOf(l, artifact, r.value)
    ensures forall o :: (if r.Some? then r.value < o < n else 0 <= o < n) ==> !IsLiveOf(l, artifact, o)
  {
    if n == 0 then None
    else if IsLiveOf(l, artifact, n - 1) then Some(n - 1)
    else LastLive(l, artifact, n - 1)
  }

  /** The grade in force just before ordinal `n`. */
  function GradeBefore(l: Ledger, artifact: string, n: nat): GradeName
    requires artifact in l.baseline
  {
    match LastLive(l, artifact, n)
    case Some(o) => l.records[o].to
    case None => l.baseline[artifact]
  }

  function Effective(l: Ledger, artifact: string): GradeName
    requires artifact in l.baseline
  {
    GradeBefore(l, artifact, l.next)
  }

  // ----- the invariant of every run -----------------------------------------------------------

  ghost predicate WellFormed(l: Ledger) {
    && l.revoked <= l.records.Keys
    && forall o :: o in l.records ==>
         && o < l.next
         && l.records[o].ordinal == o
         && l.records[o].artifact in l.baseline
         && MayUpgradeTo(l.records[o].from, l.records[o].to)
         && (l.records[o].evidence.PriorUpgrade? ==>
               l.records[o].evidence.record < o && l.records[o].evidence.record in l.records)
  }

  /** The record starts where the live records below it end, and cites only a live record. */
  ghost predicate Grounded(l: Ledger, o: nat) {
    && o in l.records && l.records[o].artifact in l.baseline
    && l.records[o].from == GradeBefore(l, l.records[o].artifact, o)
    && (l.records[o].evidence.PriorUpgrade? ==> IsLive(l, l.records[o].evidence.record))
  }

  /** Live records form, per artifact, a chain without gaps, and cite only live records. */
  ghost predicate Chained(l: Ledger) {
    forall o {:trigger Grounded(l, o)} :: IsLive(l, o) ==> Grounded(l, o)
  }

  ghost predicate Sound(l: Ledger) {
    WellFormed(l) && Chained(l)
  }

  lemma {:induction false} SameLastLive(l: Ledger, m: Ledger, artifact: string, n: nat)
    requires forall o :: 0 <= o < n ==> (IsLiveOf(l, artifact, o) <==> IsLiveOf(m, artifact, o))
    ensures LastLive(l, artifact, n) == LastLive(m, artifact, n)
  {
    if n > 0 {
      SameLastLive(l, m, artifact, n - 1);
    }
  }

  function Upgraded(l: Ledger, r: GradeUpgradeRecord): Ledger {
    l.(records := l.records[l.next := r], next := l.next + 1)
  }

  lemma UpgradeKeepsSound(l: Ledger, r: GradeUpgradeRecord)
    requires Sound(l) && r.ordinal == l.next && r.artifact in l.baseline && r.from == Effective(l, r.artifact)
    requires MayUpgradeTo(r.from, r.to)
    requires r.evidence.PriorUpgrade? ==> IsLive(l, r.evidence.record)
    ensures Sound(Upgraded(l, r)) && Effective(Upgraded(l, r), r.artifact) == r.to
    ensures forall a :: a in l.baseline && a != r.artifact ==> Effective(Upgraded(l, r), a) == Effective(l, a)
  {
    UpgradeIsSound(l, r);
    UpgradeGrade(l, r);
    forall a | a in l.baseline && a != r.artifact ensures Effective(Upgraded(l, r), a) == Effective(l, a) {
      SameLastLive(l, Upgraded(l, r), a, l.next);
    }
  }

  lemma UpgradeIsSound(l: Ledger, r: GradeUpgradeRecord)
    requires Sound(l) && r.ordinal == l.next && r.artifact in l.baseline && r.from == Effective(l, r.artifact)
    requires MayUpgradeTo(r.from, r.to)
    requires r.evidence.PriorUpgrade? ==> IsLive(l, r.evidence.record)
    ensures Sound(Upgraded(l, r))
  {
    var m := Upgraded(l, r);
    forall o: nat | IsLive(m, o) ensures Grounded(m, o) {
      UpgradeGrounds(l, r, o);
    }
  }

  lemma UpgradeGrade(l: Ledger, r: GradeUpgradeRecord)
    requires WellFormed(l) && r.artifact in l.baseline
    ensures Effective(Upgraded(l, r), r.artifact) == r.to
  {
    assert IsLiveOf(Upgraded(l, r), r.artifact, l.next);
  }

  lemma UpgradeGrounds(l: Ledger, r: GradeUpgradeRecord, o: nat)
    requires Sound(l) && r.ordinal == l.next && r.artifact in l.baseline && r.from == Effective(l, r.artifact)
    requires r.evidence.PriorUpgrade? ==> IsLive(l, r.evidence.record)
    requires IsLive(Upgraded(l, r), o)
    ensures Grounded(Upgraded(l, r), o)
  {
    var m := Upgraded(l, r);
    assert o != l.next ==> Grounded(l, o);
    SameLastLive(l, m, m.records[o].artifact, o);
  }

  lemma DeclareKeepsSound(l: Ledger, artifact: string, grade: GradeName)
    requires Sound(l) && artifact !in l.baseline
    ensures var m := l.(baseline := l.baseline[artifact := grade]);
      Sound(m) && Effective(m, artifact) == grade && forall a :: a in l.baseline ==> Effective(m, a) == Effective(l, a)
  {
    var m := l.(baseline := l.baseline[artifact := grade]);
    forall o: nat | IsLive(m, o) ensures Grounded(m, o) {
      assert Grounded(l, o);
      SameLastLive(l, m, m.records[o].artifact, o);
    }
    forall a | a in m.baseline ensures LastLive(m, a, m.next) == LastLive(l, a, l.next) {
      SameLastLive(l, m, a, l.next);
    }
    assert LastLive(m, artifact, m.next).None?;
  }

  // ----- revocation ---------------------------------------------------------------------------

  predicate DependsOn(records: map<nat, GradeUpgradeRecord>, current: nat, o: nat)
    requires current in records && o in records
  {
    var c, candidate := records[current], records[o];
    && (|| (candidate.evidence.PriorUpgrade? && candidate.evidence.record == current)
        || (candidate.artifact == c.artifact && candidate.from == c.to))
    && o > current
  }

  ghost function Dependents(records: map<nat, GradeUpgradeRecord>): set<(nat, nat)> {
    set c, o | c in records && o in records && DependsOn(records, c, o) :: (c, o)
  }

  function RevokedBy(l: Ledger, cascade: set<nat>): Ledger {
    l.(revoked := l.revoked + cascade)
  }

  /** Removing a dependency-closed set never removes the step a surviving record stands on. */
  lemma SurvivorKeepsFooting(l: Ledger, cascade: set<nat>, o: nat)
    requires Sound(l) && cascade <= l.records.Keys && ClosedUnder(Dependents(l.records), cascade)
    requires IsLive(RevokedBy(l, cascade), o)
    ensures LastLive(RevokedBy(l, cascade), l.records[o].artifact, o) == LastLive(l, l.records[o].artifact, o)
  {
    var a, m := l.records[o].artifact, RevokedBy(l, cascade);
    var p := LastLive(l, a, o);
    if p.Some? {
      assert Grounded(l, o);
      assert DependsOn(l.records, p.value, o);
      assert (p.value, o) in Dependents(l.records);
    }
    FewerLive(l, m, a, o);
  }

  /** Where fewer records are live but the newest one still is, it is still the newest. */
  lemma {:induction false} FewerLive(l: Ledger, m: Ledger, artifact: string, n: nat)
    requires forall o: nat {:trigger IsLiveOf(m, artifact, o)} :: IsLiveOf(m, artifact, o) ==> IsLiveOf(l, artifact, o)
    requires LastLive(l, artifact, n).Some? ==> IsLiveOf(m, artifact, LastLive(l, artifact, n).value)
    ensures LastLive(m, artifact, n) == LastLive(l, artifact, n)
  {
    if n > 0 && !IsLiveOf(l, artifact, n - 1) {
      FewerLive(l, m, artifact, n - 1);
    }
  }

  lemma RevokeKeepsSound(l: Ledger, cascade: set<nat>)
    requires Sound(l) && cascade <= l.records.Keys && ClosedUnder(Dependents(l.records), cascade)
    ensures Sound(RevokedBy(l, cascade))
  {
    var m := RevokedBy(l, cascade);
    forall o: nat | IsLive(m, o) ensures Grounded(m, o) {
      assert Grounded(l, o);
      SurvivorKeepsFooting(l, cascade, o);
      if m.records[o].evidence.PriorUpgrade? {
        assert DependsOn(l.records, m.records[o].evidence.record, o);
        assert (m.records[o].evidence.record, o) in Dependents(l.records);
      }
    }
  }

  /** Grades only rise along the chain. */
  lemma {:induction false} GradesRise(l: Ledger, artifact: string, n: nat, m: nat)
    requires Sound(l) && artifact in l.baseline && n <= m
    ensures AtMost(GradeBefore(l, artifact, n), GradeBefore(l, artifact, m))
    decreases m
  {
    if n < m {
      GradesRise(l, artifact, n, m - 1);
      assert IsLiveOf(l, artifact, m - 1) ==> Grounded(l, m - 1);
    }
  }

  lemma ChainCarriesCascade(l: Ledger, cascade: set<nat>, artifact: string, k: nat, o: nat)
    requires Sound(l) && cascade <= l.records.Keys && ClosedUnder(Dependents(l.records), cascade)
    requires k < o && IsLiveOf(l, artifact, k) && IsLiveOf(l, artifact, o)
    requires forall i :: k <= i < o && IsLiveOf(l, artifact, i) ==> i in cascade
    ensures o in cascade
  {
    var p := LastLive(l, artifact, o).value;
    assert Grounded(l, o);
    assert DependsOn(l.records, p, o);
    assert (p, o) in Dependents(l.records);
  }

  /** The first live record of the artifact that the cascade takes, or `n` if it takes none. */
  ghost predicate IsFirstTaken(l: Ledger, cascade: set<nat>, artifact: string, n: nat, k: nat) {
    && k <= n
    && (k == n || (IsLiveOf(l, artifact, k) && k in cascade))
    && forall o :: 0 <= o < k && IsLiveOf(l, artifact, o) ==> o !in cascade
  }

  lemma {:induction false} FirstTaken(l: Ledger, cascade: set<nat>, artifact: string, n: nat) returns (k: nat)
    ensures IsFirstTaken(l, cascade, artifact, n, k)
  {
    if n == 0 {
      k := 0;
    } else {
      k := FirstTaken(l, cascade, artifact, n - 1);
      if k == n - 1 && !(IsLiveOf(l, artifact, k) && k in cascade) {
        k := n;
      }
    }
  }

  lemma {:induction false} RestIsTaken(l: Ledger, cascade: set<nat>, artifact: string, n: nat, k: nat, m: nat)
    requires Sound(l) && cascade <= l.records.Keys && ClosedUnder(Dependents(l.records), cascade)
    requires k <= m <= n && (k == n || (IsLiveOf(l, artifact, k) && k in cascade))
    ensures forall o :: k <= o < m && IsLiveOf(l, artifact, o) ==> o in cascade
    decreases m
  {
    if k < m {
      RestIsTaken(l, cascade, artifact, n, k, m - 1);
      if k < m - 1 && IsLiveOf(l, artifact, m - 1) {
        ChainCarriesCascade(l, cascade, artifact, k, m - 1);
      }
    }
  }

  /** A cascade takes the upper end of an artifact's chain: the grade falls back to the one in
      force before the first record it takes. */
  lemma GradeAfterCascade(l: Ledger, cascade: set<nat>, artifact: string, n: nat, k: nat)
    requires Sound(l) && cascade <= l.records.Keys && ClosedUnder(Dependents(l.records), cascade)
    requires artifact in l.baseline && IsFirstTaken(l, cascade, artifact, n, k)
    ensures GradeBefore(RevokedBy(l, cascade), artifact, n) == GradeBefore(l, artifact, k)
  {
    RestIsTaken(l, cascade, artifact, n, k, n);
    var m := RevokedBy(l, cascade);
    var p, q := LastLive(l, artifact, k), LastLive(m, artifact, n);
    assert p.Some? ==> IsLiveOf(m, artifact, p.value);
    assert q.Some? ==> IsLiveOf(l, artifact, q.value);
  }

  lemma RevokeRaisesNothing(l: Ledger, cascade: set<nat>, artifact: string)
    requires Sound(l) && cascade <= l.records.Keys && ClosedUnder(Dependents(l.records), cascade)
    requires artifact in l.baseline
    ensures AtMost(Effective(RevokedBy(l, cascade), artifact), Effective(l, artifact))
  {
    var k := FirstTaken(l, cascade, artifact, l.next);
    GradeAfterCascade(l, cascade, artifact, l.next, k);
    GradesRise(l, artifact, k, l.next);
  }

  lemma {:induction false} CascadeGoesUp(records: map<nat, GradeUpgradeRecord>, p: seq<nat>)
    requires IsPath(Dependents(records), p)
    ensures p[0] <= p[|p| - 1]
    decreases |p|
  {
    if |p| > 1 {
      CascadeGoesUp(records, p[..|p| - 1]);
      assert (p[|p| - 2], p[|p| - 1]) in Dependents(records);
    }
  }

  lemma RevokeRestoresFrom(l: Ledger, record: nat, cascade: set<nat>)
    requires Sound(l) && IsLive(l, record)
    requires IsReachSet(Dependents(l.records), {record}, cascade) && cascade <= l.records.Keys
    ensures Effective(RevokedBy(l, cascade), l.records[record].artifact) == l.records[record].from
  {
    var a := l.records[record].artifact;
    ReachSetFacts(l.records, record, cascade);
    assert IsFirstTaken(l, cascade, a, l.next, record);
    GradeAfterCascade(l, cascade, a, l.next, record);
    assert Grounded(l, record);
  }

  lemma ReachSetFacts(records: map<nat, GradeUpgradeRecord>, record: nat, cascade: set<nat>)
    requires IsReachSet(Dependents(records), {record}, cascade)
    ensures record in cascade && ClosedUnder(Dependents(records), cascade)
    ensures forall o :: o in cascade ==> o >= record
  {
    var edges := Dependents(records);
    ReachesSelf(edges, record);
    assert ReachedFrom(edges, {record}, record);
    forall e | e in edges && e.0 in cascade ensures e.1 in cascade {
      assert ReachedFrom(edges, {record}, e.0);
      ExtendReached(edges, {record}, e.0, e.1);
    }
    forall o: nat | o in cascade ensures o >= record {
      assert ReachedFrom(edges, {record}, o);
      var p: seq<nat> :| Links(edges, record, o, p);
      CascadeGoesUp(records, p);
    }
  }

  // ----- replaying the live records -----------------------------------------------------------

  /** Replay of the live records below `n` on top of the baseline, refusing any record that does
      not start from the current grade, is not a lattice edge, or cites a record not yet replayed. */
  function Replay(l: Ledger, artifact: string, n: nat): Option<GradeName>
    requires artifact in l.baseline
  {
    if n == 0 then Some(l.baseline[artifact])
    else
      var cur := Replay(l, artifact, n - 1);
      if cur.None? || !IsLiveOf(l, artifact, n - 1) then cur
      else
        var r := l.records[n - 1];
        if cur.value == r.from && MayUpgradeTo(r.from, r.to) &&
           (r.evidence.PriorUpgrade? ==> r.evidence.record < n - 1 && IsLive(l, r.evidence.record))
        then Some(r.to) else None
  }

  /** The ledger's grades are reproduced by its live records alone. */
  lemma {:induction false} ReplayReproduces(l: Ledger, artifact: string, n: nat)
    requires Sound(l) && artifact in l.baseline
    ensures Replay(l, artifact, n) == Some(GradeBefore(l, artifact, n))
  {
    if n > 0 {
      ReplayReproduces(l, artifact, n - 1);
      assert IsLiveOf(l, artifact, n - 1) ==> Grounded(l, n - 1);
    }
  }

  // ----- whole runs ---------------------------------------------------------------------------

  datatype Op =
    | DeclareOp(artifact: string, grade: GradeName)
    | UpgradeOp(artifact: string, to: GradeName, evidence: GradeEvidence, actor: string)
    | RevokeOp(record: nat)
    | RevokeEvidenceOp(evidenceId: string)

  /** The least dependency-closed set of records that holds `seeds`. */
  ghost function CascadeOf(records: map<nat, GradeUpgradeRecord>, seeds: set<nat>): (c: set<nat>)
    ensures IsReachSet(Dependents(records), seeds, c)
    ensures seeds <= c && ClosedUnder(Dependents(records), c)
    ensures seeds <= records.Keys ==> c <= records.Keys
  {
    CascadeExists(records, seeds);
    var c :| IsReachSet(Dependents(records), seeds, c) && seeds <= c && ClosedUnder(Dependents(records), c) &&
      c <= seeds + records.Keys;
    c
  }

  lemma CascadeExists(records: map<nat, GradeUpgradeRecord>, seeds: set<nat>)
    ensures exists c :: IsReachSet(Dependents(records), seeds, c) && seeds <= c &&
              ClosedUnder(Dependents(records), c) && c <= seeds + records.Keys
  {
    var c := ReachSetExists(Dependents(records), seeds);
  }

  /** Revocation also hands out one ordinal per record it revokes. */
  function RevokeAll(l: Ledger, cascade: set<nat>): Ledger {
    l.(revoked := l.revoked + cascade, next := l.next + |cascade - l.revoked|)
  }

  ghost function AfterRevoking(l: Ledger, seeds: set<nat>): Ledger {
    RevokeAll(l, CascadeOf(l.records, seeds))
  }

  function CarriersOf(l: Ledger, evidenceId: string): set<nat> {
    set o | o in l.records && o !in l.revoked && EvidenceId(l.records[o].evidence) == evidenceId
  }

  /** What an upgrade request is rejected for, in the order of the checks. */
  function Rejection(l: Ledger, artifact: string, to: GradeName, evidence: GradeEvidence): Option<GradeError> {
    if artifact !in l.baseline then Some(UnknownArtifact(artifact))
    else if HasEmptyReference(evidence) then Some(EvidenceRequired)
    else if evidence.PriorUpgrade? && evidence.record !in l.records then Some(NoSuchRecord(evidence.record))
    else if evidence.PriorUpgrade? && evidence.record in l.revoked then Some(AlreadyRevoked(evidence.record))
    else if !MayUpgradeTo(Effective(l, artifact), to) then Some(UpgradeNotAllowed(Effective(l, artifact), to))
    else None
  }

  ghost function Apply(l: Ledger, op: Op): Ledger {
    match op
    case DeclareOp(artifact, grade) =>
      if artifact in l.baseline then l else l.(baseline := l.baseline[artifact := grade])
    case UpgradeOp(artifact, to, evidence, actor) =>
      if Rejection(l, artifact, to, evidence).Some? then l
      else Upgraded(l, GradeUpgradeRecord(artifact, Effective(l, artifact), to, evidence, actor, l.next))
    case RevokeOp(record) => if record in l.records then AfterRevoking(l, {record}) else l
    case RevokeEvidenceOp(evidenceId) => AfterRevoking(l, CarriersOf(l, evidenceId))
  }

  ghost function Run(ops: seq<Op>, n: nat): Ledger
    requires n <= |ops|
  {
    if n == 0 then Ledger(map[], map[], {}, 0) else Apply(Run(ops, n - 1), ops[n - 1])
  }

  lemma {:induction false} BeyondNext(l: Ledger, artifact: string, n: nat)
    requires WellFormed(l) && n >= l.next
    ensures LastLive(l, artifact, n) == LastLive(l, artifact, l.next)
    decreases n
  {
    if n > l.next {
      BeyondNext(l, artifact, n - 1);
    }
  }

  lemma BumpKeepsSound(l: Ledger, n: nat)
    requires Sound(l) && n >= l.next
    ensures Sound(l.(next := n))
  {
    var m := l.(next := n);
    forall o: nat | IsLive(m, o) ensures Grounded(m, o) {
      assert Grounded(l, o);
      SameLastLive(l, m, m.records[o].artifact, o);
    }
  }

  lemma BumpKeepsGrade(l: Ledger, n: nat, artifact: string)
    requires Sound(l) && n >= l.next && artifact in l.baseline
    ensures Effective(l.(next := n), artifact) == Effective(l, artifact)
  {
    SameLastLive(l, l.(next := n), artifact, n);
    BeyondNext(l, artifact, n);
  }

  lemma RevokeAllKeepsSound(l: Ledger, cascade: set<nat>)
    requires Sound(l) && cascade <= l.records.Keys && ClosedUnder(Dependents(l.records), cascade)
    ensures Sound(RevokeAll(l, cascade))
  {
    RevokeKeepsSound(l, cascade);
    var m, n := RevokedBy(l, cascade), l.next + |cascade - l.revoked|;
    BumpKeepsSound(m, n);
    assert RevokeAll(l, cascade) == m.(next := n);
  }

  lemma RevokeAllGrade(l: Ledger, cascade: set<nat>, artifact: string)
    requires Sound(l) && cascade <= l.records.Keys && ClosedUnder(Dependents(l.records), cascade)
    requires artifact in l.baseline
    ensures Effective(RevokeAll(l, cascade), artifact) == Effective(RevokedBy(l, cascade), artifact)
  {
    RevokeKeepsSound(l, cascade);
    var m, n := RevokedBy(l, cascade), l.next + |cascade - l.revoked|;
    assert RevokeAll(l, cascade) == m.(next := n);
    BumpKeepsGrade(m, n, artifact);
  }

  lemma RevokingKeepsSound(l: Ledger, seeds: set<nat>)
    requires Sound(l) && seeds <= l.records.Keys
    ensures Sound(AfterRevoking(l, seeds))
  {
    RevokeAllKeepsSound(l, CascadeOf(l.records, seeds));
  }

  /** No artifact is raised by a revocation. */
  lemma RevokingRaisesNothing(l: Ledger, seeds: set<nat>, artifact: string)
    requires Sound(l) && seeds <= l.records.Keys && artifact in l.baseline
    ensures AtMost(Effective(AfterRevoking(l, seeds), artifact), Effective(l, artifact))
  {
    RevokeAllGrade(l, CascadeOf(l.records, seeds), artifact);
    RevokeRaisesNothing(l, CascadeOf(l.records, seeds), artifact);
  }

  /** Revoking a live upgrade leaves its artifact at exactly the grade it was upgraded from. */
  lemma RevokingRestoresFrom(l: Ledger, record: nat)
    requires Sound(l) && IsLive(l, record)
    ensures Effective(AfterRevoking(l, {record}), l.records[record].artifact) == l.records[record].from
  {
    RevokeAllGrade(l, CascadeOf(l.records, {record}), l.records[record].artifact);
    RevokeRestoresFrom(l, record, CascadeOf(l.records, {record}));
  }

  /** Nothing that carried the evidence is live afterwards. */
  lemma RevokedEvidenceIsDead(l: Ledger, evidenceId: string)
    requires Sound(l)
    ensures CarriersOf(AfterRevoking(l, CarriersOf(l, evidenceId)), evidenceId) == {}
  {
    var seeds := CarriersOf(l, evidenceId);
    var cascade := CascadeOf(l.records, seeds);
    assert seeds <= cascade;
  }

  lemma ApplyKeepsSound(l: Ledger, op: Op)
    requires Sound(l)
    ensures Sound(Apply(l, op))
  {
    match op {
      case DeclareOp(artifact, grade) =>
        if artifact !in l.baseline {
          DeclareKeepsSound(l, artifact, grade);
        }
      case UpgradeOp(artifact, to, evidence, actor) =>
        if Rejection(l, artifact, to, evidence).None? {
          UpgradeKeepsSound(l, GradeUpgradeRecord(artifact, Effective(l, artifact), to, evidence, actor, l.next));
        }
      case RevokeOp(record) =>
        if record in l.records {
          RevokingKeepsSound(l, {record});
        }
      case RevokeEvidenceOp(evidenceId) => RevokingKeepsSound(l, CarriersOf(l, evidenceId));
    }
  }

  /** After any run, the live records are a gap-free chain of lattice edges that cite only live
      records, and replaying them alone gives every artifact the ledger's grade. */
  lemma {:induction false} EveryRunIsSound(ops: seq<Op>, n: nat)
    requires n <= |ops|
    ensures Sound(Run(ops, n))
    ensures var l := Run(ops, n);
      forall a :: a in l.baseline ==> Replay(l, a, l.next) == Some(Effective(l, a))
  {
    if n > 0 {
      EveryRunIsSound(ops, n - 1);
      ApplyKeepsSound(Run(ops, n - 1), ops[n - 1]);
    }
    var l := Run(ops, n);
    forall a | a in l.baseline ensures Replay(l, a, l.next) == Some(Effective(l, a)) {
      ReplayReproduces(l, a, l.next);
    }
  }

  // ----- revoking what does not rest on the record ---------------------------------------------

  /** The run that declares, upgrades, revokes that upgrade, takes the same step again and goes on. */
  function StaleRun(): seq<Op> {
    var receipt := VerificationReceipt("d");
    [DeclareOp("x", ObservedOnly), UpgradeOp("x", SoundOverapproximation, receipt, ""), RevokeOp(0),
     UpgradeOp("x", SoundOverapproximation, receipt, ""), UpgradeOp("x", Complete, receipt, "")]
  }

  lemma StaleRunState()
    ensures var receipt := VerificationReceipt("d");
      Run(StaleRun(), 5) == Ledger(
        map["x" := ObservedOnly],
        map[0 := GradeUpgradeRecord("x", ObservedOnly, SoundOverapproximation, receipt, "", 0),
            2 := GradeUpgradeRecord("x", ObservedOnly, SoundOverapproximation, receipt, "", 2),
            3 := GradeUpgradeRecord("x", SoundOverapproximation, Complete, receipt, "", 3)],
        {0}, 4)
  {
    var ops, receipt := StaleRun(), VerificationReceipt("d");
    var first := GradeUpgradeRecord("x", ObservedOnly, SoundOverapproximation, receipt, "", 0);
    var again := GradeUpgradeRecord("x", ObservedOnly, SoundOverapproximation, receipt, "", 2);
    assert Run(ops, 0) == Ledger(map[], map[], {}, 0);
    assert Run(ops, 1) == Ledger(map["x" := ObservedOnly], map[], {}, 0);
    assert Run(ops, 2) == Ledger(map["x" := ObservedOnly], map[0 := first], {}, 1);
    LoneCascade(first);
    assert Run(ops, 3) == Ledger(map["x" := ObservedOnly], map[0 := first], {0}, 2);
    assert LastLive(Run(ops, 3), "x", 1) == None;
    assert Run(ops, 4) == Ledger(map["x" := ObservedOnly], map[0 := first, 2 := again], {0}, 3);
    assert LastLive(Run(ops, 4), "x", 3) == Some(2);
  }

  lemma LoneCascade(r: GradeUpgradeRecord)
    ensures CascadeOf(map[0 := r], {0}) == {0}
  {
  }

  /** Revoking a record that is itself already revoked can still take down a live upgrade that never
      rested on it: 0 is revoked, 2 took its step again, and 3 was built on 2. */
  lemma StaleRevocationHitsLive()
    ensures var l := Run(StaleRun(), 5); 0 in l.revoked && IsLive(l, 3) && 3 in CascadeOf(l.records, {0})
  {
    StaleRunState();
    var l := Run(StaleRun(), 5);
    assert (0, 3) in Dependents(l.records);
  }

  /** A live record goes on from the grade that a revoked record of the cascade had reached. */
  ghost predicate StepRetaken(l: Ledger, record: nat, x: nat, o: nat) {
    && x in CascadeOf(l.records, {record}) && x in l.revoked && x in l.records && IsLive(l, o) && o > x
    && l.records[o].artifact == l.records[x].artifact && l.records[o].from == l.records[x].to
  }

  /** The dependencies between live records. */
  ghost function LiveDependents(l: Ledger): set<(nat, nat)> {
    set e | e in Dependents(l.records) && IsLive(l, e.0) && IsLive(l, e.1)
  }

  /** Through live records only, `o` was built on `record`. */
  ghost predicate RestsOn(l: Ledger, record: nat, o: nat) {
    IsLive(l, record) && Reaches(LiveDependents(l), record, o)
  }

  lemma {:induction false} LastDead(l: Ledger, p: seq<nat>) returns (i: nat)
    requires |p| > 0 && (exists j :: 0 <= j < |p| && !IsLive(l, p[j])) && IsLive(l, p[|p| - 1])
    ensures i + 1 < |p| && !IsLive(l, p[i]) && forall j :: i < j < |p| ==> IsLive(l, p[j])
  {
    if !IsLive(l, p[|p| - 2]) {
      i := |p| - 2;
    } else {
      i := LastDead(l, p[..|p| - 1]);
    }
  }

  lemma {:induction false} RestsAlong(l: Ledger, record: nat, p: seq<nat>)
    requires IsPath(Dependents(l.records), p) && (forall j :: 0 <= j < |p| ==> IsLive(l, p[j]))
    requires RestsOn(l, record, p[0])
    ensures RestsOn(l, record, p[|p| - 1])
    decreases |p|
  {
    if |p| > 1 {
      RestsAlong(l, record, p[..|p| - 1]);
      assert (p[|p| - 2], p[|p| - 1]) in Dependents(l.records);
      ExtendReach(LiveDependents(l), record, p[|p| - 2], p[|p| - 1]);
    }
  }

  lemma {:induction false} RestsInCascade(l: Ledger, record: nat, p: seq<nat>)
    requires record in l.records && IsPath(LiveDependents(l), p) && p[0] == record && IsLive(l, record)
    ensures p[|p| - 1] in CascadeOf(l.records, {record}) && IsLive(l, p[|p| - 1])
    decreases |p|
  {
    if |p| > 1 {
      RestsInCascade(l, record, p[..|p| - 1]);
      assert (p[|p| - 2], p[|p| - 1]) in LiveDependents(l);
    }
  }

  /** A live record of the cascade rests on the record, or some live record that does not goes on from
      where a revoked record of the cascade had ended. */
  lemma LiveByStep(l: Ledger, record: nat, o: nat)
    requires Sound(l) && record in l.records && o in CascadeOf(l.records, {record}) && IsLive(l, o)
    ensures RestsOn(l, record, o) || exists x: nat, y: nat :: StepRetaken(l, record, x, y) && !RestsOn(l, record, y)
  {
    assert ReachedFrom(Dependents(l.records), {record}, o);
    var p :| Links(Dependents(l.records), record, o, p);
    if forall j :: 0 <= j < |p| ==> IsLive(l, p[j]) {
      ReachesSelf(LiveDependents(l), record);
      RestsAlong(l, record, p);
    } else {
      var i := LastDead(l, p);
      CascadeHoldsPath(l, record, p, i);
      assert (p[i], p[i + 1]) in Dependents(l.records);
      assert Grounded(l, p[i + 1]);
      assert StepRetaken(l, record, p[i], p[i + 1]);
      if RestsOn(l, record, p[i + 1]) {
        RestsAlong(l, record, p[i + 1..]);
      }
    }
  }

  /** Exactly when a revocation takes down only what was built on the record: the live part of the
      cascade is what rests on the record if and only if so does every live record that goes on from
      where a revoked record of the cascade had ended. */
  lemma CascadeIsExactIff(l: Ledger, record: nat)
    requires Sound(l) && record in l.records
    ensures (forall o: nat :: o in CascadeOf(l.records, {record}) && IsLive(l, o) <==> RestsOn(l, record, o)) <==>
            (forall x: nat, o: nat :: StepRetaken(l, record, x, o) ==> RestsOn(l, record, o))
  {
    forall o: nat | RestsOn(l, record, o) ensures o in CascadeOf(l.records, {record}) && IsLive(l, o) {
      var p :| Links(LiveDependents(l), record, o, p);
      RestsInCascade(l, record, p);
    }
    forall x: nat, o: nat | StepRetaken(l, record, x, o) ensures o in CascadeOf(l.records, {record}) {
      assert (x, o) in Dependents(l.records);
    }
    forall o: nat | o in CascadeOf(l.records, {record}) && IsLive(l, o)
      ensures RestsOn(l, record, o) || exists x: nat, y: nat :: StepRetaken(l, record, x, y) && !RestsOn(l, record, y)
    {
      LiveByStep(l, record, o);
    }
  }

  /** In particular, revoking an already revoked record is refused, and touches nothing live, if and
      only if no live record goes on from where a revoked record of its cascade had ended. */
  lemma StaleRevocationIff(l: Ledger, record: nat)
    requires Sound(l) && record in l.records && record in l.revoked
    ensures CascadeOf(l.records, {record}) <= l.revoked <==> !exists x: nat, o: nat :: StepRetaken(l, record, x, o)
  {
    CascadeIsExactIff(l, record);
    assert forall o: nat :: !RestsOn(l, record, o);
  }

  /** Two artifacts: `y` is upgraded on the word of an upgrade of `x`, that is revoked, and `y` takes the
      step again on its own evidence and goes on. */
  function OverrunRun(): seq<Op> {
    var receipt := VerificationReceipt("d");
    [DeclareOp("x", ObservedOnly), DeclareOp("y", ObservedOnly), UpgradeOp("x", SoundOverapproximation, receipt, ""),
     UpgradeOp("y", SoundOverapproximation, PriorUpgrade(0), ""), RevokeOp(1),
     UpgradeOp("y", SoundOverapproximation, receipt, ""), UpgradeOp("y", Complete, receipt, "")]
  }

  lemma LastCascade(first: GradeUpgradeRecord, second: GradeUpgradeRecord)
    ensures CascadeOf(map[0 := first, 1 := second], {1}) == {1}
  {
    var records := map[0 := first, 1 := second];
    assert ClosedUnder(Dependents(records), {1});
    ReachSetIsLeast(Dependents(records), {1}, CascadeOf(records, {1}), {1});
  }

  lemma OverrunFront()
    ensures var receipt := VerificationReceipt("d");
      Run(OverrunRun(), 4) == Ledger(
        map["x" := ObservedOnly, "y" := ObservedOnly],
        map[0 := GradeUpgradeRecord("x", ObservedOnly, SoundOverapproximation, receipt, "", 0),
            1 := GradeUpgradeRecord("y", ObservedOnly, SoundOverapproximation, PriorUpgrade(0), "", 1)],
        {}, 2)
  {
    var ops, receipt := OverrunRun(), VerificationReceipt("d");
    var base := map["x" := ObservedOnly, "y" := ObservedOnly];
    var zero := GradeUpgradeRecord("x", ObservedOnly, SoundOverapproximation, receipt, "", 0);
    assert Run(ops, 0) == Ledger(map[], map[], {}, 0);
    assert Run(ops, 1) == Ledger(map["x" := ObservedOnly], map[], {}, 0);
    assert Run(ops, 2) == Ledger(base, map[], {}, 0);
    assert Run(ops, 3) == Ledger(base, map[0 := zero], {}, 1);
    assert LastLive(Run(ops, 3), "y", 1) == None;
  }

  lemma OverrunState()
    ensures var receipt := VerificationReceipt("d");
      var l := Run(OverrunRun(), 7);
      && l.baseline == map["x" := ObservedOnly, "y" := ObservedOnly] && l.revoked == {1}
      && l.records ==
         map[0 := GradeUpgradeRecord("x", ObservedOnly, SoundOverapproximation, receipt, "", 0),
             1 := GradeUpgradeRecord("y", ObservedOnly, SoundOverapproximation, PriorUpgrade(0), "", 1),
             3 := GradeUpgradeRecord("y", ObservedOnly, SoundOverapproximation, receipt, "", 3),
             4 := GradeUpgradeRecord("y", SoundOverapproximation, Complete, receipt, "", 4)]
  {
    var ops, receipt := OverrunRun(), VerificationReceipt("d");
    var base := map["x" := ObservedOnly, "y" := ObservedOnly];
    var zero := GradeUpgradeRecord("x", ObservedOnly, SoundOverapproximation, receipt, "", 0);
    var one := GradeUpgradeRecord("y", ObservedOnly, SoundOverapproximation, PriorUpgrade(0), "", 1);
    var three := GradeUpgradeRecord("y", ObservedOnly, SoundOverapproximation, receipt, "", 3);
    OverrunFront();
    LastCascade(zero, one);
    assert Run(ops, 5) == Ledger(base, map[0 := zero, 1 := one], {1}, 3);
    assert LastLive(Run(ops, 5), "y", 1) == None;
    assert LastLive(Run(ops, 5), "y", 3) == None;
    assert Run(ops, 6) == Ledger(base, map[0 := zero, 1 := one, 3 := three], {1}, 4);
    assert LastLive(Run(ops, 6), "y", 4) == Some(3);
  }

  /** Revoking a live record can take down a live upgrade that does not rest on it: 4 goes on from 3,
      and 3 stays. */
  lemma RevocationOverruns()
    ensures var l := Run(OverrunRun(), 7);
      var cascade := CascadeOf(l.records, {0});
      IsLive(l, 0) && IsLive(l, 4) && 4 in cascade && !RestsOn(l, 0, 4) && IsLive(l, 3) && 3 !in cascade
  {
    OverrunState();
    var l := Run(OverrunRun(), 7);
    OverrunEdges(l.records);
    OverrunReach(l);
  }

  lemma OverrunEdges(records: map<nat, GradeUpgradeRecord>)
    requires var receipt := VerificationReceipt("d");
      records ==
      map[0 := GradeUpgradeRecord("x", ObservedOnly, SoundOverapproximation, receipt, "", 0),
          1 := GradeUpgradeRecord("y", ObservedOnly, SoundOverapproximation, PriorUpgrade(0), "", 1),
          3 := GradeUpgradeRecord("y", ObservedOnly, SoundOverapproximation, receipt, "", 3),
          4 := GradeUpgradeRecord("y", SoundOverapproximation, Complete, receipt, "", 4)]
    ensures forall c, o :: (c, o) in Dependents(records) <==> (c, o) == (0, 1) || (c, o) == (1, 4) || (c, o) == (3, 4)
  {
    forall c, o ensures (c, o) in Dependents(records) <==> (c, o) == (0, 1) || (c, o) == (1, 4) || (c, o) == (3, 4) {
      assert (c, o) in Dependents(records) <==> c in records && o in records && DependsOn(records, c, o);
    }
  }

  lemma OverrunReach(l: Ledger)
    requires l.records.Keys == {0, 1, 3, 4} && l.revoked == {1}
    requires forall c, o :: (c, o) in Dependents(l.records) <==>
             (c, o) == (0, 1) || (c, o) == (1, 4) || (c, o) == (3, 4)
    ensures 4 in CascadeOf(l.records, {0}) && 3 !in CascadeOf(l.records, {0}) && !RestsOn(l, 0, 4)
  {
    var cascade := CascadeOf(l.records, {0});
    assert (0, 1) in Dependents(l.records) && (1, 4) in Dependents(l.records);
    assert ClosedUnder(Dependents(l.records), {0, 1, 4});
    ReachSetIsLeast(Dependents(l.records), {0}, cascade, {0, 1, 4});
    assert ClosedUnder(LiveDependents(l), {0});
    forall p | Links(LiveDependents(l), 0, 4, p) ensures false {
      PathStaysInside(LiveDependents(l), {0}, p);
    }
  }

  lemma CascadeHoldsPath(l: Ledger, record: nat, p: seq<nat>, i: nat)
    requires record in l.records && IsPath(Dependents(l.records), p) && p[0] == record && i < |p|
    ensures p[i] in CascadeOf(l.records, {record})
  {
    assert Links(Dependents(l.records), record, p[i], p[..i + 1]);
    assert ReachedFrom(Dependents(l.records), {record}, p[i]);
  }

  // ----- the ledger object --------------------------------------------------------------------

  /** The newest-record-wins scan over the ordinals. */
  method EffectiveOf(l: Ledger, artifact: string) returns (r: Option<GradeName>)
    ensures r == if artifact in l.baseline then Some(Effective(l, artifact)) else None
  {
    if artifact !in l.baseline {
      return None;
    }
    var effective := l.baseline[artifact];
    for o := 0 to l.next
      invariant effective == GradeBefore(l, artifact, o)
    {
      if o in l.records && l.records[o].artifact == artifact && o !in l.revoked {
        effective := l.records[o].to;
      }
    }
    r := Some(effective);
  }

  /** The dependents of `current` that are not yet in the cascade, pushed on the stack. */
  method PushDependents(records: map<nat, GradeUpgradeRecord>, next: nat, cascade: set<nat>, current: nat,
                        stack0: seq<nat>)
    returns (stack: seq<nat>)
    requires current in records && forall o :: o in records ==> o < next
    ensures forall x :: x in stack <==> x in stack0 || (x in records && x !in cascade && DependsOn(records, current, x))
  {
    stack := stack0;
    for o := 0 to next
      invariant forall x :: x in stack <==>
                  x in stack0 || (x < o && x in records && x !in cascade && DependsOn(records, current, x))
    {
      if o in records && o !in cascade && DependsOn(records, current, o) {
        stack := stack + [o];
      }
    }
  }

  method Cascade(records: map<nat, GradeUpgradeRecord>, next: nat, record: nat) returns (cascade: set<nat>)
    requires record in records && forall o :: o in records ==> o < next
    ensures cascade == CascadeOf(records, {record})
  {
    ghost var goal := CascadeOf(records, {record});
    cascade := {};
    var stack := [record];
    while stack != []
      invariant cascade <= goal && forall x :: x in stack ==> x in goal
      invariant record in cascade || record in stack
      invariant forall c, o :: c in cascade && o in records && DependsOn(records, c, o) ==> o in cascade || o in stack
      decreases goal - cascade, |stack|
    {
      var current := stack[|stack| - 1];
      ghost var before := stack;
      stack := stack[..|stack| - 1];
      assert forall x :: x in before ==> x == current || x in stack;
      if current !in cascade {
        cascade := cascade + {current};
        forall o | o in records && DependsOn(records, current, o) ensures o in goal {
          assert (current, o) in Dependents(records);
        }
        stack := PushDependents(records, next, cascade, current, stack);
      }
    }
    assert ClosedUnder(Dependents(records), cascade);
    ReachSetIsLeast(Dependents(records), {record}, goal, cascade);
  }

  method InOrder(s: set<nat>, next: nat) returns (q: seq<nat>)
    requires forall o :: o in s ==> o < next
    ensures Distinct(q) && Elems(q) == s
    ensures forall i, j :: 0 <= i < j < |q| ==> q[i] < q[j]
  {
    q := [];
    for o := 0 to next
      invariant forall x :: x in q <==> x in s && x < o
      invariant forall i :: 0 <= i < |q| ==> q[i] < o
      invariant forall i, j :: 0 <= i < j < |q| ==> q[i] < q[j]
    {
      if o in s {
        q := q + [o];
      }
    }
  }

  ghost predicate HasNote(notes: map<nat, GradeRevocation>, o: nat) {
    exists n :: n in notes && notes[n].record == o
  }

  /** One note per revoked record, each at an ordinal of its own. */
  ghost predicate NotesMatch(notes: map<nat, GradeRevocation>, l: Ledger) {
    && (forall n :: n in notes ==>
          n < l.next && n !in l.records && notes[n].ordinal == n && notes[n].record in l.revoked)
    && (forall n, m :: n in notes && m in notes && notes[n].record == notes[m].record ==> n == m)
    && (forall o {:trigger HasNote(notes, o)} :: o in l.revoked ==> HasNote(notes, o))
  }

  /** A revoked record's note, resting at the artifact's grade after the round. */
  ghost predicate IsNoteFor(notes: map<nat, GradeRevocation>, k: nat, record: nat, l: Ledger, reason: string,
                            actor: string) {
    && k in notes && notes[k].ordinal == k && notes[k].record == record
    && notes[k].reason == reason && notes[k].actor == actor
    && record in l.records && l.records[record].artifact in l.baseline
    && notes[k].restoredTo == Effective(l, l.records[record].artifact)
  }

  /** The notes of one revocation, in the order of the revoked records. */
  ghost predicate NotesAdded(before: map<nat, GradeRevocation>, after: map<nat, GradeRevocation>, l: Ledger, base: nat,
                             revoked: seq<nat>, n: nat, reason: string, actor: string)
    requires n <= |revoked|
  {
    && (forall k :: k in after <==> k in before || base <= k < base + n)
    && (forall k :: k in before && k < base ==> after[k] == before[k])
    && (forall i {:trigger revoked[i]} :: 0 <= i < n ==> IsNoteFor(after, base + i, revoked[i], l, reason, actor))
  }

  method WriteNotes(l: Ledger, revoked: seq<nat>, before: map<nat, GradeRevocation>, reason: string, actor: string)
    returns (after: map<nat, GradeRevocation>, next: nat)
    requires WellFormed(l) && forall o :: o in revoked ==> o in l.records
    requires forall k :: k in before ==> k < l.next
    ensures next == l.next + |revoked|
    ensures NotesAdded(before, after, l, l.next, revoked, |revoked|, reason, actor)
  {
    after, next := before, l.next;
    for i := 0 to |revoked|
      invariant next == l.next + i
      invariant NotesAdded(before, after, l, l.next, revoked, i, reason, actor)
    {
      var restored := EffectiveOf(l, l.records[revoked[i]].artifact);
      assert revoked[i] in revoked;
      after := after[next := GradeRevocation(next, revoked[i], reason, actor, restored.value)];
      next := next + 1;
    }
  }

  class GradeLedger {
    var baseline: map<string, GradeName>
    var records: map<nat, GradeUpgradeRecord>
    var revoked: set<nat>
    var revocations: map<nat, GradeRevocation>
    var nextOrdinal: nat

    ghost function View(): Ledger
      reads this
    {
      Ledger(baseline, records, revoked, nextOrdinal)
    }

    ghost predicate Valid()
      reads this
    {
      Sound(View()) && NotesMatch(revocations, View())
    }

    constructor ()
      ensures Valid() && View() == Run([], 0)
    {
      baseline, records, revoked, revocations, nextOrdinal := map[], map[], {}, map[], 0;
    }

    method DeclareGrade(artifact: string, grade: GradeName) returns (r: Result<(), GradeError>)
      requires Valid()
      modifies this`baseline
      ensures Valid() && View() == Apply(old(View()), DeclareOp(artifact, grade))
      ensures r == if artifact in old(baseline) then Err(AlreadyDeclared(artifact)) else Ok(())
    {
      if artifact in baseline {
        return Err(AlreadyDeclared(artifact));
      }
      DeclareKeepsSound(View(), artifact, grade);
      baseline := baseline[artifact := grade];
      r := Ok(());
    }

    method EffectiveGrade(artifact: string) returns (r: Option<GradeName>)
      ensures r == if artifact in baseline then Some(Effective(View(), artifact)) else None
    {
      r := EffectiveOf(Ledger(baseline, records, revoked, nextOrdinal), artifact);
    }

    method Upgrade(artifact: string, to: GradeName, evidence: GradeEvidence, actor: string) returns (r: Result<nat,
                                                                                                     GradeError>)
      requires Valid()
      modifies this`records, this`nextOrdinal
      ensures Valid() && View() == Apply(old(View()), UpgradeOp(artifact, to, evidence, actor))
      ensures r.Err? ==> Rejection(old(View()), artifact, to, evidence) == Some(r.error)
      ensures r.Ok? ==> Rejection(old(View()), artifact, to, evidence).None? && r.value == old(nextOrdinal)
      ensures r.Ok? ==> Effective(View(), artifact) == to && records[r.value].from == Effective(old(View()), artifact)
    {
      var l';
      r, l' := Promote(Ledger(baseline, records, revoked, nextOrdinal), artifact, to, evidence, actor);
      PromoteKeepsNotes(revocations, View(), l');
      records, nextOrdinal := l'.records, l'.next;
    }

    /** Revokes the live part of the least dependency-closed set above the record, and fails with
        AlreadyRevoked exactly when that set holds nothing live. `live` lists what was revoked. */
    method RevokeUpgrade(record: nat, reason: string, actor: string) returns (r: Result<nat, GradeError>,
                                                                              ghost live: seq<nat>)
      requires Valid()
      modifies this`revoked, this`revocations, this`nextOrdinal
      ensures Valid() && View() == Apply(old(View()), RevokeOp(record))
      ensures r.Err? ==> revocations == old(revocations)
      ensures RevokeVerdict(old(View()), record, r)
      ensures r.Ok? ==> LiveNotes(old(View()), old(revocations), revocations, record, live, reason, actor)
    {
      var l := Ledger(baseline, records, revoked, nextOrdinal);
      var l', notes;
      r, l', notes, live := Revoke(l, revocations, record, reason, actor);
      revoked, revocations, nextOrdinal := l'.revoked, notes, l'.next;
    }

    /** Revokes every live record that carries the evidence, with everything built on them. */
    method RevokeEvidence(evidenceId: string, reason: string, actor: string) returns (total: nat)
      requires Valid()
      modifies this`revoked, this`revocations, this`nextOrdinal
      ensures Valid() && View() == Apply(old(View()), RevokeEvidenceOp(evidenceId))
      ensures total == |CascadeOf(records, CarriersOf(old(View()), evidenceId)) - old(revoked)|
    {
      var l := Ledger(baseline, records, revoked, nextOrdinal);
      var targets := InOrder(CarriersOf(l, evidenceId), nextOrdinal);
      var l', notes;
      total, l', notes := RevokeEach(l, revocations, targets, reason, actor);
      revoked, revocations, nextOrdinal := l'.revoked, notes, l'.next;
    }
  }

  method Promote(l: Ledger, artifact: string, to: GradeName, evidence: GradeEvidence, actor: string)
    returns (r: Result<nat, GradeError>, l': Ledger)
    requires Sound(l)
    ensures Sound(l') && l' == Apply(l, UpgradeOp(artifact, to, evidence, actor))
    ensures l'.baseline == l.baseline && l'.revoked == l.revoked && l.next <= l'.next
    ensures l'.records.Keys <= l.records.Keys + {l.next}
    ensures r.Err? ==> Rejection(l, artifact, to, evidence) == Some(r.error) && l' == l
    ensures r.Ok? ==> Rejection(l, artifact, to, evidence).None? && r.value == l.next && r.value in l'.records
    ensures r.Ok? ==> Effective(l', artifact) == to && l'.records[r.value].from == Effective(l, artifact)
  {
    var from := StartingGrade(l, artifact, to, evidence);
    if from.Err? {
      return Err(from.error), l;
    }
    var record := GradeUpgradeRecord(artifact, from.value, to, evidence, actor, l.next);
    UpgradeKeepsSound(l, record);
    r, l' := Ok(record.ordinal), Upgraded(l, record);
  }

  lemma PromoteKeepsNotes(notes: map<nat, GradeRevocation>, l: Ledger, m: Ledger)
    requires NotesMatch(notes, l) && m.revoked == l.revoked && l.next <= m.next
    requires m.records.Keys <= l.records.Keys + {l.next}
    ensures NotesMatch(notes, m)
  {
  }

  /** What a revocation answers. */
  ghost predicate RevokeVerdict(l: Ledger, record: nat, r: Result<nat, GradeError>) {
    if record !in l.records then r == Err(NoSuchRecord(record))
    else if CascadeOf(l.records, {record}) <= l.revoked then r == Err(AlreadyRevoked(record))
    else r == Ok(|CascadeOf(l.records, {record}) - l.revoked|)
  }

  /** `live` is the live part of the cascade in ordinal order, one new note for each. */
  ghost predicate LiveNotes(l: Ledger, before: map<nat, GradeRevocation>, after: map<nat, GradeRevocation>, record: nat,
                            live: seq<nat>, reason: string, actor: string) {
    && Elems(live) == CascadeOf(l.records, {record}) - l.revoked
    && NotesAdded(before, after, RevokedBy(l, Elems(live)), l.next, live, |live|, reason, actor)
  }

  /** Mark the records revoked and write a note for each. */
  method MarkRevoked(l: Ledger, notes: map<nat, GradeRevocation>, live: seq<nat>, reason: string, actor: string)
    returns (l': Ledger, notes': map<nat, GradeRevocation>)
    requires Sound(l) && NotesMatch(notes, l) && Distinct(live) && Elems(live) <= l.records.Keys
    requires Elems(live) !! l.revoked && WellFormed(RevokedBy(l, Elems(live)))
    ensures l' == l.(revoked := l.revoked + Elems(live), next := l.next + |live|) && NotesMatch(notes', l')
    ensures NotesAdded(notes, notes', RevokedBy(l, Elems(live)), l.next, live, |live|, reason, actor)
  {
    var marked := RevokedBy(l, Elems(live));
    var next;
    notes', next := WriteNotes(marked, live, notes, reason, actor);
    NotesStillMatch(notes, notes', l, marked, live, reason, actor);
    l' := marked.(next := next);
  }

  method Revoke(l: Ledger, notes: map<nat, GradeRevocation>, record: nat, reason: string, actor: string)
    returns (r: Result<nat, GradeError>, l': Ledger, notes': map<nat, GradeRevocation>, ghost live: seq<nat>)
    requires Sound(l) && NotesMatch(notes, l)
    ensures Sound(l') && NotesMatch(notes', l') && l' == Apply(l, RevokeOp(record))
    ensures r.Err? ==> notes' == notes && l' == l
    ensures RevokeVerdict(l, record, r)
    ensures r.Ok? ==> LiveNotes(l, notes, notes', record, live, reason, actor)
  {
    live := [];
    if record !in l.records {
      return Err(NoSuchRecord(record)), l, notes, live;
    }
    var toRevoke := LiveCascade(l, record);
    live := toRevoke;
    if toRevoke == [] {
      return Err(AlreadyRevoked(record)), l, notes, live;
    }
    l', notes' := MarkRevoked(l, notes, toRevoke, reason, actor);
    r := Ok(|toRevoke|);
  }

  method RevokeEach(l: Ledger, notes: map<nat, GradeRevocation>, targets: seq<nat>, reason: string, actor: string)
    returns (total: nat, l': Ledger, notes': map<nat, GradeRevocation>)
    requires Sound(l) && NotesMatch(notes, l) && Elems(targets) <= l.records.Keys
    ensures Sound(l') && NotesMatch(notes', l') && l' == AfterRevoking(l, Elems(targets))
    ensures total == |CascadeOf(l.records, Elems(targets)) - l.revoked|
  {
    total, l', notes' := 0, l, notes;
    RevokeNone(l);
    ghost var done: set<nat> := {};
    for i := 0 to |targets|
      invariant Sound(l') && NotesMatch(notes', l')
      invariant done == Elems(targets[..i])
      invariant l' == AfterRevoking(l, done)
      invariant total == |CascadeOf(l.records, done) - l.revoked|
    {
      assert targets[i] in Elems(targets);
      PrefixGrows(targets, i);
      var more;
      more, l', notes' := RevokeNext(l, done, l', notes', targets[i], reason, actor);
      total := total + more;
      done := done + {targets[i]};
    }
    assert targets[..|targets|] == targets;
  }

  method RevokeNext(ghost l: Ledger, ghost done: set<nat>, cur: Ledger, notes: map<nat, GradeRevocation>, target: nat,
                    reason: string, actor: string)
    returns (more: nat, l': Ledger, notes': map<nat, GradeRevocation>)
    requires Sound(cur) && NotesMatch(notes, cur) && cur == AfterRevoking(l, done) && target in l.records
    ensures Sound(l') && NotesMatch(notes', l') && l' == AfterRevoking(l, done + {target})
    ensures more == |CascadeOf(l.records, done + {target}) - l.revoked| - |CascadeOf(l.records, done) - l.revoked|
  {
    CascadeGrows(l, done, target);
    RevokeOneMore(l, done, target);
    var step;
    ghost var live;
    step, l', notes', live := Revoke(cur, notes, target, reason, actor);
    more := if step.Ok? then step.value else 0;
  }

  lemma PrefixGrows(s: seq<nat>, i: nat)
    requires i < |s|
    ensures Elems(s[..i + 1]) == Elems(s[..i]) + {s[i]}
  {
    assert s[..i + 1] == s[..i] + [s[i]];
  }

  lemma RevokeNone(l: Ledger)
    ensures AfterRevoking(l, {}) == l && |CascadeOf(l.records, {}) - l.revoked| == 0
  {
    CascadeOfNone(l.records);
    assert l.revoked + {} == l.revoked;
  }

  lemma RevokeOneMore(l: Ledger, seeds: set<nat>, x: nat)
    ensures AfterRevoking(AfterRevoking(l, seeds), {x}) == AfterRevoking(l, seeds + {x})
  {
    CascadeGrows(l, seeds, x);
  }

  /** The part of a record's cascade that is still live, in ordinal order. */
  method LiveCascade(l: Ledger, record: nat) returns (q: seq<nat>)
    requires Sound(l) && record in l.records
    ensures Distinct(q) && Elems(q) == CascadeOf(l.records, {record}) - l.revoked && Elems(q) <= l.records.Keys
    ensures |q| == |CascadeOf(l.records, {record}) - l.revoked|
    ensures q == [] <==> CascadeOf(l.records, {record}) <= l.revoked
    ensures l.(revoked := l.revoked + Elems(q), next := l.next + |q|) == AfterRevoking(l, {record})
    ensures WellFormed(RevokedBy(l, Elems(q))) && Sound(AfterRevoking(l, {record}))
  {
    var cascade := Cascade(l.records, l.next, record);
    var live := cascade - l.revoked;
    q := InOrder(live, l.next);
    DistinctCount(q);
    assert l.revoked + live == l.revoked + cascade;
    assert q == [] <==> live == {};
    RevokeAllKeepsSound(l, cascade);
  }

  lemma CascadeOfNone(records: map<nat, GradeUpgradeRecord>)
    ensures CascadeOf(records, {}) == {}
  {
    ReachSetIsLeast(Dependents(records), {}, CascadeOf(records, {}), {});
  }

  /** Revoking one more seed adds exactly its own cascade. */
  lemma CascadeGrows(l: Ledger, seeds: set<nat>, x: nat)
    ensures CascadeOf(l.records, seeds + {x}) == CascadeOf(l.records, seeds) + CascadeOf(l.records, {x})
    ensures |CascadeOf(l.records, seeds + {x}) - l.revoked| ==
            |CascadeOf(l.records, seeds) - l.revoked| +
            |CascadeOf(l.records, {x}) - (l.revoked + CascadeOf(l.records, seeds))|
  {
    var edges := Dependents(l.records);
    var a, b, c := CascadeOf(l.records, seeds), CascadeOf(l.records, {x}), CascadeOf(l.records, seeds + {x});
    ReachSetIsLeast(edges, seeds, a, c);
    ReachSetIsLeast(edges, {x}, b, c);
    ReachSetIsLeast(edges, seeds + {x}, c, a + b);
    assert c - l.revoked == (a - l.revoked) + (b - (l.revoked + a));
  }

  /** The checks of an upgrade, in order. */
  method StartingGrade(l: Ledger, artifact: string, to: GradeName,
                       evidence: GradeEvidence) returns (r: Result<GradeName, GradeError>)
    ensures r.Err? ==> Rejection(l, artifact, to, evidence) == Some(r.error)
    ensures r.Ok? ==> Rejection(l, artifact, to, evidence).None? && r.value == Effective(l, artifact)
  {
    var from := EffectiveOf(l, artifact);
    if from.None? {
      return Err(UnknownArtifact(artifact));
    }
    if HasEmptyReference(evidence) {
      return Err(EvidenceRequired);
    }
    if evidence.PriorUpgrade? {
      if evidence.record !in l.records {
        return Err(NoSuchRecord(evidence.record));
      }
      if evidence.record in l.revoked {
        return Err(AlreadyRevoked(evidence.record));
      }
    }
    if !MayUpgradeTo(from.value, to) {
      return Err(UpgradeNotAllowed(from.value, to));
    }
    r := Ok(from.value);
  }

  lemma NotesStillMatch(notes: map<nat, GradeRevocation>, after: map<nat, GradeRevocation>, l: Ledger, m: Ledger,
                        added: seq<nat>, reason: string, actor: string)
    requires WellFormed(l) && NotesMatch(notes, l) && m == l.(revoked := l.revoked + Elems(added))
    requires Distinct(added) && Elems(added) !! l.revoked && Elems(added) <= l.records.Keys
    requires NotesAdded(notes, after, m, l.next, added, |added|, reason, actor)
    ensures NotesMatch(after, m.(next := l.next + |added|))
  {
    NewNotes(notes, after, l, m, added, reason, actor);
    AllNoted(notes, after, l, m, added, reason, actor);
    forall k: nat, i: nat | k in after && i in after && after[k].record == after[i].record ensures k == i {
      if k !in notes && i !in notes {
        assert added[k - l.next] == added[i - l.next];
      }
    }
  }

  /** Every note that was added is for its place in the list, and its record was not revoked before. */
  lemma NewNotes(notes: map<nat, GradeRevocation>, after: map<nat, GradeRevocation>, l: Ledger, m: Ledger,
                 added: seq<nat>, reason: string, actor: string)
    requires Elems(added) !! l.revoked && NotesAdded(notes, after, m, l.next, added, |added|, reason, actor)
    ensures forall k :: k in after && k !in notes ==>
              && l.next <= k < l.next + |added| && after[k].ordinal == k && after[k].record == added[k - l.next]
              && added[k - l.next] in Elems(added) && added[k - l.next] !in l.revoked
  {
    forall k: nat | k in after && k !in notes
      ensures l.next <= k < l.next + |added| && after[k].ordinal == k && after[k].record == added[k - l.next]
    {
      assert added[k - l.next] in added;
    }
  }

  lemma AllNoted(notes: map<nat, GradeRevocation>, after: map<nat, GradeRevocation>, l: Ledger, m: Ledger,
                 added: seq<nat>, reason: string, actor: string)
    requires NotesMatch(notes, l) && m.revoked == l.revoked + Elems(added)
    requires NotesAdded(notes, after, m, l.next, added, |added|, reason, actor)
    ensures forall o: nat {:trigger HasNote(after, o)} :: o in m.revoked ==> HasNote(after, o)
  {
    forall o: nat | o in m.revoked ensures HasNote(after, o) {
      if o in l.revoked {
        assert HasNote(notes, o);
        var n :| n in notes && notes[n].record == o;
        assert after[n].record == o;
      } else {
        var i :| 0 <= i < |added| && added[i] == o;
        assert after[l.next + i].record == o;
      }
    }
  }
}
