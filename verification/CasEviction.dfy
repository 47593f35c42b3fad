/** The content-addressed store of fszero-store: publishing, slack-guarded eviction that replicates
    and marks cold before it deletes, and repair from replicas.

    File-system calls that may fail are answered by the fields of `Env`, one arbitrary answer each. */
module CasEviction {
  import opened Digraph
  import opened Wrappers

  type Bytes = seq<bv8>

  predicate IsFullLowerHex(s: string) {
    |s| == 64 && forall i :: 0 <= i < 64 ==> '0' <= s[i] <= '9' || 'a' <= s[i] <= 'f'
  }

  // Names of published objects.
  type Hash = s: string | IsFullLowerHex(s)
    witness seq(64, _ => '0')

  type Objects = map<Hash, Bytes>
  type Sha = Bytes -> Hash

  // ----- the validity ledger ------------------------------------------------------------------

  datatype ValidityRecord = ValidityRecord(size: nat, l2Valid: bool, l3Cold: bool, coldSince: Option<nat>)

  type Ledger = map<Hash, ValidityRecord>

  predicate Validates(r: ValidityRecord) {
    !(r.l3Cold && !r.l2Valid)
  }

  /** What reading the record gives: a file that cannot be read counts as absent. */
  function Loaded(l: Ledger, h: Hash, readable: bool): Option<ValidityRecord> {
    if readable && h in l then Some(l[h]) else None
  }

  /** A record that was read and fails validation stops the operation. */
  predicate Loads(l: Ledger, h: Hash, readable: bool) {
    Loaded(l, h, readable).Some? ==> Validates(l[h])
  }

  /** Record verified bytes as resident. `None` is a failure that wrote nothing. */
  function Published(l: Ledger, h: Hash, size: nat, readable: bool, writable: bool): Option<Ledger> {
    if !Loads(l, h, readable) || !writable then None else Some(l[h := ValidityRecord(size, true, false, None)])
  }

  /** Declare the bytes gone; a record that is seen to be cold already keeps its time. */
  function MarkedCold(l: Ledger, h: Hash, size: nat, now: nat, readable: bool, writable: bool): Option<Ledger> {
    if !Loads(l, h, readable) then None
    else if Loaded(l, h, readable).Some? && l[h].l3Cold then Some(l)
    else if !writable then None
    else Some(l[h := ValidityRecord(size, true, true, Some(now))])
  }

  predicate IsCold(l: Ledger, h: Hash) {
    h in l && l[h].l2Valid && l[h].l3Cold && l[h].coldSince.Some?
  }

  // ----- replicas -----------------------------------------------------------------------------

  datatype Target = LocalStore | Remote(root: string)
  type Replicas = map<string, Objects>

  function Holds(rs: Replicas, root: string): Objects {
    if root in rs then rs[root] else map[]
  }

  datatype Env = Env(
    targets: seq<Target>,
    live: set<Hash>,
    now: nat,
    oldEnough: Hash -> bool,
    measurable: Hash -> bool,
    sizeKnown: Hash -> bool,
    readable: Hash -> bool,
    layoutOk: string -> bool,
    accepts: (string, Hash) -> bool,
    recordReadable: Hash -> bool,
    recordWritable: Hash -> bool,
    deletable: Hash -> bool)

  datatype Replication = Replication(ok: bool, written: nat, replicas: Replicas)

  /** Copy to every remote target that does not hold the hash yet; the first failure stops. */
  function Replicate(sha: Sha, env: Env, targets: seq<Target>, h: Hash, bytes: Bytes, g: Replication): Replication
    decreases |targets|
  {
    if targets == [] || !g.ok then g
    else match targets[0]
      case LocalStore => Replicate(sha, env, targets[1..], h, bytes, g)
      case Remote(root) =>
        if !env.layoutOk(root) then g.(ok := false)
        else if h in Holds(g.replicas, root) then Replicate(sha, env, targets[1..], h, bytes, g)
        else if sha(bytes) != h || !env.accepts(root, h) then g.(ok := false)
        else
          var rs := g.replicas[root := Holds(g.replicas, root)[h := bytes]];
          Replicate(sha, env, targets[1..], h, bytes, Replication(true, g.written + 1, rs))
  }

  /** Nothing a replica held is changed, and what was added is verified bytes under `h`. */
  ghost predicate Extends(sha: Sha, before: Replicas, after: Replicas, h: Hash, bytes: Bytes) {
    forall root, k :: k in Holds(after, root) ==>
      || (k in Holds(before, root) && Holds(after, root)[k] == Holds(before, root)[k])
      || (k == h && k !in Holds(before, root) && Holds(after, root)[k] == bytes && sha(bytes) == h)
  }

  ghost predicate KeepsAll(before: Replicas, after: Replicas) {
    forall root, k :: k in Holds(before, root) ==>
      k in Holds(after, root) && Holds(after, root)[k] == Holds(before, root)[k]
  }

  lemma {:induction false} ReplicateReaches(sha: Sha, env: Env, targets: seq<Target>, h: Hash, bytes: Bytes,
                                            g: Replication)
    ensures var r := Replicate(sha, env, targets, h, bytes, g);
      && Extends(sha, g.replicas, r.replicas, h, bytes) && KeepsAll(g.replicas, r.replicas)
      && (r.ok ==> forall root :: Remote(root) in targets ==> h in Holds(r.replicas, root))
    decreases |targets|
  {
    if targets != [] && g.ok {
      var rest := targets[1..];
      assert forall t :: t in targets ==> t == targets[0] || t in rest;
      match targets[0] {
        case LocalStore => ReplicateReaches(sha, env, rest, h, bytes, g);
        case Remote(root) =>
          if env.layoutOk(root) {
            if h in Holds(g.replicas, root) {
              ReplicateReaches(sha, env, rest, h, bytes, g);
            } else if sha(bytes) == h && env.accepts(root, h) {
              var rs := g.replicas[root := Holds(g.replicas, root)[h := bytes]];
              ReplicateReaches(sha, env, rest, h, bytes, Replication(true, g.written + 1, rs));
            }
          }
      }
    }
  }

  // ----- the sweep ----------------------------------------------------------------------------

  datatype CasGcReport = CasGcReport(
    scanned: nat, removed: nat, wentCold: nat, retainedMarked: nat, retainedYoung: nat, slackRefused: nat,
    replicaErrors: nat, replicated: nat, coldmarkFailed: nat, deleteFailed: nat)

  datatype World = World(objects: Objects, ledger: Ledger, replicas: Replicas)

  /** A sweep in progress; `pending` is the mass it takes to be deleted so far. */
  datatype Sweep = Sweep(world: World, report: CasGcReport, pending: nat)

  /** The bytes that must stay resident: 99% of demand, rounded down. */
  function Floor(demanded: nat): nat {
    demanded * 99 / 100
  }

  predicate GuardAllows(resident: nat, demanded: nat, evictWeight: nat) {
    (if evictWeight <= resident then resident - evictWeight else 0) >= Floor(demanded)
  }

  /** After the slack guard said yes: copy, mark, delete. The size is what the lookup gave. */
  function Evict(sha: Sha, env: Env, s: Sweep, h: Hash, bytes: Bytes, size: nat): Sweep {
    var w, r := s.world, s.report;
    var declared := env.targets != [];
    if declared && !env.readable(h) then s.(report := r.(replicaErrors := r.replicaErrors + 1))
    else
      var copied := if declared then Replicate(sha, env, env.targets, h, bytes, Replication(true, 0, w.replicas))
                    else Replication(true, 0, w.replicas);
      var w1 := w.(replicas := copied.replicas);
      if !copied.ok then Sweep(w1, r.(replicaErrors := r.replicaErrors + 1), s.pending)
      else
        var r1 := if copied.written > 0 then r.(replicated := r.replicated + 1) else r;
        match MarkedCold(w.ledger, h, size, env.now, env.recordReadable(h), env.recordWritable(h))
        case None => Sweep(w1, r1.(coldmarkFailed := r1.coldmarkFailed + 1), s.pending)
        case Some(l) =>
          var w2 := w1.(ledger := l);
          if env.deletable(h)
          then Sweep(w2.(objects := w2.objects - {h}),
                     r1.(removed := r1.removed + 1, wentCold := r1.wentCold + 1), s.pending + size)
          else Sweep(w2, r1.(deleteFailed := r1.deleteFailed + 1), s.pending)
  }

  function Visit(sha: Sha, env: Env, resident: nat, demanded: nat, s0: Sweep, h: Hash): Sweep {
    var s := s0.(report := s0.report.(scanned := s0.report.scanned + 1));
    var r := s.report;
    if h in env.live then s.(report := r.(retainedMarked := r.retainedMarked + 1))
    else if !env.oldEnough(h) then s.(report := r.(retainedYoung := r.retainedYoung + 1))
    else
      var bytes := if h in s.world.objects then s.world.objects[h] else [];
      var size := if env.sizeKnown(h) then |bytes| else 0;
      if !GuardAllows(resident, demanded, s.pending + size)
      then s.(report := r.(slackRefused := r.slackRefused + 1))
      else Evict(sha, env, s, h, bytes, size)
  }

  function SweepTo(sha: Sha, env: Env, resident: nat, demanded: nat, w: World, order: seq<Hash>, n: nat): Sweep
    requires n <= |order|
  {
    if n == 0 then Sweep(w, CasGcReport(0, 0, 0, 0, 0, 0, 0, 0, 0, 0), 0)
    else Visit(sha, env, resident, demanded, SweepTo(sha, env, resident, demanded, w, order, n - 1), order[n - 1])
  }

  function Weight(objects: Objects, h: Hash): nat {
    if h in objects then |objects[h]| else 0
  }

  /** The mass of the listed objects that are resident. */
  function Mass(objects: Objects, order: seq<Hash>): nat {
    if order == [] then 0 else Mass(objects, order[..|order| - 1]) + Weight(objects, order[|order| - 1])
  }

  /** The resident mass as measured before the sweep: what could not be looked up is left out. */
  function Measured(env: Env, objects: Objects, order: seq<Hash>): nat {
    if order == [] then 0
    else
      var last := order[|order| - 1];
      Measured(env, objects, order[..|order| - 1]) + if env.measurable(last) then Weight(objects, last) else 0
  }

  /** Every object scanned meets exactly one of seven outcomes. */
  ghost predicate Accounted(r: CasGcReport) {
    && r.scanned == r.removed + r.retainedMarked + r.retainedYoung + r.slackRefused + r.replicaErrors +
                    r.coldmarkFailed + r.deleteFailed
    && r.wentCold == r.removed && r.replicated <= r.scanned
  }

  lemma {:induction false} SweepAccounts(sha: Sha, env: Env, resident: nat, demanded: nat, w: World, order: seq<Hash>,
                                         n: nat)
    requires n <= |order|
    ensures var r := SweepTo(sha, env, resident, demanded, w, order, n).report; Accounted(r) && r.scanned == n
  {
    if n > 0 {
      SweepAccounts(sha, env, resident, demanded, w, order, n - 1);
      VisitAccounts(sha, env, resident, demanded, SweepTo(sha, env, resident, demanded, w, order, n - 1), order[n - 1]);
    }
  }

  lemma EvictAccounts(sha: Sha, env: Env, s: Sweep, h: Hash, bytes: Bytes, size: nat)
    ensures var r, e := s.report, Evict(sha, env, s, h, bytes, size).report;
      && e.retainedMarked == r.retainedMarked && e.retainedYoung == r.retainedYoung && e.slackRefused == r.slackRefused
      && e.removed + e.replicaErrors + e.coldmarkFailed + e.deleteFailed ==
         r.removed + r.replicaErrors + r.coldmarkFailed + r.deleteFailed + 1
      && e.scanned == r.scanned && e.replicated <= r.replicated + 1
      && e.wentCold - r.wentCold == e.removed - r.removed
  {
  }

  lemma VisitAccounts(sha: Sha, env: Env, resident: nat, demanded: nat, s: Sweep, h: Hash)
    requires Accounted(s.report)
    ensures var r := Visit(sha, env, resident, demanded, s, h).report; Accounted(r) && r.scanned == s.report.scanned + 1
  {
    var v := Visit(sha, env, resident, demanded, s, h).report;
    var s1 := s.(report := s.report.(scanned := s.report.scanned + 1));
    var bytes := if h in s.world.objects then s.world.objects[h] else [];
    var size := if env.sizeKnown(h) then |bytes| else 0;
    EvictAccounts(sha, env, s1, h, bytes, size);
    EvictCounts(s1.report, Evict(sha, env, s1, h, bytes, size).report);
    assert || v == Evict(sha, env, s1, h, bytes, size).report
           || v == s1.report.(retainedMarked := s1.report.retainedMarked + 1)
           || v == s1.report.(retainedYoung := s1.report.retainedYoung + 1)
           || v == s1.report.(slackRefused := s1.report.slackRefused + 1);
  }

  /** One outcome more for one object more. */
  lemma EvictCounts(r: CasGcReport, e: CasGcReport)
    requires e.retainedMarked == r.retainedMarked && e.retainedYoung == r.retainedYoung
    requires e.slackRefused == r.slackRefused
    requires e.removed + e.replicaErrors + e.coldmarkFailed + e.deleteFailed ==
             r.removed + r.replicaErrors + r.coldmarkFailed + r.deleteFailed + 1
    requires e.scanned == r.scanned && e.replicated <= r.replicated + 1
    requires e.wentCold - r.wentCold == e.removed - r.removed
    requires r.scanned > 0 && Accounted(r.(scanned := r.scanned - 1))
    ensures Accounted(e)
  {
  }

  /** What a sweep may do to one object and its record: nothing, mark it cold, or mark and delete. */
  ghost predicate Untouched(w: World, v: World, h: Hash) {
    && (h in v.objects <==> h in w.objects) && (h in w.objects ==> v.objects[h] == w.objects[h])
    && (h in v.ledger <==> h in w.ledger) && (h in w.ledger ==> v.ledger[h] == w.ledger[h])
  }

  /** A record the sweep wrote carries the time of the sweep. */
  ghost predicate Swept(env: Env, w: World, v: World, h: Hash) {
    && (h in v.objects ==> h in w.objects && v.objects[h] == w.objects[h])
    && (h in w.objects && h !in v.objects ==> h in v.ledger && v.ledger[h].l3Cold && v.ledger[h].l2Valid)
    && (h in w.ledger && w.ledger[h].l3Cold && env.recordReadable(h) ==> h in v.ledger && v.ledger[h] == w.ledger[h])
    && (h !in w.objects ==> Untouched(w, v, h))
    && (h in w.ledger ==> h in v.ledger)
    && (h in v.ledger && !(h in w.ledger && v.ledger[h] == w.ledger[h]) ==>
          v.ledger[h].l2Valid && v.ledger[h].l3Cold && v.ledger[h].coldSince == Some(env.now))
  }

  /** What evicting does: nothing to `h`, mark it, or mark and delete it; nothing to any other. */
  lemma EvictIsLocal(sha: Sha, env: Env, s: Sweep, h: Hash, bytes: Bytes, size: nat)
    ensures var e := Evict(sha, env, s, h, bytes, size).world;
      var marked := MarkedCold(s.world.ledger, h, size, env.now, env.recordReadable(h), env.recordWritable(h));
      || (e.objects == s.world.objects && e.ledger == s.world.ledger)
      || (marked.Some? && e.ledger == marked.value && (e.objects == s.world.objects ||
          e.objects == s.world.objects - {h}))
  {
  }

  lemma VisitIsLocal(sha: Sha, env: Env, resident: nat, demanded: nat, s: Sweep, h: Hash, k: Hash)
    requires h in s.world.objects
    ensures var v := Visit(sha, env, resident, demanded, s, h).world;
      && Swept(env, s.world, v, k)
      && (k != h || k in env.live ==> Untouched(s.world, v, k))
  {
    var size := if env.sizeKnown(h) then |s.world.objects[h]| else 0;
    var s1 := s.(report := s.report.(scanned := s.report.scanned + 1));
    var e, v := Evict(sha, env, s1, h, s.world.objects[h], size).world, Visit(sha, env, resident, demanded, s, h).world;
    EvictIsLocal(sha, env, s1, h, s.world.objects[h], size);
    assert v == s.world || (v == e && h !in env.live);
    if !(v.objects == s.world.objects && v.ledger == s.world.ledger) {
      MarkIsLocal(env, s.world, v, h, size, k);
    }
  }

  lemma MarkIsLocal(env: Env, w: World, v: World, h: Hash, size: nat, k: Hash)
    requires h in w.objects && (v.objects == w.objects || v.objects == w.objects - {h})
    requires MarkedCold(w.ledger, h, size, env.now, env.recordReadable(h), env.recordWritable(h)) == Some(v.ledger)
    ensures Swept(env, w, v, k) && (k != h ==> Untouched(w, v, k))
  {
  }

  lemma SweptTrans(env: Env, w: World, v: World, u: World, k: Hash)
    requires (Swept(env, w, v, k) && Untouched(v, u, k)) || (Untouched(w, v, k) && Swept(env, v, u, k))
    ensures Swept(env, w, u, k)
  {
  }

  /** Over a whole sweep, in any order: each object is kept as it was or deleted with a cold record;
      live objects are kept; a readable record that was cold keeps its first cold time, and a record
      that was written carries the time of the sweep. */
  lemma {:induction false} SweepIsSafe(sha: Sha, env: Env, resident: nat, demanded: nat, w: World, order: seq<Hash>,
                                       n: nat,
                                       k: Hash)
    requires n <= |order| && Distinct(order) && forall h :: h in order ==> h in w.objects
    ensures var v := SweepTo(sha, env, resident, demanded, w, order, n).world;
      && Swept(env, w, v, k) && (k in env.live || k !in order[..n] ==> Untouched(w, v, k))
  {
    if n > 0 {
      var s := SweepTo(sha, env, resident, demanded, w, order, n - 1);
      var h := order[n - 1];
      SweepIsSafe(sha, env, resident, demanded, w, order, n - 1, k);
      SweepIsSafe(sha, env, resident, demanded, w, order, n - 1, h);
      assert h !in order[..n - 1];
      assert order[..n] == order[..n - 1] + [h];
      VisitIsLocal(sha, env, resident, demanded, s, h, k);
      var v := Visit(sha, env, resident, demanded, s, h).world;
      SweptTrans(env, w, s.world, v, k);
    }
  }

  // ----- the slack floor ----------------------------------------------------------------------

  lemma {:induction false} MeasuredWithout(env: Env, objects: Objects, order: seq<Hash>, h: Hash)
    requires Distinct(order)
    ensures Measured(env, objects, order) ==
            Measured(env, objects - {h}, order) + (if h in order && env.measurable(h) then Weight(objects, h) else 0)
  {
    if order != [] {
      var front, last := order[..|order| - 1], order[|order| - 1];
      MeasuredWithout(env, objects, front, h);
      assert h in order <==> h in front || h == last;
      assert last !in front;
    }
  }

  lemma {:induction false} MeasuredIsLess(env: Env, objects: Objects, order: seq<Hash>)
    ensures Measured(env, objects, order) <= Mass(objects, order)
  {
    if order != [] {
      MeasuredIsLess(env, objects, order[..|order| - 1]);
    }
  }

  /** The object could be evicted from some store: no check or failure of `env` alone prevents it. */
  ghost predicate MayEvict(env: Env, h: Hash) {
    && h !in env.live && env.oldEnough(h)
    && (env.targets != [] ==> env.readable(h) && LayoutsOk(env))
    && (env.recordReadable(h) || env.recordWritable(h)) && env.deletable(h)
  }

  ghost predicate LayoutsOk(env: Env) {
    forall root {:trigger Remote(root)} :: Remote(root) in env.targets ==> env.layoutOk(root)
  }

  /** Whatever was measured and may be evicted still has a size when it is its turn. */
  ghost predicate SizesHold(env: Env) {
    forall h: Hash {:trigger MayEvict(env, h)} :: MayEvict(env, h) && env.measurable(h) ==> env.sizeKnown(h)
  }

  lemma {:induction false} CopiedLayoutsOk(sha: Sha, env: Env, targets: seq<Target>, h: Hash, bytes: Bytes,
                                           g: Replication)
    requires g.ok && Replicate(sha, env, targets, h, bytes, g).ok
    ensures forall root {:trigger Remote(root)} :: Remote(root) in targets ==> env.layoutOk(root)
    decreases |targets|
  {
    if targets != [] {
      var rest := targets[1..];
      assert forall t :: t in targets ==> t == targets[0] || t in rest;
      match targets[0] {
        case LocalStore => CopiedLayoutsOk(sha, env, rest, h, bytes, g);
        case Remote(root) =>
          if h in Holds(g.replicas, root) {
            CopiedLayoutsOk(sha, env, rest, h, bytes, g);
          } else {
            var rs := g.replicas[root := Holds(g.replicas, root)[h := bytes]];
            CopiedLayoutsOk(sha, env, rest, h, bytes, Replication(true, g.written + 1, rs));
          }
      }
    }
  }

  /** A deletion is counted and weighed, and was allowed by the environment. */
  lemma EvictDeletes(sha: Sha, env: Env, s: Sweep, h: Hash, bytes: Bytes, size: nat)
    requires h in s.world.objects && h !in env.live && env.oldEnough(h)
    ensures var e := Evict(sha, env, s, h, bytes, size);
      || (e.world.objects == s.world.objects && e.report.removed == s.report.removed && e.pending == s.pending)
      || (&& e.world.objects == s.world.objects - {h} && e.report.removed == s.report.removed + 1
          && e.pending == s.pending + size && MayEvict(env, h))
  {
    var e := Evict(sha, env, s, h, bytes, size);
    var copied := Replicate(sha, env, env.targets, h, bytes, Replication(true, 0, s.world.replicas));
    if env.targets != [] && env.readable(h) && copied.ok {
      CopiedLayoutsOk(sha, env, env.targets, h, bytes, Replication(true, 0, s.world.replicas));
    }
  }

  lemma VisitDeletes(sha: Sha, env: Env, resident: nat, demanded: nat, s: Sweep, h: Hash)
    requires h in s.world.objects
    ensures var v := Visit(sha, env, resident, demanded, s, h);
      var size := if env.sizeKnown(h) then |s.world.objects[h]| else 0;
      || (v.world.objects == s.world.objects && v.report.removed == s.report.removed && v.pending == s.pending)
      || (&& v.world.objects == s.world.objects - {h} && v.report.removed == s.report.removed + 1
          && v.pending == s.pending + size && MayEvict(env, h) && GuardAllows(resident, demanded, v.pending))
  {
    var size := if env.sizeKnown(h) then |s.world.objects[h]| else 0;
    if h !in env.live && env.oldEnough(h) {
      EvictDeletes(sha, env, s.(report := s.report.(scanned := s.report.scanned + 1)), h, s.world.objects[h], size);
    }
  }

  /** What is deleted was measured or never counted; and once anything is gone the guard had agreed
      to all of it. */
  ghost predicate Balanced(env: Env, resident: nat, demanded: nat, order: seq<Hash>, s: Sweep) {
    && Measured(env, s.world.objects, order) + s.pending >= resident
    && (s.report.removed > 0 ==> GuardAllows(resident, demanded, s.pending))
  }

  lemma VisitBalances(sha: Sha, env: Env, resident: nat, demanded: nat, order: seq<Hash>, s: Sweep, h: Hash)
    requires Distinct(order) && h in order && h in s.world.objects && SizesHold(env)
    requires Balanced(env, resident, demanded, order, s)
    ensures Balanced(env, resident, demanded, order, Visit(sha, env, resident, demanded, s, h))
  {
    VisitDeletes(sha, env, resident, demanded, s, h);
    MeasuredWithout(env, s.world.objects, order, h);
  }

  lemma OneLess(objects: Objects, h: Hash)
    requires h in objects
    ensures |(objects - {h}).Keys| == |objects.Keys| - 1
  {
    assert (objects - {h}).Keys == objects.Keys - {h};
  }

  lemma {:induction false} SweepBalances(sha: Sha, env: Env, demanded: nat, w: World, order: seq<Hash>, n: nat)
    requires n <= |order| && Distinct(order) && (forall h :: h in order ==> h in w.objects) && SizesHold(env)
    ensures var resident := Measured(env, w.objects, order);
      Balanced(env, resident, demanded, order, SweepTo(sha, env, resident, demanded, w, order, n))
  {
    if n > 0 {
      var resident := Measured(env, w.objects, order);
      SweepBalances(sha, env, demanded, w, order, n - 1);
      StillThere(sha, env, resident, demanded, w, order, n - 1);
      VisitBalances(sha, env, resident, demanded, order, SweepTo(sha, env, resident, demanded, w, order, n - 1),
                    order[n - 1]);
    }
  }

  ghost predicate Counts(s: Sweep, v: Sweep) {
    v.report.removed + |v.world.objects.Keys| == s.report.removed + |s.world.objects.Keys| && Shrunk(s.world, v.world)
  }

  lemma VisitCounts(sha: Sha, env: Env, resident: nat, demanded: nat, s: Sweep, h: Hash)
    requires h in s.world.objects
    ensures Counts(s, Visit(sha, env, resident, demanded, s, h))
  {
    VisitDeletes(sha, env, resident, demanded, s, h);
    OneLess(s.world.objects, h);
  }

  ghost predicate CountsAt(ss: seq<Sweep>, k: nat) {
    k + 1 < |ss| ==> Counts(ss[k], ss[k + 1])
  }

  lemma {:induction false} ChainCounts(ss: seq<Sweep>, n: nat)
    requires n < |ss| && forall k: nat {:trigger CountsAt(ss, k)} :: CountsAt(ss, k)
    ensures Counts(ss[0], ss[n])
  {
    if n > 0 {
      ChainCounts(ss, n - 1);
      assert CountsAt(ss, n - 1);
    }
  }

  lemma SweepStepCounts(sha: Sha, env: Env, resident: nat, demanded: nat, w: World, order: seq<Hash>, k: nat, s: Sweep,
                        v: Sweep)
    requires k < |order| && Distinct(order) && forall h :: h in order ==> h in w.objects
    requires s == SweepTo(sha, env, resident, demanded, w, order, k)
    requires v == SweepTo(sha, env, resident, demanded, w, order, k + 1)
    ensures Counts(s, v)
  {
    StillThere(sha, env, resident, demanded, w, order, k);
    VisitCounts(sha, env, resident, demanded, s, order[k]);
  }

  /** The report counts exactly the objects that are gone. */
  lemma RemovedIsCounted(sha: Sha, env: Env, resident: nat, demanded: nat, w: World, order: seq<Hash>, ss: seq<Sweep>)
    requires Distinct(order) && (forall h :: h in order ==> h in w.objects) && |ss| == |order| + 1
    requires forall k: nat :: k <= |order| ==> ss[k] == SweepTo(sha, env, resident, demanded, w, order, k)
    ensures Counts(ss[0], ss[|order|])
  {
    forall k: nat ensures CountsAt(ss, k) {
      if k < |order| {
        SweepStepCounts(sha, env, resident, demanded, w, order, k, ss[k], ss[k + 1]);
      }
    }
    ChainCounts(ss, |order|);
  }

  /** The sweep after each scanned object. */
  ghost function Stages(sha: Sha, env: Env, resident: nat, demanded: nat, w: World, order: seq<Hash>): seq<Sweep> {
    seq(|order| + 1, k requires 0 <= k <= |order| => SweepTo(sha, env, resident, demanded, w, order, k))
  }

  lemma SweepCounts(sha: Sha, env: Env, demanded: nat, w: World, order: seq<Hash>)
    requires Scans(w, order)
    ensures var s := SweepAll(sha, env, demanded, w, order);
      s.report.removed + |s.world.objects.Keys| == |w.objects.Keys| && Shrunk(w, s.world)
  {
    ScanIsResident(w, order);
    var resident := Measured(env, w.objects, order);
    RemovedIsCounted(sha, env, resident, demanded, w, order, Stages(sha, env, resident, demanded, w, order));
  }

  /** The whole sweep of a store, in some order. */
  ghost function SweepAll(sha: Sha, env: Env, demanded: nat, w: World, order: seq<Hash>): Sweep {
    SweepTo(sha, env, Measured(env, w.objects, order), demanded, w, order, |order|)
  }

  /** If anything is gone, at least the floor is left. */
  ghost predicate KeepsFloor(sha: Sha, env: Env, demanded: nat, w: World, order: seq<Hash>) {
    var v := SweepAll(sha, env, demanded, w, order).world;
    v.objects.Keys != w.objects.Keys ==> Mass(v.objects, order) >= Floor(demanded)
  }

  lemma SweepKeepsFloor(sha: Sha, env: Env, demanded: nat, w: World, order: seq<Hash>)
    requires Scans(w, order) && SizesHold(env)
    ensures KeepsFloor(sha, env, demanded, w, order)
  {
    ScanIsResident(w, order);
    var s := SweepAll(sha, env, demanded, w, order);
    SweepBalances(sha, env, demanded, w, order, |order|);
    SweepCounts(sha, env, demanded, w, order);
    MeasuredIsLess(env, s.world.objects, order);
    if s.report.removed == 0 {
      SameSize(s.world.objects.Keys, w.objects.Keys);
    }
  }

  lemma SameSize(a: set<Hash>, b: set<Hash>)
    requires a <= b && |a| == |b|
    ensures a == b
  {
    assert b == a + (b - a);
  }

  /** One object whose size lookup fails at its turn, held by every target and cold already. */
  ghost function LoneWorld(env: Env, h: Hash): World {
    World(map[h := [0]], map[h := ValidityRecord(1, true, true, Some(0))],
          map t | t in env.targets && t.Remote? :: t.root := map[h := [0]])
  }

  lemma LostSizeBreaksFloor(sha: Sha, env: Env, h: Hash)
    requires MayEvict(env, h) && env.measurable(h) && !env.sizeKnown(h)
    ensures Scans(LoneWorld(env, h), [h]) && !KeepsFloor(sha, env, 2, LoneWorld(env, h), [h])
  {
    var w, order: seq<Hash> := LoneWorld(env, h), [h];
    assert Elems(order) == {h};
    assert Measured(env, w.objects, order[..0]) == 0 && Measured(env, w.objects, order) == 1;
    var s0 := SweepTo(sha, env, 1, 2, w, order, 0);
    NothingToCopy(sha, env, env.targets, h, [0], Replication(true, 0, w.replicas));
    var s1 := Visit(sha, env, 1, 2, s0, h);
    assert SweepTo(sha, env, 1, 2, w, order, 1) == s1;
    assert h !in s1.world.objects;
    assert Mass(s1.world.objects, order[..0]) == 0 && Mass(s1.world.objects, order) == 0;
  }

  /** Exactly when the floor is safe: for every store, demand and scan order a sweep that deletes
      leaves 99% of demand resident, if and only if no size that was measured is lost at its turn. */
  lemma FloorHoldsIff(sha: Sha, env: Env)
    ensures (forall demanded: nat, w: World, order: seq<Hash> {:trigger KeepsFloor(sha, env, demanded, w, order)} ::
               Scans(w, order) ==> KeepsFloor(sha, env, demanded, w, order)) <==> SizesHold(env)
  {
    if SizesHold(env) {
      forall demanded: nat, w: World, order: seq<Hash> | Scans(w, order)
        ensures KeepsFloor(sha, env, demanded, w, order)
      {
        SweepKeepsFloor(sha, env, demanded, w, order);
      }
    } else {
      var h: Hash :| MayEvict(env, h) && env.measurable(h) && !env.sizeKnown(h);
      LostSizeBreaksFloor(sha, env, h);
      assert !KeepsFloor(sha, env, 2, LoneWorld(env, h), [h]);
    }
  }

  // ----- replicas after a sweep ---------------------------------------------------------------

  ghost predicate HeldByAll(targets: seq<Target>, rs: Replicas, h: Hash) {
    forall root {:trigger Remote(root)} :: Remote(root) in targets ==> h in Holds(rs, root)
  }

  /** The sweep never takes anything from a replica, and adds only verified local bytes. */
  ghost predicate ReplicasGrow(sha: Sha, w: World, rs: Replicas) {
    && KeepsAll(w.replicas, rs)
    && forall root, k :: k in Holds(rs, root) && k !in Holds(w.replicas, root) ==>
         k in w.objects && Holds(rs, root)[k] == w.objects[k] && sha(w.objects[k]) == k
  }

  ghost predicate Shrunk(w: World, v: World) {
    forall k :: k in v.objects ==> k in w.objects && v.objects[k] == w.objects[k]
  }

  /** What a visit did to the replicas: nothing, or one run of copying. */
  lemma VisitReplicas(sha: Sha, env: Env, resident: nat, demanded: nat, s: Sweep, h: Hash)
    requires h in s.world.objects
    ensures var v := Visit(sha, env, resident, demanded, s, h).world;
      var copied := Replicate(sha, env, env.targets, h, s.world.objects[h], Replication(true, 0, s.world.replicas));
      && (v.replicas == s.world.replicas || v.replicas == copied.replicas)
      && (h !in v.objects ==> env.targets == [] || (copied.ok && v.replicas == copied.replicas))
      && Shrunk(s.world, v)
  {
  }

  lemma VisitGrows(sha: Sha, env: Env, resident: nat, demanded: nat, s: Sweep, h: Hash)
    requires h in s.world.objects
    ensures var v := Visit(sha, env, resident, demanded, s, h).world;
      ReplicasGrow(sha, s.world, v.replicas) && (h !in v.objects ==> HeldByAll(env.targets, v.replicas, h))
  {
    VisitReplicas(sha, env, resident, demanded, s, h);
    ReplicateReaches(sha, env, env.targets, h, s.world.objects[h], Replication(true, 0, s.world.replicas));
  }

  lemma GrowTrans(sha: Sha, w: World, v: World, rs: Replicas)
    requires ReplicasGrow(sha, w, v.replicas) && ReplicasGrow(sha, v, rs) && Shrunk(w, v)
    ensures ReplicasGrow(sha, w, rs)
  {
  }

  lemma {:induction false} SweepGrows(sha: Sha, env: Env, resident: nat, demanded: nat, w: World, order: seq<Hash>,
                                      n: nat)
    requires n <= |order| && Distinct(order) && forall h :: h in order ==> h in w.objects
    ensures var v := SweepTo(sha, env, resident, demanded, w, order, n).world;
      ReplicasGrow(sha, w, v.replicas) && Shrunk(w, v)
  {
    if n > 0 {
      var s, h := SweepTo(sha, env, resident, demanded, w, order, n - 1), order[n - 1];
      SweepGrows(sha, env, resident, demanded, w, order, n - 1);
      StillThere(sha, env, resident, demanded, w, order, n - 1);
      VisitReplicas(sha, env, resident, demanded, s, h);
      VisitGrows(sha, env, resident, demanded, s, h);
      GrowTrans(sha, w, s.world, Visit(sha, env, resident, demanded, s, h).world.replicas);
    }
  }

  lemma StillThere(sha: Sha, env: Env, resident: nat, demanded: nat, w: World, order: seq<Hash>, n: nat)
    requires n < |order| && Distinct(order) && forall h :: h in order ==> h in w.objects
    ensures order[n] in SweepTo(sha, env, resident, demanded, w, order, n).world.objects
  {
    SweepIsSafe(sha, env, resident, demanded, w, order, n, order[n]);
    assert order[n] !in order[..n];
  }

  /** A deleted object is held by every remote target. */
  lemma {:induction false} SweepCopies(sha: Sha, env: Env, resident: nat, demanded: nat, w: World, order: seq<Hash>,
                                       n: nat,
                                       h: Hash)
    requires n <= |order| && Distinct(order) && forall k :: k in order ==> k in w.objects
    requires h in w.objects && h !in SweepTo(sha, env, resident, demanded, w, order, n).world.objects
    ensures HeldByAll(env.targets, SweepTo(sha, env, resident, demanded, w, order, n).world.replicas, h)
  {
    if n > 0 {
      var s, k := SweepTo(sha, env, resident, demanded, w, order, n - 1), order[n - 1];
      StillThere(sha, env, resident, demanded, w, order, n - 1);
      VisitGrows(sha, env, resident, demanded, s, k);
      if h !in s.world.objects {
        SweepCopies(sha, env, resident, demanded, w, order, n - 1, h);
      } else if h != k {
        VisitIsLocal(sha, env, resident, demanded, s, k, h);
      }
    }
  }

  // ----- publishing and repair ----------------------------------------------------------------

  datatype CasError = Malformed | StorageFailure | Corrupt | ValidityFailure | ReplicationFailure

  /** Which calls of one put or repair succeed: fetching a replica's bytes, storing, reading and writing
      the record, looking up the restored size. */
  datatype Access = Access(fetchable: bool, storable: bool, readable: bool, writable: bool, sized: bool)

  /** The shared store's verified put: it never overwrites, and refuses bytes that differ. Tells
      whether the object was created. */
  function HubPut(sha: Sha, objects: Objects, h: Hash, bytes: Bytes, storable: bool): Result<(Objects,
                                                                                              bool), CasError> {
    if sha(bytes) != h then Err(Malformed)
    else if !storable then Err(StorageFailure)
    else if h in objects then (if objects[h] == bytes then Ok((objects, false)) else Err(Corrupt))
    else Ok((objects[h := bytes], true))
  }

  /** The first remote target that holds the hash. */
  function FirstHolder(targets: seq<Target>, rs: Replicas, h: Hash): (r: Option<string>)
    ensures r.Some? ==> Remote(r.value) in targets && h in Holds(rs, r.value)
    ensures r.None? <==> forall root {:trigger Remote(root)} :: Remote(root) in targets ==> h !in Holds(rs, root)
    decreases |targets|
  {
    if targets == [] then None
    else if targets[0].Remote? && h in Holds(rs, targets[0].root) then Some(targets[0].root)
    else
      assert forall t :: t in targets ==> t == targets[0] || t in targets[1..];
      FirstHolder(targets[1..], rs, h)
  }

  datatype Put = Put(world: World, result: Result<bool, CasError>)

  function AfterPut(sha: Sha, w: World, h: Hash, bytes: Bytes, access: Access): Put {
    if h != sha(bytes) then Put(w, Err(Malformed))
    else match HubPut(sha, w.objects, h, bytes, access.storable)
      case Err(e) => Put(w, Err(e))
      case Ok(stored) =>
        match Published(w.ledger, h, |bytes|, access.readable, access.writable)
        case None => Put(w.(objects := stored.0), Err(ValidityFailure))
        case Some(l) => Put(World(stored.0, l, w.replicas), Ok(stored.1))
  }

  datatype Repair = Repair(world: World, result: Result<bool, CasError>)

  /** Pull from the first replica that has the hash; its bytes are verified, later ones not tried. */
  function AfterRepair(sha: Sha, targets: seq<Target>, w: World, h: Hash, access: Access): Repair {
    match FirstHolder(targets, w.replicas, h)
    case None => Repair(w, Ok(false))
    case Some(root) =>
      var bytes := Holds(w.replicas, root)[h];
      if !access.fetchable then Repair(w, Err(ReplicationFailure))
      else match HubPut(sha, w.objects, h, bytes, access.storable)
        case Err(_) => Repair(w, Err(ReplicationFailure))
        case Ok(stored) =>
          match Published(w.ledger, h, if access.sized then |bytes| else 0, access.readable, access.writable)
          case None => Repair(w.(objects := stored.0), Err(ValidityFailure))
          case Some(l) => Repair(World(stored.0, l, w.replicas), Ok(true))
  }

  /** What the target holds after the sweep: its earlier copy, or the local bytes. */
  function CopyAt(w: World, root: string, h: Hash): Bytes
    requires h in w.objects
  {
    if h in Holds(w.replicas, root) then Holds(w.replicas, root)[h] else w.objects[h]
  }

  /** Evict then repair. After a sweep deleted `h`, repair restores it exactly when its calls succeed,
      some target is remote and the first remote target's copy verifies. Then that copy is resident
      and the record is no longer cold; and they are the evicted bytes unless these two collide. */
  lemma EvictThenRepair(sha: Sha, env: Env, resident: nat, demanded: nat, w: World, order: seq<Hash>, h: Hash,
                        access: Access)
    requires Distinct(order) && (forall k :: k in order ==> k in w.objects) && h in w.objects
    requires h !in SweepTo(sha, env, resident, demanded, w, order, |order|).world.objects
    ensures var v := SweepTo(sha, env, resident, demanded, w, order, |order|).world;
      var r, first := AfterRepair(sha, env.targets, v, h, access), FirstRemote(env.targets);
      && (r.result == Ok(true) <==>
            access.fetchable && access.storable && access.writable && first.Some? &&
              sha(CopyAt(w, first.value, h)) == h)
      && (r.result == Ok(true) ==>
            && h in r.world.objects && r.world.objects[h] == CopyAt(w, first.value, h)
            && h in r.world.ledger
            && r.world.ledger[h] == ValidityRecord(if access.sized then |r.world.objects[h]| else 0, true, false, None)
            && (sha(w.objects[h]) == h && (sha(CopyAt(w, first.value, h)) == sha(w.objects[h]) ==>
                                             CopyAt(w, first.value, h) == w.objects[h]) ==>
                  r.world.objects[h] == w.objects[h]))
  {
    var v := SweepTo(sha, env, resident, demanded, w, order, |order|).world;
    SweepGrows(sha, env, resident, demanded, w, order, |order|);
    SweepCopies(sha, env, resident, demanded, w, order, |order|, h);
    SweepIsSafe(sha, env, resident, demanded, w, order, |order|, h);
    FirstHolderIsFirstRemote(env.targets, v.replicas, h);
    if FirstRemote(env.targets).Some? {
      CopyAfterSweep(sha, w, v, FirstRemote(env.targets).value, h);
    }
  }

  function FirstRemote(targets: seq<Target>): (r: Option<string>)
    ensures r.Some? ==> Remote(r.value) in targets
    decreases |targets|
  {
    if targets == [] then None
    else if targets[0].Remote? then Some(targets[0].root)
    else FirstRemote(targets[1..])
  }

  lemma {:induction false} FirstHolderIsFirstRemote(targets: seq<Target>, rs: Replicas, h: Hash)
    requires HeldByAll(targets, rs, h)
    ensures FirstHolder(targets, rs, h) == FirstRemote(targets)
    decreases |targets|
  {
    if targets != [] && targets[0].LocalStore? {
      assert forall t :: t in targets[1..] ==> t in targets;
      FirstHolderIsFirstRemote(targets[1..], rs, h);
    }
  }

  lemma CopyAfterSweep(sha: Sha, w: World, v: World, root: string, h: Hash)
    requires ReplicasGrow(sha, w, v.replicas) && h in w.objects && h in Holds(v.replicas, root)
    ensures Holds(v.replicas, root)[h] == CopyAt(w, root, h)
  {
  }

  lemma {:induction false} NothingToCopy(sha: Sha, env: Env, targets: seq<Target>, h: Hash, bytes: Bytes,
                                         g: Replication)
    requires g.ok && HeldByAll(targets, g.replicas, h)
    requires forall root {:trigger Remote(root)} :: Remote(root) in targets ==> env.layoutOk(root)
    ensures Replicate(sha, env, targets, h, bytes, g) == g
    decreases |targets|
  {
    if targets != [] {
      assert forall t :: t in targets[1..] ==> t in targets;
      NothingToCopy(sha, env, targets[1..], h, bytes, g);
      assert targets[0].Remote? ==> Remote(targets[0].root) in targets;
    }
  }

  /** A damaged copy that the first replica already had is not noticed while evicting, and repair
      does not look past it: even with a sound copy in the second replica, the bytes stay away. */
  lemma DamagedReplicaBlocksRepair(sha: Sha, env: Env, w: World, h: Hash, a: string, b: string)
    requires env.targets == [Remote(a), Remote(b)] && h !in env.live
    requires env.oldEnough(h) && env.readable(h) && env.recordWritable(h) && env.deletable(h)
    requires env.layoutOk(a) && env.layoutOk(b)
    requires h in w.objects && h !in w.ledger && sha(w.objects[h]) == h
    requires h in Holds(w.replicas, a) && sha(Holds(w.replicas, a)[h]) != h
    requires h in Holds(w.replicas, b) && Holds(w.replicas, b)[h] == w.objects[h]
    ensures var v := SweepTo(sha, env, |w.objects[h]|, 0, w, [h], 1).world;
      h !in v.objects && forall access :: AfterRepair(sha, env.targets, v, h, access).result == Err(ReplicationFailure)
  {
    var order: seq<Hash> := [h];
    var s0 := SweepTo(sha, env, |w.objects[h]|, 0, w, order, 0);
    NothingToCopy(sha, env, env.targets, h, w.objects[h], Replication(true, 0, w.replicas));
    var s1 := Visit(sha, env, |w.objects[h]|, 0, s0, h);
    assert SweepTo(sha, env, |w.objects[h]|, 0, w, order, 1) == s1;
    assert s1.world.replicas == w.replicas && h !in s1.world.objects;
    assert FirstHolder(env.targets, w.replicas, h) == Some(a);
  }

  // ----- every run ----------------------------------------------------------------------------

  datatype Op =
    | PutOp(h: Hash, bytes: Bytes, access: Access)
    | GcOp(env: Env, demanded: Option<nat>, order: seq<Hash>)
    | RepairOp(targets: seq<Target>, h: Hash, access: Access)

  /** A sweep scans each resident object once, in any order. */
  ghost predicate Scans(w: World, order: seq<Hash>) {
    Distinct(order) && Elems(order) == w.objects.Keys
  }

  /** What a live hash asks for: its resident size, else the size on record, else nothing. */
  function Share(env: Env, w: World, h: Hash): nat {
    if h in w.objects && env.measurable(h) then |w.objects[h]|
    else if env.recordReadable(h) && h in w.ledger && Validates(w.ledger[h]) then w.ledger[h].size
    else 0
  }

  ghost function Pick(hs: set<Hash>): Hash
    requires hs != {}
    ensures Pick(hs) in hs
  {
    var h :| h in hs;
    h
  }

  ghost function Demand(env: Env, w: World, live: set<Hash>): nat {
    if live == {} then 0 else Share(env, w, Pick(live)) + Demand(env, w, live - {Pick(live)})
  }

  lemma {:induction false} DemandWithout(env: Env, w: World, live: set<Hash>, h: Hash)
    requires h in live
    ensures Demand(env, w, live) == Share(env, w, h) + Demand(env, w, live - {h})
    decreases live
  {
    var p := Pick(live);
    if p != h {
      DemandWithout(env, w, live - {p}, h);
      DemandWithout(env, w, live - {h}, p);
      assert live - {p} - {h} == live - {h} - {p};
    }
  }

  /** The demand given, or else the demand of the live set. */
  ghost function DemandOr(env: Env, w: World, demanded: Option<nat>): nat {
    if demanded.Some? then demanded.value else Demand(env, w, env.live)
  }

  ghost function Apply(sha: Sha, w: World, op: Op): World {
    match op
    case PutOp(h, bytes, access) => AfterPut(sha, w, h, bytes, access).world
    case GcOp(env, demanded, order) =>
      if Scans(w, order) then SweepAll(sha, env, DemandOr(env, w, demanded), w, order).world else w
    case RepairOp(targets, h, access) => AfterRepair(sha, targets, w, h, access).world
  }

  ghost function Run(sha: Sha, start: World, ops: seq<Op>, n: nat): World
    requires n <= |ops|
  {
    if n == 0 then start else Apply(sha, Run(sha, start, ops, n - 1), ops[n - 1])
  }

  ghost predicate SoundAt(l: Ledger, h: Hash) {
    h in l && l[h].l3Cold ==> l[h].l2Valid && l[h].coldSince.Some?
  }

  /** One step, one hash: its record stays sound; leaving the store leaves a cold record; absent
      before and after, the record does not change. */
  ghost predicate KeepsRecord(w: World, v: World, h: Hash) {
    && SoundAt(v.ledger, h)
    && (h in w.objects && h !in v.objects ==> IsCold(v.ledger, h))
    && (h !in w.objects && h !in v.objects && h in w.ledger ==> h in v.ledger && v.ledger[h] == w.ledger[h])
  }

  lemma GcKeepsRecord(sha: Sha, w: World, op: Op, h: Hash)
    requires op.GcOp? && SoundAt(w.ledger, h)
    ensures KeepsRecord(w, Apply(sha, w, op), h)
  {
    if Scans(w, op.order) {
      assert forall k :: k in op.order ==> k in Elems(op.order);
      var resident := Measured(op.env, w.objects, op.order);
      SweepIsSafe(sha, op.env, resident, DemandOr(op.env, w, op.demanded), w, op.order, |op.order|, h);
    }
  }

  lemma StepKeepsRecord(sha: Sha, w: World, op: Op, h: Hash)
    requires SoundAt(w.ledger, h)
    ensures KeepsRecord(w, Apply(sha, w, op), h)
  {
    if op.GcOp? {
      GcKeepsRecord(sha, w, op, h);
    }
  }

  lemma {:induction false} RunIsSoundAt(sha: Sha, start: World, ops: seq<Op>, n: nat, h: Hash)
    requires SoundAt(start.ledger, h) && n <= |ops|
    ensures SoundAt(Run(sha, start, ops, n).ledger, h)
  {
    if n > 0 {
      RunIsSoundAt(sha, start, ops, n - 1, h);
      StepKeepsRecord(sha, Run(sha, start, ops, n - 1), ops[n - 1], h);
    }
  }

  ghost predicate StepAt(ws: seq<World>, k: nat, h: Hash) {
    k + 1 < |ws| ==> KeepsRecord(ws[k], ws[k + 1], h)
  }

  ghost predicate IsChain(ws: seq<World>, h: Hash) {
    forall k: nat {:trigger StepAt(ws, k, h)} :: StepAt(ws, k, h)
  }

  lemma RunIsChain(sha: Sha, start: World, ops: seq<Op>, ws: seq<World>, h: Hash)
    requires SoundAt(start.ledger, h) && |ws| == |ops| + 1
    requires forall k: nat :: k <= |ops| ==> ws[k] == Run(sha, start, ops, k)
    ensures IsChain(ws, h)
  {
    forall k: nat ensures StepAt(ws, k, h) {
      if k + 1 < |ws| {
        RunIsSoundAt(sha, start, ops, k, h);
        StepKeepsRecord(sha, ws[k], ops[k], h);
        assert ws[k + 1] == Apply(sha, ws[k], ops[k]);
      }
    }
  }

  lemma {:induction false} ChainKeepsRecords(ws: seq<World>, n: nat, m: nat, h: Hash)
    requires IsChain(ws, h) && n <= m < |ws| && h in ws[n].objects
    ensures h in ws[m].objects || IsCold(ws[m].ledger, h)
    decreases m
  {
    if n < m {
      ChainKeepsRecords(ws, n, m - 1, h);
      assert StepAt(ws, m - 1, h);
    }
  }

  lemma {:induction false} ChainKeepsTime(ws: seq<World>, n: nat, m: nat, h: Hash)
    requires IsChain(ws, h) && n <= m < |ws| && h in ws[n].ledger
    requires forall k :: n <= k <= m ==> h !in ws[k].objects
    ensures h in ws[m].ledger && ws[m].ledger[h] == ws[n].ledger[h]
    decreases m
  {
    if n < m {
      ChainKeepsTime(ws, n, m - 1, h);
      assert StepAt(ws, m - 1, h);
    }
  }

  /** The worlds a run goes through. */
  ghost function Worlds(sha: Sha, start: World, ops: seq<Op>): seq<World> {
    seq(|ops| + 1, k requires 0 <= k <= |ops| => Run(sha, start, ops, k))
  }

  /** In every run, also from a store that has records, an object that was ever resident is resident
      or has a valid cold record. */
  lemma EveryRunKeepsRecords(sha: Sha, start: World, ops: seq<Op>, n: nat, m: nat, h: Hash)
    requires SoundAt(start.ledger, h) && n <= m <= |ops|
    requires h in Run(sha, start, ops, n).objects
    ensures h in Run(sha, start, ops, m).objects || IsCold(Run(sha, start, ops, m).ledger, h)
  {
    var ws := Worlds(sha, start, ops);
    RunIsChain(sha, start, ops, ws, h);
    ChainKeepsRecords(ws, n, m, h);
  }

  /** While an object stays away, its record, and so its first cold time, stays the same. */
  lemma ColdTimeIsKept(sha: Sha, start: World, ops: seq<Op>, n: nat, m: nat, h: Hash)
    requires SoundAt(start.ledger, h) && n <= m <= |ops|
    requires forall k :: n <= k <= m ==> h !in Run(sha, start, ops, k).objects
    requires h in Run(sha, start, ops, n).ledger
    ensures h in Run(sha, start, ops, m).ledger
    ensures Run(sha, start, ops, m).ledger[h] == Run(sha, start, ops, n).ledger[h]
  {
    var ws := Worlds(sha, start, ops);
    RunIsChain(sha, start, ops, ws, h);
    ChainKeepsTime(ws, n, m, h);
  }

  /** A cold record that a step wrote was written by a sweep, at its time, which did not see a cold
      record before. */
  ghost predicate MarksAt(w: World, v: World, op: Op, h: Hash) {
    h in v.ledger && v.ledger[h].l3Cold && !(h in w.ledger && w.ledger[h] == v.ledger[h]) ==>
      && op.GcOp? && v.ledger[h].coldSince == Some(op.env.now)
      && !(op.env.recordReadable(h) && h in w.ledger && w.ledger[h].l3Cold)
  }

  lemma GcMarks(sha: Sha, w: World, op: Op, h: Hash)
    requires op.GcOp?
    ensures MarksAt(w, Apply(sha, w, op), op, h)
  {
    if Scans(w, op.order) {
      ScanIsResident(w, op.order);
      var resident := Measured(op.env, w.objects, op.order);
      SweepIsSafe(sha, op.env, resident, DemandOr(op.env, w, op.demanded), w, op.order, |op.order|, h);
    }
  }

  lemma StepMarks(sha: Sha, w: World, op: Op, h: Hash)
    ensures MarksAt(w, Apply(sha, w, op), op, h)
  {
    if op.GcOp? {
      GcMarks(sha, w, op, h);
    }
  }

  ghost predicate MarkStep(ws: seq<World>, ops: seq<Op>, k: nat, h: Hash)
    requires |ws| == |ops| + 1
  {
    k < |ops| ==> MarksAt(ws[k], ws[k + 1], ops[k], h)
  }

  /** The record has been the one it is since after step `k`. */
  ghost predicate SameSince(ws: seq<World>, k: nat, m: nat, h: Hash)
    requires m < |ws|
  {
    forall j :: k <= j <= m ==> h in ws[j].ledger && h in ws[m].ledger && ws[j].ledger[h] == ws[m].ledger[h]
  }

  /** Step `k` is the sweep that marked the record as it still is after step `m`. */
  ghost predicate MarkedBy(ws: seq<World>, ops: seq<Op>, k: nat, m: nat, h: Hash)
    requires |ws| == |ops| + 1 && m < |ws|
  {
    && k < m && ops[k].GcOp? && SameSince(ws, k + 1, m, h)
    && ws[m].ledger[h].coldSince == Some(ops[k].env.now)
    && !(ops[k].env.recordReadable(h) && h in ws[k].ledger && ws[k].ledger[h].l3Cold)
  }

  lemma {:induction false} ChainMarks(ws: seq<World>, ops: seq<Op>, m: nat, h: Hash)
    requires |ws| == |ops| + 1 && m < |ws|
    requires forall k: nat {:trigger MarkStep(ws, ops, k, h)} :: MarkStep(ws, ops, k, h)
    requires h in ws[m].ledger && ws[m].ledger[h].l3Cold
    ensures SameSince(ws, 0, m, h) || exists k: nat :: MarkedBy(ws, ops, k, m, h)
  {
    if m > 0 {
      assert MarkStep(ws, ops, m - 1, h);
      if h in ws[m - 1].ledger && ws[m - 1].ledger[h] == ws[m].ledger[h] {
        var before := m - 1;
        ChainMarks(ws, ops, before, h);
        if k: nat :| MarkedBy(ws, ops, k, before, h) {
          assert MarkedBy(ws, ops, k, m, h);
        }
      } else {
        assert MarkedBy(ws, ops, m - 1, m, h);
      }
    }
  }

  /** A cold record's time is that of the sweep that marked it: the record was cold from the start, or
      some sweep wrote it at its own time, saw no cold record before, and nothing changed it since. */
  lemma ColdTimeIsFirstMark(sha: Sha, start: World, ops: seq<Op>, m: nat, h: Hash)
    requires m <= |ops| && h in Run(sha, start, ops, m).ledger && Run(sha, start, ops, m).ledger[h].l3Cold
    ensures var ws := Worlds(sha, start, ops);
      SameSince(ws, 0, m, h) || exists k: nat :: MarkedBy(ws, ops, k, m, h)
  {
    var ws := Worlds(sha, start, ops);
    forall k: nat ensures MarkStep(ws, ops, k, h) {
      if k < |ops| {
        StepMarks(sha, ws[k], ops[k], h);
        assert ws[k + 1] == Apply(sha, ws[k], ops[k]);
      }
    }
    ChainMarks(ws, ops, m, h);
  }

  /** No check or failure of `env` alone prevents that `h` is marked anew. */
  ghost predicate MayMark(env: Env, h: Hash) {
    && h !in env.live && env.oldEnough(h) && env.recordWritable(h)
    && (env.targets != [] ==> env.readable(h) && LayoutsOk(env))
  }

  /** If `h` has a cold record, the sweep leaves it as it is. */
  ghost predicate KeepsColdTime(sha: Sha, env: Env, demanded: nat, w: World, order: seq<Hash>, h: Hash) {
    var v := SweepAll(sha, env, demanded, w, order).world;
    h in w.ledger && w.ledger[h].l3Cold ==> h in v.ledger && v.ledger[h] == w.ledger[h]
  }

  /** One object, held by every target, with a cold record from another time. */
  ghost function ColdWorld(env: Env, h: Hash): World {
    LoneWorld(env, h).(ledger := map[h := ValidityRecord(1, true, true, Some(env.now + 1))])
  }

  /** A cold record that cannot be read is marked anew, and its first cold time is lost. */
  lemma UnreadableRecordRestarts(sha: Sha, env: Env, h: Hash)
    requires MayMark(env, h) && !env.recordReadable(h)
    ensures Scans(ColdWorld(env, h), [h])
    ensures var v := SweepAll(sha, env, 0, ColdWorld(env, h), [h]).world;
      h in v.ledger && v.ledger[h].coldSince == Some(env.now) != ColdWorld(env, h).ledger[h].coldSince
  {
    var w, order: seq<Hash> := ColdWorld(env, h), [h];
    assert Elems(order) == {h};
    var resident := Measured(env, w.objects, order);
    var s0 := SweepTo(sha, env, resident, 0, w, order, 0);
    NothingToCopy(sha, env, env.targets, h, [0], Replication(true, 0, w.replicas));
    assert SweepTo(sha, env, resident, 0, w, order, 1) == Visit(sha, env, resident, 0, s0, h);
  }

  lemma EvictMarks(sha: Sha, env: Env, s: Sweep, h: Hash, bytes: Bytes, size: nat)
    requires h !in env.live && env.oldEnough(h) && !MayMark(env, h)
    ensures Evict(sha, env, s, h, bytes, size).world.ledger == s.world.ledger
  {
    var copied := Replicate(sha, env, env.targets, h, bytes, Replication(true, 0, s.world.replicas));
    if env.targets != [] && env.readable(h) && copied.ok {
      CopiedLayoutsOk(sha, env, env.targets, h, bytes, Replication(true, 0, s.world.replicas));
    }
  }

  lemma VisitUnmarked(sha: Sha, env: Env, resident: nat, demanded: nat, s: Sweep, k: Hash, h: Hash)
    requires k in s.world.objects && !MayMark(env, h)
    ensures var v := Visit(sha, env, resident, demanded, s, k).world;
      (h in v.ledger <==> h in s.world.ledger) && (h in v.ledger ==> v.ledger[h] == s.world.ledger[h])
  {
    VisitIsLocal(sha, env, resident, demanded, s, k, h);
    if k == h && h !in env.live && env.oldEnough(h) {
      var size := if env.sizeKnown(h) then |s.world.objects[h]| else 0;
      EvictMarks(sha, env, s.(report := s.report.(scanned := s.report.scanned + 1)), h, s.world.objects[h], size);
    }
  }

  lemma {:induction false} SweepUnmarked(sha: Sha, env: Env, resident: nat, demanded: nat, w: World, order: seq<Hash>,
                                         n: nat, h: Hash)
    requires n <= |order| && Distinct(order) && (forall k :: k in order ==> k in w.objects) && !MayMark(env, h)
    ensures var v := SweepTo(sha, env, resident, demanded, w, order, n).world;
      (h in v.ledger <==> h in w.ledger) && (h in v.ledger ==> v.ledger[h] == w.ledger[h])
  {
    if n > 0 {
      SweepUnmarked(sha, env, resident, demanded, w, order, n - 1, h);
      StillThere(sha, env, resident, demanded, w, order, n - 1);
      VisitUnmarked(sha, env, resident, demanded, SweepTo(sha, env, resident, demanded, w, order, n - 1), order[n - 1],
                    h);
    }
  }

  /** Exactly when a repeated mark keeps the first cold time: in every store, demand and order, if and
      only if the record can be read or cannot be marked. */
  lemma ColdTimeKeptIff(sha: Sha, env: Env, h: Hash)
    ensures (forall demanded: nat, w: World, order: seq<Hash> {:trigger KeepsColdTime(sha, env, demanded, w, order,
            h)} ::
               Scans(w, order) ==> KeepsColdTime(sha, env, demanded, w, order, h)) <==>
            (env.recordReadable(h) || !MayMark(env, h))
  {
    if env.recordReadable(h) || !MayMark(env, h) {
      forall demanded: nat, w: World, order: seq<Hash> | Scans(w, order)
        ensures KeepsColdTime(sha, env, demanded, w, order, h)
      {
        ScanIsResident(w, order);
        var resident := Measured(env, w.objects, order);
        if env.recordReadable(h) {
          SweepIsSafe(sha, env, resident, demanded, w, order, |order|, h);
        } else {
          SweepUnmarked(sha, env, resident, demanded, w, order, |order|, h);
        }
      }
    } else {
      UnreadableRecordRestarts(sha, env, h);
      assert !KeepsColdTime(sha, env, 0, ColdWorld(env, h), [h], h);
    }
  }

  // ----- the store object ---------------------------------------------------------------------

  method ReplicateBeforeEvict(sha: Sha, env: Env, h: Hash, bytes: Bytes, replicas: Replicas) returns (g: Replication)
    ensures g == Replicate(sha, env, env.targets, h, bytes, Replication(true, 0, replicas))
  {
    g := Replication(true, 0, replicas);
    for i := 0 to |env.targets|
      invariant g.ok
      invariant Replicate(sha, env, env.targets[i..], h, bytes, g) ==
                Replicate(sha, env, env.targets, h, bytes, Replication(true, 0, replicas))
    {
      assert env.targets[i..][0] == env.targets[i] && env.targets[i..][1..] == env.targets[i + 1..];
      if env.targets[i].Remote? {
        var root := env.targets[i].root;
        if !env.layoutOk(root) {
          return g.(ok := false);
        }
        if h !in Holds(g.replicas, root) {
          if sha(bytes) != h || !env.accepts(root, h) {
            return g.(ok := false);
          }
          g := Replication(true, g.written + 1, g.replicas[root := Holds(g.replicas, root)[h := bytes]]);
        }
      }
    }
  }

  method MeasureResident(env: Env, objects: Objects, order: seq<Hash>) returns (total: nat)
    ensures total == Measured(env, objects, order)
  {
    total := 0;
    for i := 0 to |order|
      invariant total == Measured(env, objects, order[..i])
    {
      assert order[..i + 1][..i] == order[..i];
      if env.measurable(order[i]) {
        total := total + if order[i] in objects then |objects[order[i]]| else 0;
      }
    }
    assert order[..|order|] == order;
  }

  method MeasureDemand(env: Env, w: World) returns (total: nat)
    ensures total == Demand(env, w, env.live)
  {
    total := 0;
    var rest := env.live;
    while rest != {}
      invariant rest <= env.live && total + Demand(env, w, rest) == Demand(env, w, env.live)
    {
      var h :| h in rest;
      DemandWithout(env, w, rest, h);
      rest := rest - {h};
      total := total + Share(env, w, h);
    }
  }

  /** One scanned object. */
  method VisitObject(sha: Sha, env: Env, resident: nat, demanded: nat, s0: Sweep, h: Hash) returns (s: Sweep)
    requires h in s0.world.objects
    ensures s == Visit(sha, env, resident, demanded, s0, h)
  {
    var r := s0.report.(scanned := s0.report.scanned + 1);
    s := s0.(report := r);
    if h in env.live {
      return s.(report := r.(retainedMarked := r.retainedMarked + 1));
    }
    if !env.oldEnough(h) {
      return s.(report := r.(retainedYoung := r.retainedYoung + 1));
    }
    var bytes := s.world.objects[h];
    var size := if env.sizeKnown(h) then |bytes| else 0;
    if !GuardAllows(resident, demanded, s.pending + size) {
      return s.(report := r.(slackRefused := r.slackRefused + 1));
    }
    s := EvictObject(sha, env, s, h, bytes, size);
  }

  method EvictObject(sha: Sha, env: Env, s0: Sweep, h: Hash, bytes: Bytes, size: nat) returns (s: Sweep)
    ensures s == Evict(sha, env, s0, h, bytes, size)
  {
    s := s0;
    var r := s0.report;
    if env.targets != [] {
      if !env.readable(h) {
        return s.(report := r.(replicaErrors := r.replicaErrors + 1));
      }
      var copied := ReplicateBeforeEvict(sha, env, h, bytes, s.world.replicas);
      s := s.(world := s.world.(replicas := copied.replicas));
      if !copied.ok {
        return s.(report := r.(replicaErrors := r.replicaErrors + 1));
      }
      if copied.written > 0 {
        r := r.(replicated := r.replicated + 1);
      }
    }
    var marked := MarkedCold(s.world.ledger, h, size, env.now, env.recordReadable(h), env.recordWritable(h));
    if marked.None? {
      return s.(report := r.(coldmarkFailed := r.coldmarkFailed + 1));
    }
    s := s.(world := s.world.(ledger := marked.value));
    if env.deletable(h) {
      s := Sweep(s.world.(objects := s.world.objects - {h}),
                 r.(removed := r.removed + 1, wentCold := r.wentCold + 1), s.pending + size);
    } else {
      s := s.(report := r.(deleteFailed := r.deleteFailed + 1));
    }
  }

  /** What a sweep of the store guarantees: every scanned object counted once, the removed ones being
      those that are gone; live objects kept; and the floor, wherever no measured size is lost. */
  ghost predicate SweepHolds(env: Env, demanded: nat, w: World, order: seq<Hash>, v: World, report: CasGcReport) {
    && Accounted(report) && report.scanned == |order|
    && report.removed == |w.objects.Keys| - |v.objects.Keys| && Shrunk(w, v)
    && (forall h :: h in env.live && h in w.objects ==> h in v.objects && v.objects[h] == w.objects[h])
    && (SizesHold(env) && v.objects.Keys != w.objects.Keys ==> Mass(v.objects, order) >= Floor(demanded))
  }

  method RunSweep(sha: Sha, env: Env, demanded: nat, w: World, order: seq<Hash>) returns (s: Sweep)
    requires Scans(w, order)
    ensures s == SweepAll(sha, env, demanded, w, order)
    ensures SweepHolds(env, demanded, w, order, s.world, s.report)
  {
    var resident := MeasureResident(env, w.objects, order);
    ScanIsResident(w, order);
    s := Sweep(w, CasGcReport(0, 0, 0, 0, 0, 0, 0, 0, 0, 0), 0);
    for i := 0 to |order|
      invariant s == SweepTo(sha, env, resident, demanded, w, order, i)
    {
      StillThere(sha, env, resident, demanded, w, order, i);
      s := VisitObject(sha, env, resident, demanded, s, order[i]);
    }
    SweepFacts(sha, env, demanded, w, order);
  }

  method SweepWithDemand(sha: Sha, env: Env, demanded: Option<nat>, w: World, order: seq<Hash>) returns (s: Sweep)
    requires Scans(w, order)
    ensures s.world == Apply(sha, w, GcOp(env, demanded, order))
    ensures SweepHolds(env, DemandOr(env, w, demanded), w, order, s.world, s.report)
  {
    var needed;
    if demanded.Some? {
      needed := demanded.value;
    } else {
      needed := MeasureDemand(env, w);
    }
    s := RunSweep(sha, env, needed, w, order);
  }

  lemma ScanIsResident(w: World, order: seq<Hash>)
    requires Scans(w, order)
    ensures forall h :: h in order ==> h in w.objects
  {
    assert forall h :: h in order ==> h in Elems(order);
  }

  lemma SweepFacts(sha: Sha, env: Env, demanded: nat, w: World, order: seq<Hash>)
    requires Scans(w, order)
    ensures var s := SweepAll(sha, env, demanded, w, order); SweepHolds(env, demanded, w, order, s.world, s.report)
  {
    var resident := Measured(env, w.objects, order);
    ScanIsResident(w, order);
    SweepAccounts(sha, env, resident, demanded, w, order, |order|);
    SweepCounts(sha, env, demanded, w, order);
    if SizesHold(env) {
      SweepKeepsFloor(sha, env, demanded, w, order);
    }
    var s := SweepAll(sha, env, demanded, w, order);
    forall h: Hash | h in env.live && h in w.objects
      ensures h in s.world.objects && s.world.objects[h] == w.objects[h]
    {
      SweepIsSafe(sha, env, resident, demanded, w, order, |order|, h);
    }
  }

  /** The store on disk; each call reads and rewrites its parts. */
  class CasStore {
    var world: World

    constructor (world: World)
      ensures this.world == world
    {
      this.world := world;
    }

    method PutPrehashed(sha: Sha, h: Hash, bytes: Bytes, access: Access) returns (r: Result<bool, CasError>)
      modifies this
      ensures world == Apply(sha, old(world), PutOp(h, bytes, access))
      ensures r.Ok? ==> sha(bytes) == h && h in world.objects && world.objects[h] == bytes
      ensures r.Ok? ==> h in world.ledger && world.ledger[h] == ValidityRecord(|bytes|, true, false, None)
      ensures r.Ok? ==> r.value == (h !in old(world).objects)
      ensures r.Err? && r.error != ValidityFailure ==> world == old(world)
      ensures r == Err(Malformed) <==> sha(bytes) != h
      ensures r == Err(Corrupt) <==>
                sha(bytes) == h && access.storable && h in old(world).objects && old(world).objects[h] != bytes
    {
      if h != sha(bytes) {
        return Err(Malformed);
      }
      var stored := HubPut(sha, world.objects, h, bytes, access.storable);
      if stored.Err? {
        return Err(stored.error);
      }
      world := world.(objects := stored.value.0);
      var published := Published(world.ledger, h, |bytes|, access.readable, access.writable);
      if published.None? {
        return Err(ValidityFailure);
      }
      world := world.(ledger := published.value);
      r := Ok(stored.value.1);
    }

    /** The sweep over the objects in any scan order, under the demand given or measured. */
    method GcWithDemand(sha: Sha, env: Env, demanded: Option<nat>, order: seq<Hash>) returns (report: CasGcReport)
      requires Scans(world, order)
      modifies this
      ensures world == Apply(sha, old(world), GcOp(env, demanded, order))
      ensures SweepHolds(env, DemandOr(env, old(world), demanded), old(world), order, world, report)
    {
      var s := SweepWithDemand(sha, env, demanded, world, order);
      world := s.world;
      report := s.report;
    }

    method RepairFromReplicas(sha: Sha, targets: seq<Target>, h: Hash, access: Access)
      returns (r: Result<bool, CasError>, checked: nat)
      modifies this
      ensures world == Apply(sha, old(world), RepairOp(targets, h, access))
      ensures r == AfterRepair(sha, targets, old(world), h, access).result
      ensures checked == Examined(targets, old(world).replicas, h)
    {
      var source;
      source, checked := FindHolder(targets, world.replicas, h);
      if source.None? {
        return Ok(false), checked;
      }
      if !access.fetchable {
        return Err(ReplicationFailure), checked;
      }
      var bytes := Holds(world.replicas, source.value)[h];
      var stored := HubPut(sha, world.objects, h, bytes, access.storable);
      if stored.Err? {
        return Err(ReplicationFailure), checked;
      }
      world := world.(objects := stored.value.0);
      var size := if access.sized then |bytes| else 0;
      var published := Published(world.ledger, h, size, access.readable, access.writable);
      if published.None? {
        return Err(ValidityFailure), checked;
      }
      world := world.(ledger := published.value);
      r := Ok(true);
    }
  }

  /** How many remote targets are looked at before one holds the hash, counting that one. */
  function Examined(targets: seq<Target>, rs: Replicas, h: Hash): nat
    decreases |targets|
  {
    if targets == [] then 0
    else if targets[0].LocalStore? then Examined(targets[1..], rs, h)
    else if h in Holds(rs, targets[0].root) then 1
    else 1 + Examined(targets[1..], rs, h)
  }

  /** The remote targets in order, until one holds the hash. */
  method FindHolder(targets: seq<Target>, replicas: Replicas, h: Hash) returns (r: Option<string>, checked: nat)
    ensures r == FirstHolder(targets, replicas, h) && checked == Examined(targets, replicas, h)
  {
    checked := 0;
    for i := 0 to |targets|
      invariant FirstHolder(targets[i..], replicas, h) == FirstHolder(targets, replicas, h)
      invariant checked + Examined(targets[i..], replicas, h) == Examined(targets, replicas, h)
    {
      assert targets[i..][0] == targets[i] && targets[i..][1..] == targets[i + 1..];
      if targets[i].Remote? {
        checked := checked + 1;
        if h in Holds(replicas, targets[i].root) {
          return Some(targets[i].root), checked;
        }
      }
    }
    r := None;
  }
}
