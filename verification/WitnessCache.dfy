/** The witness cache: entries found by operator and parameters, accepted only when every recorded
    root still resolves to what was recorded. */
module WitnessCache {
  import opened Wrappers

  datatype Operator = Operator(id: string, version: string)

  datatype Parameters = Parameters(symbol: string, scope: string, budget: nat)

  datatype AnswerSite = AnswerSite(path: string, evidence: string)

  datatype SymbolAnswer = SymbolAnswer(symbol: string, sites: set<AnswerSite>)

  datatype Witness = Witness(root: nat, checked: set<string>)

  /** Root lists are kept sorted and without repetition, so they are sets here. */
  datatype CacheKey = CacheKey(
    operator: Operator, parameters: Parameters,
    dependencies: set<string>, environment: set<string>, toolchain: set<string>,
    proof: Witness, scopes: set<string>,
    fixtures: Option<set<string>>, policy: Option<string>)

  datatype CacheValue = Hit(output: nat) | NoMatches

  datatype CacheEntry = CacheEntry(key: CacheKey, value: CacheValue)

  datatype CacheError = EmptyField | WitnessMismatch | RootRejected | MissingScopeRoots | UnexpectedScopeRoots

  datatype RootResolution = Unchanged | Changed | Unresolvable

  datatype EntryStatus = Reusable | Invalidated | Unverifiable

  /** The hash functions, of which nothing is assumed here. */
  datatype Digests = Digests(
    key: CacheKey -> nat, bucket: (Operator, Parameters) -> nat, output: SymbolAnswer -> nat, proof: set<string> -> nat)

  type Buckets = map<nat, seq<CacheEntry>>

  datatype Cache = Cache(
    buckets: Buckets, outputs: map<nat, SymbolAnswer>,
    hits: nat, misses: nat, invalidations: nat, deduplicated: nat)

  // ----- keys ---------------------------------------------------------------------------------

  function Optional<T>(o: Option<T>): set<T> {
    if o.Some? then {o.value} else {}
  }

  function Fixtures(o: Option<set<string>>): set<string> {
    if o.Some? then o.value else {}
  }

  function AllRoots(key: CacheKey): set<string> {
    key.dependencies + key.environment + key.toolchain + key.scopes
    + Fixtures(key.fixtures) + Optional(key.policy)
  }

  predicate Recomputes(d: Digests, w: Witness) {
    w.root == d.proof(w.checked)
  }

  function ValidateWitness(d: Digests, w: Witness): Result<(), CacheError> {
    if w.checked == {} || "" in w.checked then Err(EmptyField)
    else if !Recomputes(d, w) then Err(WitnessMismatch)
    else Ok(())
  }

  function WitnessOver(d: Digests, checked: set<string>): Result<Witness, CacheError> {
    if checked == {} then Err(EmptyField) else Ok(Witness(d.proof(checked), checked))
  }

  /** A key is built only when its witness holds and covers every root. */
  function Build(d: Digests, operator: Operator, parameters: Parameters, dependencies: set<string>,
                 environment: set<string>, toolchain: set<string>, proof: Witness, scopes: set<string>,
                 fixtures: Option<set<string>>, policy: Option<string>): (r: Result<CacheKey, CacheError>)
    ensures r.Ok? ==> ValidateWitness(d, r.value.proof).Ok? && AllRoots(r.value) <= r.value.proof.checked
    ensures r.Ok? ==> r.value.fixtures != Some({})
    ensures var roots := dependencies + environment + toolchain + scopes + Fixtures(fixtures) + Optional(policy);
      && (r.Ok? <==>
            operator.id != "" && operator.version != "" && ValidateWitness(d, proof).Ok? && roots <= proof.checked)
      && (r == Err(RootRejected) <==>
            operator.id != "" && operator.version != "" && ValidateWitness(d, proof).Ok? && !(roots <= proof.checked))
      && (r.Ok? ==>
            && AllRoots(r.value) == roots && Fixtures(r.value.fixtures) == Fixtures(fixtures)
            && r.value.operator == operator && r.value.parameters == parameters && r.value.dependencies == dependencies
            && r.value.environment == environment && r.value.toolchain == toolchain && r.value.proof == proof
            && r.value.scopes == scopes && r.value.policy == policy)
  {
    if operator.id == "" || operator.version == "" then Err(EmptyField)
    else
      var declared := if fixtures == Some({}) then None else fixtures;
      var key := CacheKey(operator, parameters, dependencies, environment, toolchain, proof, scopes, declared, policy);
      var valid := ValidateWitness(d, proof);
      if valid.Err? then Err(valid.error)
      else if AllRoots(key) <= proof.checked then Ok(key) else Err(RootRejected)
  }

  function ValidateEntry(d: Digests, e: CacheEntry): Result<(), CacheError> {
    var valid := ValidateWitness(d, e.key.proof);
    if valid.Err? then valid
    else if e.value.Hit? && e.key.scopes != {} then Err(UnexpectedScopeRoots)
    else if e.value.NoMatches? && e.key.scopes == {} then Err(MissingScopeRoots)
    else Ok(())
  }

  function BucketOf(d: Digests, key: CacheKey): nat {
    d.bucket(key.operator, key.parameters)
  }

  // ----- verification of one entry ------------------------------------------------------------

  ghost predicate Fails(key: CacheKey, resolve: string -> RootResolution, r: string) {
    r !in key.proof.checked || resolve(r).Unresolvable?
  }

  /** Reusable only when the witness recomputes and every root is witnessed and unchanged. */
  ghost function StatusOf(d: Digests, e: CacheEntry, resolve: string -> RootResolution): EntryStatus {
    if !Recomputes(d, e.key.proof) || exists r :: r in AllRoots(e.key) && Fails(e.key, resolve, r) then Unverifiable
    else if exists r :: r in AllRoots(e.key) && resolve(r).Changed? then Invalidated
    else Reusable
  }

  method VerifyEntry(d: Digests, e: CacheEntry, resolve: string -> RootResolution) returns (status: EntryStatus)
    ensures status == StatusOf(d, e, resolve)
  {
    if !Recomputes(d, e.key.proof) {
      return Unverifiable;
    }
    status := Reusable;
    var rest := AllRoots(e.key);
    while rest != {}
      invariant rest <= AllRoots(e.key)
      invariant forall r :: r in AllRoots(e.key) - rest ==> !Fails(e.key, resolve, r)
      invariant status.Invalidated? <==> exists r :: r in AllRoots(e.key) - rest && resolve(r).Changed?
      invariant !status.Unverifiable?
    {
      var root :| root in rest;
      ghost var done := AllRoots(e.key) - rest;
      rest := rest - {root};
      assert AllRoots(e.key) - rest == done + {root};
      if root !in e.key.proof.checked {
        assert Fails(e.key, resolve, root);
        return Unverifiable;
      }
      match resolve(root)
      case Unchanged =>
      case Changed =>
        status := Invalidated;
      case Unresolvable =>
        assert Fails(e.key, resolve, root);
        return Unverifiable;
    }
  }

  /** For a built key, only a root that cannot be resolved makes the entry unverifiable. */
  lemma BuiltKeyVerifies(d: Digests, e: CacheEntry, resolve: string -> RootResolution)
    requires ValidateWitness(d, e.key.proof).Ok? && AllRoots(e.key) <= e.key.proof.checked
    ensures StatusOf(d, e, resolve).Unverifiable? <==> exists r :: r in AllRoots(e.key) && resolve(r).Unresolvable?
    ensures StatusOf(d, e, resolve).Reusable? <==> forall r :: r in AllRoots(e.key) ==> resolve(r).Unchanged?
  {
    forall r | r in AllRoots(e.key) ensures Fails(e.key, resolve, r) <==> resolve(r).Unresolvable? {
    }
    if r :| r in AllRoots(e.key) && resolve(r).Unresolvable? {
      assert Fails(e.key, resolve, r);
    } else {
      assert forall r :: r in AllRoots(e.key) ==> !Fails(e.key, resolve, r);
      if StatusOf(d, e, resolve).Reusable? {
        forall r | r in AllRoots(e.key) ensures resolve(r).Unchanged? {
          assert !resolve(r).Unresolvable? && !resolve(r).Changed?;
        }
      }
    }
  }

  // ----- the invariant ------------------------------------------------------------------------

  ghost predicate Holds(buckets: Buckets, e: CacheEntry) {
    exists b :: b in buckets && e in buckets[b]
  }

  /** Some entry refers to this output. */
  ghost predicate Used(buckets: Buckets, k: nat) {
    exists e :: Holds(buckets, e) && e.value == Hit(k)
  }

  predicate DistinctKeys(d: Digests, es: seq<CacheEntry>) {
    forall i, j :: 0 <= i < j < |es| ==> d.key(es[i].key) != d.key(es[j].key)
  }

  predicate BucketOk(d: Digests, b: nat, es: seq<CacheEntry>) {
    es != [] && DistinctKeys(d, es) && forall e :: e in es ==> BucketOf(d, e.key) == b
  }

  /** Keys are unique within a bucket, and every output an entry refers to is there. */
  ghost predicate Sound(d: Digests, c: Cache) {
    && (forall b :: b in c.buckets ==> BucketOk(d, b, c.buckets[b]))
    && (forall k {:trigger Used(c.buckets, k)} :: Used(c.buckets, k) ==> k in c.outputs)
    && (forall k :: k in c.outputs ==> d.output(c.outputs[k]) == k)
  }

  ghost predicate NoOrphans(c: Cache) {
    forall k {:trigger Used(c.buckets, k)} :: k in c.outputs ==> Used(c.buckets, k)
  }

  // ----- removing and storing entries ---------------------------------------------------------

  ghost function Prune(outputs: map<nat, SymbolAnswer>, roots: set<nat>, buckets: Buckets): map<nat, SymbolAnswer> {
    map k | k in outputs && (k in roots ==> Used(buckets, k)) :: outputs[k]
  }

  function OutputOf(e: CacheEntry): set<nat> {
    if e.value.Hit? then {e.value.output} else {}
  }

  ghost function Outputs(es: seq<CacheEntry>): set<nat> {
    set e | e in es && e.value.Hit? :: e.value.output
  }

  function Entries(buckets: Buckets, b: nat): seq<CacheEntry> {
    if b in buckets then buckets[b] else []
  }

  function SetEntries(buckets: Buckets, b: nat, es: seq<CacheEntry>): Buckets {
    if es == [] then buckets - {b} else buckets[b := es]
  }

  /** The first `n` entries of a bucket are dropped, and with them the outputs nobody uses. */
  ghost function DropFirst(c: Cache, b: nat, n: nat): Cache
    requires n <= |Entries(c.buckets, b)|
  {
    var es := Entries(c.buckets, b);
    var buckets := SetEntries(c.buckets, b, es[n..]);
    c.(buckets := buckets, outputs := Prune(c.outputs, Outputs(es[..n]), buckets))
  }

  /** Where the key is in the bucket, or the bucket's length. */
  function Find(d: Digests, es: seq<CacheEntry>, key: CacheKey): (i: nat)
    ensures i <= |es|
    ensures i < |es| ==> d.key(es[i].key) == d.key(key)
    ensures forall j :: 0 <= j < i ==> d.key(es[j].key) != d.key(key)
  {
    if es == [] then 0
    else if d.key(es[0].key) == d.key(key) then 0
    else 1 + Find(d, es[1..], key)
  }

  /** One row per key: a second insert replaces the first. */
  ghost function Stored(d: Digests, c: Cache, e: CacheEntry): Cache {
    var b := BucketOf(d, e.key);
    var es := Entries(c.buckets, b);
    var i := Find(d, es, e.key);
    if i == |es| then c.(buckets := c.buckets[b := es + [e]])
    else
      var buckets := c.buckets[b := es[i := e]];
      c.(buckets := buckets, outputs := Prune(c.outputs, OutputOf(es[i]), buckets), deduplicated := c.deduplicated + 1)
  }

  ghost function WithPositive(d: Digests, c: Cache, key: CacheKey, answer: SymbolAnswer): (Cache, Result<nat,
                                                                                           CacheError>) {
    var k := d.output(answer);
    var e := CacheEntry(key, Hit(k));
    var c1 := c.(outputs := c.outputs[k := answer]);
    var valid := ValidateEntry(d, e);
    if valid.Err? then (c1, Err(valid.error)) else (Stored(d, c1, e), Ok(d.key(key)))
  }

  ghost function WithNegative(d: Digests, c: Cache, key: CacheKey): (Cache, Result<nat, CacheError>) {
    var e := CacheEntry(key, NoMatches);
    var valid := ValidateEntry(d, e);
    if valid.Err? then (c, Err(valid.error)) else (Stored(d, c, e), Ok(d.key(key)))
  }

  ghost predicate Usable(d: Digests, c: Cache, e: CacheEntry, resolve: string -> RootResolution) {
    StatusOf(d, e, resolve).Reusable? && (e.value.Hit? ==> e.value.output in c.outputs)
  }

  ghost function FirstUsable(d: Digests, c: Cache, es: seq<CacheEntry>, resolve: string -> RootResolution): (i: nat)
    ensures i <= |es|
    ensures i < |es| ==> Usable(d, c, es[i], resolve)
    ensures forall j :: 0 <= j < i ==> !Usable(d, c, es[j], resolve)
  {
    if es == [] then 0
    else if Usable(d, c, es[0], resolve) then 0
    else 1 + FirstUsable(d, c, es[1..], resolve)
  }

  function Payload(outputs: map<nat, SymbolAnswer>, e: CacheEntry): Option<SymbolAnswer> {
    if e.value.Hit? && e.value.output in outputs then Some(outputs[e.value.output]) else None
  }

  type Found = Option<(nat, Option<SymbolAnswer>)>

  /** Without the first `n` entries of the bucket, which count as invalidated. */
  ghost function WithoutDead(c: Cache, b: nat, n: nat): Cache
    requires n <= |Entries(c.buckets, b)|
  {
    (if n == 0 then c else DropFirst(c, b, n)).(invalidations := c.invalidations + n)
  }

  ghost function Tallied(c: Cache, hit: bool): Cache {
    if hit then c.(hits := c.hits + 1) else c.(misses := c.misses + 1)
  }

  /** The first usable entry answers; the ones before it are dropped as dead. */
  ghost function LookedUp(d: Digests, c: Cache, b: nat, resolve: string -> RootResolution): (Cache, Found) {
    var es := Entries(c.buckets, b);
    var i := FirstUsable(d, c, es, resolve);
    var c1 := WithoutDead(c, b, i);
    if i == |es| then (Tallied(c1, false), None)
    else (Tallied(c1, true), Some((d.key(es[i].key), Payload(c.outputs, es[i]))))
  }

  // ----- one operation keeps the invariant ----------------------------------------------------

  lemma DropUses(buckets: Buckets, b: nat, n: nat, k: nat)
    requires n <= |Entries(buckets, b)|
    ensures var after := SetEntries(buckets, b, Entries(buckets, b)[n..]);
            && (Used(after, k) ==> Used(buckets, k))
            && (Used(buckets, k) ==> Used(after, k) || k in Outputs(Entries(buckets, b)[..n]))
  {
    var es := Entries(buckets, b);
    var after := SetEntries(buckets, b, es[n..]);
    if Used(after, k) {
      var e :| Holds(after, e) && e.value == Hit(k);
      var a :| a in after && e in after[a];
      assert e in buckets[a];
      assert Holds(buckets, e);
    }
    if Used(buckets, k) {
      var e :| Holds(buckets, e) && e.value == Hit(k);
      var a :| a in buckets && e in buckets[a];
      if a != b {
        assert e in after[a];
        assert Holds(after, e);
      } else if e in es[n..] {
        assert b in after && e in after[b];
        assert Holds(after, e);
      } else {
        assert es == es[..n] + es[n..];
        assert e in es[..n];
      }
    }
  }

  lemma DropKeeps(d: Digests, c: Cache, b: nat, n: nat)
    requires Sound(d, c) && n <= |Entries(c.buckets, b)|
    ensures Sound(d, DropFirst(c, b, n))
    ensures NoOrphans(c) ==> NoOrphans(DropFirst(c, b, n))
  {
    var after := DropFirst(c, b, n);
    forall a | a in after.buckets ensures BucketOk(d, a, after.buckets[a]) {
      if a == b {
        forall e | e in after.buckets[b] ensures BucketOf(d, e.key) == b {
          assert e in c.buckets[b];
        }
      }
    }
    forall k ensures Used(after.buckets, k) ==> k in after.outputs {
      DropUses(c.buckets, b, n, k);
    }
    if NoOrphans(c) {
      forall k | k in after.outputs ensures Used(after.buckets, k) {
        DropUses(c.buckets, b, n, k);
      }
    }
  }

  lemma LookupKeeps(d: Digests, c: Cache, b: nat, resolve: string -> RootResolution)
    requires Sound(d, c)
    ensures Sound(d, LookedUp(d, c, b, resolve).0)
    ensures NoOrphans(c) ==> NoOrphans(LookedUp(d, c, b, resolve).0)
  {
    var i := FirstUsable(d, c, Entries(c.buckets, b), resolve);
    DropKeeps(d, c, b, i);
  }

  lemma StoreUses(d: Digests, c: Cache, e: CacheEntry, k: nat)
    ensures var after, es := Stored(d, c, e).buckets, Entries(c.buckets, BucketOf(d, e.key));
            var i := Find(d, es, e.key);
            && (Used(after, k) ==> Used(c.buckets, k) || k in OutputOf(e))
            && (Used(c.buckets, k) ==> Used(after, k) || (i < |es| && k in OutputOf(es[i])))
            && (k in OutputOf(e) ==> Used(after, k))
  {
    var b := BucketOf(d, e.key);
    var after, es := Stored(d, c, e).buckets, Entries(c.buckets, b);
    var i := Find(d, es, e.key);
    StoredEntries(d, c, e);
    if Used(after, k) {
      var x :| Holds(after, x) && x.value == Hit(k);
      var a :| a in after && x in after[a];
      if x != e {
        assert x in c.buckets[a];
        assert Holds(c.buckets, x);
      }
    }
    if Used(c.buckets, k) {
      var x :| Holds(c.buckets, x) && x.value == Hit(k);
      var a :| a in c.buckets && x in c.buckets[a];
      if !(i < |es| && x == es[i]) {
        assert x in after[a];
        assert Holds(after, x);
      }
    }
    assert e in after[b];
    assert Holds(after, e);
  }

  /** What is in each bucket after a store. */
  lemma StoredEntries(d: Digests, c: Cache, e: CacheEntry)
    ensures var b := BucketOf(d, e.key);
            var after, es := Stored(d, c, e).buckets, Entries(c.buckets, b);
            var i := Find(d, es, e.key);
            && after.Keys == c.buckets.Keys + {b}
            && (forall a :: a in c.buckets && a != b ==> after[a] == c.buckets[a])
            && (forall x :: x in after[b] ==> x == e || x in es)
            && (forall x :: x in es && !(i < |es| && x == es[i]) ==> x in after[b])
            && e in after[b]
  {
    var b := BucketOf(d, e.key);
    var after, es := Stored(d, c, e).buckets, Entries(c.buckets, b);
    var i := Find(d, es, e.key);
    if i < |es| {
      assert after[b] == es[i := e] && after[b][i] == e;
      forall x | x in es && x != es[i] ensures x in after[b] {
        var j :| 0 <= j < |es| && es[j] == x;
        assert after[b][j] == x;
      }
    } else {
      assert after[b] == es + [e];
    }
  }

  lemma StoreBuckets(d: Digests, c: Cache, e: CacheEntry, a: nat)
    requires Sound(d, c) && a in Stored(d, c, e).buckets
    ensures BucketOk(d, a, Stored(d, c, e).buckets[a])
  {
    StoredEntries(d, c, e);
    var b := BucketOf(d, e.key);
    var es := Entries(c.buckets, b);
    if a != b {
      assert BucketOk(d, a, c.buckets[a]);
    } else {
      assert es == [] || BucketOk(d, b, es);
    }
  }

  /** The stored entry's output must be there, and may have been the only unused one. */
  lemma StoreKeeps(d: Digests, c: Cache, e: CacheEntry)
    requires Sound(d, c) && OutputOf(e) <= c.outputs.Keys
    ensures Sound(d, Stored(d, c, e))
    ensures (forall k :: k in c.outputs && k !in OutputOf(e) ==> Used(c.buckets, k)) ==> NoOrphans(Stored(d, c, e))
  {
    var after := Stored(d, c, e);
    forall a | a in after.buckets ensures BucketOk(d, a, after.buckets[a]) {
      StoreBuckets(d, c, e, a);
    }
    forall k ensures Used(after.buckets, k) ==> k in after.outputs {
      StoreUses(d, c, e, k);
    }
    if forall k :: k in c.outputs && k !in OutputOf(e) ==> Used(c.buckets, k) {
      forall k | k in after.outputs ensures Used(after.buckets, k) {
        StoreUses(d, c, e, k);
      }
    }
  }

  lemma OutputAdded(d: Digests, c: Cache, answer: SymbolAnswer)
    requires Sound(d, c)
    ensures Sound(d, c.(outputs := c.outputs[d.output(answer) := answer]))
  {
  }

  lemma InsertKeeps(d: Digests, c: Cache, key: CacheKey, answer: SymbolAnswer)
    requires Sound(d, c)
    ensures Sound(d, WithPositive(d, c, key, answer).0) && Sound(d, WithNegative(d, c, key).0)
    ensures NoOrphans(c) && WithPositive(d, c, key, answer).1.Ok? ==> NoOrphans(WithPositive(d, c, key, answer).0)
    ensures NoOrphans(c) ==> NoOrphans(WithNegative(d, c, key).0)
  {
    var k := d.output(answer);
    var c1 := c.(outputs := c.outputs[k := answer]);
    OutputAdded(d, c, answer);
    StoreKeeps(d, c1, CacheEntry(key, Hit(k)));
    StoreKeeps(d, c, CacheEntry(key, NoMatches));
  }

  /** A rejected positive insert leaves its payload behind: nothing is orphaned exactly when some
      entry already used that payload. */
  lemma RejectedInsertOrphans(d: Digests, c: Cache, key: CacheKey, answer: SymbolAnswer)
    requires Sound(d, c) && NoOrphans(c) && WithPositive(d, c, key, answer).1.Err?
    ensures NoOrphans(WithPositive(d, c, key, answer).0) <==> Used(c.buckets, d.output(answer))
  {
    var after := WithPositive(d, c, key, answer).0;
    assert after.buckets == c.buckets;
    assert d.output(answer) in after.outputs;
  }

  /** Such an insert into an empty cache: a key with a scope root, built and valid, is not for a
      positive answer. */
  lemma ScopedPositiveOrphans(d: Digests, answer: SymbolAnswer, key: CacheKey)
    requires Build(d, Operator("q", "1"), Parameters("f", "", 1), {}, {}, {},
             Witness(d.proof({"scope/@0"}), {"scope/@0"}),
                   {"scope/@0"}, None, None) == Ok(key)
    ensures WithPositive(d, EMPTY, key, answer).1 == Err(UnexpectedScopeRoots)
    ensures !NoOrphans(WithPositive(d, EMPTY, key, answer).0)
  {
    var after := WithPositive(d, EMPTY, key, answer).0;
    assert d.output(answer) in after.outputs && !Used(after.buckets, d.output(answer));
  }

  // ----- counting -----------------------------------------------------------------------------

  ghost function Pick(m: Buckets): nat
    requires m != map[]
    ensures Pick(m) in m
  {
    var b :| b in m;
    b
  }

  ghost function Total(m: Buckets): nat
    decreases |m|
  {
    if m == map[] then 0 else |m[Pick(m)]| + Total(m - {Pick(m)})
  }

  lemma {:induction false} TotalAt(m: Buckets, b: nat)
    requires b in m
    ensures Total(m) == |m[b]| + Total(m - {b})
    decreases |m|
  {
    var p := Pick(m);
    if p != b {
      TotalAt(m - {p}, b);
      TotalAt(m - {b}, p);
      assert m - {p} - {b} == m - {b} - {p};
    }
  }

  lemma TotalSet(m: Buckets, b: nat, es: seq<CacheEntry>)
    ensures Total(SetEntries(m, b, es)) == Total(m) - |Entries(m, b)| + |es|
  {
    var after := SetEntries(m, b, es);
    assert after - {b} == m - {b};
    if b in after {
      TotalAt(after, b);
    } else {
      assert after - {b} == after;
    }
    if b in m {
      TotalAt(m, b);
    } else {
      assert m - {b} == m;
    }
  }

  // ----- runs ---------------------------------------------------------------------------------

  datatype Op =
    | LookupOp(operator: Operator, parameters: Parameters, resolve: string -> RootResolution)
    | PositiveOp(key: CacheKey, answer: SymbolAnswer)
    | NegativeOp(key: CacheKey)

  ghost function Exec(d: Digests, c: Cache, op: Op): Cache {
    match op
    case LookupOp(operator, parameters, resolve) => LookedUp(d, c, d.bucket(operator, parameters), resolve).0
    case PositiveOp(key, answer) => WithPositive(d, c, key, answer).0
    case NegativeOp(key) => WithNegative(d, c, key).0
  }

  const EMPTY: Cache := Cache(map[], map[], 0, 0, 0, 0)

  ghost function Run(d: Digests, ops: seq<Op>): Cache {
    if ops == [] then EMPTY else Exec(d, Run(d, ops[..|ops| - 1]), ops[|ops| - 1])
  }

  function Lookups(ops: seq<Op>): nat {
    if ops == [] then 0 else Lookups(ops[..|ops| - 1]) + if ops[|ops| - 1].LookupOp? then 1 else 0
  }

  predicate Succeeds(d: Digests, op: Op) {
    match op
    case LookupOp(_, _, _) => false
    case PositiveOp(key, answer) => ValidateEntry(d, CacheEntry(key, Hit(d.output(answer)))).Ok?
    case NegativeOp(key) => ValidateEntry(d, CacheEntry(key, NoMatches)).Ok?
  }

  function Inserts(d: Digests, ops: seq<Op>): nat {
    if ops == [] then 0 else Inserts(d, ops[..|ops| - 1]) + if Succeeds(d, ops[|ops| - 1]) then 1 else 0
  }

  /** What was last inserted under each key; absent answers are certified ones. */
  function LastInserted(d: Digests, ops: seq<Op>): map<CacheKey, Option<SymbolAnswer>> {
    if ops == [] then map[]
    else
      var before, op := LastInserted(d, ops[..|ops| - 1]), ops[|ops| - 1];
      if !Succeeds(d, op) then before
      else before[op.key := if op.PositiveOp? then Some(op.answer) else None]
  }

  ghost predicate Matches(d: Digests, e: CacheEntry, last: map<CacheKey, Option<SymbolAnswer>>) {
    && e.key in last
    && e.value == match last[e.key] case Some(a) => Hit(d.output(a)) case None => NoMatches
  }

  /** Every live entry holds what was last inserted under its key. */
  ghost predicate UpToDate(d: Digests, c: Cache, last: map<CacheKey, Option<SymbolAnswer>>) {
    forall e {:trigger Holds(c.buckets, e)} :: Holds(c.buckets, e) ==> Matches(d, e, last)
  }

  lemma DropHolds(c: Cache, b: nat, n: nat, e: CacheEntry)
    requires n <= |Entries(c.buckets, b)| && Holds(DropFirst(c, b, n).buckets, e)
    ensures Holds(c.buckets, e)
  {
    var after := DropFirst(c, b, n).buckets;
    var a :| a in after && e in after[a];
    assert e in c.buckets[a];
  }

  lemma StoreHolds(d: Digests, c: Cache, e: CacheEntry, x: CacheEntry)
    requires Sound(d, c) && Holds(Stored(d, c, e).buckets, x)
    ensures x == e || (Holds(c.buckets, x) && x.key != e.key)
  {
    StoredEntries(d, c, e);
    var b := BucketOf(d, e.key);
    var after := Stored(d, c, e);
    var a :| a in after.buckets && x in after.buckets[a];
    StoreBuckets(d, c, e, a);
    if a == b && x.key == e.key {
      SameKeySameEntry(d, after.buckets[b], x, e);
    } else if x != e {
      assert x in c.buckets[a];
    }
  }

  lemma SameKeySameEntry(d: Digests, es: seq<CacheEntry>, x: CacheEntry, y: CacheEntry)
    requires DistinctKeys(d, es) && x in es && y in es && x.key == y.key
    ensures x == y
  {
    var i :| 0 <= i < |es| && es[i] == x;
    var j :| 0 <= j < |es| && es[j] == y;
    assert d.key(es[i].key) == d.key(es[j].key);
  }

  lemma ExecKeepsUpToDate(d: Digests, c: Cache, op: Op, last: map<CacheKey, Option<SymbolAnswer>>)
    requires Sound(d, c) && UpToDate(d, c, last)
    ensures var last1 := if !Succeeds(d, op) then last
            else last[op.key := if op.PositiveOp? then Some(op.answer) else None];
            UpToDate(d, Exec(d, c, op), last1)
  {
    var last1 := if !Succeeds(d, op) then last else last[op.key := if op.PositiveOp? then Some(op.answer) else None];
    var after := Exec(d, c, op);
    forall e | Holds(after.buckets, e) ensures Matches(d, e, last1) {
      match op {
        case LookupOp(operator, parameters, resolve) =>
          var b := d.bucket(operator, parameters);
          var i := FirstUsable(d, c, Entries(c.buckets, b), resolve);
          if i > 0 {
            DropHolds(c, b, i, e);
          }
        case PositiveOp(key, answer) =>
          var c1 := c.(outputs := c.outputs[d.output(answer) := answer]);
          OutputAdded(d, c, answer);
          if Succeeds(d, op) {
            StoreHolds(d, c1, CacheEntry(key, Hit(d.output(answer))), e);
          }
        case NegativeOp(key) =>
          if Succeeds(d, op) {
            StoreHolds(d, c, CacheEntry(key, NoMatches), e);
          }
      }
    }
  }

  lemma StoreCounts(d: Digests, c: Cache, e: CacheEntry)
    ensures Total(Stored(d, c, e).buckets) + Stored(d, c, e).deduplicated == Total(c.buckets) + c.deduplicated + 1
    ensures Stored(d, c, e).hits == c.hits && Stored(d, c, e).misses == c.misses
    ensures Stored(d, c, e).invalidations == c.invalidations
  {
    var b := BucketOf(d, e.key);
    var es := Entries(c.buckets, b);
    var i := Find(d, es, e.key);
    TotalSet(c.buckets, b, if i == |es| then es + [e] else es[i := e]);
  }

  lemma LookupCounts(d: Digests, c: Cache, b: nat, resolve: string -> RootResolution)
    ensures var after := LookedUp(d, c, b, resolve).0;
            && Total(after.buckets) + after.invalidations == Total(c.buckets) + c.invalidations
            && after.hits + after.misses == c.hits + c.misses + 1
            && after.deduplicated == c.deduplicated
  {
    var es := Entries(c.buckets, b);
    var i := FirstUsable(d, c, es, resolve);
    TotalSet(c.buckets, b, es[i..]);
  }

  /** Over any run: keys are unique per bucket, referenced payloads are there and are what was last
      inserted, every lookup is a hit or a miss, and every successful insert is alive, was collapsed
      onto an existing row, or was invalidated. */
  lemma {:induction false} EveryRunIsSound(d: Digests, ops: seq<Op>)
    ensures var c := Run(d, ops);
            && Sound(d, c) && UpToDate(d, c, LastInserted(d, ops))
            && c.hits + c.misses == Lookups(ops)
            && Inserts(d, ops) == Total(c.buckets) + c.deduplicated + c.invalidations
  {
    if ops != [] {
      var before, op := ops[..|ops| - 1], ops[|ops| - 1];
      EveryRunIsSound(d, before);
      var c := Run(d, before);
      ExecKeepsUpToDate(d, c, op, LastInserted(d, before));
      match op
      case LookupOp(operator, parameters, resolve) =>
        LookupKeeps(d, c, d.bucket(operator, parameters), resolve);
        LookupCounts(d, c, d.bucket(operator, parameters), resolve);
      case PositiveOp(key, answer) =>
        InsertKeeps(d, c, key, answer);
        StoreCounts(d, c.(outputs := c.outputs[d.output(answer) := answer]), CacheEntry(key, Hit(d.output(answer))));
      case NegativeOp(key) =>
        InsertKeeps(d, c, key, SymbolAnswer("", {}));
        StoreCounts(d, c, CacheEntry(key, NoMatches));
    }
  }

  /** A hit comes from an entry of the asked bucket whose roots all check, and gives back what was
      last inserted under its key, up to a collision of the payload digest. */
  lemma HitIsLastInserted(d: Digests, ops: seq<Op>, b: nat, resolve: string -> RootResolution) returns (e: CacheEntry)
    requires LookedUp(d, Run(d, ops), b, resolve).1.Some?
    ensures var last, r := LastInserted(d, ops), LookedUp(d, Run(d, ops), b, resolve).1.value;
            && e.key in last && r.0 == d.key(e.key) && BucketOf(d, e.key) == b
            && StatusOf(d, e, resolve).Reusable?
            && (r.1.None? <==> last[e.key].None?)
            && (r.1 == last[e.key] || d.output(r.1.value) == d.output(last[e.key].value))
  {
    EveryRunIsSound(d, ops);
    var c := Run(d, ops);
    var es := Entries(c.buckets, b);
    e := es[FirstUsable(d, c, es, resolve)];
    assert e in c.buckets[b];
    assert Holds(c.buckets, e);
    assert Matches(d, e, LastInserted(d, ops));
  }

  // ----- the cache itself ---------------------------------------------------------------------

  method AnyUses(buckets: Buckets, k: nat) returns (used: bool)
    ensures used <==> Used(buckets, k)
  {
    var rest := buckets.Keys;
    while rest != {}
      invariant rest <= buckets.Keys
      invariant forall b, e :: b in buckets && b !in rest && e in buckets[b] ==> e.value != Hit(k)
    {
      var b :| b in rest;
      rest := rest - {b};
      var es := buckets[b];
      for i := 0 to |es|
        invariant forall j :: 0 <= j < i ==> es[j].value != Hit(k)
      {
        if es[i].value == Hit(k) {
          assert Holds(buckets, es[i]);
          return true;
        }
      }
    }
    used := false;
  }

  /** Remove those of the given outputs that no entry uses. */
  method PruneOutputs(outputs: map<nat, SymbolAnswer>, roots: set<nat>, buckets: Buckets)
    returns (kept: map<nat, SymbolAnswer>)
    ensures kept == Prune(outputs, roots, buckets)
  {
    kept := outputs;
    var rest := roots;
    while rest != {}
      invariant rest <= roots
      invariant kept == Prune(outputs, roots - rest, buckets)
    {
      var k :| k in rest;
      ghost var done := roots - rest;
      rest := rest - {k};
      assert roots - rest == done + {k};
      var used := AnyUses(buckets, k);
      if !used {
        kept := kept - {k};
      }
    }
    assert roots - rest == roots;
  }

  function Kept(d: Digests, es: seq<CacheEntry>, dead: set<nat>): seq<CacheEntry> {
    if es == [] then []
    else (if d.key(es[0].key) in dead then [] else [es[0]]) + Kept(d, es[1..], dead)
  }

  lemma {:induction false} KeepsAll(d: Digests, es: seq<CacheEntry>, dead: set<nat>)
    requires forall e :: e in es ==> d.key(e.key) !in dead
    ensures Kept(d, es, dead) == es
  {
    if es != [] {
      assert es[0] in es;
      KeepsAll(d, es[1..], dead);
    }
  }

  ghost function KeysOf(d: Digests, es: seq<CacheEntry>): set<nat> {
    set e | e in es :: d.key(e.key)
  }

  /** Dropping by key drops exactly the first entries, as keys are not repeated. */
  lemma {:induction false} KeptIsSuffix(d: Digests, es: seq<CacheEntry>, n: nat, k: nat, dead: set<nat>)
    requires k <= n <= |es| && DistinctKeys(d, es) && dead == KeysOf(d, es[..n])
    ensures Kept(d, es[k..], dead) == es[n..]
    decreases n - k
  {
    if k == n {
      forall e | e in es[n..] ensures d.key(e.key) !in dead {
        var j :| n <= j < |es| && es[j] == e;
        forall x | x in es[..n] ensures d.key(x.key) != d.key(e.key) {
          var i :| 0 <= i < n && es[i] == x;
          assert d.key(es[i].key) != d.key(es[j].key);
        }
      }
      KeepsAll(d, es[n..], dead);
    } else {
      assert es[k..][1..] == es[k + 1..];
      assert es[k] in es[..n];
      KeptIsSuffix(d, es, n, k + 1, dead);
    }
  }

  method Retain(d: Digests, es: seq<CacheEntry>, dead: set<nat>) returns (kept: seq<CacheEntry>, dropped: set<nat>)
    ensures kept == Kept(d, es, dead)
    ensures forall k :: k in dropped <==> exists e :: e in es && d.key(e.key) in dead && e.value == Hit(k)
  {
    kept, dropped := [], {};
    for i := |es| downto 0
      invariant kept == Kept(d, es[i..], dead)
      invariant forall k :: k in dropped <==> exists e :: e in es[i..] && d.key(e.key) in dead && e.value == Hit(k)
    {
      assert es[i..][1..] == es[i + 1..] && es[i..] == [es[i]] + es[i + 1..];
      if d.key(es[i].key) in dead {
        dropped := dropped + OutputOf(es[i]);
      } else {
        kept := [es[i]] + kept;
      }
    }
    assert es[0..] == es;
  }

  lemma DroppedAreFirst(d: Digests, es: seq<CacheEntry>, n: nat, dropped: set<nat>)
    requires n <= |es| && DistinctKeys(d, es)
    requires forall k :: k in dropped <==> exists e ::
             e in es && d.key(e.key) in KeysOf(d, es[..n]) && e.value == Hit(k)
    ensures dropped == Outputs(es[..n])
  {
    forall e | e in es ensures d.key(e.key) in KeysOf(d, es[..n]) <==> e in es[..n] {
      if d.key(e.key) in KeysOf(d, es[..n]) {
        var x :| x in es[..n] && d.key(x.key) == d.key(e.key);
        var i :| 0 <= i < n && es[i] == x;
        var j :| 0 <= j < |es| && es[j] == e;
        assert i == j;
      }
    }
    forall e | e in es[..n] ensures e in es {
    }
  }

  lemma NoKeysNoEntries(d: Digests, es: seq<CacheEntry>)
    ensures KeysOf(d, es) == {} <==> es == []
  {
    if es != [] {
      assert d.key(es[0].key) in KeysOf(d, es);
    }
  }

  /** Remove dead entries from a bucket and the outputs they leave unused. */
  method DropDead(d: Digests, buckets0: Buckets, outputs0: map<nat, SymbolAnswer>, b: nat, dead: set<nat>, ghost n: nat)
    returns (buckets: Buckets, outputs: map<nat, SymbolAnswer>)
    requires b in buckets0 && DistinctKeys(d, buckets0[b]) && n <= |buckets0[b]|
    requires dead == KeysOf(d, buckets0[b][..n])
    ensures buckets == SetEntries(buckets0, b, buckets0[b][n..])
    ensures outputs == Prune(outputs0, Outputs(buckets0[b][..n]), buckets)
  {
    ghost var es := buckets0[b];
    var kept, dropped := Retain(d, buckets0[b], dead);
    assert es[0..] == es;
    KeptIsSuffix(d, es, n, 0, dead);
    DroppedAreFirst(d, es, n, dropped);
    buckets := buckets0[b := kept];
    if kept == [] {
      buckets := buckets - {b};
      assert buckets == buckets0 - {b};
    }
    outputs := PruneOutputs(outputs0, dropped, buckets);
  }

  class EntryCache {
    const digests: Digests
    var buckets: Buckets
    var outputs: map<nat, SymbolAnswer>
    var hits: nat
    var misses: nat
    var invalidations: nat
    var deduplicated: nat

    ghost function State(): Cache
      reads this
    {
      Cache(buckets, outputs, hits, misses, invalidations, deduplicated)
    }

    constructor (digests: Digests)
      ensures this.digests == digests && State() == EMPTY && Sound(digests, State()) && NoOrphans(State())
    {
      this.digests := digests;
      buckets, outputs := map[], map[];
      hits, misses, invalidations, deduplicated := 0, 0, 0, 0;
    }

    /** How many entries come before the first usable one, and their keys. */
    method Scan(es: seq<CacheEntry>, resolve: string -> RootResolution) returns (i: nat, dead: set<nat>)
      ensures i == FirstUsable(digests, State(), es, resolve) && dead == KeysOf(digests, es[..i])
    {
      i, dead := 0, {};
      while i < |es|
        invariant i <= |es| && dead == KeysOf(digests, es[..i])
        invariant forall j :: 0 <= j < i ==> !Usable(digests, State(), es[j], resolve)
      {
        var status := VerifyEntry(digests, es[i], resolve);
        if status.Reusable? && (es[i].value.Hit? ==> es[i].value.output in outputs) {
          return;
        }
        assert es[..i + 1] == es[..i] + [es[i]];
        dead := dead + {digests.key(es[i].key)};
        i := i + 1;
      }
    }

    method DropEntries(b: nat, dead: set<nat>, ghost n: nat)
      requires b in buckets && BucketOk(digests, b, buckets[b]) && n <= |buckets[b]|
      requires dead == KeysOf(digests, buckets[b][..n])
      modifies this`buckets, this`outputs
      ensures State() == DropFirst(old(State()), b, n)
    {
      buckets, outputs := DropDead(digests, buckets, outputs, b, dead, n);
    }

    method Lookup(operator: Operator, parameters: Parameters, resolve: string -> RootResolution) returns (r: Found)
      requires Sound(digests, State())
      modifies this
      ensures (State(), r) == LookedUp(digests, old(State()), digests.bucket(operator, parameters), resolve)
      ensures Sound(digests, State()) && (old(NoOrphans(State())) ==> NoOrphans(State()))
    {
      var b := digests.bucket(operator, parameters);
      LookupKeeps(digests, State(), b, resolve);
      r := Probe(b, resolve);
    }

    method Probe(b: nat, resolve: string -> RootResolution) returns (r: Found)
      requires b in buckets ==> BucketOk(digests, b, buckets[b])
      modifies this
      ensures (State(), r) == LookedUp(digests, old(State()), b, resolve)
    {
      if b !in buckets {
        Tally(false);
        return None;
      }
      var es := buckets[b];
      var i, dead := Scan(es, resolve);
      r := if i < |es| then Some((digests.key(es[i].key), Payload(outputs, es[i]))) else None;
      DropScanned(b, dead, i);
      Tally(r.Some?);
    }

    method Tally(hit: bool)
      modifies this`hits, this`misses
      ensures State() == Tallied(old(State()), hit)
    {
      if hit {
        hits := hits + 1;
      } else {
        misses := misses + 1;
      }
    }

    method DropScanned(b: nat, dead: set<nat>, n: nat)
      requires b in buckets && BucketOk(digests, b, buckets[b]) && n <= |buckets[b]|
      requires dead == KeysOf(digests, buckets[b][..n])
      modifies this`buckets, this`outputs, this`invalidations
      ensures State() == WithoutDead(old(State()), b, n)
    {
      NoKeysNoEntries(digests, buckets[b][..n]);
      invalidations := invalidations + n;
      if dead != {} {
        DropEntries(b, dead, n);
      }
    }

    method FindRow(es: seq<CacheEntry>, key: CacheKey) returns (i: nat)
      ensures i == Find(digests, es, key)
    {
      i := 0;
      while i < |es| && digests.key(es[i].key) != digests.key(key)
        invariant i <= |es| && forall j :: 0 <= j < i ==> digests.key(es[j].key) != digests.key(key)
      {
        i := i + 1;
      }
    }

    method Store(e: CacheEntry) returns (hash: nat)
      modifies this`buckets, this`outputs, this`deduplicated
      ensures State() == Stored(digests, old(State()), e) && hash == digests.key(e.key)
    {
      hash := digests.key(e.key);
      var b := BucketOf(digests, e.key);
      var es := Entries(buckets, b);
      var i := FindRow(es, e.key);
      if i < |es| {
        buckets := buckets[b := es[i := e]];
        deduplicated := deduplicated + 1;
        outputs := PruneOutputs(outputs, OutputOf(es[i]), buckets);
      } else {
        buckets := buckets[b := es + [e]];
      }
    }

    method InsertPositive(key: CacheKey, answer: SymbolAnswer) returns (r: Result<nat, CacheError>)
      requires Sound(digests, State())
      modifies this
      ensures (State(), r) == WithPositive(digests, old(State()), key, answer)
      ensures Sound(digests, State())
    {
      InsertKeeps(digests, State(), key, answer);
      var root := digests.output(answer);
      outputs := outputs[root := answer];
      var e := CacheEntry(key, Hit(root));
      var valid := ValidateEntry(digests, e);
      if valid.Err? {
        return Err(valid.error);
      }
      var hash := Store(e);
      r := Ok(hash);
    }

    method InsertNegative(key: CacheKey) returns (r: Result<nat, CacheError>)
      requires Sound(digests, State())
      modifies this
      ensures (State(), r) == WithNegative(digests, old(State()), key)
      ensures Sound(digests, State())
    {
      InsertKeeps(digests, State(), key, SymbolAnswer("", {}));
      var e := CacheEntry(key, NoMatches);
      var valid := ValidateEntry(digests, e);
      if valid.Err? {
        return Err(valid.error);
      }
      var hash := Store(e);
      r := Ok(hash);
    }
  }
}
