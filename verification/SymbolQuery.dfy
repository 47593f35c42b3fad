/** The cached symbol query: which recorded answers may be reused on a later snapshot, and what a
    reused answer still says about it. */
module SymbolQuery {
  import opened WitnessCache
  import opened Wrappers

  // ----- roots as text ------------------------------------------------------------------------

  function LastAt(s: string): (i: int)
    ensures -1 <= i < |s|
    ensures i >= 0 ==> s[i] == '@'
    ensures forall j :: i < j < |s| ==> s[j] != '@'
  {
    if s == "" then -1
    else if s[|s| - 1] == '@' then |s| - 1
    else LastAt(s[..|s| - 1])
  }

  function SplitLast(s: string): Option<(string, string)> {
    var i := LastAt(s);
    if i < 0 then None else Some((s[..i], s[i + 1..]))
  }

  lemma SplitJoins(a: string, b: string)
    requires '@' !in b
    ensures SplitLast(a + "@" + b) == Some((a, b))
  {
    var s := a + "@" + b;
    assert s[|a|] == '@';
    forall j | |a| < j < |s| ensures s[j] != '@' {
      assert s[j] == b[j - |a| - 1];
    }
    assert LastAt(s) == |a|;
    assert s[..|a|] == a && s[|a| + 1..] == b;
  }

  const FILE: string := "file/"
  const SCOPE: string := "scope/"
  const TOOLCHAIN: string := "toolchain/"

  function FileRoot(path: string, hash: string): string {
    FILE + (path + "@" + hash)
  }

  function ScopeRoot(prefix: string, digest: string): string {
    SCOPE + (prefix + "@" + digest)
  }

  // ----- snapshots ----------------------------------------------------------------------------

  /** The newest content hash of each indexed path, and the toolchain root. */
  datatype Snapshot = Snapshot(files: map<string, string>, toolchain: string)

  /** The hash of a listing and what a file defines, given toolchain, symbol, path and content. */
  datatype Index = Index(
    digests: Digests, listing: map<string, string> -> string, defs: (string, string, string, string) -> set<string>)

  /** Hashes are written in hexadecimal, and the toolchain root is never blank. */
  ghost predicate IsSnapshot(w: Snapshot) {
    && TOOLCHAIN <= w.toolchain && |w.toolchain| > |TOOLCHAIN|
    && forall p :: p in w.files ==> '@' !in w.files[p]
  }

  ghost predicate IsIndex(ix: Index) {
    forall m: map<string, string> {:trigger ix.listing(m)} :: ix.listing(m) != "" && '@' !in ix.listing(m)
  }

  function Listing(w: Snapshot, prefix: string): map<string, string> {
    map p | p in w.files && prefix <= p :: w.files[p]
  }

  function Resolve(ix: Index, w: Snapshot, root: string): RootResolution {
    if FILE <= root then
      match SplitLast(root[|FILE|..])
      case None => Unresolvable
      case Some(r) => if r.0 in w.files && w.files[r.0] == r.1 then Unchanged else Changed
    else if SCOPE <= root then
      match SplitLast(root[|SCOPE|..])
      case None => Unresolvable
      case Some(r) => if ix.listing(Listing(w, r.0)) == r.1 then Unchanged else Changed
    else if TOOLCHAIN <= root then
      if root == w.toolchain then Unchanged else Changed
    else Unresolvable
  }

  function Resolver(ix: Index, w: Snapshot): string -> RootResolution {
    (root: string) => Resolve(ix, w, root)
  }

  lemma ResolveFile(ix: Index, w: Snapshot, path: string, hash: string)
    requires '@' !in hash
    ensures Resolve(ix, w, FileRoot(path, hash)) == if path in w.files &&
            w.files[path] == hash then Unchanged else Changed
  {
    SplitJoins(path, hash);
    assert FileRoot(path, hash)[|FILE|..] == path + "@" + hash;
  }

  lemma ResolveScope(ix: Index, w: Snapshot, prefix: string, digest: string)
    requires '@' !in digest
    ensures Resolve(ix, w, ScopeRoot(prefix, digest)) == if ix.listing(Listing(w, prefix)) ==
            digest then Unchanged else Changed
  {
    SplitJoins(prefix, digest);
    var root := ScopeRoot(prefix, digest);
    assert root[|SCOPE|..] == prefix + "@" + digest;
    assert root[0] == 's' && FILE[0] == 'f';
  }

  lemma ResolveToolchain(ix: Index, w: Snapshot, root: string)
    requires TOOLCHAIN <= root
    ensures Resolve(ix, w, root) == if root == w.toolchain then Unchanged else Changed
  {
    assert root[0] == TOOLCHAIN[0] == 't' && FILE[0] == 'f' && SCOPE[0] == 's';
  }

  // ----- answers and their entries ------------------------------------------------------------

  /** The definitions of a symbol in the files under a path prefix. */
  function Sites(ix: Index, w: Snapshot, symbol: string, scope: string): set<AnswerSite> {
    set p, v | p in w.files && scope <= p && v in ix.defs(w.toolchain, symbol, p, w.files[p]) :: AnswerSite(p, v)
  }

  function DependencyPaths(sites: set<AnswerSite>): set<string> {
    set s | s in sites :: s.path
  }

  function DependencyRoots(w: Snapshot, paths: set<string>): set<string> {
    set p | p in paths && p in w.files :: FileRoot(p, w.files[p])
  }

  const QUERY: string := "graphzero.symbol_query"

  function QueryOperator(w: Snapshot): Operator {
    Operator(QUERY, if |w.toolchain| > |TOOLCHAIN| then w.toolchain[|TOOLCHAIN|..] else "")
  }

  function KeyFor(ix: Index, w: Snapshot, parameters: Parameters, dependencies: set<string>,
                  scopes: set<string>): Result<CacheKey, CacheError> {
    var checked := WitnessOver(ix.digests, dependencies + scopes + {w.toolchain});
    if checked.Err? then Err(checked.error)
    else Build(ix.digests, QueryOperator(w), parameters, dependencies, {}, {w.toolchain}, checked.value, scopes, None,
      None)
  }

  /** A path or content hash that is blank cannot name a dependency. */
  predicate Nameable(w: Snapshot, paths: set<string>) {
    forall p :: p in paths && p in w.files ==> p != "" && w.files[p] != ""
  }

  /** Absence depends on the listing of the searched scope, presence on the files that define. */
  function EntryFor(ix: Index, w: Snapshot, parameters: Parameters): Result<CacheEntry, CacheError> {
    var sites := Sites(ix, w, parameters.symbol, parameters.scope);
    var paths := DependencyPaths(sites);
    if sites == {} then
      var root := ScopeRoot(parameters.scope, ix.listing(Listing(w, parameters.scope)));
      match KeyFor(ix, w, parameters, {}, {root})
      case Ok(key) => Ok(CacheEntry(key, NoMatches))
      case Err(error) => Err(error)
    else if !Nameable(w, paths) then Err(EmptyField)
    else
      match KeyFor(ix, w, parameters, DependencyRoots(w, paths), {})
      case Ok(key) => Ok(CacheEntry(key, Hit(ix.digests.output(SymbolAnswer(parameters.symbol, sites)))))
      case Err(error) => Err(error)
  }

  // ----- when an entry may be reused ----------------------------------------------------------

  ghost predicate SameToolchain(w: Snapshot, now: Snapshot) {
    w.toolchain == now.toolchain
  }

  ghost predicate SameFiles(w: Snapshot, now: Snapshot, paths: set<string>) {
    forall p :: p in paths && p in w.files ==> p in now.files && now.files[p] == w.files[p]
  }

  /** The two listings under a prefix do not share a digest by accident. */
  ghost predicate ListingsApart(ix: Index, w: Snapshot, now: Snapshot, prefix: string) {
    ix.listing(Listing(w, prefix)) == ix.listing(Listing(now, prefix)) ==> Listing(w, prefix) == Listing(now, prefix)
  }

  /** A certified absence is reused exactly while nothing in the searched scope changed. */
  lemma NegativeReusableIff(ix: Index, w: Snapshot, now: Snapshot, parameters: Parameters, e: CacheEntry)
    requires IsSnapshot(w) && IsIndex(ix) && ListingsApart(ix, w, now, parameters.scope)
    requires EntryFor(ix, w, parameters) == Ok(e) && e.value.NoMatches?
    ensures StatusOf(ix.digests, e, Resolver(ix, now)).Reusable? <==>
            SameToolchain(w, now) && Listing(w, parameters.scope) == Listing(now, parameters.scope)
  {
    var root := ScopeRoot(parameters.scope, ix.listing(Listing(w, parameters.scope)));
    assert AllRoots(e.key) == {root, w.toolchain};
    BuiltKeyVerifies(ix.digests, e, Resolver(ix, now));
    ResolveScope(ix, now, parameters.scope, ix.listing(Listing(w, parameters.scope)));
    ResolveToolchain(ix, now, w.toolchain);
  }

  /** A recorded presence is reused exactly while the files that supplied it are unchanged. */
  lemma PositiveReusableIff(ix: Index, w: Snapshot, now: Snapshot, parameters: Parameters, e: CacheEntry)
    requires IsSnapshot(w)
    requires EntryFor(ix, w, parameters) == Ok(e) && e.value.Hit?
    ensures StatusOf(ix.digests, e, Resolver(ix, now)).Reusable? <==>
            && SameToolchain(w, now)
            && SameFiles(w, now, DependencyPaths(Sites(ix, w, parameters.symbol, parameters.scope)))
  {
    var paths := DependencyPaths(Sites(ix, w, parameters.symbol, parameters.scope));
    PositiveRoots(ix, w, parameters, e, paths);
    BuiltKeyVerifies(ix.digests, e, Resolver(ix, now));
    FilesUnchanged(ix, w, now, paths, AllRoots(e.key));
  }

  lemma FilesUnchanged(ix: Index, w: Snapshot, now: Snapshot, paths: set<string>, roots: set<string>)
    requires IsSnapshot(w) && roots == DependencyRoots(w, paths) + {w.toolchain}
    ensures (forall r :: r in roots ==> Resolve(ix, now, r).Unchanged?) <==>
              SameToolchain(w, now) && SameFiles(w, now, paths)
    ensures forall r :: r in roots ==> !Resolve(ix, now, r).Unresolvable?
  {
    ResolveToolchain(ix, now, w.toolchain);
    forall p | p in paths && p in w.files
      ensures FileRoot(p, w.files[p]) in roots
      ensures Resolve(ix, now, FileRoot(p, w.files[p])).Unchanged? <==> p in now.files && now.files[p] == w.files[p]
      ensures !Resolve(ix, now, FileRoot(p, w.files[p])).Unresolvable?
    {
      ResolveFile(ix, now, p, w.files[p]);
    }
  }

  lemma PositiveRoots(ix: Index, w: Snapshot, parameters: Parameters, e: CacheEntry, paths: set<string>)
    requires EntryFor(ix, w, parameters) == Ok(e) && e.value.Hit?
    requires paths == DependencyPaths(Sites(ix, w, parameters.symbol, parameters.scope))
    ensures AllRoots(e.key) == DependencyRoots(w, paths) + {w.toolchain}
    ensures ValidateWitness(ix.digests, e.key.proof).Ok? && AllRoots(e.key) <= e.key.proof.checked
  {
  }

  // ----- what a reused answer still says ------------------------------------------------------

  /** Every file in scope that defines the symbol now already supplied the answer. */
  ghost predicate NoNewDefiner(ix: Index, now: Snapshot, parameters: Parameters, sites: set<AnswerSite>) {
    forall p :: p in now.files && Defines(ix, now, parameters, p) ==> p in DependencyPaths(sites)
  }

  predicate Defines(ix: Index, w: Snapshot, parameters: Parameters, p: string)
    requires p in w.files
  {
    parameters.scope <= p && ix.defs(w.toolchain, parameters.symbol, p, w.files[p]) != {}
  }

  lemma AbsenceIsExact(ix: Index, w: Snapshot, now: Snapshot, symbol: string, scope: string)
    requires SameToolchain(w, now) && Listing(w, scope) == Listing(now, scope)
    ensures Sites(ix, now, symbol, scope) == Sites(ix, w, symbol, scope)
  {
    forall p ensures p in w.files && scope <= p <==> p in now.files && scope <= p {
      assert p in Listing(w, scope) <==> p in Listing(now, scope);
    }
    forall p | p in w.files && scope <= p ensures w.files[p] == now.files[p] {
      assert Listing(w, scope)[p] == Listing(now, scope)[p];
    }
  }

  lemma PresenceIsContained(ix: Index, w: Snapshot, now: Snapshot, parameters: Parameters)
    requires SameToolchain(w, now)
    requires SameFiles(w, now, DependencyPaths(Sites(ix, w, parameters.symbol, parameters.scope)))
    ensures Sites(ix, w, parameters.symbol, parameters.scope) <= Sites(ix, now, parameters.symbol, parameters.scope)
    ensures Sites(ix, w, parameters.symbol, parameters.scope) ==
            Sites(ix, now, parameters.symbol, parameters.scope) <==>
            NoNewDefiner(ix, now, parameters, Sites(ix, w, parameters.symbol, parameters.scope))
  {
    var symbol, scope := parameters.symbol, parameters.scope;
    var was, current := Sites(ix, w, symbol, scope), Sites(ix, now, symbol, scope);
    forall s | s in was ensures s in current {
      assert s.path in DependencyPaths(was);
    }
    if NoNewDefiner(ix, now, parameters, was) {
      forall s | s in current ensures s in was {
        assert s.path in DependencyPaths(was);
        var t :| t in was && t.path == s.path;
        assert w.files[s.path] == now.files[s.path];
      }
    }
    if was == current {
      forall p | p in now.files && Defines(ix, now, parameters, p) ensures p in DependencyPaths(was) {
        var v :| v in ix.defs(now.toolchain, symbol, p, now.files[p]);
        assert AnswerSite(p, v) in current;
      }
    }
  }

  /** A file added in scope that defines the symbol makes a reused answer incomplete: the entry stays
      reusable, and its sites are no longer all there are. */
  lemma AddedDefinerIsMissed(ix: Index, w: Snapshot, parameters: Parameters, e: CacheEntry, path: string, hash: string)
    requires IsSnapshot(w) && EntryFor(ix, w, parameters) == Ok(e) && e.value.Hit?
    requires path !in w.files && Defines(ix, w.(files := w.files[path := hash]), parameters, path)
    ensures var now := w.(files := w.files[path := hash]);
            && StatusOf(ix.digests, e, Resolver(ix, now)).Reusable?
            && Sites(ix, w, parameters.symbol, parameters.scope) < Sites(ix, now, parameters.symbol, parameters.scope)
  {
    var now := w.(files := w.files[path := hash]);
    PositiveReusableIff(ix, w, now, parameters, e);
    PresenceIsContained(ix, w, now, parameters);
    forall s | s in Sites(ix, w, parameters.symbol, parameters.scope) ensures s.path != path {
    }
    assert path !in DependencyPaths(Sites(ix, w, parameters.symbol, parameters.scope));
  }

  // ----- the cached query ---------------------------------------------------------------------

  datatype Source = CacheHit | Computed

  datatype CachedAnswer = CachedAnswer(answer: Option<SymbolAnswer>, source: Source, keyHash: nat)

  function Recomputed(ix: Index, w: Snapshot, parameters: Parameters): Option<SymbolAnswer> {
    var sites := Sites(ix, w, parameters.symbol, parameters.scope);
    if sites == {} then None else Some(SymbolAnswer(parameters.symbol, sites))
  }

  ghost function AfterQuery(ix: Index, c: Cache, w: Snapshot, parameters: Parameters): (Cache, Result<CachedAnswer,
                                                                                        CacheError>) {
    var d := ix.digests;
    var looked := LookedUp(d, c, d.bucket(QueryOperator(w), parameters), Resolver(ix, w));
    if looked.1.Some? then (looked.0, Ok(CachedAnswer(looked.1.value.1, CacheHit, looked.1.value.0)))
    else
      match EntryFor(ix, w, parameters)
      case Err(error) => (looked.0, Err(error))
      case Ok(e) =>
        match Recomputed(ix, w, parameters)
        case None =>
          var stored := WithNegative(d, looked.0, e.key);
          (stored.0, if stored.1.Err? then Err(stored.1.error) else Ok(CachedAnswer(None, Computed, stored.1.value)))
        case Some(answer) =>
          var stored := WithPositive(d, looked.0, e.key, answer);
          (stored.0, if stored.1.Err? then Err(stored.1.error)
            else Ok(CachedAnswer(Some(answer), Computed, stored.1.value)))
  }

  type Query = (Snapshot, Parameters)

  /** Entries and payloads come from earlier queries. */
  ghost predicate Genuine(ix: Index, asked: seq<Query>, e: CacheEntry) {
    exists q :: q in asked && EntryFor(ix, q.0, q.1) == Ok(e)
  }

  ghost predicate Answered(ix: Index, asked: seq<Query>, answer: SymbolAnswer) {
    exists q :: q in asked && Recomputed(ix, q.0, q.1) == Some(answer)
  }

  ghost predicate AllGenuine(ix: Index, asked: seq<Query>, c: Cache) {
    && (forall e {:trigger Holds(c.buckets, e)} :: Holds(c.buckets, e) ==> Genuine(ix, asked, e))
    && (forall k :: k in c.outputs ==> Answered(ix, asked, c.outputs[k]))
  }

  /** Among the queries asked, no two digests agree by accident: of listings under a scope, of answers,
      of operator and parameters. */
  ghost predicate CollisionFree(ix: Index, asked: seq<Query>) {
    forall q, r :: q in asked && r in asked ==>
      && ListingsApart(ix, q.0, r.0, q.1.scope)
      && AnswersApart(ix, Recomputed(ix, q.0, q.1), Recomputed(ix, r.0, r.1))
      && (ix.digests.bucket(QueryOperator(q.0), q.1) == ix.digests.bucket(QueryOperator(r.0), r.1) ==> q.1 == r.1)
  }

  ghost predicate AnswersApart(ix: Index, a: Option<SymbolAnswer>, b: Option<SymbolAnswer>) {
    a.Some? && b.Some? && ix.digests.output(a.value) == ix.digests.output(b.value) ==> a == b
  }

  /** What a caller may believe of an answer about the current snapshot. A computed one is exact. A
      reused absence is exact; a reused presence lists only sites that are still there, and all of
      them if and only if no other file in scope defines the symbol now. */
  ghost predicate Honest(ix: Index, now: Snapshot, parameters: Parameters, a: CachedAnswer) {
    && (a.source.Computed? || a.answer.None? ==> a.answer == Recomputed(ix, now, parameters))
    && (a.answer.Some? ==>
          && a.answer.value.symbol == parameters.symbol
          && {} != a.answer.value.sites <= Sites(ix, now, parameters.symbol, parameters.scope)
          && (a.answer == Recomputed(ix, now, parameters) <==> NoNewDefiner(ix, now, parameters, a.answer.value.sites)))
  }

  lemma EntryParameters(ix: Index, w: Snapshot, parameters: Parameters, e: CacheEntry)
    requires EntryFor(ix, w, parameters) == Ok(e)
    ensures e.key.parameters == parameters && e.key.operator == QueryOperator(w)
    ensures var a := Recomputed(ix, w, parameters);
      e.value == if a.None? then NoMatches else Hit(ix.digests.output(a.value))
    ensures ValidateEntry(ix.digests, e).Ok?
  {
  }

  lemma ReuseIsHonest(ix: Index, asked: seq<Query>, c: Cache, now: Snapshot, parameters: Parameters, e: CacheEntry,
                      keyHash: nat)
    requires IsIndex(ix) && CollisionFree(ix, asked) && (forall q :: q in asked ==> IsSnapshot(q.0))
    requires Sound(ix.digests, c) && AllGenuine(ix, asked, c) && (now, parameters) in asked
    requires Genuine(ix, asked, e) && BucketOf(ix.digests, e.key) == ix.digests.bucket(QueryOperator(now), parameters)
    requires Usable(ix.digests, c, e, Resolver(ix, now))
    ensures Honest(ix, now, parameters, CachedAnswer(Payload(c.outputs, e), CacheHit, keyHash))
  {
    var q: Query :| q in asked && EntryFor(ix, q.0, q.1) == Ok(e);
    EntryParameters(ix, q.0, q.1, e);
    var r: Query := (now, parameters);
    assert r in asked && q.1 == parameters && ListingsApart(ix, q.0, now, parameters.scope);
    if e.value.NoMatches? {
      AbsenceIsHonest(ix, q.0, now, parameters, e, keyHash);
    } else {
      PayloadIsAnswer(ix, asked, c, e, q);
      PresenceIsHonest(ix, q.0, now, parameters, e, keyHash);
    }
  }

  lemma AbsenceIsHonest(ix: Index, w: Snapshot, now: Snapshot, parameters: Parameters, e: CacheEntry, keyHash: nat)
    requires IsSnapshot(w) && IsIndex(ix) && ListingsApart(ix, w, now, parameters.scope)
    requires EntryFor(ix, w, parameters) == Ok(e) && e.value.NoMatches?
    requires StatusOf(ix.digests, e, Resolver(ix, now)).Reusable?
    ensures Honest(ix, now, parameters, CachedAnswer(None, CacheHit, keyHash))
  {
    EntryParameters(ix, w, parameters, e);
    NegativeReusableIff(ix, w, now, parameters, e);
    AbsenceIsExact(ix, w, now, parameters.symbol, parameters.scope);
  }

  lemma PresenceIsHonest(ix: Index, w: Snapshot, now: Snapshot, parameters: Parameters, e: CacheEntry, keyHash: nat)
    requires IsSnapshot(w) && EntryFor(ix, w, parameters) == Ok(e) && e.value.Hit?
    requires StatusOf(ix.digests, e, Resolver(ix, now)).Reusable?
    ensures Honest(ix, now, parameters, CachedAnswer(Recomputed(ix, w, parameters), CacheHit, keyHash))
  {
    EntryParameters(ix, w, parameters, e);
    PositiveReusableIff(ix, w, now, parameters, e);
    PresenceIsContained(ix, w, now, parameters);
  }

  /** The payload under an entry's output is the answer the entry was made for. */
  lemma PayloadIsAnswer(ix: Index, asked: seq<Query>, c: Cache, e: CacheEntry, q: Query)
    requires CollisionFree(ix, asked) && Sound(ix.digests, c) && AllGenuine(ix, asked, c)
    requires q in asked && EntryFor(ix, q.0, q.1) == Ok(e) && e.value.Hit? && e.value.output in c.outputs
    ensures Recomputed(ix, q.0, q.1) == Some(c.outputs[e.value.output])
  {
    EntryParameters(ix, q.0, q.1, e);
    assert Answered(ix, asked, c.outputs[e.value.output]);
    var r: Query :| r in asked && Recomputed(ix, r.0, r.1) == Some(c.outputs[e.value.output]);
    assert AnswersApart(ix, Recomputed(ix, q.0, q.1), Recomputed(ix, r.0, r.1));
  }

  lemma ComputedIsHonest(ix: Index, now: Snapshot, parameters: Parameters, keyHash: nat)
    ensures Honest(ix, now, parameters, CachedAnswer(Recomputed(ix, now, parameters), Computed, keyHash))
  {
    var sites := Sites(ix, now, parameters.symbol, parameters.scope);
    if sites != {} {
      forall p | p in now.files && Defines(ix, now, parameters, p) ensures p in DependencyPaths(sites) {
        var v :| v in ix.defs(now.toolchain, parameters.symbol, p, now.files[p]);
        assert AnswerSite(p, v) in sites;
      }
    }
  }

  lemma AnswerIsHonest(ix: Index, asked: seq<Query>, c: Cache, now: Snapshot, parameters: Parameters)
    requires IsIndex(ix) && CollisionFree(ix, asked) && (forall q :: q in asked ==> IsSnapshot(q.0))
    requires Sound(ix.digests, c) && AllGenuine(ix, asked, c) && (now, parameters) in asked
    ensures var r := AfterQuery(ix, c, now, parameters).1; r.Ok? ==> Honest(ix, now, parameters, r.value)
  {
    var d := ix.digests;
    var b := d.bucket(QueryOperator(now), parameters);
    var es := Entries(c.buckets, b);
    var i := FirstUsable(d, c, es, Resolver(ix, now));
    if i < |es| {
      var e := es[i];
      assert e in c.buckets[b];
      assert Holds(c.buckets, e);
      assert BucketOf(d, e.key) == b;
      ReuseIsHonest(ix, asked, c, now, parameters, e, d.key(e.key));
    } else if EntryFor(ix, now, parameters).Ok? {
      var e := EntryFor(ix, now, parameters).value;
      EntryParameters(ix, now, parameters, e);
      ComputedIsHonest(ix, now, parameters, d.key(e.key));
    }
  }

  lemma MoreAsked(ix: Index, asked: seq<Query>, q: Query, c: Cache)
    requires AllGenuine(ix, asked, c)
    ensures AllGenuine(ix, asked + [q], c)
  {
    forall e | Holds(c.buckets, e) ensures Genuine(ix, asked + [q], e) {
      assert Genuine(ix, asked, e);
      var r: Query :| r in asked && EntryFor(ix, r.0, r.1) == Ok(e);
      assert r in asked + [q];
    }
    forall k | k in c.outputs ensures Answered(ix, asked + [q], c.outputs[k]) {
      var r: Query :| r in asked && Recomputed(ix, r.0, r.1) == Some(c.outputs[k]);
      assert r in asked + [q];
    }
  }

  lemma LookupKeepsGenuine(ix: Index, asked: seq<Query>, c: Cache, b: nat, resolve: string -> RootResolution)
    requires AllGenuine(ix, asked, c)
    ensures AllGenuine(ix, asked, LookedUp(ix.digests, c, b, resolve).0)
  {
    var after := LookedUp(ix.digests, c, b, resolve).0;
    var i := FirstUsable(ix.digests, c, Entries(c.buckets, b), resolve);
    forall e | Holds(after.buckets, e) ensures Genuine(ix, asked, e) {
      if i > 0 {
        DropHolds(c, b, i, e);
      }
    }
    assert forall k :: k in after.outputs ==> k in c.outputs && after.outputs[k] == c.outputs[k];
  }

  lemma StoreKeepsGenuine(ix: Index, asked: seq<Query>, c: Cache, e: CacheEntry)
    requires Sound(ix.digests, c) && AllGenuine(ix, asked, c) && Genuine(ix, asked, e)
    ensures AllGenuine(ix, asked, Stored(ix.digests, c, e))
  {
    var after := Stored(ix.digests, c, e);
    forall x | Holds(after.buckets, x) ensures Genuine(ix, asked, x) {
      StoreHolds(ix.digests, c, e, x);
    }
    assert forall k :: k in after.outputs ==> k in c.outputs && after.outputs[k] == c.outputs[k];
  }

  lemma OutputKeepsGenuine(ix: Index, asked: seq<Query>, c: Cache, answer: SymbolAnswer)
    requires AllGenuine(ix, asked, c) && Answered(ix, asked, answer)
    ensures AllGenuine(ix, asked, c.(outputs := c.outputs[ix.digests.output(answer) := answer]))
  {
  }

  lemma QueryKeeps(ix: Index, asked: seq<Query>, c: Cache, now: Snapshot, parameters: Parameters)
    requires Sound(ix.digests, c) && AllGenuine(ix, asked, c) && NoOrphans(c) && (now, parameters) in asked
    ensures var after := AfterQuery(ix, c, now, parameters).0;
            Sound(ix.digests, after) && AllGenuine(ix, asked, after) && NoOrphans(after)
  {
    var d := ix.digests;
    var b := d.bucket(QueryOperator(now), parameters);
    var c1 := LookedUp(d, c, b, Resolver(ix, now)).0;
    LookupKeeps(d, c, b, Resolver(ix, now));
    LookupKeepsGenuine(ix, asked, c, b, Resolver(ix, now));
    if EntryFor(ix, now, parameters).Ok? {
      var e := EntryFor(ix, now, parameters).value;
      InsertKeepsAll(ix, asked, c1, now, parameters, e);
    }
  }

  lemma InsertKeepsAll(ix: Index, asked: seq<Query>, c: Cache, now: Snapshot, parameters: Parameters, e: CacheEntry)
    requires Sound(ix.digests, c) && AllGenuine(ix, asked, c) && NoOrphans(c) && (now, parameters) in asked
    requires EntryFor(ix, now, parameters) == Ok(e)
    ensures var after := match Recomputed(ix, now, parameters)
                         case None => WithNegative(ix.digests, c, e.key).0
                         case Some(answer) => WithPositive(ix.digests, c, e.key, answer).0;
            Sound(ix.digests, after) && AllGenuine(ix, asked, after) && NoOrphans(after)
  {
    var d := ix.digests;
    EntryParameters(ix, now, parameters, e);
    var q: Query := (now, parameters);
    assert q in asked && EntryFor(ix, q.0, q.1) == Ok(e);
    match Recomputed(ix, now, parameters)
    case None =>
      InsertKeeps(d, c, e.key, SymbolAnswer("", {}));
      StoreKeepsGenuine(ix, asked, c, e);
    case Some(answer) =>
      assert Answered(ix, asked, answer);
      InsertKeeps(d, c, e.key, answer);
      OutputAdded(d, c, answer);
      OutputKeepsGenuine(ix, asked, c, answer);
      StoreKeepsGenuine(ix, asked, c.(outputs := c.outputs[d.output(answer) := answer]), e);
  }

  ghost function AfterQueries(ix: Index, queries: seq<Query>): Cache {
    if queries == [] then EMPTY
    else
      var last := queries[|queries| - 1];
      AfterQuery(ix, AfterQueries(ix, queries[..|queries| - 1]), last.0, last.1).0
  }

  ghost predicate WellKept(ix: Index, asked: seq<Query>, c: Cache) {
    Sound(ix.digests, c) && AllGenuine(ix, asked, c) && NoOrphans(c)
  }

  lemma NextKeeps(ix: Index, asked: seq<Query>, c: Cache, q: Query)
    requires WellKept(ix, asked, c)
    ensures WellKept(ix, asked + [q], AfterQuery(ix, c, q.0, q.1).0)
  {
    MoreAsked(ix, asked, q, c);
    assert q in asked + [q];
    QueryKeeps(ix, asked + [q], c, q.0, q.1);
  }

  lemma {:induction false} QueriesKeep(ix: Index, queries: seq<Query>)
    ensures WellKept(ix, queries, AfterQueries(ix, queries))
  {
    if queries != [] {
      var before, last := queries[..|queries| - 1], queries[|queries| - 1];
      QueriesKeep(ix, before);
      assert queries == before + [last];
      NextKeeps(ix, before, AfterQueries(ix, before), last);
    }
  }

  /** After any queries over any succession of snapshots, the next answer is honest about the
      snapshot it is asked on. */
  lemma EveryAnswerIsHonest(ix: Index, queries: seq<Query>, now: Snapshot, parameters: Parameters)
    requires IsIndex(ix) && CollisionFree(ix, queries + [(now, parameters)])
    requires IsSnapshot(now) && forall q :: q in queries ==> IsSnapshot(q.0)
    ensures var r := AfterQuery(ix, AfterQueries(ix, queries), now, parameters).1;
            r.Ok? ==> Honest(ix, now, parameters, r.value)
  {
    QueriesKeep(ix, queries);
    MoreAsked(ix, queries, (now, parameters), AfterQueries(ix, queries));
    AnswerIsHonest(ix, queries + [(now, parameters)], AfterQueries(ix, queries), now, parameters);
  }

  method CachedSymbolQuery(ix: Index, ghost asked: seq<Query>, cache: EntryCache, now: Snapshot, parameters: Parameters)
    returns (r: Result<CachedAnswer, CacheError>)
    requires cache.digests == ix.digests && IsIndex(ix) && CollisionFree(ix, asked + [(now, parameters)])
    requires IsSnapshot(now) && forall q :: q in asked ==> IsSnapshot(q.0)
    requires Sound(ix.digests, cache.State()) && AllGenuine(ix, asked, cache.State()) && NoOrphans(cache.State())
    modifies cache
    ensures Sound(ix.digests, cache.State()) && AllGenuine(ix, asked + [(now, parameters)], cache.State())
    ensures NoOrphans(cache.State())
    ensures (cache.State(), r) == AfterQuery(ix, old(cache.State()), now, parameters)
    ensures r.Ok? ==> Honest(ix, now, parameters, r.value)
  {
    MoreAsked(ix, asked, (now, parameters), cache.State());
    QueryKeeps(ix, asked + [(now, parameters)], cache.State(), now, parameters);
    AnswerIsHonest(ix, asked + [(now, parameters)], cache.State(), now, parameters);
    var found := cache.Lookup(QueryOperator(now), parameters, Resolver(ix, now));
    if found.Some? {
      return Ok(CachedAnswer(found.value.1, CacheHit, found.value.0));
    }
    var entry := EntryFor(ix, now, parameters);
    if entry.Err? {
      return Err(entry.error);
    }
    var answer := Recomputed(ix, now, parameters);
    var stored;
    if answer.None? {
      stored := cache.InsertNegative(entry.value.key);
    } else {
      stored := cache.InsertPositive(entry.value.key, answer.value);
    }
    r := if stored.Err? then Err(stored.error) else Ok(CachedAnswer(answer, Computed, stored.value));
  }
}
