/** Reverse impact of changed symbols over the edges a compiler extracted, under a traversal budget. */
module CompilerImpact {
  import opened Digraph
  import opened Wrappers

  datatype ClosureClass = Exact | SoundOverapproximation | Heuristic | Incomplete

  datatype SemanticEdge = SemanticEdge(
    from: string, to: string, language: string, compilerRoot: string, configurationRoot: string,
    freshnessRoot: string, sourcePath: string, sourceLine: nat, sourceColumn: nat)

  datatype ExtractionReport = ExtractionReport(
    language: string, compilerRoot: string, configurationRoot: string, freshnessRoot: string,
    resolvedEdges: nat, unresolvedSites: seq<string>, fatalDiagnostics: seq<string>)

  datatype Impact = Impact(changed: set<string>, impacted: set<string>, closure: ClosureClass)

  datatype ImpactError =
    | MissingIdentity
    | EdgeCountMismatch
    | EmptyChanged
    | InvalidEdge(at: nat)
    | ForeignEdge(at: nat)
    | StaleEdge(at: nat)

  predicate IsValid(e: SemanticEdge) {
    && e.from != "" && e.to != "" && e.language != "" && e.compilerRoot != "" && e.configurationRoot != ""
    && e.freshnessRoot != "" && e.sourcePath != "" && e.sourceLine != 0 && e.sourceColumn != 0
  }

  predicate Belongs(e: SemanticEdge, report: ExtractionReport) {
    e.compilerRoot == report.compilerRoot && e.configurationRoot == report.configurationRoot &&
      e.language == report.language
  }

  predicate HasIdentity(report: ExtractionReport) {
    report.compilerRoot != "" && report.configurationRoot != "" && report.freshnessRoot != ""
  }

  predicate Accepted(e: SemanticEdge, report: ExtractionReport) {
    IsValid(e) && Belongs(e, report) && e.freshnessRoot == report.freshnessRoot
  }

  function ClosureOf(report: ExtractionReport): ClosureClass {
    if report.fatalDiagnostics != [] then Incomplete
    else if report.unresolvedSites == [] then Exact
    else SoundOverapproximation
  }

  // ----- the graph and its edge counts --------------------------------------------------------

  ghost function ReverseEdges(edges: seq<SemanticEdge>): set<(string, string)> {
    set e | e in edges :: (e.to, e.from)
  }

  /** The dependents of a symbol, one per edge, in edge order. */
  function Froms(edges: seq<SemanticEdge>, t: string): seq<string> {
    if edges == [] then []
    else
      var last := edges[|edges| - 1];
      Froms(edges[..|edges| - 1], t) + if last.to == t then [last.from] else []
  }

  /** How many edges lead into the set. */
  ghost function EdgesInto(edges: seq<SemanticEdge>, s: set<string>): nat {
    if edges == [] then 0
    else EdgesInto(edges[..|edges| - 1], s) + if edges[|edges| - 1].to in s then 1 else 0
  }

  lemma {:induction false} EdgesIntoGrows(edges: seq<SemanticEdge>, s: set<string>, t: set<string>)
    requires s <= t
    ensures EdgesInto(edges, s) <= EdgesInto(edges, t) <= |edges|
  {
    if edges != [] {
      EdgesIntoGrows(edges[..|edges| - 1], s, t);
    }
  }

  lemma {:induction false} EdgesIntoPush(edges: seq<SemanticEdge>, s: set<string>, t: string)
    requires t !in s
    ensures EdgesInto(edges, s + {t}) == EdgesInto(edges, s) + |Froms(edges, t)|
  {
    if edges != [] {
      EdgesIntoPush(edges[..|edges| - 1], s, t);
    }
  }

  lemma {:induction false} NoEdgesIntoEmpty(edges: seq<SemanticEdge>)
    ensures EdgesInto(edges, {}) == 0
  {
    if edges != [] {
      NoEdgesIntoEmpty(edges[..|edges| - 1]);
    }
  }

  lemma {:induction false} FromsAreReverse(edges: seq<SemanticEdge>, t: string, f: string)
    ensures f in Froms(edges, t) <==> (t, f) in ReverseEdges(edges)
  {
    if edges != [] {
      var rest, last := edges[..|edges| - 1], edges[|edges| - 1];
      FromsAreReverse(rest, t, f);
      assert edges == rest + [last];
      assert forall e :: e in edges <==> e in rest || e == last;
      if (t, f) in ReverseEdges(edges) {
        var e :| e in edges && (e.to, e.from) == (t, f);
        assert e in rest || e == last;
      }
      if f in Froms(edges, t) && f !in Froms(rest, t) {
        assert last.to == t && last.from == f;
        assert last in edges;
      }
    }
  }

  /** The dependents table lists every symbol's incoming edges. */
  ghost predicate IsTable(edges: seq<SemanticEdge>, table: map<string, seq<string>>) {
    forall t: string :: (if t in table then table[t] else []) == Froms(edges, t)
  }

  lemma TableStep(edges: seq<SemanticEdge>, i: nat, table: map<string, seq<string>>)
    requires i < |edges| && IsTable(edges[..i], table)
    ensures var e := edges[i];
      IsTable(edges[..i + 1], table[e.to := (if e.to in table then table[e.to] else []) + [e.from]])
  {
    assert edges[..i + 1][..i] == edges[..i];
  }

  method AddDependent(edges: seq<SemanticEdge>, i: nat, table0: map<string, seq<string>>)
    returns (table: map<string, seq<string>>)
    requires i < |edges| && IsTable(edges[..i], table0)
    ensures IsTable(edges[..i + 1], table)
  {
    var e := edges[i];
    TableStep(edges, i, table0);
    table := table0[e.to := (if e.to in table0 then table0[e.to] else []) + [e.from]];
  }

  method CheckEdge(edges: seq<SemanticEdge>, report: ExtractionReport, i: nat) returns (r: Result<(), ImpactError>)
    requires i < |edges| && forall j :: 0 <= j < i ==> Accepted(edges[j], report)
    ensures r.Ok? ==> Accepted(edges[i], report)
    ensures r.Err? ==> IsEdgeError(edges, report, r.error)
  {
    var e := edges[i];
    if !IsValid(e) {
      return Err(InvalidEdge(i));
    }
    if !Belongs(e, report) {
      return Err(ForeignEdge(i));
    }
    if e.freshnessRoot != report.freshnessRoot {
      return Err(StaleEdge(i));
    }
    r := Ok(());
  }

  /** The first edge that fails decides the error; otherwise all are in the table. */
  method BuildTable(edges: seq<SemanticEdge>, report: ExtractionReport) returns (r: Result<map<string, seq<string>>,
                                                                                 ImpactError>)
    ensures r.Ok? ==> IsTable(edges, r.value) && forall j :: 0 <= j < |edges| ==> Accepted(edges[j], report)
    ensures r.Err? ==> IsEdgeError(edges, report, r.error)
  {
    var table: map<string, seq<string>> := map[];
    for i := 0 to |edges|
      invariant forall j :: 0 <= j < i ==> Accepted(edges[j], report)
      invariant IsTable(edges[..i], table)
    {
      var failure := CheckEdge(edges, report, i);
      if failure.Err? {
        return Err(failure.error);
      }
      table := AddDependent(edges, i, table);
    }
    assert edges[..|edges|] == edges;
    r := Ok(table);
  }

  /** The error names the first edge that is not accepted and its first failing test. */
  ghost predicate IsEdgeError(edges: seq<SemanticEdge>, report: ExtractionReport, error: ImpactError) {
    && (error.InvalidEdge? || error.ForeignEdge? || error.StaleEdge?)
    && error.at < |edges|
    && (forall j :: 0 <= j < error.at ==> Accepted(edges[j], report))
    && !Accepted(edges[error.at], report)
    && (error.InvalidEdge? <==> !IsValid(edges[error.at]))
    && (error.ForeignEdge? ==> !Belongs(edges[error.at], report))
    && (error.StaleEdge? ==> Belongs(edges[error.at], report))
  }

  // ----- the traversal ------------------------------------------------------------------------

  /** The state between two symbols: what is impacted is reached, its dependents are impacted or
      waiting, and the work done is the edges into it. */
  ghost predicate Traversing(edges: seq<SemanticEdge>, changed: set<string>, reach: set<string>,
                             impacted: set<string>, queue: seq<string>, traversed: nat) {
    && impacted <= reach && (forall x :: x in queue ==> x in reach)
    && (forall x :: x in changed ==> x in impacted || x in queue)
    && (forall x, y :: x in impacted && (x, y) in ReverseEdges(edges) ==> y in impacted || y in queue)
    && traversed == EdgesInto(edges, impacted)
  }

  /** Queue the dependents of one symbol while the budget lasts. */
  method QueueDependents(next: seq<string>, bound: nat, queue0: seq<string>, traversed0: nat)
    returns (queue: seq<string>, traversed: nat, exceeded: bool)
    requires traversed0 <= bound
    ensures exceeded <==> traversed0 + |next| > bound
    ensures !exceeded ==> queue == queue0 + next && traversed == traversed0 + |next|
  {
    queue, traversed, exceeded := queue0, traversed0, false;
    for i := 0 to |next|
      invariant traversed == traversed0 + i <= bound && queue == queue0 + next[..i] && !exceeded
    {
      if traversed >= bound {
        exceeded := true;
        return;
      }
      traversed := traversed + 1;
      queue := queue + [next[i]];
      assert next[..i + 1] == next[..i] + [next[i]];
    }
    assert next[..|next|] == next;
  }

  lemma SkipSymbol(edges: seq<SemanticEdge>, changed: set<string>, reach: set<string>,
                   impacted: set<string>, queue: seq<string>, traversed: nat)
    requires Traversing(edges, changed, reach, impacted, queue, traversed)
    requires queue != [] && queue[0] in impacted
    ensures Traversing(edges, changed, reach, impacted, queue[1..], traversed)
  {
    assert forall x :: x in queue <==> x == queue[0] || x in queue[1..];
  }

  lemma TakeSymbol(edges: seq<SemanticEdge>, changed: set<string>, reach: set<string>,
                   impacted: set<string>, queue: seq<string>, traversed: nat, next: seq<string>)
    requires Traversing(edges, changed, reach, impacted, queue, traversed)
    requires queue != [] && queue[0] !in impacted && next == Froms(edges, queue[0])
    requires ClosedUnder(ReverseEdges(edges), reach)
    ensures Traversing(edges, changed, reach, impacted + {queue[0]}, queue[1..] + next, traversed + |next|)
  {
    var s := queue[0];
    EdgesIntoPush(edges, impacted, s);
    forall y ensures y in next <==> (s, y) in ReverseEdges(edges) {
      FromsAreReverse(edges, s, y);
    }
    assert forall x :: x in queue <==> x == s || x in queue[1..];
    assert forall x :: x in queue[1..] + next <==> x in queue[1..] || x in next;
  }

  lemma TraversalEnds(edges: seq<SemanticEdge>, changed: set<string>, reach: set<string>, impacted: set<string>,
                      traversed: nat)
    requires Traversing(edges, changed, reach, impacted, [], traversed)
    requires IsReachSet(ReverseEdges(edges), changed, reach)
    ensures impacted == reach
  {
    ReachSetIsLeast(ReverseEdges(edges), changed, reach, impacted);
  }

  /** The budget runs out exactly when more edges lead into the closure than it allows; otherwise
      the impacted set is the closure. */
  method Traverse(ghost edges: seq<SemanticEdge>, table: map<string, seq<string>>, changed: set<string>, bound: nat,
                  ghost reach: set<string>)
    returns (impacted: set<string>, exceeded: bool)
    requires IsTable(edges, table)
    requires IsReachSet(ReverseEdges(edges), changed, reach) && changed <= reach
    requires ClosedUnder(ReverseEdges(edges), reach)
    ensures impacted <= reach
    ensures exceeded <==> EdgesInto(edges, reach) > bound
    ensures !exceeded ==> impacted == reach
  {
    impacted, exceeded := {}, false;
    var queue := SetToSeq(changed);
    var traversed: nat := 0;
    NoEdgesIntoEmpty(edges);
    while queue != []
      invariant Traversing(edges, changed, reach, impacted, queue, traversed) && traversed <= bound
      decreases reach - impacted, |queue|
    {
      var symbol := queue[0];
      if symbol in impacted {
        SkipSymbol(edges, changed, reach, impacted, queue, traversed);
        queue := queue[1..];
      } else {
        ghost var impacted0, queue0 := impacted, queue;
        var next := if symbol in table then table[symbol] else [];
        assert next == Froms(edges, symbol);
        TakeSymbol(edges, changed, reach, impacted, queue, traversed, next);
        impacted := impacted + {symbol};
        queue, traversed, exceeded := QueueDependents(next, bound, queue[1..], traversed);
        if exceeded {
          EdgesIntoGrows(edges, impacted, reach);
          return;
        }
        assert symbol in reach - impacted0;
      }
    }
    TraversalEnds(edges, changed, reach, impacted, traversed);
  }

  /** What a caller may rely on. A class other than Incomplete means the whole reverse closure; the
      budget is exceeded exactly when more edges lead into the closure than it allows. */
  ghost predicate IsImpact(edges: seq<SemanticEdge>, report: ExtractionReport, bound: nat, impact: Impact,
                           reach: set<string>) {
    && IsReachSet(ReverseEdges(edges), impact.changed, reach)
    && impact.impacted <= reach
    && (EdgesInto(edges, reach) <= bound ==> impact.impacted == reach)
    && impact.closure == if EdgesInto(edges, reach) > bound then Incomplete else ClosureOf(report)
  }

  method CompilerReverseImpact(changed: seq<string>, edges: seq<SemanticEdge>, report: ExtractionReport, bound: nat)
    returns (r: Result<Impact, ImpactError>, ghost reach: set<string>)
    ensures r == Err(MissingIdentity) <==> !HasIdentity(report)
    ensures r == Err(EdgeCountMismatch) <==> HasIdentity(report) && report.resolvedEdges != |edges|
    ensures r == Err(EmptyChanged) <==>
              HasIdentity(report) && report.resolvedEdges == |edges| && (changed == [] || "" in changed)
    ensures r.Ok? <==>
              && HasIdentity(report) && report.resolvedEdges == |edges| && changed != [] && "" !in changed
              && forall e :: e in edges ==> Accepted(e, report)
    ensures r.Ok? ==> r.value.changed == Elems(changed) && IsImpact(edges, report, bound, r.value, reach)
    ensures r.Ok? && r.value.closure != Incomplete ==> r.value.impacted == reach
    ensures r.Ok? && bound >= |edges| ==> r.value.closure == ClosureOf(report) && r.value.impacted == reach
    ensures r.Err? && r.error != MissingIdentity && r.error != EdgeCountMismatch && r.error != EmptyChanged ==>
              IsEdgeError(edges, report, r.error)
  {
    reach := {};
    if !HasIdentity(report) {
      return Err(MissingIdentity), {};
    }
    if report.resolvedEdges != |edges| {
      return Err(EdgeCountMismatch), {};
    }
    var symbols := Elems(changed);
    if symbols == {} || "" in symbols {
      assert changed == [] || changed[0] in symbols;
      return Err(EmptyChanged), {};
    }
    var table := BuildTable(edges, report);
    if table.Err? {
      assert edges[table.error.at] in edges;
      return Err(table.error), {};
    }
    reach := ReachSetExists(ReverseEdges(edges), symbols);
    var impacted, exceeded := Traverse(edges, table.value, symbols, bound, reach);
    EdgesIntoGrows(edges, reach, reach);
    r := Ok(Impact(symbols, impacted, if exceeded ||
      ClosureOf(report) == Incomplete then Incomplete else ClosureOf(report)));
  }
}
