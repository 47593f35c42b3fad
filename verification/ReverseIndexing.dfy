/** The stored adjacency and its reverse index, which a counting placement groups by target. */
module ReverseIndexing {

  /** A source symbol and the global index of one of its edges. */
  type Site = (nat, nat)

  datatype Csr = Csr(offsets: seq<nat>, targets: seq<nat>, kinds: seq<nat>)

  datatype ReverseIndex = ReverseIndex(offsets: seq<nat>, entries: seq<Site>)

  predicate Aligned(csr: Csr) {
    |csr.kinds| == |csr.targets|
  }

  function NumSymbols(csr: Csr): nat {
    if csr.offsets == [] then 0 else |csr.offsets| - 1
  }

  /** The edge indices of a source; nothing where the offsets are out of range or out of order. */
  function Range(csr: Csr, src: nat): (r: (nat, nat))
    ensures r.0 <= r.1 <= |csr.targets|
    ensures src >= NumSymbols(csr) ==> r.0 == r.1
  {
    if src + 1 >= |csr.offsets| then (0, 0)
    else
      var lo, hi := csr.offsets[src], csr.offsets[src + 1];
      if lo > hi || hi > |csr.targets| then (0, 0) else (lo, hi)
  }

  predicate IsEdge(csr: Csr, s: Site) {
    Range(csr, s.0).0 <= s.1 < Range(csr, s.0).1
  }

  /** `s` is a kept edge into the symbol `t`. */
  predicate Enters(csr: Csr, keep: nat -> bool, t: nat, s: Site)
    requires Aligned(csr)
  {
    t < NumSymbols(csr) && IsEdge(csr, s) && csr.targets[s.1] == t && keep(csr.kinds[s.1])
  }

  predicate Before(a: Site, b: Site) {
    a.0 < b.0 || (a.0 == b.0 && a.1 < b.1)
  }

  ghost predicate Ascending(list: seq<Site>) {
    forall i, j :: 0 <= i < j < |list| ==> Before(list[i], list[j])
  }

  /** All kept edges into `t`, once each, in scan order. */
  ghost predicate IsListing(csr: Csr, keep: nat -> bool, t: nat, list: seq<Site>)
    requires Aligned(csr)
  {
    Ascending(list) && forall s: Site :: s in list <==> Enters(csr, keep, t, s)
  }

  // ----- grouping pairs by target -------------------------------------------------------------

  type Pair = (nat, Site)

  /** The sites paired with `t`, in order. */
  function Into(pairs: seq<Pair>, t: nat): seq<Site> {
    if pairs == [] then []
    else
      var last := pairs[|pairs| - 1];
      Into(pairs[..|pairs| - 1], t) + if last.0 == t then [last.1] else []
  }

  /** How many pairs have a target below `t`: where the group of `t` starts. */
  ghost function Start(pairs: seq<Pair>, t: nat): nat {
    if t == 0 then 0 else Start(pairs, t - 1) + |Into(pairs, t - 1)|
  }

  lemma IntoPush(pairs: seq<Pair>, i: nat, t: nat)
    requires i < |pairs|
    ensures Into(pairs[..i + 1], t) == Into(pairs[..i], t) + if pairs[i].0 == t then [pairs[i].1] else []
  {
    assert pairs[..i + 1][..i] == pairs[..i];
  }

  lemma {:induction false} IntoPrefix(pairs: seq<Pair>, i: nat, t: nat)
    requires i <= |pairs|
    ensures Into(pairs[..i], t) <= Into(pairs, t)
    decreases |pairs| - i
  {
    if i == |pairs| {
      assert pairs[..i] == pairs;
    } else {
      IntoPush(pairs, i, t);
      IntoPrefix(pairs, i + 1, t);
    }
  }

  lemma {:induction false} StartPush(pairs: seq<Pair>, i: nat, t: nat)
    requires i < |pairs|
    ensures Start(pairs[..i + 1], t) == Start(pairs[..i], t) + if pairs[i].0 < t then 1 else 0
  {
    if t > 0 {
      StartPush(pairs, i, t - 1);
      IntoPush(pairs, i, t - 1);
    }
  }

  lemma {:induction false} StartEmpty(t: nat)
    ensures Start([], t) == 0
  {
    if t > 0 {
      StartEmpty(t - 1);
    }
  }

  /** The groups fill the entries exactly. */
  lemma {:induction false} StartTotal(pairs: seq<Pair>, n: nat, i: nat)
    requires i <= |pairs| && forall p :: p in pairs ==> p.0 < n
    ensures Start(pairs[..i], n) == i
  {
    if i == 0 {
      StartEmpty(n);
    } else {
      StartTotal(pairs, n, i - 1);
      StartPush(pairs, i - 1, n);
      assert pairs[i - 1] in pairs;
    }
  }

  lemma {:induction false} StartGrows(pairs: seq<Pair>, t: nat, u: nat)
    requires t < u
    ensures Start(pairs, t) + |Into(pairs, t)| <= Start(pairs, u)
  {
    if t + 1 < u {
      StartGrows(pairs, t, u - 1);
    }
  }

  ghost predicate SlotHolds(pairs: seq<Pair>, i: nat, entries: seq<Site>, t: nat, k: nat)
    requires i <= |pairs|
  {
    k < |Into(pairs[..i], t)| ==>
      Start(pairs, t) + k < |entries| && entries[Start(pairs, t) + k] == Into(pairs[..i], t)[k]
  }

  /** After the first `i` pairs: each cursor points behind what its group has so far. */
  ghost predicate Placed(pairs: seq<Pair>, n: nat, i: nat, cursor: seq<nat>, entries: seq<Site>)
    requires i <= |pairs|
  {
    && |cursor| == n && |entries| == |pairs|
    && (forall t :: 0 <= t < n ==> cursor[t] == Start(pairs, t) + |Into(pairs[..i], t)|)
    && (forall t: nat, k: nat {:trigger SlotHolds(pairs, i, entries, t, k)} :: t < n ==>
        SlotHolds(pairs, i, entries, t, k))
  }

  /** The slot of the next pair is free and inside the entries. */
  lemma SlotFits(pairs: seq<Pair>, n: nat, i: nat)
    requires i < |pairs| && forall p :: p in pairs ==> p.0 < n
    ensures Start(pairs, pairs[i].0) + |Into(pairs[..i], pairs[i].0)| < |pairs|
    ensures |Into(pairs[..i], pairs[i].0)| < |Into(pairs, pairs[i].0)|
  {
    var t := pairs[i].0;
    assert pairs[i] in pairs;
    IntoPush(pairs, i, t);
    IntoPrefix(pairs, i + 1, t);
    StartGrows(pairs, t, n);
    StartTotal(pairs, n, |pairs|);
    assert pairs[..|pairs|] == pairs;
  }

  lemma PlaceKeepsSlot(pairs: seq<Pair>, n: nat, i: nat, cursor: seq<nat>, entries: seq<Site>, t: nat, k: nat)
    requires i < |pairs| && (forall p :: p in pairs ==> p.0 < n) && t < n
    requires Placed(pairs, n, i, cursor, entries)
    requires pairs[i].0 < n && cursor[pairs[i].0] < |entries|
    ensures SlotHolds(pairs, i + 1, entries[cursor[pairs[i].0] := pairs[i].1], t, k)
  {
    var u := pairs[i].0;
    IntoPush(pairs, i, t);
    IntoPrefix(pairs, i + 1, t);
    assert SlotHolds(pairs, i, entries, t, k);
    SlotFits(pairs, n, i);
    if t < u {
      StartGrows(pairs, t, u);
    } else if u < t {
      StartGrows(pairs, u, t);
    }
    if k < |Into(pairs[..i + 1], t)| && k >= |Into(pairs[..i], t)| {
      assert t == u && Start(pairs, t) + k == cursor[u];
    }
  }

  lemma PlaceKeeps(pairs: seq<Pair>, n: nat, i: nat, cursor: seq<nat>, entries: seq<Site>)
    requires i < |pairs| && (forall p :: p in pairs ==> p.0 < n)
    requires Placed(pairs, n, i, cursor, entries)
    requires pairs[i].0 < n && cursor[pairs[i].0] < |entries|
    ensures Placed(pairs, n, i + 1, cursor[pairs[i].0 := cursor[pairs[i].0] + 1],
            entries[cursor[pairs[i].0] := pairs[i].1])
  {
    forall t | 0 <= t < n
      ensures cursor[pairs[i].0 := cursor[pairs[i].0] + 1][t] == Start(pairs, t) + |Into(pairs[..i + 1], t)|
    {
      IntoPush(pairs, i, t);
    }
    var entries1, i1 := entries[cursor[pairs[i].0] := pairs[i].1], i + 1;
    forall t: nat, k: nat | t < n ensures SlotHolds(pairs, i1, entries1, t, k) {
      PlaceKeepsSlot(pairs, n, i, cursor, entries, t, k);
    }
  }

  lemma GroupFits(pairs: seq<Pair>, n: nat, t: nat)
    requires (forall p :: p in pairs ==> p.0 < n) && t < n
    ensures Start(pairs, t) + |Into(pairs, t)| == Start(pairs, t + 1) <= |pairs|
  {
    assert pairs[..|pairs|] == pairs;
    StartTotal(pairs, n, |pairs|);
    if t + 1 < n {
      StartGrows(pairs, t + 1, n);
    }
  }

  /** A group, once all pairs are placed, is a slice of the entries. */
  lemma GroupIsSlice(pairs: seq<Pair>, n: nat, cursor: seq<nat>, entries: seq<Site>, t: nat, lo: nat, hi: nat,
                     group: seq<Site>)
    requires Placed(pairs, n, |pairs|, cursor, entries) && t < n
    requires lo == Start(pairs, t) && group == Into(pairs[..|pairs|], t) && hi == lo + |group| <= |entries|
    ensures entries[lo..hi] == group
  {
    var slice := entries[lo..hi];
    forall k: nat | k < |group| ensures slice[k] == group[k] {
      assert SlotHolds(pairs, |pairs|, entries, t, k);
    }
  }

  method CountTargets(n: nat, pairs: seq<Pair>) returns (offsets: array<nat>)
    requires forall p :: p in pairs ==> p.0 < n
    ensures fresh(offsets) && offsets.Length == n + 1 && offsets[0] == 0
    ensures forall t: nat :: t < n ==> offsets[t + 1] == |Into(pairs, t)|
  {
    offsets := new nat[n + 1](_ => 0);
    for i := 0 to |pairs|
      invariant offsets[0] == 0
      invariant forall t: nat :: t < n ==> offsets[t + 1] == |Into(pairs[..i], t)|
    {
      assert pairs[i] in pairs;
      ghost var counts := offsets[..];
      var slot := pairs[i].0 + 1;
      if slot <= n {
        offsets[slot] := offsets[slot] + 1;
      }
      ghost var done := pairs[..i + 1];
      forall t: nat | t < n ensures offsets[t + 1] == |Into(done, t)| {
        assert counts[t + 1] == |Into(pairs[..i], t)|;
        IntoPush(pairs, i, t);
      }
    }
    assert pairs[..|pairs|] == pairs;
  }

  method PrefixSums(offsets: array<nat>)
    requires offsets.Length > 0 && offsets[0] == 0
    modifies offsets
    ensures offsets[0] == 0
    ensures forall t: nat :: t + 1 < offsets.Length ==> offsets[t + 1] == offsets[t] + old(offsets[t + 1])
  {
    for i := 1 to offsets.Length
      invariant offsets[0] == 0
      invariant forall t: nat :: t + 1 < i ==> offsets[t + 1] == offsets[t] + old(offsets[t + 1])
      invariant forall t: nat :: i <= t < offsets.Length ==> offsets[t] == old(offsets[t])
    {
      offsets[i] := offsets[i] + offsets[i - 1];
    }
  }

  lemma {:induction false} SumsAreStarts(pairs: seq<Pair>, offsets: seq<nat>, t: nat)
    requires t < |offsets| && offsets[0] == 0
    requires forall u: nat :: u + 1 < |offsets| ==> offsets[u + 1] == offsets[u] + |Into(pairs, u)|
    ensures offsets[t] == Start(pairs, t)
  {
    if t > 0 {
      SumsAreStarts(pairs, offsets, t - 1);
      assert offsets[t - 1 + 1] == offsets[t - 1] + |Into(pairs, t - 1)|;
    }
  }

  lemma NothingPlaced(pairs: seq<Pair>, n: nat, cursor: seq<nat>, entries: seq<Site>)
    requires |cursor| == n && |entries| == |pairs|
    requires forall t :: 0 <= t < n ==> cursor[t] == Start(pairs, t)
    ensures Placed(pairs, n, 0, cursor, entries)
  {
    assert pairs[..0] == [];
  }

  method PlaceOne(pairs: seq<Pair>, n: nat, i: nat, cursor: array<nat>, entries: array<Site>)
    requires i < |pairs| && (forall p :: p in pairs ==> p.0 < n)
    requires Placed(pairs, n, i, cursor[..], entries[..])
    modifies cursor, entries
    ensures Placed(pairs, n, i + 1, cursor[..], entries[..])
  {
    assert pairs[i] in pairs;
    SlotFits(pairs, n, i);
    PlaceKeeps(pairs, n, i, cursor[..], entries[..]);
    ghost var cursor0: seq<nat>, entries0: seq<Site> := cursor[..], entries[..];
    var t := pairs[i].0;
    var slot := cursor[t];
    cursor[t] := cursor[t] + 1;
    if slot < entries.Length {
      entries[slot] := pairs[i].1;
    }
    assert cursor[..] == cursor0[t := cursor0[t] + 1] && entries[..] == entries0[slot := pairs[i].1];
  }

  method PlaceAll(n: nat, pairs: seq<Pair>, offsets: seq<nat>) returns (entries: array<Site>, ghost cursors: seq<nat>)
    requires forall p :: p in pairs ==> p.0 < n
    requires |offsets| == n + 1 && forall t :: 0 <= t < n ==> offsets[t] == Start(pairs, t)
    ensures fresh(entries) && Placed(pairs, n, |pairs|, cursors, entries[..])
  {
    entries := new Site[|pairs|](_ => (0, 0));
    var cursor := new nat[n];
    forall t | 0 <= t < n {
      cursor[t] := offsets[t];
    }
    NothingPlaced(pairs, n, cursor[..], entries[..]);
    for i := 0 to |pairs|
      invariant Placed(pairs, n, i, cursor[..], entries[..])
    {
      PlaceOne(pairs, n, i, cursor, entries);
    }
    cursors := cursor[..];
  }

  function Callers(index: ReverseIndex, t: nat): seq<Site> {
    if t + 1 >= |index.offsets| then []
    else
      var lo, hi := index.offsets[t], index.offsets[t + 1];
      if lo <= hi <= |index.entries| then index.entries[lo..hi] else []
  }

  /** Count, sum, place: the callers of a target are its pairs in their order. */
  method FromPairs(n: nat, pairs: seq<Pair>) returns (index: ReverseIndex)
    requires forall p :: p in pairs ==> p.0 < n
    ensures forall t: nat :: Callers(index, t) == if t < n then Into(pairs, t) else []
  {
    var offsets := CountTargets(n, pairs);
    ghost var counts: seq<nat> := offsets[..];
    PrefixSums(offsets);
    forall t: nat | t <= n ensures offsets[t] == Start(pairs, t) {
      assert forall u: nat :: u < n ==> counts[u + 1] == |Into(pairs, u)|;
      SumsAreStarts(pairs, offsets[..], t);
    }
    var entries, cursors := PlaceAll(n, pairs, offsets[..]);
    index := ReverseIndex(offsets[..], entries[..]);
    forall t: nat | t < n ensures Callers(index, t) == Into(pairs, t) {
      GroupFits(pairs, n, t);
      assert pairs[..|pairs|] == pairs;
      GroupIsSlice(pairs, n, cursors, index.entries, t, index.offsets[t], index.offsets[t + 1], Into(pairs, t));
    }
  }

  // ----- building the index from the adjacency ------------------------------------------------

  /** The pairs of all kept edges before the position `at`, in scan order. */
  ghost predicate IsScan(csr: Csr, keep: nat -> bool, at: Site, pairs: seq<Pair>)
    requires Aligned(csr)
  {
    && (forall i, j :: 0 <= i < j < |pairs| ==> Before(pairs[i].1, pairs[j].1))
    && (forall p: Pair :: p in pairs <==> Before(p.1, at) && Enters(csr, keep, p.0, p.1))
  }

  lemma {:induction false} IntoListing(pairs: seq<Pair>, t: nat)
    requires forall i, j :: 0 <= i < j < |pairs| ==> Before(pairs[i].1, pairs[j].1)
    ensures Ascending(Into(pairs, t))
    ensures forall s: Site :: s in Into(pairs, t) <==> (t, s) in pairs
  {
    if pairs != [] {
      var rest, last := pairs[..|pairs| - 1], pairs[|pairs| - 1];
      IntoListing(rest, t);
      assert pairs == rest + [last];
      forall s | s in Into(rest, t) ensures Before(s, last.1) {
        assert (t, s) in rest;
      }
    }
  }

  method ScanSource(csr: Csr, keep: nat -> bool, src: nat, before: seq<Pair>) returns (pairs: seq<Pair>)
    requires Aligned(csr) && src < NumSymbols(csr)
    requires IsScan(csr, keep, (src, 0), before)
    ensures IsScan(csr, keep, (src + 1, 0), pairs)
  {
    pairs := before;
    var range := Range(csr, src);
    for i := range.0 to range.1
      invariant IsScan(csr, keep, (src, i), pairs)
    {
      ghost var pairs0 := pairs;
      if keep(csr.kinds[i]) && csr.targets[i] < NumSymbols(csr) {
        pairs := pairs + [(csr.targets[i], (src, i))];
      }
      forall p: Pair ensures p in pairs <==> Before(p.1, (src, i + 1)) && Enters(csr, keep, p.0, p.1) {
        assert p in pairs0 <==> Before(p.1, (src, i)) && Enters(csr, keep, p.0, p.1);
      }
    }
  }

  /** The index lists, for every symbol, all kept edges into it, once each and in scan order. */
  method BuildFiltered(csr: Csr, keep: nat -> bool) returns (index: ReverseIndex)
    requires Aligned(csr)
    ensures forall t: nat :: IsListing(csr, keep, t, Callers(index, t))
  {
    var n := NumSymbols(csr);
    var pairs: seq<Pair> := [];
    for src := 0 to n
      invariant IsScan(csr, keep, (src, 0), pairs)
    {
      pairs := ScanSource(csr, keep, src, pairs);
    }
    index := FromPairs(n, pairs);
    forall t: nat ensures IsListing(csr, keep, t, Callers(index, t)) {
      IntoListing(pairs, t);
      forall s: Site ensures s in Callers(index, t) <==> Enters(csr, keep, t, s) {
        assert (t, s) in pairs <==> Before(s, (n, 0)) && Enters(csr, keep, t, s);
      }
    }
  }
}
