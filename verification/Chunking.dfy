/** Content-defined chunking of fszero-store: a rolling hash picks the cuts, so that an edit only
    disturbs the chunks around it. */
module Chunking {
  import opened Wrappers

  type Bytes = seq<bv8>

  const CDC_MIN_BYTES: nat := 512
  const CDC_AVG_BYTES: nat := 2048
  const CDC_MAX_BYTES: nat := 8192
  const HASH_WINDOW: nat := 64

  /** The word operations and the digest the chunker is built from; `rotateWindow` rotates by the
      window length. `Sixtyfour` below is the instance the program uses. */
  datatype Params<!H> = Params(
    zero: H,
    rotate: H -> H,
    xor: (H, H) -> H,
    rotateWindow: H -> H,
    gear: bv8 -> H,
    cutsEarly: H -> bool,
    cutsLate: H -> bool,
    digest: Bytes -> string)

  datatype CdcChunk = CdcChunk(start: nat, end: nat, digest: string)

  datatype BoundedChunks = BoundedChunks(chunks: seq<CdcChunk>, truncatedAt: Option<nat>)

  function RotateBy<H>(p: Params<H>, x: H, n: nat): H {
    if n == 0 then x else p.rotate(RotateBy(p, x, n - 1))
  }

  ghost predicate LawsAt<H>(p: Params<H>, x: H, y: H, z: H) {
    && p.xor(p.zero, x) == x && p.xor(x, p.zero) == x
    && p.xor(p.xor(x, y), x) == y
    && p.xor(p.xor(x, y), z) == p.xor(x, p.xor(y, z))
    && p.rotate(p.xor(x, y)) == p.xor(p.rotate(x), p.rotate(y))
    && forall n: nat {:trigger RotatesWindow(p, x, n)} :: RotatesWindow(p, x, n)
  }

  ghost predicate RotatesWindow<H>(p: Params<H>, x: H, n: nat) {
    n == HASH_WINDOW ==> p.rotateWindow(x) == RotateBy(p, x, n)
  }

  /** The laws of rotation and exclusive-or that make the hash roll. */
  ghost predicate Lawful<H(!new)>(p: Params<H>) {
    p.rotate(p.zero) == p.zero && forall x, y, z {:trigger LawsAt(p, x, y, z)} :: LawsAt(p, x, y, z)
  }

  // ----- the rolling hash ---------------------------------------------------------------------

  function Fold<H>(p: Params<H>, s: Bytes): H {
    if s == [] then p.zero else p.xor(p.rotate(Fold(p, s[..|s| - 1])), p.gear(s[|s| - 1]))
  }

  function WindowHash<H>(p: Params<H>, input: Bytes, end: nat): H
    requires end <= |input|
  {
    Fold(p, input[(if end < HASH_WINDOW then 0 else end - HASH_WINDOW)..end])
  }

  function Roll<H>(p: Params<H>, input: Bytes, end: nat, hash: H): H
    requires end < |input|
  {
    var rolled := p.xor(p.rotate(hash), p.gear(input[end]));
    if end >= HASH_WINDOW then p.xor(rolled, p.rotateWindow(p.gear(input[end - HASH_WINDOW]))) else rolled
  }

  lemma HeadStep<H(!new)>(p: Params<H>, head: H, rest: H, last: H)
    requires Lawful(p)
    ensures p.xor(p.rotate(p.xor(head, rest)), last) == p.xor(p.rotate(head), p.xor(p.rotate(rest), last))
  {
    assert LawsAt(p, head, rest, last);
    assert LawsAt(p, p.rotate(head), p.rotate(rest), last);
  }

  /** The oldest byte of a window contributes its gear value, rotated once per later byte. */
  lemma {:induction false} FoldHead<H(!new)>(p: Params<H>, b: bv8, s: Bytes)
    requires Lawful(p)
    ensures Fold(p, [b] + s) == p.xor(RotateBy(p, p.gear(b), |s|), Fold(p, s))
  {
    var w := [b] + s;
    if s == [] {
      assert w[..0] == [];
      assert LawsAt(p, p.gear(b), p.zero, p.zero);
    } else {
      var t := s[..|s| - 1];
      FoldHead(p, b, t);
      assert w[..|w| - 1] == [b] + t;
      HeadStep(p, RotateBy(p, p.gear(b), |t|), Fold(p, t), p.gear(s[|s| - 1]));
    }
  }

  lemma CancelHead<H(!new)>(p: Params<H>, b: bv8, s: Bytes)
    requires Lawful(p) && |s| == HASH_WINDOW
    ensures p.xor(Fold(p, [b] + s), p.rotateWindow(p.gear(b))) == Fold(p, s)
  {
    FoldHead(p, b, s);
    assert LawsAt(p, p.gear(b), p.zero, p.zero);
    assert RotatesWindow(p, p.gear(b), |s|);
    assert LawsAt(p, p.rotateWindow(p.gear(b)), Fold(p, s), p.zero);
  }

  /** One step of the rolling update moves the window by one byte. */
  lemma RollIsWindowHash<H(!new)>(p: Params<H>, input: Bytes, end: nat)
    requires Lawful(p) && end < |input|
    ensures Roll(p, input, end, WindowHash(p, input, end)) == WindowHash(p, input, end + 1)
  {
    var lo := if end < HASH_WINDOW then 0 else end - HASH_WINDOW;
    var w := input[lo..end + 1];
    assert w[..|w| - 1] == input[lo..end];
    assert w[|w| - 1] == input[end];
    if end >= HASH_WINDOW {
      var tail := input[lo + 1..end + 1];
      assert [input[lo]] + tail == w;
      CancelHead(p, input[lo], tail);
    }
  }

  // ----- tilings ------------------------------------------------------------------------------

  datatype Span = Span(start: nat, end: nat)

  /** Every position before `n` is followed by a cut that is no further than `n`. */
  ghost predicate IsCutter(cut: nat -> nat, n: nat) {
    forall s: nat :: s < n ==> s < cut(s) <= n
  }

  function Tiling(cut: nat -> nat, n: nat, start: nat): seq<Span>
    decreases n - start
  {
    if start < n && start < cut(start) then [Span(start, cut(start))] + Tiling(cut, n, cut(start)) else []
  }

  /** Where the i-th span starts; the end of the input for `i` one past the last. */
  function StartOf(spans: seq<Span>, n: nat, i: nat): nat
    requires i <= |spans|
  {
    if i < |spans| then spans[i].start else n
  }

  ghost predicate TileAt(cut: nat -> nat, spans: seq<Span>, n: nat, i: nat) {
    i < |spans| && spans[i].start < spans[i].end == cut(spans[i].start) == StartOf(spans, n, i + 1) <= n
  }

  /** The spans cover `start..n` without gap or overlap, each ending where `cut` says. */
  ghost predicate Tiles(cut: nat -> nat, spans: seq<Span>, start: nat, n: nat) {
    && StartOf(spans, n, 0) == start
    && forall i: nat {:trigger TileAt(cut, spans, n, i)} :: i < |spans| ==> TileAt(cut, spans, n, i)
  }

  lemma {:induction false} TilingTiles(cut: nat -> nat, n: nat, start: nat)
    requires IsCutter(cut, n) && start <= n
    ensures Tiles(cut, Tiling(cut, n, start), start, n)
    decreases n - start
  {
    if start < n {
      var all, rest := Tiling(cut, n, start), Tiling(cut, n, cut(start));
      TilingTiles(cut, n, cut(start));
      forall i: nat | i < |all| ensures TileAt(cut, all, n, i) {
        if i > 0 {
          assert all[i] == rest[i - 1];
          assert TileAt(cut, rest, n, i - 1);
          assert StartOf(all, n, i + 1) == StartOf(rest, n, i);
        } else {
          assert StartOf(all, n, 1) == StartOf(rest, n, 0);
        }
      }
    }
  }

  lemma {:induction false} StartsIncrease(cut: nat -> nat, spans: seq<Span>, start: nat, n: nat, i: nat, j: nat)
    requires Tiles(cut, spans, start, n) && i <= j <= |spans|
    ensures StartOf(spans, n, i) + (j - i) <= StartOf(spans, n, j)
    decreases j
  {
    if i < j {
      StartsIncrease(cut, spans, start, n, i, j - 1);
      assert TileAt(cut, spans, n, j - 1);
    }
  }

  /** A tiling is determined by where it cuts. */
  lemma {:induction false} TilesUnique(cut: nat -> nat, a: seq<Span>, b: seq<Span>, start: nat, n: nat)
    requires Tiles(cut, a, start, n) && Tiles(cut, b, start, n)
    ensures a == b
    decreases |a|
  {
    if a != [] && b != [] {
      assert TileAt(cut, a, n, 0) && TileAt(cut, b, n, 0);
      TilesRest(cut, a, start, n);
      TilesRest(cut, b, start, n);
      TilesUnique(cut, a[1..], b[1..], a[0].end, n);
      assert a == [a[0]] + a[1..] && b == [b[0]] + b[1..];
    } else {
      EmptyTiling(cut, a, start, n);
      EmptyTiling(cut, b, start, n);
    }
  }

  lemma EmptyTiling(cut: nat -> nat, a: seq<Span>, start: nat, n: nat)
    requires Tiles(cut, a, start, n)
    ensures a == [] <==> start == n
  {
    if a != [] {
      assert TileAt(cut, a, n, 0);
    }
  }

  lemma TilesRest(cut: nat -> nat, a: seq<Span>, start: nat, n: nat)
    requires Tiles(cut, a, start, n) && a != []
    ensures Tiles(cut, a[1..], a[0].end, n)
  {
    assert TileAt(cut, a, n, 0);
    forall i: nat | i < |a[1..]| ensures TileAt(cut, a[1..], n, i) {
      assert TileAt(cut, a, n, i + 1);
    }
  }

  /** The tail of a tiling is the tiling from where it starts. */
  lemma TilingFrom(cut: nat -> nat, n: nat, start: nat, k: nat)
    requires IsCutter(cut, n) && start <= n && k <= |Tiling(cut, n, start)|
    ensures StartOf(Tiling(cut, n, start), n, k) <= n
    ensures Tiling(cut, n, start)[k..] == Tiling(cut, n, StartOf(Tiling(cut, n, start), n, k))
  {
    var all := Tiling(cut, n, start);
    TilingTiles(cut, n, start);
    var s := StartOf(all, n, k);
    assert k < |all| ==> TileAt(cut, all, n, k);
    TilingTiles(cut, n, s);
    forall i: nat | i < |all[k..]| ensures TileAt(cut, all[k..], n, i) {
      assert TileAt(cut, all, n, k + i);
    }
    TilesUnique(cut, all[k..], Tiling(cut, n, s), s, n);
  }

  function ShiftedSpans(spans: seq<Span>, offset: nat): (r: seq<Span>)
    ensures |r| == |spans|
    ensures forall i :: 0 <= i < |spans| ==> r[i] == Span(spans[i].start + offset, spans[i].end + offset)
  {
    seq(|spans|, i requires 0 <= i < |spans| => Span(spans[i].start + offset, spans[i].end + offset))
  }

  /** From `b` on, `cut` does what `cut'` does from the start. */
  ghost predicate ShiftsBy(cut: nat -> nat, cut': nat -> nat, n: nat, b: nat) {
    forall s: nat {:trigger ShiftsAt(cut, cut', b, s)} :: s + b < n ==> ShiftsAt(cut, cut', b, s)
  }

  ghost predicate ShiftsAt(cut: nat -> nat, cut': nat -> nat, b: nat, s: nat) {
    cut(s + b) == cut'(s) + b
  }

  lemma TilingShift(cut: nat -> nat, cut': nat -> nat, n: nat, b: nat, start: nat)
    requires b <= start <= n && IsCutter(cut, n) && IsCutter(cut', n - b)
    requires ShiftsBy(cut, cut', n, b)
    ensures Tiling(cut, n, start) == ShiftedSpans(Tiling(cut', n - b, start - b), b)
  {
    var part := Tiling(cut', n - b, start - b);
    var moved := ShiftedSpans(part, b);
    TilingTiles(cut', n - b, start - b);
    TilingTiles(cut, n, start);
    forall i: nat | i < |moved| ensures TileAt(cut, moved, n, i) {
      assert TileAt(cut', part, n - b, i);
      assert StartOf(moved, n, i + 1) == StartOf(part, n - b, i + 1) + b;
      assert ShiftsAt(cut, cut', b, part[i].start);
    }
    TilesUnique(cut, Tiling(cut, n, start), moved, start, n);
  }

  lemma TilingAfter(cut: nat -> nat, cut': nat -> nat, n: nat, b: nat, k: nat)
    requires IsCutter(cut, n) && k <= |Tiling(cut, n, 0)| && b == StartOf(Tiling(cut, n, 0), n, k)
    requires b <= n ==> IsCutter(cut', n - b) && ShiftsBy(cut, cut', n, b)
    ensures b <= n && Tiling(cut, n, 0)[k..] == ShiftedSpans(Tiling(cut', n - b, 0), b)
  {
    TilingFrom(cut, n, 0, k);
    TilingShift(cut, cut', n, b, b);
  }

  /** Where `cut` ends a span by `m`, and not merely because the input ends, `cut'` ends it too. */
  ghost predicate AgreeBelow(cut: nat -> nat, cut': nat -> nat, n: nat, m: nat) {
    forall s: nat {:trigger ShiftsAt(cut, cut', 0, s)} :: s < n && cut(s) <= m && cut(s) < n ==>
      ShiftsAt(cut, cut', 0, s)
  }

  ghost predicate EndsBy(spans: seq<Span>, k: nat, n: nat, m: nat)
    requires k <= |spans|
  {
    forall i :: 0 <= i < k ==> spans[i].end <= m && spans[i].end < n
  }

  /** Two cutters that agree up to `m` give the same spans there. */
  lemma {:induction false} TilingPrefix(cut: nat -> nat, cut': nat -> nat, n: nat, n': nat, m: nat, start: nat, k: nat)
    requires m <= n && m <= n' && start <= n && IsCutter(cut, n) && AgreeBelow(cut, cut', n, m)
    requires k <= |Tiling(cut, n, start)| && EndsBy(Tiling(cut, n, start), k, n, m)
    ensures k <= |Tiling(cut', n', start)| && Tiling(cut, n, start)[..k] == Tiling(cut', n', start)[..k]
    decreases k
  {
    if k > 0 {
      var all, all' := Tiling(cut, n, start), Tiling(cut', n', start);
      assert all[0] == Span(start, cut(start));
      assert ShiftsAt(cut, cut', 0, start);
      var rest, rest' := Tiling(cut, n, cut(start)), Tiling(cut', n', cut(start));
      assert all == [all[0]] + rest && all' == [all[0]] + rest';
      assert forall i :: 0 <= i < k - 1 ==> rest[i] == all[i + 1];
      TilingPrefix(cut, cut', n, n', m, cut(start), k - 1);
      assert all[..k] == [all[0]] + rest[..k - 1];
      assert all'[..k] == [all[0]] + rest'[..k - 1];
    }
  }

  // ----- cuts and chunks ----------------------------------------------------------------------

  function Min(a: nat, b: nat): nat {
    if a < b then a else b
  }

  function MinEnd(n: nat, start: nat): nat {
    Min(start + CDC_MIN_BYTES, n)
  }

  function MaxEnd(n: nat, start: nat): nat {
    Min(start + CDC_MAX_BYTES, n)
  }

  predicate CutsAt<H>(p: Params<H>, n: nat, start: nat, end: nat, hash: H) {
    if end < Min(start + CDC_AVG_BYTES, MaxEnd(n, start)) then p.cutsEarly(hash) else p.cutsLate(hash)
  }

  predicate IsCut<H>(p: Params<H>, input: Bytes, start: nat, end: nat)
    requires end <= |input|
  {
    end == MaxEnd(|input|, start) || CutsAt(p, |input|, start, end, WindowHash(p, input, end))
  }

  /** The first cut at or after `end`. */
  function NextCut<H>(p: Params<H>, input: Bytes, start: nat, end: nat): (r: nat)
    requires start < |input| && MinEnd(|input|, start) <= end <= MaxEnd(|input|, start)
    ensures end <= r <= MaxEnd(|input|, start)
    decreases MaxEnd(|input|, start) - end
  {
    if IsCut(p, input, start, end) then end else NextCut(p, input, start, end + 1)
  }

  lemma {:induction false} NextCutIsFirst<H>(p: Params<H>, input: Bytes, start: nat, end: nat)
    requires start < |input| && MinEnd(|input|, start) <= end <= MaxEnd(|input|, start)
    ensures IsCut(p, input, start, NextCut(p, input, start, end))
    ensures forall e :: end <= e < NextCut(p, input, start, end) ==> !IsCut(p, input, start, e)
    decreases MaxEnd(|input|, start) - end
  {
    if !IsCut(p, input, start, end) {
      NextCutIsFirst(p, input, start, end + 1);
    }
  }

  function Cut<H>(p: Params<H>, input: Bytes, start: nat): nat {
    if start < |input| then NextCut(p, input, start, MinEnd(|input|, start)) else |input|
  }

  function Cutter<H>(p: Params<H>, input: Bytes): nat -> nat {
    s => Cut(p, input, s)
  }

  lemma CutterCuts<H>(p: Params<H>, input: Bytes)
    ensures IsCutter(Cutter(p, input), |input|)
  {
  }

  function ChunkOf<H>(p: Params<H>, input: Bytes, s: Span): CdcChunk
    requires s.start <= s.end <= |input|
  {
    CdcChunk(s.start, s.end, p.digest(input[s.start..s.end]))
  }

  ghost predicate Within(spans: seq<Span>, n: nat) {
    forall i :: 0 <= i < |spans| ==> spans[i].start <= spans[i].end <= n
  }

  function Label<H>(p: Params<H>, input: Bytes, spans: seq<Span>): (r: seq<CdcChunk>)
    requires Within(spans, |input|)
    ensures |r| == |spans| && forall i :: 0 <= i < |r| ==> r[i] == ChunkOf(p, input, spans[i])
  {
    seq(|spans|, i requires 0 <= i < |spans| => ChunkOf(p, input, spans[i]))
  }

  lemma SpansWithin<H>(p: Params<H>, input: Bytes)
    ensures Within(Spans(p, input), |input|) && Tiles(Cutter(p, input), Spans(p, input), 0, |input|)
  {
    CutterCuts(p, input);
    TilingTiles(Cutter(p, input), |input|, 0);
    forall i: nat | i < |Spans(p, input)| ensures Spans(p, input)[i].start <= Spans(p, input)[i].end <= |input| {
      assert TileAt(Cutter(p, input), Spans(p, input), |input|, i);
    }
  }

  function Spans<H>(p: Params<H>, input: Bytes): seq<Span> {
    Tiling(Cutter(p, input), |input|, 0)
  }

  function Chunks<H>(p: Params<H>, input: Bytes): seq<CdcChunk> {
    SpansWithin(p, input);
    Label(p, input, Spans(p, input))
  }

  /** The chunks cover the input without gap or overlap, within the size bounds: at most the
      maximum, and, except for the last, at least the minimum. */
  lemma ChunksTile<H>(p: Params<H>, input: Bytes, i: nat)
    requires i < |Chunks(p, input)|
    ensures var cs := Chunks(p, input); var c := cs[i];
      && c.start < c.end <= |input| && c.digest == p.digest(input[c.start..c.end])
      && c.end - c.start <= CDC_MAX_BYTES
      && (i == 0 ==> c.start == 0)
      && (if i + 1 < |cs| then c.end == cs[i + 1].start && c.end - c.start >= CDC_MIN_BYTES else c.end == |input|)
  {
    SpansWithin(p, input);
    var spans := Spans(p, input);
    assert TileAt(Cutter(p, input), spans, |input|, i);
    assert Cutter(p, input)(spans[i].start) == Cut(p, input, spans[i].start);
    if i + 1 < |spans| {
      assert TileAt(Cutter(p, input), spans, |input|, i + 1);
    }
  }

  lemma NoChunksOfEmpty<H>(p: Params<H>, input: Bytes)
    ensures Chunks(p, input) == [] <==> input == []
  {
    SpansWithin(p, input);
    EmptyTiling(Cutter(p, input), Spans(p, input), 0, |input|);
  }

  // ----- edit locality ------------------------------------------------------------------------

  lemma WindowShifts<H>(p: Params<H>, input: Bytes, b: nat, end: nat)
    requires b + HASH_WINDOW <= end <= |input|
    ensures WindowHash(p, input, end) == WindowHash(p, input[b..], end - b)
  {
    assert input[end - HASH_WINDOW..end] == input[b..][end - b - HASH_WINDOW..end - b];
  }

  lemma IsCutShifts<H>(p: Params<H>, input: Bytes, part: Bytes, b: nat, start: nat, end: nat)
    requires b <= start < |input| && MinEnd(|input|, start) <= end <= MaxEnd(|input|, start) && part == input[b..]
    ensures IsCut(p, input, start, end) <==> IsCut(p, part, start - b, end - b)
  {
    if end < MaxEnd(|input|, start) {
      WindowShifts(p, input, b, end);
    }
  }

  lemma {:induction false} NextCutShifts<H>(p: Params<H>, input: Bytes, part: Bytes, b: nat, start: nat, end: nat)
    requires b <= start < |input| && MinEnd(|input|, start) <= end <= MaxEnd(|input|, start) && part == input[b..]
    ensures NextCut(p, input, start, end) == b + NextCut(p, part, start - b, end - b)
    decreases MaxEnd(|input|, start) - end
  {
    IsCutShifts(p, input, part, b, start, end);
    if !IsCut(p, input, start, end) {
      NextCutShifts(p, input, part, b, start, end + 1);
    }
  }

  lemma CutShifts<H>(p: Params<H>, input: Bytes, b: nat, s: nat)
    requires b <= |input| && s < |input| - b
    ensures Cut(p, input, s + b) == Cut(p, input[b..], s) + b
  {
    var part := input[b..];
    assert |part| == |input| - b;
    var end := MinEnd(|input|, s + b);
    NextCutShifts(p, input, part, b, s + b, end);
    assert MinEnd(|part|, s) == end - b;
  }

  lemma CutterShifts<H>(p: Params<H>, input: Bytes, part: Bytes, b: nat)
    requires b <= |input| && part == input[b..]
    ensures ShiftsBy(Cutter(p, input), Cutter(p, part), |input|, b)
  {
    var cut, cut' := Cutter(p, input), Cutter(p, part);
    forall s: nat | s + b < |input| ensures ShiftsAt(cut, cut', b, s) {
      CutterShiftsAt(p, input, part, b, s);
    }
  }

  lemma CutterShiftsAt<H>(p: Params<H>, input: Bytes, part: Bytes, b: nat, s: nat)
    requires b <= |input| && part == input[b..] && s + b < |input|
    ensures ShiftsAt(Cutter(p, input), Cutter(p, part), b, s)
  {
    CutShifts(p, input, b, s);
    CutterApply(p, input, s + b);
    CutterApply(p, part, s);
  }

  lemma CutterApply<H>(p: Params<H>, input: Bytes, s: nat)
    ensures Cutter(p, input)(s) == Cut(p, input, s)
  {
  }

  function Shifted(cs: seq<CdcChunk>, offset: nat): (r: seq<CdcChunk>)
    ensures |r| == |cs|
    ensures forall i :: 0 <= i < |cs| ==> r[i] == CdcChunk(cs[i].start + offset, cs[i].end + offset, cs[i].digest)
  {
    seq(|cs|, i requires 0 <= i < |cs| => CdcChunk(cs[i].start + offset, cs[i].end + offset, cs[i].digest))
  }

  lemma LabelShifts<H>(p: Params<H>, input: Bytes, b: nat, spans: seq<Span>)
    requires b <= |input| && Within(spans, |input| - b)
    ensures Within(ShiftedSpans(spans, b), |input|)
    ensures Label(p, input, ShiftedSpans(spans, b)) == Shifted(Label(p, input[b..], spans), b)
  {
    forall i | 0 <= i < |spans| ensures
      ChunkOf(p, input, ShiftedSpans(spans, b)[i]) == Shifted(Label(p, input[b..], spans), b)[i]
    {
      var c := spans[i];
      assert input[c.start + b..c.end + b] == input[b..][c.start..c.end];
    }
  }

  function ChunkStart(cs: seq<CdcChunk>, n: nat, i: nat): nat
    requires i <= |cs|
  {
    if i < |cs| then cs[i].start else n
  }

  /** After any of its boundaries, an input is chunked exactly like the bytes from there on taken
      by themselves. */
  lemma ChunksAfterBoundary<H>(p: Params<H>, input: Bytes, k: nat)
    requires k <= |Chunks(p, input)|
    ensures var b := ChunkStart(Chunks(p, input), |input|, k);
      b <= |input| && Chunks(p, input)[k..] == Shifted(Chunks(p, input[b..]), b)
  {
    var spans := Spans(p, input);
    SpansWithin(p, input);
    var b := StartOf(spans, |input|, k);
    assert k < |spans| ==> spans[k].start <= |input|;
    SpansAfterBoundary(p, input, input[b..], b, k);
    LabelShifts(p, input, b, Spans(p, input[b..]));
    LabelTail(p, input, spans, k);
  }

  lemma SpansAfterBoundary<H>(p: Params<H>, input: Bytes, part: Bytes, b: nat, k: nat)
    requires k <= |Spans(p, input)| && b == StartOf(Spans(p, input), |input|, k) <= |input| && part == input[b..]
    ensures Spans(p, input)[k..] == ShiftedSpans(Spans(p, part), b) && Within(Spans(p, part), |input| - b)
  {
    CutterCuts(p, input);
    CutterCuts(p, part);
    CutterShifts(p, input, part, b);
    SpansWithin(p, part);
    TilingAfter(Cutter(p, input), Cutter(p, part), |input|, b, k);
  }

  lemma LabelTail<H>(p: Params<H>, input: Bytes, spans: seq<Span>, k: nat)
    requires Within(spans, |input|) && k <= |spans|
    ensures Within(spans[k..], |input|) && Label(p, input, spans)[k..] == Label(p, input, spans[k..])
  {
  }

  /** A cut is decided by the bytes before it, unless it is where the input ends. */
  lemma IsCutSame<H>(p: Params<H>, x: Bytes, y: Bytes, m: nat, start: nat, end: nat)
    requires m <= |x| && m <= |y| && x[..m] == y[..m]
    requires start <= end <= start + CDC_MAX_BYTES && end <= m && end < |x|
    ensures IsCut(p, x, start, end) ==> IsCut(p, y, start, end)
    ensures end < |y| ==> (IsCut(p, x, start, end) <==> IsCut(p, y, start, end))
  {
    var lo := if end < HASH_WINDOW then 0 else end - HASH_WINDOW;
    assert x[lo..end] == x[..m][lo..end] == y[lo..end];
  }

  lemma {:induction false} NextCutSame<H>(p: Params<H>, x: Bytes, y: Bytes, m: nat, start: nat, end: nat)
    requires m <= |x| && m <= |y| && x[..m] == y[..m] && start < |x|
    requires MinEnd(|x|, start) <= end <= MaxEnd(|x|, start)
    requires NextCut(p, x, start, end) <= m && NextCut(p, x, start, end) < |x|
    ensures start < |y| && MinEnd(|y|, start) <= end <= MaxEnd(|y|, start)
    ensures NextCut(p, y, start, end) == NextCut(p, x, start, end)
    decreases MaxEnd(|x|, start) - end
  {
    IsCutSame(p, x, y, m, start, end);
    if !IsCut(p, x, start, end) {
      NextCutSame(p, x, y, m, start, end + 1);
    }
  }

  lemma CutterSame<H>(p: Params<H>, x: Bytes, y: Bytes, m: nat)
    requires m <= |x| && m <= |y| && x[..m] == y[..m]
    ensures AgreeBelow(Cutter(p, x), Cutter(p, y), |x|, m)
  {
    var cut, cut' := Cutter(p, x), Cutter(p, y);
    forall s: nat | s < |x| && cut(s) <= m && cut(s) < |x| ensures ShiftsAt(cut, cut', 0, s) {
      CutterApply(p, x, s);
      NextCutSame(p, x, y, m, s, MinEnd(|x|, s));
      CutterApply(p, y, s);
    }
  }

  lemma SpansPrefix<H>(p: Params<H>, x: Bytes, y: Bytes, m: nat, k: nat)
    requires m <= |x| && m <= |y| && x[..m] == y[..m]
    requires k <= |Spans(p, x)| && EndsBy(Spans(p, x), k, |x|, m)
    ensures k <= |Spans(p, y)| && Spans(p, x)[..k] == Spans(p, y)[..k]
  {
    CutterCuts(p, x);
    CutterSame(p, x, y, m);
    TilingPrefix(Cutter(p, x), Cutter(p, y), |x|, |y|, m, 0, k);
  }

  lemma SameLabel<H>(p: Params<H>, x: Bytes, y: Bytes, m: nat, c: Span)
    requires m <= |x| && m <= |y| && x[..m] == y[..m] && c.start <= c.end <= m
    ensures ChunkOf(p, x, c) == ChunkOf(p, y, c)
  {
    assert x[c.start..c.end] == x[..m][c.start..c.end] == y[c.start..c.end];
  }

  /** Every chunk that ends inside a common prefix is shared, if it does not end there only because
      the input does. */
  lemma CommonPrefix<H>(p: Params<H>, x: Bytes, y: Bytes, m: nat, k: nat)
    requires m <= |x| && m <= |y| && x[..m] == y[..m] && k <= |Chunks(p, x)|
    requires forall i :: 0 <= i < k ==> Chunks(p, x)[i].end <= m && Chunks(p, x)[i].end < |x|
    ensures k <= |Chunks(p, y)| && Chunks(p, x)[..k] == Chunks(p, y)[..k]
  {
    SpansWithin(p, x);
    SpansWithin(p, y);
    var sx, sy, cx, cy := Spans(p, x), Spans(p, y), Chunks(p, x), Chunks(p, y);
    forall i | 0 <= i < k ensures sx[i].end <= m && sx[i].end < |x| {
      assert cx[i].end == sx[i].end;
    }
    SpansPrefix(p, x, y, m, k);
    forall i: nat | i < k ensures cx[i] == cy[i] {
      assert sx[i] == sx[..k][i] == sy[i];
      SameLabel(p, x, y, m, sx[i]);
    }
  }

  // ----- invalidation -------------------------------------------------------------------------

  function Counts(cs: seq<CdcChunk>): multiset<string> {
    if cs == [] then multiset{} else multiset{cs[0].digest} + Counts(cs[1..])
  }

  /** The old chunks for which the new image has no copy left, in order. */
  function Unmatched(old_: seq<CdcChunk>, available: multiset<string>): seq<CdcChunk> {
    if old_ == [] then []
    else if old_[0].digest in available then Unmatched(old_[1..], available - multiset{old_[0].digest})
    else [old_[0]] + Unmatched(old_[1..], available)
  }

  lemma MultisetAssoc(a: multiset<string>, b: multiset<string>, c: multiset<string>)
    ensures (a + b) + c == a + (b + c)
  {
  }

  lemma TakeOne(d: string, rest: multiset<string>, available: multiset<string>)
    ensures d in available ==> (multiset{d} + rest) - available == rest - (available - multiset{d})
    ensures d !in available ==> (multiset{d} + rest) - available == multiset{d} + (rest - available)
  {
  }

  lemma CountsCons(c: CdcChunk, cs: seq<CdcChunk>)
    ensures Counts([c] + cs) == multiset{c.digest} + Counts(cs)
  {
    assert ([c] + cs)[1..] == cs;
  }

  /** Per digest, as many chunks are invalidated as the old image has more of than the new one. */
  lemma {:induction false} UnmatchedIsDifference(old_: seq<CdcChunk>, available: multiset<string>)
    ensures Counts(Unmatched(old_, available)) == Counts(old_) - available
  {
    if old_ != [] {
      var d, rest := old_[0].digest, old_[1..];
      TakeOne(d, Counts(rest), available);
      if d in available {
        UnmatchedIsDifference(rest, available - multiset{d});
      } else {
        UnmatchedIsDifference(rest, available);
        CountsCons(old_[0], Unmatched(rest, available));
      }
    }
  }

  lemma {:induction false} UnmatchedIsOld(old_: seq<CdcChunk>, available: multiset<string>)
    ensures forall c :: c in Unmatched(old_, available) ==> c in old_
  {
    if old_ != [] {
      UnmatchedIsOld(old_[1..], available - multiset{old_[0].digest});
      UnmatchedIsOld(old_[1..], available);
    }
  }

  lemma HeadAndRest(a: seq<CdcChunk>, b: seq<CdcChunk>)
    requires a != []
    ensures [a[0]] + a[1..] == a && [a[0]] + (a[1..] + b) == a + b
  {
  }

  lemma CutInThree(cs: seq<CdcChunk>, k: nat, i: nat)
    requires k <= i <= |cs|
    ensures cs[..k] + cs[k..i] + cs[i..] == cs
  {
  }

  lemma ConcatStep(c: CdcChunk, a: seq<CdcChunk>, b: seq<CdcChunk>, ab: multiset<string>, cb: multiset<string>)
    requires Counts(a + b) == ab && cb == Counts(b) && ab == Counts(a) + cb
    ensures Counts([c] + (a + b)) == Counts([c] + a) + cb
  {
    CountsCons(c, a + b);
    CountsCons(c, a);
    MultisetAssoc(multiset{c.digest}, Counts(a), cb);
  }

  lemma {:induction false} CountsConcat(a: seq<CdcChunk>, b: seq<CdcChunk>)
    ensures Counts(a + b) == Counts(a) + Counts(b)
  {
    if a == [] {
      assert a + b == b;
    } else {
      CountsConcat(a[1..], b);
      ConcatStep(a[0], a[1..], b, Counts(a[1..] + b), Counts(b));
      HeadAndRest(a, b);
    }
  }

  lemma {:induction false} CountsSize(cs: seq<CdcChunk>)
    ensures |Counts(cs)| == |cs|
  {
    if cs != [] {
      CountsSize(cs[1..]);
    }
  }

  lemma {:induction false} CountsShifted(cs: seq<CdcChunk>, offset: nat)
    ensures Counts(Shifted(cs, offset)) == Counts(cs)
  {
    if cs != [] {
      CountsShifted(cs[1..], offset);
      assert Shifted(cs, offset)[1..] == Shifted(cs[1..], offset);
    }
  }

  function Invalidations<H>(p: Params<H>, before: Bytes, after: Bytes): seq<CdcChunk> {
    Unmatched(Chunks(p, before), Counts(Chunks(p, after)))
  }

  lemma BoundaryOrder<H>(p: Params<H>, input: Bytes, k: nat, i: nat)
    requires 0 < k <= |Chunks(p, input)| && i <= |Chunks(p, input)|
    requires Chunks(p, input)[k - 1].start < ChunkStart(Chunks(p, input), |input|, i)
    ensures k <= i
  {
    SpansWithin(p, input);
    if i < k {
      StartsIncrease(Cutter(p, input), Spans(p, input), 0, |input|, i, k - 1);
      assert false;
    }
  }

  /** The suffix of an edited input, from a boundary on, contributes the same digests. */
  lemma SuffixCounts<H>(p: Params<H>, front: Bytes, tail: Bytes, i: nat)
    requires i <= |Chunks(p, front + tail)| && ChunkStart(Chunks(p, front + tail), |front + tail|, i) == |front|
    ensures Counts(Chunks(p, front + tail)[i..]) == Counts(Chunks(p, tail))
  {
    ChunksAfterBoundary(p, front + tail, i);
    assert (front + tail)[|front|..] == tail;
    CountsShifted(Chunks(p, tail), |front|);
  }

  lemma ThreeParts(a: seq<CdcChunk>, b: seq<CdcChunk>, c: seq<CdcChunk>)
    ensures Counts(a + b + c) == Counts(a) + Counts(b) + Counts(c)
  {
    CountsConcat(a + b, c);
    CountsConcat(a, b);
  }

  lemma SplitCounts(cs: seq<CdcChunk>, k: nat, i: nat)
    requires k <= i <= |cs|
    ensures Counts(cs) == Counts(cs[..k]) + Counts(cs[k..i]) + Counts(cs[i..])
  {
    ThreeParts(cs[..k], cs[k..i], cs[i..]);
    CutInThree(cs, k, i);
  }

  lemma MiddleOnly(pre: multiset<string>, mid: multiset<string>, mid': multiset<string>, suf: multiset<string>)
    ensures (pre + mid + suf) - (pre + mid' + suf) <= mid
  {
  }

  /** Only the middle of the old list can be left over, when the two lists share a front and their
      tails hold the same digests. */
  lemma UnmatchedInMiddle(old_: seq<CdcChunk>, new_: seq<CdcChunk>, k: nat, i: nat, j: nat)
    requires k <= i <= |old_| && k <= j <= |new_| && old_[..k] == new_[..k]
    requires Counts(old_[i..]) == Counts(new_[j..])
    ensures |Unmatched(old_, Counts(new_))| <= i - k
    ensures Counts(Unmatched(old_, Counts(new_))) <= Counts(old_[k..i])
  {
    SplitCounts(old_, k, i);
    SplitCounts(new_, k, j);
    UnmatchedIsDifference(old_, Counts(new_));
    MiddleOnly(Counts(old_[..k]), Counts(old_[k..i]), Counts(new_[k..j]), Counts(old_[i..]));
    CountsSize(Unmatched(old_, Counts(new_)));
    CountsSize(old_[k..i]);
    SubmultisetSize(Counts(Unmatched(old_, Counts(new_))), Counts(old_[k..i]));
  }

  lemma FrontIsShared<H>(p: Params<H>, before: Bytes, after: Bytes, m: nat, k: nat, i: nat, j: nat)
    requires m <= |before| && m <= |after| && before[..m] == after[..m]
    requires k <= |Chunks(p, before)| && i <= |Chunks(p, before)| && j <= |Chunks(p, after)|
    requires forall t :: 0 <= t < k ==> Chunks(p, before)[t].end <= m && Chunks(p, before)[t].end < |before|
    requires ChunkStart(Chunks(p, before), |before|, i) >= m && ChunkStart(Chunks(p, after), |after|, j) >= m
    ensures k <= i && k <= j && Chunks(p, before)[..k] == Chunks(p, after)[..k]
  {
    var old_, new_ := Chunks(p, before), Chunks(p, after);
    CommonPrefix(p, before, after, m, k);
    if k > 0 {
      assert old_[k - 1] == old_[..k][k - 1] == new_[k - 1];
      ChunksTile(p, before, k - 1);
      BoundaryOrder(p, before, k, i);
      BoundaryOrder(p, after, k, j);
    }
  }

  /** Edit locality: replace `mid` by `mid'` between a common head and a common tail. If both images
      cut where the tail starts, at most the old chunks between the last one that ends inside the
      head and the tail are invalidated. */
  lemma EditIsLocal<H>(p: Params<H>, head: Bytes, mid: Bytes, mid': Bytes, tail: Bytes, k: nat, i: nat, j: nat)
    requires var before, after := head + mid + tail, head + mid' + tail;
      && k <= |Chunks(p, before)| && i <= |Chunks(p, before)| && j <= |Chunks(p, after)|
      && (forall t :: 0 <= t < k ==> Chunks(p, before)[t].end <= |head| && Chunks(p, before)[t].end < |before|)
      && ChunkStart(Chunks(p, before), |before|, i) == |head + mid|
      && ChunkStart(Chunks(p, after), |after|, j) == |head + mid'|
    ensures k <= i && |Invalidations(p, head + mid + tail, head + mid' + tail)| <= i - k
    ensures Counts(Invalidations(p, head + mid + tail, head + mid' + tail)) <=
            Counts(Chunks(p, head + mid + tail)[k..i])
  {
    var before, after := head + mid + tail, head + mid' + tail;
    assert before[..|head|] == head == after[..|head|];
    FrontIsShared(p, before, after, |head|, k, i, j);
    SuffixCounts(p, head + mid, tail, i);
    SuffixCounts(p, head + mid', tail, j);
    UnmatchedInMiddle(Chunks(p, before), Chunks(p, after), k, i, j);
  }

  lemma SubmultisetSize(a: multiset<string>, b: multiset<string>)
    requires a <= b
    ensures |a| <= |b|
  {
    assert b == a + (b - a);
  }

  // ----- the loops ----------------------------------------------------------------------------

  lemma NoCutHere<H>(p: Params<H>, input: Bytes, start: nat, end: nat, hash: H)
    requires start < |input| && MinEnd(|input|, start) <= end < MaxEnd(|input|, start)
    requires hash == WindowHash(p, input, end) && !CutsAt(p, |input|, start, end, hash)
    ensures NextCut(p, input, start, end) == NextCut(p, input, start, end + 1)
  {
    assert !IsCut(p, input, start, end);
  }

  method RollOn<H(!new)>(p: Params<H>, input: Bytes, ghost start: nat, end: nat, hash: H) returns (next: H)
    requires Lawful(p) && start < |input| && MinEnd(|input|, start) <= end < MaxEnd(|input|, start)
    requires hash == WindowHash(p, input, end) && !CutsAt(p, |input|, start, end, hash)
    ensures next == WindowHash(p, input, end + 1)
    ensures NextCut(p, input, start, end) == NextCut(p, input, start, end + 1)
  {
    RollIsWindowHash(p, input, end);
    NoCutHere(p, input, start, end, hash);
    next := Roll(p, input, end, hash);
  }

  /** The inner loop: roll the hash along until it says cut. */
  method FindCut<H(!new)>(p: Params<H>, input: Bytes, start: nat) returns (end: nat)
    requires Lawful(p) && start < |input|
    ensures end == Cut(p, input, start)
  {
    var maxEnd := MaxEnd(|input|, start);
    end := MinEnd(|input|, start);
    var hash := WindowHash(p, input, end);
    while end < maxEnd && !CutsAt(p, |input|, start, end, hash)
      invariant MinEnd(|input|, start) <= end <= maxEnd && hash == WindowHash(p, input, end)
      invariant NextCut(p, input, start, end) == Cut(p, input, start)
    {
      hash := RollOn(p, input, start, end, hash);
      end := end + 1;
    }
  }

  method ContentDefinedChunksBounded<H(!new)>(p: Params<H>, input: Bytes, maxChunks: nat) returns (r: BoundedChunks)
    requires Lawful(p)
    ensures r.chunks == Chunks(p, input)[..Min(maxChunks, |Chunks(p, input)|)]
    ensures r.truncatedAt ==
            if maxChunks < |Chunks(p, input)| then Some(Chunks(p, input)[maxChunks].start) else None
  {
    ghost var all := Chunks(p, input);
    NoChunksOfEmpty(p, input);
    FirstChunkAtZero(p, input);
    var chunks: seq<CdcChunk> := [];
    var start := 0;
    while start < |input| && |chunks| < maxChunks
      invariant |chunks| <= |all| && chunks == all[..|chunks|] && |chunks| <= maxChunks
      invariant start == ChunkStart(all, |input|, |chunks|) <= |input|
      invariant start < |input| <==> |chunks| < |all|
      decreases |input| - start
    {
      var end := FindCut(p, input, start);
      NextChunk(p, input, |chunks|);
      TakeNext(all, |chunks|);
      chunks := chunks + [CdcChunk(start, end, p.digest(input[start..end]))];
      start := end;
    }
    r := BoundedChunks(chunks, if start < |input| then Some(start) else None);
  }

  lemma TakeNext(all: seq<CdcChunk>, k: nat)
    requires k < |all|
    ensures all[..k + 1] == all[..k] + [all[k]]
  {
  }

  lemma FirstChunkAtZero<H>(p: Params<H>, input: Bytes)
    ensures ChunkStart(Chunks(p, input), |input|, 0) == 0
  {
    SpansWithin(p, input);
  }

  lemma NextChunk<H>(p: Params<H>, input: Bytes, k: nat)
    requires k < |Chunks(p, input)|
    ensures var all := Chunks(p, input); var start := all[k].start;
      && start < all[k].end == Cut(p, input, start) == ChunkStart(all, |input|, k + 1) <= |input|
      && all[k] == CdcChunk(start, all[k].end, p.digest(input[start..all[k].end]))
      && (all[k].end < |input| <==> k + 1 < |all|)
  {
    SpansWithin(p, input);
    var spans := Spans(p, input);
    assert TileAt(Cutter(p, input), spans, |input|, k);
    CutterApply(p, input, spans[k].start);
    if k + 1 < |spans| {
      assert TileAt(Cutter(p, input), spans, |input|, k + 1);
    }
  }

  // No input has more chunks than bytes, so this bound stands for the unbounded one.
  method ContentDefinedChunks<H(!new)>(p: Params<H>, input: Bytes) returns (chunks: seq<CdcChunk>)
    requires Lawful(p)
    ensures chunks == Chunks(p, input)
  {
    SpansWithin(p, input);
    StartsIncrease(Cutter(p, input), Spans(p, input), 0, |input|, 0, |Spans(p, input)|);
    var r := ContentDefinedChunksBounded(p, input, |input|);
    chunks := r.chunks;
  }

  ghost predicate Represents(m: map<string, nat>, s: multiset<string>) {
    forall d :: (if d in m then m[d] else 0) == s[d]
  }

  method CountDigests(cs: seq<CdcChunk>) returns (m: map<string, nat>)
    ensures Represents(m, Counts(cs))
  {
    m := map[];
    for i := 0 to |cs|
      invariant Represents(m, Counts(cs[..i]))
    {
      m := CountOne(cs, i, m);
    }
    assert cs[..|cs|] == cs;
  }

  method CountOne(cs: seq<CdcChunk>, i: nat, m0: map<string, nat>) returns (m: map<string, nat>)
    requires i < |cs| && Represents(m0, Counts(cs[..i]))
    ensures Represents(m, Counts(cs[..i + 1]))
  {
    var d := cs[i].digest;
    CountsPush(cs[..i], cs[i]);
    assert cs[..i + 1] == cs[..i] + [cs[i]];
    m := m0[d := (if d in m0 then m0[d] else 0) + 1];
  }

  lemma CountsPush(cs: seq<CdcChunk>, c: CdcChunk)
    ensures Counts(cs + [c]) == Counts(cs) + multiset{c.digest}
  {
    CountsConcat(cs, [c]);
    assert [c] + [] == [c];
    CountsCons(c, []);
  }

  method TakeUnmatched(old_: seq<CdcChunk>, available0: map<string, nat>, ghost left0: multiset<string>)
    returns (r: seq<CdcChunk>)
    requires Represents(available0, left0)
    ensures r == Unmatched(old_, left0)
  {
    var available := available0;
    ghost var left := left0;
    r := [];
    for i := 0 to |old_|
      invariant Represents(available, left)
      invariant r + Unmatched(old_[i..], left) == Unmatched(old_, left0)
    {
      var d := old_[i].digest;
      assert old_[i..][0] == old_[i] && old_[i..][1..] == old_[i + 1..];
      if d !in available || available[d] == 0 {
        r := r + [old_[i]];
      } else {
        available := available[d := available[d] - 1];
        left := left - multiset{d};
      }
    }
  }

  method ChunkInvalidations<H(!new)>(p: Params<H>, before: Bytes, after: Bytes) returns (r: seq<CdcChunk>)
    requires Lawful(p)
    ensures r == Invalidations(p, before, after)
  {
    var old_ := ContentDefinedChunks(p, before);
    var new_ := ContentDefinedChunks(p, after);
    var available := CountDigests(new_);
    r := TakeUnmatched(old_, available, Counts(new_));
  }

  // ----- text ---------------------------------------------------------------------------------

  predicate IsContinuation(b: bv8) {
    b & 0xC0 == 0x80
  }

  /** A position between two characters of UTF-8 text. */
  predicate IsCharBoundary(text: Bytes, i: nat) {
    i == 0 || i == |text| || (i < |text| && !IsContinuation(text[i]))
  }

  function Concat(pieces: seq<Bytes>): Bytes {
    if pieces == [] then [] else Concat(pieces[..|pieces| - 1]) + pieces[|pieces| - 1]
  }

  lemma ConcatPush(pieces: seq<Bytes>, piece: Bytes)
    ensures Concat(pieces + [piece]) == Concat(pieces) + piece
  {
    assert (pieces + [piece])[..|pieces|] == pieces;
  }

  /** `end` is the first character boundary at or after `from`. */
  ghost predicate IsAligned(text: Bytes, from: nat, end: nat) {
    from <= end <= |text| && IsCharBoundary(text, end) && forall i :: from <= i < end ==> !IsCharBoundary(text, i)
  }

  method NextBoundary(text: Bytes, from: nat) returns (end: nat)
    requires from <= |text|
    ensures IsAligned(text, from, end)
  {
    end := from;
    while end < |text| && !IsCharBoundary(text, end)
      invariant from <= end <= |text| && forall i :: from <= i < end ==> !IsCharBoundary(text, i)
    {
      end := end + 1;
    }
  }

  method PreviousBoundary(text: Bytes, start: nat, from: nat) returns (end: nat)
    requires from <= |text| && IsCharBoundary(text, start)
    ensures end <= from && (start <= from ==> start <= end && IsCharBoundary(text, end))
    ensures from < start ==> end == from
    ensures forall i :: end < i <= from ==> !IsCharBoundary(text, i)
  {
    end := from;
    while end > start && !IsCharBoundary(text, end)
      invariant end <= from && (start <= from ==> start <= end) && (from < start ==> end == from)
      invariant forall i :: end < i <= from ==> !IsCharBoundary(text, i)
    {
      end := end - 1;
    }
  }

  /** The pieces lie between consecutive ends, from the start of the text. */
  ghost predicate ArePieces(text: Bytes, ends: seq<nat>, out: seq<Bytes>) {
    |out| == |ends| && forall i: nat {:trigger PieceAt(text, ends, out, i)} :: i < |ends| ==>
      PieceAt(text, ends, out, i)
  }

  ghost predicate PieceAt(text: Bytes, ends: seq<nat>, out: seq<Bytes>, i: nat)
    requires i < |ends| && |out| == |ends|
  {
    PieceStart(ends, i) < ends[i] <= |text| && out[i] == text[PieceStart(ends, i)..ends[i]]
  }

  lemma PushPiece(text: Bytes, ends: seq<nat>, out: seq<Bytes>, start: nat, e: nat)
    requires ArePieces(text, ends, out) && start == PieceStart(ends, |ends|) && start < e <= |text|
    ensures ArePieces(text, ends + [e], out + [text[start..e]])
  {
    forall i: nat | i <= |ends| ensures PieceAt(text, ends + [e], out + [text[start..e]], i) {
      if i < |ends| {
        assert PieceAt(text, ends, out, i);
      }
    }
  }

  lemma PopPiece(text: Bytes, ends: seq<nat>, out: seq<Bytes>, n: nat)
    requires ArePieces(text, ends, out) && n <= |ends|
    ensures ArePieces(text, ends[..n], out[..n]) && PieceStart(ends[..n], n) == PieceStart(ends, n)
  {
    forall i: nat | i < n ensures PieceAt(text, ends[..n], out[..n], i) {
      assert PieceAt(text, ends, out, i);
    }
  }

  ghost function PieceStart(ends: seq<nat>, i: nat): nat
    requires i <= |ends|
  {
    if i == 0 then 0 else ends[i - 1]
  }

  /** Some end is the place where this chunk's end is moved to. */
  ghost predicate HasEndFor(text: Bytes, ends: seq<nat>, chunk: CdcChunk) {
    exists e :: e in ends && IsAligned(text, chunk.end, e)
  }

  ghost predicate EndsSomeChunk(text: Bytes, chunks: seq<CdcChunk>, e: nat) {
    exists c :: c in chunks && IsAligned(text, c.end, e)
  }

  /** Ends and chunks match: every chunk has its end, and every end belongs to a chunk. */
  ghost predicate EndsMatch(text: Bytes, chunks: seq<CdcChunk>, ends: seq<nat>) {
    && (forall c {:trigger HasEndFor(text, ends, c)} :: c in chunks ==> HasEndFor(text, ends, c))
    && (forall e {:trigger EndsSomeChunk(text, chunks, e)} :: e in ends ==> EndsSomeChunk(text, chunks, e))
  }

  lemma NextEnd(text: Bytes, chunks: seq<CdcChunk>, ends: seq<nat>, next: CdcChunk, e: nat)
    requires EndsMatch(text, chunks, ends) && IsAligned(text, next.end, e)
    ensures EndsMatch(text, chunks + [next], ends + [e])
    ensures e in ends ==> EndsMatch(text, chunks + [next], ends)
  {
    forall c | c in chunks + [next] ensures HasEndFor(text, ends + [e], c) && (e in ends ==> HasEndFor(text, ends, c)) {
      if c in chunks {
        assert HasEndFor(text, ends, c);
        var x: nat :| x in ends && IsAligned(text, c.end, x);
        assert x in ends + [e];
      } else {
        assert e in ends + [e];
      }
    }
    forall x | x in ends + [e] ensures EndsSomeChunk(text, chunks + [next], x) {
      if x in ends {
        assert EndsSomeChunk(text, chunks, x);
        var c :| c in chunks && IsAligned(text, c.end, x);
        assert c in chunks + [next];
      } else {
        assert next in chunks + [next];
      }
    }
  }

  lemma AlignedOrder(text: Bytes, from: nat, later: nat, e: nat, f: nat)
    requires from <= later && IsAligned(text, from, e) && IsAligned(text, later, f)
    ensures e <= f
  {
  }

  /** Each chunk end moved forward to a character boundary; ends that coincide give one piece. */
  method CutForward(text: Bytes, chunks: seq<CdcChunk>) returns (out: seq<Bytes>, ghost ends: seq<nat>, start: nat)
    requires forall i :: 0 <= i < |chunks| ==> 0 < chunks[i].end <= |text|
    requires forall i, j :: 0 <= i < j < |chunks| ==> chunks[i].end < chunks[j].end
    ensures ArePieces(text, ends, out) && EndsMatch(text, chunks, ends)
    ensures start == PieceStart(ends, |ends|) && IsCharBoundary(text, start)
  {
    out, ends, start := [], [], 0;
    for index := 0 to |chunks|
      invariant ArePieces(text, ends, out) && EndsMatch(text, chunks[..index], ends)
      invariant start == PieceStart(ends, |ends|) && IsCharBoundary(text, start)
      invariant index == 0 ==> ends == []
      invariant index > 0 ==> ends != [] && IsAligned(text, chunks[index - 1].end, start)
    {
      assert chunks[..index + 1] == chunks[..index] + [chunks[index]];
      var end := NextBoundary(text, chunks[index].end);
      NextEnd(text, chunks[..index], ends, chunks[index], end);
      if index > 0 {
        AlignedOrder(text, chunks[index - 1].end, chunks[index].end, start, end);
      }
      if end > start {
        PushPiece(text, ends, out, start, end);
        out := out + [text[start..end]];
        ends := ends + [end];
        start := end;
      } else {
        assert end == start && start in ends;
      }
    }
    assert chunks[..|chunks|] == chunks;
  }

  /** All chunks but a truncated last one are cut forward; that one is cut back to the last boundary
      within it, and may vanish. */
  method CutText(text: Bytes, chunks: seq<CdcChunk>, truncated: bool) returns (out: seq<Bytes>, ghost ends: seq<nat>)
    requires chunks != [] && forall i :: 0 <= i < |chunks| ==> 0 < chunks[i].end <= |text|
    requires forall i, j :: 0 <= i < j < |chunks| ==> chunks[i].end < chunks[j].end
    ensures ArePieces(text, ends, out)
    ensures !truncated ==> EndsMatch(text, chunks, ends)
    ensures truncated ==> EndsTruncated(text, chunks, ends)
  {
    var start;
    if !truncated {
      out, ends, start := CutForward(text, chunks);
      return;
    }
    var n := |chunks| - 1;
    out, ends, start := CutForward(text, chunks[..n]);
    ghost var before := ends;
    var end := PreviousBoundary(text, start, chunks[n].end);
    if end > start {
      PushPiece(text, ends, out, start, end);
      out := out + [text[start..end]];
      ends := ends + [end];
    }
    assert ends[..|before|] == before;
  }

  /** As `EndsMatch` for all but the last chunk; after that at most one more end, and no character
      boundary between the final end and the end of the last chunk. */
  ghost predicate EndsTruncated(text: Bytes, chunks: seq<CdcChunk>, ends: seq<nat>)
    requires chunks != []
  {
    && (exists n :: 0 <= n <= |ends| <= n + 1 && EndsMatch(text, chunks[..|chunks| - 1], ends[..n]))
    && IsCharBoundary(text, PieceStart(ends, |ends|))
    && forall i :: PieceStart(ends, |ends|) < i <= chunks[|chunks| - 1].end ==> !IsCharBoundary(text, i)
  }

  lemma {:induction false} PiecesJoin(text: Bytes, ends: seq<nat>, out: seq<Bytes>)
    requires ArePieces(text, ends, out)
    ensures PieceStart(ends, |ends|) <= |text| && Concat(out) == text[..PieceStart(ends, |ends|)]
    decreases |ends|
  {
    if ends != [] {
      var n := |ends| - 1;
      PopPiece(text, ends, out, n);
      PiecesJoin(text, ends[..n], out[..n]);
      ConcatPush(out[..n], out[n]);
      assert out == out[..n] + [out[n]];
      assert PieceAt(text, ends, out, n);
      assert text[..PieceStart(ends, n)] + text[PieceStart(ends, n)..ends[n]] == text[..ends[n]];
    }
  }

  /** The pieces of the text between chunk ends moved to character boundaries. They concatenate to all
      of the text, unless the number of chunks was bounded, and then to the text up to the last
      boundary before the first byte not processed. */
  method ContentDefinedTextChunks<H(!new)>(p: Params<H>, text: Bytes, maxChunks: nat)
    returns (out: seq<Bytes>, ghost ends: seq<nat>)
    requires Lawful(p)
    ensures ArePieces(text, ends, out) && PieceStart(ends, |ends|) <= |text|
    ensures Concat(out) == text[..PieceStart(ends, |ends|)]
    ensures maxChunks == 0 ==> out == []
    ensures |Chunks(p, text)| <= maxChunks ==> EndsMatch(text, Chunks(p, text), ends) && Concat(out) == text
    ensures 0 < maxChunks < |Chunks(p, text)| ==> EndsTruncated(text, Chunks(p, text)[..maxChunks], ends)
  {
    NoChunksOfEmpty(p, text);
    if text == [] || maxChunks == 0 {
      return [], [];
    }
    var raw := ContentDefinedChunksBounded(p, text, maxChunks);
    ChunkEndsAscend(p, text, |raw.chunks|);
    out, ends := CutText(text, raw.chunks, raw.truncatedAt.Some?);
    PiecesJoin(text, ends, out);
    if |Chunks(p, text)| <= maxChunks {
      assert raw.chunks == Chunks(p, text);
      LastEndCovers(p, text, ends, out);
    }
  }

  lemma {:induction false} EndBefore<H>(p: Params<H>, text: Bytes, i: nat, j: nat)
    requires i < j < |Chunks(p, text)|
    ensures Chunks(p, text)[i].end < Chunks(p, text)[j].end
    decreases j
  {
    ChunksTile(p, text, j - 1);
    ChunksTile(p, text, j);
    if i < j - 1 {
      EndBefore(p, text, i, j - 1);
    }
  }

  lemma ChunkEndsAscend<H>(p: Params<H>, text: Bytes, n: nat)
    requires n <= |Chunks(p, text)|
    ensures var cs := Chunks(p, text)[..n];
      && (forall i :: 0 <= i < n ==> 0 < cs[i].end <= |text|)
      && (forall i, j :: 0 <= i < j < n ==> cs[i].end < cs[j].end)
  {
    var cs := Chunks(p, text)[..n];
    forall i | 0 <= i < n ensures 0 < cs[i].end <= |text| {
      ChunksTile(p, text, i);
    }
    forall i, j | 0 <= i < j < n ensures cs[i].end < cs[j].end {
      EndBefore(p, text, i, j);
    }
  }

  lemma LastEndCovers<H>(p: Params<H>, text: Bytes, ends: seq<nat>, out: seq<Bytes>)
    requires text != [] && EndsMatch(text, Chunks(p, text), ends) && ArePieces(text, ends, out)
    ensures PieceStart(ends, |ends|) == |text|
  {
    NoChunksOfEmpty(p, text);
    var cs := Chunks(p, text);
    var last := cs[|cs| - 1];
    ChunksTile(p, text, |cs| - 1);
    assert HasEndFor(text, ends, last);
    var e: nat :| e in ends && IsAligned(text, last.end, e);
    var k :| 0 <= k < |ends| && ends[k] == e;
    EndsIncrease(text, ends, out, k, |ends| - 1);
    assert PieceAt(text, ends, out, |ends| - 1);
  }

  lemma {:induction false} EndsIncrease(text: Bytes, ends: seq<nat>, out: seq<Bytes>, k: nat, n: nat)
    requires k <= n < |ends| && ArePieces(text, ends, out)
    ensures ends[k] <= ends[n]
    decreases n
  {
    if k < n {
      EndsIncrease(text, ends, out, k, n - 1);
      assert PieceAt(text, ends, out, n);
    }
  }

  // ----- the program's own parameters ---------------------------------------------------------

  // SplitMix64 of the byte.
  function Gear(byte: bv8): bv64 {
    var z0: bv64 := byte as bv64 + 0x9e37_79b9_7f4a_7c15;
    var z1 := (z0 ^ (z0 >> 30)) * 0xbf58_476d_1ce4_e5b9;
    var z2 := (z1 ^ (z1 >> 27)) * 0x94d0_49bb_1331_11eb;
    z2 ^ (z2 >> 31)
  }

  function Rotl(x: bv64): bv64 {
    (x << 1) | (x >> 63)
  }

  function Xor(x: bv64, y: bv64): bv64 {
    x ^ y
  }

  predicate CutsEarly(h: bv64) {
    h & 0x0fff == 0
  }

  predicate CutsLate(h: bv64) {
    h & 0x03ff == 0
  }

  // Rotation by the full word length changes nothing; SHA-256 in hex is a parameter.
  function Sixtyfour(gear: bv8 -> bv64, digest: Bytes -> string): Params<bv64> {
    Params(0, Rotl, Xor, Rot64, gear, CutsEarly, CutsLate, digest)
  }

  /** The program's own table; the laws hold for any. */
  function ProgramParams(digest: Bytes -> string): Params<bv64> {
    Sixtyfour(Gear, digest)
  }

  function RotlBy(x: bv64, n: nat): bv64 {
    if n == 0 then x else Rotl(RotlBy(x, n - 1))
  }

  lemma {:induction false} RotlByAdd(x: bv64, m: nat, n: nat)
    ensures RotlBy(x, m + n) == RotlBy(RotlBy(x, m), n)
  {
    if n > 0 {
      RotlByAdd(x, m, n - 1);
    }
  }

  /** `f` is `n` single rotations. */
  ghost predicate IsRotation(n: nat, f: bv64 -> bv64) {
    forall x :: RotlBy(x, n) == f(x)
  }

  lemma Doubled(n: nat, f: bv64 -> bv64, g: bv64 -> bv64)
    requires IsRotation(n, f) && forall x :: f(f(x)) == g(x)
    ensures IsRotation(n + n, g)
  {
    forall x ensures RotlBy(x, n + n) == g(x) {
      RotlByAdd(x, n, n);
      assert RotlBy(RotlBy(x, n), n) == f(f(x));
    }
  }

  function Rot1(x: bv64): bv64 { (x << 1) | (x >> 63) }
  function Rot2(x: bv64): bv64 { (x << 2) | (x >> 62) }
  function Rot4(x: bv64): bv64 { (x << 4) | (x >> 60) }
  function Rot8(x: bv64): bv64 { (x << 8) | (x >> 56) }
  function Rot16(x: bv64): bv64 { (x << 16) | (x >> 48) }
  function Rot32(x: bv64): bv64 { (x << 32) | (x >> 32) }
  function Rot64(x: bv64): bv64 { x }

  lemma RotationOne(n: nat)
    requires n == 1
    ensures IsRotation(n, Rot1)
  {
    forall x ensures RotlBy(x, n) == Rot1(x) {
      assert RotlBy(x, n) == Rotl(RotlBy(x, n - 1));
    }
  }

  lemma Turn2(n: nat)
    requires n == 2
    ensures IsRotation(n, Rot2)
  {
    RotationOne(n / 2);
    forall x ensures Rot1(Rot1(x)) == Rot2(x) {
    }
    Doubled(n / 2, Rot1, Rot2);
  }

  lemma Turn4(n: nat)
    requires n == 4
    ensures IsRotation(n, Rot4)
  {
    Turn2(n / 2);
    forall x ensures Rot2(Rot2(x)) == Rot4(x) {
    }
    Doubled(n / 2, Rot2, Rot4);
  }

  lemma Turn8(n: nat)
    requires n == 8
    ensures IsRotation(n, Rot8)
  {
    Turn4(n / 2);
    forall x ensures Rot4(Rot4(x)) == Rot8(x) {
    }
    Doubled(n / 2, Rot4, Rot8);
  }

  lemma Turn16(n: nat)
    requires n == 16
    ensures IsRotation(n, Rot16)
  {
    Turn8(n / 2);
    forall x ensures Rot8(Rot8(x)) == Rot16(x) {
    }
    Doubled(n / 2, Rot8, Rot16);
  }

  lemma Turn32(n: nat)
    requires n == 32
    ensures IsRotation(n, Rot32)
  {
    Turn16(n / 2);
    forall x ensures Rot16(Rot16(x)) == Rot32(x) {
    }
    Doubled(n / 2, Rot16, Rot32);
  }

  lemma Turn64(n: nat)
    requires n == 64
    ensures IsRotation(n, Rot64)
  {
    Turn32(n / 2);
    forall x ensures Rot32(Rot32(x)) == Rot64(x) {
    }
    Doubled(n / 2, Rot32, Rot64);
  }

  lemma {:induction false} RotateIsRotl(gear: bv8 -> bv64, digest: Bytes -> string, x: bv64, n: nat)
    ensures RotateBy(Sixtyfour(gear, digest), x, n) == RotlBy(x, n)
  {
    if n > 0 {
      RotateIsRotl(gear, digest, x, n - 1);
    }
  }

  lemma RotlXor(x: bv64, y: bv64)
    ensures Rotl(x ^ y) == Rotl(x) ^ Rotl(y)
  {
  }

  lemma XorZero(x: bv64)
    ensures Xor(0, x) == x && Xor(x, 0) == x
  {
  }

  lemma XorCancels(x: bv64, y: bv64)
    ensures Xor(Xor(x, y), x) == y
  {
  }

  lemma XorAssociates(x: bv64, y: bv64, z: bv64)
    ensures Xor(Xor(x, y), z) == Xor(x, Xor(y, z))
  {
  }

  lemma XorLaws(x: bv64, y: bv64, z: bv64)
    ensures Xor(0, x) == x && Xor(x, 0) == x && Xor(Xor(x, y), x) == y && Xor(Xor(x, y), z) == Xor(x, Xor(y, z))
  {
    XorZero(x);
    XorCancels(x, y);
    XorAssociates(x, y, z);
  }

  lemma WindowTurn(gear: bv8 -> bv64, digest: Bytes -> string, x: bv64, n: nat)
    ensures RotatesWindow(Sixtyfour(gear, digest), x, n)
  {
    if n == HASH_WINDOW {
      Turn64(n);
      assert RotlBy(x, n) == Rot64(x);
      RotateIsRotl(gear, digest, x, n);
    }
  }

  lemma WordLaws(gear: bv8 -> bv64, digest: Bytes -> string, x: bv64, y: bv64, z: bv64)
    ensures LawsAt(Sixtyfour(gear, digest), x, y, z)
  {
    XorLaws(x, y, z);
    RotlXor(x, y);
    forall n: nat ensures RotatesWindow(Sixtyfour(gear, digest), x, n) {
      WindowTurn(gear, digest, x, n);
    }
  }

  /** The 64-bit word operations satisfy the laws, whatever the gear table and the digest. */
  lemma SixtyfourIsLawful(gear: bv8 -> bv64, digest: Bytes -> string)
    ensures Lawful(Sixtyfour(gear, digest))
  {
    forall x, y, z ensures LawsAt(Sixtyfour(gear, digest), x, y, z) {
      WordLaws(gear, digest, x, y, z);
    }
    assert Rotl(0) == 0;
  }

  lemma ProgramIsLawful(digest: Bytes -> string)
    ensures Lawful(ProgramParams(digest))
  {
    SixtyfourIsLawful(Gear, digest);
  }
}
