/** Journal deltas of fszero-store: the shortest replaced span between two images, and atomic
    integration of pages of deltas into a map of files. */
module JournalDeltas {
  import opened Wrappers

  type Bytes = seq<bv8>
  type Files = map<string, Bytes>

  // SHA-256 in hex; any function will do.
  type Digest = Bytes -> string

  const JOURNAL_DELTA_VERSION: nat := 1
  const I64_MAX: int := 0x7fff_ffff_ffff_ffff

  datatype JournalDeltaOp = Upsert | Remove

  datatype JournalByteRange = JournalByteRange(start: nat, beforeEnd: nat, afterEnd: nat)

  datatype JournalDelta = JournalDelta(
    version: nat,
    seqNo: int,
    op: JournalDeltaOp,
    path: string,
    beforeHash: string,
    afterHash: string,
    byteRange: JournalByteRange,
    replacement: Bytes)

  datatype DeltaError =
    | CursorOverflow
    | UnsupportedVersion
    | SequenceGap
    | SequenceOverflow
    | EmptyPath
    | BeforeHashMismatch
    | InvalidByteRange
    | AfterMismatch
    | MalformedRemove

  // ----- the changed span ---------------------------------------------------------------------

  function Min(a: nat, b: nat): nat {
    if a < b then a else b
  }

  /** The images agree on their first `s` and, not overlapping those, on their last `u` bytes. */
  ghost predicate IsSplit(before: Bytes, after: Bytes, s: nat, u: nat) {
    && s + u <= |before| && s + u <= |after|
    && before[..s] == after[..s]
    && before[|before| - u..] == after[|after| - u..]
  }

  /** A split that keeps as many bytes as possible, with the longest prefix. */
  ghost predicate IsBestSplit(before: Bytes, after: Bytes, s: nat, u: nat) {
    && IsSplit(before, after, s, u)
    && (forall s': nat, u': nat :: IsSplit(before, after, s', u') ==> s' + u' <= s + u && s' <= s)
  }

  function PrefixFrom(before: Bytes, after: Bytes, i: nat): (r: nat)
    requires i <= |before| && i <= |after|
    ensures i <= r <= |before| && r <= |after|
    decreases |before| - i
  {
    if i < |before| && i < |after| && before[i] == after[i] then PrefixFrom(before, after, i + 1) else i
  }

  function SuffixFrom(before: Bytes, after: Bytes, start: nat, i: nat): (r: nat)
    requires start + i <= |before| && start + i <= |after|
    ensures i <= r && start + r <= |before| && start + r <= |after|
    decreases |before| - i
  {
    if i < |before| - start && i < |after| - start && before[|before| - 1 - i] == after[|after| - 1 - i]
    then SuffixFrom(before, after, start, i + 1) else i
  }

  function ChangedSpan(before: Bytes, after: Bytes): (r: JournalByteRange)
    ensures r.start <= r.beforeEnd <= |before| && r.start <= r.afterEnd <= |after|
    ensures |before| - r.beforeEnd == |after| - r.afterEnd
  {
    var start := PrefixFrom(before, after, 0);
    var suffix := SuffixFrom(before, after, start, 0);
    JournalByteRange(start, |before| - suffix, |after| - suffix)
  }

  lemma {:induction false} PrefixIsLongest(before: Bytes, after: Bytes, i: nat)
    requires i <= |before| && i <= |after| && before[..i] == after[..i]
    ensures before[..PrefixFrom(before, after, i)] == after[..PrefixFrom(before, after, i)]
    ensures var r := PrefixFrom(before, after, i); r < |before| && r < |after| ==> before[r] != after[r]
    decreases |before| - i
  {
    if i < |before| && i < |after| && before[i] == after[i] {
      assert before[..i + 1] == before[..i] + [before[i]];
      assert after[..i + 1] == after[..i] + [after[i]];
      PrefixIsLongest(before, after, i + 1);
    }
  }

  lemma {:induction false} SuffixIsLongest(before: Bytes, after: Bytes, start: nat, i: nat)
    requires start + i <= |before| && start + i <= |after|
    requires before[|before| - i..] == after[|after| - i..]
    ensures var r := SuffixFrom(before, after, start, i);
      && before[|before| - r..] == after[|after| - r..]
      && (r < |before| - start && r < |after| - start ==> before[|before| - 1 - r] != after[|after| - 1 - r])
    decreases |before| - i
  {
    var b, a := |before| - 1 - i, |after| - 1 - i;
    if i < |before| - start && i < |after| - start && before[b] == after[a] {
      assert before[b..] == [before[b]] + before[b + 1..];
      assert after[a..] == [after[a]] + after[a + 1..];
      SuffixIsLongest(before, after, start, i + 1);
    }
  }

  lemma AgreeAtPrefix(before: Bytes, after: Bytes, s: nat, i: nat)
    requires s <= |before| && s <= |after| && before[..s] == after[..s] && i < s
    ensures before[i] == after[i]
  {
    assert before[i] == before[..s][i] && after[i] == after[..s][i];
  }

  lemma AgreeAtSuffix(before: Bytes, after: Bytes, u: nat, i: nat)
    requires u <= |before| && u <= |after| && before[|before| - u..] == after[|after| - u..] && i < u
    ensures before[|before| - 1 - i] == after[|after| - 1 - i]
  {
    assert before[|before| - 1 - i] == before[|before| - u..][u - 1 - i];
    assert after[|after| - 1 - i] == after[|after| - u..][u - 1 - i];
  }

  lemma PrefixBound(before: Bytes, after: Bytes, s: nat, start: nat)
    requires s <= |before| && s <= |after| && before[..s] == after[..s]
    requires start < |before| && start < |after| ==> before[start] != after[start]
    requires start <= |before| && start <= |after|
    ensures s <= start
  {
    if s > start {
      AgreeAtPrefix(before, after, s, start);
      assert false;
    }
  }

  lemma SuffixBound(before: Bytes, after: Bytes, start: nat, suffix: nat, s: nat, u: nat)
    requires IsSplit(before, after, s, u) && s <= start
    requires start + suffix <= |before| && start + suffix <= |after|
    requires suffix < |before| - start && suffix < |after| - start ==>
               before[|before| - 1 - suffix] != after[|after| - 1 - suffix]
    ensures s + u <= start + suffix
  {
    if s + u > start + suffix {
      AgreeAtSuffix(before, after, u, suffix);
      assert false;
    }
  }

  /** The changed span is the shortest one: no other split into a common prefix, a replaced middle
      and a common suffix keeps more bytes. */
  lemma ChangedSpanIsShortest(before: Bytes, after: Bytes)
    ensures var r := ChangedSpan(before, after); IsBestSplit(before, after, r.start, |before| - r.beforeEnd)
  {
    SpanIsSplit(before, after);
    var r := ChangedSpan(before, after);
    forall s: nat, u: nat | IsSplit(before, after, s, u)
      ensures s + u <= r.start + (|before| - r.beforeEnd) && s <= r.start
    {
      SpanBeats(before, after, s, u);
    }
  }

  lemma SpanIsSplit(before: Bytes, after: Bytes)
    ensures var r := ChangedSpan(before, after);
      before[..r.start] == after[..r.start] && before[r.beforeEnd..] == after[r.afterEnd..]
  {
    PrefixIsLongest(before, after, 0);
    SuffixIsLongest(before, after, PrefixFrom(before, after, 0), 0);
  }

  lemma SpanBeats(before: Bytes, after: Bytes, s: nat, u: nat)
    requires IsSplit(before, after, s, u)
    ensures var r := ChangedSpan(before, after); s + u <= r.start + (|before| - r.beforeEnd) && s <= r.start
  {
    var start := PrefixFrom(before, after, 0);
    var suffix := SuffixFrom(before, after, start, 0);
    PrefixIsLongest(before, after, 0);
    SuffixIsLongest(before, after, start, 0);
    PrefixBound(before, after, s, start);
    SuffixBound(before, after, start, suffix, s, u);
  }

  function Spliced(before: Bytes, range: JournalByteRange, replacement: Bytes): Bytes
    requires range.start <= range.beforeEnd <= |before|
  {
    before[..range.start] + replacement + before[range.beforeEnd..]
  }

  /** Replacing the changed span turns the old image into the new one. */
  lemma SpliceRestores(before: Bytes, after: Bytes)
    ensures var r := ChangedSpan(before, after); Spliced(before, r, after[r.start..r.afterEnd]) == after
  {
    SpanIsSplit(before, after);
    SplicePieces(before, after, ChangedSpan(before, after));
  }

  lemma SplicePieces(before: Bytes, after: Bytes, r: JournalByteRange)
    requires r.start <= r.beforeEnd <= |before| && r.start <= r.afterEnd <= |after|
    requires before[..r.start] == after[..r.start] && before[r.beforeEnd..] == after[r.afterEnd..]
    ensures Spliced(before, r, after[r.start..r.afterEnd]) == after
  {
    assert after == after[..r.start] + after[r.start..r.afterEnd] + after[r.afterEnd..];
  }

  method ComputeChangedSpan(before: Bytes, after: Bytes) returns (r: JournalByteRange)
    ensures r == ChangedSpan(before, after)
  {
    var shared := Min(|before|, |after|);
    var start := 0;
    while start < shared && before[start] == after[start]
      invariant start <= shared && PrefixFrom(before, after, start) == PrefixFrom(before, after, 0)
    {
      start := start + 1;
    }
    var suffix := 0;
    while suffix < |before| - start && suffix < |after| - start &&
          before[|before| - 1 - suffix] == after[|after| - 1 - suffix]
      invariant start + suffix <= |before| && start + suffix <= |after|
      invariant SuffixFrom(before, after, start, suffix) == SuffixFrom(before, after, start, 0)
    {
      suffix := suffix + 1;
    }
    r := JournalByteRange(start, |before| - suffix, |after| - suffix);
  }

  // ----- making deltas ------------------------------------------------------------------------

  function UpsertDelta(h: Digest, seqNo: int, path: string, before: Bytes, after: Bytes): JournalDelta {
    var range := ChangedSpan(before, after);
    JournalDelta(JOURNAL_DELTA_VERSION, seqNo, Upsert, path, h(before), h(after), range,
      after[range.start..range.afterEnd])
  }

  function RemoveDelta(h: Digest, seqNo: int, path: string, before: Bytes): JournalDelta {
    JournalDelta(JOURNAL_DELTA_VERSION, seqNo, Remove, path, h(before), h([]), JournalByteRange(0, |before|, 0), [])
  }

  // ----- integrating deltas -------------------------------------------------------------------

  function Content(files: Files, path: string): Bytes {
    if path in files then files[path] else []
  }

  /** An upsert on the bytes it finds: the range must fit, the splice must hash to what was recorded
      and the range must be the changed span. */
  function UpsertStep(h: Digest, files: Files, d: JournalDelta, before: Bytes): Result<Files, DeltaError> {
    var r := d.byteRange;
    if r.start > r.beforeEnd || r.beforeEnd > |before| || r.afterEnd < r.start ||
      r.afterEnd - r.start != |d.replacement|
    then Err(InvalidByteRange)
    else
      var after := Spliced(before, r, d.replacement);
      if h(after) != d.afterHash || ChangedSpan(before, after) != r then Err(AfterMismatch)
      else Ok(files[d.path := after])
  }

  /** One delta on a staged map; `seqNo` is the sequence number expected. */
  function Step(h: Digest, files: Files, seqNo: int, d: JournalDelta): Result<Files, DeltaError> {
    if d.version != JOURNAL_DELTA_VERSION then Err(UnsupportedVersion)
    else if d.seqNo != seqNo then Err(SequenceGap)
    else if seqNo >= I64_MAX then Err(SequenceOverflow)
    else if d.path == "" then Err(EmptyPath)
    else
      var before := Content(files, d.path);
      if h(before) != d.beforeHash then Err(BeforeHashMismatch)
      else
        match d.op
        case Upsert => UpsertStep(h, files, d, before)
        case Remove =>
          if d.replacement != [] || d.afterHash != h([]) || d.byteRange != JournalByteRange(0, |before|, 0)
          then Err(MalformedRemove)
          else Ok(files - {d.path})
  }

  type Stepper = (Files, int, JournalDelta) -> Result<Files, DeltaError>

  function Fold(step: Stepper, files: Files, seqNo: int, deltas: seq<JournalDelta>): Result<Files, DeltaError>
    decreases |deltas|
  {
    if deltas == [] then Ok(files)
    else match step(files, seqNo, deltas[0])
      case Ok(next) => Fold(step, next, seqNo + 1, deltas[1..])
      case Err(e) => Err(e)
  }

  function StepWith(h: Digest): Stepper {
    (files, seqNo, d) => Step(h, files, seqNo, d)
  }

  function IntegrateWith(step: Stepper, files: Files, afterSeq: int,
                         deltas: seq<JournalDelta>): Result<Files, DeltaError> {
    if afterSeq >= I64_MAX then Err(CursorOverflow) else Fold(step, files, afterSeq + 1, deltas)
  }

  function Integrate(h: Digest, files: Files, afterSeq: int, deltas: seq<JournalDelta>): Result<Files, DeltaError> {
    IntegrateWith(StepWith(h), files, afterSeq, deltas)
  }

  /** An upsert is accepted exactly when it is the delta that would be made from the current bytes
      and the bytes it produces. */
  lemma UpsertAcceptedIffMade(h: Digest, files: Files, seqNo: int, d: JournalDelta, after: Bytes)
    requires d.op.Upsert?
    ensures Step(h, files, seqNo, d) == Ok(files[d.path := after]) <==>
            d.path != "" && seqNo < I64_MAX && d == UpsertDelta(h, seqNo, d.path, Content(files, d.path), after)
  {
    UpsertStepIff(h, files, d, Content(files, d.path), after);
  }

  lemma UpsertStepIff(h: Digest, files: Files, d: JournalDelta, before: Bytes, after: Bytes)
    ensures var r := ChangedSpan(before, after);
            UpsertStep(h, files, d, before) == Ok(files[d.path := after]) <==>
            d.byteRange == r && d.replacement == after[r.start..r.afterEnd] && d.afterHash == h(after)
  {
    var r := d.byteRange;
    if UpsertStep(h, files, d, before) == Ok(files[d.path := after]) {
      assert after == files[d.path := after][d.path];
      SpliceHolds(before, r, d.replacement);
    }
    SpliceRestores(before, after);
  }

  lemma SpliceHolds(before: Bytes, r: JournalByteRange, replacement: Bytes)
    requires r.start <= r.beforeEnd <= |before| && r.start <= r.afterEnd && r.afterEnd - r.start == |replacement|
    ensures Spliced(before, r, replacement)[r.start..r.afterEnd] == replacement
  {
  }

  lemma RemoveAcceptedIffMade(h: Digest, files: Files, seqNo: int, d: JournalDelta)
    requires d.op.Remove?
    ensures Step(h, files, seqNo, d).Ok? <==>
            d.path != "" && seqNo < I64_MAX && d == RemoveDelta(h, seqNo, d.path, Content(files, d.path))
  {
  }

  // ----- replaying edits ----------------------------------------------------------------------

  datatype Edit = Write(path: string, bytes: Bytes) | Delete(path: string)

  function Edited(files: Files, e: Edit): Files {
    match e
    case Write(path, bytes) => files[path := bytes]
    case Delete(path) => files - {path}
  }

  function EditedAll(files: Files, edits: seq<Edit>): Files
    decreases |edits|
  {
    if edits == [] then files else EditedAll(Edited(files, edits[0]), edits[1..])
  }

  function DeltaOf(h: Digest, files: Files, seqNo: int, e: Edit): JournalDelta {
    match e
    case Write(path, bytes) => UpsertDelta(h, seqNo, path, Content(files, path), bytes)
    case Delete(path) => RemoveDelta(h, seqNo, path, Content(files, path))
  }

  /** The journal of a sequence of edits. */
  function Journal(h: Digest, files: Files, seqNo: int, edits: seq<Edit>): seq<JournalDelta>
    decreases |edits|
  {
    if edits == [] then []
    else [DeltaOf(h, files, seqNo, edits[0])] + Journal(h, Edited(files, edits[0]), seqNo + 1, edits[1..])
  }

  lemma StepReplays(h: Digest, files: Files, seqNo: int, e: Edit)
    ensures Step(h, files, seqNo, DeltaOf(h, files, seqNo, e)).Ok? <==> e.path != "" && seqNo < I64_MAX
    ensures e.path != "" && seqNo < I64_MAX ==>
              Step(h, files, seqNo, DeltaOf(h, files, seqNo, e)) == Ok(Edited(files, e))
  {
    if e.Write? {
      UpsertAcceptedIffMade(h, files, seqNo, DeltaOf(h, files, seqNo, e), e.bytes);
    }
  }

  /** The stepper accepts the delta of an edit exactly when it may, and then performs the edit. */
  ghost predicate ReplaysAt(step: Stepper, h: Digest, files: Files, seqNo: int, e: Edit) {
    step(files, seqNo, DeltaOf(h, files, seqNo, e)).Ok? == (e.path != "" && seqNo < I64_MAX) &&
    (e.path != "" && seqNo < I64_MAX ==> step(files, seqNo, DeltaOf(h, files, seqNo, e)) == Ok(Edited(files, e)))
  }

  ghost predicate Replays(step: Stepper, h: Digest) {
    forall files, seqNo, e {:trigger ReplaysAt(step, h, files, seqNo, e)} :: ReplaysAt(step, h, files, seqNo, e)
  }

  ghost predicate Replayable(edits: seq<Edit>, seqNo: int) {
    && (forall i :: 0 <= i < |edits| ==> edits[i].path != "")
    && (edits == [] || seqNo + |edits| <= I64_MAX)
  }

  lemma ReplayableRest(edits: seq<Edit>, seqNo: int)
    requires edits != []
    ensures Replayable(edits, seqNo) <==>
            edits[0].path != "" && seqNo < I64_MAX && Replayable(edits[1..], seqNo + 1)
  {
    assert forall i :: 0 < i < |edits| ==> edits[i] == edits[1..][i - 1];
  }

  lemma {:induction false} FoldReplays(step: Stepper, h: Digest, files: Files, seqNo: int, edits: seq<Edit>)
    requires Replays(step, h)
    ensures var r := Fold(step, files, seqNo, Journal(h, files, seqNo, edits));
      (r.Ok? <==> Replayable(edits, seqNo)) && (r.Ok? ==> r.value == EditedAll(files, edits))
    decreases |edits|
  {
    if edits != [] {
      assert ReplaysAt(step, h, files, seqNo, edits[0]);
      ReplayableRest(edits, seqNo);
      var next := Edited(files, edits[0]);
      FoldReplays(step, h, next, seqNo + 1, edits[1..]);
      var d, rest := DeltaOf(h, files, seqNo, edits[0]), Journal(h, next, seqNo + 1, edits[1..]);
      assert ([d] + rest)[1..] == rest;
    }
  }

  lemma StepWithReplays(h: Digest)
    ensures Replays(StepWith(h), h)
  {
    forall files, seqNo, e ensures ReplaysAt(StepWith(h), h, files, seqNo, e) {
      StepReplays(h, files, seqNo, e);
    }
  }

  /** The journal of any sequence of edits, integrated into the starting map, gives exactly the
      directly edited map; it is refused only for an empty path or a sequence number overflow. */
  lemma JournalReplays(h: Digest, files: Files, afterSeq: int, edits: seq<Edit>)
    ensures var r := Integrate(h, files, afterSeq, Journal(h, files, afterSeq + 1, edits));
      && (r.Ok? <==> (forall i :: 0 <= i < |edits| ==> edits[i].path != "") && afterSeq + 1 + |edits| <= I64_MAX)
      && (r.Ok? ==> r.value == EditedAll(files, edits))
  {
    StepWithReplays(h);
    FoldReplays(StepWith(h), h, files, afterSeq + 1, edits);
  }

  // ----- pages --------------------------------------------------------------------------------

  lemma {:induction false} FoldConcat(step: Stepper, files: Files, seqNo: int, a: seq<JournalDelta>,
                                      b: seq<JournalDelta>)
    ensures Fold(step, files, seqNo, a + b) ==
            match Fold(step, files, seqNo, a)
            case Ok(mid) => Fold(step, mid, seqNo + |a|, b)
            case Err(e) => Err(e)
    decreases |a|
  {
    if a == [] {
      assert a + b == b;
    } else {
      assert (a + b)[1..] == a[1..] + b;
      match step(files, seqNo, a[0]) {
        case Ok(next) => FoldConcat(step, next, seqNo + 1, a[1..], b);
        case Err(_) =>
      }
    }
  }

  ghost predicate RefusesOverflow(step: Stepper) {
    forall files, seqNo, d :: step(files, seqNo, d).Ok? ==> seqNo < I64_MAX
  }

  lemma {:induction false} FoldStaysInRange(step: Stepper, files: Files, seqNo: int, a: seq<JournalDelta>)
    requires RefusesOverflow(step) && seqNo <= I64_MAX && Fold(step, files, seqNo, a).Ok?
    ensures seqNo + |a| <= I64_MAX
    decreases |a|
  {
    if a != [] {
      FoldStaysInRange(step, step(files, seqNo, a[0]).value, seqNo + 1, a[1..]);
    }
  }

  lemma PagesComposeWith(step: Stepper, files: Files, afterSeq: int, a: seq<JournalDelta>, b: seq<JournalDelta>)
    requires RefusesOverflow(step)
    ensures IntegrateWith(step, files, afterSeq, a + b) ==
            match IntegrateWith(step, files, afterSeq, a)
            case Ok(mid) => IntegrateWith(step, mid, afterSeq + |a|, b)
            case Err(e) => Err(e)
  {
    if afterSeq < I64_MAX {
      FoldConcat(step, files, afterSeq + 1, a, b);
      if Fold(step, files, afterSeq + 1, a).Ok? {
        FoldStaysInRange(step, files, afterSeq + 1, a);
      }
    }
  }

  /** Integrating a page equals integrating its two halves in order. */
  lemma PagesCompose(h: Digest, files: Files, afterSeq: int, a: seq<JournalDelta>, b: seq<JournalDelta>)
    ensures Integrate(h, files, afterSeq, a + b) ==
            match Integrate(h, files, afterSeq, a)
            case Ok(mid) => Integrate(h, mid, afterSeq + |a|, b)
            case Err(e) => Err(e)
  {
    StepRefusesOverflow(h);
    PagesComposeWith(StepWith(h), files, afterSeq, a, b);
  }

  lemma StepRefusesOverflow(h: Digest)
    ensures RefusesOverflow(StepWith(h))
  {
  }

  method StageUpsert(h: Digest, staged: Files, d: JournalDelta, before: Bytes) returns (r: Result<Files, DeltaError>)
    ensures r == UpsertStep(h, staged, d, before)
  {
    var range := d.byteRange;
    if range.start > range.beforeEnd || range.beforeEnd > |before| || range.afterEnd < range.start ||
       range.afterEnd - range.start != |d.replacement| {
      return Err(InvalidByteRange);
    }
    var after := before[..range.start] + d.replacement + before[range.beforeEnd..];
    var span := ComputeChangedSpan(before, after);
    if h(after) != d.afterHash || span != range {
      return Err(AfterMismatch);
    }
    r := Ok(staged[d.path := after]);
  }

  method StageDelta(h: Digest, staged: Files, seqNo: int, d: JournalDelta) returns (r: Result<Files, DeltaError>)
    ensures r == Step(h, staged, seqNo, d)
  {
    if d.version != JOURNAL_DELTA_VERSION {
      return Err(UnsupportedVersion);
    }
    if d.seqNo != seqNo {
      return Err(SequenceGap);
    }
    if seqNo >= I64_MAX {
      return Err(SequenceOverflow);
    }
    if d.path == "" {
      return Err(EmptyPath);
    }
    var before := Content(staged, d.path);
    if h(before) != d.beforeHash {
      return Err(BeforeHashMismatch);
    }
    match d.op {
      case Upsert =>
        r := StageUpsert(h, staged, d, before);
      case Remove =>
        if d.replacement != [] || d.afterHash != h([]) || d.byteRange != JournalByteRange(0, |before|, 0) {
          return Err(MalformedRemove);
        }
        r := Ok(staged - {d.path});
    }
  }

  ghost predicate StepMatches(step: Stepper, h: Digest, files: Files, seqNo: int, d: JournalDelta) {
    step(files, seqNo, d) == Step(h, files, seqNo, d)
  }

  /** The whole page on a staged copy. */
  method StagePage(ghost step: Stepper, h: Digest, files: Files, afterSeq: int, deltas: seq<JournalDelta>)
    returns (r: Result<Files, DeltaError>)
    requires forall f, n, d {:trigger StepMatches(step, h, f, n, d)} :: StepMatches(step, h, f, n, d)
    ensures r == IntegrateWith(step, files, afterSeq, deltas)
  {
    if afterSeq >= I64_MAX {
      return Err(CursorOverflow);
    }
    var staged := files;
    for i := 0 to |deltas|
      invariant Fold(step, staged, afterSeq + 1 + i, deltas[i..]) == IntegrateWith(step, files, afterSeq, deltas)
    {
      assert deltas[i..][0] == deltas[i] && deltas[i..][1..] == deltas[i + 1..];
      var next := StageDelta(h, staged, afterSeq + 1 + i, deltas[i]);
      assert StepMatches(step, h, staged, afterSeq + 1 + i, deltas[i]);
      if next.Err? {
        return Err(next.error);
      }
      staged := next.value;
    }
    r := Ok(staged);
  }

  class LogicalState {
    var files: Files

    constructor (files: Files)
      ensures this.files == files
    {
      this.files := files;
    }

    /** All of the page or nothing: on any error the files are untouched. */
    method IntegrateJournalDeltas(h: Digest, afterSeq: int, deltas: seq<JournalDelta>) returns (r: Result<(),
                                                                                                DeltaError>)
      modifies this
      ensures r.Ok? ==> Integrate(h, old(files), afterSeq, deltas) == Ok(files)
      ensures r.Err? ==> Integrate(h, old(files), afterSeq, deltas) == Err(r.error) && files == old(files)
    {
      var staged := StagePage(StepWith(h), h, files, afterSeq, deltas);
      if staged.Err? {
        return Err(staged.error);
      }
      files := staged.value;
      r := Ok(());
    }
  }
}
