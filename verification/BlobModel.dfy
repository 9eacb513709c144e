/** The byte arena: extents cut first-fit out of 64 KiB slabs, with watermark checkpoints. */
module BlobModel {
  import opened Common

  const SLAB_BYTES: nat := 65536

  /** counts: bytes handed out per existing slab (slabs exist from index 0 up without gaps)
      mem:    the contents of those slabs
      marks:  watermarks of the open checkpoints */
  datatype Blobs = Blobs(numSlabs: nat, counts: seq<nat>, mem: seq<seq<Byte>>, marks: seq<SlabId>)

  /** An allocated stretch of bytes as its owner sees it. */
  datatype Extent = Extent(id: SlabId, data: seq<Byte>) {
    function End(): nat { id.offset + |data| }
  }

  /** A cast to uint16_t. */
  function Truncated(n: nat): nat { n % 65536 }

  /** A new slab starts empty, except that (0, 0) is reserved as the null id. */
  function Start(i: nat): nat { if i == 0 then 1 else 0 }

  function WithSlabsTo(counts: seq<nat>, n: nat): (r: seq<nat>)
    ensures |r| == if n > |counts| then n else |counts|
    ensures forall i | 0 <= i < |r| :: r[i] == if i < |counts| then counts[i] else Start(i)
  {
    counts + seq<nat>(if n > |counts| then n - |counts| else 0, i requires i >= 0 => Start(|counts| + i))
  }

  predicate Fits(s: Blobs, i: nat, len: nat) {
    i < s.numSlabs && (if i < |s.counts| then s.counts[i] else Start(i)) + len <= SLAB_BYTES
  }

  predicate FirstFitting(s: Blobs, i: nat, len: nat) {
    Fits(s, i, len) && forall j: nat | j < i :: !Fits(s, j, len)
  }

  ghost predicate Untouched(s: Blobs, t: Blobs, except: nat)
  {
    |s.mem| <= |t.mem| && forall i | 0 <= i < |s.mem| && i != except :: t.mem[i] == s.mem[i]
  }

  /** What one call of allocate does; the null id reports failure. */
  ghost predicate Allocates(s: Blobs, data: seq<Byte>, id: SlabId, t: Blobs) {
    t.numSlabs == s.numSlabs && t.marks == s.marks &&
    if |data| == 0 || |data| > SLAB_BYTES then id == NULL_ID && t == s
    else if exists i: nat :: FirstFitting(s, i, |data|) then
      && FirstFitting(s, id.slab, |data|)
      && var all := WithSlabsTo(s.counts, id.slab + 1);
      && id.offset == all[id.slab]
      && t.counts == all[id.slab := id.offset + |data|]
      && |t.mem| == |t.counts| && (forall i | 0 <= i < |t.mem| :: |t.mem[i]| == SLAB_BYTES)
      && Untouched(s, t, id.slab)
      && t.mem[id.slab][id.offset..id.offset + |data|] == data
      && (id.slab < |s.mem| && |s.mem[id.slab]| == SLAB_BYTES ==>
            && t.mem[id.slab][..id.offset] == s.mem[id.slab][..id.offset]
            && t.mem[id.slab][id.offset + |data|..] == s.mem[id.slab][id.offset + |data|..])
    else
      && id == NULL_ID
      && t.counts == WithSlabsTo(s.counts, s.numSlabs)
      && |t.mem| == |t.counts| && (forall i | 0 <= i < |t.mem| :: |t.mem[i]| == SLAB_BYTES)
      && Untouched(s, t, s.numSlabs)
  }

  function Watermark(s: Blobs): SlabId {
    if s.counts == [] then NULL_ID else SlabId(|s.counts| - 1, Truncated(s.counts[|s.counts| - 1]))
  }

  function Opened(s: Blobs): Blobs { s.(marks := s.marks + [Watermark(s)]) }

  datatype BlobCheckpoint = BlobCheckpoint(depth: nat, valid: bool, watermark: SlabId)

  predicate Accepts(s: Blobs, cp: BlobCheckpoint) {
    cp.valid && |s.marks| > 0 && cp.depth == |s.marks|
  }

  function CutAt(count: nat, i: nat, w: SlabId): nat {
    if i < w.slab then count else if i > w.slab then 0 else w.offset
  }

  function Cut(counts: seq<nat>, w: SlabId): seq<nat> {
    seq<nat>(|counts|, i requires 0 <= i < |counts| => CutAt(counts[i], i, w))
  }

  function RolledBack(s: Blobs, cp: BlobCheckpoint): Blobs {
    if Accepts(s, cp) then s.(marks := s.marks[..|s.marks| - 1], counts := Cut(s.counts, cp.watermark)) else s
  }

  function Committed(s: Blobs, cp: BlobCheckpoint): Blobs {
    if Accepts(s, cp) then s.(marks := s.marks[..|s.marks| - 1]) else s
  }

  // ------------------------------------------------------------------ invariant

  /** When a checkpoint can be undone safely: some slab exists and the last one is not exactly full. */
  predicate Sound(s: Blobs) { s.counts != [] && s.counts[|s.counts| - 1] < SLAB_BYTES }

  ghost predicate Shape(s: Blobs) {
    && |s.mem| == |s.counts| <= s.numSlabs
    && (forall i | 0 <= i < |s.counts| :: s.counts[i] <= SLAB_BYTES && |s.mem[i]| == SLAB_BYTES)
  }

  ghost predicate Inv(s: Blobs) {
    && Shape(s)
    && (s.counts != [] ==> s.counts[0] >= 1)
    && (forall k | 0 <= k < |s.marks| ::
          s.marks[k].slab < |s.counts| && s.marks[k].offset < SLAB_BYTES && (s.marks[k].slab == 0 ==> s.marks[k].offset >= 1))
  }

  datatype Op =
    | Alloc(data: seq<Byte>, id: SlabId)
    | Open
    | Commit(cp: BlobCheckpoint)
    | Rollback(cp: BlobCheckpoint)

  ghost predicate Step(s: Blobs, op: Op, t: Blobs) {
    true == match op
      case Alloc(data, id) => Allocates(s, data, id, t)
      case Open => t == Opened(s)
      case Commit(cp) => t == Committed(s, cp)
      case Rollback(cp) => t == RolledBack(s, cp)
  }

  /** What the callers owe: checkpoints are opened in sound states, and a rollback uses its own handle. */
  predicate Legal(s: Blobs, op: Op) {
    && (op.Open? ==> Sound(s))
    && (op.Rollback? && Accepts(s, op.cp) ==> op.cp.watermark == s.marks[|s.marks| - 1])
  }

  /** Extent `e` is intact: inside the bytes handed out of its slab, with its contents. */
  ghost predicate Holds(s: Blobs, e: Extent) {
    && |e.data| > 0 && e.id != NULL_ID && |s.mem| == |s.counts|
    && e.id.slab < |s.counts| && e.End() <= s.counts[e.id.slab] <= |s.mem[e.id.slab]|
    && s.mem[e.id.slab][e.id.offset..e.End()] == e.data
  }

  predicate Disjoint(e: Extent, f: Extent) {
    e.id.slab != f.id.slab || e.End() <= f.id.offset || f.End() <= e.id.offset
  }

  lemma AllocatesKeepsInv(s: Blobs, data: seq<Byte>, id: SlabId, t: Blobs)
    requires Inv(s) && Allocates(s, data, id, t)
    ensures Inv(t)
  {
  }

  lemma StepKeepsInv(s: Blobs, op: Op, t: Blobs)
    requires Inv(s) && Legal(s, op) && Step(s, op, t)
    ensures Inv(t)
  {
    match op
    case Alloc(data, id) => AllocatesKeepsInv(s, data, id, t);
    case Open =>
    case Commit(cp) =>
    case Rollback(cp) =>
  }

  /** A successful allocation holds its data, overlaps nothing allocated before, and moves nothing. */
  lemma AllocatesExtent(s: Blobs, data: seq<Byte>, id: SlabId, t: Blobs, e: Extent)
    requires Inv(s) && Allocates(s, data, id, t) && Holds(s, e)
    ensures Holds(t, e)
    ensures id != NULL_ID ==> Holds(t, Extent(id, data)) && Disjoint(e, Extent(id, data))
  {
    if id != NULL_ID {
      if e.id.slab == id.slab {
        assert t.mem[id.slab][..id.offset][e.id.offset..e.End()] == s.mem[id.slab][..id.offset][e.id.offset..e.End()];
      }
    }
  }

  /** allocate fails exactly when no slab, existing or new, has room. */
  lemma AllocatesFails(s: Blobs, data: seq<Byte>, id: SlabId, t: Blobs)
    requires Inv(s) && Allocates(s, data, id, t)
    ensures id == NULL_ID <==> |data| == 0 || |data| > SLAB_BYTES || forall i: nat :: !Fits(s, i, |data|)
  {
    if i: nat :| Fits(s, i, |data|) { LeastFit(s, i, |data|); }
  }

  lemma LeastFit(s: Blobs, i: nat, len: nat)
    requires Fits(s, i, len)
    ensures exists j: nat :: FirstFitting(s, j, len)
  {
    if !FirstFitting(s, i, len) {
      var j: nat :| j < i && Fits(s, j, len);
      LeastFit(s, j, len);
    }
  }

  // ------------------------------------------------------------------ runs

  ghost predicate Run(ss: seq<Blobs>, ops: seq<Op>) {
    true == (|ss| == |ops| + 1 && Inv(ss[0])
      && forall i | 0 <= i < |ops| :: Legal(ss[i], ops[i]) && Step(ss[i], ops[i], ss[i + 1]))
  }

  lemma RunLength(ss: seq<Blobs>, ops: seq<Op>)
    requires Run(ss, ops)
    ensures |ss| == |ops| + 1
  {
  }

  lemma {:induction false} RunStep(ss: seq<Blobs>, ops: seq<Op>, n: nat)
    requires Run(ss, ops) && n < |ops|
    ensures Inv(ss[n]) && Inv(ss[n + 1]) && Legal(ss[n], ops[n]) && Step(ss[n], ops[n], ss[n + 1])
  {
    if n > 0 { RunStep(ss, ops, n - 1); }
    StepKeepsInv(ss[n], ops[n], ss[n + 1]);
  }

  /** Every level from k up has its watermark at or above the end of `e`. */
  ghost predicate Shielded(s: Blobs, e: Extent, k: nat) {
    forall j | k <= j < |s.marks| ::
      e.id.slab < s.marks[j].slab || (e.id.slab == s.marks[j].slab && e.End() <= s.marks[j].offset)
  }

  lemma ShieldStep(s: Blobs, op: Op, t: Blobs, e: Extent, k: nat)
    requires Inv(s) && Legal(s, op) && Step(s, op, t)
    requires Holds(s, e) && Shielded(s, e, k) && |t.marks| >= k
    ensures Holds(t, e) && Shielded(t, e, k)
  {
    match op
    case Alloc(data, id) => AllocatesExtent(s, data, id, t, e);
    case Open =>
    case Commit(cp) =>
    case Rollback(cp) =>
  }

  lemma {:induction false} ShieldedRun(ss: seq<Blobs>, ops: seq<Op>, i: nat, j: nat, e: Extent)
    requires Run(ss, ops) && i <= j <= |ops|
    requires Holds(ss[i], e)
    requires forall m | i <= m <= j :: |ss[m].marks| >= |ss[i].marks|
    ensures Holds(ss[j], e) && Shielded(ss[j], e, |ss[i].marks|)
    decreases j
  {
    hide Run, Step, Legal, Inv, Holds;
    RunLength(ss, ops);
    if j > i {
      RunStep(ss, ops, j - 1);
      ShieldedRun(ss, ops, i, j - 1, e);
      ShieldStep(ss[j - 1], ops[j - 1], ss[j], e, |ss[i].marks|);
    }
  }

  /** An extent allocated before a checkpoint survives everything done under it and the rollback itself,
      whatever is nested inside, and every extent allocated in the meantime or later is disjoint from it. */
  lemma ExtentSurvives(ss: seq<Blobs>, ops: seq<Op>, i: nat, j: nat, e: Extent)
    requires Run(ss, ops) && i <= j < |ops|
    requires Holds(ss[i], e)
    requires forall m | i <= m <= j + 1 :: |ss[m].marks| >= |ss[i].marks|
    ensures Holds(ss[j + 1], e)
    ensures ops[j].Alloc? && ops[j].id != NULL_ID ==>
      var f := Extent(ops[j].id, ops[j].data); Holds(ss[j + 1], f) && Disjoint(e, f)
  {
    ShieldedRun(ss, ops, i, j, e);
    ShieldedRun(ss, ops, i, j + 1, e);
    RunStep(ss, ops, j);
    hide Run, Allocates;
    if ops[j].Alloc? { AllocatesExtent(ss[j], ops[j].data, ops[j].id, ss[j + 1], e); }
  }

  // ------------------------------------------------------------------ where it fails

  /** Rolling straight back restores the counters exactly when the last slab was not full: 65536 does not
      fit the 16-bit watermark. */
  lemma FullSlabTruncates(s: Blobs)
    requires Inv(s)
    ensures var t := Opened(s); var cp := BlobCheckpoint(|t.marks|, true, Watermark(s));
      RolledBack(t, cp) == s <==> s.counts == [] || Sound(s)
  {
    var t := Opened(s);
    var r := RolledBack(t, BlobCheckpoint(|t.marks|, true, Watermark(s)));
    assert r.marks == s.marks;
    if s.counts != [] {
      var n := |s.counts| - 1;
      assert r.counts[n] == Truncated(s.counts[n]);
      if Sound(s) { assert r.counts == s.counts; }
    } else {
      assert r.counts == s.counts;
    }
  }

  /** With the last slab exactly full, an extent living there is lost by an immediate rollback. */
  lemma FullSlabLosesExtent(s: Blobs, e: Extent)
    requires Inv(s) && s.counts != [] && !Sound(s) && Holds(s, e) && e.id.slab == |s.counts| - 1
    ensures var t := Opened(s); !Holds(RolledBack(t, BlobCheckpoint(|t.marks|, true, Watermark(s))), e)
  {
  }

  /** A checkpoint taken before any slab exists gives up the null id: after the rollback the first byte
      allocated gets the id (0, 0), which means failure. */
  lemma EmptyCheckpointLosesNull(n: nat, d: Byte) returns (t: Blobs, w: Blobs, u: Blobs)
    requires n > 0
    ensures Allocates(Opened(Blobs(n, [], [], [])), [d], SlabId(0, 1), t)
    ensures w == RolledBack(t, BlobCheckpoint(1, true, NULL_ID))
    ensures Allocates(w, [d], NULL_ID, u) && u.counts == [1] && u.mem[0][0] == d
  {
    var page := seq(SLAB_BYTES, _ => d);
    var s := Opened(Blobs(n, [], [], []));
    t := s.(counts := [2], mem := [page]);
    assert Fits(s, 0, 1) && FirstFitting(s, 0, 1);
    assert page[1..2] == [d];
    w := RolledBack(t, BlobCheckpoint(1, true, NULL_ID));
    assert w.counts == [0] && WithSlabsTo(w.counts, 1) == [0];
    u := w.(counts := [1]);
    assert FirstFitting(w, 0, 1);
    assert page[0..1] == [d];
  }

  /** The null id stays reserved exactly when no slab has ever been created, or one existed at the checkpoint and was
      not slab 0 alone and exactly full, whose watermark reads like that of no slab at all. */
  lemma NullStaysReserved(s: Blobs, t: Blobs)
    requires Inv(s)
    requires t.marks == Opened(s).marks && |s.counts| <= |t.counts| && (t.counts != [] ==> t.counts[0] >= 1)
    ensures var r := RolledBack(t, BlobCheckpoint(|t.marks|, true, Watermark(s)));
      (r.counts != [] ==> r.counts[0] >= 1) <==> t.counts == [] || (s.counts != [] && s.counts != [SLAB_BYTES])
  {
    if s.counts != [] {
      var n := |s.counts| - 1;
      assert n == 0 ==> s.counts == [s.counts[0]];
    }
  }

  /** Five legal steps show it: two slabs, a checkpoint, a byte that fits into the first slab, and the rollback does not
      take the byte back. */
  lemma GrownSlabStays(n: nat, d: Byte) returns (ss: seq<Blobs>, ops: seq<Op>)
    requires n > 1
    ensures Run(ss, ops) && |ops| == 5 && ss[0] == Blobs(n, [], [], [])
    ensures ops[2] == Open && ops[4].Rollback? && Accepts(ss[4], ops[4].cp) && ss[5].marks == ss[2].marks
    ensures ss[2].counts == [2, SLAB_BYTES - 1] && ss[5].counts == [3, SLAB_BYTES - 1]
  {
    hide Allocates;
    var page := seq(SLAB_BYTES, _ => d);
    var most := page[..SLAB_BYTES - 1];
    var s0 := Blobs(n, [], [], []);
    var s1 := Blobs(n, [2], [page], []);
    var s2 := Blobs(n, [2, SLAB_BYTES - 1], [page, page], []);
    var s3 := Opened(s2);
    var s4 := s3.(counts := [3, SLAB_BYTES - 1]);
    var cp := BlobCheckpoint(1, true, Watermark(s2));
    var s5 := RolledBack(s4, cp);
    ops := [Alloc([d], SlabId(0, 1)), Alloc(most, SlabId(1, 0)), Open, Alloc([d], SlabId(0, 2)), Rollback(cp)];
    ss := [s0, s1, s2, s3, s4, s5];
    assert WithSlabsTo(s0.counts, 1) == [1] && [1][0 := 2] == [2];
    assert WithSlabsTo(s3.counts, 1) == s3.counts && s3.counts[0 := 3] == s4.counts;
    OneByte(s0, page, d);
    SecondSlab(s1, page);
    OneByte(s3, page, d);
    assert s5.counts == [3, SLAB_BYTES - 1];
  }

  /** The next byte of slab 0, whose page already reads d throughout. */
  lemma OneByte(s: Blobs, page: seq<Byte>, d: Byte)
    requires |page| == SLAB_BYTES && (forall i | 0 <= i < |page| :: page[i] == d) && s.numSlabs > 0
    requires |s.mem| == |s.counts| && (forall i | 0 <= i < |s.mem| :: s.mem[i] == page)
    requires s.counts != [] ==> s.counts[0] < SLAB_BYTES
    ensures var c := WithSlabsTo(s.counts, 1);
      Allocates(s, [d], SlabId(0, c[0]), s.(counts := c[0 := c[0] + 1], mem := if s.mem == [] then [page] else s.mem))
  {
    var c := WithSlabsTo(s.counts, 1);
    assert FirstFitting(s, 0, 1);
    assert page[c[0]..c[0] + 1] == [d];
    assert s.counts != [] ==> c == s.counts;
  }

  lemma SecondSlab(s: Blobs, page: seq<Byte>)
    requires |page| == SLAB_BYTES && s.numSlabs > 1 && s.counts == [2] && s.mem == [page]
    ensures Allocates(s, page[..SLAB_BYTES - 1], SlabId(1, 0),
      s.(counts := [2, SLAB_BYTES - 1], mem := [page, page]))
  {
    assert FirstFitting(s, 1, SLAB_BYTES - 1);
    assert WithSlabsTo(s.counts, 2) == [2, 0];
  }

  /** First fit also fills room below the watermark's slab, and rollback does not take that back: counters
      return to those of the checkpoint exactly when nothing below the watermark's slab has grown. */
  lemma RollbackCounts(s: Blobs, t: Blobs)
    requires Inv(s) && Sound(s) && Inv(t) && t.marks == Opened(s).marks
    requires |s.counts| <= |t.counts|
    ensures var w := Watermark(s); var r := RolledBack(t, BlobCheckpoint(|t.marks|, true, w));
      && (forall i | 0 <= i < |r.counts| :: r.counts[i] ==
            if i < w.slab then t.counts[i] else if i == w.slab then s.counts[i] else 0)
      && (r.counts[..|s.counts|] == s.counts <==> forall i | 0 <= i < w.slab :: t.counts[i] == s.counts[i])
  {
    var w := Watermark(s);
    var r := RolledBack(t, BlobCheckpoint(|t.marks|, true, w));
    assert forall i | 0 <= i < |s.counts| :: r.counts[..|s.counts|][i] == r.counts[i];
  }
}
