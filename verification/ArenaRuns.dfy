/** Statements over whole runs of the arena, with checkpoints nested to any depth. */
module ArenaRuns {
  import opened Common
  import opened ArenaModel
  import opened ArenaInvariant

  /** ops[i] takes ss[i] to ss[i + 1], every accepted rollback using the handle of its own checkpoint. */
  ghost predicate Run(ss: seq<State>, ops: seq<Op>) {
    true == (
      && |ss| == |ops| + 1
      && Inv(ss[0])
      && forall i | 0 <= i < |ops| ::
        && ss[i].cfg.slabSize > 0 && |ss[i].marks| == |ss[i].appendOnly| == ss[i].Depth()
        && Legal(ss[i], ops[i]) && Step(ss[i], ops[i], ss[i + 1]))
  }

  lemma RunLength(ss: seq<State>, ops: seq<Op>)
    requires Run(ss, ops)
    ensures |ss| == |ops| + 1
  {
  }

  lemma {:induction false} RunKeepsInv(ss: seq<State>, ops: seq<Op>, n: nat)
    requires Run(ss, ops) && n <= |ops|
    ensures Inv(ss[n]) && ss[n].cfg == ss[0].cfg
  {
    hide Inv, Step;
    if n > 0 {
      RunKeepsInv(ss, ops, n - 1);
      StepKeepsInv(ss[n - 1], ops[n - 1], ss[n]);
    }
  }

  lemma RunStep(ss: seq<State>, ops: seq<Op>, n: nat)
    requires Run(ss, ops) && n < |ops|
    ensures Inv(ss[n]) && Inv(ss[n + 1])
    ensures Legal(ss[n], ops[n]) && Step(ss[n], ops[n], ss[n + 1])
  {
    RunKeepsInv(ss, ops, n);
    RunKeepsInv(ss, ops, n + 1);
  }

  /** In every reachable state the slab counter covers the live slots, so an allocated slot is always inside
      the arena, was not live and was not quarantined, and a slab disappears only when nothing in it is live. */
  lemma ReachableSafety(ss: seq<State>, ops: seq<Op>, n: nat)
    requires Run(ss, ops) && n < |ops|
    ensures forall i | i in ss[n].count :: |LiveIn(ss[n].Live(), i)| <= ss[n].count[i]
    ensures !ss[n].cfg.strictEligible ==> forall i | i in ss[n].count :: |LiveIn(ss[n].Live(), i)| == ss[n].count[i]
    ensures ops[n].Alloc? && ops[n].slot.Some? ==>
      var x := ops[n].slot.value;
      InRange(ss[n].cfg, x) && x !in ss[n].Live() && x !in ss[n].quarantine && ss[n + 1].Live() == ss[n].Live() + {x}
    ensures forall i | i in ss[n].count && i !in ss[n + 1].count :: LiveIn(ss[n + 1].Live(), i) == {}
  {
    RunKeepsInv(ss, ops, n);
    RunKeepsInv(ss, ops, n + 1);
    assert Layout(ss[n]) && Layout(ss[n + 1]);
    if ops[n].Alloc? && ops[n].slot.Some? {
      AllocatedIsFree(ss[n], ops[n].slot.value, ss[n + 1]);
    }
  }

  // ------------------------------------------------------------------ what a rollback leaves

  /** Level k opened when exactly `base` was live: what is live now was live then or is in the log since, and
      what has been released since is quarantined. */
  ghost predicate Since(base: set<SlabId>, s: State, k: nat) {
    && k < s.Depth() && s.starts[k] <= |s.log|
    && s.Live() <= base + ToSet(s.log[s.starts[k]..])
    && base !! ToSet(s.log[s.starts[k]..])
    && base - s.Live() <= s.quarantine
  }

  lemma SinceOpenStep(s: State, t: State)
    requires Inv(s) && Step(s, Open, t)
    ensures Since(s.Live(), t, s.Depth()) && t.Live() == s.Live()
  {
    assert t.log[t.starts[s.Depth()]..] == [];
  }

  lemma SinceAllocated(base: set<SlabId>, s: State, k: nat, x: SlabId, t: State)
    requires Inv(s) && Since(base, s, k) && Allocates(s, Some(x), t)
    ensures Since(base, t, k)
  {
    AllocatedIsFree(s, x, t);
    hide Inv;
    assert t.log[t.starts[k]..] == s.log[s.starts[k]..] + [x];
    assert ToSet(s.log[s.starts[k]..] + [x]) == ToSet(s.log[s.starts[k]..]) + {x};
  }

  lemma SinceRolledBack(base: set<SlabId>, s: State, k: nat, cp: Checkpoint)
    requires Inv(s) && Since(base, s, k) && Accepts(s, cp) && cp.watermark == s.marks[s.Depth() - 1]
    requires k < s.Depth() - 1
    ensures Since(base, RolledBack(s, cp), k)
  {
    var n := s.Depth() - 1;
    var t := RolledBack(s, cp);
    var d := Undone(s, cp);
    UndoneEffect(s, cp);
    UndoneQuarantine(s, cp);
    SameStacks(s, cp);
    assert Stacks(s);
    var a, b := s.starts[k], s.starts[n];
    assert t == PopLevel(d.(log := d.log[..b]));
    hide Inv, Undone, RolledBack;
    assert s.log[a..] == t.log[a..] + s.log[b..];
    assert ToSet(s.log[a..]) == ToSet(t.log[a..]) + ToSet(s.log[b..]);
    forall x | x in base - t.Live() ensures x in t.quarantine {
      assert x !in ToSet(s.log[b..]);
    }
  }

  lemma SinceRefs(base: set<SlabId>, s: State, k: nat, x: SlabId)
    requires Since(base, s, k)
    ensures Since(base, Retained(s, x), k) && Retained(s, x).Live() == s.Live()
    ensures Since(base, Released(s, x), k) && Released(s, x).Live() <= s.Live()
  {
  }

  lemma SinceInnerOpen(base: set<SlabId>, s: State, k: nat)
    requires Since(base, s, k)
    ensures Since(base, Opened(s), k)
  {
    assert Opened(s).starts[k] == s.starts[k];
  }

  lemma SinceInnerCommit(base: set<SlabId>, s: State, k: nat, cp: Checkpoint)
    requires Inv(s) && Since(base, s, k) && Committed(s, cp).Depth() > k
    ensures Since(base, Committed(s, cp), k)
  {
  }

  lemma RolledBackShrinks(s: State, cp: Checkpoint)
    requires Inv(s) && Accepts(s, cp) && cp.watermark == s.marks[s.Depth() - 1]
    ensures RolledBack(s, cp).Live() <= s.Live() && RolledBack(s, cp).Depth() == s.Depth() - 1
  {
    UndoneEffect(s, cp);
    SameStacks(s, cp);
  }

  /** As long as level k stays open, what is live of `base` only shrinks and never comes back. */
  lemma SinceStep(base: set<SlabId>, s: State, k: nat, op: Op, t: State)
    requires Inv(s) && Legal(s, op) && Step(s, op, t)
    requires Since(base, s, k) && t.Depth() > k
    ensures Since(base, t, k)
    ensures base * t.Live() <= base * s.Live()
  {
    hide Inv, RolledBack, Released, Retained, Since;
    InvShape(s);
    match op
    case Alloc(Some(x)) =>
      SinceAllocated(base, s, k, x, t);
      AllocatedLive(base, s, k, x, t);
    case Alloc(None) => SinceRefused(base, s, k, t);
    case Retain(x) => SinceRefs(base, s, k, x);
    case Release(x) => SinceRefs(base, s, k, x);
    case Open => SinceInnerOpen(base, s, k);
    case Commit(cp) => SinceInnerCommit(base, s, k, cp);
    case Rollback(cp) =>
      if Accepts(s, cp) {
        RolledBackShrinks(s, cp);
        SinceRolledBack(base, s, k, cp);
      } else {
        RefusedHandle(s, cp);
      }
  }

  lemma RefusedHandle(s: State, cp: Checkpoint)
    requires Inv(s) && !Accepts(s, cp)
    ensures RolledBack(s, cp) == s
  {
  }

  lemma SinceRefused(base: set<SlabId>, s: State, k: nat, t: State)
    requires Inv(s) && Since(base, s, k) && Allocates(s, None, t)
    ensures Since(base, t, k) && t.Live() == s.Live()
  {
  }

  lemma AllocatedLive(base: set<SlabId>, s: State, k: nat, x: SlabId, t: State)
    requires Inv(s) && Since(base, s, k) && Allocates(s, Some(x), t)
    ensures base * t.Live() == base * s.Live()
  {
    AllocatedIsFree(s, x, t);
  }

  /** The slots live at step i and at every step up to j. */
  ghost function LiveThroughout(ss: seq<State>, i: nat, j: nat): set<SlabId>
    requires i <= j < |ss|
  {
    set x | x in ss[i].Live() && forall m | i <= m <= j :: x in ss[m].Live()
  }

  lemma LiveThroughoutNext(ss: seq<State>, i: nat, j: nat)
    requires i < j < |ss|
    ensures LiveThroughout(ss, i, j) == LiveThroughout(ss, i, j - 1) * ss[j].Live()
    ensures LiveThroughout(ss, i, i) == ss[i].Live()
  {
  }

  lemma {:induction false} SinceRun(ss: seq<State>, ops: seq<Op>, i: nat, j: nat)
    requires Run(ss, ops) && i < j <= |ops| && ops[i] == Open
    requires forall m | i < m <= j :: ss[m].Depth() > ss[i].Depth()
    ensures Since(ss[i].Live(), ss[j], ss[i].Depth())
    ensures ss[i].Live() * ss[j].Live() == LiveThroughout(ss, i, j)
    decreases j
  {
    hide *;
    RunLength(ss, ops);
    RunStep(ss, ops, j - 1);
    LiveThroughoutNext(ss, i, j);
    if j == i + 1 {
      SinceOpenStep(ss[i], ss[j]);
    } else {
      SinceRun(ss, ops, i, j - 1);
      SinceStep(ss[i].Live(), ss[j - 1], ss[i].Depth(), ops[j - 1], ss[j]);
    }
  }

  /** The central promise. A checkpoint opened at step i and rolled back at step j, whatever happened in
      between -- retains, releases, allocations, inner checkpoints committed or rolled back -- leaves live
      exactly the slots that were live at the checkpoint and have stayed live since. Nothing allocated since
      survives, and surviving slots keep their reference counts. */
  lemma RollbackRestores(ss: seq<State>, ops: seq<Op>, i: nat, j: nat)
    requires Run(ss, ops) && i < j < |ops| && ops[i] == Open
    requires forall m | i < m <= j :: ss[m].Depth() > ss[i].Depth()
    requires ops[j].Rollback? && Accepts(ss[j], ops[j].cp) && ss[j].Depth() == ss[i].Depth() + 1
    ensures ss[j + 1].Live() == LiveThroughout(ss, i, j)
    ensures forall x | x in ss[j + 1].use :: ss[j + 1].use[x] == ss[j].use[x]
    ensures ss[j + 1].Depth() == ss[i].Depth()
  {
    var s, t, cp := ss[j], ss[j + 1], ops[j].cp;
    RunKeepsInv(ss, ops, j);
    SinceRun(ss, ops, i, j);
    assert Step(s, ops[j], t) && Legal(s, ops[j]);
    UndoneEffect(s, cp);
    SameStacks(s, cp);
    assert t.use == Undone(s, cp).use;
    var seg := ToSet(s.log[cp.logStart..]);
    assert s.Live() - seg == ss[i].Live() * s.Live();
  }

  /** Committing keeps every slot, whenever it was allocated. */
  lemma CommitKeeps(s: State, cp: Checkpoint)
    requires Inv(s)
    ensures Committed(s, cp).use == s.use && Committed(s, cp).count == s.count
  {
  }

  /** A slot whose last reference goes while a checkpoint is open stays unused until the outermost
      checkpoint closes, whatever is allocated, committed or rolled back meanwhile. */
  lemma {:induction false} QuarantineHolds(ss: seq<State>, ops: seq<Op>, i: nat, j: nat, x: SlabId)
    requires Run(ss, ops) && i < j <= |ops|
    requires ops[i] == Release(x) && x in ss[i].Live() && x !in ss[i + 1].Live()
    requires forall m | i <= m <= j :: ss[m].Depth() > 0
    ensures x in ss[j].quarantine && x !in ss[j].Live()
    decreases j
  {
    hide *;
    RunLength(ss, ops);
    RunStep(ss, ops, j - 1);
    if j == i + 1 {
      ReleaseQuarantines(ss[i], x, ss[j]);
    } else {
      QuarantineHolds(ss, ops, i, j - 1, x);
      StepKeepsQuarantine(ss[j - 1], ops[j - 1], ss[j]);
    }
  }

  lemma ReleaseQuarantines(s: State, x: SlabId, t: State)
    requires Inv(s) && Step(s, Release(x), t) && s.Depth() > 0 && x in s.Live() && x !in t.Live()
    ensures x in t.quarantine
  {
  }

  lemma StepKeepsQuarantine(s: State, op: Op, t: State)
    requires Inv(s) && Inv(t) && Legal(s, op) && Step(s, op, t) && s.Depth() > 0 && t.Depth() > 0
    ensures s.quarantine <= t.quarantine && s.quarantine !! t.Live()
  {
    assert Logged(t);
    if op.Rollback? && Accepts(s, op.cp) {
      UndoneQuarantine(s, op.cp);
      SameStacks(s, op.cp);
    }
  }

  // ------------------------------------------------------------------ handles of other checkpoints

  /** rollback() compares only the depth and the log position of a handle, so the handle of an earlier,
      already committed checkpoint can be accepted: the slot allocated between the two is then lost although
      it was live at the checkpoint being rolled back. Both watermark forms lose it. */
  lemma StaleHandleLosesSlot(c: Config)
    requires c.numSlabs > 0 && c.slabSize > 1
    ensures
      var s0 := Initial(c);
      var stale := Top(Opened(s0));
      var s1 := Committed(Opened(s0), stale);
      var x := SlabId(0, 1);
      var s2 := Occupied(s1, x);
      var s3 := Opened(s2);
      && Step(s1, Alloc(Some(x)), s2)
      && Accepts(s3, stale) && x in s3.Live() && x !in RolledBack(s3, stale).Live()
  {
    hide RolledBack, Goes, Undone;
    var s0 := Initial(c);
    assert High(s0.Live()) == NULL_ID;
    var stale := Top(Opened(s0));
    var s1 := Committed(Opened(s0), stale);
    assert s1.count[0] == 1 < c.slabSize;
    assert forall j: nat | j < 1 :: SlabId(0, j) == NULL_ID;
    var s3 := Opened(Occupied(s1, SlabId(0, 1)));
    TakenBack(s3, stale);
    NullTakesAll(s3, SlabId(0, 1));
  }

  lemma NullTakesAll(s: State, x: SlabId)
    requires x != NULL_ID
    ensures Goes(s, NULL_ID, x)
  {
  }

  /** On the way down the walk comes to w. */
  ghost predicate Met(s: State, w: SlabId) { InRange(s.cfg, w) && !Less(High(s.Live()), w) }

  /** With the append-only flag set, a rollback to watermark w takes x: what lies above w, or, when the walk misses
      w, everything but the null slot. */
  ghost predicate Goes(s: State, w: SlabId, x: SlabId) {
    if s.cfg.strictEligible || Met(s, w) then Less(w, x) else x != NULL_ID
  }

  lemma {:induction false} WalkMissed(s: State, cur: SlabId, w: SlabId)
    requires s.cfg.slabSize > 0 && InRange(s.cfg, cur) && !(InRange(s.cfg, w) && !Less(cur, w))
    ensures Walked(s, cur, w) == Walked(s, cur, NULL_ID)
    decreases cur.slab, cur.offset
  {
    if cur != NULL_ID {
      BeforeIsNext(s.cfg, cur, cur);
      WalkMissed(Discarded(s, cur), Before(s.cfg, cur), w);
    }
  }

  lemma TakenBack(s: State, cp: Checkpoint)
    requires s.cfg.slabSize > 0 && |s.marks| == |s.appendOnly| == s.Depth() && Accepts(s, cp)
    requires s.appendOnly[s.Depth() - 1] && NULL_ID in s.use && forall x | x in s.use :: InRange(s.cfg, x)
    ensures forall x | x in s.use :: x in RolledBack(s, cp).use <==> !Goes(s, cp.watermark, x)
    ensures RolledBack(s, cp).Live() <= s.Live()
  {
    SameStacks(s, cp);
    UndoneUse(s, cp);
    assert RolledBack(s, cp).use == Undone(s, cp).use;
  }

  lemma UndoneUse(s: State, cp: Checkpoint)
    requires s.cfg.slabSize > 0 && |s.appendOnly| == s.Depth() > 0
    requires s.appendOnly[s.Depth() - 1] && NULL_ID in s.use && forall x | x in s.use :: InRange(s.cfg, x)
    ensures forall x | x in s.use :: x in Undone(s, cp).use <==> !Goes(s, cp.watermark, x)
    ensures Undone(s, cp).Live() <= s.Live()
  {
    if !s.cfg.strictEligible {
      var h := High(s.Live());
      var w := if Met(s, cp.watermark) then cp.watermark else NULL_ID;
      assert h in s.Live();
      if w != cp.watermark { WalkMissed(s, h, cp.watermark); }
      assert Walked(s, h, cp.watermark) == Walked(s, h, w);
      WalkedUse(s, h, w);
    }
  }

  /** While the append-only flag stands, an accepted handle restores the checkpoint if and only if its watermark takes
      of the live slots just those above the recorded one. It covers both watermark forms, and for the walk also a
      watermark it never comes to. */
  lemma HandleExact(s: State, cp: Checkpoint)
    requires Inv(s) && Accepts(s, cp) && s.appendOnly[s.Depth() - 1]
    ensures RolledBack(s, cp).Live() == s.Live() - ToSet(s.log[cp.logStart..])
      <==> forall x | x in s.Live() :: Goes(s, cp.watermark, x) <==> Less(s.marks[s.Depth() - 1], x)
  {
    hide RolledBack, Goes, Undone, Inv;
    var n := s.Depth() - 1;
    InvShape(s);
    TopExact(s);
    TakenBack(s, cp);
    forall x | x in s.Live() ensures x in ToSet(s.log[cp.logStart..]) <==> Less(s.marks[n], x) {
      assert Less(s.marks[n], x) <==> x in Above(s.Live(), s.marks[n]);
    }
  }

  lemma TopExact(s: State)
    requires Inv(s) && s.Depth() > 0 && s.appendOnly[s.Depth() - 1]
    ensures s.starts[s.Depth() - 1] <= |s.log| && LevelExact(s, s.Depth() - 1)
  {
  }

  /** Once a last reference has been dropped under the checkpoint the log is replayed, and the watermark in
      the handle no longer matters. */
  lemma ReplayIgnoresWatermark(s: State, cp: Checkpoint, other: SlabId)
    requires Inv(s) && Accepts(s, cp) && !s.appendOnly[s.Depth() - 1]
    ensures RolledBack(s, cp.(watermark := other)) == RolledBack(s, cp)
    ensures RolledBack(s, cp).Live() == s.Live() - ToSet(s.log[cp.logStart..])
  {
    ReplayUse(s);
    SameStacks(s, cp);
  }

  // ------------------------------------------------------------------ references

  /** The references to a slot after steps i to j, when there were n before: one more for every retain, one less for
      every release. */
  function Balance(ops: seq<Op>, x: SlabId, n: int, i: nat, j: nat): int
    requires i <= j <= |ops|
    decreases j
  {
    if i == j then n
    else Balance(ops, x, n, i, j - 1) + match ops[j - 1]
      case Retain(y) => if y == x then 1 else 0
      case Release(y) => if y == x then -1 else 0
      case _ => 0
  }

  /** What one step does to a live slot that no rollback takes. */
  lemma ReferenceStep(s: State, op: Op, t: State, x: SlabId)
    requires Inv(s) && Legal(s, op) && Step(s, op, t) && x in s.use && x != NULL_ID
    requires op.Rollback? ==> x in t.use
    ensures op == Retain(x) ==> x in t.use && t.use[x] == s.use[x] + 1
    ensures op == Release(x) ==> if s.use[x] == 1 then x !in t.use else x in t.use && t.use[x] == s.use[x] - 1
    ensures op != Retain(x) && op != Release(x) ==> x in t.use && t.use[x] == s.use[x]
  {
    match op
    case Alloc(Some(y)) => AllocatedIsFree(s, y, t);
    case Rollback(cp) =>
      if Accepts(s, cp) {
        UndoneEffect(s, cp);
        SameStacks(s, cp);
      }
    case _ =>
  }

  /** No rollback from step i to step j takes x away. */
  ghost predicate Spared(ss: seq<State>, ops: seq<Op>, x: SlabId, i: nat, j: nat)
    requires i <= j <= |ops| < |ss|
  {
    forall m | i <= m < j && ops[m].Rollback? && x in ss[m].use :: x in ss[m + 1].use
  }

  /** While every step leaves references to count, the slot lives, with just as many. */
  lemma {:induction false} CountedReferences(ss: seq<State>, ops: seq<Op>, x: SlabId, i: nat, j: nat)
    requires Run(ss, ops) && |ss| == |ops| + 1 && i <= j <= |ops| && x in ss[i].use && x != NULL_ID
    requires Spared(ss, ops, x, i, j)
    requires forall n | i <= n < j :: x in ss[n].use
    ensures forall n | i <= n < j :: ss[n].use[x] == Balance(ops, x, ss[i].use[x], i, n) > 0
    ensures x in ss[j].use <==> Balance(ops, x, ss[i].use[x], i, j) > 0
    ensures x in ss[j].use ==> ss[j].use[x] == Balance(ops, x, ss[i].use[x], i, j)
    decreases j
  {
    hide Run, Step, Legal, Inv;
    if j > i {
      CountedReferences(ss, ops, x, i, j - 1);
      RunStep(ss, ops, j - 1);
      InvShape(ss[j - 1]);
      ReferenceStep(ss[j - 1], ops[j - 1], ss[j], x);
    } else {
      RunKeepsInv(ss, ops, i);
      InvShape(ss[i]);
    }
  }

  ghost predicate LivesOn(ss: seq<State>, x: SlabId, i: nat, j: nat)
    requires i <= j < |ss|
  {
    forall n | i <= n <= j :: x in ss[n].use
  }

  ghost predicate Referenced(ops: seq<Op>, x: SlabId, i: nat, j: nat)
    requires i <= j <= |ops|
  {
    forall n | i <= n <= j :: Balance(ops, x, 1, i, n) > 0
  }

  lemma AllocatedOnce(s: State, x: SlabId, t: State)
    requires Inv(s) && Step(s, Alloc(Some(x)), t)
    ensures x != NULL_ID && x in t.use && t.use[x] == 1
  {
    AllocatedIsFree(s, x, t);
  }

  /** A slot allocated at step i that no rollback takes lives on, up to step j, if and only if on the whole way its
      retains since, and one, outnumber its releases; and that difference is its reference count. */
  lemma {:induction false} SharedSlotLives(ss: seq<State>, ops: seq<Op>, x: SlabId, i: nat, j: nat)
    requires Run(ss, ops) && |ss| == |ops| + 1 && i < j <= |ops| && ops[i] == Alloc(Some(x))
    requires Spared(ss, ops, x, i + 1, j)
    ensures LivesOn(ss, x, i + 1, j) <==> Referenced(ops, x, i + 1, j)
    ensures LivesOn(ss, x, i + 1, j) ==> ss[j].use[x] == Balance(ops, x, 1, i + 1, j)
    decreases j
  {
    hide Run, Step, Legal, Inv;
    RunStep(ss, ops, i);
    AllocatedOnce(ss[i], x, ss[i + 1]);
    if j > i + 1 {
      SharedSlotLives(ss, ops, x, i, j - 1);
      if LivesOn(ss, x, i + 1, j - 1) { CountedReferences(ss, ops, x, i + 1, j); }
    }
  }

  /** A slot that is not live comes to life only by being allocated. */
  lemma DeadStep(s: State, op: Op, t: State, x: SlabId)
    requires Inv(s) && Legal(s, op) && Step(s, op, t) && x !in s.use && op != Alloc(Some(x))
    ensures x !in t.use
  {
    if op.Rollback? && Accepts(s, op.cp) {
      UndoneEffect(s, op.cp);
      SameStacks(s, op.cp);
    }
  }

  /** Somebody retains or releases x without a reference to it, or is given the slot anew. */
  predicate Strays(s: State, op: Op, x: SlabId) {
    x !in s.use && (op == Retain(x) || op == Release(x) || op == Alloc(Some(x)))
  }

  /** Where the slot is neither touched nor given away again once it is gone, it is enough to compare at step j: it is
      live there if and only if its retains since, and one, outnumber its releases. */
  lemma {:induction false} ReferencesExact(ss: seq<State>, ops: seq<Op>, x: SlabId, i: nat, j: nat)
    requires Run(ss, ops) && |ss| == |ops| + 1 && i < j <= |ops| && ops[i] == Alloc(Some(x))
    requires Spared(ss, ops, x, i + 1, j) && forall m | i < m < j :: !Strays(ss[m], ops[m], x)
    ensures x in ss[j].use <==> Balance(ops, x, 1, i + 1, j) > 0
    ensures x in ss[j].use ==> ss[j].use[x] == Balance(ops, x, 1, i + 1, j)
    decreases j
  {
    hide Run, Step, Legal, Inv;
    RunStep(ss, ops, i);
    AllocatedOnce(ss[i], x, ss[i + 1]);
    if j > i + 1 {
      ReferencesExact(ss, ops, x, i, j - 1);
      RunStep(ss, ops, j - 1);
      InvShape(ss[j - 1]);
      if x in ss[j - 1].use {
        ReferenceStep(ss[j - 1], ops[j - 1], ss[j], x);
      } else {
        DeadStep(ss[j - 1], ops[j - 1], ss[j], x);
      }
    }
  }

  /** Without that it is not: a slot released and then retained has one reference too many in the count and is dead. */
  lemma LateRetain(c: Config) returns (ss: seq<State>, ops: seq<Op>)
    requires c.numSlabs > 0 && c.slabSize > 1
    ensures var x := SlabId(0, 1);
      && Run(ss, ops) && ops == [Alloc(Some(x)), Release(x), Retain(x)] && Spared(ss, ops, x, 1, 3)
      && x !in ss[3].use && Balance(ops, x, 1, 1, 3) == 1
  {
    hide Inv;
    var x, s0 := SlabId(0, 1), Initial(c);
    InitialInv(c);
    assert s0.count[0] == 1 < c.slabSize;
    assert forall j: nat | j < 1 :: SlabId(0, j) == NULL_ID;
    var s1 := Occupied(s0, x);
    var s2 := Freed(s1, x);
    assert s1.use[x] == 1 && x !in s2.use;
    ss, ops := [s0, s1, s2, s2], [Alloc(Some(x)), Release(x), Retain(x)];
    assert Balance(ops, x, 1, 1, 2) == 0;
  }
}
