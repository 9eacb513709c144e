/** The slab arena itself: slabs are heap objects that are updated in place, and every method is tied to the
    operation of ArenaModel it carries out. */
module Arena {
  import opened Common
  import opened ArenaModel
  import opened ArenaInvariant

  class Slab {
    var count: nat
    const inUse: array<nat>

    constructor (size: nat)
      ensures fresh(inUse) && inUse.Length == size && count == 0
      ensures forall j | 0 <= j < size :: inUse[j] == 0
    {
      inUse := new nat[size](_ => 0);
      count := 0;
    }
  }

  class Allocator {
    const numSlabs: nat
    const slabSize: nat
    const strictEligible: bool
    const slabs: array<Slab?>
    var allocationLog: seq<SlabId>
    var checkpointStack: seq<nat>
    var checkpointWatermarks: seq<SlabId>
    var checkpointAppendOnly: seq<bool>
    var rollbackProtectedFreeSlots: set<SlabId>
    var lastRollbackUsedFastPath: bool
    var lastRollbackUsedStrictFastPath: bool

    ghost var use: map<SlabId, nat>
    ghost var counts: map<nat, nat>
    ghost var Repr: set<object>

    ghost predicate HeapOk()
      reads this, Repr
      ensures HeapOk() ==> this in Repr
    {
      && this in Repr && slabs in Repr && slabs.Length == numSlabs && slabSize > 0
      && Slabs()
      && Cells()
    }

    ghost predicate Slabs()
      requires slabs in Repr && slabs.Length == numSlabs
      reads this, Repr
    {
      true == (
      && (forall i | 0 <= i < numSlabs && slabs[i] != null ::
            slabs[i] in Repr && slabs[i].inUse in Repr && slabs[i].inUse.Length == slabSize)
      && (forall i, j | 0 <= i < numSlabs && 0 <= j < numSlabs && i != j && slabs[i] != null && slabs[j] != null ::
            slabs[i] != slabs[j] && slabs[i].inUse != slabs[j].inUse)
      && (forall i: nat | i < numSlabs :: i in counts <==> slabs[i] != null)
      && (forall i | i in counts :: i < numSlabs && counts[i] == slabs[i].count)
      )
    }

    ghost predicate Cells()
      requires slabs in Repr && slabs.Length == numSlabs && Slabs()
      reads this, Repr
    {
      true == (
      && (forall x | x in use :: InRange(Cfg(), x) && x.slab in counts && use[x] > 0)
      && (forall i: nat, j: nat | i in counts && j < slabSize :: slabs[i].inUse[j] == RefsOf(use, SlabId(i, j))))
    }

    ghost function Cfg(): Config { Config(numSlabs, slabSize, strictEligible) }

    ghost function View(): State
      reads this
    {
      State(Cfg(), use, counts, allocationLog, checkpointStack, checkpointWatermarks, checkpointAppendOnly,
            rollbackProtectedFreeSlots)
    }

    ghost predicate Valid()
      reads this, Repr
      ensures Valid() ==> this in Repr
    {
      HeapOk() && Inv(View())
    }

    // ---------------------------------------------------------------- cells

    method Refs(x: SlabId) returns (n: nat)
      requires HeapOk()
      ensures n == RefsOf(use, x)
    {
      if x.slab < numSlabs && slabs[x.slab] != null && x.offset < slabSize {
        n := slabs[x.slab].inUse[x.offset];
      } else {
        n := 0;
      }
    }

    method SetRefs(x: SlabId, n: nat)
      requires HeapOk() && InRange(Cfg(), x) && x.slab in counts
      modifies this`use, Repr - {this, slabs}
      ensures HeapOk()
      ensures use == if n == 0 then old(use) - {x} else old(use)[x := n]
    {
      slabs[x.slab].inUse[x.offset] := n;
      use := if n == 0 then use - {x} else use[x := n];
      forall i: nat, j: nat | i in counts && j < slabSize
        ensures slabs[i].inUse[j] == RefsOf(use, SlabId(i, j))
      {
        assert old(slabs[i].inUse[j]) == RefsOf(old(use), SlabId(i, j));
        assert i != x.slab ==> slabs[i].inUse != slabs[x.slab].inUse;
      }
    }

    method SetCount(slab: nat, n: nat)
      requires HeapOk() && slab in counts
      modifies this`counts, Repr - {this, slabs}
      ensures HeapOk() && counts == old(counts)[slab := n]
    {
      slabs[slab].count := n;
      counts := counts[slab := n];
    }

    method CreateOwnedSlab(slab: nat)
      requires HeapOk() && slab < numSlabs && slabs[slab] == null
      modifies this`counts, this`Repr, slabs
      ensures HeapOk() && fresh(Repr - old(Repr)) && slabs[slab] != null
      ensures counts == old(counts)[slab := 0]
    {
      var s := new Slab(slabSize);
      slabs[slab] := s;
      counts := counts[slab := 0];
      Repr := Repr + {s, s.inUse};
    }

    method DeleteSlab(slab: nat)
      requires HeapOk() && slab in counts
      requires forall x | x in use :: x.slab != slab
      modifies this`counts, slabs
      ensures HeapOk() && counts == old(counts) - {slab}
    {
      slabs[slab] := null;
      counts := counts - {slab};
    }

    // ---------------------------------------------------------------- construction

    /** A new allocator after its first allocRaw has taken the null slot. */
    constructor (numSlabs: nat, slabSize: nat, strictEligible: bool)
      requires numSlabs > 0 && slabSize > 0
      ensures Valid() && fresh(Repr)
      ensures View() == Initial(Config(numSlabs, slabSize, strictEligible))
    {
      hide Inv;
      this.numSlabs, this.slabSize, this.strictEligible := numSlabs, slabSize, strictEligible;
      slabs := new Slab?[numSlabs](_ => null);
      allocationLog, checkpointStack, checkpointWatermarks, checkpointAppendOnly := [], [], [], [];
      rollbackProtectedFreeSlots := {};
      lastRollbackUsedFastPath, lastRollbackUsedStrictFastPath := false, false;
      use, counts := map[], map[];
      new;
      Repr := {this, slabs};
      TakeNullSlot();
      InitialInv(Cfg());
    }

    method TakeNullSlot()
      requires HeapOk() && use == map[] && counts == map[] && numSlabs > 0
      modifies Repr
      ensures HeapOk() && fresh(Repr - old(Repr))
      ensures View() == old(View()).(use := map[NULL_ID := 1], count := map[0 := 1])
    {
      CreateOwnedSlab(0);
      SetCount(0, 1);
      SetRefs(NULL_ID, 1);
    }

    // ---------------------------------------------------------------- searching

    method CurrentHighWatermark() returns (r: SlabId)
      requires HeapOk()
      ensures r == High(use.Keys)
    {
      var i := numSlabs;
      while i > 0
        invariant i <= numSlabs
        invariant forall x | x in use :: x.slab < i
      {
        i := i - 1;
        if slabs[i] != null {
          var j := slabSize;
          while j > 0
            invariant j <= slabSize
            invariant forall x | x in use :: x.slab < i || (x.slab == i && x.offset < j)
          {
            j := j - 1;
            var n := Refs(SlabId(i, j));
            if n > 0 {
              r := SlabId(i, j);
              assert forall x | x in use :: !Less(r, x);
              HighIs(use.Keys, r);
              return;
            }
          }
        }
      }
      r := NULL_ID;
    }

    /** The first slot at or after `start` in an existing slab that is neither in use nor quarantined. */
    method FreeOffset(slab: nat, start: nat) returns (j: nat)
      requires HeapOk() && slab in counts
      ensures start <= j && (j > start ==> j <= slabSize)
      ensures forall k: nat | start <= k < j :: SlabId(slab, k) in use || SlabId(slab, k) in rollbackProtectedFreeSlots
      ensures j < slabSize ==> SlabId(slab, j) !in use && SlabId(slab, j) !in rollbackProtectedFreeSlots
    {
      j := start;
      while j < slabSize
        invariant start <= j && (j > start ==> j <= slabSize)
        invariant forall k: nat | start <= k < j :: SlabId(slab, k) in use || SlabId(slab, k) in rollbackProtectedFreeSlots
      {
        var n := Refs(SlabId(slab, j));
        if n == 0 && SlabId(slab, j) !in rollbackProtectedFreeSlots { return; }
        j := j + 1;
      }
    }

    method EnsureSlab(i: nat)
      requires HeapOk() && i < numSlabs
      modifies this`counts, this`Repr, slabs
      ensures HeapOk() && fresh(Repr - old(Repr))
      ensures counts == WithSlabs(old(counts), i, i + 1) && i in counts
    {
      if slabs[i] == null { CreateOwnedSlab(i); }
    }

    /** The slot the append-only search settles on, or None. Slabs it passes over are created. */
    method AllocateAppendOnlyRaw() returns (r: Option<SlabId>)
      requires Valid()
      modifies this`counts, this`Repr, slabs
      ensures HeapOk() && fresh(Repr - old(Repr))
      ensures var s, lo := old(View()), High(use.Keys).slab;
        match r
        case Some(x) => NextAppend(s, x) && counts == WithSlabs(old(counts), lo, x.slab + 1)
        case None => (forall y :: !Appendable(s, y)) && counts == WithSlabs(old(counts), lo, numSlabs)
    {
      hide Inv, HeapOk, Slabs, Cells, PassedOver, NextAppend, Appendable, WithSlabs;
      InvShape(View());
      ghost var s := View();
      var watermark := CurrentHighWatermark();
      SearchStarts(s);
      var i := watermark.slab;
      while i < numSlabs
        invariant watermark.slab <= i <= numSlabs
        invariant HeapOk() && fresh(Repr - old(Repr))
        invariant counts == WithSlabs(old(counts), watermark.slab, i)
        invariant PassedOver(s, i, 0)
      {
        EnsureSlab(i);
        WithSlabsNext(old(counts), watermark.slab, i);
        var start := if i == watermark.slab then watermark.offset + 1 else 0;
        var j := FreeOffset(i, start);
        SearchPasses(s, i, start, j);
        if j < slabSize { return Some(SlabId(i, j)); }
        i := i + 1;
      }
      SearchEnds(s);
      r := None;
    }

    /** Outside any checkpoint. The slab counter never understates what is live, so a slab that is not
        counted full always has a free slot, and the offset handed out for a new slab is always 0. */
    method FirstFitRaw() returns (r: Option<SlabId>)
      requires Valid() && |checkpointStack| == 0
      modifies this`counts, this`Repr, slabs
      ensures HeapOk() && fresh(Repr - old(Repr))
      ensures match r
        case Some(x) => FirstFit(old(View()), x) && counts == (if x.slab in old(counts) then old(counts) else old(counts)[x.slab := 0])
        case None => Full(old(View())) && counts == old(counts)
    {
      var i := 0;
      while i < numSlabs
        invariant i <= numSlabs
        invariant Valid() && Repr == old(Repr) && counts == old(counts)
        invariant forall k: nat | k < i :: k in counts && counts[k] >= slabSize
      {
        if slabs[i] == null {
          CreateOwnedSlab(i);
          return Some(SlabId(i, 0));
        }
        if slabs[i].count < slabSize {
          var j := FreeOffset(i, 0);
          FreeSlotExists(View(), i);
          return Some(SlabId(i, j));
        }
        i := i + 1;
      }
      r := None;
    }

    /** allocRaw: None stands for std::bad_alloc. */
    method AllocRaw() returns (r: Option<SlabId>)
      requires Valid()
      modifies Repr
      ensures Valid() && fresh(Repr - old(Repr))
      ensures Allocates(old(View()), r, View())
    {
      hide Inv, Slabs, Cells, FirstFit, NextAppend, Appendable, Full, WithSlabs, High;
      ghost var s := View();
      InvShape(s);
      if |checkpointStack| > 0 {
        r := AllocateAppendOnlyRaw();
      } else {
        r := FirstFitRaw();
      }
      if r.Some? {
        TargetExists(s, r.value, counts);
        Occupy(r.value);
        if |checkpointStack| > 0 { LogAllocation(r.value); }
        assert Allocates(s, r, View());
        AllocatedKeepsInv(s, r.value, View());
      } else {
        assert Allocates(s, r, View());
        RefusedKeepsInv(s, View());
      }
    }

    method LogAllocation(x: SlabId)
      requires HeapOk()
      modifies this`allocationLog
      ensures HeapOk() && allocationLog == old(allocationLog) + [x]
    {
      allocationLog := allocationLog + [x];
    }

    method Occupy(x: SlabId)
      requires HeapOk() && InRange(Cfg(), x) && x.slab in counts && x !in use
      modifies this`use, this`counts, Repr - {this, slabs}
      ensures HeapOk() && use == old(use)[x := 1] && counts == old(counts)[x.slab := old(counts)[x.slab] + 1]
    {
      var c := slabs[x.slab].count;
      SetCount(x.slab, c + 1);
      SetRefs(x, 1);
    }

    // ---------------------------------------------------------------- references

    method TryRetain(x: SlabId) returns (ok: bool)
      requires Valid()
      modifies Repr
      ensures Valid() && Repr == old(Repr)
      ensures View() == Retained(old(View()), x) && ok == (x != NULL_ID && x in old(use))
    {
      hide Inv, Slabs, Cells;
      InvShape(View());
      RetainedKeepsInv(View(), x);
      var n := Refs(x);
      if x == NULL_ID || n == 0 { return false; }
      LastReference(View(), x);
      SetRefs(x, n + 1);
      return true;
    }

    method InvalidateCheckpointFastPath()
      requires HeapOk()
      modifies this`checkpointAppendOnly
      ensures HeapOk() && checkpointAppendOnly == AllFalse(|old(checkpointAppendOnly)|)
    {
      var i := 0;
      while i < |checkpointAppendOnly|
        invariant i <= |checkpointAppendOnly| == |old(checkpointAppendOnly)| && HeapOk()
        invariant forall k | 0 <= k < i :: !checkpointAppendOnly[k]
      {
        checkpointAppendOnly := checkpointAppendOnly[i := false];
        i := i + 1;
      }
    }

    method Protect(x: SlabId)
      requires HeapOk()
      modifies this`rollbackProtectedFreeSlots, this`checkpointAppendOnly
      ensures HeapOk() && rollbackProtectedFreeSlots == old(rollbackProtectedFreeSlots) + {x}
      ensures checkpointAppendOnly == AllFalse(|old(checkpointAppendOnly)|)
    {
      rollbackProtectedFreeSlots := rollbackProtectedFreeSlots + {x};
      InvalidateCheckpointFastPath();
    }

    /** The bookkeeping of a slot whose reference count has just reached zero. */
    method Forget(x: SlabId) returns (deleted: bool)
      requires HeapOk() && x.slab in counts && counts[x.slab] > 0
      requires counts[x.slab] == 1 ==> forall y | y in use :: y.slab != x.slab
      modifies Repr
      ensures HeapOk() && Repr == old(Repr) && use == old(use)
      ensures View() == Freed(old(View()), x).(use := use)
      ensures deleted <==> x.slab !in counts
    {
      if |checkpointStack| > 0 { Protect(x); }
      var c := slabs[x.slab].count;
      SetCount(x.slab, c - 1);
      deleted := c - 1 == 0;
      if deleted { DeleteSlab(x.slab); }
      assert counts == Decremented(old(counts), x.slab);
    }

    /** Drops one reference; true when that emptied and deleted the slab. */
    method Deallocate(x: SlabId) returns (deleted: bool)
      requires Valid()
      modifies Repr
      ensures Valid() && Repr == old(Repr)
      ensures View() == Released(old(View()), x)
      ensures deleted <==> x.slab in old(counts) && x.slab !in counts
    {
      hide Inv, Slabs, Cells;
      ghost var s := View();
      InvShape(s);
      ReleasedKeepsInv(s, x);
      var n := Refs(x);
      if x == NULL_ID || n == 0 { return false; }
      LastReference(s, x);
      SetRefs(x, n - 1);
      if n - 1 == 0 {
        deleted := Forget(x);
      } else {
        deleted := false;
      }
      assert View() == Released(s, x);
    }

    /** Takes a slot out whatever its reference count: what rollback does to one slot. */
    method DiscardSlot(x: SlabId)
      requires Valid() && x != NULL_ID
      modifies Repr
      ensures Valid() && Repr == old(Repr)
      ensures View() == Discarded(old(View()), x)
    {
      hide Inv, Slabs, Cells;
      ghost var s := View();
      InvShape(s);
      DiscardedKeepsInv(s, x);
      var n := Refs(x);
      if n == 0 { return; }
      LastReference(s, x);
      SetRefs(x, 1);
      ghost var t := View();
      SingleReference(s, x, t);
      var _ := Deallocate(x);
      assert View() == Freed(t, x);
      assert View().use == Freed(s, x).use;
    }

    // ---------------------------------------------------------------- checkpoints

    method PushLevel(w: SlabId)
      requires HeapOk()
      modifies this`checkpointStack, this`checkpointWatermarks, this`checkpointAppendOnly
      modifies this`lastRollbackUsedFastPath, this`lastRollbackUsedStrictFastPath
      ensures HeapOk()
      ensures checkpointStack == old(checkpointStack) + [|allocationLog|]
      ensures checkpointWatermarks == old(checkpointWatermarks) + [w]
      ensures checkpointAppendOnly == old(checkpointAppendOnly) + [true]
      ensures !lastRollbackUsedFastPath && !lastRollbackUsedStrictFastPath
    {
      checkpointStack := checkpointStack + [|allocationLog|];
      checkpointWatermarks := checkpointWatermarks + [w];
      checkpointAppendOnly := checkpointAppendOnly + [true];
      lastRollbackUsedFastPath, lastRollbackUsedStrictFastPath := false, false;
    }

    method OpenCheckpoint() returns (cp: Checkpoint)
      requires Valid()
      modifies this
      ensures Valid() && Repr == old(Repr) && View() == Opened(old(View()))
      ensures cp == Top(View())
      ensures !lastRollbackUsedFastPath && !lastRollbackUsedStrictFastPath
    {
      hide Inv, HeapOk, Slabs, Cells, High;
      OpenedKeepsInv(View());
      InvShape(View());
      var w := CurrentHighWatermark();
      PushLevel(w);
      cp := Checkpoint(|allocationLog|, |checkpointStack|, true, w, true);
    }

    method HandleFits(cp: Checkpoint) returns (ok: bool)
      requires Valid()
      ensures ok == Accepts(View(), cp)
    {
      ok := cp.valid && |checkpointStack| > 0 && cp.depth == |checkpointStack|
        && cp.logStart == checkpointStack[|checkpointStack| - 1];
    }

    method CloseLevel()
      requires HeapOk() && |checkpointStack| == |checkpointWatermarks| == |checkpointAppendOnly| > 0
      modifies this
      ensures HeapOk() && Repr == old(Repr) && View() == PopLevel(old(View()))
      ensures lastRollbackUsedFastPath == old(lastRollbackUsedFastPath)
      ensures lastRollbackUsedStrictFastPath == old(lastRollbackUsedStrictFastPath)
    {
      var n := |checkpointStack| - 1;
      checkpointStack := checkpointStack[..n];
      checkpointWatermarks := checkpointWatermarks[..n];
      checkpointAppendOnly := checkpointAppendOnly[..n];
      if |checkpointStack| == 0 {
        allocationLog := [];
        rollbackProtectedFreeSlots := {};
      }
    }

    method CommitCheckpoint(cp: Checkpoint) returns (ok: bool)
      requires Valid()
      modifies this
      ensures Valid() && Repr == old(Repr)
      ensures ok == Accepts(old(View()), cp) && View() == Committed(old(View()), cp)
    {
      hide Inv;
      InvShape(View());
      CommittedKeepsInv(View(), cp);
      ok := HandleFits(cp);
      if ok {
        CloseLevel();
        lastRollbackUsedStrictFastPath := false;
      }
    }

    // ---------------------------------------------------------------- rollback

    /** Log replay, last entry first. */
    method ReplayLog(from: nat)
      requires Valid()
      modifies Repr
      ensures Valid() && Repr == old(Repr)
      ensures View() == Replayed(old(View()), old(allocationLog), |old(allocationLog)|, from)
    {
      hide Inv, HeapOk, Slabs, Cells, Discarded;
      ghost var s, log := View(), allocationLog;
      InvShape(s);
      var i := |allocationLog|;
      while i > from
        invariant Valid() && Repr == old(Repr) && 0 <= i <= |log| && allocationLog == log
        invariant Replayed(View(), log, i, from) == Replayed(s, log, |log|, from)
      {
        i := i - 1;
        ghost var t := View();
        assert log[i] in log;
        DiscardSlot(allocationLog[i]);
        DiscardedLog(t, log[i]);
      }
    }

    /** The downward walk from the high watermark to `w`. */
    method WalkDown(w: SlabId)
      requires Valid()
      modifies Repr
      ensures Valid() && Repr == old(Repr)
      ensures View() == Walked(old(View()), High(old(use).Keys), w)
    {
      hide Inv, HeapOk, Slabs, Cells, Discarded, High;
      ghost var s, h := View(), High(use.Keys);
      InvShape(s);
      var current := CurrentHighWatermark();
      while current != NULL_ID && current != w
        invariant Valid() && Repr == old(Repr) && slabSize == s.cfg.slabSize
        invariant Walked(View(), current, w) == Walked(s, h, w)
        decreases current.slab, current.offset
      {
        ghost var t := View();
        DiscardSlot(current);
        DiscardedLog(t, current);
        assert NULL_ID == SlabId(0, 0) && current == SlabId(current.slab, current.offset);
        current := if current.offset > 0 then SlabId(current.slab, current.offset - 1)
                   else SlabId(current.slab - 1, slabSize - 1);
      }
    }

    method ZeroFrom(slab: nat, start: nat)
      requires HeapOk() && slab in counts
      modifies this`use, Repr - {this, slabs}
      ensures HeapOk() && use == Zeroed(old(use), slab, start, slabSize)
    {
      hide HeapOk, Slabs, Cells;
      UseHasSlabs();
      var j := start;
      while j < slabSize
        invariant HeapOk() && j >= start
        invariant use == Zeroed(old(use), slab, start, j)
      {
        SetRefs(SlabId(slab, j), 0);
        assert use == Zeroed(old(use), slab, start, j + 1);
        j := j + 1;
      }
    }

    method ClearSlab(slab: nat, start: nat, count: nat)
      requires HeapOk() && slab < numSlabs
      requires forall x | x in use && x.slab == slab :: slab in counts
      modifies this`use, this`counts, Repr - {this, slabs}
      ensures HeapOk() && use == Zeroed(old(use), slab, start, slabSize)
      ensures counts == if slab in old(counts) then old(counts)[slab := count] else old(counts)
    {
      if slabs[slab] != null {
        ZeroFrom(slab, start);
        SetCount(slab, count);
      }
    }

    /** The strict reset: zero every slot above `w` in place. */
    method ResetAbove(w: SlabId)
      requires Valid() && w.slab < numSlabs
      modifies this`use, this`counts, Repr - {this, slabs}
      ensures HeapOk() && View() == Reset(old(View()), w) && Repr == old(Repr)
    {
      hide Inv, HeapOk, Slabs, Cells, UseCut, CountsCut, Zeroed, KeptBelow, ResetCounts;
      ghost var s := View();
      InvShape(s);
      UseHasSlabs();
      var i := w.slab + 1;
      AboveNothing(s, w);
      while i < numSlabs
        invariant HeapOk() && w.slab < i <= numSlabs
        invariant use == UseCut(s, w, i) && counts == CountsCut(s, w, i)
      {
        UseHasSlabs();
        ClearSlab(i, 0, 0);
        AboveNext(s, w, i);
        i := i + 1;
      }
      UseHasSlabs();
      AboveAll(s, w);
      if w == NULL_ID {
        var n := Refs(NULL_ID);
        ClearSlab(0, 1, if n > 0 then 1 else 0);
      } else {
        ClearSlab(w.slab, w.offset + 1, w.offset + 1);
      }
    }

    /** The result says whether the handle was accepted. A caller owes that an acceptable handle carries the
        watermark recorded for its checkpoint. */
    method RollbackCheckpoint(cp: Checkpoint) returns (ok: bool)
      requires Valid()
      requires Accepts(View(), cp) ==> cp.watermark == checkpointWatermarks[|checkpointStack| - 1]
      modifies Repr
      ensures Valid() && Repr == old(Repr)
      ensures ok == Accepts(old(View()), cp) && View() == RolledBack(old(View()), cp)
      ensures ok ==> lastRollbackUsedFastPath == old(checkpointAppendOnly[|checkpointStack| - 1])
      ensures ok ==> lastRollbackUsedStrictFastPath == (lastRollbackUsedFastPath && strictEligible)
    {
      hide Inv, HeapOk, Slabs, Cells, Reset, Walked, Replayed, High;
      ghost var s := View();
      InvShape(s);
      RolledBackKeepsInv(s, cp);
      ok := HandleFits(cp);
      if !ok { return; }
      SameStacks(s, cp);
      var useFastPath := checkpointAppendOnly[|checkpointAppendOnly| - 1];
      if useFastPath && strictEligible {
        WatermarkInRange(s);
        ResetAbove(cp.watermark);
      } else if useFastPath {
        WalkDown(cp.watermark);
      } else {
        ReplayLog(cp.logStart);
      }
      assert View() == Undone(s, cp);
      FinishRollback(cp.logStart, useFastPath);
    }

    method FinishRollback(logStart: nat, useFastPath: bool)
      requires HeapOk() && |checkpointStack| == |checkpointWatermarks| == |checkpointAppendOnly| > 0
      requires logStart <= |allocationLog|
      modifies this
      ensures HeapOk() && Repr == old(Repr)
      ensures View() == PopLevel(old(View()).(log := old(allocationLog)[..logStart]))
      ensures lastRollbackUsedFastPath == useFastPath
      ensures lastRollbackUsedStrictFastPath == (useFastPath && strictEligible)
    {
      lastRollbackUsedFastPath := useFastPath;
      lastRollbackUsedStrictFastPath := useFastPath && strictEligible;
      allocationLog := allocationLog[..logStart];
      CloseLevel();
    }

    lemma UseHasSlabs()
      requires HeapOk()
      ensures forall x | x in use :: InRange(Cfg(), x) && x.slab in counts
      ensures forall k | k in counts :: k < numSlabs
    {
    }
  }

  lemma WatermarkInRange(s: State)
    requires Inv(s) && s.Depth() > 0 && s.appendOnly[s.Depth() - 1]
    ensures InRange(s.cfg, s.marks[s.Depth() - 1])
  {
    assert LevelExact(s, s.Depth() - 1);
  }

  /** Part-way through the strict reset: slabs strictly between w.slab and i are empty. */
  ghost function UseCut(s: State, w: SlabId, i: nat): map<SlabId, nat> {
    map x | x in s.use && !(w.slab < x.slab < i) :: s.use[x]
  }

  ghost function CountsCut(s: State, w: SlabId, i: nat): map<nat, nat> {
    map k | k in s.count :: if w.slab < k < i then 0 else s.count[k]
  }

  lemma AboveNothing(s: State, w: SlabId)
    ensures UseCut(s, w, w.slab + 1) == s.use && CountsCut(s, w, w.slab + 1) == s.count
  {
  }

  lemma AboveNext(s: State, w: SlabId, i: nat)
    requires w.slab < i && forall x | x in s.use :: x.offset < s.cfg.slabSize
    ensures UseCut(s, w, i + 1) == Zeroed(UseCut(s, w, i), i, 0, s.cfg.slabSize)
    ensures var c := CountsCut(s, w, i); CountsCut(s, w, i + 1) == if i in c then c[i := 0] else c
  {
  }

  lemma AboveAll(s: State, w: SlabId)
    requires NULL_ID in s.use && forall x | x in s.use :: InRange(s.cfg, x) && s.use[x] > 0
    requires forall k | k in s.count :: k < s.cfg.numSlabs
    ensures RefsOf(UseCut(s, w, s.cfg.numSlabs), NULL_ID) > 0
    ensures var u, c, n := UseCut(s, w, s.cfg.numSlabs), CountsCut(s, w, s.cfg.numSlabs), w.offset + 1;
      && Zeroed(u, w.slab, n, s.cfg.slabSize) == KeptBelow(s.use, w)
      && (if w.slab in c then c[w.slab := n] else c) == ResetCounts(s, w)
  {
  }

  /** The use map after slots start..end of one slab have been zeroed. */
  ghost function Zeroed(use: map<SlabId, nat>, slab: nat, start: nat, end: nat): map<SlabId, nat> {
    map x | x in use && !(x.slab == slab && start <= x.offset < end) :: use[x]
  }

  lemma DiscardedLog(s: State, x: SlabId)
    ensures Discarded(s, x).log == s.log && Discarded(s, x).cfg == s.cfg
  {
  }

  lemma LastReference(s: State, x: SlabId)
    requires Inv(s) && x in s.use && x != NULL_ID
    ensures InRange(s.cfg, x) && x.slab in s.count && s.count[x.slab] > 0
    ensures s.count[x.slab] == 1 ==> forall y | y in s.use - {x} :: y.slab != x.slab
  {
    assert x in LiveIn(s.Live(), x.slab);
    if s.count[x.slab] == 1 {
      FreedKeepsInv(s, x);
      assert Layout(Freed(s, x));
    }
  }

  lemma SingleReference(s: State, x: SlabId, t: State)
    requires Inv(s) && x in s.use && t == s.(use := s.use[x := 1])
    ensures Inv(t) && (x == NULL_ID || Released(t, x) == Freed(t, x))
  {
    assert t.Live() == s.Live();
    SameLiveKeepsInv(s, t);
  }

  lemma TargetExists(s: State, x: SlabId, counts: map<nat, nat>)
    requires Inv(s)
    requires (s.Depth() > 0 && NextAppend(s, x) && counts == WithSlabs(s.count, High(s.Live()).slab, x.slab + 1))
      || (s.Depth() == 0 && FirstFit(s, x) && counts == (if x.slab in s.count then s.count else s.count[x.slab := 0]))
    ensures InRange(s.cfg, x) && x.slab in counts && x !in s.use
    ensures counts[x.slab] == CountOf(s.count, x.slab)
  {
  }

  /** Every slot above the watermark and before (i, j) is quarantined. */
  ghost predicate PassedOver(s: State, i: nat, j: nat) {
    forall y | InRange(s.cfg, y) && Less(High(s.Live()), y) && (y.slab < i || (y.slab == i && y.offset < j)) ::
      y in s.quarantine
  }

  lemma SearchStarts(s: State)
    requires NULL_ID in s.use && forall x | x in s.use :: InRange(s.cfg, x)
    ensures var h := High(s.Live()); InRange(s.cfg, h) && PassedOver(s, h.slab, 0)
    ensures forall c :: WithSlabs(c, High(s.Live()).slab, High(s.Live()).slab) == c
  {
    forall c ensures WithSlabs(c, High(s.Live()).slab, High(s.Live()).slab) == c {}
  }

  lemma SearchPasses(s: State, i: nat, start: nat, j: nat)
    requires PassedOver(s, i, 0) && i < s.cfg.numSlabs
    requires var h := High(s.Live()); h.slab <= i && start == (if i == h.slab then h.offset + 1 else 0)
    requires start <= j && (j > start ==> j <= s.cfg.slabSize)
    requires forall k: nat | start <= k < j :: SlabId(i, k) in s.use || SlabId(i, k) in s.quarantine
    requires j < s.cfg.slabSize ==> SlabId(i, j) !in s.use && SlabId(i, j) !in s.quarantine
    ensures j < s.cfg.slabSize ==> NextAppend(s, SlabId(i, j))
    ensures j >= s.cfg.slabSize ==> PassedOver(s, i + 1, 0)
  {
    assert forall y | InRange(s.cfg, y) && Less(High(s.Live()), y) && y.slab == i && y.offset < j ::
      y == SlabId(i, y.offset) && y in s.quarantine;
  }

  lemma SearchEnds(s: State)
    requires PassedOver(s, s.cfg.numSlabs, 0)
    ensures forall y :: !Appendable(s, y)
  {
  }

  lemma WithSlabsNext(count: map<nat, nat>, lo: nat, i: nat)
    requires lo <= i
    ensures WithSlabs(WithSlabs(count, lo, i), i, i + 1) == WithSlabs(count, lo, i + 1)
  {
  }

  function RefsOf(use: map<SlabId, nat>, x: SlabId): nat { if x in use then use[x] else 0 }

  lemma HighIs(live: set<SlabId>, h: SlabId)
    requires h in live && forall x | x in live :: !Less(h, x)
    ensures h == High(live)
  {
    assert !Less(h, High(live)) && !Less(High(live), h);
  }
}
