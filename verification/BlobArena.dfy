/** The byte arena on the heap, each method tied to the operation of BlobModel it carries out. */
module BlobArena {
  import opened Common
  import opened BlobModel

  class BlobSlab {
    var count: nat
    const bytes: array<Byte>

    constructor ()
      ensures fresh(bytes) && bytes.Length == SLAB_BYTES && count == 0
    {
      bytes := new Byte[SLAB_BYTES];
      count := 0;
    }
  }

  /** The first-fit search has found no room below slab i, creating slabs on its way. */
  ghost predicate Passed(s: Blobs, i: nat, len: nat, counts: seq<nat>, mem: seq<seq<Byte>>) {
    && |counts| == |mem| && i <= |counts| && |s.counts| == |s.mem| <= |counts|
    && (i >= |s.counts| ==> |counts| <= i + 1)
    && (i < |s.counts| ==> |counts| == |s.counts|)
    && (forall k | 0 <= k < |counts| :: counts[k] == if k < |s.counts| then s.counts[k] else Start(k))
    && (forall k | 0 <= k < |mem| :: |mem[k]| == SLAB_BYTES && (k < |s.mem| ==> mem[k] == s.mem[k]))
    && (forall k: nat | k < i :: !Fits(s, k, len))
  }

  lemma NoSlabsPassed(s: Blobs, len: nat)
    requires Shape(s)
    ensures Passed(s, 0, len, s.counts, s.mem)
  {
  }

  lemma RefusesLength(s: Blobs, data: seq<Byte>)
    requires |data| == 0 || |data| > SLAB_BYTES
    ensures Allocates(s, data, NULL_ID, s)
  {
  }

  lemma NoRoom(s: Blobs, i: nat, len: nat, counts: seq<nat>, mem: seq<seq<Byte>>)
    requires Passed(s, i, len, counts, mem) && i < |counts| && counts[i] + len > SLAB_BYTES
    ensures Passed(s, i + 1, len, counts, mem)
  {
  }

  lemma FoundRoom(s: Blobs, i: nat, data: seq<Byte>, counts: seq<nat>, mem: seq<seq<Byte>>, t: Blobs)
    requires Shape(s) && 0 < |data| <= SLAB_BYTES && i < s.numSlabs
    requires Passed(s, i, |data|, counts, mem) && i < |counts| && counts[i] + |data| <= SLAB_BYTES
    requires var c := counts[i];
      t == s.(counts := counts[i := c + |data|], mem := mem[i := mem[i][..c] + data + mem[i][c + |data|..]])
    ensures Allocates(s, data, SlabId(i, counts[i]), t)
  {
    var c := counts[i];
    assert counts == WithSlabsTo(s.counts, i + 1);
    assert FirstFitting(s, i, |data|);
    assert t.mem[i][c..c + |data|] == data;
    assert t.mem[i][..c] == mem[i][..c] && t.mem[i][c + |data|..] == mem[i][c + |data|..];
  }

  lemma RanOut(s: Blobs, data: seq<Byte>, t: Blobs)
    requires Shape(s) && 0 < |data| <= SLAB_BYTES
    requires Passed(s, s.numSlabs, |data|, t.counts, t.mem) && |t.counts| <= s.numSlabs
    requires t == s.(counts := t.counts, mem := t.mem)
    ensures Allocates(s, data, NULL_ID, t)
  {
    assert t.counts == WithSlabsTo(s.counts, s.numSlabs);
  }

  class BlobAllocator {
    const numSlabs: nat
    const slabs: array<BlobSlab?>
    var checkpointWatermarks: seq<SlabId>
    var checkpointStack: seq<nat>

    ghost var counts: seq<nat>
    ghost var mem: seq<seq<Byte>>
    ghost var Repr: set<object>

    ghost predicate HeapOk()
      reads this, Repr
      ensures HeapOk() ==> this in Repr
    {
      && this in Repr && slabs in Repr && slabs.Length == numSlabs
      && |checkpointStack| == |checkpointWatermarks| && |counts| <= numSlabs
      && Linked()
    }

    ghost predicate Linked()
      requires slabs in Repr && slabs.Length == numSlabs
      reads this, Repr
    {
      true == (
        && |mem| == |counts| <= numSlabs
        && (forall i | 0 <= i < numSlabs :: slabs[i] != null <==> i < |counts|)
        && (forall i | 0 <= i < |counts| ::
              slabs[i] in Repr && slabs[i].bytes in Repr - {this, slabs} && slabs[i].bytes.Length == SLAB_BYTES
              && slabs[i].count == counts[i] && slabs[i].bytes[..] == mem[i])
        && (forall i, j | 0 <= i < |counts| && 0 <= j < |counts| && i != j ::
              slabs[i] != slabs[j] && slabs[i].bytes != slabs[j].bytes))
    }

    ghost function View(): Blobs
      reads this
    {
      Blobs(numSlabs, counts, mem, checkpointWatermarks)
    }

    ghost predicate Valid()
      reads this, Repr
      ensures Valid() ==> this in Repr
    {
      HeapOk() && Shape(View())
    }

    constructor (numSlabs: nat)
      ensures Valid() && fresh(Repr) && View() == Blobs(numSlabs, [], [], [])
    {
      this.numSlabs := numSlabs;
      slabs := new BlobSlab?[numSlabs](_ => null);
      checkpointWatermarks, checkpointStack := [], [];
      counts, mem := [], [];
      new;
      Repr := {this, slabs};
    }

    method SetCount(i: nat, n: nat)
      requires HeapOk() && i < |counts|
      modifies this`counts, Repr - {this, slabs}
      ensures HeapOk() && counts == old(counts)[i := n]
    {
      slabs[i].count := n;
      counts := counts[i := n];
    }

    /** createOwnedSlab, with the null id reserved in slab 0. */
    method CreateSlab(i: nat)
      requires HeapOk() && i == |counts| < numSlabs
      modifies this`counts, this`mem, this`Repr, slabs
      ensures HeapOk() && fresh(Repr - old(Repr))
      ensures counts == old(counts) + [Start(|old(counts)|)]
      ensures |mem| == |counts| && mem[..|old(mem)|] == old(mem) && |mem[|old(mem)|]| == SLAB_BYTES
    {
      var s := new BlobSlab();
      if i == 0 { s.count := 1; }
      slabs[i] := s;
      counts := counts + [s.count];
      mem := mem + [s.bytes[..]];
      Repr := Repr + {s, s.bytes};
      assert mem[..|old(mem)|] == old(mem);
      assert forall j | 0 <= j < i :: slabs[j].bytes[..] == mem[j];
    }

    method WriteBytes(i: nat, at: nat, data: seq<Byte>)
      requires HeapOk() && i < |counts| && at + |data| <= SLAB_BYTES
      modifies this`mem, Repr - {this, slabs}
      ensures HeapOk() && |mem| == |old(mem)| && |old(mem[i])| == SLAB_BYTES
      ensures mem == old(mem)[i := old(mem[i])[..at] + data + old(mem[i])[at + |data|..]]
    {
      var b := slabs[i].bytes;
      ghost var was := b[..];
      forall k | 0 <= k < |data| {
        b[at + k] := data[k];
      }
      assert b[..] == was[..at] + data + was[at + |data|..];
      mem := mem[i := b[..]];
    }

    method Allocate(data: seq<Byte>) returns (id: SlabId)
      requires Valid()
      modifies Repr
      ensures Valid() && fresh(Repr - old(Repr))
      ensures Allocates(old(View()), data, id, View())
    {
      hide Linked, Fits, Allocates;
      ghost var s := View();
      if |data| == 0 || |data| > SLAB_BYTES {
        RefusesLength(s, data);
        return NULL_ID;
      }
      NoSlabsPassed(s, |data|);
      var i := 0;
      while i < numSlabs
        invariant i <= numSlabs
        invariant HeapOk() && fresh(Repr - old(Repr)) && checkpointWatermarks == s.marks
        invariant Passed(s, i, |data|, counts, mem)
      {
        EnsureSlab(i, s, |data|);
        var used := UsedBytes(i);
        if SLAB_BYTES - used >= |data| {
          id := SlabId(i, used);
          ghost var c, m := counts, mem;
          WriteBytes(i, used, data);
          SetCount(i, used + |data|);
          FoundRoom(s, i, data, c, m, View());
          return;
        }
        NoRoom(s, i, |data|, counts, mem);
        i := i + 1;
      }
      RanOut(s, data, View());
      id := NULL_ID;
    }

    method UsedBytes(i: nat) returns (n: nat)
      requires HeapOk() && i < |counts|
      ensures n == counts[i]
    {
      n := slabs[i].count;
    }

    method EnsureSlab(i: nat, ghost s: Blobs, ghost len: nat)
      requires HeapOk() && i < numSlabs == s.numSlabs && Passed(s, i, len, counts, mem)
      modifies this`counts, this`mem, this`Repr, slabs
      ensures HeapOk() && fresh(Repr - old(Repr)) && i < |counts|
      ensures Passed(s, i, len, counts, mem)
    {
      if slabs[i] == null { CreateSlab(i); }
    }

    method OpenCheckpoint() returns (cp: BlobCheckpoint)
      requires Valid()
      modifies this
      ensures Valid() && Repr == old(Repr) && View() == Opened(old(View()))
      ensures cp == BlobCheckpoint(|checkpointWatermarks|, true, Watermark(old(View())))
    {
      var w := NULL_ID;
      var i := numSlabs;
      while i > 0
        invariant 0 <= i <= numSlabs && |counts| <= i && w == NULL_ID
      {
        i := i - 1;
        if slabs[i] != null {
          w := SlabId(i, Truncated(slabs[i].count));
          break;
        }
      }
      checkpointWatermarks := checkpointWatermarks + [w];
      checkpointStack := checkpointStack + [|checkpointWatermarks|];
      cp := BlobCheckpoint(|checkpointStack|, true, w);
    }

    method PopLevel()
      requires Valid() && |checkpointStack| > 0
      modifies this`checkpointStack, this`checkpointWatermarks
      ensures Valid() && checkpointWatermarks == old(checkpointWatermarks)[..|old(checkpointWatermarks)| - 1]
    {
      checkpointWatermarks := checkpointWatermarks[..|checkpointWatermarks| - 1];
      checkpointStack := checkpointStack[..|checkpointStack| - 1];
    }

    method Rollback(cp: BlobCheckpoint) returns (ok: bool)
      requires Valid() && cp.watermark.slab < numSlabs && cp.watermark.offset < 65536
      modifies Repr
      ensures Valid() && Repr == old(Repr)
      ensures ok == Accepts(old(View()), cp) && View() == RolledBack(old(View()), cp)
    {
      if !cp.valid || |checkpointStack| == 0 || cp.depth != |checkpointStack| { return false; }
      var w := cp.watermark;
      ghost var was := counts;
      PopLevel();
      var i := w.slab + 1;
      while i < numSlabs
        invariant Valid() && Repr == old(Repr) && w.slab < i <= numSlabs
        invariant View() == RolledBack(old(View()), cp).(counts := counts)
        invariant |counts| == |was|
        invariant forall k | 0 <= k < |was| :: counts[k] == if w.slab < k < i then 0 else was[k]
      {
        if slabs[i] != null { SetCount(i, 0); }
        i := i + 1;
      }
      if slabs[w.slab] != null { SetCount(w.slab, w.offset); }
      return true;
    }

    method Commit(cp: BlobCheckpoint) returns (ok: bool)
      requires Valid()
      modifies this
      ensures Valid() && Repr == old(Repr)
      ensures ok == Accepts(old(View()), cp) && View() == Committed(old(View()), cp)
    {
      if !cp.valid || |checkpointStack| == 0 || cp.depth != |checkpointStack| { return false; }
      PopLevel();
      return true;
    }
  }
}
