/** What every reachable arena state satisfies, and that every operation keeps it. */
module ArenaInvariant {
  import opened Common
  import opened ArenaModel

  /** Live slots lie in existing slabs; no slab counts fewer slots than it holds, and without strict
      resets the count is exact. The null slot is always live. */
  ghost predicate Layout(s: State) {
    && NULL_ID in s.use
    && (forall x | x in s.use :: InRange(s.cfg, x) && x.slab in s.count && s.use[x] > 0)
    && (forall i | i in s.count :: i < s.cfg.numSlabs && |LiveIn(s.Live(), i)| <= s.count[i])
    && (!s.cfg.strictEligible ==> forall i | i in s.count :: |LiveIn(s.Live(), i)| == s.count[i])
  }

  ghost predicate Stacks(s: State) {
    && |s.starts| == |s.marks| == |s.appendOnly|
    && (forall k | 0 <= k < |s.starts| :: s.starts[k] <= |s.log|)
    && (forall k, j | 0 <= k < j < |s.starts| :: s.starts[k] <= s.starts[j])
    && (|s.starts| == 0 ==> s.log == [] && s.quarantine == {})
  }

  /** Whatever was allocated under a checkpoint is still live or quarantined, and a quarantined slot is not live. */
  ghost predicate Logged(s: State) {
    && Distinct(s.log)
    && NULL_ID !in s.log
    && (forall x | x in s.log :: x in s.use || x in s.quarantine)
    && s.quarantine !! s.use.Keys
  }

  /** The append-only flag of a level promises: its watermark is still live, and what is live above the
      watermark is exactly what the log holds since that level. */
  ghost predicate LevelExact(s: State, k: nat)
    requires k < |s.starts| == |s.marks|
    requires s.starts[k] <= |s.log|
  {
    s.marks[k] in s.use && Above(s.Live(), s.marks[k]) == ToSet(s.log[s.starts[k]..])
  }

  ghost predicate FastPath(s: State)
    requires Stacks(s)
  {
    && (forall k | 0 <= k < |s.starts| && s.appendOnly[k] :: LevelExact(s, k))
    && (forall k, j | 0 <= k < j < |s.starts| && s.appendOnly[k] :: s.appendOnly[j] && !Less(s.marks[j], s.marks[k]))
  }

  // Written as one equation, not as a conjunction, so that a proof that merely passes the invariant on has
  // a single fact to check.
  ghost predicate Inv(s: State) {
    true == (Layout(s) && Stacks(s) && Logged(s) && FastPath(s))
  }

  /** A fresh arena: one slab, holding only the null slot. */
  function Initial(c: Config): State {
    State(c, map[NULL_ID := 1], map[0 := 1], [], [], [], [], {})
  }

  lemma InitialInv(c: Config)
    requires c.numSlabs > 0 && c.slabSize > 0
    ensures Inv(Initial(c))
  {
    assert Initial(c).Live() == {NULL_ID} && LiveIn({NULL_ID}, 0) == {NULL_ID};
  }

  lemma InvShape(s: State)
    requires Inv(s)
    ensures s.cfg.slabSize > 0 && Stacks(s) && NULL_ID in s.use && NULL_ID !in s.log
    ensures forall x | x in s.use :: InRange(s.cfg, x) && s.use[x] > 0
  {
  }

  // ------------------------------------------------------------------ counting

  lemma LiveInAdd(live: set<SlabId>, x: SlabId, i: nat)
    requires x !in live
    ensures |LiveIn(live + {x}, i)| == |LiveIn(live, i)| + (if x.slab == i then 1 else 0)
  {
    if x.slab == i {
      assert LiveIn(live + {x}, i) == LiveIn(live, i) + {x};
    } else {
      assert LiveIn(live + {x}, i) == LiveIn(live, i);
    }
  }

  lemma LiveInDrop(live: set<SlabId>, x: SlabId, i: nat)
    requires x in live
    ensures |LiveIn(live - {x}, i)| == |LiveIn(live, i)| - (if x.slab == i then 1 else 0)
  {
    LiveInAdd(live - {x}, x, i);
    assert live - {x} + {x} == live;
  }

  /** The slots of one slab with offset below n. */
  function Prefix(slab: nat, n: nat): set<SlabId> {
    set j: nat | j < n :: SlabId(slab, j)
  }

  lemma {:induction false} PrefixSize(slab: nat, n: nat)
    ensures |Prefix(slab, n)| == n
  {
    if n > 0 {
      PrefixSize(slab, n - 1);
      assert Prefix(slab, n) == Prefix(slab, n - 1) + {SlabId(slab, n - 1)};
    } else {
      assert Prefix(slab, n) == {};
    }
  }

  lemma SubsetSize<T>(a: set<T>, b: set<T>)
    requires a <= b
    ensures |a| <= |b|
  {
    assert b == a + (b - a);
  }

  /** A slab that is not counted full has a free slot: this is what keeps allocation in range. */
  lemma FreeSlotExists(s: State, slab: nat)
    requires Layout(s) && slab in s.count && s.count[slab] < s.cfg.slabSize
    ensures exists j: nat :: j < s.cfg.slabSize && SlabId(slab, j) !in s.use
  {
    if forall j: nat | j < s.cfg.slabSize :: SlabId(slab, j) in s.use {
      PrefixSize(slab, s.cfg.slabSize);
      assert Prefix(slab, s.cfg.slabSize) <= LiveIn(s.Live(), slab);
      SubsetSize(Prefix(slab, s.cfg.slabSize), LiveIn(s.Live(), slab));
      assert false;
    }
  }

  lemma LiveBelowBound(live: set<SlabId>, slab: nat, n: nat)
    requires forall x | x in live && x.slab == slab :: x.offset < n
    ensures |LiveIn(live, slab)| <= n
  {
    PrefixSize(slab, n);
    forall x | x in LiveIn(live, slab) ensures x in Prefix(slab, n) {
      assert x == SlabId(slab, x.offset);
    }
    SubsetSize(LiveIn(live, slab), Prefix(slab, n));
  }

  // ------------------------------------------------------------------ single operations

  lemma FreedKeepsLayout(s: State, x: SlabId)
    requires Layout(s) && x in s.use && x != NULL_ID
    ensures Layout(Freed(s, x))
  {
    var t := Freed(s, x);
    assert t.Live() == s.Live() - {x};
    forall i | i in s.count ensures |LiveIn(t.Live(), i)| == |LiveIn(s.Live(), i)| - (if x.slab == i then 1 else 0) {
      LiveInDrop(s.Live(), x, i);
    }
    assert x in LiveIn(s.Live(), x.slab);
    if x.slab !in t.count {
      assert LiveIn(t.Live(), x.slab) == {};
      forall y | y in t.use ensures y.slab in t.count {
        assert y.slab == x.slab ==> y in LiveIn(t.Live(), x.slab);
      }
    }
  }

  /** Dropping the last reference keeps the invariant: the slot goes to quarantine and every fast path closes. */
  lemma FreedKeepsInv(s: State, x: SlabId)
    requires Inv(s) && x in s.use && x != NULL_ID
    ensures Inv(Freed(s, x))
  {
    FreedKeepsLayout(s, x);
  }

  lemma ReleasedKeepsInv(s: State, x: SlabId)
    requires Inv(s)
    ensures Inv(Released(s, x))
  {
    if x == NULL_ID || x !in s.use {
    } else if s.use[x] > 1 {
      assert Released(s, x).Live() == s.Live();
      SameLiveKeepsInv(s, Released(s, x));
    } else {
      FreedKeepsInv(s, x);
    }
  }

  lemma RetainedKeepsInv(s: State, x: SlabId)
    requires Inv(s)
    ensures Inv(Retained(s, x))
  {
    if x != NULL_ID && x in s.use {
      assert Retained(s, x).Live() == s.Live();
      SameLiveKeepsInv(s, Retained(s, x));
    }
  }

  lemma SameLiveKeepsInv(s: State, t: State)
    requires Inv(s) && t == s.(use := t.use) && t.Live() == s.Live()
    requires forall x | x in t.use :: t.use[x] > 0
    ensures Inv(t)
  {
    forall k | 0 <= k < |t.starts| && t.appendOnly[k] ensures LevelExact(t, k) { assert LevelExact(s, k); }
  }

  lemma OpenedKeepsInv(s: State)
    requires Inv(s)
    ensures Inv(Opened(s))
  {
    var t := Opened(s);
    var n := |s.starts|;
    forall k | 0 <= k < n && t.appendOnly[k] ensures LevelExact(t, k) { assert LevelExact(s, k); }
    assert t.log[t.starts[n]..] == [];
    assert LevelExact(t, n);
    forall k, j | 0 <= k < j < |t.starts| && t.appendOnly[k]
      ensures t.appendOnly[j] && !Less(t.marks[j], t.marks[k])
    {
      assert LevelExact(s, k);
    }
  }

  lemma WithSlabsKeepsLayout(s: State, lo: nat, hi: nat)
    requires Layout(s) && hi <= s.cfg.numSlabs
    ensures Layout(s.(count := WithSlabs(s.count, lo, hi)))
  {
    var t := s.(count := WithSlabs(s.count, lo, hi));
    forall i | i in t.count && i !in s.count ensures LiveIn(t.Live(), i) == {} {
    }
  }

  lemma OccupiedKeepsLayout(s: State, x: SlabId)
    requires Layout(s) && InRange(s.cfg, x) && x !in s.use
    ensures Layout(Occupied(s, x))
  {
    var t := Occupied(s, x);
    assert t.Live() == s.Live() + {x};
    if x.slab !in s.count { assert LiveIn(s.Live(), x.slab) == {}; }
    forall i | i in t.count ensures |LiveIn(t.Live(), i)| == |LiveIn(s.Live(), i)| + (if x.slab == i then 1 else 0) {
      LiveInAdd(s.Live(), x, i);
    }
  }

  /** The slot an allocation returns was neither live nor quarantined and lies inside the arena. */
  lemma AllocatedIsFree(s: State, x: SlabId, t: State)
    requires Inv(s) && Allocates(s, Some(x), t)
    ensures x !in s.use && x !in s.quarantine && InRange(s.cfg, x)
    ensures t.Live() == s.Live() + {x} && t.use[x] == 1
    ensures forall y | y in s.use :: t.use[y] == s.use[y]
  {
  }

  lemma AppendKeepsFastPath(s: State, x: SlabId, t: State)
    requires Inv(s) && s.Depth() > 0 && Allocates(s, Some(x), t) && Stacks(t)
    ensures FastPath(t)
  {
    forall k | 0 <= k < |t.starts| && t.appendOnly[k] ensures LevelExact(t, k) {
      assert LevelExact(s, k);
      var m := s.marks[k];
      assert Less(m, x);
      assert t.log[t.starts[k]..] == s.log[s.starts[k]..] + [x];
      assert Above(t.Live(), m) == Above(s.Live(), m) + {x};
      assert ToSet(s.log[s.starts[k]..] + [x]) == ToSet(s.log[s.starts[k]..]) + {x};
    }
  }

  lemma AllocatedKeepsInv(s: State, x: SlabId, t: State)
    requires Inv(s) && Allocates(s, Some(x), t)
    ensures Inv(t)
  {
    hide Layout, Logged, FastPath;
    AllocatedIsFree(s, x, t);
    AllocatedKeepsLayout(s, x, t);
    AllocatedKeepsLog(s, x, t);
    if s.Depth() > 0 { AppendKeepsFastPath(s, x, t); }
  }

  lemma AllocatedKeepsLog(s: State, x: SlabId, t: State)
    requires Inv(s) && Allocates(s, Some(x), t) && x !in s.use && x !in s.quarantine
    ensures Stacks(t) && Logged(t) && (s.Depth() == 0 ==> FastPath(t))
  {
    assert NULL_ID in s.use;
  }

  lemma AllocatedKeepsLayout(s: State, x: SlabId, t: State)
    requires Layout(s) && x !in s.use && Allocates(s, Some(x), t)
    ensures Layout(t)
  {
    hide Layout, Appended, Occupied;
    if s.Depth() == 0 {
      OccupiedKeepsLayout(s, x);
    } else {
      AppendedKeepsLayout(s, x);
    }
  }

  lemma AppendedKeepsLayout(s: State, x: SlabId)
    requires Layout(s) && x !in s.use && InRange(s.cfg, x)
    ensures Layout(Appended(s, x))
  {
    hide Layout, WithSlabs, High;
    var lo := High(s.Live()).slab;
    var u := s.(count := WithSlabs(s.count, lo, x.slab + 1));
    WithSlabsKeepsLayout(s, lo, x.slab + 1);
    OccupiedKeepsLayout(u, x);
    SameLayout(Occupied(u, x), Appended(s, x));
  }

  lemma SameLayout(s: State, t: State)
    requires Layout(s) && t.use == s.use && t.count == s.count && t.cfg == s.cfg
    ensures Layout(t)
  {
  }

  /** Running out of slots may leave new empty slabs behind, and nothing else. */
  lemma RefusedKeepsInv(s: State, t: State)
    requires Inv(s) && Allocates(s, None, t)
    ensures Inv(t) && t.use == s.use
  {
    hide Layout, High, WithSlabs, Distinct;
    if s.Depth() > 0 {
      WithSlabsKeepsLayout(s, High(s.Live()).slab, s.cfg.numSlabs);
      forall k | 0 <= k < |t.starts| && t.appendOnly[k] ensures LevelExact(t, k) { assert LevelExact(s, k); }
    }
  }

  // ------------------------------------------------------------------ closing a level

  lemma ToSetEmpty(log: seq<SlabId>)
    ensures ToSet(log) == {} <==> log == []
  {
    if log != [] { assert log[0] in ToSet(log); }
  }

  /** Closing the top level is safe once nothing that the log holds since it is live any more. */
  lemma TruncatedKeepsInv(d: State)
    requires Inv(d) && d.Depth() > 0
    requires forall x | x in d.log[d.starts[d.Depth() - 1]..] :: x !in d.use
    ensures Inv(PopLevel(d.(log := d.log[..d.starts[d.Depth() - 1]])))
  {
    var n := d.Depth() - 1;
    var from := d.starts[n];
    var t := PopLevel(d.(log := d.log[..from]));
    assert Layout(t);
    if n > 0 {
      forall k | 0 <= k < n && t.appendOnly[k] ensures LevelExact(t, k) {
        assert LevelExact(d, k) && LevelExact(d, n);
        assert ToSet(d.log[from..]) == {};
        ToSetEmpty(d.log[from..]);
        assert t.log == d.log;
      }
      assert forall x | x in t.log :: x in d.log;
    }
  }

  lemma CommittedKeepsInv(s: State, cp: Checkpoint)
    requires Inv(s)
    ensures Inv(Committed(s, cp))
  {
    if Accepts(s, cp) && s.Depth() > 1 {
      var t := Committed(s, cp);
      forall k | 0 <= k < |t.starts| && t.appendOnly[k] ensures LevelExact(t, k) { assert LevelExact(s, k); }
    }
  }

  // ------------------------------------------------------------------ the three routes

  lemma DropTwice<T, U>(m: map<T, U>, x: T, a: set<T>)
    ensures (m - {x}) - a == m - (a + {x})
  {
  }

  lemma {:induction false} ReplayedUse(s: State, log: seq<SlabId>, n: nat, from: nat)
    requires from <= n <= |log|
    ensures Replayed(s, log, n, from).use == s.use - ToSet(log[from..n])
    ensures s.quarantine <= Replayed(s, log, n, from).quarantine
    decreases n
  {
    if n > from {
      var x := log[n - 1];
      var t := Discarded(s, x);
      ReplayedUse(t, log, n - 1, from);
      assert log[from..n] == log[from..n - 1] + [x];
      assert ToSet(log[from..n]) == ToSet(log[from..n - 1]) + {x};
      assert t.use == s.use - {x};
      DropTwice(s.use, x, ToSet(log[from..n - 1]));
    } else {
      assert ToSet(log[from..n]) == {};
    }
  }

  lemma DiscardedKeepsInv(s: State, x: SlabId)
    requires Inv(s) && x != NULL_ID
    ensures Inv(Discarded(s, x))
  {
    if x in s.use { FreedKeepsInv(s, x); }
  }

  lemma {:induction false} ReplayedKeepsInv(s: State, log: seq<SlabId>, n: nat, from: nat)
    requires Inv(s) && n <= |log| && NULL_ID !in log
    ensures Inv(Replayed(s, log, n, from))
    decreases n
  {
    if n > from {
      assert log[n - 1] in log;
      DiscardedKeepsInv(s, log[n - 1]);
      ReplayedKeepsInv(Discarded(s, log[n - 1]), log, n - 1, from);
    }
  }

  lemma BeforeIsNext(c: Config, cur: SlabId, y: SlabId)
    requires c.slabSize > 0 && InRange(c, cur) && cur != NULL_ID && InRange(c, y)
    ensures InRange(c, Before(c, cur))
    ensures Less(y, cur) <==> !Less(Before(c, cur), y)
    ensures Less(Before(c, cur), cur)
  {
  }

  /** The live slots strictly above w and not above cur. */
  function Between(live: set<SlabId>, w: SlabId, cur: SlabId): set<SlabId> {
    set x | x in live && Less(w, x) && !Less(cur, x)
  }

  /** One step of the walk takes exactly the slot it stands on out of the range still to go. */
  lemma BetweenStep(c: Config, live: set<SlabId>, w: SlabId, cur: SlabId)
    requires c.slabSize > 0 && InRange(c, cur) && InRange(c, w) && Less(w, cur) && cur != NULL_ID
    requires forall x | x in live :: InRange(c, x)
    ensures live - Between(live, w, cur) == (live - {cur}) - Between(live - {cur}, w, Before(c, cur))
    ensures Between(live, w, cur) == Between(live - {cur}, w, Before(c, cur)) + ({cur} * live)
  {
    var b := Before(c, cur);
    forall x | x in live
      ensures x in Between(live, w, cur) <==> x == cur || x in Between(live - {cur}, w, b)
    {
      BeforeIsNext(c, cur, x);
    }
  }

  lemma {:induction false} WalkedUse(s: State, cur: SlabId, w: SlabId)
    requires s.cfg.slabSize > 0 && InRange(s.cfg, cur) && InRange(s.cfg, w) && !Less(cur, w)
    requires forall x | x in s.use :: InRange(s.cfg, x)
    ensures Walked(s, cur, w).use == s.use - Between(s.Live(), w, cur)
    ensures s.quarantine <= Walked(s, cur, w).quarantine
    decreases cur.slab, cur.offset
  {
    if cur == w {
      assert forall x | x in s.Live() :: x !in Between(s.Live(), w, cur);
    } else {
      var t := Discarded(s, cur);
      var b := Before(s.cfg, cur);
      BeforeIsNext(s.cfg, cur, w);
      WalkedUse(t, b, w);
      assert t.use == s.use - {cur};
      assert t.Live() == s.Live() - {cur};
      BetweenStep(s.cfg, s.Live(), w, cur);
      DropTwice(s.use, cur, Between(t.Live(), w, b));
      SameDrop(s.use, Between(t.Live(), w, b) + {cur}, Between(s.Live(), w, cur));
    }
  }

  lemma SameDrop<T, U>(m: map<T, U>, a: set<T>, b: set<T>)
    requires m.Keys - a == m.Keys - b
    ensures m - a == m - b
  {
    forall x | x in m ensures x in a <==> x in b {
      assert x in a <==> x !in m.Keys - a;
    }
  }

  lemma {:induction false} WalkedKeepsInv(s: State, cur: SlabId, w: SlabId)
    requires Inv(s)
    ensures Inv(Walked(s, cur, w))
    decreases cur.slab, cur.offset
  {
    if cur != NULL_ID && cur != w {
      DiscardedKeepsInv(s, cur);
      WalkedKeepsInv(Discarded(s, cur), Before(s.cfg, cur), w);
    }
  }

  lemma ResetKeepsLayout(s: State, w: SlabId)
    requires Layout(s) && w in s.use
    ensures Layout(Reset(s, w)) || !s.cfg.strictEligible
  {
    var t := Reset(s, w);
    assert NULL_ID in t.use;
    assert t.Live() <= s.Live();
    forall i | i in t.count ensures |LiveIn(t.Live(), i)| <= t.count[i] {
      assert LiveIn(t.Live(), i) <= LiveIn(s.Live(), i);
      SubsetSize(LiveIn(t.Live(), i), LiveIn(s.Live(), i));
      if i > w.slab {
        LiveBelowBound(t.Live(), i, 0);
      } else if i == w.slab {
        LiveBelowBound(t.Live(), i, w.offset + 1);
      }
    }
  }

  /** While the flag stands, what is live and not above the watermark is what is live and not in the log. */
  lemma ExactSplit(s: State)
    requires Inv(s) && s.Depth() > 0 && s.appendOnly[s.Depth() - 1]
    ensures var n := s.Depth() - 1;
      KeptBelow(s.use, s.marks[n]) == s.use - ToSet(s.log[s.starts[n]..])
  {
    var n := s.Depth() - 1;
    assert LevelExact(s, n);
    forall x | x in s.use ensures Less(s.marks[n], x) <==> x in ToSet(s.log[s.starts[n]..]) {
      assert Less(s.marks[n], x) <==> x in Above(s.Live(), s.marks[n]);
    }
  }

  lemma ReplayUse(s: State)
    requires Inv(s) && s.Depth() > 0
    ensures var from := s.starts[s.Depth() - 1];
      Replayed(s, s.log, |s.log|, from).use == s.use - ToSet(s.log[from..])
  {
    var from := s.starts[s.Depth() - 1];
    ReplayedUse(s, s.log, |s.log|, from);
    assert s.log[from..|s.log|] == s.log[from..];
  }

  lemma WalkUse(s: State)
    requires Inv(s) && s.Depth() > 0 && s.appendOnly[s.Depth() - 1]
    ensures var w := s.marks[s.Depth() - 1];
      Walked(s, High(s.Live()), w).use == KeptBelow(s.use, w)
  {
    var n := s.Depth() - 1;
    var h, w := High(s.Live()), s.marks[n];
    assert LevelExact(s, n);
    assert h in s.use && w in s.use;
    WalkedUse(s, h, w);
    forall x | x in s.use ensures x in Between(s.Live(), w, h) <==> Less(w, x) {}
    assert s.use - Between(s.Live(), w, h) == KeptBelow(s.use, w);
  }

  /** All three routes leave the same live slots with the same reference counts as replaying the log:
      the watermark forms refine the simple one. */
  lemma RoutesAgree(s: State)
    requires Inv(s) && s.Depth() > 0 && s.appendOnly[s.Depth() - 1]
    ensures var n := s.Depth() - 1;
      var replay := Replayed(s, s.log, |s.log|, s.starts[n]);
      && Reset(s, s.marks[n]).use == replay.use
      && Walked(s, High(s.Live()), s.marks[n]).use == replay.use
      && replay.use == s.use - ToSet(s.log[s.starts[n]..])
  {
    ReplayUse(s);
    ExactSplit(s);
    WalkUse(s);
  }

  /** Whatever the route, undoing the top level removes exactly the slots its part of the log names. */
  lemma UndoneEffect(s: State, cp: Checkpoint)
    requires Inv(s) && Accepts(s, cp) && cp.watermark == s.marks[s.Depth() - 1]
    ensures Undone(s, cp).use == s.use - ToSet(s.log[cp.logStart..])
  {
    ReplayUse(s);
    if s.appendOnly[s.Depth() - 1] { RoutesAgree(s); }
  }

  lemma UndoneQuarantine(s: State, cp: Checkpoint)
    requires Inv(s) && Accepts(s, cp) && cp.watermark == s.marks[s.Depth() - 1]
    ensures s.quarantine <= Undone(s, cp).quarantine
  {
    ReplayedUse(s, s.log, |s.log|, cp.logStart);
    if s.appendOnly[s.Depth() - 1] {
      assert LevelExact(s, s.Depth() - 1);
      WalkedUse(s, High(s.Live()), cp.watermark);
    }
  }

  lemma UndoneKeepsInv(s: State, cp: Checkpoint)
    requires Inv(s) && Accepts(s, cp)
    requires !(s.appendOnly[s.Depth() - 1] && s.cfg.strictEligible)
    ensures Inv(Undone(s, cp))
  {
    hide Inv, Layout, Logged, FastPath;
    InvShape(s);
    if s.appendOnly[s.Depth() - 1] {
      WalkedKeepsInv(s, High(s.Live()), cp.watermark);
    } else {
      ReplayedKeepsInv(s, s.log, |s.log|, cp.logStart);
    }
  }

  /** `t` is `s` with its top level closed and the slots of that level gone from use and log. */
  ghost predicate TopRemoved(s: State, t: State)
    requires s.Depth() > 0 && Stacks(s)
  {
    var n := s.Depth() - 1;
    && t.use == s.use - ToSet(s.log[s.starts[n]..]) && t.cfg == s.cfg
    && t.starts == s.starts[..n] && t.marks == s.marks[..n] && t.appendOnly == s.appendOnly[..n]
    && t.log == (if n == 0 then [] else s.log[..s.starts[n]])
    && t.quarantine == (if n == 0 then {} else s.quarantine)
  }

  lemma ResetRollbackShape(s: State, cp: Checkpoint)
    requires Inv(s) && Accepts(s, cp) && cp.watermark == s.marks[s.Depth() - 1]
    requires s.appendOnly[s.Depth() - 1] && s.cfg.strictEligible
    ensures TopRemoved(s, RolledBack(s, cp))
    ensures RolledBack(s, cp).count == ResetCounts(s, s.marks[s.Depth() - 1])
  {
    UndoneEffect(s, cp);
  }

  lemma SplitLog(s: State, from: nat)
    requires Distinct(s.log) && from <= |s.log|
    ensures forall x | x in s.log[..from] :: x in s.log && x !in s.log[from..]
    ensures Distinct(s.log[..from])
  {
    forall x | x in s.log[..from] ensures x in s.log && x !in s.log[from..] {
      var i :| 0 <= i < from && s.log[..from][i] == x;
      assert s.log[i] == x;
      assert forall j | 0 <= j < |s.log| - from :: s.log[from..][j] == s.log[from + j];
    }
  }

  lemma ResetLayout(s: State, t: State)
    requires Inv(s) && s.Depth() > 0 && s.appendOnly[s.Depth() - 1] && s.cfg.strictEligible
    requires TopRemoved(s, t) && t.count == ResetCounts(s, s.marks[s.Depth() - 1])
    ensures Layout(t)
  {
    var w := s.marks[s.Depth() - 1];
    assert LevelExact(s, s.Depth() - 1);
    ExactSplit(s);
    assert t.use == Reset(s, w).use;
    assert s.cfg.strictEligible == Reset(s, w).cfg.strictEligible;
    ResetKeepsLayout(s, w);
    hide Inv;
    SameLayout(Reset(s, w), t);
  }

  lemma ResetLogged(s: State, t: State)
    requires Inv(s) && s.Depth() > 0 && TopRemoved(s, t)
    ensures Logged(t) && Stacks(t)
  {
    hide Layout, FastPath;
    SplitLog(s, s.starts[s.Depth() - 1]);
    assert t.use.Keys <= s.use.Keys;
  }

  lemma ResetFastPath(s: State, t: State)
    requires Inv(s) && s.Depth() > 0 && s.appendOnly[s.Depth() - 1] && TopRemoved(s, t) && Stacks(t)
    ensures FastPath(t)
  {
    var n := s.Depth() - 1;
    forall k | 0 <= k < n && t.appendOnly[k] ensures LevelExact(t, k) {
      ResetLevelExact(s, k, t);
    }
  }

  lemma ResetRollbackKeepsInv(s: State, cp: Checkpoint)
    requires Inv(s) && Accepts(s, cp) && cp.watermark == s.marks[s.Depth() - 1]
    requires s.appendOnly[s.Depth() - 1] && s.cfg.strictEligible
    ensures Inv(RolledBack(s, cp))
  {
    hide RolledBack, TopRemoved, Layout, Logged, FastPath;
    InvShape(s);
    var t := RolledBack(s, cp);
    ResetRollbackShape(s, cp);
    ResetLayout(s, t);
    ResetLogged(s, t);
    ResetFastPath(s, t);
  }

  lemma ResetLevelExact(s: State, k: nat, t: State)
    requires Inv(s) && k < s.Depth() - 1 && s.appendOnly[k]
    requires t.Depth() == |t.marks| == s.Depth() - 1 && t.starts[k] == s.starts[k] && t.marks[k] == s.marks[k]
    requires t.log == s.log[..s.starts[s.Depth() - 1]]
    requires t.use == s.use - ToSet(s.log[s.starts[s.Depth() - 1]..])
    ensures LevelExact(t, k)
  {
    var n := s.Depth() - 1;
    assert LevelExact(s, k) && LevelExact(s, n);
    var a, b := s.starts[k], s.starts[n];
    var m := s.marks[k];
    SplitLog(s, b);
    assert s.log[a..] == t.log[a..] + s.log[b..];
    assert ToSet(s.log[a..]) == ToSet(t.log[a..]) + ToSet(s.log[b..]);
    assert ToSet(t.log[a..]) !! ToSet(s.log[b..]) by {
      forall x | x in t.log[a..] ensures x in s.log[..b] {}
    }
    assert Above(t.Live(), m) == Above(s.Live(), m) - ToSet(s.log[b..]);
    assert !Less(s.marks[n], m);
    assert m !in ToSet(s.log[b..]) by { assert m !in Above(s.Live(), s.marks[n]); }
  }

  lemma ReplayRollbackKeepsInv(s: State, cp: Checkpoint)
    requires Inv(s) && Accepts(s, cp) && cp.watermark == s.marks[s.Depth() - 1]
    requires !(s.appendOnly[s.Depth() - 1] && s.cfg.strictEligible)
    ensures Inv(RolledBack(s, cp))
  {
    hide Inv, Layout, Logged, FastPath, Undone;
    InvShape(s);
    var d := Undone(s, cp);
    SameStacks(s, cp);
    UndoneKeepsInv(s, cp);
    UndoneEffect(s, cp);
    TruncatedKeepsInv(d);
  }

  lemma RolledBackKeepsInv(s: State, cp: Checkpoint)
    requires Inv(s) && (Accepts(s, cp) ==> cp.watermark == s.marks[s.Depth() - 1])
    ensures Inv(RolledBack(s, cp))
  {
    if Accepts(s, cp) {
      if s.appendOnly[s.Depth() - 1] && s.cfg.strictEligible {
        ResetRollbackKeepsInv(s, cp);
      } else {
        ReplayRollbackKeepsInv(s, cp);
      }
    }
  }

  // ------------------------------------------------------------------ runs

  /** The one thing a caller owes: a handle that rollback will accept carries the watermark of its own checkpoint. */
  predicate Legal(s: State, op: Op)
    requires |s.marks| == s.Depth()
  {
    op.Rollback? && Accepts(s, op.cp) ==> op.cp.watermark == s.marks[s.Depth() - 1]
  }

  /** Every operation keeps the invariant. */
  lemma StepKeepsInv(s: State, op: Op, t: State)
    requires Inv(s) && Legal(s, op) && Step(s, op, t)
    ensures Inv(t) && t.cfg == s.cfg
  {
    match op
    case Alloc(Some(x)) => AllocatedKeepsInv(s, x, t);
    case Alloc(None) => RefusedKeepsInv(s, t);
    case Retain(x) => RetainedKeepsInv(s, x);
    case Release(x) => ReleasedKeepsInv(s, x);
    case Open => OpenedKeepsInv(s);
    case Commit(cp) => CommittedKeepsInv(s, cp);
    case Rollback(cp) =>
      RolledBackKeepsInv(s, cp);
      if Accepts(s, cp) { SameStacks(s, cp); }
  }
}
