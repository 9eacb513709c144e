/** The abstract state of the transactional slab arena: which slots are live and with how many
    references, the per-slab occupancy counter, and the bookkeeping of open checkpoints. */
module ArenaModel {

  import opened Common

  datatype Config = Config(numSlabs: nat, slabSize: nat, strictEligible: bool)

  /** The handle handed out by checkpoint(). */
  datatype Checkpoint = Checkpoint(logStart: nat, depth: nat, valid: bool, watermark: SlabId, appendOnlyEligible: bool)

  /** use:   reference count of every live slot (a slot not in the map has count zero)
      count: occupancy counter of every slab that exists
      log:   slots allocated while a checkpoint was open
      starts, marks, appendOnly: the three parallel checkpoint stacks
      quarantine: slots released while a checkpoint was open */
  datatype State = State(
    cfg: Config,
    use: map<SlabId, nat>,
    count: map<nat, nat>,
    log: seq<SlabId>,
    starts: seq<nat>,
    marks: seq<SlabId>,
    appendOnly: seq<bool>,
    quarantine: set<SlabId>)
  {
    function Live(): set<SlabId> { use.Keys }
    function Depth(): nat { |starts| }
  }

  predicate InRange(c: Config, x: SlabId) { x.slab < c.numSlabs && x.offset < c.slabSize }

  function LiveIn(live: set<SlabId>, slab: nat): set<SlabId> {
    set x | x in live && x.slab == slab
  }

  function Above(live: set<SlabId>, w: SlabId): set<SlabId> {
    set x | x in live && Less(w, x)
  }

  function ToSet(s: seq<SlabId>): set<SlabId> { set x | x in s }

  /** The highest live slot, or the null slot when nothing is live. */
  ghost function High(live: set<SlabId>): (h: SlabId)
    ensures live == {} ==> h == NULL_ID
    ensures live != {} ==> h in live
    ensures forall x | x in live :: !Less(h, x)
  {
    if live == {} then NULL_ID
    else
      var x :| x in live;
      var m := High(live - {x});
      assert live == (live - {x}) + {x};
      if live == {x} || Less(m, x) then x else m
  }

  // ------------------------------------------------------------------ operations

  function Top(s: State): Checkpoint
    requires s.Depth() > 0 && |s.marks| == |s.appendOnly| == s.Depth()
  {
    var k := s.Depth() - 1;
    Checkpoint(s.starts[k], s.Depth(), true, s.marks[k], s.appendOnly[k])
  }

  ghost function Opened(s: State): State {
    s.(starts := s.starts + [|s.log|], marks := s.marks + [High(s.Live())], appendOnly := s.appendOnly + [true])
  }

  predicate Accepts(s: State, cp: Checkpoint) {
    cp.valid && s.Depth() > 0 && cp.depth == s.Depth() && cp.logStart == s.starts[s.Depth() - 1]
  }

  function PopLevel(s: State): State
    requires s.Depth() > 0 && |s.marks| == |s.appendOnly| == s.Depth()
  {
    var k := s.Depth() - 1;
    var t := s.(starts := s.starts[..k], marks := s.marks[..k], appendOnly := s.appendOnly[..k]);
    if k == 0 then t.(log := [], quarantine := {}) else t
  }

  function Committed(s: State, cp: Checkpoint): State
    requires |s.marks| == |s.appendOnly| == s.Depth()
  {
    if Accepts(s, cp) then PopLevel(s) else s
  }

  function AllFalse(n: nat): (r: seq<bool>)
    ensures |r| == n && forall k | 0 <= k < n :: !r[k]
  {
    seq(n, _ => false)
  }

  function Decremented(count: map<nat, nat>, slab: nat): map<nat, nat> {
    if slab in count && count[slab] > 1 then count[slab := count[slab] - 1] else count - {slab}
  }

  /** The last reference to a live slot goes away. */
  function Freed(s: State, x: SlabId): State {
    s.(use := s.use - {x},
       count := Decremented(s.count, x.slab),
       quarantine := if s.Depth() > 0 then s.quarantine + {x} else s.quarantine,
       appendOnly := if s.Depth() > 0 then AllFalse(|s.appendOnly|) else s.appendOnly)
  }

  function Released(s: State, x: SlabId): State {
    if x == NULL_ID || x !in s.use then s
    else if s.use[x] > 1 then s.(use := s.use[x := s.use[x] - 1])
    else Freed(s, x)
  }

  function Retained(s: State, x: SlabId): State {
    if x == NULL_ID || x !in s.use then s else s.(use := s.use[x := s.use[x] + 1])
  }

  // ------------------------------------------------------------------ the three rollback routes

  function Discarded(s: State, x: SlabId): State {
    if x in s.use then Freed(s, x) else s
  }

  /** Log replay: entries from..n of the log, last one first. */
  function Replayed(s: State, log: seq<SlabId>, n: nat, from: nat): State
    requires n <= |log|
    decreases n
  {
    if n <= from then s else Replayed(Discarded(s, log[n - 1]), log, n - 1, from)
  }

  function Before(c: Config, x: SlabId): SlabId
    requires c.slabSize > 0
  {
    if x.offset > 0 then SlabId(x.slab, x.offset - 1)
    else if x.slab > 0 then SlabId(x.slab - 1, c.slabSize - 1)
    else x
  }

  /** Downward walk: every live slot from `cur` down to, but not including, `w`. */
  function Walked(s: State, cur: SlabId, w: SlabId): State
    requires s.cfg.slabSize > 0
    decreases cur.slab, cur.offset
  {
    if cur == NULL_ID || cur == w then s else Walked(Discarded(s, cur), Before(s.cfg, cur), w)
  }

  function KeptBelow(use: map<SlabId, nat>, w: SlabId): map<SlabId, nat> {
    map x | x in use && !Less(w, x) :: use[x]
  }

  function ResetCounts(s: State, w: SlabId): map<nat, nat> {
    map i | i in s.count ::
      if i < w.slab then s.count[i]
      else if i > w.slab then 0
      else if w == NULL_ID then (if NULL_ID in s.use then 1 else 0)
      else w.offset + 1
  }

  /** Strict reset: everything above the watermark is zeroed at once. */
  function Reset(s: State, w: SlabId): State {
    s.(use := KeptBelow(s.use, w), count := ResetCounts(s, w))
  }

  ghost function Undone(s: State, cp: Checkpoint): State
    requires s.cfg.slabSize > 0 && s.Depth() > 0 && |s.appendOnly| == s.Depth()
  {
    if s.appendOnly[s.Depth() - 1] then
      if s.cfg.strictEligible then Reset(s, cp.watermark) else Walked(s, High(s.Live()), cp.watermark)
    else Replayed(s, s.log, |s.log|, cp.logStart)
  }

  /** What stays of the state when the top checkpoint is rolled back. */
  ghost function RolledBack(s: State, cp: Checkpoint): State
    requires s.cfg.slabSize > 0 && |s.marks| == |s.appendOnly| == s.Depth()
  {
    if !Accepts(s, cp) then s
    else
      var d := Undone(s, cp);
      SameStacks(s, cp);
      if cp.logStart <= |d.log| then PopLevel(d.(log := d.log[..cp.logStart])) else d
  }

  lemma ReplayedStacks(s: State, log: seq<SlabId>, n: nat, from: nat)
    requires n <= |log|
    ensures var r := Replayed(s, log, n, from);
      r.cfg == s.cfg && r.log == s.log && r.starts == s.starts && r.marks == s.marks && |r.appendOnly| == |s.appendOnly|
    decreases n
  {
    if n > from { ReplayedStacks(Discarded(s, log[n - 1]), log, n - 1, from); }
  }

  lemma WalkedStacks(s: State, cur: SlabId, w: SlabId)
    requires s.cfg.slabSize > 0
    ensures var r := Walked(s, cur, w);
      r.cfg == s.cfg && r.log == s.log && r.starts == s.starts && r.marks == s.marks && |r.appendOnly| == |s.appendOnly|
    decreases cur.slab, cur.offset
  {
    if cur != NULL_ID && cur != w { WalkedStacks(Discarded(s, cur), Before(s.cfg, cur), w); }
  }

  lemma SameStacks(s: State, cp: Checkpoint)
    requires s.cfg.slabSize > 0 && s.Depth() > 0 && |s.appendOnly| == s.Depth()
    ensures var r := Undone(s, cp);
      r.cfg == s.cfg && r.log == s.log && r.starts == s.starts && r.marks == s.marks && |r.appendOnly| == |s.appendOnly|
  {
    ReplayedStacks(s, s.log, |s.log|, cp.logStart);
    WalkedStacks(s, High(s.Live()), cp.watermark);
  }

  // ------------------------------------------------------------------ allocation

  function CountOf(count: map<nat, nat>, slab: nat): nat { if slab in count then count[slab] else 0 }

  /** Missing slabs lo..hi come into existence, empty. */
  function WithSlabs(count: map<nat, nat>, lo: nat, hi: nat): map<nat, nat> {
    count + (map i: nat | lo <= i < hi && i !in count :: 0)
  }

  /** Outside any checkpoint: the first slab that is missing or not counted full, its first free slot. */
  predicate FirstFit(s: State, x: SlabId) {
    && InRange(s.cfg, x)
    && (forall i: nat | i < x.slab :: i in s.count && s.count[i] >= s.cfg.slabSize)
    && (x.slab !in s.count ==> x.offset == 0)
    && (x.slab in s.count ==>
          && s.count[x.slab] < s.cfg.slabSize
          && x !in s.use
          && forall j: nat | j < x.offset :: SlabId(x.slab, j) in s.use)
  }

  ghost predicate Full(s: State) {
    forall i: nat | i < s.cfg.numSlabs :: i in s.count && s.count[i] >= s.cfg.slabSize
  }

  ghost predicate Appendable(s: State, x: SlabId) {
    InRange(s.cfg, x) && Less(High(s.Live()), x) && x !in s.quarantine
  }

  /** Under a checkpoint: the least slot above everything live that is not quarantined. */
  ghost predicate NextAppend(s: State, x: SlabId) {
    Appendable(s, x) && forall y | Less(y, x) :: !Appendable(s, y)
  }

  function Occupied(s: State, x: SlabId): State {
    s.(use := s.use[x := 1], count := s.count[x.slab := CountOf(s.count, x.slab) + 1])
  }

  ghost function Appended(s: State, x: SlabId): State {
    Occupied(s.(count := WithSlabs(s.count, High(s.Live()).slab, x.slab + 1)), x).(log := s.log + [x])
  }

  /** One allocation: `r` is the slot returned, or None for std::bad_alloc. */
  ghost predicate Allocates(s: State, r: Option<SlabId>, t: State) {
    if s.Depth() == 0 then
      match r
      case Some(x) => FirstFit(s, x) && t == Occupied(s, x)
      case None => Full(s) && t == s
    else
      match r
      case Some(x) =>
        NextAppend(s, x) && t == Appended(s, x)
      case None =>
        && (forall y :: !Appendable(s, y))
        && t == s.(count := WithSlabs(s.count, High(s.Live()).slab, s.cfg.numSlabs))
  }

  // ------------------------------------------------------------------ runs

  datatype Op =
    | Alloc(slot: Option<SlabId>)
    | Retain(id: SlabId)
    | Release(id: SlabId)
    | Open
    | Commit(cp: Checkpoint)
    | Rollback(cp: Checkpoint)

  ghost predicate Step(s: State, op: Op, t: State)
    requires s.cfg.slabSize > 0 && |s.marks| == |s.appendOnly| == s.Depth()
  {
    true == match op
      case Alloc(r) => Allocates(s, r, t)
      case Retain(x) => t == Retained(s, x)
      case Release(x) => t == Released(s, x)
      case Open => t == Opened(s)
      case Commit(cp) => t == Committed(s, cp)
      case Rollback(cp) => t == RolledBack(s, cp)
  }
}
