/** The single-producer single-consumer mailbox ring, as the interleaving of the atomic loads, stores and slot
    accesses of one tryPush caller and one tryPop caller, and as the object a caller alone with it sees. */
module MailboxRing {

  const CAPACITY: nat := 64
  const WORD: nat := 0x1_0000_0000_0000_0000   // head and tail are uint64_t and wrap around

  /** A slot is torn while a descriptor is being copied into it. */
  datatype Cell<D> = Whole(value: D) | Torn

  /** Where the producer stands inside tryPush(d). */
  datatype Producer<D> =
    | Resting
    | TailLoaded(d: D, tail: nat)
    | RoomSeen(d: D, tail: nat)
    | Writing(d: D, tail: nat)
    | Written(d: D, tail: nat)

  /** Where the consumer stands inside tryPop. */
  datatype Consumer<D> =
    | Waiting
    | HeadLoaded(head: nat)
    | ItemSeen(head: nat)
    | Reading(head: nat)
    | Read(head: nat, cell: Cell<D>)

  /** pushed and popped are the histories: what has been published, and what tryPop has returned. */
  datatype Ring<D> = Ring(
    head: nat, tail: nat, slots: seq<Cell<D>>,
    producer: Producer<D>, consumer: Consumer<D>,
    pushed: seq<D>, popped: seq<Cell<D>>)

  /** Unsigned 64-bit subtraction. */
  function Minus(a: nat, b: nat): nat
    requires a < WORD && b < WORD
  {
    (a + WORD - b) % WORD
  }

  function Plus1(a: nat): nat { (a + 1) % WORD }

  datatype Action<D> =
    | LoadTail(d: D) | LoadHeadAndTest | BeginWrite | EndWrite | StoreTail
    | LoadHead | LoadTailAndTest | BeginRead | EndRead | StoreHead

  predicate Shape<D>(s: Ring<D>) { |s.slots| == CAPACITY && s.head < WORD && s.tail < WORD }

  /** One atomic step, or None when the side that would take it is elsewhere. */
  predicate Enabled<D>(s: Ring<D>, a: Action<D>) {
    match a
    case LoadTail(_) => s.producer.Resting?
    case LoadHeadAndTest => s.producer.TailLoaded? && s.producer.tail < WORD
    case BeginWrite => s.producer.RoomSeen?
    case EndWrite => s.producer.Writing?
    case StoreTail => s.producer.Written?
    case LoadHead => s.consumer.Waiting?
    case LoadTailAndTest => s.consumer.HeadLoaded?
    case BeginRead => s.consumer.ItemSeen?
    case EndRead => s.consumer.Reading?
    case StoreHead => s.consumer.Read?
  }

  function Next<D>(s: Ring<D>, a: Action<D>): Ring<D>
    requires Shape(s) && Enabled(s, a)
  {
    match a
    case LoadTail(d) => s.(producer := TailLoaded(d, s.tail))
    case LoadHeadAndTest =>
      if Minus(s.producer.tail, s.head) >= CAPACITY then s.(producer := Resting)
      else s.(producer := RoomSeen(s.producer.d, s.producer.tail))
    case BeginWrite =>
      s.(slots := s.slots[s.producer.tail % CAPACITY := Torn], producer := Writing(s.producer.d, s.producer.tail))
    case EndWrite =>
      s.(slots := s.slots[s.producer.tail % CAPACITY := Whole(s.producer.d)], producer := Written(s.producer.d, s.producer.tail))
    case StoreTail =>
      s.(tail := Plus1(s.producer.tail), pushed := s.pushed + [s.producer.d], producer := Resting)
    case LoadHead => s.(consumer := HeadLoaded(s.head))
    case LoadTailAndTest =>
      if s.consumer.head == s.tail then s.(consumer := Waiting) else s.(consumer := ItemSeen(s.consumer.head))
    case BeginRead => s.(consumer := Reading(s.consumer.head))
    case EndRead => s.(consumer := Read(s.consumer.head, s.slots[s.consumer.head % CAPACITY]))
    case StoreHead =>
      s.(head := Plus1(s.consumer.head), popped := s.popped + [s.consumer.cell], consumer := Waiting)
  }

  function Initial<D>(fill: D): Ring<D> {
    Ring(0, 0, seq(CAPACITY, _ => Whole(fill)), Resting, Waiting, [], [])
  }

  // ------------------------------------------------------------------ the invariant

  /** Published and not yet popped: slot k % CAPACITY holds item k whole. */
  ghost predicate Buffered<D>(s: Ring<D>) {
    && |s.slots| == CAPACITY
    && |s.popped| <= |s.pushed| <= |s.popped| + CAPACITY
    && (forall k | |s.popped| <= k < |s.pushed| :: s.slots[k % CAPACITY] == Whole(s.pushed[k]))
    && (forall k | 0 <= k < |s.popped| :: s.popped[k] == Whole(s.pushed[k]))
  }

  ghost predicate ProducerOk<D>(s: Ring<D>)
    requires |s.slots| == CAPACITY
  {
    && (!s.producer.Resting? ==> s.producer.tail == s.tail)
    && (s.producer.RoomSeen? || s.producer.Writing? || s.producer.Written? ==> |s.pushed| < |s.popped| + CAPACITY)
    && (s.producer.Written? ==> s.slots[|s.pushed| % CAPACITY] == Whole(s.producer.d))
  }

  ghost predicate ConsumerOk<D>(s: Ring<D>) {
    && (!s.consumer.Waiting? ==> s.consumer.head == s.head)
    && (s.consumer.ItemSeen? || s.consumer.Reading? || s.consumer.Read? ==> |s.popped| < |s.pushed|)
    && (s.consumer.Read? ==> |s.popped| < |s.pushed| && s.consumer.cell == Whole(s.pushed[|s.popped|]))
  }

  ghost predicate Inv<D>(s: Ring<D>) {
    && s.head == |s.popped| % WORD && s.tail == |s.pushed| % WORD
    && Buffered(s) && ProducerOk(s) && ConsumerOk(s)
  }

  // ------------------------------------------------------------------ wrap-around arithmetic

  lemma Monotone(a: nat, b: nat, m: nat)
    ensures a <= b ==> a * m <= b * m
  {
    if a <= b { assert b * m == a * m + (b - a) * m; }
  }

  lemma Quotient(n: nat, q: nat, r: nat, m: nat)
    requires m > 0 && r < m && n == q * m + r
    ensures n % m == r && n / m == q
  {
    Monotone(n / m + 1, q, m);
    Monotone(q + 1, n / m, m);
  }

  /** The capacity divides 2^64, so the slot index survives the wrap of the counter. */
  lemma SlotIndex(n: nat)
    ensures (n % WORD) % CAPACITY == n % CAPACITY
  {
    var q, r := n / WORD, n % WORD;
    var a, b := r / CAPACITY, r % CAPACITY;
    assert WORD == 0x400_0000_0000_0000 * CAPACITY;
    assert n == q * WORD + r && r == a * CAPACITY + b;
    assert n == (q * 0x400_0000_0000_0000 + a) * CAPACITY + b;
    Quotient(n, q * 0x400_0000_0000_0000 + a, b, CAPACITY);
  }

  /** The wrapped difference of the counters is the number of buffered items. */
  lemma WrappedDifference(tail: nat, head: nat)
    requires head <= tail < head + WORD
    ensures Minus(tail % WORD, head % WORD) == tail - head
  {
    var q, r, p, t := head / WORD, head % WORD, tail / WORD, tail % WORD;
    assert head == q * WORD + r && tail == p * WORD + t;
    Monotone(q + 2, p, WORD);
    Monotone(p + 1, q, WORD);
    if p == q {
      Quotient(t + WORD - r, 1, t - r, WORD);
    } else {
      assert p == q + 1;
      Quotient(t + WORD - r, 0, t + WORD - r, WORD);
    }
  }

  lemma WrappedSuccessor(n: nat)
    ensures Plus1(n % WORD) == (n + 1) % WORD
  {
    var q, r := n / WORD, n % WORD;
    if r + 1 == WORD {
      Quotient(n + 1, q + 1, 0, WORD);
    } else {
      Quotient(n + 1, q, r + 1, WORD);
    }
  }

  /** Two items less than a capacity apart sit in different slots. */
  lemma SlotsDiffer(i: nat, j: nat)
    requires i < j < i + CAPACITY
    ensures i % CAPACITY != j % CAPACITY
  {
  }

  // ------------------------------------------------------------------ steps

  lemma ProducerStep<D>(s: Ring<D>, a: Action<D>)
    requires Inv(s) && Enabled(s, a)
    requires a.LoadTail? || a.LoadHeadAndTest? || a.BeginWrite? || a.EndWrite? || a.StoreTail?
    ensures Shape(s) && Inv(Next(s, a))
  {
    var n := |s.pushed|;
    SlotIndex(n);
    WrappedSuccessor(n);
    WrappedDifference(n, |s.popped|);
    forall k | |s.popped| <= k < n && n < |s.popped| + CAPACITY ensures k % CAPACITY != n % CAPACITY {
      SlotsDiffer(k, n);
    }
  }

  lemma ConsumerStep<D>(s: Ring<D>, a: Action<D>)
    requires Inv(s) && Enabled(s, a)
    requires a.LoadHead? || a.LoadTailAndTest? || a.BeginRead? || a.EndRead? || a.StoreHead?
    ensures Shape(s) && Inv(Next(s, a))
  {
    var n := |s.popped|;
    SlotIndex(n);
    WrappedSuccessor(n);
    WrappedDifference(|s.pushed|, n);
  }

  lemma StepKeepsInv<D>(s: Ring<D>, a: Action<D>)
    requires Inv(s) && Enabled(s, a)
    ensures Shape(s) && Inv(Next(s, a))
  {
    if a.LoadTail? || a.LoadHeadAndTest? || a.BeginWrite? || a.EndWrite? || a.StoreTail? {
      ProducerStep(s, a);
    } else {
      ConsumerStep(s, a);
    }
  }

  /** ss is a run: any interleaving of the steps of the two sides. */
  ghost predicate Run<D>(fill: D, ss: seq<Ring<D>>, acts: seq<Action<D>>) {
    && |ss| == |acts| + 1
    && ss[0] == Initial(fill)
    && forall i | 0 <= i < |acts| :: Shape(ss[i]) && Enabled(ss[i], acts[i]) && ss[i + 1] == Next(ss[i], acts[i])
  }

  lemma {:induction false} RunInv<D>(fill: D, ss: seq<Ring<D>>, acts: seq<Action<D>>, n: nat)
    requires Run(fill, ss, acts) && n <= |acts|
    ensures Inv(ss[n])
  {
    if n > 0 {
      RunInv(fill, ss, acts, n - 1);
      StepKeepsInv(ss[n - 1], acts[n - 1]);
    }
  }

  /** Under every interleaving: what has been popped is, in order and whole, the beginning of what has been
      pushed; at most CAPACITY items are buffered; and the slot being written is never the slot the consumer
      has been cleared to read. */
  lemma FifoUnderInterleaving<D>(fill: D, ss: seq<Ring<D>>, acts: seq<Action<D>>, n: nat)
    requires Run(fill, ss, acts) && n <= |acts|
    ensures var s := ss[n];
      && |s.popped| <= |s.pushed| <= |s.popped| + CAPACITY
      && (forall k | 0 <= k < |s.popped| :: s.popped[k] == Whole(s.pushed[k]))
      && (s.producer.Writing? && (s.consumer.ItemSeen? || s.consumer.Reading?) ==>
            s.producer.tail % CAPACITY != s.consumer.head % CAPACITY)
  {
    RunInv(fill, ss, acts, n);
    var s := ss[n];
    SlotIndex(|s.pushed|);
    SlotIndex(|s.popped|);
    if |s.popped| < |s.pushed| < |s.popped| + CAPACITY { SlotsDiffer(|s.popped|, |s.pushed|); }
  }

  /** tryPush gives up exactly when the ring is full at the moment it loads head, and tryPop exactly when the
      ring is empty at the moment it loads tail. */
  lemma RefusalExact<D>(fill: D, ss: seq<Ring<D>>, acts: seq<Action<D>>, n: nat)
    requires Run(fill, ss, acts) && n < |acts|
    ensures acts[n].LoadHeadAndTest? ==>
      (ss[n + 1].producer.Resting? <==> |ss[n].pushed| == |ss[n].popped| + CAPACITY)
    ensures acts[n].LoadTailAndTest? ==>
      (ss[n + 1].consumer.Waiting? <==> |ss[n].pushed| == |ss[n].popped|)
  {
    RunInv(fill, ss, acts, n);
    var s := ss[n];
    WrappedDifference(|s.pushed|, |s.popped|);
  }

  // ------------------------------------------------------------------ the object

  class MailboxRing<D> {
    var head: nat
    var tail: nat
    const slots: array<D>

    ghost var pushed: seq<D>
    ghost var taken: nat

    ghost predicate Valid()
      reads this, slots
    {
      && slots.Length == CAPACITY
      && taken <= |pushed| <= taken + CAPACITY
      && head == taken % WORD && tail == |pushed| % WORD
      && forall k | taken <= k < |pushed| :: slots[k % CAPACITY] == pushed[k]
    }

    /** The items buffered, oldest first. */
    ghost function Contents(): seq<D>
      reads this
      requires taken <= |pushed|
    {
      pushed[taken..]
    }

    constructor (fill: D)
      ensures Valid() && fresh(slots) && Contents() == []
    {
      slots := new D[CAPACITY](_ => fill);
      head, tail, pushed, taken := 0, 0, [], 0;
    }

    method TryPush(d: D) returns (ok: bool)
      requires Valid()
      modifies this, slots
      ensures Valid()
      ensures ok == (|old(Contents())| < CAPACITY)
      ensures Contents() == if ok then old(Contents()) + [d] else old(Contents())
    {
      ghost var n := |pushed|;
      SlotIndex(n);
      WrappedSuccessor(n);
      WrappedDifference(n, taken);
      if Minus(tail, head) >= CAPACITY { return false; }
      forall k | taken <= k < n ensures k % CAPACITY != n % CAPACITY { SlotsDiffer(k, n); }
      slots[tail % CAPACITY] := d;
      tail := Plus1(tail);
      pushed := pushed + [d];
      return true;
    }

    method TryPop(fallback: D) returns (ok: bool, d: D)
      requires Valid()
      modifies this
      ensures Valid()
      ensures ok == (old(Contents()) != [])
      ensures if ok then d == old(Contents())[0] && Contents() == old(Contents())[1..]
              else d == fallback && Contents() == old(Contents())
    {
      SlotIndex(taken);
      WrappedSuccessor(taken);
      WrappedDifference(|pushed|, taken);
      if head == tail { return false, fallback; }
      d := slots[head % CAPACITY];
      head := Plus1(head);
      taken := taken + 1;
      ok := true;
    }
  }
}
