/** The broker under concurrency: the unlocked compare-and-swap may fall between any two word accesses of the
    operation that currently holds the mutex. */
module BrokerProtocol {
  import opened Common
  import opened BrokerModel

  /** Where the thread holding the mutex stands; Free when nobody holds it. */
  datatype Pc =
    | Free
    | AcqLoaded(key: Key, p: Pid)                 // registered, and not the owner it loaded
    | AcqFailed(key: Key, p: Pid)                 // its compare-and-swap has failed
    | Checked(key: Key, p: Pid, recover: bool)    // p was seen to own the resource

  /** A lease that recoverExpiredLeases has collected at a tick, and has still to recover: it names the owner. */
  datatype Ticket = Ticket(key: Key, owner: Pid, now: nat)

  datatype Sys = Sys(b: State, pc: Pc, collected: multiset<Ticket>)

  datatype Action =
    | Register(p: Pid)
    | Drain(p: Pid)
    | FastCas(key: Key, p: Pid)                   // tryAcquire, and the first step of acquireOrQueue
    | AcqLock(key: Key, p: Pid)
    | AcqCas
    | AcqQueue
    | Check(key: Key, p: Pid, recover: bool)
    | Store
    | RegisterLease(key: Key, p: Pid, at: nat)
    | RenewLease(key: Key, p: Pid, at: nat)
    | Heartbeat(p: Pid, at: nat)
    | Collect(now: nat)
    | Recover(ticket: Ticket)

  /** What the first section of recoverExpiredLeases puts on its list. */
  function Tickets(s: State, now: nat): set<Ticket> {
    set k | k in Expired(s, now) :: Ticket(k, s.leases[k].owner, now)
  }

  predicate Enabled(s: Sys, a: Action) {
    match a
    case FastCas(_, _) => true
    case AcqCas => s.pc.AcqLoaded?
    case AcqQueue => s.pc.AcqFailed?
    case Store => s.pc.Checked?
    case Recover(t) => s.pc.Free? && t in s.collected
    case _ => s.pc.Free?
  }

  function Next(s: Sys, a: Action): Sys
    requires Enabled(s, a)
  {
    match a
    case Register(p) => if s.b.Known(p) then s else s.(b := s.b.(mailboxes := s.b.mailboxes[p := []]))
    case Drain(p) => if s.b.Known(p) then s.(b := s.b.(mailboxes := s.b.mailboxes[p := []])) else s
    case FastCas(k, p) => s.(b := Taken(s.b, k, p))
    case AcqLock(k, p) => if !s.b.Known(p) || s.b.Owner(k) == p then s else s.(pc := AcqLoaded(k, p))
    case AcqCas =>
      if s.b.Word(s.pc.key) == 0 then s.(b := Taken(s.b, s.pc.key, s.pc.p), pc := Free)
      else s.(pc := AcqFailed(s.pc.key, s.pc.p))
    case AcqQueue => s.(b := Enqueued(s.b, s.pc.key, s.pc.p), pc := Free)
    case Check(k, p, r) => if MayRelease(s.b, k, p) then s.(pc := Checked(k, p, r)) else s
    case Store =>
      var t := HandedOver(s.b, s.pc.key);
      s.(b := if s.pc.recover then t.(leases := t.leases - {s.pc.key}) else t, pc := Free)
    case RegisterLease(k, p, at) => s.(b := LeaseRegistered(s.b, k, p, at))
    case RenewLease(k, p, at) => s.(b := LeaseRenewed(s.b, k, p, at))
    case Heartbeat(p, at) => s.(b := Heartbeaten(s.b, p, at))
    case Collect(now) =>
      s.(b := LeasesCollected(s.b, now), collected := s.collected + multiset(Tickets(s.b, now)))
    case Recover(t) =>
      var rest := s.(collected := s.collected - multiset{t});
      if MayRelease(s.b, t.key, t.owner) then rest.(pc := Checked(t.key, t.owner, true)) else rest
  }

  /** Ids are in range, and a participant with an acquireOrQueue in progress makes no second call. */
  predicate Legal(s: Sys, a: Action) {
    match a
    case Register(p) => 0 < p < BIT
    case FastCas(_, p) => 0 < p < BIT && (s.pc.AcqLoaded? || s.pc.AcqFailed? ==> s.pc.p != p)
    case AcqLock(_, p) => 0 < p < BIT
    case _ => true
  }

  ghost predicate PcOk(s: Sys) {
    match s.pc
    case Free => true
    case AcqLoaded(k, p) => 0 < p < BIT && s.b.Known(p) && s.b.Owner(k) != p
    case AcqFailed(k, p) => 0 < p < BIT && s.b.Known(p) && s.b.Owner(k) != p && s.b.Word(k) != 0
    case Checked(k, p, _) => MayRelease(s.b, k, p)
  }

  ghost predicate SysInv(s: Sys) { true == (Inv(s.b) && PcOk(s)) }

  /** Every atomic step keeps the story of words and queues straight, also in the middle of locked sections. */
  lemma StepKeepsInv(s: Sys, a: Action)
    requires SysInv(s) && Enabled(s, a) && Legal(s, a)
    ensures SysInv(Next(s, a))
  {
    hide Inv, Enqueued, HandedOver;
    match a
    case Register(p) => if !s.b.Known(p) { MailboxKeepsInv(s.b, p); }
    case Drain(p) => if s.b.Known(p) { MailboxKeepsInv(s.b, p); }
    case FastCas(k, p) => TakenKeepsInv(s.b, k, p);
    case AcqLock(k, p) =>
    case AcqCas => if s.b.Word(s.pc.key) == 0 { TakenKeepsInv(s.b, s.pc.key, s.pc.p); }
    case AcqQueue => EnqueuedKeepsInv(s.b, s.pc.key, s.pc.p);
    case Check(k, p, r) =>
    case Store =>
      HandedOverKeepsInv(s.b, s.pc.key);
      LeasesKeepInv(HandedOver(s.b, s.pc.key), HandedOver(s.b, s.pc.key).leases - {s.pc.key});
    case RegisterLease(k, p, at) => LeasesKeepInv(s.b, LeaseRegistered(s.b, k, p, at).leases);
    case RenewLease(k, p, at) => LeasesKeepInv(s.b, LeaseRenewed(s.b, k, p, at).leases);
    case Heartbeat(p, at) => LeasesKeepInv(s.b, Heartbeaten(s.b, p, at).leases);
    case Collect(now) => LeasesKeepInv(s.b, LeasesCollected(s.b, now).leases);
    case Recover(t) =>
  }

  /** Each locked section, however it is interleaved with others' compare-and-swaps, has the effect the
      uninterrupted operation would have at its last step. */
  lemma SectionsAreAtomic(s: Sys, a: Action)
    requires SysInv(s) && Enabled(s, a)
    ensures a.AcqCas? && Next(s, a).pc.Free? ==> Acquire(s.b, s.pc.key, s.pc.p) == (Acquired, Next(s, a).b)
    ensures a.AcqQueue? ==> Acquire(s.b, s.pc.key, s.pc.p) == (Queued, Next(s, a).b)
    ensures a.Store? ==>
      Next(s, a).b == if s.pc.recover then Recovered(s.b, s.pc.key, s.pc.p) else Released(s.b, s.pc.key, s.pc.p)
  {
    hide Inv, HandedOver, Enqueued;
  }

  // ------------------------------------------------------------------ runs

  ghost predicate Run(ss: seq<Sys>, acts: seq<Action>) {
    true == (|ss| == |acts| + 1 && SysInv(ss[0])
      && forall i | 0 <= i < |acts| :: Enabled(ss[i], acts[i]) && Legal(ss[i], acts[i]) && ss[i + 1] == Next(ss[i], acts[i]))
  }

  function Initial(): Sys { Sys(State(map[], map[], map[], map[], 1, []), Free, multiset{}) }

  lemma InitialInv()
    ensures SysInv(Initial())
  {
    forall k ensures KeyOk(Initial().b, k) {}
  }

  lemma RunLength(ss: seq<Sys>, acts: seq<Action>)
    requires Run(ss, acts)
    ensures |ss| == |acts| + 1
  {
  }

  lemma {:induction false} RunStep(ss: seq<Sys>, acts: seq<Action>, n: nat)
    requires Run(ss, acts) && n < |acts|
    ensures SysInv(ss[n]) && SysInv(ss[n + 1]) && Enabled(ss[n], acts[n]) && ss[n + 1] == Next(ss[n], acts[n])
  {
    hide SysInv, Next;
    if n > 0 { RunStep(ss, acts, n - 1); }
    StepKeepsInv(ss[n], acts[n]);
  }

  /** In every reachable state: somebody waits exactly when the contended bit is set, a resource with waiters
      has an owner, the owner does not wait for itself, and nobody waits twice. */
  lemma NoLostWakeup(ss: seq<Sys>, acts: seq<Action>, n: nat, k: Key)
    requires Run(ss, acts) && n < |acts|
    ensures var s := ss[n + 1].b;
      && (Contended(s.Word(k)) <==> s.Queue(k) != [])
      && (s.Queue(k) != [] ==> s.Owner(k) != 0)
      && s.Owner(k) !in s.Queue(k) && Distinct(s.Queue(k))
  {
    RunStep(ss, acts, n);
    assert KeyOk(ss[n + 1].b, k);
  }

  // ------------------------------------------------------------------ FIFO hand-off

  /** The step that passes resource k on: the store of a release or of a recovery. */
  predicate HandsOff(s: Sys, a: Action, k: Key) { a.Store? && s.pc.Checked? && s.pc.key == k }

  /** Only a hand-off takes the head of the queue away; everything else can only add at the end, and while
      somebody waits nothing else changes the owner. */
  lemma QueueStep(s: Sys, a: Action, k: Key)
    requires SysInv(s) && Enabled(s, a)
    ensures var q, r := s.b.Queue(k), Next(s, a).b.Queue(k);
      && (HandsOff(s, a, k) ==> r == if q == [] then [] else q[1..])
      && (!HandsOff(s, a, k) ==> q <= r && (q != [] ==> Next(s, a).b.Owner(k) == s.b.Owner(k)))
  {
    hide Inv, HandedOver;
    WordNonzero(s.b, k);
    if a.Store? {
      HandedOverShape(s.b, s.pc.key);
    }
  }

  lemma WordNonzero(s: State, k: Key)
    requires Inv(s)
    ensures s.Queue(k) != [] ==> s.Word(k) != 0
    ensures OwnerOf(WithBit(s.Word(k))) == s.Owner(k)
  {
    assert KeyOk(s, k);
  }

  /** How many hand-offs of k happen in steps i..j. */
  ghost function HandOffs(ss: seq<Sys>, acts: seq<Action>, k: Key, i: nat, j: nat): nat
    requires i <= j <= |acts| < |ss|
    decreases j
  {
    if i == j then 0 else HandOffs(ss, acts, k, i, j - 1) + (if HandsOff(ss[j - 1], acts[j - 1], k) then 1 else 0)
  }

  lemma {:induction false} QueuePosition(ss: seq<Sys>, acts: seq<Action>, k: Key, i: nat, j: nat, x: nat)
    requires Run(ss, acts) && |ss| == |acts| + 1 && i <= j <= |acts| && x < |ss[i].b.Queue(k)|
    requires HandOffs(ss, acts, k, i, j) <= x
    ensures var c := HandOffs(ss, acts, k, i, j);
      x - c < |ss[j].b.Queue(k)| && ss[j].b.Queue(k)[x - c] == ss[i].b.Queue(k)[x]
    decreases j
  {
    hide Run, SysInv, Next, HandsOff;
    if j > i {
      QueuePosition(ss, acts, k, i, j - 1, x);
      RunStep(ss, acts, j - 1);
      QueueStep(ss[j - 1], acts[j - 1], k);
    }
  }

  /** Strictly first come, first served. Whoever stands at index x of the queue keeps waiting, is not the
      owner, and moves up one place per hand-off; the (x+1)-th hand-off makes exactly that participant the
      owner and sends it the one new grant event, with a token larger than every earlier one. */
  lemma FifoHandOff(ss: seq<Sys>, acts: seq<Action>, k: Key, i: nat, j: nat, x: nat)
    requires Run(ss, acts) && |ss| == |acts| + 1 && i <= j < |acts| && x < |ss[i].b.Queue(k)|
    requires HandOffs(ss, acts, k, i, j) <= x
    ensures var p, c := ss[i].b.Queue(k)[x], HandOffs(ss, acts, k, i, j);
      && x - c < |ss[j].b.Queue(k)| && ss[j].b.Queue(k)[x - c] == p && ss[j].b.Owner(k) != p
      && (c == x && HandsOff(ss[j], acts[j], k) ==>
            var g := Grant(k, p, ss[j].b.nextToken);
            && ss[j + 1].b.Owner(k) == p
            && ss[j + 1].b.granted == ss[j].b.granted + [g]
            && ss[j].b.Known(p)
            && ss[j + 1].b.mailboxes == ss[j].b.mailboxes[p := ss[j].b.mailboxes[p] + [g]]
            && forall h | h in ss[j].b.granted :: h.token < g.token)
  {
    QueuePosition(ss, acts, k, i, j, x);
    RunStep(ss, acts, j);
    hide Run, HandedOver;
    assert KeyOk(ss[j].b, k);
    HandedOverShape(ss[j].b, k);
  }

  /** What a caller answered Queued can count on. It stands in the queue with x waiters before it, x being all who
      waited unless it waited already; and the (x+1)-th hand-off from then on makes it the owner, with a grant of its
      own, and no earlier one does. */
  lemma QueuedIsServed(ss: seq<Sys>, acts: seq<Action>, i: nat) returns (x: nat)
    requires Run(ss, acts) && |ss| == |acts| + 1 && i < |acts| && acts[i] == AcqQueue && ss[i].pc.AcqFailed?
    ensures var k, p := ss[i].pc.key, ss[i].pc.p;
      var q := ss[i].b.Queue(k);
      && x < |ss[i + 1].b.Queue(k)| && ss[i + 1].b.Queue(k)[x] == p
      && (if p in q then x < |q| && q[x] == p else x == |q|)
      && forall j | i < j < |acts| && HandsOff(ss[j], acts[j], k) && HandOffs(ss, acts, k, i + 1, j) <= x ::
           (ss[j + 1].b.Owner(k) == p <==> HandOffs(ss, acts, k, i + 1, j) == x)
           && (HandOffs(ss, acts, k, i + 1, j) == x ==>
                 ss[j + 1].b.granted == ss[j].b.granted + [Grant(k, p, ss[j].b.nextToken)])
  {
    hide Run, HandedOver, Enqueued, HandOffs;
    var k, p := ss[i].pc.key, ss[i].pc.p;
    RunStep(ss, acts, i);
    EnqueuedStands(ss[i].b, k, p);
    var r := ss[i + 1].b.Queue(k);
    x :| 0 <= x < |r| && r[x] == p;
    assert KeyOk(ss[i + 1].b, k);
    forall j | i < j < |acts| && HandsOff(ss[j], acts[j], k) && HandOffs(ss, acts, k, i + 1, j) <= x
      ensures ss[j + 1].b.Owner(k) == p <==> HandOffs(ss, acts, k, i + 1, j) == x
      ensures HandOffs(ss, acts, k, i + 1, j) == x ==>
        ss[j + 1].b.granted == ss[j].b.granted + [Grant(k, p, ss[j].b.nextToken)]
    {
      FifoHandOff(ss, acts, k, i + 1, j, x);
      HeadTakes(ss, acts, k, j);
    }
  }

  /** A hand-off with waiters makes the head of the queue owner. */
  lemma HeadTakes(ss: seq<Sys>, acts: seq<Action>, k: Key, j: nat)
    requires Run(ss, acts) && |ss| == |acts| + 1 && j < |acts| && HandsOff(ss[j], acts[j], k)
    ensures var q := ss[j].b.Queue(k);
      Distinct(q) && ss[j + 1].b.Owner(k) == if q == [] then 0 else q[0]
  {
    RunStep(ss, acts, j);
    HandedOverShape(ss[j].b, k);
    assert KeyOk(ss[j].b, k);
  }

  /** The owner of a resource changes in two ways only: whoever swaps itself into a free one, or a release or recovery
      in the name of the owner. */
  lemma OwnerStep(s: Sys, a: Action, k: Key)
    requires SysInv(s) && Enabled(s, a) && Legal(s, a) && Next(s, a).b.Owner(k) != s.b.Owner(k)
    ensures (s.b.Word(k) == 0 && ((a.FastCas? && a.key == k && Next(s, a).b.Owner(k) == a.p)
              || (a.AcqCas? && s.pc.AcqLoaded? && s.pc.key == k && Next(s, a).b.Owner(k) == s.pc.p)))
      || (HandsOff(s, a, k) && s.pc.p == s.b.Owner(k))
  {
    hide Inv, HandedOver;
    WordNonzero(s.b, k);
    if a.Store? { HandedOverShape(s.b, s.pc.key); }
  }

  // ------------------------------------------------------------------ where the assumptions bite

  /** Queueing p breaks the invariant exactly when p has meanwhile become the owner. */
  lemma QueueingExact(s: Sys)
    requires Inv(s.b) && s.pc.AcqFailed? && s.b.Word(s.pc.key) != 0
    requires 0 < s.pc.p < BIT && s.b.Known(s.pc.p)
    ensures Inv(Next(s, AcqQueue).b) <==> s.b.Owner(s.pc.key) != s.pc.p
  {
    var k, p := s.pc.key, s.pc.p;
    if s.b.Owner(k) != p {
      EnqueuedKeepsInv(s.b, k, p);
    } else {
      WordNonzero(s.b, k);
      var t := Next(s, AcqQueue).b;
      assert t.Owner(k) == p && p in t.Queue(k);
      assert !KeyOk(t, k);
    }
  }

  /** Two threads using one participant id can do that: while one is between its owner check and its
      compare-and-swap, the other takes the free resource, and the participant ends up waiting for itself. */
  lemma SharedParticipantWaitsForItself(s: Sys, k: Key, p: Pid)
    requires SysInv(s) && s.pc.Free? && s.b.Word(k) == 0 && s.b.Known(p) && 0 < p < BIT
    ensures var s1 := Next(s, AcqLock(k, p));
      s1.pc.AcqLoaded? &&
      var s2 := Next(s1, FastCas(k, p));
      s2.pc.AcqLoaded? &&
      var s3 := Next(s2, AcqCas);
      s3.pc.AcqFailed? &&
      var s4 := Next(s3, AcqQueue);
      s4.b.Owner(k) == p && p in s4.b.Queue(k)
  {
    WordParts(p, false);
    WordParts(p, true);
    assert Packed(p, false) == p;
  }

  // ------------------------------------------------------------------ leases over runs

  /** k is leased, and the lease lasts past tick t. */
  predicate Past(s: State, k: Key, t: nat) { k in s.leases && s.leases[k].expiresAt > t }

  /** A step by which the lease on k is given a new expiry, that is: registered, renewed or heartbeaten. */
  predicate Sets(s: Sys, a: Action, k: Key) {
    match a
    case RegisterLease(x, p, _) => x == k && s.b.Known(p) && MayRelease(s.b, k, p)
    case RenewLease(x, p, _) => x == k && MayRenew(s.b, k, p)
    case Heartbeat(p, _) => MayRenew(s.b, k, p)
    case _ => false
  }

  predicate Raises(s: Sys, a: Action, k: Key, t: nat) { Sets(s, a, k) && a.at > t }

  /** The recovery of k by anybody, for whatever reason. */
  predicate Recovers(s: Sys, a: Action, k: Key) { HandsOff(s, a, k) && s.pc.recover }

  /** A step that removes the lease on k, collecting it or recovering the resource. */
  predicate Removes(s: Sys, a: Action, k: Key) {
    Recovers(s, a, k) || (a.Collect? && k in Expired(s.b, a.now))
  }

  predicate Lowers(s: Sys, a: Action, k: Key, t: nat) { (Sets(s, a, k) && a.at <= t) || Removes(s, a, k) }

  predicate Registers(s: Sys, a: Action, k: Key) { a.RegisterLease? && Sets(s, a, k) }

  lemma PastStep(s: Sys, a: Action, k: Key, t: nat)
    requires Enabled(s, a)
    ensures Past(Next(s, a).b, k, t) <==> Raises(s, a, k, t) || (Past(s.b, k, t) && !Lowers(s, a, k, t))
  {
    hide Taken, Enqueued, HandedOver;
    match a {
      case FastCas(x, p) => OtherLeases(s.b, x, p);
      case AcqCas => OtherLeases(s.b, s.pc.key, s.pc.p);
      case AcqQueue => OtherLeases(s.b, s.pc.key, s.pc.p);
      case Store => OtherLeases(s.b, s.pc.key, 0);
      case _ =>
    }
  }

  lemma LeasedStep(s: Sys, a: Action, k: Key)
    requires Enabled(s, a)
    ensures k in Next(s, a).b.leases <==> Registers(s, a, k) || (k in s.b.leases && !Removes(s, a, k))
  {
    hide Taken, Enqueued, HandedOver;
    match a {
      case FastCas(x, p) => OtherLeases(s.b, x, p);
      case AcqCas => OtherLeases(s.b, s.pc.key, s.pc.p);
      case AcqQueue => OtherLeases(s.b, s.pc.key, s.pc.p);
      case Store => OtherLeases(s.b, s.pc.key, 0);
      case _ =>
    }
  }

  lemma OtherLeases(s: State, k: Key, p: Pid)
    ensures Taken(s, k, p).leases == Enqueued(s, k, p).leases == HandedOver(s, k).leases == s.leases
  {
  }

  /** Who may set the lease on k: its registrant, if registered and the owner of k; or, where p holds the lease and still
      owns k, p's renewal and heartbeat. */
  predicate SetBy(s: State, a: Action, k: Key, p: Pid) {
    p != 0 && s.Owner(k) == p &&
    match a
    case RegisterLease(x, q, _) => x == k && q == p && p in s.mailboxes
    case RenewLease(x, q, _) => x == k && q == p && k in s.leases && s.leases[k].owner == p
    case Heartbeat(q, _) => q == p && k in s.leases && s.leases[k].owner == p
    case _ => false
  }

  /** A lease that survives a step names whoever registered it last, and is otherwise touched only by its holder. */
  lemma LeaseOwnerStep(s: Sys, a: Action, k: Key, p: Pid)
    requires Enabled(s, a) && k in Next(s, a).b.leases
    ensures SetBy(s.b, a, k, p) ==> Next(s, a).b.leases[k] == Lease(p, a.at)
    ensures (forall q :: !SetBy(s.b, a, k, q)) ==> k in s.b.leases && Next(s, a).b.leases[k] == s.b.leases[k]
    ensures k in s.b.leases && !a.RegisterLease? ==> Next(s, a).b.leases[k].owner == s.b.leases[k].owner
  {
    hide Taken, Enqueued, HandedOver;
    match a {
      case FastCas(x, q) => OtherLeases(s.b, x, q);
      case AcqCas => OtherLeases(s.b, s.pc.key, s.pc.p);
      case AcqQueue => OtherLeases(s.b, s.pc.key, s.pc.p);
      case Store => OtherLeases(s.b, s.pc.key, 0);
      case RegisterLease(x, q, _) => assert SetBy(s.b, a, k, q) || k in s.b.leases;
      case RenewLease(x, q, _) => assert SetBy(s.b, a, k, q) || Next(s, a).b.leases[k] == s.b.leases[k];
      case Heartbeat(q, _) => assert SetBy(s.b, a, k, q) || Next(s, a).b.leases[k] == s.b.leases[k];
      case _ =>
    }
  }

  /** At step m the lease on k was set past t, and no step from m to j has lowered or removed it. */
  ghost predicate RaisedSince(ss: seq<Sys>, acts: seq<Action>, i: nat, j: nat, k: Key, t: nat)
    requires i <= j <= |acts| < |ss|
  {
    exists m | i <= m < j ::
      Raises(ss[m], acts[m], k, t) && forall n | m < n < j :: !Lowers(ss[n], acts[n], k, t)
  }

  ghost predicate RegisteredSince(ss: seq<Sys>, acts: seq<Action>, i: nat, j: nat, k: Key)
    requires i <= j <= |acts| < |ss|
  {
    exists m | i <= m < j ::
      Registers(ss[m], acts[m], k) && forall n | m < n < j :: !Removes(ss[n], acts[n], k)
  }

  lemma SinceNext(ss: seq<Sys>, acts: seq<Action>, i: nat, j: nat, k: Key, t: nat)
    requires i < j <= |acts| < |ss|
    ensures RaisedSince(ss, acts, i, j, k, t) <==> (Raises(ss[j - 1], acts[j - 1], k, t)
      || (RaisedSince(ss, acts, i, j - 1, k, t) && !Lowers(ss[j - 1], acts[j - 1], k, t)))
    ensures RegisteredSince(ss, acts, i, j, k) <==> (Registers(ss[j - 1], acts[j - 1], k)
      || (RegisteredSince(ss, acts, i, j - 1, k) && !Removes(ss[j - 1], acts[j - 1], k)))
  {
    hide Raises, Lowers, Registers, Removes;
  }

  lemma NothingSince(ss: seq<Sys>, acts: seq<Action>, i: nat, k: Key, t: nat)
    requires i <= |acts| < |ss|
    ensures !RaisedSince(ss, acts, i, i, k, t) && !RegisteredSince(ss, acts, i, i, k)
  {
  }

  lemma PastLeased(s: State, k: Key, t: nat)
    ensures Past(s, k, t) ==> k in s.leases
  {
  }

  /** From a state without a lease on k: there is one later exactly when one was registered and not removed, and it
      lasts past t exactly when it was set past t and not lowered. */
  lemma {:induction false} LeaseHistory(ss: seq<Sys>, acts: seq<Action>, i: nat, j: nat, k: Key, t: nat)
    requires Run(ss, acts) && |ss| == |acts| + 1 && i <= j <= |acts| && k !in ss[i].b.leases
    ensures k in ss[j].b.leases <==> RegisteredSince(ss, acts, i, j, k)
    ensures Past(ss[j].b, k, t) <==> RaisedSince(ss, acts, i, j, k, t)
    decreases j
  {
    hide Run, Next, RaisedSince, RegisteredSince, Raises, Lowers, Registers, Removes, Past;
    NothingSince(ss, acts, i, k, t);
    PastLeased(ss[i].b, k, t);
    if j > i {
      SinceNext(ss, acts, i, j, k, t);
      LeaseHistory(ss, acts, i, j - 1, k, t);
      RunStep(ss, acts, j - 1);
      PastStep(ss[j - 1], acts[j - 1], k, t);
      LeasedStep(ss[j - 1], acts[j - 1], k);
    }
  }

  /** A lease set past tick t and not set lower since is, at any later step, gone or still past t: no collection at t
      or earlier takes it, whatever else happens. It is still there if nothing has removed it. */
  lemma {:induction false} RenewedNotCollected(ss: seq<Sys>, acts: seq<Action>, m: nat, j: nat, k: Key, t: nat)
    requires Run(ss, acts) && |ss| == |acts| + 1 && m < j <= |acts| && Raises(ss[m], acts[m], k, t)
    requires forall n | m < n < j :: Sets(ss[n], acts[n], k) ==> acts[n].at > t
    ensures forall now: nat | now <= t :: k !in Expired(ss[j].b, now) && !Overdue(ss[j].b, k, now)
    ensures forall now: nat, x | now <= t && x in Tickets(ss[j].b, now) :: x.key != k
    ensures k in ss[j].b.leases ==> Past(ss[j].b, k, t)
    ensures (forall n | m < n < j :: !Removes(ss[n], acts[n], k)) ==> Past(ss[j].b, k, t)
    decreases j
  {
    hide Run, Next, Sets, Removes;
    RunStep(ss, acts, j - 1);
    PastStep(ss[j - 1], acts[j - 1], k, t);
    LeasedStep(ss[j - 1], acts[j - 1], k);
    if m < j - 1 { RenewedNotCollected(ss, acts, m, j - 1, k, t); }
  }

  /** Between its check and its store a locked section keeps the leases and the owner: only compare-and-swaps can
      come in between. */
  lemma {:induction false} SectionHolds(ss: seq<Sys>, acts: seq<Action>, i: nat, n: nat)
    requires Run(ss, acts) && |ss| == |acts| + 1 && i <= n <= |acts| && ss[i].pc.Checked?
    requires forall m | i <= m < n :: acts[m] != Store
    ensures ss[n].pc == ss[i].pc && ss[n].b.leases == ss[i].b.leases
    decreases n
  {
    hide Run, Taken;
    if n > i {
      SectionHolds(ss, acts, i, n - 1);
      RunStep(ss, acts, n - 1);
      if acts[n - 1].FastCas? { OtherLeases(ss[n - 1].b, acts[n - 1].key, acts[n - 1].p); }
    }
  }

  /** recoverExpiredLeases lets go of the mutex between collecting a lease at tick `now` (step i) and recovering it
      (its check at step j, its store at step n). That recovery goes ahead, and takes away a lease, if and only if the
      owner collected still owns the resource and has it leased again: a registration of k succeeded after the
      collection and was not removed. The lease taken away has not expired at `now` if and only if it was set past
      `now` after the collection. */
  lemma RecoveryExact(ss: seq<Sys>, acts: seq<Action>, i: nat, j: nat, n: nat, k: Key)
    requires Run(ss, acts) && |ss| == |acts| + 1 && i < j < n < |acts|
    requires acts[i].Collect? && k in Expired(ss[i].b, acts[i].now)
    requires acts[j] == Recover(Ticket(k, ss[i].b.leases[k].owner, acts[i].now))
    requires acts[n] == Store && forall m | j < m < n :: acts[m] != Store
    ensures var now, p := acts[i].now, ss[i].b.leases[k].owner;
      var goes := ss[j + 1].pc == Checked(k, p, true);
      && (goes <==> MayRelease(ss[j].b, k, p))
      && (goes ==> ss[n].pc == ss[j + 1].pc && k !in ss[n + 1].b.leases)
      && (goes && k in ss[n].b.leases <==> MayRelease(ss[j].b, k, p) && RegisteredSince(ss, acts, i + 1, j, k))
      && (goes && Past(ss[n].b, k, now) <==> MayRelease(ss[j].b, k, p) && RaisedSince(ss, acts, i + 1, j, k, now))
  {
    hide Run, RaisedSince, RegisteredSince, HandedOver;
    var now, p := acts[i].now, ss[i].b.leases[k].owner;
    RunStep(ss, acts, i);
    RunStep(ss, acts, j);
    RunStep(ss, acts, n);
    LeaseHistory(ss, acts, i + 1, j, k, now);
    if ss[j + 1].pc.Checked? { SectionHolds(ss, acts, j + 1, n); }
  }

  ghost predicate Stepped(s: Sys, a: Action, t: Sys) { Enabled(s, a) && t == Next(s, a) }

  /** Checking and storing a release with nobody waiting frees the resource; a recovery takes its lease too. */
  lemma Relinquished(s: Sys, k: Key, p: Pid, recover: bool) returns (t: Sys)
    requires s.pc == Checked(k, p, recover) && s.b.Queue(k) == []
    ensures Stepped(s, Store, t) && t.pc.Free? && t.b.Word(k) == 0 && t.b.Queue(k) == []
    ensures t.collected == s.collected && t.b.mailboxes == s.b.mailboxes
    ensures t.b.leases == if recover then s.b.leases - {k} else s.b.leases
  {
    t := Next(s, Store);
  }

  /** After its lease was collected, an owner releases, acquires again and registers a new lease. */
  lemma Regained(s: Sys, k: Key, p: Pid, now: nat, later: nat)
    returns (s1: Sys, s2: Sys, s3: Sys, s4: Sys, s5: Sys)
    requires SysInv(s) && s.pc.Free? && 0 < p < BIT && s.b.Known(p) && s.b.Word(k) == p && s.b.Queue(k) == []
    requires k in s.b.leases && s.b.leases[k] == Lease(p, now) && now < later
    ensures Stepped(s, Collect(now), s1) && Stepped(s1, Check(k, p, false), s2) && Stepped(s2, Store, s3)
    ensures Stepped(s3, FastCas(k, p), s4) && Stepped(s4, RegisterLease(k, p, later), s5)
    ensures s3.b.Word(k) == 0 && s5.b.Owner(k) == p && Past(s5.b, k, now) && Ticket(k, p, now) in s5.collected
    ensures s5.pc.Free? && s5.b.Queue(k) == []
  {
    hide HandedOver, Inv;
    assert Ticket(k, p, now) in Tickets(s.b, now);
    s1 := Next(s, Collect(now));
    s2 := Next(s1, Check(k, p, false));
    s3 := Relinquished(s2, k, p, false);
    s4 := Next(s3, FastCas(k, p));
    s5 := Next(s4, RegisterLease(k, p, later));
  }

  /** The case exists. That owner is still dispossessed, although its new lease has not expired: the recovery compares
      only the owner. */
  lemma FreshLeaseRecovered(s: Sys, k: Key, p: Pid, now: nat, later: nat)
    returns (s1: Sys, s2: Sys, s3: Sys, s4: Sys, s5: Sys, s6: Sys, s7: Sys)
    requires SysInv(s) && s.pc.Free? && 0 < p < BIT && s.b.Known(p) && s.b.Word(k) == p && s.b.Queue(k) == []
    requires k in s.b.leases && s.b.leases[k] == Lease(p, now) && now < later
    ensures Stepped(s, Collect(now), s1) && Stepped(s1, Check(k, p, false), s2) && Stepped(s2, Store, s3)
    ensures s3.b.Word(k) == 0 && Stepped(s3, FastCas(k, p), s4) && Stepped(s4, RegisterLease(k, p, later), s5)
    ensures s5.b.Owner(k) == p && Past(s5.b, k, now) && Stepped(s5, Recover(Ticket(k, p, now)), s6)
    ensures Stepped(s6, Store, s7) && s7.b.Word(k) == 0 && k !in s7.b.leases
  {
    s1, s2, s3, s4, s5 := Regained(s, k, p, now, later);
    s6 := Next(s5, Recover(Ticket(k, p, now)));
    s7 := Relinquished(s6, k, p, true);
  }
}
