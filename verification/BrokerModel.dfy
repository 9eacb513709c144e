/** What the resource broker knows, and what each of its operations does when it runs without interruption. */
module BrokerModel {
  import opened Common

  /** Participant ids are nonzero and below 2^63; 0 means nobody. */
  type Pid = nat

  /** The top bit of a resource word says that somebody is waiting; the rest is the owner. */
  const BIT: nat := 0x8000_0000_0000_0000

  datatype Key = Key(layerId: nat, slabId: nat, offset: nat, allocatorKind: nat, fieldId: nat, generation: nat)

  /** An OwnershipGranted event, and to whom it went. */
  datatype Grant = Grant(key: Key, to: Pid, token: nat)

  datatype Lease = Lease(owner: Pid, expiresAt: nat)

  /** words:     the atomic word of every resource (0 when absent)
      waiters:   the FIFO queue of every resource
      mailboxes: pending events of every registered participant
      granted:   every ownership event ever sent, in order (history) */
  datatype State = State(
    words: map<Key, nat>,
    waiters: map<Key, seq<Pid>>,
    mailboxes: map<Pid, seq<Grant>>,
    leases: map<Key, Lease>,
    nextToken: nat,
    granted: seq<Grant>)
  {
    function Word(k: Key): nat { if k in words then words[k] else 0 }
    function Owner(k: Key): Pid { OwnerOf(Word(k)) }
    function Queue(k: Key): seq<Pid> { if k in waiters then waiters[k] else [] }
    predicate Known(p: Pid) { p in mailboxes }
  }

  function OwnerOf(w: nat): Pid { w % BIT }
  predicate Contended(w: nat) { w >= BIT }
  function Packed(owner: Pid, contended: bool): nat { if contended then BIT + owner else owner }
  function WithBit(w: nat): nat { if w < BIT then w + BIT else w }

  /** compare_exchange from 0. */
  function Taken(s: State, k: Key, p: Pid): State {
    if s.Word(k) == 0 then s.(words := s.words[k := p]) else s
  }

  function Enqueued(s: State, k: Key, p: Pid): State {
    var q := s.Queue(k);
    s.(waiters := s.waiters[k := if p in q then q else q + [p]], words := s.words[k := WithBit(s.Word(k))])
  }

  /** The queue from its first registered participant on. */
  function Eligible(q: seq<Pid>, known: set<Pid>): (r: seq<Pid>)
    ensures r != [] ==> r[0] in known
    ensures |r| <= |q|
  {
    if q == [] || q[0] in known then q else Eligible(q[1..], known)
  }

  /** The owner leaves: the longest waiter takes over directly, or the resource becomes free. */
  function HandedOver(s: State, k: Key): State {
    var q := Eligible(s.Queue(k), s.mailboxes.Keys);
    if q == [] then s.(words := s.words[k := 0], waiters := s.waiters - {k})
    else
      var g := Grant(k, q[0], s.nextToken);
      s.(words := s.words[k := Packed(q[0], |q| > 1)],
         waiters := s.waiters[k := q[1..]],
         mailboxes := s.mailboxes[q[0] := s.mailboxes[q[0]] + [g]],
         nextToken := s.nextToken + 1,
         granted := s.granted + [g])
  }

  datatype AcquireStatus = Acquired | Queued | InvalidParticipant

  /** acquireOrQueue run without interruption. */
  function Acquire(s: State, k: Key, p: Pid): (AcquireStatus, State) {
    if p == 0 then (InvalidParticipant, s)
    else if s.Word(k) == 0 then (Acquired, Taken(s, k, p))
    else if !s.Known(p) then (InvalidParticipant, s)
    else if s.Owner(k) == p then (Acquired, s)
    else (Queued, Enqueued(s, k, p))
  }

  predicate MayRelease(s: State, k: Key, p: Pid) { p != 0 && s.Owner(k) == p }

  function Released(s: State, k: Key, p: Pid): State { if MayRelease(s, k, p) then HandedOver(s, k) else s }

  function Recovered(s: State, k: Key, p: Pid): State {
    if MayRelease(s, k, p) then var t := HandedOver(s, k); t.(leases := t.leases - {k}) else s
  }

  function LeaseRegistered(s: State, k: Key, p: Pid, at: nat): State {
    if s.Known(p) && MayRelease(s, k, p) then s.(leases := s.leases[k := Lease(p, at)]) else s
  }

  predicate MayRenew(s: State, k: Key, p: Pid) { k in s.leases && s.leases[k].owner == p && MayRelease(s, k, p) }

  function LeaseRenewed(s: State, k: Key, p: Pid, at: nat): State {
    if MayRenew(s, k, p) then s.(leases := s.leases[k := Lease(p, at)]) else s
  }

  function Heartbeaten(s: State, p: Pid, at: nat): State {
    s.(leases := map k | k in s.leases :: if MayRenew(s, k, p) then Lease(p, at) else s.leases[k])
  }

  /** A heartbeat part-way through: the leases in todo have not been looked at. */
  ghost function RenewedExcept(s: State, p: Pid, at: nat, todo: set<Key>): map<Key, Lease> {
    map k | k in s.leases :: if k !in todo && MayRenew(s, k, p) then Lease(p, at) else s.leases[k]
  }

  ghost function RenewableExcept(s: State, p: Pid, todo: set<Key>): set<Key> {
    set k | k in s.leases && k !in todo && MayRenew(s, k, p)
  }

  lemma RenewedBounds(s: State, p: Pid, at: nat)
    ensures RenewedExcept(s, p, at, s.leases.Keys) == s.leases && RenewableExcept(s, p, s.leases.Keys) == {}
    ensures s.(leases := RenewedExcept(s, p, at, {})) == Heartbeaten(s, p, at)
    ensures RenewableExcept(s, p, {}) == set k | k in s.leases && MayRenew(s, k, p)
    ensures p == 0 ==> Heartbeaten(s, p, at) == s && RenewableExcept(s, p, {}) == {}
  {
    assert p == 0 ==> Heartbeaten(s, p, at).leases == s.leases;
  }

  lemma RenewedOne(s: State, p: Pid, at: nat, todo: set<Key>, k: Key)
    requires k in todo && k in s.leases
    ensures var r := s.(leases := RenewedExcept(s, p, at, todo));
      && (MayRenew(r, k, p) <==> MayRenew(s, k, p)) && r.leases[k] == s.leases[k]
      && RenewedExcept(s, p, at, todo - {k}) == (if MayRenew(s, k, p) then r.leases[k := Lease(p, at)] else r.leases)
    ensures |RenewableExcept(s, p, todo - {k})| == |RenewableExcept(s, p, todo)| + (if MayRenew(s, k, p) then 1 else 0)
    ensures MayRenew(s, k, p) ==> s.leases[k].owner == p
  {
    var done := RenewableExcept(s, p, todo);
    assert RenewableExcept(s, p, todo - {k}) == if MayRenew(s, k, p) then done + {k} else done;
  }

  function Expired(s: State, now: nat): set<Key> { set k | k in s.leases && s.leases[k].expiresAt <= now }

  function LeasesCollected(s: State, now: nat): State {
    s.(leases := map k | k in s.leases && s.leases[k].expiresAt > now :: s.leases[k])
  }

  // ------------------------------------------------------------------ invariant

  /** The word and the queue of a resource tell the same story. */
  ghost predicate KeyOk(s: State, k: Key) {
    var w, q := s.Word(k), s.Queue(k);
    && w < 2 * BIT
    && (Contended(w) <==> q != [])
    && (q != [] ==> OwnerOf(w) != 0)
    && OwnerOf(w) !in q
    && Distinct(q)
    && (forall p | p in q :: p != 0 && p < BIT && s.Known(p))
  }

  /** Tokens handed out so far are strictly increasing, hence unique. */
  ghost predicate TokensOk(s: State) {
    && (forall i, j | 0 <= i < j < |s.granted| :: s.granted[i].token < s.granted[j].token)
    && (forall i | 0 <= i < |s.granted| :: s.granted[i].token < s.nextToken)
    && (forall p, i | p in s.mailboxes && 0 <= i < |s.mailboxes[p]| :: s.mailboxes[p][i] in s.granted && s.mailboxes[p][i].to == p)
  }

  ghost predicate Inv(s: State) {
    true == (TokensOk(s) && forall k :: KeyOk(s, k))
  }

  lemma WordParts(owner: Pid, contended: bool)
    requires owner < BIT
    ensures OwnerOf(Packed(owner, contended)) == owner && (Contended(Packed(owner, contended)) <==> contended)
    ensures Packed(owner, contended) < 2 * BIT
  {
  }

  lemma AllKnownEligible(q: seq<Pid>, known: set<Pid>)
    requires forall p | p in q :: p in known
    ensures Eligible(q, known) == q
  {
  }

  lemma TakenKeepsInv(s: State, k: Key, p: Pid)
    requires Inv(s) && 0 < p < BIT
    ensures Inv(Taken(s, k, p))
  {
    var t := Taken(s, k, p);
    WordParts(p, false);
    forall x ensures KeyOk(t, x) { assert KeyOk(s, x); assert KeyOk(s, k); }
  }

  lemma EnqueuedKeepsInv(s: State, k: Key, p: Pid)
    requires Inv(s) && 0 < p < BIT && s.Known(p) && s.Word(k) != 0 && s.Owner(k) != p
    ensures Inv(Enqueued(s, k, p)) && Enqueued(s, k, p).Owner(k) == s.Owner(k)
  {
    var t := Enqueued(s, k, p);
    assert KeyOk(s, k);
    forall x ensures KeyOk(t, x) { assert KeyOk(s, x); }
  }

  /** With every waiter registered, a hand-over makes the head of the queue the owner, moves everyone else up
      one place, and sends exactly one event, with a token larger than all before. */
  lemma HandedOverShape(s: State, k: Key)
    requires Inv(s)
    ensures var t, q := HandedOver(s, k), s.Queue(k);
      && (forall x | x != k :: t.Word(x) == s.Word(x) && t.Queue(x) == s.Queue(x))
      && t.mailboxes.Keys == s.mailboxes.Keys && t.leases == s.leases
      && (q == [] ==> t.Word(k) == 0 && t.Queue(k) == [] && t.granted == s.granted && t.mailboxes == s.mailboxes)
      && (q != [] ==>
            var g := Grant(k, q[0], s.nextToken);
            && t.Owner(k) == q[0] && t.Queue(k) == q[1..] && (Contended(t.Word(k)) <==> |q| > 1)
            && t.granted == s.granted + [g] && t.mailboxes == s.mailboxes[q[0] := s.mailboxes[q[0]] + [g]]
            && forall h | h in s.granted :: h.token < g.token)
  {
    assert KeyOk(s, k);
    AllKnownEligible(s.Queue(k), s.mailboxes.Keys);
    assert s.Queue(k) != [] ==> s.Queue(k)[0] in s.Queue(k);
    if s.Queue(k) != [] { WordParts(s.Queue(k)[0], |s.Queue(k)| > 1); }
  }

  lemma HandedOverTokens(s: State, k: Key)
    requires Inv(s)
    ensures TokensOk(HandedOver(s, k))
  {
    HandedOverShape(s, k);
  }

  lemma HandedOverKey(s: State, k: Key)
    requires Inv(s)
    ensures KeyOk(HandedOver(s, k), k)
  {
    var q := s.Queue(k);
    assert KeyOk(s, k);
    HandedOverShape(s, k);
    if q != [] {
      assert q[0] in q && forall p | p in q[1..] :: p in q;
      assert q[0] !in q[1..];
      WordParts(q[0], |q| > 1);
    }
  }

  lemma HandedOverKeepsInv(s: State, k: Key)
    requires Inv(s)
    ensures Inv(HandedOver(s, k))
  {
    var t := HandedOver(s, k);
    HandedOverTokens(s, k);
    HandedOverShape(s, k);
    HandedOverKey(s, k);
    forall x ensures KeyOk(t, x) { assert KeyOk(s, x); }
  }

  /** Leases and emptied mailboxes do not touch what the invariant speaks of. */
  lemma MailboxKeepsInv(s: State, p: Pid)
    requires Inv(s)
    ensures Inv(s.(mailboxes := s.mailboxes[p := []]))
  {
    var t := s.(mailboxes := s.mailboxes[p := []]);
    forall x ensures KeyOk(t, x) { assert KeyOk(s, x); }
  }

  lemma FreeWordKeepsInv(s: State, k: Key)
    requires Inv(s) && k !in s.words
    ensures Inv(s.(words := s.words[k := 0]))
  {
    var t := s.(words := s.words[k := 0]);
    forall x ensures KeyOk(t, x) { assert KeyOk(s, x) && t.Word(x) == s.Word(x); }
  }

  lemma LeasesKeepInv(s: State, leases: map<Key, Lease>)
    requires Inv(s)
    ensures Inv(s.(leases := leases))
  {
    forall x ensures KeyOk(s.(leases := leases), x) { assert KeyOk(s, x); }
  }

  // ------------------------------------------------------------------ what a caller is told

  /** Queueing leaves p in the queue: where it stood, or at the end. Nobody else moves. */
  lemma EnqueuedStands(s: State, k: Key, p: Pid)
    ensures var q, r := s.Queue(k), Enqueued(s, k, p).Queue(k);
      && p in r
      && (if p in q then r == q else r == q + [p])
    ensures forall x | x != k ::
      Enqueued(s, k, p).Queue(x) == s.Queue(x) && Enqueued(s, k, p).Word(x) == s.Word(x)
  {
  }

  /** Whoever is told Acquired owns the resource; whoever is told Queued stands in its queue behind all who stood there
      before, or where it stood already, and somebody else owns the resource; and only an unregistered caller, when
      the resource is not free, is turned away. */
  lemma AcquireAnswers(s: State, k: Key, p: Pid)
    requires Inv(s) && p < BIT
    ensures var (status, t) := Acquire(s, k, p);
      && (status == Acquired <==> p != 0 && t.Owner(k) == p && (s.Known(p) || s.Word(k) == 0))
      && (status == Queued <==> p != 0 && s.Known(p) && s.Owner(k) != 0 && s.Owner(k) != p)
      && (status == Queued ==> p in t.Queue(k) && t.Owner(k) == s.Owner(k) && Contended(t.Word(k)))
      && (status == Queued ==> if p in s.Queue(k) then t.Queue(k) == s.Queue(k) else t.Queue(k) == s.Queue(k) + [p])
      && (status != Queued ==> t.Queue(k) == s.Queue(k))
      && (status == InvalidParticipant ==> t == s)
      && (forall x | x != k :: t.Queue(x) == s.Queue(x) && t.Word(x) == s.Word(x))
  {
    assert KeyOk(s, k);
  }

  /** A release or recovery in the name of p passes the resource on exactly when p owns it, and is otherwise nothing. */
  lemma OnlyOwnersRelease(s: State, k: Key, p: Pid)
    requires Inv(s) && p != 0
    ensures Released(s, k, p).Owner(k) != s.Owner(k) <==> s.Owner(k) == p
    ensures Recovered(s, k, p).Owner(k) != s.Owner(k) <==> s.Owner(k) == p
    ensures s.Owner(k) != p ==> Released(s, k, p) == s && Recovered(s, k, p) == s
  {
    assert KeyOk(s, k);
    HandedOverShape(s, k);
    assert s.Queue(k) != [] ==> s.Queue(k)[0] in s.Queue(k);
  }

  // ------------------------------------------------------------------ recovering expired leases

  /** Resource k has gone from its owner in s to the longest waiter, or to nobody. */
  ghost predicate PassedOn(s: State, t: State, k: Key) {
    var q := s.Queue(k);
    && t.Owner(k) == (if q == [] then 0 else q[0])
    && t.Queue(k) == (if q == [] then [] else q[1..])
  }

  ghost predicate SameResource(s: State, t: State, k: Key) {
    t.Word(k) == s.Word(k) && t.Queue(k) == s.Queue(k)
  }

  /** The lease on k has run out at `now` and its holder still owns k. */
  predicate Overdue(s: State, k: Key, now: nat) {
    k in s.leases && s.leases[k].expiresAt <= now && MayRelease(s, k, s.leases[k].owner)
  }

  /** From s, the overdue resources among `seen` have been passed on and listed; nothing else has changed. */
  ghost predicate RecoveredSo(s: State, now: nat, seen: set<Key>, recovered: seq<Key>, t: State) {
    true == (
      && Inv(t) && t.leases == LeasesCollected(s, now).leases
      && (forall k :: if k in seen && Overdue(s, k, now) then PassedOn(s, t, k) else SameResource(s, t, k))
      && (forall k :: k in recovered <==> k in seen && Overdue(s, k, now))
      && (forall i, j | 0 <= i < j < |recovered| :: recovered[i] != recovered[j]))
  }

  /** Collecting part-way through: the leases in todo have not been looked at. */
  ghost function CollectedExcept(s: State, now: nat, todo: set<Key>): map<Key, Lease> {
    map k | k in s.leases && (k in todo || s.leases[k].expiresAt > now) :: s.leases[k]
  }

  ghost function ExpiredExcept(s: State, now: nat, todo: set<Key>): set<Key> {
    set k | k in s.leases && k !in todo && s.leases[k].expiresAt <= now
  }

  lemma CollectBounds(s: State, now: nat)
    ensures CollectedExcept(s, now, s.leases.Keys) == s.leases && ExpiredExcept(s, now, s.leases.Keys) == {}
    ensures s.(leases := CollectedExcept(s, now, {})) == LeasesCollected(s, now)
    ensures ExpiredExcept(s, now, {}) == Expired(s, now)
  {
  }

  lemma CollectOne(s: State, now: nat, todo: set<Key>, k: Key)
    requires k in todo && k in s.leases
    ensures var c, gone := CollectedExcept(s, now, todo), s.leases[k].expiresAt <= now;
      && k in c && c[k] == s.leases[k]
      && CollectedExcept(s, now, todo - {k}) == (if gone then c - {k} else c)
      && ExpiredExcept(s, now, todo - {k}) == ExpiredExcept(s, now, todo) + (if gone then {k} else {})
  {
  }

  lemma NothingRecovered(s: State, now: nat)
    requires Inv(s)
    ensures RecoveredSo(s, now, {}, [], LeasesCollected(s, now))
  {
    LeasesKeepInv(s, LeasesCollected(s, now).leases);
  }

  lemma RecoverNext(s: State, now: nat, seen: set<Key>, recovered: seq<Key>, t: State, k: Key)
    requires Inv(s) && RecoveredSo(s, now, seen, recovered, t) && k !in seen && k in Expired(s, now)
    ensures var p := s.leases[k].owner;
      RecoveredSo(s, now, seen + {k}, if MayRelease(t, k, p) then recovered + [k] else recovered, Recovered(t, k, p))
  {
    hide Inv, HandedOver;
    var p := s.leases[k].owner;
    assert SameResource(s, t, k);
    assert MayRelease(t, k, p) == MayRelease(s, k, p);
    if MayRelease(t, k, p) {
      HandedOverKeepsInv(t, k);
      HandedOverShape(t, k);
      var u := Recovered(t, k, p);
      assert k !in t.leases;
      assert u == HandedOver(t, k).(leases := t.leases - {k}) && u.leases == t.leases;
      LeasesKeepInv(HandedOver(t, k), t.leases);
      FreedOwner(t, k);
    }
  }

  lemma FreedOwner(s: State, k: Key)
    requires Inv(s)
    ensures PassedOn(s, HandedOver(s, k), k)
  {
    HandedOverShape(s, k);
  }
}
