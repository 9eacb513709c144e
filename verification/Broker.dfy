/** The broker object: the operations as methods over the mutable word of each resource and the broker's own
    tables, each tied to its uninterrupted meaning in BrokerModel. */
module Broker {
  import opened Common
  import opened BrokerModel

  class ResourceState {
    var word: nat

    constructor ()
      ensures word == 0
    {
      word := 0;
    }
  }

  datatype LeaseRecord = LeaseRecord(state: ResourceState, owner: Pid, expiresAt: nat)

  class ResourceBroker {
    var waiters: map<Key, seq<Pid>>
    var mailboxes: map<Pid, seq<Grant>>
    var leases: map<Key, LeaseRecord>
    var nextGrantToken: nat
    var nextParticipant: nat

    /** One ResourceState per key; its word and the leases without their pointers; what has been granted. */
    ghost var states: map<Key, ResourceState>
    ghost var words: map<Key, nat>
    ghost var leaseView: map<Key, Lease>
    ghost var granted: seq<Grant>

    ghost predicate Linked()
      reads this, states.Values
    {
      true == (
        && (forall k, l | k in states && l in states && k != l :: states[k] != states[l])
        && words.Keys == states.Keys && (forall k | k in states :: states[k].word == words[k])
        && leaseView.Keys == leases.Keys <= states.Keys
        && (forall k | k in leases ::
              leases[k].state == states[k] && leaseView[k] == Lease(leases[k].owner, leases[k].expiresAt)))
    }

    ghost function View(): State
      reads this
    {
      State(words, waiters, mailboxes, leaseView, nextGrantToken, granted)
    }

    ghost predicate Valid()
      reads this, states.Values
    {
      && Linked() && Inv(View())
      && 0 < nextParticipant && forall p | p in mailboxes :: 0 < p < nextParticipant
    }

    constructor ()
      ensures Valid() && states == map[] && mailboxes == map[]
      ensures View() == State(map[], map[], map[], map[], 1, [])
    {
      waiters, mailboxes, leases, states, granted := map[], map[], map[], map[], [];
      words, leaseView := map[], map[];
      nextGrantToken, nextParticipant := 1, 1;
      new;
      forall k ensures KeyOk(View(), k) {}
    }

    /** A resource the broker is first asked about: its state, still free, becomes the state of the key. */
    ghost method Track(key: Key, state: ResourceState)
      requires Valid() && key !in states && state !in states.Values && state.word == 0
      modifies this`states, this`words
      ensures Valid() && states == old(states)[key := state]
      ensures View() == old(View()).(words := old(words)[key := 0])
    {
      hide Inv, Linked;
      WordKeys();
      FreeWordKeepsInv(View(), key);
      Link(key, state);
    }

    ghost method Link(key: Key, state: ResourceState)
      requires Linked() && key !in states && state !in states.Values && state.word == 0
      modifies this`states, this`words
      ensures Linked() && states == old(states)[key := state] && words == old(words)[key := 0]
    {
      states, words := states[key := state], words[key := 0];
    }

    lemma WordKeys()
      requires Linked()
      ensures words.Keys == states.Keys
    {
    }

    method RegisterParticipant() returns (p: Pid)
      requires Valid() && nextParticipant < BIT
      modifies this
      ensures Valid() && states == old(states)
      ensures p !in old(mailboxes) && 0 < p < BIT && View() == old(View()).(mailboxes := old(mailboxes)[p := []])
    {
      p := nextParticipant;
      nextParticipant := nextParticipant + 1;
      ghost var s := View();
      mailboxes := mailboxes[p := []];
      MailboxKeepsInv(s, p);
    }

    method DrainMailbox(p: Pid) returns (events: seq<Grant>)
      requires Valid()
      modifies this
      ensures Valid() && states == old(states)
      ensures p in old(mailboxes) ==> events == old(mailboxes)[p] && View() == old(View()).(mailboxes := old(mailboxes)[p := []])
      ensures p !in old(mailboxes) ==> events == [] && View() == old(View())
    {
      if p !in mailboxes { return []; }
      ghost var s := View();
      events := mailboxes[p];
      mailboxes := mailboxes[p := []];
      MailboxKeepsInv(s, p);
    }

    method SetWord(ghost key: Key, state: ResourceState, w: nat)
      requires Linked() && key in states && states[key] == state
      modifies state, this`words
      ensures Linked() && words == old(words)[key := w]
    {
      state.word := w;
      words := words[key := w];
    }

    method ReadWord(ghost key: Key, state: ResourceState) returns (w: nat)
      requires Linked() && key in states && states[key] == state
      ensures key in words && w == words[key] && View().Word(key) == w
    {
      w := state.word;
    }

    /** The unlocked compare-and-swap. */
    method TryAcquire(ghost key: Key, state: ResourceState, p: Pid) returns (ok: bool)
      requires Valid() && key in states && states[key] == state && p < BIT
      modifies state, this`words
      ensures Valid()
      ensures View() == if p != 0 then Taken(old(View()), key, p) else old(View())
      ensures ok == (p != 0 && old(View()).Word(key) == 0)
    {
      hide Inv, Linked;
      var w := ReadWord(key, state);
      if p == 0 || w != 0 { return false; }
      TakenKeepsInv(View(), key, p);
      SetWord(key, state, p);
      return true;
    }

    /** With nobody interfering, the compare-and-swap repeated under the mutex cannot succeed where the first
        one failed; BrokerProtocol has the interleavings. */
    method AcquireOrQueue(key: Key, state: ResourceState, p: Pid) returns (status: AcquireStatus)
      requires Valid() && key in states && states[key] == state && p < BIT
      modifies this, state
      ensures Valid() && states == old(states)
      ensures (status, View()) == Acquire(old(View()), key, p)
      ensures status == Acquired ==> View().Owner(key) == p
      ensures status == Queued ==> p in View().Queue(key) && View().Owner(key) == old(View()).Owner(key)
      ensures View().Queue(key) ==
        old(View()).Queue(key) + if status == Queued && p !in old(View()).Queue(key) then [p] else []
    {
      hide Inv, Linked;
      ghost var s := View();
      AcquireAnswers(s, key, p);
      if p == 0 { return InvalidParticipant; }
      var ok := TryAcquire(key, state, p);
      if ok { return Acquired; }
      if p !in mailboxes { return InvalidParticipant; }
      var w := ReadWord(key, state);
      if OwnerOf(w) == p { return Acquired; }
      EnqueuedKeepsInv(s, key, p);
      var q := if key in waiters then waiters[key] else [];
      SetWord(key, state, WithBit(w));
      SetQueue(key, if p in q then q else q + [p]);
      return Queued;
    }

    method SetQueue(key: Key, q: seq<Pid>)
      requires Linked()
      modifies this`waiters
      ensures Linked() && waiters == old(waiters)[key := q]
    {
      waiters := waiters[key := q];
    }

    method PushGrant(key: Key, to: Pid)
      requires Linked() && to in mailboxes
      modifies this`mailboxes, this`nextGrantToken, this`granted
      ensures Linked()
      ensures mailboxes == old(mailboxes)[to := old(mailboxes)[to] + [Grant(key, to, old(nextGrantToken))]]
      ensures nextGrantToken == old(nextGrantToken) + 1
      ensures granted == old(granted) + [Grant(key, to, old(nextGrantToken))]
    {
      var g := Grant(key, to, nextGrantToken);
      nextGrantToken := nextGrantToken + 1;
      mailboxes := mailboxes[to := mailboxes[to] + [g]];
      granted := granted + [g];
    }

    /** The loop shared by release and recovery: pop waiters until a registered one is found. */
    method PopWaiter(key: Key) returns (next: Option<Pid>)
      requires Linked()
      modifies this`waiters
      ensures Linked()
      ensures var q := Eligible(old(View()).Queue(key), mailboxes.Keys);
        if q == [] then next == None && waiters == old(waiters) - {key}
        else next == Some(q[0]) && waiters == old(waiters)[key := q[1..]]
    {
      hide Linked;
      ghost var s := View();
      while key in waiters && waiters[key] != []
        invariant waiters == s.waiters || (key in s.waiters && key in waiters && waiters == s.waiters[key := waiters[key]])
        invariant Linked() && Eligible(View().Queue(key), mailboxes.Keys) == Eligible(s.Queue(key), mailboxes.Keys)
        decreases if key in waiters then |waiters[key]| else 0
      {
        var p := waiters[key][0];
        SetQueue(key, waiters[key][1..]);
        if p in mailboxes { return Some(p); }
      }
      assert View().Queue(key) == [] && waiters - {key} == s.waiters - {key};
      DropQueue(key);
      next := None;
    }

    method HandOver(key: Key, state: ResourceState)
      requires Valid() && key in states && states[key] == state
      modifies this, state
      ensures Valid() && states == old(states) && leases == old(leases)
      ensures View() == HandedOver(old(View()), key)
    {
      hide Inv, Linked;
      ghost var s := View();
      HandedOverKeepsInv(s, key);
      var next := PopWaiter(key);
      if next.Some? {
        SetWord(key, state, Packed(next.value, waiters[key] != []));
        PushGrant(key, next.value);
      } else {
        SetWord(key, state, 0);
      }
      assert View() == HandedOver(s, key);
    }

    method DropQueue(key: Key)
      requires Linked()
      modifies this`waiters
      ensures Linked() && waiters == old(waiters) - {key}
    {
      waiters := waiters - {key};
    }

    method Release(key: Key, state: ResourceState, p: Pid) returns (ok: bool)
      requires Valid() && key in states && states[key] == state
      modifies this, state
      ensures Valid() && states == old(states)
      ensures ok == MayRelease(old(View()), key, p) && View() == Released(old(View()), key, p)
      ensures p != 0 ==> (View().Owner(key) != old(View()).Owner(key) <==> old(View()).Owner(key) == p)
    {
      hide Inv, HandedOver, Linked;
      if p != 0 { OnlyOwnersRelease(View(), key, p); }
      var w := ReadWord(key, state);
      if p == 0 || OwnerOf(w) != p { return false; }
      HandOver(key, state);
      return true;
    }

    method RecoverAbandoned(key: Key, state: ResourceState, p: Pid) returns (ok: bool)
      requires Valid() && key in states && states[key] == state
      modifies this, state
      ensures Valid() && states == old(states)
      ensures ok == MayRelease(old(View()), key, p) && View() == Recovered(old(View()), key, p)
    {
      hide Inv, HandedOver, Linked;
      var w := ReadWord(key, state);
      if p == 0 || OwnerOf(w) != p { return false; }
      HandOver(key, state);
      DropLease(key);
      return true;
    }

    method SetLease(key: Key, r: LeaseRecord)
      requires Valid() && key in states && r.state == states[key]
      modifies this`leases, this`leaseView
      ensures Valid() && leases == old(leases)[key := r]
      ensures leaseView == old(leaseView)[key := Lease(r.owner, r.expiresAt)]
    {
      hide Inv, Linked;
      LeasesKeepInv(View(), leaseView[key := Lease(r.owner, r.expiresAt)]);
      StoreLease(key, r);
    }

    method StoreLease(key: Key, r: LeaseRecord)
      requires Linked() && key in states && r.state == states[key]
      modifies this`leases, this`leaseView
      ensures Linked() && leases == old(leases)[key := r]
      ensures leaseView == old(leaseView)[key := Lease(r.owner, r.expiresAt)]
    {
      leases := leases[key := r];
      leaseView := leaseView[key := Lease(r.owner, r.expiresAt)];
    }

    method DropLease(key: Key)
      requires Valid()
      modifies this`leases, this`leaseView
      ensures Valid() && leases == old(leases) - {key} && leaseView == old(leaseView) - {key}
    {
      hide Inv, Linked;
      LeasesKeepInv(View(), leaseView - {key});
      EraseLease(key);
    }

    method EraseLease(key: Key)
      requires Linked()
      modifies this`leases, this`leaseView
      ensures Linked() && leases == old(leases) - {key} && leaseView == old(leaseView) - {key}
    {
      leases := leases - {key};
      leaseView := leaseView - {key};
    }

    // ---------------------------------------------------------------- leases

    method RegisterLease(key: Key, state: ResourceState, p: Pid, at: nat) returns (ok: bool)
      requires Valid() && key in states && states[key] == state
      modifies this
      ensures Valid() && states == old(states) && View() == LeaseRegistered(old(View()), key, p, at)
      ensures ok == (p in old(mailboxes) && MayRelease(old(View()), key, p))
    {
      hide Inv, Linked;
      var w := ReadWord(key, state);
      if p == 0 || p !in mailboxes || OwnerOf(w) != p { return false; }
      SetLease(key, LeaseRecord(state, p, at));
      return true;
    }

    method RenewLease(key: Key, p: Pid, at: nat) returns (ok: bool)
      requires Valid()
      modifies this
      ensures Valid() && states == old(states) && View() == LeaseRenewed(old(View()), key, p, at)
      ensures ok == MayRenew(old(View()), key, p)
    {
      hide Inv, Linked;
      LeaseKeys();
      if p == 0 || key !in leases { return false; }
      ok := OwnsLease(key, p);
      if ok { SetLease(key, leases[key].(expiresAt := at)); }
    }

    method OwnsLease(key: Key, p: Pid) returns (ok: bool)
      requires Valid() && key in leases
      ensures key in leaseView && key in states && leases[key].state == states[key]
      ensures leaseView[key] == Lease(leases[key].owner, leases[key].expiresAt)
      ensures ok == MayRenew(View(), key, p)
    {
      ok := p != 0 && leases[key].owner == p && OwnerOf(leases[key].state.word) == p;
    }

    method HeartbeatParticipant(p: Pid, at: nat) returns (renewed: nat)
      requires Valid()
      modifies this
      ensures Valid() && states == old(states) && View() == Heartbeaten(old(View()), p, at)
      ensures renewed == |set k | k in old(leaseView) && MayRenew(old(View()), k, p)|
    {
      hide Inv, Linked, RenewedExcept, RenewableExcept, MayRenew;
      ghost var s := View();
      renewed := 0;
      LeaseKeys();
      RenewedBounds(s, p, at);
      if p == 0 { return; }
      var todo := leases.Keys;
      while todo != {}
        invariant Valid() && states == old(states) && todo <= leases.Keys == s.leases.Keys
        invariant View() == s.(leases := RenewedExcept(s, p, at, todo))
        invariant renewed == |RenewableExcept(s, p, todo)|
      {
        var k :| k in todo;
        var ok := OwnsLease(k, p);
        RenewedOne(s, p, at, todo, k);
        todo := todo - {k};
        if ok {
          SetLease(k, leases[k].(expiresAt := at));
          renewed := renewed + 1;
        }
      }
    }

    method CollectExpired(now: nat) returns (expired: map<Key, LeaseRecord>)
      requires Valid()
      modifies this`leases, this`leaseView
      ensures Valid() && View() == LeasesCollected(old(View()), now)
      ensures expired.Keys == Expired(old(View()), now)
      ensures forall k | k in expired :: k in states && expired[k].state == states[k]
      ensures forall k | k in expired :: k in old(leaseView) && expired[k].owner == old(leaseView)[k].owner
    {
      hide Inv, Linked, CollectedExcept, ExpiredExcept, LeasesCollected, Expired;
      ghost var s := View();
      expired := map[];
      LeaseKeys();
      CollectBounds(s, now);
      var todo := leases.Keys;
      while todo != {}
        invariant Valid() && todo <= s.leases.Keys
        invariant View() == s.(leases := CollectedExcept(s, now, todo))
        invariant expired.Keys == ExpiredExcept(s, now, todo)
        invariant forall k | k in expired :: k in states && expired[k].state == states[k] && k in s.leases && expired[k].owner == s.leases[k].owner
      {
        var k :| k in todo;
        CollectOne(s, now, todo, k);
        LeaseKeys();
        LeaseAt(k);
        todo := todo - {k};
        if leases[k].expiresAt <= now {
          expired := expired[k := leases[k]];
          DropLease(k);
        }
      }
    }

    lemma LeaseAt(k: Key)
      requires Linked() && k in leases
      ensures k in states && leases[k].state == states[k]
      ensures k in leaseView && leaseView[k] == Lease(leases[k].owner, leases[k].expiresAt)
    {
    }

    /** Leaves no lease that expires at or before `now`; passes on exactly the resources whose lease holder still
        owns them, each to its longest waiter or to nobody, and returns exactly their keys. */
    method RecoverExpiredLeases(now: nat) returns (recovered: seq<Key>)
      requires Valid()
      modifies this, states.Values
      ensures Valid() && states == old(states)
      ensures RecoveredSo(old(View()), now, Expired(old(View()), now), recovered, View())
    {
      hide Inv, Linked, RecoveredSo, LeasesCollected, Recovered, Expired;
      ghost var s := View();
      NothingRecovered(s, now);
      var expired := CollectExpired(now);
      recovered := [];
      var todo := expired.Keys;
      assert expired.Keys - todo == {};
      while todo != {}
        invariant Valid() && states == old(states) && todo <= expired.Keys
        invariant RecoveredSo(s, now, expired.Keys - todo, recovered, View())
      {
        var k :| k in todo;
        RecoverNext(s, now, expired.Keys - todo, recovered, View(), k);
        assert expired.Keys - todo + {k} == expired.Keys - (todo - {k});
        var ok := RecoverAbandoned(k, expired[k].state, expired[k].owner);
        if ok { recovered := recovered + [k]; }
        todo := todo - {k};
      }
      assert expired.Keys - todo == Expired(s, now);
    }

    lemma LeaseKeys()
      requires Linked()
      ensures leaseView.Keys == leases.Keys
    {
    }
  }
}
