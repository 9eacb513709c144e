/** The deferred import service as atomic steps: queue calls, the child process, the pipes between them, the reader
    thread that handles the child's messages and, in the end, its disconnect. */
module ImportModel {
  import opened Common

  type Id = seq<char>

  datatype Status = Queued | Running | Ready | ImportFailed | StartupFailed | TransportFailed

  predicate Pending(s: Status) { s.Queued? || s.Running? }

  function Rank(s: Status): nat { match s case Queued => 0 case Running => 1 case _ => 2 }

  /** Where a queue call is: it has stored its request; it has read whether the child is there; its write failed, or
      was not tried, and the failure is still to be stored. */
  datatype Point = Marked | Checked(available: bool) | Failing

  datatype Call = Call(id: Id, pc: Point)

  datatype Child = Idle | Working(id: Id) | Gone

  datatype Message = Message(id: Id, status: Status)

  datatype State = State(
    statuses: map<Id, Status>,
    available: bool,
    started: bool,
    child: Child,
    toChild: seq<Id>,
    fromChild: seq<Message>,
    calls: map<nat, Call>)

  /** `started` is false when a pipe or the fork failed: there is no child and no reader. */
  function Initial(started: bool): State {
    State(map[], started, started, if started then Idle else Gone, [], [], map[])
  }

  datatype Action =
    | Begin(call: nat, id: Id)
    | Check(call: nat)
    | Write(call: nat, delivered: bool)
    | Fail(call: nat)
    | ChildTake
    | ChildFinish(result: Status)
    | ChildStop
    | ReaderTake
    | ReaderDisconnect

  /** A write can fail at any time, and does when the child no longer reads. The child stops when it is told to, when
      a write of its own fails, or when it dies. The reader sees the end of the pipe once the child is gone and every
      message it left is read. */
  predicate Enabled(s: State, a: Action) {
    match a
    case Begin(c, _) => c !in s.calls
    case Check(c) => c in s.calls && s.calls[c].pc.Marked?
    case Write(c, delivered) =>
      && c in s.calls && s.calls[c].pc.Checked?
      && (delivered ==> s.calls[c].pc.available && !s.child.Gone?)
    case Fail(c) => c in s.calls && s.calls[c].pc.Failing?
    case ChildTake => s.child.Idle? && s.toChild != []
    case ChildFinish(r) => s.child.Working? && (r.Ready? || r.ImportFailed?)
    case ChildStop => !s.child.Gone?
    case ReaderTake => s.available && s.fromChild != []
    case ReaderDisconnect => s.available && s.child.Gone? && s.fromChild == []
  }

  /** The reader's critical section for a message: a request nobody knows is passed over. */
  function Heard(m: map<Id, Status>, msg: Message): map<Id, Status> {
    if msg.id in m then m[msg.id := msg.status] else m
  }

  /** Its critical section at the end: what is pending has failed. */
  function Disconnected(m: map<Id, Status>): map<Id, Status> {
    map id | id in m :: if Pending(m[id]) then TransportFailed else m[id]
  }

  /** What a queue call reports when it could not hand its request over. */
  function Failure(s: State): Status { if s.started then TransportFailed else StartupFailed }

  function Next(s: State, a: Action): State
    requires Enabled(s, a)
  {
    match a
    case Begin(c, id) => s.(statuses := s.statuses[id := Queued], calls := s.calls[c := Call(id, Marked)])
    case Check(c) => s.(calls := s.calls[c := s.calls[c].(pc := Checked(s.available))])
    case Write(c, delivered) =>
      if delivered then s.(toChild := s.toChild + [s.calls[c].id], calls := s.calls - {c})
      else s.(calls := s.calls[c := s.calls[c].(pc := Failing)])
    case Fail(c) =>
      var id := s.calls[c].id;
      s.(statuses := if id in s.statuses then s.statuses[id := Failure(s)] else s.statuses, calls := s.calls - {c})
    case ChildTake =>
      var id := s.toChild[0];
      s.(toChild := s.toChild[1..], child := Working(id), fromChild := s.fromChild + [Message(id, Running)])
    case ChildFinish(r) => s.(child := Idle, fromChild := s.fromChild + [Message(s.child.id, r)])
    case ChildStop => s.(child := Gone)
    case ReaderTake => s.(statuses := Heard(s.statuses, s.fromChild[0]), fromChild := s.fromChild[1..])
    case ReaderDisconnect => s.(available := false, statuses := Disconnected(s.statuses))
  }

  ghost predicate Run(states: seq<State>, actions: seq<Action>) {
    && |states| == |actions| + 1
    && (exists started :: states[0] == Initial(started))
    && forall i | 0 <= i < |actions| :: Enabled(states[i], actions[i]) && states[i + 1] == Next(states[i], actions[i])
  }

  // ------------------------------------------------------------------ nobody is stranded

  /** A call that has stored its request and will find, or has found, that the child is gone. */
  predicate WillFail(c: Call) { c.pc.Marked? || c.pc.Failing? || !c.pc.available }

  /** Once the child is known to be gone, whatever is pending belongs to a call that will yet fail it. */
  ghost predicate Attended(s: State) {
    && (forall c | c in s.calls :: s.calls[c].id in s.statuses)
    && (!s.available ==> forall id | id in s.statuses && Pending(s.statuses[id]) ::
          exists c :: c in s.calls && s.calls[c].id == id && WillFail(s.calls[c]))
  }

  lemma StepKeepsAttended(s: State, a: Action)
    requires Attended(s) && Enabled(s, a)
    ensures Attended(Next(s, a))
  {
    var t := Next(s, a);
    if !t.available {
      forall id | id in t.statuses && Pending(t.statuses[id])
        ensures exists c :: c in t.calls && t.calls[c].id == id && WillFail(t.calls[c])
      {
        if a.Begin? && a.id == id {
          assert t.calls[a.call].id == id && WillFail(t.calls[a.call]);
        } else if !a.ReaderDisconnect? {
          var c :| c in s.calls && s.calls[c].id == id && WillFail(s.calls[c]);
          assert c in t.calls && t.calls[c].id == id && WillFail(t.calls[c]);
        }
      }
    }
  }

  lemma {:induction false} RunAttended(states: seq<State>, actions: seq<Action>, n: nat)
    requires Run(states, actions) && n <= |actions|
    ensures Attended(states[n])
  {
    if n > 0 {
      RunAttended(states, actions, n - 1);
      StepKeepsAttended(states[n - 1], actions[n - 1]);
    }
  }

  /** Under every interleaving, and whatever ids are used: once the disconnect has been handled, or when no child
      ever started, a request with no queue call still at work on it is not pending. */
  lemma NoneStranded(states: seq<State>, actions: seq<Action>, n: nat, id: Id)
    requires Run(states, actions) && n <= |actions| && !states[n].available
    requires id in states[n].statuses && forall c | c in states[n].calls :: states[n].calls[c].id != id
    ensures !Pending(states[n].statuses[id])
  {
    RunAttended(states, actions, n);
  }

  // ------------------------------------------------------------------ with fresh ids, statuses only move forward

  predicate Fresh(s: State, a: Action) { a.Begin? ==> a.id !in s.statuses }

  predicate Settled(s: Status) { s.Ready? || s.ImportFailed? }

  /** Not yet taken by the child: no message names it, and its status is the first, or the disconnect's. */
  ghost predicate Untaken(s: State, id: Id) {
    && id in s.statuses && s.child != Working(id)
    && (forall m | m in s.fromChild :: m.id != id)
    && (s.statuses[id].Queued? || (!s.available && s.statuses[id].TransportFailed?))
  }

  /** Each id is in one place on its way to the child. */
  ghost predicate OnTheWay(s: State) {
    && (forall c | c in s.calls :: Untaken(s, s.calls[c].id) && s.calls[c].id !in s.toChild)
    && (forall c, d | c in s.calls && d in s.calls && c != d :: s.calls[c].id != s.calls[d].id)
    && (forall i | 0 <= i < |s.toChild| :: Untaken(s, s.toChild[i]))
    && (forall i, j | 0 <= i < j < |s.toChild| :: s.toChild[i] != s.toChild[j])
  }

  /** The messages about an id come in order, and all are ahead of the status stored. */
  ghost predicate Ahead(s: State) {
    && (forall i | 0 <= i < |s.fromChild| :: var m := s.fromChild[i];
          m.id in s.statuses && Rank(s.statuses[m.id]) < Rank(m.status) && (m.status.Running? || Settled(m.status)))
    && (forall i, j | 0 <= i < j < |s.fromChild| && s.fromChild[i].id == s.fromChild[j].id ::
          Rank(s.fromChild[i].status) < Rank(s.fromChild[j].status))
    && (s.child.Working? ==> s.child.id in s.statuses && Pending(s.statuses[s.child.id]))
    && (s.child.Working? ==> forall i | 0 <= i < |s.fromChild| ::
          s.fromChild[i].id == s.child.id ==> s.fromChild[i].status.Running?)
    && (!s.available ==> s.child.Gone? && s.fromChild == [])
  }

  /** As long as the child lives, a pending request is somewhere. */
  ghost predicate Held(s: State, id: Id) {
    || s.child.Gone? || s.child == Working(id) || id in s.toChild
    || (exists c :: c in s.calls && s.calls[c].id == id)
    || (exists m :: m in s.fromChild && m.id == id && Settled(m.status))
  }

  ghost predicate Accounted(s: State) {
    forall id | id in s.statuses && Pending(s.statuses[id]) :: Held(s, id)
  }

  ghost predicate Inv(s: State) { OnTheWay(s) && Ahead(s) && Accounted(s) }

  /** What a step may do to the statuses. */
  predicate Forward(before: map<Id, Status>, after: map<Id, Status>) {
    forall id | id in before ::
      id in after && Rank(before[id]) <= Rank(after[id]) && (Settled(before[id]) ==> after[id] == before[id])
  }

  predicate OfCall(a: Action) { a.Begin? || a.Check? || a.Write? || a.Fail? }

  lemma BeginOnTheWay(s: State, a: Action)
    requires Inv(s) && Enabled(s, a) && Fresh(s, a) && a.Begin?
    ensures OnTheWay(Next(s, a))
  {
    Unmentioned(s, a.id);
    hide Accounted, Ahead;
  }

  lemma WriteOnTheWay(s: State, a: Action)
    requires Inv(s) && Enabled(s, a) && a.Write?
    ensures OnTheWay(Next(s, a))
  {
    hide Accounted, Ahead;
  }

  lemma FailOnTheWay(s: State, a: Action)
    requires Inv(s) && Enabled(s, a) && (a.Check? || a.Fail?)
    ensures OnTheWay(Next(s, a))
  {
    hide Accounted, Ahead;
  }

  lemma Unmentioned(s: State, id: Id)
    requires Inv(s) && id !in s.statuses
    ensures s.child != Working(id) && id !in s.toChild && forall m | m in s.fromChild :: m.id != id
    ensures forall c | c in s.calls :: s.calls[c].id != id
  {
  }

  lemma CallStepsAccounted(s: State, a: Action)
    requires Inv(s) && Enabled(s, a) && Fresh(s, a) && OfCall(a)
    ensures Accounted(Next(s, a))
  {
    hide OnTheWay, Ahead;
    var t := Next(s, a);
    forall id | id in t.statuses && Pending(t.statuses[id]) ensures Held(t, id) {
      if exists c :: c in s.calls && s.calls[c].id == id {
        var c :| c in s.calls && s.calls[c].id == id;
        if a.Write? && a.delivered && c == a.call {
          assert t.toChild[|s.toChild|] == id;
        } else {
          assert a.Fail? ==> c != a.call by { assert Pending(t.statuses[id]); CallKnown(s, c); }
          assert t.calls[c].id == id;
        }
      } else if a.Begin? && a.id == id {
        assert t.calls[a.call].id == id;
      }
    }
  }

  lemma CallKnown(s: State, c: nat)
    requires Inv(s) && c in s.calls
    ensures s.calls[c].id in s.statuses
  {
  }

  lemma CallStepsAhead(s: State, a: Action)
    requires Inv(s) && Enabled(s, a) && Fresh(s, a) && OfCall(a)
    ensures Ahead(Next(s, a))
  {
    hide OnTheWay, Accounted;
    if a.Begin? { Unmentioned(s, a.id); } else { CallUntaken(s, a.call); }
  }

  lemma CallStepsForward(s: State, a: Action)
    requires Inv(s) && Enabled(s, a) && Fresh(s, a) && OfCall(a)
    ensures Forward(s.statuses, Next(s, a).statuses)
  {
    hide OnTheWay, Ahead, Accounted;
    if !a.Begin? { CallUntaken(s, a.call); }
  }

  lemma CallUntaken(s: State, c: nat)
    requires Inv(s) && c in s.calls
    ensures Untaken(s, s.calls[c].id)
  {
  }

  lemma CallSteps(s: State, a: Action)
    requires Inv(s) && Enabled(s, a) && Fresh(s, a) && OfCall(a)
    ensures Inv(Next(s, a)) && Forward(s.statuses, Next(s, a).statuses)
  {
    hide OnTheWay, Ahead, Accounted, Next, Enabled, Forward;
    match a {
      case Begin(_, _) => BeginOnTheWay(s, a);
      case Write(_, _) => WriteOnTheWay(s, a);
      case _ => FailOnTheWay(s, a);
    }
    CallStepsAhead(s, a);
    CallStepsForward(s, a);
    CallStepsAccounted(s, a);
  }

  predicate OfChild(a: Action) { a.ChildTake? || a.ChildFinish? || a.ChildStop? }

  lemma ChildStepsAccounted(s: State, a: Action)
    requires Inv(s) && Enabled(s, a) && OfChild(a)
    ensures Accounted(Next(s, a))
  {
    hide OnTheWay, Ahead;
    var t := Next(s, a);
    forall id | id in t.statuses && Pending(t.statuses[id]) ensures Held(t, id) {
      assert Held(s, id);
      if a.ChildFinish? && s.child.id == id { assert t.fromChild[|s.fromChild|] == Message(id, a.result); }
      forall m | m in s.fromChild ensures m in t.fromChild {
      }
    }
  }

  lemma ChildStepsOnTheWay(s: State, a: Action)
    requires Inv(s) && Enabled(s, a) && OfChild(a)
    ensures OnTheWay(Next(s, a))
  {
    hide Accounted, Ahead;
  }

  lemma ChildStepsAhead(s: State, a: Action)
    requires Inv(s) && Enabled(s, a) && OfChild(a)
    ensures Ahead(Next(s, a))
  {
    hide Accounted;
  }

  lemma ChildSteps(s: State, a: Action)
    requires Inv(s) && Enabled(s, a) && OfChild(a)
    ensures Inv(Next(s, a)) && Forward(s.statuses, Next(s, a).statuses)
  {
    hide OnTheWay, Ahead, Accounted, Enabled;
    ChildStepsOnTheWay(s, a);
    ChildStepsAhead(s, a);
    ChildStepsAccounted(s, a);
  }

  predicate OfReader(a: Action) { a.ReaderTake? || a.ReaderDisconnect? }

  lemma ReaderStepsOnTheWay(s: State, a: Action)
    requires Inv(s) && Enabled(s, a) && OfReader(a)
    ensures OnTheWay(Next(s, a))
  {
    hide Accounted, Ahead;
  }

  lemma ReaderStepsAhead(s: State, a: Action)
    requires Inv(s) && Enabled(s, a) && OfReader(a)
    ensures Ahead(Next(s, a)) && Forward(s.statuses, Next(s, a).statuses)
  {
    hide OnTheWay, Accounted;
  }

  lemma ReaderStepsAccounted(s: State, a: Action)
    requires Inv(s) && Enabled(s, a) && OfReader(a)
    ensures Accounted(Next(s, a))
  {
    hide OnTheWay;
    var t := Next(s, a);
    forall id | id in t.statuses && Pending(t.statuses[id]) && a.ReaderTake? ensures Held(t, id) {
      assert Pending(s.statuses[id]) && Held(s, id);
    }
  }

  lemma ReaderSteps(s: State, a: Action)
    requires Inv(s) && Enabled(s, a) && OfReader(a)
    ensures Inv(Next(s, a)) && Forward(s.statuses, Next(s, a).statuses)
  {
    hide OnTheWay, Ahead, Accounted, Next, Enabled, Forward;
    ReaderStepsOnTheWay(s, a);
    ReaderStepsAhead(s, a);
    ReaderStepsAccounted(s, a);
  }

  /** No step takes a status back, and a result that has arrived is never overwritten. */
  lemma StepForward(s: State, a: Action)
    requires Inv(s) && Enabled(s, a) && Fresh(s, a)
    ensures Inv(Next(s, a)) && Forward(s.statuses, Next(s, a).statuses)
  {
    hide Inv, Next, Enabled, Forward;
    if OfCall(a) {
      CallSteps(s, a);
    } else if OfReader(a) {
      ReaderSteps(s, a);
    } else {
      ChildSteps(s, a);
    }
  }

  /** In any state at all, a step takes a status back, or overwrites a result, in these cases and no others: a queue
      call begins on an id that is known and no longer queued; a call stores a failure over a result; the reader hears a
      message that is behind the status stored, or not the result stored. */
  predicate TakesBack(s: State, a: Action)
    requires Enabled(s, a)
  {
    match a
    case Begin(_, id) => id in s.statuses && !s.statuses[id].Queued?
    case Fail(c) => s.calls[c].id in s.statuses && Settled(s.statuses[s.calls[c].id])
    case ReaderTake =>
      var m := s.fromChild[0];
      m.id in s.statuses && (Rank(m.status) < Rank(s.statuses[m.id])
        || (Settled(s.statuses[m.id]) && m.status != s.statuses[m.id]))
    case _ => false
  }

  lemma StepForwardExact(s: State, a: Action)
    requires Enabled(s, a)
    ensures Forward(s.statuses, Next(s, a).statuses) <==> !TakesBack(s, a)
  {
    var t := Next(s, a);
    match a {
      case Begin(_, id) => assert id in t.statuses;
      case Fail(c) => assert s.calls[c].id in s.statuses ==> s.calls[c].id in t.statuses;
      case ReaderTake => assert s.fromChild[0].id in s.statuses ==> s.fromChild[0].id in t.statuses;
      case _ =>
    }
  }

  ghost predicate FreshRun(states: seq<State>, actions: seq<Action>) {
    Run(states, actions) && forall i | 0 <= i < |actions| :: Fresh(states[i], actions[i])
  }

  lemma {:induction false} FreshRunInv(states: seq<State>, actions: seq<Action>, n: nat)
    requires FreshRun(states, actions) && n <= |actions|
    ensures Inv(states[n])
  {
    if n > 0 {
      hide Inv;
      FreshRunInv(states, actions, n - 1);
      assert Fresh(states[n - 1], actions[n - 1]);
      StepForward(states[n - 1], actions[n - 1]);
    }
  }

  lemma StepAt(states: seq<State>, actions: seq<Action>, i: nat)
    requires FreshRun(states, actions) && i < |actions|
    ensures |states| == |actions| + 1 && Enabled(states[i], actions[i]) && Fresh(states[i], actions[i])
    ensures states[i + 1] == Next(states[i], actions[i])
  {
  }

  lemma ForwardTransitive(a: map<Id, Status>, b: map<Id, Status>, c: map<Id, Status>)
    requires Forward(a, b) && Forward(b, c)
    ensures Forward(a, c)
  {
  }

  /** With an id of its own for every queue call, each status moves queued, running, terminal and never back, under
      every interleaving. */
  lemma {:induction false} StatusesMoveForward(states: seq<State>, actions: seq<Action>, m: nat, n: nat)
    requires FreshRun(states, actions) && m <= n <= |actions|
    ensures Forward(states[m].statuses, states[n].statuses)
  {
    if m < n {
      hide Inv, Next, FreshRun, Run, Forward, Fresh;
      StatusesMoveForward(states, actions, m, n - 1);
      FreshRunInv(states, actions, n - 1);
      StepAt(states, actions, n - 1);
      StepForward(states[n - 1], actions[n - 1]);
      ForwardTransitive(states[m].statuses, states[n - 1].statuses, states[n].statuses);
    } else {
      hide Run;
    }
  }

  /** When all is quiet and the child lives, every request has its answer. */
  lemma QuietMeansAnswered(states: seq<State>, actions: seq<Action>, n: nat, id: Id)
    requires FreshRun(states, actions) && n <= |actions|
    requires var s := states[n];
      s.child.Idle? && s.toChild == [] && s.fromChild == [] && s.calls == map[] && id in s.statuses
    ensures !Pending(states[n].statuses[id])
  {
    FreshRunInv(states, actions, n);
    assert Pending(states[n].statuses[id]) ==> Held(states[n], id);
  }

  lemma Extend(states: seq<State>, actions: seq<Action>, a: Action, t: State)
    returns (states': seq<State>, actions': seq<Action>)
    requires Run(states, actions) && Enabled(states[|states| - 1], a) && Next(states[|states| - 1], a) == t
    ensures states' == states + [t] && actions' == actions + [a] && Run(states', actions')
  {
    states', actions' := states + [t], actions + [a];
    assert states'[0] == states[0];
    forall i | 0 <= i < |actions'|
      ensures Enabled(states'[i], actions'[i]) && states'[i + 1] == Next(states'[i], actions'[i])
    {
      if i < |actions| { assert states[i] == states'[i] && actions[i] == actions'[i]; }
    }
  }

  /** Two requests under one id, both handed over before the child takes the first. */
  lemma TwoRequests(id: Id) returns (states: seq<State>, actions: seq<Action>)
    ensures Run(states, actions)
    ensures states[|states| - 1] == Initial(true).(statuses := map[id := Queued], toChild := [id, id])
  {
    var checked0, checked1 := map[0 := Call(id, Checked(true))], map[1 := Call(id, Checked(true))];
    assert checked0 - {0} == map[] && checked1 - {1} == map[];
    var s := Initial(true).(statuses := map[id := Queued]);
    states, actions := [Initial(true)], [];
    assert Run(states, actions);
    hide Run;
    states, actions := Extend(states, actions, Begin(0, id), s.(calls := map[0 := Call(id, Marked)]));
    states, actions := Extend(states, actions, Check(0), s.(calls := checked0));
    states, actions := Extend(states, actions, Write(0, true), s.(toChild := [id]));
    states, actions := Extend(states, actions, Begin(1, id), s.(toChild := [id], calls := map[1 := Call(id, Marked)]));
    states, actions := Extend(states, actions, Check(1), s.(toChild := [id], calls := checked1));
    states, actions := Extend(states, actions, Write(1, true), s.(toChild := [id, id]));
  }

  /** The ids must be fresh: with two requests under one id the status can go from ready back to running. What it said
      was ready was the first of them. */
  lemma ReusedIdRunsBackward(id: Id) returns (states: seq<State>, actions: seq<Action>)
    ensures Run(states, actions) && |actions| >= 1
    ensures var n := |actions|;
      && id in states[n - 1].statuses && states[n - 1].statuses[id] == Ready
      && id in states[n].statuses && states[n].statuses[id] == Running
  {
    hide Run;
    states, actions := TwoRequests(id);
    RunLength(states, actions);
    var s7 := Initial(true).(statuses := map[id := Queued], toChild := [id], child := Working(id),
      fromChild := [Message(id, Running)]);
    var s8 := s7.(child := Idle, fromChild := [Message(id, Running), Message(id, Ready)]);
    var s9 := s8.(statuses := map[id := Running], fromChild := [Message(id, Ready)]);
    var s10 := s9.(toChild := [], child := Working(id), fromChild := [Message(id, Ready), Message(id, Running)]);
    var s11 := s10.(statuses := map[id := Ready], fromChild := [Message(id, Running)]);
    states, actions := Extend(states, actions, ChildTake, s7);
    states, actions := Extend(states, actions, ChildFinish(Ready), s8);
    states, actions := Extend(states, actions, ReaderTake, s9);
    states, actions := Extend(states, actions, ChildTake, s10);
    states, actions := Extend(states, actions, ReaderTake, s11);
    states, actions := Extend(states, actions, ReaderTake, s10.(statuses := map[id := Running], fromChild := []));
  }

  lemma RunLength(states: seq<State>, actions: seq<Action>)
    requires Run(states, actions)
    ensures |states| == |actions| + 1
  {
  }
}
