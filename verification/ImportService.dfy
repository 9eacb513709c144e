/** The critical sections of the deferred import service, on the fields its mutex guards, and the messages that cross
    the pipes in the model. */
module ImportService {
  import opened Common
  import opened ImportModel
  import Json
  import Protocol
  import Schema

  function StatusName(s: Status): Json.text {
    match s
    case Queued => "queued"
    case Running => "running"
    case Ready => "ready"
    case ImportFailed => "import_failed"
    case StartupFailed => "startup_failed"
    case TransportFailed => "transport_failed"
  }

  /** What the child writes about a request it took: the description only when it is ready. */
  function ChildReport(r: Protocol.Request, s: Status, error: Json.text, description: seq<Schema.Node>, n: Json.uint64)
    : Json.text
  {
    Protocol.EncodedStatus(r,
      Protocol.Result(s.Running? || s.Ready?, Protocol.Deferred, r.requestId, StatusName(s), n, error),
      if s.Ready? then Some(description) else None)
  }

  /** The texts in the pipe to the child are requests with the ids the model has there. */
  ghost predicate Carries(wire: seq<Json.text>, ids: seq<Id>) {
    |wire| == |ids| && forall i | 0 <= i < |ids| ::
      Protocol.DecodedRequest(wire[i]).Some? && Protocol.DecodedRequest(wire[i]).value.requestId == ids[i]
  }

  /** What is in the pipe after a step, given the request of the call that writes. */
  ghost function WireAfter(s: State, a: Action, wire: seq<Json.text>, r: Protocol.Request): seq<Json.text>
    requires Enabled(s, a) && Carries(wire, s.toChild)
  {
    if a.Write? && a.delivered then wire + [Protocol.EncodedRequest(r)]
    else if a.ChildTake? then wire[1..]
    else wire
  }

  /** The pipe of texts follows the pipe of the model, and the request the child works on is the one it decodes. */
  lemma RequestArrives(s: State, a: Action, wire: seq<Json.text>, r: Protocol.Request)
    requires Enabled(s, a) && Carries(wire, s.toChild)
    requires a.Write? ==> s.calls[a.call].id == r.requestId
    ensures Carries(WireAfter(s, a, wire, r), Next(s, a).toChild)
    ensures a.Write? && a.delivered ==> Protocol.DecodedRequest(WireAfter(s, a, wire, r)[|wire|]) == Some(r)
    ensures a.ChildTake? ==> (wire != [] && Protocol.DecodedRequest(wire[0]).Some?
      && Next(s, a).child == Working(Protocol.DecodedRequest(wire[0]).value.requestId))
  {
    hide Protocol.DecodedRequest, Protocol.EncodedRequest;
    Protocol.RequestRoundTrip(r);
  }

  /** What the child reports about a request is heard by the reader, under the same id and with the same status, and
      a description that is ready arrives whole: no message of the model is lost in decoding. */
  lemma ReportArrives(r: Protocol.Request, s: Status, error: Json.text, description: seq<Schema.Node>, n: Json.uint64)
    ensures var got := Protocol.DecodedStatus(ChildReport(r, s, error, description, n), true);
      && got.Some? && got.value.1.requestId == r.requestId && got.value.1.status == StatusName(s)
      && got.value.1.ok == (s.Queued? || s.Running? || s.Ready?) && got.value.1.symbolCount == n
      && got.value.1.error == error && (s.Ready? ==> got.value.2 == description)
  {
    hide Protocol.DecodedStatus, Protocol.EncodedStatus, Protocol.Accepted, StatusName;
    AcceptedStatuses(s);
    var res := Protocol.Result(s.Running? || s.Ready?, Protocol.Deferred, r.requestId, StatusName(s), n, error);
    Protocol.StatusRoundTrip(r, res, if s.Ready? then Some(description) else None, true);
  }

  lemma AcceptedStatuses(s: Status)
    ensures Protocol.Accepted(StatusName(s)) <==> s.Queued? || s.Running? || s.Ready?
  {
    assert "import_failed"[0] == 'i' && "startup_failed"[0] == 's' && "transport_failed"[0] == 't';
  }

  lemma StatusNamesDiffer(a: Status, b: Status)
    requires StatusName(a) == StatusName(b)
    ensures a == b
  {
    assert |"queued"| == 6 && |"running"| == 7 && |"ready"| == 5 && |"import_failed"| == 13;
    assert |"startup_failed"| == 14 && |"transport_failed"| == 16;
  }

  datatype DeferredState = DeferredState(request: Protocol.Request, status: Status, error: Json.text,
                                         description: seq<Schema.Node>, symbolCount: Json.uint64)

  class Impl {
    var requests: map<Id, DeferredState>
    var childAvailable: bool
    var childExited: bool
    var childPid: int

    /** pid is what fork gave, or negative when a pipe failed. */
    constructor (pid: int)
      requires pid != 0
      ensures Statuses() == map[] && childAvailable == Started() == (pid > 0) && !childExited
    {
      requests, childAvailable, childExited, childPid := map[], pid > 0, false, pid;
    }

    ghost function Statuses(): map<Id, Status>
      reads this
    {
      map id | id in requests :: requests[id].status
    }

    ghost predicate Started()
      reads this
    {
      childExited || childPid > 0
    }

    /** The model's state with these fields in it. */
    ghost predicate Shows(s: State)
      reads this
    {
      && s.statuses == Statuses() && s.available == childAvailable && s.started == Started()
      && (childAvailable ==> Started())
    }

    /** The first section of queueDeferredImport. */
    method StoreQueued(r: Protocol.Request, ghost s: State, ghost call: nat)
      requires Shows(s) && Enabled(s, Begin(call, r.requestId))
      modifies this
      ensures Shows(Next(s, Begin(call, r.requestId)))
      ensures requests == old(requests)[r.requestId := DeferredState(r.(mode := Protocol.Deferred), Queued, "", [], 0)]
    {
      requests := requests[r.requestId := DeferredState(r.(mode := Protocol.Deferred), Queued, "", [], 0)];
    }

    /** The last section, when the child was not there or the write failed. */
    method StoreFailure(id: Id, exited: bool, pid: int, ghost s: State, ghost call: nat) returns (failure: Status)
      requires Shows(s) && Enabled(s, ImportModel.Fail(call)) && s.calls[call].id == id
      requires (exited || pid > 0) == Started()
      modifies this`requests
      ensures Shows(Next(s, ImportModel.Fail(call)))
      ensures failure == if exited || pid > 0 then TransportFailed else StartupFailed
      ensures id !in old(requests) ==> requests == old(requests)
      ensures id in old(requests) ==>
        var was := old(requests)[id];
        var error := if exited || pid > 0 then "Cartographer subprocess transport is unavailable"
          else "Cartographer subprocess failed to start";
        requests == old(requests)[id := DeferredState(was.request, failure, error, was.description, was.symbolCount)]
    {
      failure := if exited || pid > 0 then TransportFailed else StartupFailed;
      var error := if failure == TransportFailed
        then "Cartographer subprocess transport is unavailable"
        else "Cartographer subprocess failed to start";
      if id in requests {
        requests := requests[id := requests[id].(status := failure, error := error)];
      }
    }

    /** The reader's section for a message it decoded. */
    method HandleMessage(res: Protocol.Result, status: Status, description: seq<Schema.Node>, ghost s: State)
      requires Shows(s) && Enabled(s, ReaderTake) && s.fromChild[0] == Message(res.requestId, status)
      modifies this`requests
      ensures Shows(Next(s, ReaderTake))
      ensures res.requestId !in old(requests) ==> requests == old(requests)
      ensures res.requestId in old(requests) ==>
        var was := old(requests)[res.requestId];
        var found := if status.Ready? then description else was.description;
        requests == old(requests)[res.requestId := DeferredState(was.request, status, res.error, found, res.symbolCount)]
    {
      var id := res.requestId;
      if id !in requests { return; }
      var state := requests[id].(status := status, error := res.error, symbolCount := res.symbolCount);
      if status.Ready? { state := state.(description := description); }
      requests := requests[id := state];
    }

    /** One turn of the reader: the text the child wrote about its request r is decoded and handled. What the child
        said is then in the record of that request. */
    method HandleReport(message: Json.text, status: Status, ghost s: State, ghost r: Protocol.Request,
                        ghost error: Json.text, ghost description: seq<Schema.Node>, ghost n: Json.uint64)
      requires Shows(s) && Enabled(s, ReaderTake) && s.fromChild[0] == Message(r.requestId, status)
      requires message == ChildReport(r, status, error, description, n)
      modifies this`requests
      ensures Shows(Next(s, ReaderTake)) && requests.Keys == old(requests).Keys
      ensures forall id | id in old(requests) && id != r.requestId :: requests[id] == old(requests)[id]
      ensures r.requestId in old(requests) ==>
        var was, now := old(requests)[r.requestId], requests[r.requestId];
        && now.request == was.request && now.status == status && now.error == error && now.symbolCount == n
        && now.description == if status.Ready? then description else was.description
    {
      hide Protocol.DecodedStatus, ChildReport;
      ReportArrives(r, status, error, description, n);
      var _, _, res, found := Protocol.DecodeImportStatus(message, true);
      HandleMessage(res, status, found, s);
    }

    /** The reader's last section: a walk over the requests, failing those still pending. */
    method HandleDisconnect(ghost s: State)
      requires Shows(s) && Enabled(s, ReaderDisconnect)
      modifies this`requests, this`childAvailable, this`childExited
      ensures Shows(Next(s, ReaderDisconnect)) && childExited && !childAvailable
      ensures requests.Keys == old(requests).Keys
      ensures forall id | id in requests :: Dropped(old(requests)[id], requests[id])
    {
      childAvailable := false;
      childExited := true;
      FailPending();
    }

    /** What was pending has failed with the message, and nothing else has changed. */
    static predicate Dropped(was: DeferredState, now: DeferredState) {
      && now.request == was.request && now.description == was.description && now.symbolCount == was.symbolCount
      && if was.status.Queued? || was.status.Running?
         then now.status == TransportFailed && now.error == "Cartographer subprocess disconnected"
         else now.status == was.status && now.error == was.error
    }

    /** The walk. */
    method FailPending()
      modifies this`requests
      ensures requests.Keys == old(requests).Keys
      ensures forall id | id in requests :: Dropped(old(requests)[id], requests[id])
    {
      ghost var was := requests;
      var todo := requests.Keys;
      while todo != {}
        invariant todo <= requests.Keys == was.Keys
        invariant forall id | id in was :: if id in todo then requests[id] == was[id] else Dropped(was[id], requests[id])
        decreases |todo|
      {
        var id :| id in todo;
        todo := todo - {id};
        if Pending(requests[id].status) {
          requests := requests[id :=
            requests[id].(status := TransportFailed, error := "Cartographer subprocess disconnected")];
        }
      }
    }
  }
}
