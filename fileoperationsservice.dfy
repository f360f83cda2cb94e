/**
 * The file-operations daemon's request dispatcher: handles issued from a
 * counter, a queue of pending requests (prepended on arrival, taken from
 * the back by workers), a map from handle to response, cancellation of
 * pending and in-flight requests, completion notifications, and the linger
 * timer that ends the service once no responses remain.
 *
 * Worker threads are modelled as sequential steps: ProcessStep is one pass
 * of a worker's loop up to taking a request, Complete is the worker's
 * completion signal for it; the request's operation itself is empty in
 * this service. Signals are recorded in `events`.
 */
module Daemon {
  import opened Common

  /** The linger period in milliseconds (two minutes). */
  const LingerTimeMs: nat := 2 * 60 * 1000

  datatype RequestType = CopyRequest | MoveRequest | DeleteRequest | MkdirRequest | RenameRequest | SetPermissionsRequest

  datatype Request = Request(id: nat, kind: RequestType, paths: seq<Path>, destination: Path, mask: nat)

  datatype Response = Response(error: Error, successPaths: seq<Path>, failedPaths: seq<Path>, cancelled: bool)

  /** A newly allocated response: no paths and not cancelled. */
  const NewResponse := Response(NoError, [], [], false)

  /** OperationResponse::continueOperation: the go-on answer and the response it leaves. */
  function ContinueOperation(r: Response): (bool, Response) {
    if !r.cancelled then (true, r)
    else (false, r.(error := ErrorOperationCancelled))
  }

  /** OperationResponse::cancel */
  function CancelResponse(r: Response): Response {
    r.(cancelled := true)
  }

  /**
   * Once cancelled, a response answers "stop" and records
   * ErrorOperationCancelled, keeping its paths; before that it answers
   * "go on" and is left as it is.
   */
  lemma ContinueAfterCancel(r: Response)
    ensures var (go, r') := ContinueOperation(CancelResponse(r));
      !go && r'.error == ErrorOperationCancelled &&
      r'.successPaths == r.successPaths && r'.failedPaths == r.failedPaths
    ensures !r.cancelled ==> ContinueOperation(r) == (true, r)
  {
  }

  datatype ServiceEvent =
    | RequestCompleted(id: nat)           // the internal queued signal
    | Succeeded(id: nat, paths: seq<Path>)
    | Failed(id: nat, paths: seq<Path>, error: Error)
    | Finished(id: nat)
    | ServiceExpired

  /** What requestFinished announces for a retired response. */
  function Notifications(id: nat, r: Response): seq<ServiceEvent> {
    (if r.successPaths != [] then [Succeeded(id, r.successPaths)] else []) +
    (if r.failedPaths != [] then [Failed(id, r.failedPaths, r.error)] else []) +
    [Finished(id)]
  }

  /**
   * The announcements end with exactly one Finished; Succeeded comes only
   * with a non-empty success list and Failed only with a non-empty failure
   * list, before it.
   */
  lemma NotificationsShape(id: nat, r: Response)
    ensures var n := Notifications(id, r);
      n[|n| - 1] == Finished(id) &&
      (forall k :: 0 <= k < |n| - 1 ==> !n[k].Finished?) &&
      (Succeeded(id, r.successPaths) in n <==> r.successPaths != []) &&
      (Failed(id, r.failedPaths, r.error) in n <==> r.failedPaths != [])
  {
  }

  /** One pass of a worker loop: stop, block, or take a request. */
  datatype Dequeued = Exit | Wait | Took(request: Request)

  function Reverse<T>(s: seq<T>): (r: seq<T>)
    ensures |r| == |s|
  {
    if s == [] then [] else Reverse(s[1..]) + [s[0]]
  }

  lemma {:induction false} ReverseIndex<T>(s: seq<T>, k: nat)
    requires k < |s|
    ensures Reverse(s)[k] == s[|s| - 1 - k]
  {
    if k < |s| - 1 {
      ReverseIndex(s[1..], k);
    }
  }

  /** Taking the last element of a list takes the first of its reverse. */
  lemma {:induction false} ReverseDropLast<T>(s: seq<T>)
    requires s != []
    ensures Reverse(s)[0] == s[|s| - 1]
    ensures Reverse(s[..|s| - 1]) == Reverse(s)[1..]
  {
    ReverseIndex(s, 0);
    var t := s[..|s| - 1];
    forall k | 0 <= k < |t| ensures Reverse(t)[k] == Reverse(s)[1..][k] {
      ReverseIndex(t, k);
      ReverseIndex(s, k + 1);
    }
  }

  /** Queued handles were issued, newest first. */
  ghost predicate QueueOrdered(rs: seq<Request>, n: nat)
  {
    (forall k :: 0 <= k < |rs| ==> 1 <= rs[k].id <= n) &&
    (forall j, k :: 0 <= j < k < |rs| ==> rs[j].id > rs[k].id)
  }

  /** Responses belong to issued handles; each Finished is announced once, for an issued handle whose response is gone. */
  ghost predicate AnswersIssued(responses: map<nat, Response>, events: seq<ServiceEvent>, n: nat)
  {
    (forall id :: id in responses ==> 1 <= id <= n) &&
    (forall k :: 0 <= k < |events| && events[k].Finished? ==>
       1 <= events[k].id <= n && events[k].id !in responses) &&
    (forall j, k :: 0 <= j < k < |events| && events[j].Finished? && events[k].Finished? ==> events[j].id != events[k].id)
  }

  /** Every queued or in-flight handle has its response, unless requestFinished has retired it. */
  ghost predicate ResponsesHeld(rs: seq<Request>, flying: set<nat>, responses: map<nat, Response>, retired: set<nat>)
  {
    (forall k :: 0 <= k < |rs| ==> rs[k].id in responses || rs[k].id in retired) &&
    (forall id :: id in flying ==> id in responses || id in retired)
  }

  /** Taking one request out of the queue keeps the ids in range and in descending order. */
  lemma RemoveRequest(rs: seq<Request>, i: nat, n: nat)
    requires i < |rs|
    requires forall k :: 0 <= k < |rs| ==> 1 <= rs[k].id <= n
    requires forall j, k :: 0 <= j < k < |rs| ==> rs[j].id > rs[k].id
    ensures var t := rs[..i] + rs[i + 1..];
      |t| == |rs| - 1 && (forall k :: 0 <= k < |t| ==> t[k] == if k < i then rs[k] else rs[k + 1]) &&
      (forall k :: 0 <= k < |t| ==> 1 <= t[k].id <= n) &&
      (forall j, k :: 0 <= j < k < |t| ==> t[j].id > t[k].id)
  {
    var t := rs[..i] + rs[i + 1..];
    assert forall k :: 0 <= k < |t| ==> t[k] == if k < i then rs[k] else rs[k + 1];
  }

  /**
   * Taking the oldest request keeps the rest of the queue in range and in
   * order, and the taken handle, now in flight, keeps its response.
   */
  lemma TakeOldest(rs: seq<Request>, n: nat, flying: set<nat>, responses: map<nat, Response>, retired: set<nat>)
    requires rs != []
    requires forall k :: 0 <= k < |rs| ==> 1 <= rs[k].id <= n
    requires forall j, k :: 0 <= j < k < |rs| ==> rs[j].id > rs[k].id
    requires forall k :: 0 <= k < |rs| ==> rs[k].id in responses || rs[k].id in retired
    requires forall id :: id in flying ==> id in responses || id in retired
    ensures var t := rs[..|rs| - 1];
      (forall k :: 0 <= k < |t| ==> 1 <= t[k].id <= n) &&
      (forall j, k :: 0 <= j < k < |t| ==> t[j].id > t[k].id) &&
      (forall k :: 0 <= k < |t| ==> t[k].id in responses || t[k].id in retired)
    ensures forall id :: id in flying + {rs[|rs| - 1].id} ==> id in responses || id in retired
  {
  }

  class FileOperationsService {
    var requestId: nat
    var serviceFinished: bool
    /** Pending requests, newest first. */
    var requests: seq<Request>
    var responses: map<nat, Response>
    var timerActive: bool
    /** Handles of the requests workers have taken and not yet completed. */
    var inFlight: set<nat>
    /** Handles whose response requestFinished has retired. */
    ghost var retired: set<nat>
    var events: seq<ServiceEvent>

    /** Pending requests in the order workers take them. */
    ghost function Pending(): seq<Request>
      reads this
    {
      Reverse(requests)
    }

    /**
     * The handle bounds and order of the queue and of the announcements, and:
     * a request still queued or in flight keeps its response until
     * requestFinished retires it.
     */
    ghost predicate Valid()
      reads this
    {
      QueueOrdered(requests, requestId) && AnswersIssued(responses, events, requestId) &&
      ResponsesHeld(requests, inFlight, responses, retired)
    }

    /** The daemon at start-up: no handles issued, nothing queued, no linger timer running. */
    constructor ()
      ensures Valid()
      ensures requestId == 0 && !serviceFinished && requests == [] && responses == map[]
      ensures !timerActive && inFlight == {} && events == [] && retired == {}
    {
      requestId := 0;
      serviceFinished := false;
      requests := [];
      responses := map[];
      timerActive := false;
      inFlight := {};
      events := [];
      retired := {};
    }

    /**
     * FileOperationsService::enqueueRequest: the next handle gets a fresh
     * response; a valid request is queued and a worker will pick it up; an
     * invalid one is not queued, its response fails every path with
     * ErrorInvalidRequest and its completion is signalled at once. Any
     * enqueue stops the linger timer.
     */
    method EnqueueRequest(operation: Request, validRequest: bool) returns (id: nat)
      requires Valid()
      modifies this
      ensures Valid()
      ensures id == old(requestId) + 1 && requestId == id && id !in old(responses)
      ensures responses == old(responses)[id := if validRequest then NewResponse
                                                else Response(ErrorInvalidRequest, [], operation.paths, false)]
      ensures requests == if validRequest then [operation.(id := id)] + old(requests) else old(requests)
      ensures Pending() == if validRequest then old(Pending()) + [operation.(id := id)] else old(Pending())
      ensures events == old(events) + if validRequest then [] else [RequestCompleted(id)]
      ensures !timerActive && serviceFinished == old(serviceFinished) && inFlight == old(inFlight)
      ensures retired == old(retired)
    {
      var response := NewResponse;
      if !validRequest {
        response := Response(ErrorInvalidRequest, [], operation.paths, false);
      }
      requestId := requestId + 1;
      id := requestId;
      responses := responses[id := response];
      if validRequest {
        requests := [operation.(id := id)] + requests;
        assert requests[1..] == old(requests);
      } else {
        events := events + [RequestCompleted(id)];
      }
      timerActive := false;
    }

    /** The state change of accepting a valid request of the given kind under a new handle. */
    twostate predicate Accepted(kind: RequestType, paths: seq<Path>, destination: Path, mask: nat, handle: nat)
      reads this
    {
      var request := Request(handle, kind, paths, destination, mask);
      handle == old(requestId) + 1 && requestId == handle && handle !in old(responses) &&
      responses == old(responses)[handle := NewResponse] &&
      requests == [request] + old(requests) &&
      Pending() == old(Pending()) + [request] &&
      events == old(events) && !timerActive &&
      serviceFinished == old(serviceFinished) && inFlight == old(inFlight) && retired == old(retired)
    }

    method Copy(paths: seq<Path>, destination: Path) returns (handle: nat)
      requires Valid()
      modifies this
      ensures Valid() && Accepted(CopyRequest, paths, destination, 0, handle)
    {
      handle := EnqueueRequest(Request(0, CopyRequest, paths, destination, 0), true);
    }

    method Move(paths: seq<Path>, destination: Path) returns (handle: nat)
      requires Valid()
      modifies this
      ensures Valid() && Accepted(MoveRequest, paths, destination, 0, handle)
    {
      handle := EnqueueRequest(Request(0, MoveRequest, paths, destination, 0), true);
    }

    method Delete(paths: seq<Path>) returns (handle: nat)
      requires Valid()
      modifies this
      ensures Valid() && Accepted(DeleteRequest, paths, "", 0, handle)
    {
      handle := EnqueueRequest(Request(0, DeleteRequest, paths, "", 0), true);
    }

    method Mkdir(path: Path, destination: Path) returns (handle: nat)
      requires Valid()
      modifies this
      ensures Valid() && Accepted(MkdirRequest, [path], destination, 0, handle)
    {
      handle := EnqueueRequest(Request(0, MkdirRequest, [path], destination, 0), true);
    }

    method Rename(oldPath: Path, newPath: Path) returns (handle: nat)
      requires Valid()
      modifies this
      ensures Valid() && Accepted(RenameRequest, [oldPath], newPath, 0, handle)
    {
      handle := EnqueueRequest(Request(0, RenameRequest, [oldPath], newPath, 0), true);
    }

    method SetPermissions(path: Path, mask: nat) returns (handle: nat)
      requires Valid()
      modifies this
      ensures Valid() && Accepted(SetPermissionsRequest, [path], "", mask, handle)
    {
      handle := EnqueueRequest(Request(0, SetPermissionsRequest, [path], "", mask), true);
    }

    /** The std::find_if over the pending list: the first position holding the handle, or -1. */
    method FindRequest(handle: nat) returns (i: int)
      ensures -1 <= i < |requests|
      ensures i == -1 <==> forall k :: 0 <= k < |requests| ==> requests[k].id != handle
      ensures i >= 0 ==> requests[i].id == handle && forall k :: 0 <= k < i ==> requests[k].id != handle
    {
      i := 0;
      while i < |requests|
        invariant 0 <= i <= |requests|
        invariant forall k :: 0 <= k < i ==> requests[k].id != handle
      {
        if requests[i].id == handle {
          return;
        }
        i := i + 1;
      }
      i := -1;
    }

    /**
     * FileOperationsService::Cancel: an unknown handle changes nothing; a
     * pending request is taken out of the queue, its response fails all its
     * paths with ErrorOperationCancelled and its completion is signalled; an
     * in-flight request only has its response flagged as cancelled.
     */
    method Cancel(handle: nat)
      requires Valid()
      modifies this
      ensures Valid()
      ensures requestId == old(requestId) && serviceFinished == old(serviceFinished)
      ensures timerActive == old(timerActive) && inFlight == old(inFlight) && retired == old(retired)
      ensures handle !in old(responses) ==>
        requests == old(requests) && responses == old(responses) && events == old(events)
      ensures handle in old(responses) && (exists k :: 0 <= k < |old(requests)| && old(requests)[k].id == handle) ==>
        exists k :: 0 <= k < |old(requests)| && old(requests)[k].id == handle &&
          requests == old(requests[..k] + requests[k + 1..]) &&
          responses == old(responses)[handle := old(responses)[handle].(error := ErrorOperationCancelled,
                                                                     failedPaths := old(requests)[k].paths)] &&
          events == old(events) + [RequestCompleted(handle)]
      ensures handle in old(responses) && (forall k :: 0 <= k < |old(requests)| ==> old(requests)[k].id != handle) ==>
        requests == old(requests) && events == old(events) &&
        responses == old(responses)[handle := CancelResponse(old(responses)[handle])]
    {
      if handle !in responses {
        return;
      }
      var response := responses[handle];
      var i := FindRequest(handle);
      if i >= 0 {
        var request := requests[i];
        RemoveRequest(requests, i, requestId);
        requests := requests[..i] + requests[i + 1..];
        responses := responses[handle := response.(error := ErrorOperationCancelled, failedPaths := request.paths)];
        events := events + [RequestCompleted(request.id)];
      } else {
        responses := responses[handle := CancelResponse(response)];
      }
    }

    /**
     * FileOperationsService::requestFinished: a known handle's response is
     * retired and announced (Succeeded, Failed, then Finished); an unknown
     * handle announces nothing. The linger timer is started when no
     * response is left; an unknown handle never starts it.
     */
    method RequestFinished(id: nat)
      requires Valid()
      modifies this
      ensures Valid()
      ensures requests == old(requests) && requestId == old(requestId)
      ensures serviceFinished == old(serviceFinished) && inFlight == old(inFlight)
      ensures id in old(responses) ==>
        responses == old(responses) - {id} && retired == old(retired) + {id} &&
        events == old(events) + Notifications(id, old(responses)[id]) &&
        timerActive == (old(timerActive) || responses == map[])
      ensures id !in old(responses) ==>
        responses == old(responses) && events == old(events) && timerActive == old(timerActive) &&
        retired == old(retired)
    {
      var pendingResponses := true;
      if id in responses {
        var response := responses[id];
        responses := responses - {id};
        retired := retired + {id};
        pendingResponses := responses != map[];
        var n := Notifications(id, response);
        NotificationsShape(id, response);
        events := events + n;
        assert forall k :: |old(events)| <= k < |events| && events[k].Finished? ==> events[k].id == id;
      }
      if !pendingResponses {
        timerActive := true;
      }
    }

    /**
     * One pass of FileOperationsService::processRequests: once the service
     * has finished the worker exits (even with requests still queued); with
     * nothing queued it waits; otherwise it takes the oldest request.
     */
    method ProcessStep() returns (d: Dequeued)
      requires Valid()
      modifies this
      ensures Valid()
      ensures responses == old(responses) && requestId == old(requestId) && events == old(events)
      ensures serviceFinished == old(serviceFinished) && timerActive == old(timerActive) && retired == old(retired)
      ensures old(serviceFinished) ==> d == Exit && requests == old(requests) && inFlight == old(inFlight)
      ensures !old(serviceFinished) && old(requests) == [] ==> d == Wait && requests == old(requests) && inFlight == old(inFlight)
      ensures !old(serviceFinished) && old(requests) != [] ==>
        d == Took(old(Pending())[0]) && Pending() == old(Pending())[1..] &&
        requests == old(requests)[..|old(requests)| - 1] && inFlight == old(inFlight) + {d.request.id}
    {
      if serviceFinished {
        return Exit;
      }
      if requests == [] {
        return Wait;
      }
      var request := requests[|requests| - 1];
      TakeOldest(requests, requestId, inFlight, responses, retired);
      ReverseDropLast(requests);
      requests := requests[..|requests| - 1];
      inFlight := inFlight + {request.id};
      d := Took(request);
    }

    /** A worker has run the (empty) operation for a request it took and signals its completion. */
    method Complete(id: nat)
      requires Valid() && id in inFlight
      modifies this
      ensures Valid()
      ensures inFlight == old(inFlight) - {id} && events == old(events) + [RequestCompleted(id)]
      ensures requests == old(requests) && responses == old(responses) && requestId == old(requestId)
      ensures serviceFinished == old(serviceFinished) && timerActive == old(timerActive) && retired == old(retired)
    {
      inFlight := inFlight - {id};
      events := events + [RequestCompleted(id)];
    }

    /** FileOperationsService::timerEvent: the linger timer expired, so the service finishes. */
    method TimerEvent()
      requires Valid()
      modifies this
      ensures Valid()
      ensures requests == old(requests) && responses == old(responses) && requestId == old(requestId)
      ensures inFlight == old(inFlight) && retired == old(retired)
      ensures old(timerActive) ==> !timerActive && serviceFinished && events == old(events) + [ServiceExpired]
      ensures !old(timerActive) ==> timerActive == old(timerActive) && serviceFinished == old(serviceFinished) && events == old(events)
    {
      if timerActive {
        timerActive := false;
        serviceFinished := true;
        events := events + [ServiceExpired];
      }
    }
  }

  /**
   * Requests leave the queue in the order they arrived: two valid enqueues
   * followed by two worker steps take the first request, then the second.
   */
  method FifoScenario(s: FileOperationsService, a: Request, b: Request) returns (first: Dequeued, second: Dequeued)
    requires s.Valid() && s.requests == [] && !s.serviceFinished
    modifies s
    ensures first.Took? && second.Took?
    ensures first.request.id < second.request.id
    ensures first.request == a.(id := first.request.id) && second.request == b.(id := second.request.id)
  {
    var ia := s.EnqueueRequest(a, true);
    var ib := s.EnqueueRequest(b, true);
    first := s.ProcessStep();
    second := s.ProcessStep();
  }
}
