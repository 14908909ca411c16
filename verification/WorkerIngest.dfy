/** The Worker's durable delivery: attemptIngest, postToIngestWithStatus and
    deliverToGo of worker/src/index.ts. */
module WorkerIngest {
  import opened Common

  /** The body of a response: reading or parsing it throws, or it is JSON with
      or without a `status` string. */
  datatype Body = Throws | Json(status: Option<string>)

  /** What one fetch yields. */
  datatype NetReply = Response(status: int, body: Body) | AbortError | OtherError(message: string)

  datatype Reason =
    | StreamUnreadable
    | Misconfigured
    | AuthenticationRejected
    | SizeLimit
    | ServerStatus(status: int)
    | NoResponseInTime
    | RequestFailed(message: string)

  datatype Attempt = Accepted | Duplicate | UnparseableOk | HttpStatus(status: int)

  /** A value, a RejectableDeliveryError, or any other exception. */
  datatype Result<T> = Value(value: T) | Reject(reason: Reason) | Raise(error: NetReply)

  predicate Ok2xx(status: int) {
    200 <= status < 300
  }

  predicate Is5xx(r: NetReply) {
    r.Response? && 500 <= r.status < 600
  }

  /** A 2xx that is JSON with this status. */
  predicate Says(r: NetReply, status: string) {
    r.Response? && Ok2xx(r.status) && r.body.Json? && r.body.status == Some(status)
  }

  /** A 2xx whose body says accepted or duplicate, or cannot be read at all. */
  predicate Positive(r: NetReply) {
    r.Response? && Ok2xx(r.status)
    && (r.body.Throws? || r.body.status == Some("accepted") || r.body.status == Some("duplicate"))
  }

  /** Why a delivery whose last reply was `r` is rejected; None if it is not. */
  function RejectReason(r: NetReply): Option<Reason> {
    if Positive(r) then None
    else match r
      case Response(status, _) =>
        Some(if status == 401 then AuthenticationRejected
             else if status == 413 then SizeLimit
             else ServerStatus(status))
      case AbortError => Some(NoResponseInTime)
      case OtherError(message) => Some(RequestFailed(message))
  }

  /** attemptIngest: what the caller learns from one reply. It yields a final
      status exactly on a positive reply, throws a rejection only with the reason
      that this reply deserves, and leaves every other status to the caller. */
  method AttemptIngest(reply: NetReply) returns (r: Result<Attempt>)
    ensures r.Raise? <==> !reply.Response?
    ensures r.Raise? ==> r.error == reply
    ensures r.Value? && !r.value.HttpStatus? <==> Positive(reply)
    ensures r == Value(Duplicate) <==> Says(reply, "duplicate")
    ensures r == Value(Accepted) <==> Says(reply, "accepted")
    ensures r.Reject? <==> RejectReason(reply) in {Some(AuthenticationRejected), Some(SizeLimit)}
    ensures r.Reject? ==> RejectReason(reply) == Some(r.reason)
    ensures r.Value? && r.value.HttpStatus? ==>
              reply.Response? && r.value.status == reply.status
              && RejectReason(reply) == Some(ServerStatus(reply.status))
  {
    if !reply.Response? {
      return Raise(reply);
    }
    if reply.status == 401 {
      return Reject(AuthenticationRejected);
    }
    if reply.status == 413 {
      return Reject(SizeLimit);
    }
    if Ok2xx(reply.status) {
      if reply.body.Throws? {
        return Value(UnparseableOk);
      }
      if reply.body.status == Some("accepted") {
        return Value(Accepted);
      }
      if reply.body.status == Some("duplicate") {
        return Value(Duplicate);
      }
    }
    r := Value(HttpStatus(reply.status));
  }

  /** What postToIngestWithStatus makes of the last reply: null for a 2xx that
      cannot be read, the status word of a readable one, and a rejection with its
      reason for everything else. */
  ghost predicate Decided(last: NetReply, r: Result<Option<Attempt>>) {
    match last
    case AbortError => r == Reject(NoResponseInTime)
    case OtherError(message) => r == Reject(RequestFailed(message))
    case Response(status, body) =>
      if status == 401 then r == Reject(AuthenticationRejected)
      else if status == 413 then r == Reject(SizeLimit)
      else if status < 200 || 299 < status then r == Reject(ServerStatus(status))
      else if body == Throws then r == Value(None)
      else if body == Json(Some("accepted")) then r == Value(Some(Accepted))
      else if body == Json(Some("duplicate")) then r == Value(Some(Duplicate))
      else r == Reject(ServerStatus(status))
  }

  /** postToIngestWithStatus: one POST, a second one exactly after a response
      with a status of 500 to 599, and the last reply alone decides. */
  method PostToIngest(first: NetReply, second: NetReply) returns (r: Result<Option<Attempt>>, posts: nat)
    ensures posts == 1 || posts == 2
    ensures posts == 2 <==> first.Response? && 500 <= first.status <= 599
    ensures Decided(if posts == 2 then second else first, r)
    ensures RejectReason(if posts == 2 then second else first) == if r.Reject? then Some(r.reason) else None
  {
    posts := 1;
    var attempt := AttemptIngest(first);
    if attempt.Value? {
      var result := attempt.value;
      if result.HttpStatus? && result.status >= 500 && result.status < 600 {
        posts := 2;
        attempt := AttemptIngest(second);
        if attempt.Value? {
          var retryResult := attempt.value;
          if !retryResult.HttpStatus? {
            return Value(MapAttemptToStatus(retryResult)), posts;
          }
          result := retryResult;
        }
      }
      if attempt.Value? {
        if result.HttpStatus? {
          attempt := Reject(ServerStatus(result.status));
        } else {
          return Value(MapAttemptToStatus(result)), posts;
        }
      }
    }
    // catch
    if attempt.Reject? {
      return Reject(attempt.reason), posts;
    }
    if attempt.error.AbortError? {
      return Reject(NoResponseInTime), posts;
    }
    r := Reject(RequestFailed(attempt.error.message));
  }

  /** "accepted" or "duplicate"; None stands for null. */
  function MapAttemptToStatus(a: Attempt): Option<Attempt> {
    if a.Accepted? || a.Duplicate? then Some(a) else None
  }

  /** deliverToGo: the reason to reject, or None. */
  method DeliverToGo(configured: bool, first: NetReply, second: NetReply)
    returns (reject: Option<Reason>, posts: nat)
    ensures reject == Delivered(configured, first, second)
    ensures !configured ==> reject == Some(Misconfigured) && posts == 0
    ensures configured ==> posts == if first.Response? && 500 <= first.status <= 599 then 2 else 1
    ensures configured ==>
      exists r :: Decided(if posts == 2 then second else first, r)
                  && reject == if r.Reject? then Some(r.reason) else None
  {
    if !configured {
      return Some(Misconfigured), 0;
    }
    var r;
    r, posts := PostToIngest(first, second);
    reject := if r.Reject? then Some(r.reason) else None;
  }

  function Delivered(configured: bool, first: NetReply, second: NetReply): Option<Reason> {
    if !configured then Some(Misconfigured)
    else RejectReason(if Is5xx(first) then second else first)
  }
}
