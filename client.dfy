/** The polling client script: in ready mode it checks that the server is
    available, submits a picture under a fresh picture uuid and switches to
    waiting once the server accepts; in waiting mode it polls for the
    result, and a result carrying its own client and picture uuids feeds
    the failure window. Each loop iteration is one step method; the
    availability answer, the picture file and every HTTP exchange are
    parameters. */
module Client {
  import opened Common
  import opened FailureWindow

  /** The `result` object of a reply: whether all of `scores`, `boxes`,
      `labels`, `severity` and `elapsed_time` are present, and the
      severity. */
  datatype ResultData = ResultData(complete: bool, severity: Json)

  /** A reply's JSON body as the client reads it: `message` ("" when
      absent), `result` when present, and the echoed `client_uuid` and
      `picture_uuid` ("" when absent). */
  datatype Body = Body(message: string, result: Option<ResultData>, clientUuid: string, pictureUuid: string)

  /** What `requests.post` yields: an exception (no answer) or a status and
      a body. */
  datatype Transport = NoAnswer | Answer(code: nat, body: Body)

  datatype HttpResponse = HttpResponse(code: nat, body: Body)

  /** `raise_for_status` raises for 4xx and 5xx; a response object is
      truthy exactly when it would not. */
  predicate Failing(code: nat)
  {
    400 <= code < 600
  }

  predicate Truthy(r: Option<HttpResponse>)
  {
    r.Some? && !Failing(r.value.code)
  }

  /** `handle_network_request`: a 503 or 404 response is handed back as is,
      any other failing status and any transport error become None. */
  function HandleNetworkRequest(t: Transport): (r: Option<HttpResponse>)
    ensures t.NoAnswer? ==> r.None?
    ensures t.Answer? && (t.code == 503 || t.code == 404) ==> r == Some(HttpResponse(t.code, t.body))
    ensures t.Answer? && t.code != 503 && t.code != 404 ==> (r.Some? <==> !Failing(t.code))
    ensures r.Some? ==> t.Answer? && r.value == HttpResponse(t.code, t.body)
  {
    match t
    case NoAnswer => None
    case Answer(code, body) =>
      if code == 503 || code == 404 then Some(HttpResponse(code, body))
      else if Failing(code) then None
      else Some(HttpResponse(code, body))
  }

  /** Although 503 and 404 responses are returned, they are falsy: a caller
      testing the response sees success exactly for a non-failing status. */
  lemma TruthyIsSuccess(t: Transport)
    ensures Truthy(HandleNetworkRequest(t)) <==> t.Answer? && !Failing(t.code)
  {
  }

  const Started := "Request received, processing started"
  const UuidNotFound := "UUID not found"
  const ResultNotReady := "Result not ready"

  /** What the waiting branch makes of a poll reply. */
  datatype Classification = BackToReady | KeepWaiting | Process(severity: Json)

  function Classify(r: Option<HttpResponse>, clientUuid: string, pictureUuid: Option<string>): (c: Classification)
    ensures !Truthy(r) ==> c == BackToReady
    ensures Truthy(r) && r.value.body.message == UuidNotFound ==> c == BackToReady
    ensures Truthy(r) && r.value.body.message == ResultNotReady ==> c == KeepWaiting
    ensures c.Process? <==> Truthy(r) && r.value.body.message != UuidNotFound
                            && r.value.body.message != ResultNotReady && r.value.body.result.Some?
                            && r.value.body.clientUuid == clientUuid
                            && Some(r.value.body.pictureUuid) == pictureUuid
                            && r.value.body.result.value.complete
    ensures c.Process? ==> c.severity == r.value.body.result.value.severity
  {
    if !Truthy(r) then BackToReady
    else
      var body := r.value.body;
      if body.message == UuidNotFound then BackToReady
      else if body.message == ResultNotReady then KeepWaiting
      else if body.result.Some? then
        if body.clientUuid != clientUuid || Some(body.pictureUuid) != pictureUuid then KeepWaiting
        else if body.result.value.complete then Process(body.result.value.severity)
        else KeepWaiting
      else KeepWaiting
  }

  /** A result for another client or another picture never leaves the
      waiting mode and never reaches the failure window. */
  lemma MismatchIgnored(r: Option<HttpResponse>, clientUuid: string, pictureUuid: Option<string>)
    requires Truthy(r) && r.value.body.result.Some?
    requires r.value.body.message != UuidNotFound && r.value.body.message != ResultNotReady
    requires r.value.body.clientUuid != clientUuid || Some(r.value.body.pictureUuid) != pictureUuid
    ensures Classify(r, clientUuid, pictureUuid) == KeepWaiting
  {
  }

  /** The loop's phase: polling readiness, polling a result, or ended by the
      window (break) or by a severity that cannot be compared (an uncaught
      TypeError). */
  datatype Mode = Ready | Waiting | Stopped | Crashed

  class PollingClient {
    var mode: Mode
    var secondRequest: bool
    var pictureUuid: Option<string>
    const clientUuid: string
    const window: FailureCounter

    constructor(clientUuid: string, maxCount: int, countTime: real)
      ensures mode == Ready && !secondRequest && pictureUuid.None?
      ensures this.clientUuid == clientUuid && fresh(window)
      ensures window.count == 0 && window.timestamps == []
      ensures window.maxCount == maxCount && window.countTime == countTime
    {
      mode := Ready;
      secondRequest := false;
      pictureUuid := None;
      this.clientUuid := clientUuid;
      window := new FailureCounter(maxCount, countTime);
    }

    /** One ready-mode iteration. An unavailable server sets
        `second_request`; the next available answer only clears it, so a
        submission needs two available answers in a row after a failure.
        A picture that does not open skips the round. Otherwise a fresh
        picture uuid is drawn (even if the submission then fails) and the
        client waits once the server answers "processing started". */
    method ReadyStep(available: bool, imageOpens: bool, newPictureUuid: string, reply: Transport)
      requires mode == Ready
      modifies this
      ensures secondRequest == !available
      ensures var submits := available && !old(secondRequest) && imageOpens;
        pictureUuid == (if submits then Some(newPictureUuid) else old(pictureUuid))
        && mode == (if submits && Truthy(HandleNetworkRequest(reply))
                       && HandleNetworkRequest(reply).value.body.message == Started
                    then Waiting else Ready)
    {
      if !available {
        secondRequest := true;
        return;
      }
      if secondRequest {
        secondRequest := false;
        return;
      }
      if !imageOpens {
        return;
      }
      pictureUuid := Some(newPictureUuid);
      var response := HandleNetworkRequest(reply);
      if Truthy(response) && response.value.body.message == Started {
        mode := Waiting;
      }
    }

    /** `process_response_data`: an unexpected severity format changes
        nothing and does not stop; a readable level goes through the
        window, which stops the loop once the count exceeds `max_count`. */
    method ProcessResponseData(severity: Json, stamp: real, now: real) returns (m: Mode)
      modifies window
      ensures ReadSeverity(severity).Level? ==>
        window.timestamps == Prune(old(window.timestamps)
          + (if ReadSeverity(severity).value > RedLevel then [stamp] else []), now, window.countTime)
        && window.count == |window.timestamps|
        && (m == Stopped <==> window.count > window.maxCount)
        && (m != Stopped ==> m == Ready)
      ensures ReadSeverity(severity).Unexpected? ==>
        m == Ready && window.timestamps == old(window.timestamps) && window.count == old(window.count)
      ensures ReadSeverity(severity).Incomparable? ==>
        m == Crashed && window.timestamps == old(window.timestamps) && window.count == old(window.count)
    {
      var reading := ReadSeverity(severity);
      match reading
      case Unexpected =>
        m := Ready;
      case Incomparable =>
        m := Crashed;
      case Level(v) =>
        var exceeded := window.Observe(v, stamp, now);
        m := if exceeded then Stopped else Ready;
    }

    /** One waiting-mode iteration: classify the poll reply; back to ready,
        keep waiting, or process a matching complete result. */
    method WaitingStep(reply: Transport, stamp: real, now: real)
      requires mode == Waiting
      modifies this, window
      ensures secondRequest == old(secondRequest) && pictureUuid == old(pictureUuid)
      ensures var c := Classify(HandleNetworkRequest(reply), clientUuid, pictureUuid);
        (c.BackToReady? ==> mode == Ready) && (c.KeepWaiting? ==> mode == Waiting)
        && (!c.Process? ==> window.timestamps == old(window.timestamps) && window.count == old(window.count))
        && (c.Process? ==> mode != Waiting)
      ensures var c := Classify(HandleNetworkRequest(reply), clientUuid, pictureUuid);
        c.Process? && ReadSeverity(c.severity).Level? ==>
          window.timestamps == Prune(old(window.timestamps)
            + (if ReadSeverity(c.severity).value > RedLevel then [stamp] else []), now, window.countTime)
          && (mode == Stopped <==> window.count > window.maxCount)
    {
      var c := Classify(HandleNetworkRequest(reply), clientUuid, pictureUuid);
      match c
      case BackToReady =>
        mode := Ready;
      case KeepWaiting =>
      case Process(severity) =>
        mode := ProcessResponseData(severity, stamp, now);
    }
  }
}
