/** The inference server's two routes and its worker, over one
    `ProcessingManager`. The Flask and the Quart servers have the same
    handlers, step for step; routing, form decoding and the thread or task
    that runs the worker are left to the caller, which invokes the worker
    as an explicit step with the time, the core count and the image and
    inference library calls it sees. */
module Server {
  import opened Common
  import opened Geometry
  import opened Threads
  import opened ResultStore

  /** A numeric form field: absent (its default applies), a number, or
      text `float()` rejects. */
  datatype Field = Absent | Number(value: real) | Malformed

  /** The form fields the server reads. An absent or empty `image` or
      `uuid` is "". */
  datatype Form = Form(image: string, scoresThreshold: Field, imgSensitivity: Field,
                       cpuSpeedControl: Field, uuid: string)

  /** A route's answer: a status code with a message, or the result body. */
  datatype Reply = Message(code: nat, text: string) | Body(response: Response)

  /** The work an accepted submission hands to `process_image`. */
  datatype Job = Job(uuid: string, image: seq<bv8>, scoresThreshold: real,
                     imgSensitivity: real, cpuSpeedControl: real)

  /** What `image_inference` returns, besides the elapsed time. */
  datatype Output = Output(scores: seq<real>, boxes: seq<Box>, labels: seq<real>,
                           severity: seq<real>, elapsedTime: real)

  const Busy := Message(503, "Server is busy")
  const NoImage := Message(400, "Image data is required")
  const NoUuid := Message(400, "UUID is required")
  /** An exception escaping the handler (bad base64, bad number). */
  const Crash := Message(500, "Internal Server Error")
  const Started := Message(200, "Request received, processing started")
  const Unknown := Message(404, "UUID not found")
  const NotReady := Message(202, "Result not ready")

  /** `float(form.get(name, default))`. */
  function FieldValue(f: Field, default: real): (r: Option<real>)
    ensures f.Absent? ==> r == Some(default)
    ensures f.Malformed? <==> r.None?
  {
    match f
    case Absent => Some(default)
    case Number(v) => Some(v)
    case Malformed => None
  }

  /** The admission decision of `submit_request`, in the handler's order:
      busy, missing image, base64 decoding, the three numbers (defaults
      0.5, 0.04, 0.5), missing uuid. */
  function Admit(busy: bool, form: Form, b64decode: string -> Option<seq<bv8>>): (r: Result)
    ensures busy ==> r == Rejected(Busy)
    ensures !busy && form.image == "" ==> r == Rejected(NoImage)
    ensures r.Accepted? ==> r.job.uuid == form.uuid != "" && Some(r.job.image) == b64decode(form.image)
    ensures r.Accepted? <==> !busy && form.image != "" && b64decode(form.image).Some?
                              && !form.scoresThreshold.Malformed? && !form.imgSensitivity.Malformed?
                              && !form.cpuSpeedControl.Malformed? && form.uuid != ""
  {
    if busy then Rejected(Busy)
    else if form.image == "" then Rejected(NoImage)
    else match b64decode(form.image)
      case None => Rejected(Crash)
      case Some(bytes) =>
        match (FieldValue(form.scoresThreshold, 0.5), FieldValue(form.imgSensitivity, 0.04),
               FieldValue(form.cpuSpeedControl, 0.5))
        case (Some(thr), Some(sens), Some(speed)) =>
          if form.uuid == "" then Rejected(NoUuid)
          else Accepted(Job(form.uuid, bytes, thr, sens, speed))
        case _ => Rejected(Crash)
  }

  datatype Result = Rejected(reply: Reply) | Accepted(job: Job)

  /** `submit_request`: a rejection changes nothing; an acceptance sets
      busy and returns the job for the worker. */
  method SubmitRequest(m: ProcessingManager, form: Form, b64decode: string -> Option<seq<bv8>>)
    returns (reply: Reply, job: Option<Job>)
    modifies m
    ensures m.results == old(m.results)
    ensures Admit(old(m.busy), form, b64decode).Rejected? ==>
      reply == Admit(old(m.busy), form, b64decode).reply && job.None? && m.busy == old(m.busy)
    ensures Admit(old(m.busy), form, b64decode).Accepted? ==>
      reply == Started && job == Some(Admit(old(m.busy), form, b64decode).job) && m.busy
  {
    var busy := m.GetBusy();
    var decision := Admit(busy, form, b64decode);
    if decision.Rejected? {
      return decision.reply, None;
    }
    m.SetBusy(true);
    reply, job := Started, Some(decision.job);
  }

  /** What the worker produces: None when the image does not open or the
      inference raises, else the response stamped `now`. The inference runs
      on `ThreadCount(cores, speed)` threads. */
  function Work(job: Job, cores: nat, now: real, opens: seq<bv8> -> bool,
                infer: (seq<bv8>, real, real, nat) -> Option<Output>): (r: Option<Response>)
    ensures r.Some? <==> (opens(job.image) &&
      infer(job.image, job.scoresThreshold, job.imgSensitivity, ThreadCount(cores, job.cpuSpeedControl)).Some?)
    ensures r.Some? ==> r.value.timestamp == now
  {
    if !opens(job.image) then None
    else match infer(job.image, job.scoresThreshold, job.imgSensitivity, ThreadCount(cores, job.cpuSpeedControl))
      case None => None
      case Some(o) => Some(Response(o.scores, o.boxes, o.labels, o.severity, o.elapsedTime, now))
  }

  /** `process_image`: write the placeholder, then on success overwrite it
      with the response and clear busy. Either failure returns early,
      leaving the placeholder and busy as they were. */
  method ProcessImage(m: ProcessingManager, job: Job, cores: nat, now: real, opens: seq<bv8> -> bool,
                      infer: (seq<bv8>, real, real, nat) -> Option<Output>)
    modifies m
    ensures var w := Work(job, cores, now, opens, infer);
      m.results == old(m.results)[job.uuid := Entry(if w.Some? then Ready(w.value) else Placeholder, now)]
    ensures Work(job, cores, now, opens, infer).Some? ==> !m.busy
    ensures Work(job, cores, now, opens, infer).None? ==> m.busy == old(m.busy)
  {
    m.SubmitResult(job.uuid, Placeholder, now);
    var w := Work(job, cores, now, opens, infer);
    if w.None? {
      return;
    }
    m.SubmitResult(job.uuid, Ready(w.value), now);
    m.SetBusy(false);
  }

  /** The reply of `request_result` for a lookup. */
  function Answer(l: Lookup): (r: Reply)
    ensures r.Body? <==> l.Delivered?
    ensures r.Body? ==> r.response == l.response
    ensures l.NotFound? ==> r == Unknown
    ensures l.Pending? ==> r == NotReady
  {
    match l
    case NotFound => Unknown
    case Pending => NotReady
    case Delivered(resp) => Body(resp)
  }

  /** `request_result`: 400 without a uuid, else the three-way lookup. */
  method RequestResult(m: ProcessingManager, uuid: string) returns (reply: Reply)
    modifies m
    ensures uuid == "" ==> reply == NoUuid && m.results == old(m.results)
    ensures uuid != "" ==>
      reply == Answer(LookupIn(old(m.results), uuid)) && m.results == AfterLookup(old(m.results), uuid)
    ensures m.busy == old(m.busy)
  {
    if uuid == "" {
      return NoUuid;
    }
    var l := m.GetResult(uuid);
    reply := Answer(l);
  }

  /** A worker that fails leaves busy set, so every later submission is
      refused with 503 whatever it carries. */
  lemma FailureBlocksServer(job: Job, cores: nat, now: real, opens: seq<bv8> -> bool,
                            infer: (seq<bv8>, real, real, nat) -> Option<Output>,
                            form: Form, b64decode: string -> Option<seq<bv8>>)
    requires Work(job, cores, now, opens, infer).None?
    ensures Admit(true, form, b64decode) == Rejected(Busy)
    ensures LookupIn(map[job.uuid := Entry(Placeholder, now)], job.uuid) == Pending
  {
  }

  /** The happy path end to end: after the worker stores its response for
      the job's uuid, the first poll returns it and the second gets 404. */
  lemma PollAfterSuccess(rs: map<string, Entry>, job: Job, cores: nat, now: real, opens: seq<bv8> -> bool,
                         infer: (seq<bv8>, real, real, nat) -> Option<Output>)
    requires Work(job, cores, now, opens, infer).Some?
    ensures var resp := Work(job, cores, now, opens, infer).value;
      var s := rs[job.uuid := Entry(Placeholder, now)][job.uuid := Entry(Ready(resp), now)];
      Answer(LookupIn(s, job.uuid)) == Body(resp)
      && Answer(LookupIn(AfterLookup(s, job.uuid), job.uuid)) == Unknown
  {
    var resp := Work(job, cores, now, opens, infer).value;
    assert rs[job.uuid := Entry(Placeholder, now)][job.uuid := Entry(Ready(resp), now)]
        == rs[job.uuid := Entry(Ready(resp), now)];
    DeliveredOnce(rs, job.uuid, resp, now);
  }
}
