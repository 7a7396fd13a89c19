/** One ROS service call across two processes: the adapter thread inside
    ServiceInvoker::call, the one-shot helper, and the byte stream in each
    direction. Every event is one atomic action of one side (a pass of a byte
    loop, a kernel answer, a signal), so a run is any interleaving of both
    sides with partial transfers, cancellation, deadlines, timeouts, failures
    and crashes between any two bytes. */
module ServiceCall {
  import opened Basics
  import opened HelperProtocol
  import opened SocketIo

  // ---- The request -------------------------------------------------------

  datatype Call = Call(id: nat, name: seq<Byte>, md5: seq<Byte>, payload: seq<Byte>, waitMs: nat)

  /** The bounds CallService and call() have checked before a helper starts. */
  predicate Accepted(c: Call) {
    && 0 < c.id < TWO64 && 0 < |c.name| <= MAX_NAME_BYTES && ValidMd5(c.md5)
    && |c.payload| <= MAX_PAYLOAD_BYTES && c.waitMs <= MAX_WAIT_MS
  }

  function RequestFrame(c: Call): (f: Frame)
    ensures |f.reserved| == RESERVED_BYTES
  {
    MakeRequest(c.id, |c.name|, |c.md5|, |c.payload|, c.waitMs)
  }

  function RequestSize(c: Call): nat {
    FRAME_BYTES + |c.name| + |c.md5| + |c.payload|
  }

  /** Everything the parent sends before READY. */
  function RequestBytes(c: Call): (b: seq<Byte>)
    ensures |b| == RequestSize(c)
  {
    Encode(RequestFrame(c)) + c.name + c.md5 + c.payload
  }

  /** Everything the parent ever sends: the request and the commit frame. */
  function Stream(c: Call): (b: seq<Byte>)
    ensures |b| == RequestSize(c) + FRAME_BYTES
  {
    RequestBytes(c) + Encode(MakeCommit(c.id))
  }

  /** End of the section that holds offset `pos`; no single send or recv
      crosses it. */
  function SectionEnd(pos: nat, first: nat, second: nat, third: nat): (stop: nat)
    requires pos < FRAME_BYTES + first + second + third
    ensures pos < stop <= FRAME_BYTES + first + second + third
  {
    if pos < FRAME_BYTES then FRAME_BYTES
    else if pos < FRAME_BYTES + first then FRAME_BYTES + first
    else if pos < FRAME_BYTES + first + second then FRAME_BYTES + first + second
    else FRAME_BYTES + first + second + third
  }

  // ---- What the native call answers --------------------------------------

  datatype Native = NotCalled | BadPayload | Answered(bytes: seq<Byte>)

  function AnswerStatus(r: Native): ResponseStatus {
    match r
    case NotCalled => CallFailed
    case BadPayload => ResponseProtocolError
    case Answered(b) => if |b| > MAX_PAYLOAD_BYTES then ResponseTooLarge else Completed
  }

  function AnswerPayload(r: Native): seq<Byte> {
    if r.Answered? && |r.bytes| <= MAX_PAYLOAD_BYTES then r.bytes else []
  }

  function AnswerFrame(id: nat, r: Native): (f: Frame)
    ensures |f.reserved| == RESERVED_BYTES
  {
    MakeResponse(id, AnswerStatus(r), |AnswerPayload(r)|)
  }

  function AnswerBytes(id: nat, r: Native): (b: seq<Byte>)
    ensures |b| == FRAME_BYTES + |AnswerPayload(r)|
  {
    Encode(AnswerFrame(id, r)) + AnswerPayload(r)
  }

  function ReadyBytes(id: nat, status: ReadyStatus): (b: seq<Byte>)
    ensures |b| == FRAME_BYTES
  {
    Encode(MakeReady(id, status))
  }

  // ---- The two processes -------------------------------------------------

  /** How call() ends. Every error class other than `uncertain` tells the caller
      that nothing was executed. */
  datatype Outcome =
    | Success(response: seq<Byte>)
    | UncertainFailure
    | CancelledFailure
    | DeadlineFailure
    | TransientFailure

  /** The outcome does not deny execution. */
  predicate MayHaveRun(o: Outcome) {
    o.Success? || o.UncertainFailure?
  }

  /** What follows terminateAndReap. */
  datatype After = Fail(outcome: Outcome) | Respond(head: Frame, body: seq<Byte>)

  datatype Parent =
    | Spawning
    | Sending
    | AwaitingReady
    | Committing
    | AwaitingHead
    | AwaitingBody(frame: Frame)
    | Closing(after: After)
    | Killing(after: After)
    | Reaping(after: After)
    | Converting(after: After)
    | Returned(outcome: Outcome)

  datatype Job = Job(id: nat, name: seq<Byte>, md5: seq<Byte>, payload: seq<Byte>)

  datatype Helper =
    | NotStarted
    | Starting
    | ReadingHead
    | ReadingParts(frame: Frame)
    | Resolving(job: Job)
    | SendingReady(job: Job)
    | ReadingCommit(job: Job)
    | Calling(job: Job)
    | SendingAnswer
    | Exited
    | Reaped

  /** `stream` is what the parent sends, `reply` what the helper has decided to
      send so far. `up` and `down` are the bytes the socket accepted in each
      direction and `upRead`, `downRead` how many of them the other side has
      received; the rest is in flight. A buffer being filled is the stretch of
      `up` or `down` received since the buffer was started. `native` are the
      helper's entries into the roscpp call. */
  datatype State = State(
    call: Call, stream: seq<Byte>, parent: Parent, helper: Helper,
    up: seq<Byte>, upRead: nat, reply: seq<Byte>, down: seq<Byte>, downRead: nat,
    ready: Option<ReadyStatus>, answer: Option<Native>, native: seq<Job>)

  predicate Sane(s: State) {
    && |s.stream| == RequestSize(s.call) + FRAME_BYTES
    && s.upRead <= |s.up| <= |s.stream| && s.downRead <= |s.down| <= |s.reply|
  }

  /** The step did not change what either side intends to send. */
  predicate SameWire(s: State, n: State) {
    n.call == s.call && n.stream == s.stream && n.reply == s.reply && n.ready == s.ready && n.answer == s.answer
  }

  function Initial(c: Call): State {
    State(c, Stream(c), Spawning, NotStarted, [], 0, [], [], 0, None, None, [])
  }

  datatype Event =
    | Spawn(ok: bool, cancelled: bool, expired: bool)
    | PrePassBy(pre: PrePass)
    | PostPassBy(post: PostPass)
    | ParentThrows
    | ReapStep
    | Convert(ok: bool)
    | HelperStarts(ok: bool)
    | HelperPassBy(pass: HelperPass)
    | Resolve(nameOk: bool, available: bool, clientOk: bool)
    | NativeReturns(result: Native)
    | HelperDies

  // ---- Parent steps ------------------------------------------------------

  function PreFailure(r: PreResult): Outcome {
    match r
    case Cancelled => CancelledFailure
    case DeadlineElapsed => DeadlineFailure
    case _ => TransientFailure
  }

  function ParentSpawn(s: State, ok: bool, cancelled: bool, expired: bool): (n: State)
    ensures Sane(s) ==> Sane(n)
    ensures SameWire(s, n)
  {
    if !s.parent.Spawning? then s
    else if ok then s.(parent := Sending, helper := Starting)
    else if cancelled then s.(parent := Returned(CancelledFailure))
    else if expired then s.(parent := Returned(DeadlineFailure))
    else s.(parent := Returned(TransientFailure))
  }

  /** One pass of writePreCommit over the request sections. */
  function SendRequest(s: State, p: PrePass): (n: State)
    requires Sane(s) && |s.up| < RequestSize(s.call)
    ensures Sane(n)
    ensures SameWire(s, n)
  {
    var c, pos := s.call, |s.up|;
    match PreStep(SectionEnd(pos, |c.name|, |c.md5|, |c.payload|) - pos, p)
    case Step(k) =>
      s.(up := s.up + s.stream[pos..pos + k],
      parent := if pos + k == RequestSize(c) then AwaitingReady else Sending)
    case Stuck => s
    case Stop(r) => s.(parent := Closing(Fail(PreFailure(r))))
  }

  function AfterReady(c: Call, bytes: seq<Byte>): Parent
    requires |bytes| == FRAME_BYTES
  {
    var f := Decode(bytes);
    if ValidReady(f, c.id) && f.status == Ready.Code() then Committing
    else Closing(Fail(TransientFailure))
  }

  /** One pass of readPreCommit for READY. */
  function ReceiveReady(s: State, p: PrePass): (n: State)
    requires Sane(s) && s.downRead < FRAME_BYTES
    ensures Sane(n)
    ensures SameWire(s, n)
  {
    match PreStep(FRAME_BYTES - s.downRead, p)
    case Step(k) =>
      var at := s.downRead + Min(k, |s.down| - s.downRead);
      s.(downRead := at,
      parent := if at == FRAME_BYTES then AfterReady(s.call, s.down[..FRAME_BYTES]) else AwaitingReady)
    case Stuck => s
    case Stop(r) => s.(parent := Closing(Fail(PreFailure(r))))
  }

  /** One pass of writePreCommit over the commit frame: the fence. */
  function SendCommit(s: State, p: PrePass): (n: State)
    requires Sane(s) && |s.up| < |s.stream|
    ensures Sane(n)
    ensures SameWire(s, n)
  {
    var pos := |s.up|;
    match PreStep(|s.stream| - pos, p)
    case Step(k) =>
      s.(up := s.up + s.stream[pos..pos + k],
      parent := if pos + k == |s.stream| then AwaitingHead else Committing)
    case Stuck => s
    case Stop(r) => s.(parent := Closing(Fail(PreFailure(r))))
  }

  function AfterHead(c: Call, bytes: seq<Byte>): Parent
    requires |bytes| == FRAME_BYTES
  {
    var f := Decode(bytes);
    if !ValidResponse(f, c.id) then Closing(Fail(UncertainFailure))
    else if f.payloadBytes == 0 then Closing(Respond(f, []))
    else AwaitingBody(f)
  }

  /** One pass of readPostCommit into a buffer that ends at offset `end` of the
      incoming stream; with nothing left to read the pass is the closing check, and a
      clean one continues at `next`. */
  function ReceiveResponse(s: State, end: nat, next: Parent, p: PostPass): (n: State)
    requires Sane(s) && s.downRead <= end
    ensures Sane(n)
    ensures SameWire(s, n)
  {
    if s.downRead == end then
      s.(parent := if PostGate(p).Ended? then Closing(Fail(UncertainFailure)) else next)
    else match PostStep(end - s.downRead, p)
      case Step(k) => s.(downRead := s.downRead + Min(k, |s.down| - s.downRead))
      case Stuck => s
      case Stop(_) => s.(parent := Closing(Fail(UncertainFailure)))
  }

  function ReceiveHead(s: State, p: PostPass): (n: State)
    requires Sane(s) && s.downRead <= 2 * FRAME_BYTES
    ensures Sane(n)
    ensures SameWire(s, n)
  {
    var next := if s.downRead == 2 * FRAME_BYTES then AfterHead(s.call, s.down[FRAME_BYTES..2 * FRAME_BYTES])
                else s.parent;
    ReceiveResponse(s, 2 * FRAME_BYTES, next, p)
  }

  function ReceiveBody(s: State, p: PostPass): (n: State)
    requires Sane(s) && s.parent.AwaitingBody?
    requires 2 * FRAME_BYTES <= s.downRead <= 2 * FRAME_BYTES + s.parent.frame.payloadBytes
    ensures Sane(n)
    ensures SameWire(s, n)
  {
    ReceiveResponse(s, 2 * FRAME_BYTES + s.parent.frame.payloadBytes,
                    Closing(Respond(s.parent.frame, s.down[2 * FRAME_BYTES..s.downRead])), p)
  }

  /** Any other exception: the destructors reap the helper, and the handler
      around everything after the fence turns it into `uncertain`. */
  function ParentThrow(s: State): (n: State)
    ensures Sane(s) ==> Sane(n)
    ensures SameWire(s, n)
  {
    match s.parent
    case Sending => s.(parent := Closing(Fail(TransientFailure)))
    case AwaitingReady => s.(parent := Closing(Fail(TransientFailure)))
    case Committing => s.(parent := Closing(Fail(TransientFailure)))
    case AwaitingHead => s.(parent := Closing(Fail(UncertainFailure)))
    case AwaitingBody(_) => s.(parent := Closing(Fail(UncertainFailure)))
    case _ => s
  }

  /** close, kill(SIGKILL), waitpid: the helper keeps running until it dies and
      is waited for only then. */
  function Reap(s: State): (n: State)
    ensures Sane(s) ==> Sane(n)
    ensures SameWire(s, n)
  {
    match s.parent
    case Closing(a) => s.(parent := Killing(a))
    case Killing(a) => s.(parent := Reaping(a))
    case Reaping(a) =>
      if !s.helper.Exited? then s
      else if a.Fail? then s.(parent := Returned(a.outcome), helper := Reaped)
      else s.(parent := Converting(a), helper := Reaped)
    case _ => s
  }

  function ConvertResponse(s: State, ok: bool): (n: State)
    ensures Sane(s) ==> Sane(n)
    ensures SameWire(s, n)
  {
    if !s.parent.Converting? || !s.parent.after.Respond? then s
    else if s.parent.after.head.status == Completed.Code() && ok then
      s.(parent := Returned(Success(s.parent.after.body)))
    else s.(parent := Returned(UncertainFailure))
  }

  function ParentPre(s: State, p: PrePass): (n: State)
    requires Sane(s)
    ensures Sane(n)
    ensures SameWire(s, n)
  {
    if s.parent.Sending? && |s.up| < RequestSize(s.call) then SendRequest(s, p)
    else if s.parent.AwaitingReady? && s.downRead < FRAME_BYTES then ReceiveReady(s, p)
    else if s.parent.Committing? && |s.up| < |s.stream| then SendCommit(s, p)
    else s
  }

  function ParentPost(s: State, p: PostPass): (n: State)
    requires Sane(s)
    ensures Sane(n)
    ensures SameWire(s, n)
  {
    if s.parent.AwaitingHead? && s.downRead <= 2 * FRAME_BYTES then ReceiveHead(s, p)
    else if s.parent.AwaitingBody? && 2 * FRAME_BYTES <= s.downRead <= 2 * FRAME_BYTES + s.parent.frame.payloadBytes
      then ReceiveBody(s, p)
    else s
  }

  // ---- Helper steps ------------------------------------------------------

  /** How far recv takes the helper when it may return up to k bytes. */
  function Received(s: State, k: nat): (n: nat)
    requires Sane(s)
    ensures s.upRead <= n <= |s.up| && n <= s.upRead + k
  {
    s.upRead + Min(k, |s.up| - s.upRead)
  }

  function ReadHead(s: State, p: HelperPass): (n: State)
    requires Sane(s) && s.upRead < FRAME_BYTES
    ensures Sane(n)
    ensures SameWire(s, n)
  {
    match ExactStep(FRAME_BYTES - s.upRead, p)
    case Step(k) =>
      var at := Received(s, k);
      s.(upRead := at,
      helper := if at < FRAME_BYTES then ReadingHead else AfterRequestHead(s.up[..FRAME_BYTES]))
    case _ => s.(helper := Exited)
  }

  function AfterRequestHead(bytes: seq<Byte>): Helper
    requires |bytes| == FRAME_BYTES
  {
    if ValidRequest(Decode(bytes)) then ReadingParts(Decode(bytes)) else Exited
  }

  function PartsSize(f: Frame): nat {
    f.nameBytes + f.md5Bytes + f.payloadBytes
  }

  function JobOf(f: Frame, parts: seq<Byte>): Job
    requires |parts| == PartsSize(f)
  {
    Job(f.requestId, parts[..f.nameBytes], parts[f.nameBytes..f.nameBytes + f.md5Bytes],
        parts[f.nameBytes + f.md5Bytes..])
  }

  function ReadParts(s: State, p: HelperPass): (n: State)
    requires Sane(s) && s.helper.ReadingParts?
    requires FRAME_BYTES <= s.upRead < FRAME_BYTES + PartsSize(s.helper.frame)
    ensures Sane(n)
    ensures SameWire(s, n)
  {
    var f := s.helper.frame;
    match ExactStep(SectionEnd(s.upRead, f.nameBytes, f.md5Bytes, f.payloadBytes) - s.upRead, p)
    case Step(k) =>
      var at := Received(s, k);
      s.(upRead := at,
      helper := if at < FRAME_BYTES + PartsSize(f) then s.helper else Resolving(JobOf(f, s.up[FRAME_BYTES..at])))
    case _ => s.(helper := Exited)
  }

  function ResolveService(s: State, nameOk: bool, available: bool, clientOk: bool): (n: State)
    ensures Sane(s) ==> Sane(n)
  {
    if !s.helper.Resolving? then s
    else
      var job := s.helper.job;
      var status :=
        if !nameOk || !ValidMd5(job.md5) then ReadyProtocolError
        else if !available then ServiceUnavailable
        else if !clientOk then ReadyProtocolError
        else Ready;
      s.(helper := SendingReady(job), ready := Some(status), reply := s.reply + ReadyBytes(job.id, status))
  }

  /** One pass of writeExact over what is left of `reply`. */
  function SendReply(s: State, stop: nat, next: Helper, p: HelperPass): (n: State)
    requires Sane(s) && |s.down| < stop <= |s.reply|
    ensures Sane(n)
    ensures SameWire(s, n)
  {
    var pos := |s.down|;
    match ExactStep(stop - pos, p)
    case Step(k) =>
      s.(down := s.down + s.reply[pos..pos + k], helper := if pos + k < |s.reply| then s.helper else next)
    case _ => s.(helper := Exited)
  }

  /** The native dispatch fence: only a complete, matching commit frame leads
      into the roscpp call. */
  function ReadCommit(s: State, p: HelperPass): (n: State)
    requires Sane(s) && s.helper.ReadingCommit? && RequestSize(s.call) <= s.upRead < |s.stream|
    ensures Sane(n)
    ensures SameWire(s, n)
  {
    var job := s.helper.job;
    match ExactStep(|s.stream| - s.upRead, p)
    case Step(k) =>
      var at := Received(s, k);
      if at < |s.stream| then s.(upRead := at)
      else if ValidCommit(Decode(s.up[RequestSize(s.call)..at]), job.id) then
        s.(upRead := at, helper := Calling(job), native := s.native + [job])
      else s.(upRead := at, helper := Exited)
    case _ => s.(helper := Exited)
  }

  function NativeReturn(s: State, r: Native): (n: State)
    ensures Sane(s) ==> Sane(n)
  {
    if !s.helper.Calling? then s
    else s.(helper := SendingAnswer, answer := Some(r), reply := s.reply + AnswerBytes(s.helper.job.id, r))
  }

  function HelperTransfer(s: State, p: HelperPass): (n: State)
    requires Sane(s)
    ensures Sane(n)
    ensures SameWire(s, n)
  {
    match s.helper
    case ReadingHead => if s.upRead < FRAME_BYTES then ReadHead(s, p) else s
    case ReadingParts(f) =>
      if FRAME_BYTES <= s.upRead < FRAME_BYTES + PartsSize(f) then ReadParts(s, p) else s
    case SendingReady(job) =>
      if |s.down| < |s.reply| then
        SendReply(s, |s.reply|, if s.ready == Some(Ready) then ReadingCommit(job) else Exited, p)
      else s
    case ReadingCommit(_) => if RequestSize(s.call) <= s.upRead < |s.stream| then ReadCommit(s, p) else s
    case SendingAnswer =>
      if |s.down| < |s.reply| then
        SendReply(s, if |s.down| < 2 * FRAME_BYTES <= |s.reply| then 2 * FRAME_BYTES else |s.reply|, Exited, p)
      else s
    case _ => s
  }

  predicate Alive(h: Helper) {
    !h.NotStarted? && !h.Exited? && !h.Reaped?
  }

  // ---- Runs --------------------------------------------------------------

  /** Events that the current program points do not allow leave the state as it
      is, so every sequence of events is a run. */
  function Next(s: State, e: Event): (n: State)
    requires Sane(s)
    ensures Sane(n)
  {
    match e
    case Spawn(ok, cancelled, expired) => ParentSpawn(s, ok, cancelled, expired)
    case PrePassBy(p) => ParentPre(s, p)
    case PostPassBy(p) => ParentPost(s, p)
    case ParentThrows => ParentThrow(s)
    case ReapStep => Reap(s)
    case Convert(ok) => ConvertResponse(s, ok)
    case HelperStarts(ok) =>
      if !s.helper.Starting? then s else s.(helper := if ok then ReadingHead else Exited)
    case HelperPassBy(p) => HelperTransfer(s, p)
    case Resolve(nameOk, available, clientOk) => ResolveService(s, nameOk, available, clientOk)
    case NativeReturns(r) => NativeReturn(s, r)
    case HelperDies => if Alive(s.helper) then s.(helper := Exited) else s
  }

  function Run(s: State, es: seq<Event>): (after: State)
    requires Sane(s)
    ensures Sane(after)
  {
    if es == [] then s else Next(Run(s, es[..|es| - 1]), es[|es| - 1])
  }
}
