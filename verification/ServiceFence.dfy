/** The commit fence of a service call, over every run: what the two processes
    keep at every step, and what an outcome then tells the caller. */
module ServiceFence {
  import opened Basics
  import opened HelperProtocol
  import opened SocketIo
  import opened ServiceCall

  function JobFor(c: Call): Job {
    Job(c.id, c.name, c.md5, c.payload)
  }

  predicate FullySent(s: State) {
    |s.up| == |s.stream|
  }

  predicate Describes(f: Frame, c: Call) {
    f.requestId == c.id && f.nameBytes == |c.name| && f.md5Bytes == |c.md5| && f.payloadBytes == |c.payload|
  }

  /** A response frame that carries this native answer. */
  predicate Carries(f: Frame, r: Native) {
    f.status == AnswerStatus(r).Code() && f.payloadBytes == |AnswerPayload(r)|
  }

  predicate AfterInv(s: State, a: After) {
    match a
    case Fail(o) => (MayHaveRun(o) <==> FullySent(s)) && !o.Success?
    case Respond(f, b) =>
      FullySent(s) && s.answer.Some? && Carries(f, s.answer.value) && b == AnswerPayload(s.answer.value)
  }

  /** Where the parent is in the two streams, and what it holds. */
  predicate ParentInv(s: State) {
    match s.parent
    case Spawning => s.up == [] && s.downRead == 0 && s.helper.NotStarted?
    case Sending => |s.up| < RequestSize(s.call) && s.downRead == 0
    case AwaitingReady => |s.up| == RequestSize(s.call) && s.downRead < FRAME_BYTES
    case Committing =>
      RequestSize(s.call) <= |s.up| < |s.stream| && s.downRead == FRAME_BYTES && s.ready == Some(Ready)
    case AwaitingHead => FullySent(s) && FRAME_BYTES <= s.downRead <= 2 * FRAME_BYTES
    case AwaitingBody(f) =>
      && FullySent(s) && s.answer.Some? && Carries(f, s.answer.value)
      && 2 * FRAME_BYTES <= s.downRead <= 2 * FRAME_BYTES + f.payloadBytes
    case Closing(a) => AfterInv(s, a)
    case Killing(a) => AfterInv(s, a)
    case Reaping(a) => AfterInv(s, a)
    case Converting(a) => AfterInv(s, a) && a.Respond? && s.helper.Reaped?
    case Returned(o) =>
      && (MayHaveRun(o) <==> FullySent(s))
      && (s.helper.Reaped? || s.helper.NotStarted?)
      && (o.Success? ==> s.answer == Some(Answered(o.response)))
  }

  predicate Undecided(s: State) {
    s.ready.None? && s.answer.None? && s.native == [] && s.reply == []
  }

  /** Where the helper is in the two streams, and what it holds. */
  predicate HelperInv(s: State) {
    match s.helper
    case NotStarted => Undecided(s) && s.upRead == 0 && (s.parent.Spawning? || s.parent.Returned?)
    case Starting => Undecided(s) && s.upRead == 0
    case ReadingHead => Undecided(s) && s.upRead < FRAME_BYTES
    case ReadingParts(f) => Undecided(s) && Describes(f, s.call) && FRAME_BYTES <= s.upRead < RequestSize(s.call)
    case Resolving(job) => Undecided(s) && job == JobFor(s.call) && s.upRead == RequestSize(s.call)
    case SendingReady(job) =>
      && job == JobFor(s.call) && s.upRead == RequestSize(s.call)
      && s.ready.Some? && s.answer.None? && s.native == [] && |s.down| < FRAME_BYTES
    case ReadingCommit(job) =>
      && job == JobFor(s.call) && RequestSize(s.call) <= s.upRead < |s.stream|
      && s.ready == Some(Ready) && s.answer.None? && s.native == [] && |s.down| == FRAME_BYTES
    case Calling(job) =>
      && job == JobFor(s.call) && s.ready == Some(Ready) && s.answer.None? && s.native == [job]
      && |s.down| == FRAME_BYTES
    case SendingAnswer => s.answer.Some? && FRAME_BYTES <= |s.down| < |s.reply|
    case Exited => true
    case Reaped => s.parent.Converting? || s.parent.Returned?
  }

  /** An entry into the native call is the one this request asked for, and
      happens only behind the complete commit frame. */
  predicate NativeInv(s: State) {
    && (s.native == [] || (s.native == [JobFor(s.call)] && FullySent(s)))
    && (s.ready.None? ==> s.answer.None? && s.reply == [])
    && (s.ready.Some? && s.answer.None? ==> |s.reply| == FRAME_BYTES)
    && (s.answer.Some? ==> s.native != [] && |s.reply| == 2 * FRAME_BYTES + |AnswerPayload(s.answer.value)|)
  }

  predicate Core(s: State) {
    Sane(s) && s.up <= s.stream && s.down <= s.reply && ParentInv(s) && HelperInv(s) && NativeInv(s)
  }

  // ---- What the bytes say ------------------------------------------------

  function Replies(s: State): seq<Byte> {
    if s.ready.None? then []
    else if s.answer.None? then ReadyBytes(s.call.id, s.ready.value)
    else ReadyBytes(s.call.id, s.ready.value) + AnswerBytes(s.call.id, s.answer.value)
  }

  /** The bytes each side sends are those of its frames and sections. */
  predicate Wired(s: State) {
    Accepted(s.call) && s.stream == Stream(s.call) && s.reply == Replies(s)
  }

  predicate Inv(s: State) {
    Core(s) && Wired(s)
  }

  lemma StreamParts(c: Call)
    requires Accepted(c)
    ensures var b := Stream(c);
            && b[..FRAME_BYTES] == Encode(RequestFrame(c))
            && b[FRAME_BYTES..FRAME_BYTES + |c.name|] == c.name
            && b[FRAME_BYTES + |c.name|..FRAME_BYTES + |c.name| + |c.md5|] == c.md5
            && b[FRAME_BYTES + |c.name| + |c.md5|..RequestSize(c)] == c.payload
            && b[RequestSize(c)..] == Encode(MakeCommit(c.id))
  {
  }

  lemma PrefixSlice<T>(a: seq<T>, b: seq<T>, i: nat, j: nat)
    requires a <= b && i <= j <= |a|
    ensures a[i..j] == b[i..j]
  {
  }

  lemma Appended<T>(a: seq<T>, b: seq<T>, k: nat)
    requires a <= b && |a| + k <= |b|
    ensures a + b[|a|..|a| + k] <= b
  {
  }

  /** The helper reads the request frame the parent built. */
  lemma HeadRead(s: State)
    requires Core(s) && Wired(s) && |s.up| >= FRAME_BYTES
    ensures AfterRequestHead(s.up[..FRAME_BYTES]).ReadingParts?
    ensures Describes(AfterRequestHead(s.up[..FRAME_BYTES]).frame, s.call)
  {
    var c := s.call;
    StreamParts(c);
    PrefixSlice(s.up, s.stream, 0, FRAME_BYTES);
    RequestOnWire(c.id, |c.name|, |c.md5|, |c.payload|, c.waitMs);
  }

  /** The sections it cuts by that frame are the ones sent. */
  lemma PartsRead(s: State, f: Frame)
    requires Core(s) && Wired(s) && |s.up| >= RequestSize(s.call) && Describes(f, s.call)
    ensures JobOf(f, s.up[FRAME_BYTES..RequestSize(s.call)]) == JobFor(s.call)
  {
    var c := s.call;
    StreamParts(c);
    PrefixSlice(s.up, s.stream, FRAME_BYTES, RequestSize(c));
    var parts := Stream(c)[FRAME_BYTES..RequestSize(c)];
    var n, m := |c.name|, |c.md5|;
    assert parts[..n] == Stream(c)[FRAME_BYTES..FRAME_BYTES + n];
    assert parts[n..n + m] == Stream(c)[FRAME_BYTES + n..FRAME_BYTES + n + m];
    assert parts[n + m..] == Stream(c)[FRAME_BYTES + n + m..RequestSize(c)];
  }

  /** READY as decided by the helper is READY as judged by the parent. */
  lemma ReadyRead(s: State)
    requires Core(s) && Wired(s) && |s.down| >= FRAME_BYTES
    ensures s.ready.Some?
    ensures AfterReady(s.call, s.down[..FRAME_BYTES])
            == if s.ready == Some(Ready) then Committing else Closing(Fail(TransientFailure))
  {
    PrefixSlice(s.down, s.reply, 0, FRAME_BYTES);
    assert s.down[..FRAME_BYTES] == ReadyBytes(s.call.id, s.ready.value);
    ReadyOnWire(s.call.id, s.ready.value);
  }

  /** The frame read behind the fence is the helper's answer frame. */
  lemma ResponseHeadRead(s: State)
    requires Core(s) && Wired(s) && |s.down| >= 2 * FRAME_BYTES
    ensures s.answer.Some?
    ensures var next := AfterHead(s.call, s.down[FRAME_BYTES..2 * FRAME_BYTES]);
            if |AnswerPayload(s.answer.value)| == 0
            then next.Closing? && next.after.Respond?
                 && Carries(next.after.head, s.answer.value) && next.after.body == []
            else next.AwaitingBody? && Carries(next.frame, s.answer.value)
  {
    PrefixSlice(s.down, s.reply, FRAME_BYTES, 2 * FRAME_BYTES);
    var r := s.answer.value;
    assert s.reply[FRAME_BYTES..2 * FRAME_BYTES] == Encode(AnswerFrame(s.call.id, r));
    ResponseOnWire(s.call.id, AnswerStatus(r), |AnswerPayload(r)|);
  }

  lemma ResponseBodyRead(s: State)
    requires Core(s) && Wired(s) && s.answer.Some? && |s.down| >= 2 * FRAME_BYTES + |AnswerPayload(s.answer.value)|
    ensures s.down[2 * FRAME_BYTES..2 * FRAME_BYTES + |AnswerPayload(s.answer.value)|] == AnswerPayload(s.answer.value)
  {
    var r := s.answer.value;
    PrefixSlice(s.down, s.reply, 2 * FRAME_BYTES, 2 * FRAME_BYTES + |AnswerPayload(r)|);
    assert s.reply[2 * FRAME_BYTES..2 * FRAME_BYTES + |AnswerPayload(r)|] == AnswerPayload(r);
  }

  // ---- Every step keeps Core ---------------------------------------------

  lemma KeepSendRequest(s: State, p: PrePass)
    requires Core(s) && s.parent.Sending?
    ensures Core(ParentPre(s, p))
  {
    var c, pos := s.call, |s.up|;
    match PreStep(SectionEnd(pos, |c.name|, |c.md5|, |c.payload|) - pos, p)
    case Step(k) => Appended(s.up, s.stream, k);
    case _ =>
  }

  lemma KeepSendCommit(s: State, p: PrePass)
    requires Core(s) && s.parent.Committing?
    ensures Core(ParentPre(s, p))
  {
    match PreStep(|s.stream| - |s.up|, p)
    case Step(k) => Appended(s.up, s.stream, k);
    case _ =>
  }

  lemma KeepReceiveReady(s: State, p: PrePass)
    requires Core(s) && s.parent.AwaitingReady?
    requires |s.down| >= FRAME_BYTES ==>
               AfterReady(s.call, s.down[..FRAME_BYTES])
               == if s.ready == Some(Ready) then Committing else Closing(Fail(TransientFailure))
    ensures Core(ParentPre(s, p))
  {
  }

  lemma KeepReceiveHead(s: State, p: PostPass)
    requires Core(s) && s.parent.AwaitingHead?
    requires |s.down| >= 2 * FRAME_BYTES ==>
               && s.answer.Some?
               && var next := AfterHead(s.call, s.down[FRAME_BYTES..2 * FRAME_BYTES]);
                  if |AnswerPayload(s.answer.value)| == 0
                  then next.Closing? && next.after.Respond?
                       && Carries(next.after.head, s.answer.value) && next.after.body == []
                  else next.AwaitingBody? && Carries(next.frame, s.answer.value)
    ensures Core(ParentPost(s, p))
  {
  }

  lemma KeepReceiveBody(s: State, p: PostPass)
    requires Core(s) && s.parent.AwaitingBody?
    requires |s.down| >= 2 * FRAME_BYTES + s.parent.frame.payloadBytes ==>
               s.down[2 * FRAME_BYTES..2 * FRAME_BYTES + s.parent.frame.payloadBytes] == AnswerPayload(s.answer.value)
    ensures Core(ParentPost(s, p))
  {
  }

  lemma KeepSpawn(s: State, ok: bool, cancelled: bool, expired: bool)
    requires Core(s)
    ensures Core(ParentSpawn(s, ok, cancelled, expired))
  {
  }

  lemma KeepThrow(s: State)
    requires Core(s)
    ensures Core(ParentThrow(s))
  {
  }

  lemma KeepReap(s: State)
    requires Core(s)
    ensures Core(Reap(s))
  {
  }

  lemma KeepConvert(s: State, ok: bool)
    requires Core(s)
    ensures Core(ConvertResponse(s, ok))
  {
  }

  lemma KeepReadHead(s: State, p: HelperPass)
    requires Core(s) && s.helper.ReadingHead?
    requires |s.up| >= FRAME_BYTES ==>
               var next := AfterRequestHead(s.up[..FRAME_BYTES]); next.ReadingParts? && Describes(next.frame, s.call)
    requires |s.call.name| > 0
    ensures Core(HelperTransfer(s, p))
  {
  }

  lemma KeepReadParts(s: State, p: HelperPass)
    requires Core(s) && s.helper.ReadingParts?
    requires |s.up| >= RequestSize(s.call) ==>
               JobOf(s.helper.frame, s.up[FRAME_BYTES..RequestSize(s.call)]) == JobFor(s.call)
    ensures Core(HelperTransfer(s, p))
  {
  }

  lemma KeepSendReady(s: State, p: HelperPass)
    requires Core(s) && s.helper.SendingReady?
    ensures Core(HelperTransfer(s, p))
  {
    match ExactStep(|s.reply| - |s.down|, p)
    case Step(k) => Appended(s.down, s.reply, k);
    case _ =>
  }

  lemma KeepSendAnswer(s: State, p: HelperPass)
    requires Core(s) && s.helper.SendingAnswer?
    ensures Core(HelperTransfer(s, p))
  {
    var stop := if |s.down| < 2 * FRAME_BYTES then 2 * FRAME_BYTES else |s.reply|;
    match ExactStep(stop - |s.down|, p)
    case Step(k) => Appended(s.down, s.reply, k);
    case _ =>
  }

  lemma KeepReadCommit(s: State, p: HelperPass)
    requires Core(s) && s.helper.ReadingCommit?
    ensures Core(HelperTransfer(s, p))
  {
  }

  lemma KeepReadyDecision(s: State, status: ReadyStatus, bytes: seq<Byte>)
    requires Core(s) && s.helper.Resolving? && |bytes| == FRAME_BYTES
    ensures Core(s.(helper := SendingReady(s.helper.job), ready := Some(status), reply := s.reply + bytes))
  {
  }

  lemma KeepResolve(s: State, nameOk: bool, available: bool, clientOk: bool)
    requires Core(s)
    ensures Core(ResolveService(s, nameOk, available, clientOk))
  {
    if s.helper.Resolving? {
      var status := ResolveService(s, nameOk, available, clientOk).ready.value;
      KeepReadyDecision(s, status, ReadyBytes(s.helper.job.id, status));
    }
  }

  lemma KeepAnswerDecision(s: State, r: Native, bytes: seq<Byte>)
    requires Core(s) && s.helper.Calling? && |bytes| == FRAME_BYTES + |AnswerPayload(r)|
    ensures Core(s.(helper := SendingAnswer, answer := Some(r), reply := s.reply + bytes))
  {
    assert s.down <= s.reply + bytes;
  }

  lemma KeepNativeReturn(s: State, r: Native)
    requires Core(s)
    ensures Core(NativeReturn(s, r))
  {
    if s.helper.Calling? {
      KeepAnswerDecision(s, r, AnswerBytes(s.helper.job.id, r));
    }
  }

  lemma KeepHelper(s: State, h: Helper)
    requires Core(s)
    requires (h.Exited? && Alive(s.helper)) || (s.helper.Starting? && h.ReadingHead?)
    ensures Core(s.(helper := h))
  {
  }

  lemma KeepHelperTransfer(s: State, p: HelperPass)
    requires Inv(s)
    ensures Core(HelperTransfer(s, p))
  {
    match s.helper
    case ReadingHead =>
      if |s.up| >= FRAME_BYTES { HeadRead(s); }
      KeepReadHead(s, p);
    case ReadingParts(f) =>
      if |s.up| >= RequestSize(s.call) { PartsRead(s, f); }
      KeepReadParts(s, p);
    case SendingReady(_) => KeepSendReady(s, p);
    case ReadingCommit(_) => KeepReadCommit(s, p);
    case SendingAnswer => KeepSendAnswer(s, p);
    case _ =>
  }

  lemma KeepParentPre(s: State, p: PrePass)
    requires Inv(s)
    ensures Core(ParentPre(s, p))
  {
    if s.parent.Sending? {
      KeepSendRequest(s, p);
    } else if s.parent.Committing? {
      KeepSendCommit(s, p);
    } else if s.parent.AwaitingReady? {
      if |s.down| >= FRAME_BYTES { ReadyRead(s); }
      KeepReceiveReady(s, p);
    }
  }

  lemma KeepParentPost(s: State, p: PostPass)
    requires Inv(s)
    ensures Core(ParentPost(s, p))
  {
    if s.parent.AwaitingHead? {
      if |s.down| >= 2 * FRAME_BYTES { ResponseHeadRead(s); }
      KeepReceiveHead(s, p);
    } else if s.parent.AwaitingBody? {
      if |s.down| >= 2 * FRAME_BYTES + s.parent.frame.payloadBytes { ResponseBodyRead(s); }
      KeepReceiveBody(s, p);
    }
  }

  lemma KeepByParent(s: State, e: Event)
    requires Inv(s) && (e.Spawn? || e.PrePassBy? || e.PostPassBy? || e.ParentThrows? || e.ReapStep? || e.Convert?)
    ensures Inv(Next(s, e)) && Next(s, e).call == s.call
  {
    match e
    case Spawn(ok, cancelled, expired) => KeepSpawn(s, ok, cancelled, expired);
    case PrePassBy(p) => KeepParentPre(s, p);
    case PostPassBy(p) => KeepParentPost(s, p);
    case ParentThrows => KeepThrow(s);
    case ReapStep => KeepReap(s);
    case Convert(ok) => KeepConvert(s, ok);
    assert SameWire(s, Next(s, e));
  }

  lemma WiredResolve(s: State, nameOk: bool, available: bool, clientOk: bool)
    requires Inv(s)
    ensures Wired(ResolveService(s, nameOk, available, clientOk))
  {
  }

  lemma KeepByResolve(s: State, nameOk: bool, available: bool, clientOk: bool)
    requires Inv(s)
    ensures var after := ResolveService(s, nameOk, available, clientOk);
            Inv(after) && after.call == s.call
  {
    KeepResolve(s, nameOk, available, clientOk);
    WiredResolve(s, nameOk, available, clientOk);
  }

  lemma KeepByNative(s: State, e: Event)
    requires Inv(s) && e.NativeReturns?
    ensures Inv(Next(s, e)) && Next(s, e).call == s.call
  {
    KeepNativeReturn(s, e.result);
  }

  lemma KeepByHelperPass(s: State, e: Event)
    requires Inv(s) && e.HelperPassBy?
    ensures Inv(Next(s, e)) && Next(s, e).call == s.call
  {
    KeepHelperTransfer(s, e.pass);
    assert SameWire(s, Next(s, e));
  }

  lemma KeepHelperStart(s: State, e: Event)
    requires Inv(s) && e.HelperStarts?
    ensures Inv(Next(s, e)) && Next(s, e).call == s.call
  {
    if s.helper.Starting? { KeepHelper(s, if e.ok then ReadingHead else Exited); }
    assert SameWire(s, Next(s, e));
  }

  lemma KeepHelperDeath(s: State, e: Event)
    requires Inv(s) && e.HelperDies?
    ensures Inv(Next(s, e)) && Next(s, e).call == s.call
  {
    if Alive(s.helper) { KeepHelper(s, Exited); }
    assert SameWire(s, Next(s, e));
  }

  lemma KeepNext(s: State, e: Event)
    requires Inv(s)
    ensures Inv(Next(s, e)) && Next(s, e).call == s.call
  {
    match e
    case HelperPassBy(_) => KeepByHelperPass(s, e);
    case HelperStarts(_) => KeepHelperStart(s, e);
    case HelperDies => KeepHelperDeath(s, e);
    case Resolve(nameOk, available, clientOk) => KeepByResolve(s, nameOk, available, clientOk);
    case NativeReturns(_) => KeepByNative(s, e);
    case _ => KeepByParent(s, e);
  }

  lemma {:induction false} KeepRun(s: State, es: seq<Event>)
    requires Inv(s)
    ensures Inv(Run(s, es)) && Run(s, es).call == s.call
  {
    if es != [] {
      KeepRun(s, es[..|es| - 1]);
      KeepNext(Run(s, es[..|es| - 1]), es[|es| - 1]);
    }
  }

  lemma InitialInv(c: Call)
    requires Accepted(c)
    ensures Inv(Initial(c))
  {
  }

  lemma ReachableInv(c: Call, es: seq<Event>)
    requires Accepted(c)
    ensures Inv(Run(Initial(c), es)) && Run(Initial(c), es).call == c
  {
    InitialInv(c);
    KeepRun(Initial(c), es);
  }

  predicate Over(s: State) {
    s.parent.Returned? && (s.helper.Reaped? || s.helper.NotStarted?)
  }

  lemma OverStep(s: State, e: Event)
    requires Sane(s) && Over(s)
    ensures Over(Next(s, e)) && Next(s, e).parent == s.parent && Next(s, e).up == s.up
  {
  }

  lemma {:induction false} OverStays(s: State, es: seq<Event>)
    requires Sane(s) && Over(s)
    ensures Over(Run(s, es)) && Run(s, es).parent == s.parent && Run(s, es).up == s.up
  {
    if es != [] {
      OverStays(s, es[..|es| - 1]);
      OverStep(Run(s, es[..|es| - 1]), es[|es| - 1]);
    }
  }

  /** What the invariant says about the native call and about the end. */
  lemma InvSummary(s: State)
    requires Inv(s)
    ensures s.native == [] || (s.native == [JobFor(s.call)] && s.up == s.stream == Stream(s.call))
    ensures s.parent.Returned? ==>
              && Over(s)
              && (MayHaveRun(s.parent.outcome) <==> s.up == Stream(s.call))
              && (s.parent.outcome.Success? ==>
                    s.native == [JobFor(s.call)] && s.answer == Some(Answered(s.parent.outcome.response)))
  {
  }

  // ---- Main results ------------------------------------------------------

  /** The commit fence. In every run the native call is entered at most once,
      with exactly the service, digest and payload of the request, and only
      after the socket accepted every byte of the request and of the commit
      frame. */
  lemma CommitFence(c: Call, es: seq<Event>)
    requires Accepted(c)
    ensures var s := Run(Initial(c), es);
            s.native == [] || (s.native == [JobFor(c)] && s.up == Stream(c))
  {
    ReachableInv(c, es);
    InvSummary(Run(Initial(c), es));
  }

  /** A failure other than `uncertain` is safe to retry: the native call has not
      been entered and never will be, whatever the helper and the environment
      still do. */
  lemma SafeFailureNeverRuns(c: Call, es: seq<Event>, later: seq<Event>)
    requires Accepted(c)
    requires var p := Run(Initial(c), es).parent; p.Returned? && !MayHaveRun(p.outcome)
    ensures Run(Run(Initial(c), es), later).native == []
  {
    ReachableInv(c, es);
    var s := Run(Initial(c), es);
    KeepRun(s, later);
    InvSummary(s);
    OverStays(s, later);
    InvSummary(Run(s, later));
  }

  /** The outcome tells the position of the fence exactly, in both directions;
      success is one native call whose answer is handed over byte for byte; and
      the helper has been reaped. */
  lemma OutcomeTellsFence(c: Call, es: seq<Event>)
    requires Accepted(c) && Run(Initial(c), es).parent.Returned?
    ensures var s := Run(Initial(c), es);
            var o := s.parent.outcome;
            && (MayHaveRun(o) <==> s.up == Stream(c))
            && (o.Success? ==> s.native == [JobFor(c)] && s.answer == Some(Answered(o.response)))
            && !Alive(s.helper) && !s.helper.Exited?
  {
    ReachableInv(c, es);
    InvSummary(Run(Initial(c), es));
  }

  lemma CoreSummary(s: State)
    requires Core(s)
    ensures s.helper.Resolving? || s.helper.SendingReady? || s.helper.ReadingCommit? || s.helper.Calling?
            ==> s.helper.job == JobFor(s.call)
    ensures s.parent.Committing? ==> s.ready == Some(Ready)
    ensures s.parent.Converting? ==>
              && s.answer.Some? && s.parent.after.Respond?
              && s.parent.after.head.status == AnswerStatus(s.answer.value).Code()
              && s.parent.after.body == AnswerPayload(s.answer.value)
  {
  }

  /** Framing. However the transfers are cut up, what the helper hands to roscpp
      is the request, and what the parent accepts is the helper's answer. */
  lemma FramesArriveIntact(c: Call, es: seq<Event>)
    requires Accepted(c)
    ensures var s := Run(Initial(c), es);
            && (s.helper.Resolving? || s.helper.SendingReady? || s.helper.ReadingCommit? || s.helper.Calling?
                ==> s.helper.job == JobFor(c))
            && (s.parent.Committing? ==> s.ready == Some(Ready))
            && (s.parent.Converting? ==>
                  && s.answer.Some? && s.parent.after.Respond?
                  && s.parent.after.head.status == AnswerStatus(s.answer.value).Code()
                  && s.parent.after.body == AnswerPayload(s.answer.value))
  {
    ReachableInv(c, es);
    CoreSummary(Run(Initial(c), es));
  }
}
