/** The other half of the fence: a call can succeed, and an `uncertain` outcome
    really leaves both possibilities open. */
module ServiceProgress {
  import opened Basics
  import opened HelperProtocol
  import opened SocketIo
  import opened ServiceCall
  import opened ServiceFence

  const PRE: PrePass := PrePass(false, false, Moved(1), [])
  const POST: PostPass := PostPass(false, false, false, Moved(1), PollReady)
  const PASS: HelperPass := HelperPass(Moved(1), true)

  /** The next event when nothing goes wrong: one byte or one decision. */
  function Good(s: State, response: seq<Byte>): Event {
    match s.parent
    case Spawning => Spawn(true, false, false)
    case Sending => PrePassBy(PRE)
    case AwaitingReady =>
      (match s.helper
       case Starting => HelperStarts(true)
       case Resolving(_) => Resolve(true, true, true)
       case ReadingCommit(_) => PrePassBy(PRE)
       case _ => HelperPassBy(PASS))
    case Committing => PrePassBy(PRE)
    case AwaitingHead =>
      (match s.helper
       case Calling(_) => NativeReturns(Answered(response))
       case Exited => PostPassBy(POST)
       case _ => HelperPassBy(PASS))
    case AwaitingBody(_) => PostPassBy(POST)
    case Converting(_) => Convert(true)
    case _ => ReapStep
  }

  /** Nothing has gone wrong so far. */
  predicate OnTrack(s: State, response: seq<Byte>) {
    Wired(s) && Steady(s, response)
  }

  predicate Steady(s: State, response: seq<Byte>) {
    && Core(s) && |response| <= MAX_PAYLOAD_BYTES
    && (s.ready.Some? ==> s.ready.value == Ready)
    && (s.answer.Some? ==> s.answer.value == Answered(response))
    && Together(s, response)
  }

  predicate Together(s: State, response: seq<Byte>) {
    match s.parent
    case Spawning => s.helper.NotStarted?
    case Sending => s.helper.Starting?
    case AwaitingReady =>
      || s.helper.Starting? || s.helper.ReadingHead? || s.helper.ReadingParts? || s.helper.Resolving?
      || s.helper.SendingReady? || s.helper.ReadingCommit?
    case Committing => s.helper.ReadingCommit?
    case AwaitingHead => s.helper.ReadingCommit? || s.helper.Calling? || s.helper.SendingAnswer? || Spoken(s)
    case AwaitingBody(_) => Spoken(s)
    case Closing(a) => a.Respond? && s.helper.Exited?
    case Killing(a) => a.Respond? && s.helper.Exited?
    case Reaping(a) => a.Respond? && s.helper.Exited?
    case Converting(_) => true
    case Returned(o) => o == Success(response)
  }

  /** The helper has said everything. */
  predicate Spoken(s: State) {
    s.helper.Exited? && s.answer.Some? && |s.down| == |s.reply|
  }

  function ParentPhase(p: Parent): nat {
    match p
    case Spawning => 10
    case Sending => 9
    case AwaitingReady => 8
    case Committing => 7
    case AwaitingHead => 6
    case AwaitingBody(_) => 5
    case Closing(_) => 4
    case Killing(_) => 3
    case Reaping(_) => 2
    case Converting(_) => 1
    case Returned(_) => 0
  }

  function HelperPhase(h: Helper): nat {
    match h
    case NotStarted => 10
    case Starting => 9
    case ReadingHead => 8
    case ReadingParts(_) => 7
    case Resolving(_) => 6
    case SendingReady(_) => 5
    case ReadingCommit(_) => 4
    case Calling(_) => 3
    case SendingAnswer => 2
    case Exited => 1
    case Reaped => 0
  }

  /** Bytes still to move and phases still to pass. */
  function Left(s: State, response: seq<Byte>): int {
    2 * |s.stream| - |s.up| - s.upRead + 2 * (2 * FRAME_BYTES + |response|) - |s.down| - s.downRead
    + ParentPhase(s.parent) + HelperPhase(s.helper)
  }

  lemma LeftIsNatural(s: State, response: seq<Byte>)
    requires Steady(s, response)
    ensures Left(s, response) >= 0
  {
  }

  predicate Advances(s: State, n: State, response: seq<Byte>) {
    && (n.ready.Some? ==> n.ready.value == Ready)
    && (n.answer.Some? ==> n.answer.value == Answered(response))
    && Together(n, response) && Left(n, response) < Left(s, response)
    && (Before(s.helper) ==> Before(n.helper) || (n.helper.Calling? && s.parent.AwaitingHead?))
  }

  /** The helper has not entered the native call. */
  predicate Before(h: Helper) {
    !h.Calling? && !h.SendingAnswer? && !h.Exited? && !h.Reaped?
  }

  lemma ParentAdvances(s: State, response: seq<Byte>)
    requires Steady(s, response) && (s.parent.Spawning? || s.parent.Sending? || s.parent.Committing?)
    ensures Advances(s, Next(s, Good(s, response)), response)
  {
  }

  lemma HeadTaken(s: State, response: seq<Byte>)
    requires Steady(s, response) && s.parent.AwaitingReady? && s.helper.ReadingHead?
    requires AfterRequestHead(s.up[..FRAME_BYTES]).ReadingParts?
    ensures Advances(s, Next(s, Good(s, response)), response)
  {
  }

  lemma PartsTaken(s: State, response: seq<Byte>)
    requires Steady(s, response) && s.parent.AwaitingReady? && s.helper.ReadingParts?
    ensures Advances(s, Next(s, Good(s, response)), response)
  {
  }

  lemma HelperStartsUp(s: State, response: seq<Byte>)
    requires Steady(s, response) && s.parent.AwaitingReady? && s.helper.Starting?
    ensures Advances(s, Next(s, Good(s, response)), response)
  {
  }

  lemma ServiceIsThere(s: State, response: seq<Byte>)
    requires Steady(s, response) && s.parent.AwaitingReady? && s.helper.Resolving? && ValidMd5(s.call.md5)
    ensures Advances(s, Next(s, Good(s, response)), response)
  {
  }

  lemma ReadyGoesOut(s: State, response: seq<Byte>)
    requires Steady(s, response) && s.parent.AwaitingReady? && s.helper.SendingReady?
    ensures Advances(s, Next(s, Good(s, response)), response)
  {
  }

  lemma ReadyArrives(s: State, response: seq<Byte>)
    requires Steady(s, response) && s.parent.AwaitingReady? && s.helper.ReadingCommit?
    requires AfterReady(s.call, s.down[..FRAME_BYTES]) == Committing
    ensures Advances(s, Next(s, Good(s, response)), response)
  {
  }

  lemma CommitSection(c: Call, up: seq<Byte>)
    requires up == Stream(c)
    ensures up[RequestSize(c)..|up|] == Encode(MakeCommit(c.id))
  {
  }

  /** The commit frame the parent built is the one the helper accepts. */
  lemma CommitRead(s: State)
    requires Wired(s) && s.up <= s.stream && |s.up| == |s.stream|
    ensures ValidCommit(Decode(s.up[RequestSize(s.call)..|s.stream|]), s.call.id)
  {
    assert s.up == s.stream;
    CommitSection(s.call, s.up);
    CommitOnWire(s.call.id);
  }

  lemma CommitTaken(s: State, response: seq<Byte>)
    requires Steady(s, response) && s.parent.AwaitingHead? && s.helper.ReadingCommit?
    requires ValidCommit(Decode(s.up[RequestSize(s.call)..|s.stream|]), s.call.id)
    ensures Advances(s, Next(s, Good(s, response)), response)
  {
  }

  lemma ServiceAnswers(s: State, response: seq<Byte>)
    requires Steady(s, response) && s.parent.AwaitingHead? && s.helper.Calling?
    ensures Advances(s, Next(s, Good(s, response)), response)
  {
  }

  lemma AnswerGoesOut(s: State, response: seq<Byte>)
    requires Steady(s, response) && s.parent.AwaitingHead? && s.helper.SendingAnswer?
    ensures Advances(s, Next(s, Good(s, response)), response)
  {
  }

  predicate Continues(p: Parent) {
    p.AwaitingBody? || (p.Closing? && p.after.Respond?)
  }

  lemma AnswerArrives(s: State, response: seq<Byte>)
    requires Steady(s, response) && s.parent.AwaitingHead? && s.helper.Exited?
    requires Continues(AfterHead(s.call, s.down[FRAME_BYTES..2 * FRAME_BYTES]))
    ensures Advances(s, Next(s, Good(s, response)), response)
  {
  }

  lemma BodyArrives(s: State, response: seq<Byte>)
    requires Steady(s, response) && s.parent.AwaitingBody?
    ensures Advances(s, Next(s, Good(s, response)), response)
  {
  }

  lemma CallEnds(s: State, response: seq<Byte>)
    requires Steady(s, response)
    requires s.parent.Closing? || s.parent.Killing? || s.parent.Reaping? || s.parent.Converting?
    ensures Advances(s, Next(s, Good(s, response)), response)
  {
  }

  lemma HelperSide(s: State, response: seq<Byte>)
    requires OnTrack(s, response) && s.parent.AwaitingReady?
    ensures Advances(s, Next(s, Good(s, response)), response)
  {
    match s.helper
    case Starting => HelperStartsUp(s, response);
    case ReadingHead =>
      HeadRead(s);
      HeadTaken(s, response);
    case ReadingParts(_) => PartsTaken(s, response);
    case Resolving(_) => ServiceIsThere(s, response);
    case SendingReady(_) => ReadyGoesOut(s, response);
    case ReadingCommit(_) =>
      ReadyRead(s);
      ReadyArrives(s, response);
  }

  lemma BehindFence(s: State, response: seq<Byte>)
    requires OnTrack(s, response) && s.parent.AwaitingHead?
    ensures Advances(s, Next(s, Good(s, response)), response)
  {
    match s.helper
    case ReadingCommit(_) =>
      CommitRead(s);
      CommitTaken(s, response);
    case Calling(_) => ServiceAnswers(s, response);
    case SendingAnswer => AnswerGoesOut(s, response);
    case Exited =>
      ResponseHeadRead(s);
      AnswerArrives(s, response);
  }

  lemma OneGoodStep(s: State, response: seq<Byte>)
    requires OnTrack(s, response) && !s.parent.Returned?
    ensures OnTrack(Next(s, Good(s, response)), response) && Advances(s, Next(s, Good(s, response)), response)
  {
    KeepNext(s, Good(s, response));
    match s.parent
    case Spawning => ParentAdvances(s, response);
    case Sending => ParentAdvances(s, response);
    case AwaitingReady => HelperSide(s, response);
    case Committing => ParentAdvances(s, response);
    case AwaitingHead => BehindFence(s, response);
    case AwaitingBody(_) => BodyArrives(s, response);
    case _ => CallEnds(s, response);
  }

  lemma {:induction false} RunFrom(s: State, e: Event, es: seq<Event>)
    requires Sane(s)
    ensures Run(s, [e] + es) == Run(Next(s, e), es)
  {
    var all := [e] + es;
    if es == [] {
      assert all == [e] && all[..0] == [];
      assert Run(s, all[..0]) == s;
    } else {
      RunFrom(s, e, es[..|es| - 1]);
      assert all[..|all| - 1] == [e] + es[..|es| - 1];
    }
  }

  lemma {:induction false} Completes(s: State, response: seq<Byte>) returns (es: seq<Event>)
    requires OnTrack(s, response)
    ensures Run(s, es).parent == Returned(Success(response))
    decreases if OnTrack(s, response) then Left(s, response) else 0
  {
    if s.parent.Returned? {
      es := [];
    } else {
      var e := Good(s, response);
      OneGoodStep(s, response);
      LeftIsNatural(Next(s, e), response);
      var rest := Completes(Next(s, e), response);
      RunFrom(s, e, rest);
      es := [e] + rest;
    }
  }

  /** Every accepted call can succeed, with any answer that fits. */
  lemma CanSucceed(c: Call, response: seq<Byte>) returns (es: seq<Event>)
    requires Accepted(c) && |response| <= MAX_PAYLOAD_BYTES
    ensures Run(Initial(c), es).parent == Returned(Success(response))
  {
    InitialInv(c);
    es := Completes(Initial(c), response);
  }

  // ---- Uncertainty -------------------------------------------------------

  /** The two places where the parent may give up with the commit sent. */
  predicate AtFence(s: State, called: bool) {
    s.parent.AwaitingHead? && if called then s.helper.Calling? else s.helper.ReadingCommit?
  }

  lemma Meets(s: State)
    requires Steady(s, [])
    ensures s.helper.Calling? ==> AtFence(s, true)
    ensures Before(s.helper) && s.parent.AwaitingHead? ==> AtFence(s, false)
    ensures Before(s.helper) ==> !s.parent.Returned?
  {
  }

  lemma {:induction false} ReachesFence(s: State, called: bool) returns (es: seq<Event>)
    requires OnTrack(s, []) && Before(s.helper)
    ensures AtFence(Run(s, es), called)
    decreases if OnTrack(s, []) then Left(s, []) else 0
  {
    Meets(s);
    if AtFence(s, called) {
      es := [];
    } else {
      var e := Good(s, []);
      OneGoodStep(s, []);
      var n := Next(s, e);
      LeftIsNatural(n, []);
      Meets(n);
      if n.helper.Calling? {
        RunFrom(s, e, []);
        es := [e] + [];
      } else {
        var rest := ReachesFence(n, called);
        RunFrom(s, e, rest);
        es := [e] + rest;
      }
    }
  }

  lemma Reaps(s: State)
    requires Sane(s) && s.parent == Closing(Fail(UncertainFailure)) && s.helper.Exited?
    ensures Run(s, [ReapStep, ReapStep, ReapStep]).parent == Returned(UncertainFailure)
    ensures Run(s, [ReapStep, ReapStep, ReapStep]).native == s.native
  {
    var a := Next(s, ReapStep);
    var b := Next(a, ReapStep);
    RunFrom(s, ReapStep, [ReapStep, ReapStep]);
    RunFrom(a, ReapStep, [ReapStep]);
    RunFrom(b, ReapStep, []);
    assert [ReapStep] + [ReapStep, ReapStep] == [ReapStep, ReapStep, ReapStep];
    assert [ReapStep] + [ReapStep] == [ReapStep, ReapStep];
    assert [ReapStep] + [] == [ReapStep];
  }

  /** The parent gives up and reaps the helper. */
  lemma GivesUp(s: State) returns (es: seq<Event>)
    requires Sane(s) && s.parent.AwaitingHead? && Alive(s.helper)
    ensures Run(s, es).parent == Returned(UncertainFailure) && Run(s, es).native == s.native
  {
    var reaping := [ReapStep, ReapStep, ReapStep];
    var a := Next(s, ParentThrows);
    Reaps(Next(a, HelperDies));
    RunFrom(a, HelperDies, reaping);
    RunFrom(s, ParentThrows, [HelperDies] + reaping);
    es := [ParentThrows] + ([HelperDies] + reaping);
  }

  lemma {:induction false} RunConcat(s: State, a: seq<Event>, b: seq<Event>)
    requires Sane(s)
    ensures Run(s, a + b) == Run(Run(s, a), b)
  {
    if b == [] {
      assert a + b == a;
    } else {
      RunConcat(s, a, b[..|b| - 1]);
      assert (a + b)[..|a + b| - 1] == a + b[..|b| - 1];
    }
  }

  lemma NativeAtFence(c: Call, es: seq<Event>, called: bool)
    requires Accepted(c) && AtFence(Run(Initial(c), es), called)
    ensures Run(Initial(c), es).native == if called then [JobFor(c)] else []
  {
    ReachableInv(c, es);
  }

  /** `uncertain` cannot be sharpened: for every call there is a run that ends so
      without the native call, and one that ends so with it. */
  lemma UncertainEitherWay(c: Call, called: bool) returns (es: seq<Event>)
    requires Accepted(c)
    ensures var s := Run(Initial(c), es);
            s.parent == Returned(UncertainFailure) && s.native == if called then [JobFor(c)] else []
  {
    InitialInv(c);
    var a := ReachesFence(Initial(c), called);
    NativeAtFence(c, a, called);
    var b := GivesUp(Run(Initial(c), a));
    RunConcat(Initial(c), a, b);
    es := a + b;
  }
}
