/** The byte loops on both ends of the helper socket. What the kernel, the
    cancellation token and the clocks answer is a script: one entry per pass of
    the loop. A script that ends early leaves the loop still running. */
module SocketIo {
  import opened Basics
  import opened HelperProtocol

  /** Result of one send or recv: Moved(0) is an orderly close, Broken any
      other error number. */
  datatype Transfer = Moved(n: nat) | Interrupted | WouldBlock | Broken

  datatype Poll = PollInterrupted | PollFailed | PollTimeout | PollReady | PollHangup | PollOther

  datatype WaitPass = WaitPass(cancelled: bool, expired: bool, poll: Poll)

  datatype PreResult = Complete | Cancelled | DeadlineElapsed | TransportError

  datatype PrePass = PrePass(cancelled: bool, expired: bool, transfer: Transfer, waits: seq<WaitPass>)

  datatype PostResult = PostComplete | PostCancelled | RuntimeDeadline | CallTimeout | PostTransportError

  datatype PostPass = PostPass(cancelled: bool, expired: bool, timedOut: bool, transfer: Transfer, poll: Poll)

  datatype Verdict<R> = Running | Ended(result: R)

  /** What one pass of a loop does: move k bytes and go on, or end the loop. */
  datatype Pass<R> = Step(k: nat) | Stuck | Stop(result: R)

  function Min(a: nat, b: nat): nat {
    if a < b then a else b
  }

  // ---- Waiting for the socket before the fence ---------------------------

  function WaitVerdict(waits: seq<WaitPass>): Verdict<PreResult> {
    if waits == [] then Running
    else if waits[0].cancelled then Ended(Cancelled)
    else if waits[0].expired then Ended(DeadlineElapsed)
    else match waits[0].poll
      case PollFailed => Ended(TransportError)
      case PollReady => Ended(Complete)
      case PollHangup => Ended(TransportError)
      case _ => WaitVerdict(waits[1..])
  }

  /** A pass that ends the wait. */
  predicate Decides(w: WaitPass) {
    w.cancelled || w.expired || w.poll.PollFailed? || w.poll.PollReady? || w.poll.PollHangup?
  }

  /** What it ends with: the token goes before the deadline, both before poll. */
  function Decision(w: WaitPass): PreResult
    requires Decides(w)
  {
    if w.cancelled then Cancelled
    else if w.expired then DeadlineElapsed
    else if w.poll.PollReady? then Complete
    else TransportError
  }

  /** The verdict is that of the first deciding pass, and there is none exactly
      when no pass decides. */
  lemma {:induction false} FirstDecides(waits: seq<WaitPass>, i: nat)
    requires i < |waits| && Decides(waits[i]) && forall k | 0 <= k < i :: !Decides(waits[k])
    ensures WaitVerdict(waits) == Ended(Decision(waits[i]))
  {
    if i > 0 {
      assert !Decides(waits[0]);
      FirstDecides(waits[1..], i - 1);
    }
  }

  lemma {:induction false} NoneDecides(waits: seq<WaitPass>)
    requires forall k | 0 <= k < |waits| :: !Decides(waits[k])
    ensures WaitVerdict(waits) == Running
  {
    if waits != [] {
      assert !Decides(waits[0]);
      NoneDecides(waits[1..]);
    }
  }

  /** Returns at the first pass that decides, with its decision. */
  method WaitPreCommitEvent(waits: seq<WaitPass>) returns (verdict: Verdict<PreResult>, at: nat)
    ensures verdict == WaitVerdict(waits)
    ensures at <= |waits| && forall k | 0 <= k < at :: !Decides(waits[k])
    ensures if at < |waits| then Decides(waits[at]) && verdict == Ended(Decision(waits[at])) else verdict == Running
  {
    at := 0;
    while at < |waits|
      invariant 0 <= at <= |waits|
      invariant forall k | 0 <= k < at :: !Decides(waits[k])
    {
      var w := waits[at];
      if Decides(w) {
        FirstDecides(waits, at);
      }
      if w.cancelled {
        return Ended(Cancelled), at;
      }
      if w.expired {
        return Ended(DeadlineElapsed), at;
      }
      match w.poll
      case PollFailed => return Ended(TransportError), at;
      case PollReady => return Ended(Complete), at;
      case PollHangup => return Ended(TransportError), at;
      case _ => at := at + 1;
    }
    NoneDecides(waits);
    return Running, at;
  }

  // ---- writePreCommit and readPreCommit ----------------------------------

  function PreStep(size: nat, p: PrePass): (pass: Pass<PreResult>)
    requires size > 0
    ensures pass.Step? ==> pass.k <= size
    ensures pass.Stop? ==> pass.result != Complete
  {
    if p.cancelled then Stop(Cancelled)
    else if p.expired then Stop(DeadlineElapsed)
    else match p.transfer
      case Moved(n) => if n == 0 then Stop(TransportError) else Step(Min(n, size))
      case Interrupted => Step(0)
      case Broken => Stop(TransportError)
      case WouldBlock =>
        match WaitVerdict(p.waits)
        case Running => Stuck
        case Ended(Complete) => Step(0)
        case Ended(r) => Stop(r)
  }

  /** Bytes moved and verdict of a whole loop over `size` bytes. */
  function PreLoop(script: seq<PrePass>, size: nat): (r: (nat, Verdict<PreResult>))
    ensures r.0 <= size
    ensures r.1 == Ended(Complete) <==> r.0 == size
  {
    if size == 0 then (0, Ended(Complete))
    else if script == [] then (0, Running)
    else match PreStep(size, script[0])
      case Step(k) => var rest := PreLoop(script[1..], size - k); (k + rest.0, rest.1)
      case Stuck => (0, Running)
      case Stop(result) => (0, Ended(result))
  }

  /** The loop after `i` passes that moved so many bytes. */
  predicate PreAfter(script: seq<PrePass>, i: nat, moved: nat, size: nat) {
    && i <= |script| && moved <= size
    && PreLoop(script, size) == (moved + PreLoop(script[i..], size - moved).0, PreLoop(script[i..], size - moved).1)
  }

  lemma PreNext(script: seq<PrePass>, i: nat, moved: nat, size: nat)
    requires PreAfter(script, i, moved, size) && i < |script| && moved < size
    ensures match PreStep(size - moved, script[i])
            case Step(k) => PreAfter(script, i + 1, moved + k, size)
            case Stuck => PreLoop(script, size) == (moved, Running)
            case Stop(r) => PreLoop(script, size) == (moved, Ended(r))
  {
    assert script[i..][1..] == script[i + 1..];
  }

  /** One pass of either loop: the gates, the transfer, and the wait if it would block. */
  method PassPreCommit(p: PrePass, left: nat) returns (pass: Pass<PreResult>)
    requires left > 0
    ensures pass == PreStep(left, p)
  {
    if p.cancelled {
      return Stop(Cancelled);
    }
    if p.expired {
      return Stop(DeadlineElapsed);
    }
    if p.transfer.Moved? && p.transfer.n > 0 {
      return Step(Min(p.transfer.n, left));
    }
    if p.transfer.Moved? || p.transfer.Broken? {
      return Stop(TransportError);
    }
    if p.transfer.WouldBlock? {
      var waited, at := WaitPreCommitEvent(p.waits);
      if waited.Running? {
        return Stuck;
      }
      if waited != Ended(Complete) {
        return Stop(waited.result);
      }
    }
    return Step(0);
  }

  /** The loop reports completion exactly when the socket accepted every byte;
      any other verdict leaves at least one byte of `input` unsent. */
  method WritePreCommit(input: seq<Byte>, script: seq<PrePass>)
    returns (accepted: seq<Byte>, verdict: Verdict<PreResult>)
    ensures accepted <= input
    ensures (|accepted|, verdict) == PreLoop(script, |input|)
    ensures verdict == Ended(Complete) <==> accepted == input
  {
    var i, cursor := 0, 0;
    while cursor < |input| && i < |script|
      invariant PreAfter(script, i, cursor, |input|)
    {
      var pass := PassPreCommit(script[i], |input| - cursor);
      PreNext(script, i, cursor, |input|);
      match pass
      case Step(k) => i, cursor := i + 1, cursor + k;
      case Stuck => return input[..cursor], Running;
      case Stop(r) => return input[..cursor], Ended(r);
    }
    return input[..cursor], if cursor == |input| then Ended(Complete) else Running;
  }

  /** The receiving twin: what lands in the buffer is the front of the stream,
      and completion means exactly `size` bytes of it. */
  method ReadPreCommit(incoming: seq<Byte>, size: nat, script: seq<PrePass>)
    returns (buffer: seq<Byte>, verdict: Verdict<PreResult>)
    requires size <= |incoming|
    ensures buffer <= incoming && |buffer| <= size
    ensures (|buffer|, verdict) == PreLoop(script, size)
    ensures verdict == Ended(Complete) <==> buffer == incoming[..size]
  {
    var i := 0;
    buffer := [];
    while |buffer| < size && i < |script|
      invariant PreAfter(script, i, |buffer|, size) && buffer <= incoming
    {
      var pass := PassPreCommit(script[i], size - |buffer|);
      PreNext(script, i, |buffer|, size);
      match pass
      case Step(k) => i, buffer := i + 1, buffer + incoming[|buffer|..|buffer| + k];
      case Stuck => return buffer, Running;
      case Stop(r) => return buffer, Ended(r);
    }
    return buffer, if |buffer| == size then Ended(Complete) else Running;
  }

  // ---- readPostCommit ----------------------------------------------------

  function PostGate(p: PostPass): Verdict<PostResult> {
    if p.cancelled then Ended(PostCancelled)
    else if p.expired then Ended(RuntimeDeadline)
    else if p.timedOut then Ended(CallTimeout)
    else Running
  }

  function PostStep(size: nat, p: PostPass): (pass: Pass<PostResult>)
    requires size > 0
    ensures pass.Step? ==> pass.k <= size
    ensures pass.Stop? ==> pass.result != PostComplete
  {
    if PostGate(p).Ended? then Stop(PostGate(p).result)
    else match p.transfer
      case Moved(n) => if n == 0 then Stop(PostTransportError) else Step(Min(n, size))
      case Interrupted => Step(0)
      case Broken => Stop(PostTransportError)
      case WouldBlock =>
        if p.poll.PollFailed? || p.poll.PollHangup? then Stop(PostTransportError) else Step(0)
  }

  /** After the last byte the loop looks once more at the token and the clocks,
      so a complete read can still end in cancellation or timeout. */
  function PostLoop(script: seq<PostPass>, size: nat): (r: (nat, Verdict<PostResult>))
    ensures r.0 <= size
    ensures r.1 == Ended(PostComplete) ==> r.0 == size
  {
    if script == [] then (0, Running)
    else if size == 0 then
      (0, if PostGate(script[0]).Ended? then PostGate(script[0]) else Ended(PostComplete))
    else match PostStep(size, script[0])
      case Step(k) => var rest := PostLoop(script[1..], size - k); (k + rest.0, rest.1)
      case Stuck => (0, Running)
      case Stop(result) => (0, Ended(result))
  }

  method ReadPostCommit(incoming: seq<Byte>, size: nat, script: seq<PostPass>)
    returns (buffer: seq<Byte>, verdict: Verdict<PostResult>)
    requires size <= |incoming|
    ensures buffer <= incoming && |buffer| <= size
    ensures (|buffer|, verdict) == PostLoop(script, size)
    ensures verdict == Ended(PostComplete) ==> buffer == incoming[..size]
  {
    var i, cursor := 0, 0;
    while cursor < size && i < |script|
      invariant 0 <= i <= |script| && 0 <= cursor <= size
      invariant PostLoop(script, size)
                == (cursor + PostLoop(script[i..], size - cursor).0, PostLoop(script[i..], size - cursor).1)
    {
      var p := script[i];
      if p.cancelled {
        return incoming[..cursor], Ended(PostCancelled);
      }
      if p.expired {
        return incoming[..cursor], Ended(RuntimeDeadline);
      }
      if p.timedOut {
        return incoming[..cursor], Ended(CallTimeout);
      }
      assert script[i..][1..] == script[i + 1..];
      if p.transfer.Moved? && p.transfer.n > 0 {
        cursor := cursor + Min(p.transfer.n, size - cursor);
      } else if p.transfer.Moved? || p.transfer.Broken? {
        return incoming[..cursor], Ended(PostTransportError);
      } else if p.transfer.WouldBlock? && (p.poll.PollFailed? || p.poll.PollHangup?) {
        return incoming[..cursor], Ended(PostTransportError);
      }
      i := i + 1;
    }
    if i == |script| {
      return incoming[..cursor], Running;
    }
    if script[i].cancelled {
      return incoming[..cursor], Ended(PostCancelled);
    }
    if script[i].expired {
      return incoming[..cursor], Ended(RuntimeDeadline);
    }
    if script[i].timedOut {
      return incoming[..cursor], Ended(CallTimeout);
    }
    return incoming[..cursor], Ended(PostComplete);
  }

  // ---- readExact and writeExact in the helper ----------------------------

  /** One pass in the helper: no token and no clock; `pollOk` is what the
      blocking poll answered after EAGAIN. */
  datatype HelperPass = HelperPass(transfer: Transfer, pollOk: bool)

  function ExactStep(size: nat, p: HelperPass): (pass: Pass<bool>)
    requires size > 0
    ensures pass.Step? ==> pass.k <= size
    ensures pass.Stop? ==> !pass.result
  {
    match p.transfer
    case Moved(n) => if n == 0 then Stop(false) else Step(Min(n, size))
    case Interrupted => Step(0)
    case Broken => Stop(false)
    case WouldBlock => if p.pollOk then Step(0) else Stop(false)
  }

  function ExactLoop(script: seq<HelperPass>, size: nat): (r: (nat, Verdict<bool>))
    ensures r.0 <= size
    ensures r.1 == Ended(true) <==> r.0 == size
  {
    if size == 0 then (0, Ended(true))
    else if script == [] then (0, Running)
    else match ExactStep(size, script[0])
      case Step(k) => var rest := ExactLoop(script[1..], size - k); (k + rest.0, rest.1)
      case Stuck => (0, Running)
      case Stop(result) => (0, Ended(result))
  }

  method TransferExact(stream: seq<Byte>, size: nat, script: seq<HelperPass>)
    returns (moved: seq<Byte>, verdict: Verdict<bool>)
    requires size <= |stream|
    ensures moved <= stream && |moved| <= size
    ensures (|moved|, verdict) == ExactLoop(script, size)
    ensures verdict == Ended(true) <==> moved == stream[..size]
  {
    var i, cursor := 0, 0;
    while cursor < size && i < |script|
      invariant 0 <= i <= |script| && 0 <= cursor <= size
      invariant ExactLoop(script, size)
                == (cursor + ExactLoop(script[i..], size - cursor).0, ExactLoop(script[i..], size - cursor).1)
    {
      var p := script[i];
      assert script[i..][1..] == script[i + 1..];
      if p.transfer.Moved? && p.transfer.n > 0 {
        cursor := cursor + Min(p.transfer.n, size - cursor);
      } else if p.transfer.Moved? || p.transfer.Broken? {
        return stream[..cursor], Ended(false);
      } else if p.transfer.WouldBlock? && !p.pollOk {
        return stream[..cursor], Ended(false);
      }
      i := i + 1;
    }
    return stream[..cursor], if cursor == size then Ended(true) else Running;
  }
}
