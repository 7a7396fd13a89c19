/** One publish operation from request to result, while other threads work on the
    same registry: where it may stop, what its error class then says about
    native publishes, and when each message is dispatched. The token, the clocks
    and ROS answer from scripts; a script that ends leaves the call running. */
module PublishCall {
  import opened Basics
  import opened PublisherRegistry

  const MAX_COUNT: nat := 10000
  const MAX_QUEUE: nat := 10000
  const MAX_WAIT_MS: nat := 300_000
  const MAX_SECONDS: nat := 240
  const NANOS: nat := 1_000_000_000

  datatype Outcome = Running | Success(count: nat) | Failure(errorClass: ErrorClass)

  // ---- Other threads -----------------------------------------------------

  /** A critical section some other thread runs in the meantime. */
  datatype Op =
    | OpAcquire(call: nat, topic: string, config: Config, advertised: bool)
    | OpRelease(call: nat, dispatched: bool)
    | OpClear
    | OpRefresh(current: Result<int, ErrorClass>)
    | OpProbe(current: Result<int, ErrorClass>)

  method Perform(reg: Registry, me: nat, op: Op)
    requires reg.Valid()
    modifies reg, reg.known
    ensures reg.Valid()
    ensures old(reg.known) <= reg.known && fresh(reg.known - old(reg.known))
    ensures me in reg.leases <==> me in old(reg.leases)
    ensures me in reg.leases ==> reg.leases[me] == old(reg.leases)[me]
  {
    match op
    case OpAcquire(c, topic, config, advertised) =>
      if c != me && c !in reg.leases {
        var r := reg.Acquire(c, topic, config, advertised);
      }
    case OpRelease(c, dispatched) =>
      if c != me && c in reg.leases {
        reg.Release(c, dispatched);
      }
    case OpClear => reg.Clear();
    case OpRefresh(current) => var r := reg.Refresh(current);
    case OpProbe(current) => var b := reg.Probe(current);
  }

  /** Whatever others do, a lease that is out stays out, for the same entry. */
  method Interfere(reg: Registry, me: nat, ops: seq<Op>)
    requires reg.Valid()
    modifies reg, reg.known
    ensures reg.Valid()
    ensures old(reg.known) <= reg.known && fresh(reg.known - old(reg.known))
    ensures me in reg.leases <==> me in old(reg.leases)
    ensures me in reg.leases ==> reg.leases[me] == old(reg.leases)[me]
  {
    for i := 0 to |ops|
      invariant reg.Valid()
      invariant old(reg.known) <= reg.known && fresh(reg.known - old(reg.known))
      invariant me in reg.leases <==> me in old(reg.leases)
      invariant me in reg.leases ==> reg.leases[me] == old(reg.leases)[me]
    {
      Perform(reg, me, ops[i]);
    }
  }

  // ---- Before the first dispatch -----------------------------------------

  /** One look at the token, the deadline, the steady clock and ROS. */
  datatype Look = Look(cancelled: bool, expired: bool, now: int, rosOk: bool, subscribers: nat, throws: bool)

  datatype Gate = Waiting | Open | Refused(errorClass: ErrorClass)

  function DispatchAllowed(l: Look): Gate {
    if l.cancelled then Refused(CancelledClass)
    else if l.expired then Refused(DeadlineClass)
    else Open
  }

  /** No subscriber at the last of `used` looks; the token and the deadline did not
      object before it, and the wait was over before that. */
  predicate Unheard(waitMs: nat, looks: seq<Look>, used: nat) {
    && waitMs > 0 && 3 <= used <= |looks| && looks[used - 1].subscribers == 0
    && DispatchAllowed(looks[used - 2]).Open?
    && WaitOver(looks[used - 3], looks[0].now + waitMs * 1_000_000)
  }

  predicate WaitOver(l: Look, deadline: int) {
    l.subscribers > 0 || !l.rosOk || l.now >= deadline
  }

  /** Waiting for a subscriber, then the last checks in front of the native
      boundary. Each question is put to the world anew; `used` counts the looks
      taken. The last look decides: it allowed dispatch, with ROS up at the one
      before it and, if asked for, a subscriber at the one before that; or it is
      the look that refused, and never with `uncertain`. Only a call that was asked
      to wait is refused for want of a subscriber, and only after a look that
      ended the wait: a subscriber, ROS down, or the time up. */
  method AwaitSubscribers(waitMs: nat, looks: seq<Look>) returns (gate: Gate, used: nat)
    ensures used <= |looks| && (gate.Waiting? || used > 0)
    ensures gate.Open? ==> used >= 2 && looks[used - 2].rosOk && DispatchAllowed(looks[used - 1]).Open?
    ensures gate.Open? && waitMs > 0 ==> used >= 3 && looks[used - 3].subscribers > 0
    ensures gate.Refused? ==>
              || (gate == DispatchAllowed(looks[used - 1]) && gate.errorClass in {CancelledClass, DeadlineClass})
              || (gate.errorClass == Transient && !looks[used - 1].rosOk)
              || (gate.errorClass == Transient && Unheard(waitMs, looks, used))
  {
    used := 0;
    if waitMs > 0 {
      if looks == [] {
        return Waiting, used;
      }
      var deadline := looks[0].now + waitMs * 1_000_000;
      while used < |looks| && !WaitOver(looks[used], deadline)
        invariant used <= |looks|
      {
        gate, used := Ask(looks, used + 1);
        if !gate.Open? {
          return;
        }
      }
      gate, used := Ask(looks, used + 1);
      if !gate.Open? {
        return;
      }
      if used == |looks| {
        return Waiting, used;
      }
      used := used + 1;
      if looks[used - 1].subscribers == 0 {
        return Refused(Transient), used;
      }
    }
    if used == |looks| {
      return Waiting, used;
    }
    used := used + 1;
    if !looks[used - 1].rosOk {
      return Refused(Transient), used;
    }
    gate, used := Ask(looks, used);
  }

  /** One question to the token and the deadline. */
  method Ask(looks: seq<Look>, at: nat) returns (gate: Gate, used: nat)
    ensures if at < |looks| then used == at + 1 && gate == DispatchAllowed(looks[at])
            else used == |looks| && gate == Waiting
  {
    if at < |looks| {
      return DispatchAllowed(looks[at]), at + 1;
    }
    return Waiting, |looks|;
  }

  // ---- The paced dispatch loop -------------------------------------------

  predicate Steady(looks: seq<Look>) {
    forall i, j | 0 <= i <= j < |looks| :: looks[i].now <= looks[j].now
  }

  /** The interval between messages: 1/rate seconds, truncated to nanoseconds. */
  function Interval(rateHz: real): (d: nat)
    requires rateHz > 0.0
  {
    assert NANOS as real / rateHz >= 0.0;
    (NANOS as real / rateHz).Floor
  }

  predicate MayContinue(l: Look) {
    !l.cancelled && !l.expired
  }

  /** waitUntil: `at` is the first look at or past the target, unless an earlier one
      finds the token or the deadline against going on. */
  method WaitUntil(looks: seq<Look>, from: nat, target: int) returns (verdict: Outcome, at: nat)
    requires from <= |looks|
    ensures from <= at <= |looks|
    ensures forall k | from <= k < at :: looks[k].now < target && MayContinue(looks[k])
    ensures verdict == if at == |looks| then Running
                       else if looks[at].now >= target then Success(0) else Failure(Uncertain)
    ensures verdict == Failure(Uncertain) ==> !MayContinue(looks[at])
  {
    at := from;
    while at < |looks| && looks[at].now < target
      invariant from <= at <= |looks|
      invariant forall k | from <= k < at :: looks[k].now < target && MayContinue(looks[k])
    {
      if !MayContinue(looks[at]) {
        return Failure(Uncertain), at;
      }
      at := at + 1;
    }
    verdict := if at < |looks| then Success(0) else Running;
  }

  /** One message: is ROS up, may we go on, publish, may we go on. `sent` is the
      instant the native publish was entered, if it was. */
  method SendOne(looks: seq<Look>, from: nat) returns (verdict: Outcome, at: nat, sent: seq<int>)
    requires from <= |looks| && Steady(looks)
    ensures from <= at <= |looks| && |sent| <= 1
    ensures verdict in {Running, Failure(Uncertain), Success(1)}
    ensures verdict == Success(1) ==> |sent| == 1
    ensures |sent| == 1 ==> from < |looks| && sent[0] >= looks[from].now
  {
    sent := [];
    if from + 2 >= |looks| {
      var refused := from < |looks| && (!looks[from].rosOk || (from + 1 < |looks| && !MayContinue(looks[from + 1])));
      return if refused then Failure(Uncertain) else Running, from, sent;
    }
    if !looks[from].rosOk || !MayContinue(looks[from + 1]) {
      return Failure(Uncertain), from, sent;
    }
    sent := [looks[from + 2].now];
    if looks[from + 2].throws {
      return Failure(Uncertain), from, sent;
    }
    at := from + 3;
    verdict := if at == |looks| then Running else if MayContinue(looks[at]) then Success(1) else Failure(Uncertain);
  }

  /** Message k no earlier than k intervals after the first look. */
  predicate Paced(times: seq<int>, rateHz: real, looks: seq<Look>)
    requires rateHz > 0.0
  {
    times != [] ==> looks != [] && forall k | 0 <= k < |times| :: times[k] >= looks[0].now + k * Interval(rateHz)
  }

  /** The publish loop behind the boundary. `times` are the instants at which the
      native publish was entered: message k not before start + k * interval, all
      of them on success, and every failure `uncertain`. */
  method DispatchAll(count: nat, rateHz: real, looks: seq<Look>) returns (outcome: Outcome, times: seq<int>)
    requires rateHz > 0.0 && Steady(looks)
    ensures |times| <= count
    ensures outcome.Success? ==> outcome.count == |times| == count
    ensures outcome.Failure? ==> outcome.errorClass == Uncertain
    ensures Paced(times, rateHz, looks)
  {
    times := [];
    if looks == [] {
      return Running, times;
    }
    var start, next, at := looks[0].now, looks[0].now, 0;
    for index := 0 to count
      invariant |times| == index && at <= |looks|
      invariant next == start + (if index > 0 then (index - 1) * Interval(rateHz) else 0)
      invariant forall k | 0 <= k < |times| :: times[k] >= start + k * Interval(rateHz)
    {
      if index > 0 {
        next := next + Interval(rateHz);
        NextSlot(index, Interval(rateHz));
        outcome, at := WaitUntil(looks, at, next);
        if outcome != Success(0) {
          return;
        }
      }
      var sent;
      outcome, at, sent := SendOne(looks, at);
      times := times + sent;
      if outcome != Success(1) {
        return;
      }
    }
    outcome := Success(count);
  }

  lemma NextSlot(index: nat, d: nat)
    requires index > 0
    ensures (index - 1) * d + d == index * d
  {
  }

  // ---- Pacing of every accepted request ----------------------------------

  /** The bounds the operation checks on count and rate. */
  predicate PaceAccepted(count: nat, rateHz: real) {
    1 <= count <= MAX_COUNT && 0.1 <= rateHz <= 1000.0 && (count - 1) as real / rateHz <= MAX_SECONDS as real
  }

  /** For every accepted count and rate, the k-th slot trails the exact k/rate by
      less than k nanoseconds and never passes it, and the last one lies within
      240 seconds of the start. */
  lemma SlotsWithinBudget(count: nat, rateHz: real, k: nat)
    requires PaceAccepted(count, rateHz) && k < count
    ensures k * Interval(rateHz) <= MAX_SECONDS * NANOS
    ensures k as real * Interval(rateHz) as real <= k as real * (NANOS as real / rateHz)
    ensures k > 0 ==> k as real * (NANOS as real / rateHz) < k as real * Interval(rateHz) as real + k as real
  {
    var exact := NANOS as real / rateHz;
    Bracket(k as real, Interval(rateHz) as real, exact);
    CastProduct(k, Interval(rateHz));
    Scale(exact, k as real, (count - 1) as real);
    LastSlot((count - 1) as real, rateHz);
  }

  lemma Bracket(k: real, d: real, exact: real)
    requires k >= 0.0 && d <= exact < d + 1.0
    ensures k * d <= k * exact && (k > 0.0 ==> k * exact < k * d + k)
  {
    Scale(k, d, exact);
    if k > 0.0 {
      ScaleStrictly(k, exact - d, 1.0);
    }
    assert k * (exact - d) == k * exact - k * d;
  }

  lemma ScaleStrictly(k: real, a: real, b: real)
    requires k > 0.0 && a < b
    ensures k * a < k * b
  {
  }

  lemma CastProduct(k: nat, d: nat)
    ensures (k * d) as real == k as real * d as real
  {
  }

  lemma LastSlot(n: real, rateHz: real)
    requires rateHz > 0.0 && n / rateHz <= MAX_SECONDS as real
    ensures (NANOS as real / rateHz) * n <= (MAX_SECONDS * NANOS) as real
  {
    assert (NANOS as real / rateHz) * n == NANOS as real * (n / rateHz);
    Scale(NANOS as real, n / rateHz, MAX_SECONDS as real);
  }

  lemma Scale(k: real, a: real, b: real)
    requires k >= 0.0 && a <= b
    ensures k * a <= k * b
  {
  }

  // ---- The operation -----------------------------------------------------

  datatype Request = Request(
    topic: string, config: Config, count: nat, rateHz: real, waitMs: nat)

  /** A request as it arrives. The fields the operation reads are None where they are
      missing or of the wrong JSON type; topic and type names are None where they
      are not well formed. */
  datatype Draft = Draft(
    contextOk: bool, subjectOk: bool, contractOk: bool, bytes: nat, strict: bool,
    topic: Option<string>, messageType: Option<string>, hasMessage: bool,
    count: Option<int>, rateHz: Option<real>, latch: Option<bool>, queueSize: Option<int>, waitMs: Option<int>)

  predicate Within(n: Option<int>, low: int, high: int) {
    n.Some? && low <= n.value <= high
  }

  predicate TooLarge(d: Draft, maximumBytes: nat) {
    d.contextOk && d.subjectOk && d.contractOk && d.bytes > maximumBytes
  }

  predicate WellFormed(d: Draft, maximumBytes: nat) {
    && d.contextOk && d.subjectOk && d.contractOk && d.bytes <= maximumBytes && d.strict
    && d.topic.Some? && d.messageType.Some? && d.hasMessage && d.latch.Some?
    && Within(d.count, 1, MAX_COUNT) && d.rateHz.Some? && PaceAccepted(d.count.value, d.rateHz.value)
    && Within(d.queueSize, 1, MAX_QUEUE) && Within(d.waitMs, 0, MAX_WAIT_MS)
  }

  /** Everything is checked before anything is done. A request is taken as it is or
      refused for good, unless it is only too large. */
  method CheckRequest(d: Draft, maximumBytes: nat) returns (r: Result<Request, ErrorClass>)
    ensures r.Ok? <==> WellFormed(d, maximumBytes)
    ensures r.Err? ==> r.reason == if TooLarge(d, maximumBytes) then ResourceExhausted else Permanent
    ensures r.Ok? ==>
              && r.value.topic == d.topic.value && r.value.count == d.count.value && r.value.rateHz == d.rateHz.value
              && r.value.config == Config(d.messageType.value, d.latch.value, d.queueSize.value)
              && r.value.waitMs == d.waitMs.value
  {
    if !d.contextOk || !d.subjectOk || !d.contractOk {
      return Err(Permanent);
    }
    if d.bytes > maximumBytes {
      return Err(ResourceExhausted);
    }
    if !d.strict || d.topic.None? || d.messageType.None? || !d.hasMessage || !Within(d.count, 1, MAX_COUNT) {
      return Err(Permanent);
    }
    if d.rateHz.None? || !(0.1 <= d.rateHz.value <= 1000.0) {
      return Err(Permanent);
    }
    if (d.count.value - 1) as real / d.rateHz.value > MAX_SECONDS as real {
      return Err(Permanent);
    }
    if d.latch.None? || !Within(d.queueSize, 1, MAX_QUEUE) || !Within(d.waitMs, 0, MAX_WAIT_MS) {
      return Err(Permanent);
    }
    r := Ok(Request(d.topic.value, Config(d.messageType.value, d.latch.value, d.queueSize.value),
                    d.count.value, d.rateHz.value, d.waitMs.value));
  }

  /** How decoding goes: it passes, the codec reports an error, or something else is
      thrown, which the operation reports as transient. */
  datatype Attempt = Passed | Reported | Thrown

  /** The type is looked up, the message decoded and serialized. Whatever the type
      lookup or the serializer throws is permanent, and so is what the codec
      reports. */
  method Prepare(typeFound: bool, decoded: Attempt, serialized: bool) returns (r: Result<(), ErrorClass>)
    ensures r.Ok? <==> typeFound && decoded.Passed? && serialized
    ensures r.Err? ==> r.reason == if typeFound && decoded.Thrown? then Transient else Permanent
  {
    if !typeFound || decoded.Reported? {
      return Err(Permanent);
    }
    if decoded.Thrown? {
      return Err(Transient);
    }
    r := if serialized then Ok(()) else Err(Permanent);
  }

  /** What the rest of the world answers, in the order the operation asks. */
  datatype World = World(
    enabled: bool, entry: Look, generation: Result<int, ErrorClass>,
    typeFound: bool, decoded: Attempt, serialized: bool,
    beforeAcquire: seq<Op>, advertised: bool, handle: bool, waiting: seq<Look>,
    beforeRelease: seq<Op>, sending: seq<Look>, encoded: bool)

  /** The part that holds a lease: every way out releases it, before the first
      native publish on the way through. */
  method PublishLeased(reg: Registry, me: nat, request: Request, world: World)
    returns (outcome: Outcome, dispatched: seq<int>)
    requires reg.Valid() && me in reg.leases
    requires PaceAccepted(request.count, request.rateHz) && Steady(world.sending)
    modifies reg, reg.known
    ensures reg.Valid()
    ensures !outcome.Running? ==> me !in reg.leases
    ensures outcome.Failure? && outcome.errorClass != Uncertain ==> dispatched == []
    ensures outcome.Success? ==> |dispatched| == request.count == outcome.count
    ensures |dispatched| <= request.count && (dispatched != [] ==> me !in reg.leases)
    ensures Paced(dispatched, request.rateHz, world.sending)
  {
    dispatched := [];
    var gate := Refused(Transient);
    if world.handle {
      var used;
      gate, used := AwaitSubscribers(request.waitMs, world.waiting);
    }
    Interfere(reg, me, world.beforeRelease);
    if gate.Waiting? {
      return Running, dispatched;
    }
    reg.Release(me, gate.Open?);
    if gate.Refused? {
      return Failure(gate.errorClass), dispatched;
    }
    outcome, dispatched := DispatchAll(request.count, request.rateHz, world.sending);
  }

  /** PublisherRegistry::publish of a checked request. */
  method PublishChecked(reg: Registry, me: nat, request: Request, world: World)
    returns (outcome: Outcome, dispatched: seq<int>)
    requires reg.Valid() && me !in reg.leases
    requires PaceAccepted(request.count, request.rateHz) && Steady(world.sending)
    modifies reg, reg.known
    ensures reg.Valid()
    ensures !outcome.Running? ==> me !in reg.leases
    ensures outcome.Failure? && outcome.errorClass != Uncertain ==> dispatched == []
    ensures outcome.Success? ==> |dispatched| == request.count == outcome.count
    ensures |dispatched| <= request.count && (dispatched != [] ==> me !in reg.leases)
    ensures Paced(dispatched, request.rateHz, world.sending)
  {
    dispatched := [];
    if DispatchAllowed(world.entry).Refused? {
      return Failure(DispatchAllowed(world.entry).errorClass), dispatched;
    }
    var bound := reg.Refresh(world.generation);
    if bound.Err? {
      return Failure(bound.reason), dispatched;
    }
    var prepared := Prepare(world.typeFound, world.decoded, world.serialized);
    if prepared.Err? {
      return Failure(prepared.reason), dispatched;
    }
    Interfere(reg, me, world.beforeAcquire);
    var acquired := reg.Acquire(me, request.topic, request.config, world.advertised);
    if acquired.Err? {
      return Failure(acquired.reason), dispatched;
    }
    outcome, dispatched := PublishLeased(reg, me, request, world);
  }

  /** ToolsAdapter::Publish down to the native publisher. `dispatched` are the
      native publish calls entered. A request that is not well formed is refused
      with nothing done. A failure other than `uncertain` means no native publish,
      success means exactly the requested number, none is early, and a call that
      has ended has given its lease back. */
  method Publish(reg: Registry, me: nat, draft: Draft, maximumBytes: nat, world: World)
    returns (outcome: Outcome, dispatched: seq<int>)
    requires reg.Valid() && me !in reg.leases && Steady(world.sending)
    modifies reg, reg.known
    ensures reg.Valid()
    ensures !outcome.Running? ==> me !in reg.leases
    ensures world.enabled && !WellFormed(draft, maximumBytes) ==>
              outcome == Failure(if TooLarge(draft, maximumBytes) then ResourceExhausted else Permanent)
    ensures !world.enabled || !WellFormed(draft, maximumBytes) ==>
              dispatched == [] && reg.leases == old(reg.leases) && reg.entries == old(reg.entries)
    ensures outcome.Failure? && outcome.errorClass != Uncertain ==> dispatched == []
    ensures outcome.Success? ==> draft.count == Some(|dispatched|) && outcome.count == |dispatched|
    ensures dispatched != [] ==>
              && WellFormed(draft, maximumBytes) && |dispatched| <= draft.count.value && me !in reg.leases
              && Paced(dispatched, draft.rateHz.value, world.sending)
  {
    dispatched := [];
    if !world.enabled {
      return Failure(Rejected), dispatched;
    }
    var checked := CheckRequest(draft, maximumBytes);
    if checked.Err? {
      return Failure(checked.reason), dispatched;
    }
    outcome, dispatched := PublishChecked(reg, me, checked.value, world);
    if outcome.Success? && !world.encoded {
      outcome := Failure(Uncertain);
    }
  }
}
