/** Many service calls at once: the shared in-flight counter with its
    compare-and-swap loop, the request-id counter, and the calls holding a
    permit. A run interleaves the atomic steps of all threads and helpers. */
module CallPool {
  import opened Basics
  import opened HelperProtocol
  import opened ServiceCall
  import Fence = ServiceFence

  /** One thread inside call(), from the first load of the counter on. A permit
      is held in Permitted and Active. */
  datatype Slot =
    | Loaded(call: Call, current: nat)
    | Busy
    | Permitted(call: Call)
    | Active(state: State)
    | Done(state: State)

  datatype Pool = Pool(maximum: nat, inFlight: nat, nextId: nat, slots: map<nat, Slot>)

  datatype PoolEvent =
    | Enter(thread: nat, call: Call)
    | CompareExchange(thread: nat, spurious: bool)
    | Begin(thread: nat)
    | Work(thread: nat, event: Event)
    | Release(thread: nat)

  function Empty(maximum: nat): Pool {
    Pool(maximum, 0, 1, map[])
  }

  /** One turn of the acquire loop: give up at the maximum, else try the swap;
      a failed or spuriously failed swap reloads the counter. */
  function TryAcquire(p: Pool, t: nat, spurious: bool): Pool
    requires t in p.slots && p.slots[t].Loaded?
  {
    var slot := p.slots[t];
    if slot.current >= p.maximum then p.(slots := p.slots[t := Busy])
    else if !spurious && p.inFlight == slot.current then
      p.(inFlight := (slot.current + 1) % TWO32, slots := p.slots[t := Permitted(slot.call)])
    else p.(slots := p.slots[t := Loaded(slot.call, p.inFlight)])
  }

  /** nextRequestId skips 0 when the 64-bit counter wraps. */
  function DrawId(p: Pool, t: nat): Pool
    requires t in p.slots && p.slots[t].Permitted?
  {
    var q := p.(nextId := (p.nextId + 1) % TWO64);
    if p.nextId == 0 then q
    else q.(slots := p.slots[t := Active(Initial(p.slots[t].call.(id := p.nextId)))])
  }

  function Next(p: Pool, e: PoolEvent): Pool {
    match e
    case Enter(t, c) =>
      if t in p.slots || !Accepted(c) then p else p.(slots := p.slots[t := Loaded(c, p.inFlight)])
    case CompareExchange(t, spurious) =>
      if t in p.slots && p.slots[t].Loaded? then TryAcquire(p, t, spurious) else p
    case Begin(t) => if t in p.slots && p.slots[t].Permitted? then DrawId(p, t) else p
    case Work(t, event) =>
      if t in p.slots && p.slots[t].Active? && Sane(p.slots[t].state)
      then p.(slots := p.slots[t := Active(ServiceCall.Next(p.slots[t].state, event))])
      else p
    case Release(t) =>
      if t in p.slots && p.slots[t].Active? && p.slots[t].state.parent.Returned?
      then p.(inFlight := (p.inFlight + TWO32 - 1) % TWO32, slots := p.slots[t := Done(p.slots[t].state)])
      else p
  }

  function Run(p: Pool, es: seq<PoolEvent>): Pool {
    if es == [] then p else Next(Run(p, es[..|es| - 1]), es[|es| - 1])
  }

  // ---- Invariant ---------------------------------------------------------

  predicate Holds(slot: Slot) {
    slot.Permitted? || slot.Active?
  }

  /** A helper process exists and has not been waited for. */
  predicate Unreaped(slot: Slot) {
    slot.Active? && !slot.state.helper.NotStarted? && !slot.state.helper.Reaped?
  }

  function Holders(slots: map<nat, Slot>): set<nat> {
    set t | t in slots && Holds(slots[t])
  }

  function Helpers(slots: map<nat, Slot>): set<nat> {
    set t | t in slots && Unreaped(slots[t])
  }

  predicate SlotInv(slot: Slot) {
    match slot
    case Loaded(c, _) => Accepted(c)
    case Busy => true
    case Permitted(c) => Accepted(c)
    case Active(s) => Fence.Inv(s)
    case Done(s) => Fence.Inv(s) && s.parent.Returned?
  }

  predicate Counted(p: Pool) {
    p.inFlight == |Holders(p.slots)| <= p.maximum < TWO32
  }

  predicate Inv(p: Pool) {
    Counted(p) && p.nextId < TWO64 && forall t | t in p.slots :: SlotInv(p.slots[t])
  }

  lemma CountSame(slots: map<nat, Slot>, t: nat, slot: Slot)
    requires Holds(slot) <==> t in slots && Holds(slots[t])
    ensures Holders(slots[t := slot]) == Holders(slots)
  {
  }

  lemma CountUp(slots: map<nat, Slot>, t: nat, slot: Slot)
    requires Holds(slot) && t in slots && !Holds(slots[t])
    ensures |Holders(slots[t := slot])| == |Holders(slots)| + 1
  {
    assert Holders(slots[t := slot]) == Holders(slots) + {t};
  }

  lemma CountDown(slots: map<nat, Slot>, t: nat, slot: Slot)
    requires !Holds(slot) && t in slots && Holds(slots[t])
    ensures |Holders(slots[t := slot])| == |Holders(slots)| - 1
  {
    assert Holders(slots[t := slot]) == Holders(slots) - {t};
  }

  lemma KeepAcquire(p: Pool, t: nat, spurious: bool)
    requires Inv(p) && t in p.slots && p.slots[t].Loaded?
    ensures Inv(TryAcquire(p, t, spurious))
  {
    var slot := p.slots[t];
    if slot.current >= p.maximum {
      CountSame(p.slots, t, Busy);
    } else if !spurious && p.inFlight == slot.current {
      CountUp(p.slots, t, Permitted(slot.call));
    } else {
      CountSame(p.slots, t, Loaded(slot.call, p.inFlight));
    }
  }

  lemma KeepDraw(p: Pool, t: nat)
    requires Inv(p) && t in p.slots && p.slots[t].Permitted?
    ensures Inv(DrawId(p, t))
  {
    if p.nextId != 0 {
      var s := Initial(p.slots[t].call.(id := p.nextId));
      Fence.InitialInv(s.call);
      CountSame(p.slots, t, Active(s));
    }
  }

  lemma SlotUpdated(p: Pool, t: nat, slot: Slot)
    requires Inv(p) && t in p.slots && (Holds(p.slots[t]) <==> Holds(slot)) && SlotInv(slot)
    ensures Inv(p.(slots := p.slots[t := slot]))
  {
    CountSame(p.slots, t, slot);
  }

  lemma ReleaseStep(p: Pool, t: nat)
    requires t in p.slots && p.slots[t].Active? && p.slots[t].state.parent.Returned? && 0 < p.inFlight < TWO32
    ensures Next(p, Release(t)) == p.(inFlight := p.inFlight - 1, slots := p.slots[t := Done(p.slots[t].state)])
  {
  }

  lemma ReleaseCounted(p: Pool, t: nat)
    requires Counted(p) && t in p.slots && p.slots[t].Active?
    ensures p.inFlight > 0
    ensures Counted(p.(inFlight := p.inFlight - 1, slots := p.slots[t := Done(p.slots[t].state)]))
  {
    assert t in Holders(p.slots);
    CountDown(p.slots, t, Done(p.slots[t].state));
  }

  lemma KeepRelease(p: Pool, t: nat)
    requires Inv(p) && t in p.slots && p.slots[t].Active? && p.slots[t].state.parent.Returned?
    ensures Inv(Next(p, Release(t))) && Next(p, Release(t)).inFlight == p.inFlight - 1
  {
    ReleaseCounted(p, t);
    ReleaseStep(p, t);
    assert SlotInv(p.slots[t]);
  }

  lemma KeepNext(p: Pool, e: PoolEvent)
    requires Inv(p)
    ensures Inv(Next(p, e))
  {
    match e
    case Enter(t, c) => if t !in p.slots { CountSame(p.slots, t, Loaded(c, p.inFlight)); }
    case CompareExchange(t, spurious) => if t in p.slots && p.slots[t].Loaded? { KeepAcquire(p, t, spurious); }
    case Begin(t) => if t in p.slots && p.slots[t].Permitted? { KeepDraw(p, t); }
    case Work(t, event) =>
      if t in p.slots && p.slots[t].Active? && Sane(p.slots[t].state) {
        assert SlotInv(p.slots[t]);
        Fence.KeepNext(p.slots[t].state, event);
        SlotUpdated(p, t, Active(ServiceCall.Next(p.slots[t].state, event)));
      }
    case Release(t) =>
      if t in p.slots && p.slots[t].Active? && p.slots[t].state.parent.Returned? { KeepRelease(p, t); }
  }

  lemma {:induction false} KeepRun(p: Pool, es: seq<PoolEvent>)
    requires Inv(p)
    ensures Inv(Run(p, es)) && Run(p, es).maximum == p.maximum
  {
    if es != [] {
      KeepRun(p, es[..|es| - 1]);
      KeepNext(Run(p, es[..|es| - 1]), es[|es| - 1]);
    }
  }

  lemma SubsetSize(a: set<nat>, b: set<nat>)
    requires a <= b
    ensures |a| <= |b|
  {
    if a != {} {
      var x :| x in a;
      SubsetSize(a - {x}, b - {x});
    }
  }

  // ---- Main results ------------------------------------------------------

  /** In every run: unreaped helpers <= in-flight count == permits held <=
      configured maximum. */
  lemma HelperBound(maximum: nat, es: seq<PoolEvent>)
    requires 0 < maximum < TWO32
    ensures var p := Run(Empty(maximum), es);
            |Helpers(p.slots)| <= p.inFlight == |Holders(p.slots)| <= maximum
  {
    KeepRun(Empty(maximum), es);
    var p := Run(Empty(maximum), es);
    SubsetSize(Helpers(p.slots), Holders(p.slots));
  }

  /** Giving a permit back lowers the count by exactly one, happens only with
      the helper reaped (or never started), and ends the thread, so no path
      gives it back twice. */
  lemma PermitReturnedOnce(maximum: nat, es: seq<PoolEvent>, t: nat, later: seq<PoolEvent>)
    requires 0 < maximum < TWO32
    requires var p := Run(Empty(maximum), es);
             t in p.slots && p.slots[t].Active? && p.slots[t].state.parent.Returned?
    ensures var p := Run(Empty(maximum), es);
            var q := Next(p, Release(t));
            && !Unreaped(p.slots[t])
            && q.inFlight == p.inFlight - 1 && q.slots == p.slots[t := Done(p.slots[t].state)]
            && t in Run(q, later).slots && Run(q, later).slots[t] == q.slots[t]
  {
    KeepRun(Empty(maximum), es);
    var p := Run(Empty(maximum), es);
    assert SlotInv(p.slots[t]);
    Fence.InvSummary(p.slots[t].state);
    KeepRelease(p, t);
    DoneStays(Next(p, Release(t)), t, later);
  }

  lemma {:induction false} DoneStays(p: Pool, t: nat, es: seq<PoolEvent>)
    requires t in p.slots && p.slots[t].Done?
    ensures t in Run(p, es).slots && Run(p, es).slots[t] == p.slots[t]
  {
    if es != [] {
      DoneStays(p, t, es[..|es| - 1]);
    }
  }

  /** The commit fence holds for every call of every concurrent run: at most one
      native call each, and none at all behind a safe failure, for ever. */
  lemma FenceUnderConcurrency(maximum: nat, es: seq<PoolEvent>, t: nat)
    requires 0 < maximum < TWO32
    requires t in Run(Empty(maximum), es).slots
    ensures var slot := Run(Empty(maximum), es).slots[t];
            && (slot.Active? || slot.Done? ==> |slot.state.native| <= 1)
            && (slot.Done? ==> slot.state.parent.Returned?)
            && (slot.Done? && !MayHaveRun(slot.state.parent.outcome) ==> slot.state.native == [])
  {
    KeepRun(Empty(maximum), es);
    var slot := Run(Empty(maximum), es).slots[t];
    assert SlotInv(slot);
    if slot.Active? || slot.Done? {
      Fence.InvSummary(slot.state);
    }
  }
}
