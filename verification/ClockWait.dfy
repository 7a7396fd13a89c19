/** Waiting for simulation time: a monotonic watch over clock stamps. */
module ClockWait {
  import opened ClockTarget

  datatype Stamp = Stamp(sec: nat, nsec: nat)

  /** The last accepted stamp, in nanoseconds. */
  datatype Seen = Nothing | Last(nanos: nat)

  datatype Verdict = Reached(yes: bool) | BadNanoseconds | Backwards

  function Nanos(t: Stamp): nat {
    t.sec * NANOS + t.nsec
  }

  /** Two 32-bit fields. */
  predicate Fits(t: Stamp) {
    t.sec < 0x1_0000_0000 && t.nsec < 0x1_0000_0000
  }

  predicate Accepts(seen: Seen, t: Stamp) {
    t.nsec < NANOS && (seen.Last? ==> Nanos(t) >= seen.nanos)
  }

  class Wait {
    const target: nat
    var previous: nat
    var observed: bool

    function Seen(): Seen
      reads this
    {
      if observed then Last(previous) else Nothing
    }

    constructor (target: nat)
      ensures this.target == target && Seen() == Nothing
    {
      this.target := target;
      previous, observed := 0, false;
    }

    /** A refused stamp changes nothing. */
    method Observe(t: Stamp) returns (v: Verdict)
      requires Fits(t)
      modifies this
      ensures v.Reached? <==> old(Accepts(Seen(), t))
      ensures v.Reached? ==> Seen() == Last(Nanos(t)) && v.yes == (Nanos(t) >= target)
      ensures !v.Reached? ==> Seen() == old(Seen()) && (v == BadNanoseconds <==> t.nsec >= NANOS)
    {
      if t.nsec >= NANOS {
        return BadNanoseconds;
      }
      var stamp := t.sec * NANOS + t.nsec;
      assert stamp < UINT64;
      if observed && stamp < previous {
        return Backwards;
      }
      previous := stamp;
      observed := true;
      return Reached(stamp >= target);
    }
  }

  // ---- Whole sequences of stamps -----------------------------------------

  function After(stamps: seq<Stamp>): Seen {
    if stamps == [] then Nothing
    else
      var before, t := After(stamps[..|stamps| - 1]), stamps[|stamps| - 1];
      if Accepts(before, t) then Last(Nanos(t)) else before
  }

  predicate AcceptedAt(stamps: seq<Stamp>, i: nat)
    requires i < |stamps|
  {
    Accepts(After(stamps[..i]), stamps[i])
  }

  /** A fresh watch fed a whole sequence follows After, whatever is refused on the way. */
  method Feed(target: nat, stamps: seq<Stamp>) returns (verdicts: seq<Verdict>)
    requires forall i | 0 <= i < |stamps| :: Fits(stamps[i])
    ensures |verdicts| == |stamps|
    ensures forall i | 0 <= i < |stamps| :: verdicts[i].Reached? == AcceptedAt(stamps, i)
    ensures forall i | 0 <= i < |stamps| :: verdicts[i].Reached? ==> verdicts[i].yes == (Nanos(stamps[i]) >= target)
  {
    var w := new Wait(target);
    verdicts := [];
    for n := 0 to |stamps|
      invariant |verdicts| == n && w.target == target && w.Seen() == After(stamps[..n])
      invariant forall i | 0 <= i < n :: verdicts[i].Reached? == AcceptedAt(stamps, i)
      invariant forall i | 0 <= i < n :: verdicts[i].Reached? ==> verdicts[i].yes == (Nanos(stamps[i]) >= target)
    {
      assert stamps[..n + 1][..n] == stamps[..n];
      var v := w.Observe(stamps[n]);
      verdicts := verdicts + [v];
    }
  }

  lemma {:induction false} NeverGoesBack(stamps: seq<Stamp>, i: nat, j: nat)
    requires i < j <= |stamps| && AcceptedAt(stamps, i)
    ensures After(stamps[..j]).Last? && After(stamps[..j]).nanos >= Nanos(stamps[i])
  {
    assert stamps[..j][..j - 1] == stamps[..j - 1];
    if i < j - 1 {
      NeverGoesBack(stamps, i, j - 1);
    }
  }

  /** An accepted stamp is reported as reached exactly when some accepted stamp up
      to it was: once reached, reached for good. */
  lemma ReachedForGood(target: nat, stamps: seq<Stamp>, j: nat)
    requires j < |stamps| && AcceptedAt(stamps, j)
    ensures Nanos(stamps[j]) >= target
            <==> exists i :: 0 <= i <= j && AcceptedAt(stamps, i) && Nanos(stamps[i]) >= target
  {
    forall i | 0 <= i <= j && AcceptedAt(stamps, i) && Nanos(stamps[i]) >= target
      ensures Nanos(stamps[j]) >= target
    {
      if i < j {
        NeverGoesBack(stamps, i, j);
      }
    }
  }

  /** Leaving a refused stamp out changes no other verdict. */
  lemma {:induction false} RefusedIsInvisible(stamps: seq<Stamp>, i: nat, j: nat)
    requires i < j <= |stamps| && !AcceptedAt(stamps, i)
    ensures After(stamps[..j]) == After(stamps[..i] + stamps[i + 1..j])
    decreases j
  {
    var rest := stamps[..i] + stamps[i + 1..j];
    assert stamps[..j][..j - 1] == stamps[..j - 1];
    if i == j - 1 {
      assert rest == stamps[..i];
    } else {
      RefusedIsInvisible(stamps, i, j - 1);
      assert rest[..|rest| - 1] == stamps[..i] + stamps[i + 1..j - 1];
    }
  }
}
