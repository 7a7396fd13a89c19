/** The event log of a recording's facts, as values: which event comes next for a
    producer, what its validity interval then is, and what was last logged for
    a polled source. */
module FactLog {
  import opened Basics
  import opened FactPaths

  /** SHA-256 as an ideal hash: equal digests mean equal bytes. */
  datatype Digest = Sha(data: seq<Byte>)

  datatype Content = Content(path: FileName, digest: Digest, size: nat)

  /** Producer clocks, as the numbers their decimal text denotes. */
  datatype Clock = Clock(ros: nat, unix: nat, monotonic: nat)

  datatype Continuity =
    | FirstObserved | PriorUnobserved | SequenceGap | Consecutive | ClockRegression | RosRegression

  datatype EndReason = EndNotObserved | EndedBy(stopped: bool) | Broken(why: Continuity)

  datatype Validity = Validity(from: Clock, until: Option<Clock>, reason: EndReason)

  datatype ProducerKey = ProducerKey(kind: string, id: string, instanceId: string)

  datatype FactKey = FactKey(kind: string, source: string)

  datatype Event =
    | Observed(ordinal: nat, key: FactKey, content: Content)
    | Missing(ordinal: nat, key: FactKey, reason: string)
    | Reported(ordinal: nat, producer: ProducerKey, sequence: nat, stopped: bool, effectiveAt: Clock,
               content: Content, continuity: Continuity, validity: Option<Validity>)

  // ---- Producer intervals ------------------------------------------------

  predicate By(e: Event, p: ProducerKey) {
    e.Reported? && e.producer == p
  }

  /** First event of the producer at index i or later. */
  function NextFrom(es: seq<Event>, p: ProducerKey, i: nat): (n: Option<nat>)
    requires i <= |es|
    ensures n.Some? ==> i <= n.value < |es| && By(es[n.value], p)
    ensures n.Some? ==> forall k | i <= k < n.value :: !By(es[k], p)
    ensures n.None? ==> forall k | i <= k < |es| :: !By(es[k], p)
    decreases |es| - i
  {
    if i == |es| then None else if By(es[i], p) then Some(i) else NextFrom(es, p, i + 1)
  }

  /** How a report follows the previous one of the same producer. */
  function Follows(before: Event, after: Event): Continuity
    requires before.Reported? && after.Reported?
  {
    if after.sequence != before.sequence + 1 then SequenceGap
    else if after.effectiveAt.monotonic < before.effectiveAt.monotonic then ClockRegression
    else if after.effectiveAt.ros < before.effectiveAt.ros then RosRegression
    else Consecutive
  }

  /** The interval of event j, judged from the log as a whole. */
  function ExpectedValidity(es: seq<Event>, j: nat): Option<Validity>
    requires j < |es| && es[j].Reported?
  {
    if es[j].stopped then None
    else
      var n := NextFrom(es, es[j].producer, j + 1);
      if n.None? then Some(Validity(es[j].effectiveAt, None, EndNotObserved))
      else
        var c := Follows(es[j], es[n.value]);
        if c == Consecutive then
          Some(Validity(es[j].effectiveAt, Some(es[n.value].effectiveAt), EndedBy(es[n.value].stopped)))
        else Some(Validity(es[j].effectiveAt, None, Broken(c)))
  }

  predicate Ordered(es: seq<Event>) {
    forall i, j | 0 <= i < j < |es| && es[i].Reported? && By(es[j], es[i].producer) :: es[i].sequence < es[j].sequence
  }

  predicate IntervalAt(es: seq<Event>, j: nat)
    requires j < |es|
  {
    es[j].Reported? ==> es[j].validity == ExpectedValidity(es, j)
  }

  /** Every interval in the log is the one the whole log calls for. */
  predicate IntervalsExact(es: seq<Event>) {
    forall j | 0 <= j < |es| :: IntervalAt(es, j)
  }

  /** `last` points at the latest event of each producer. */
  predicate Tracked(es: seq<Event>, last: map<ProducerKey, nat>) {
    && (forall p | p in last :: last[p] < |es| && By(es[last[p]], p))
    && (forall j | 0 <= j < |es| && es[j].Reported? :: es[j].producer in last && j <= last[es[j].producer])
  }

  /** Latest event of the producer before index i. */
  function PrevBefore(es: seq<Event>, p: ProducerKey, i: nat): (n: Option<nat>)
    requires i <= |es|
    ensures n.Some? ==> n.value < i && By(es[n.value], p) && forall k | n.value < k < i :: !By(es[k], p)
    ensures n.None? ==> forall k | 0 <= k < i :: !By(es[k], p)
  {
    if i == 0 then None else if By(es[i - 1], p) then Some(i - 1) else PrevBefore(es, p, i - 1)
  }

  function ContinuityAfter(before: Option<Event>, e: Event): Continuity
    requires e.Reported? && (before.Some? ==> before.value.Reported?)
  {
    if before.Some? then Follows(before.value, e) else if e.sequence == 1 then FirstObserved else PriorUnobserved
  }

  predicate ContinuityAt(es: seq<Event>, j: nat)
    requires j < |es|
  {
    es[j].Reported? ==>
      var i := PrevBefore(es, es[j].producer, j);
      es[j].continuity == ContinuityAfter(if i.Some? then Some(es[i.value]) else None, es[j])
  }

  predicate ContinuityExact(es: seq<Event>) {
    forall j | 0 <= j < |es| :: ContinuityAt(es, j)
  }

  predicate Numbered(es: seq<Event>) {
    forall i | 0 <= i < |es| :: es[i].ordinal == i
  }

  /** Everything the log promises about producers and numbering. */
  predicate Sound(es: seq<Event>, last: map<ProducerKey, nat>) {
    Numbered(es) && IntervalsExact(es) && ContinuityExact(es) && Ordered(es) && Tracked(es, last)
  }

  /** Events equal in everything but their intervals. */
  predicate SameReports(a: seq<Event>, b: seq<Event>) {
    && |a| == |b|
    && forall i | 0 <= i < |a| ::
         if a[i].Reported? then b[i].Reported? && b[i].(validity := a[i].validity) == a[i] else b[i] == a[i]
  }

  lemma SameNext(a: seq<Event>, b: seq<Event>, p: ProducerKey, i: nat)
    requires SameReports(a, b) && i <= |a|
    ensures NextFrom(a, p, i) == NextFrom(b, p, i)
    decreases |a| - i
  {
    if i < |a| {
      SameNext(a, b, p, i + 1);
    }
  }

  lemma SamePrev(a: seq<Event>, b: seq<Event>, p: ProducerKey, i: nat)
    requires SameReports(a, b) && i <= |a|
    ensures PrevBefore(a, p, i) == PrevBefore(b, p, i)
  {
  }

  lemma PrevOfPrefix(es: seq<Event>, e: Event, p: ProducerKey, i: nat)
    requires i <= |es|
    ensures PrevBefore(es + [e], p, i) == PrevBefore(es, p, i)
  {
  }

  lemma NextAfterAppend(es: seq<Event>, e: Event, p: ProducerKey, i: nat)
    requires i <= |es|
    ensures NextFrom(es + [e], p, i)
            == if NextFrom(es, p, i).Some? then NextFrom(es, p, i) else if By(e, p) then Some(|es|) else None
    decreases |es| - i
  {
    if i < |es| {
      NextAfterAppend(es, e, p, i + 1);
    }
  }

  lemma ContinuityOfPrefix(es: seq<Event>, e: Event, j: nat)
    requires j < |es| && ContinuityAt(es, j)
    ensures ContinuityAt(es + [e], j)
  {
    if es[j].Reported? {
      PrevOfPrefix(es, e, es[j].producer, j);
    }
  }

  lemma IntervalIgnoresOther(es: seq<Event>, e: Event, j: nat)
    requires j < |es| && IntervalAt(es, j) && !e.Reported?
    ensures IntervalAt(es + [e], j)
  {
    if es[j].Reported? {
      NextAfterAppend(es, e, es[j].producer, j + 1);
    }
  }

  /** Appending something that is not a report changes no interval. */
  lemma AppendOther(es: seq<Event>, e: Event, last: map<ProducerKey, nat>)
    requires Sound(es, last) && !e.Reported? && e.ordinal == |es|
    ensures Sound(es + [e], last)
  {
    assert IntervalsExact(es + [e]) by {
      forall j | 0 <= j < |es| ensures IntervalAt(es + [e], j) {
        IntervalIgnoresOther(es, e, j);
      }
    }
    assert ContinuityExact(es + [e]) by {
      forall j | 0 <= j < |es| ensures ContinuityAt(es + [e], j) {
        ContinuityOfPrefix(es, e, j);
      }
    }
  }

  /** An application's event once the producer's next report is known. */
  function Closed(e: Event, next: Event): (r: Event)
    requires e.Reported? && next.Reported?
  {
    var c := Follows(e, next);
    var was := if e.validity.Some? then e.validity.value else Validity(e.effectiveAt, None, EndNotObserved);
    e.(validity := Some(if c == Consecutive then was.(until := Some(next.effectiveAt), reason := EndedBy(next.stopped))
                        else was.(reason := Broken(c))))
  }

  /** The report at the end of the log, and the interval of the event before it
      closed in place. */
  function Inserted(es: seq<Event>, e: Event, before: Option<nat>): (r: seq<Event>)
    requires e.Reported? && (before.Some? ==> before.value < |es| && es[before.value].Reported?)
    ensures |r| == |es| + 1
  {
    if before.Some? && !es[before.value].stopped then es[before.value := Closed(es[before.value], e)] + [e]
    else es + [e]
  }

  function IndexOf(last: map<ProducerKey, nat>, p: ProducerKey): Option<nat> {
    if p in last then Some(last[p]) else None
  }

  /** The log after a report. */
  function Extended(es: seq<Event>, e: Event, last: map<ProducerKey, nat>): (r: seq<Event>)
    requires e.Reported? && Tracked(es, last)
    ensures |r| == |es| + 1
  {
    Inserted(es, e, IndexOf(last, e.producer))
  }

  function FreshValidity(stopped: bool, at: Clock): Option<Validity> {
    if stopped then None else Some(Validity(at, None, EndNotObserved))
  }

  lemma LastHasNoNext(es: seq<Event>, last: map<ProducerKey, nat>, p: ProducerKey)
    requires Tracked(es, last) && p in last
    ensures NextFrom(es, p, last[p] + 1) == None
  {
  }

  lemma OthersKeepNext(es: seq<Event>, e: Event, last: map<ProducerKey, nat>, j: nat)
    requires Tracked(es, last) && e.Reported? && j < |es| && es[j].Reported?
    requires es[j].producer != e.producer || j != last[e.producer]
    ensures NextFrom(es + [e], es[j].producer, j + 1) == NextFrom(es, es[j].producer, j + 1)
  {
    NextAfterAppend(es, e, es[j].producer, j + 1);
    if es[j].producer == e.producer {
      assert j < last[e.producer];
    }
  }

  predicate FreshReport(es: seq<Event>, e: Event, last: map<ProducerKey, nat>)
    requires Tracked(es, last)
  {
    && e.Reported? && e.ordinal == |es|
    && e.validity == FreshValidity(e.stopped, e.effectiveAt)
    && e.continuity == ContinuityAfter(if e.producer in last then Some(es[last[e.producer]]) else None, e)
    && (e.producer in last ==> es[last[e.producer]].sequence < e.sequence)
  }

  /** The edited predecessor. */
  lemma IntervalClosed(es: seq<Event>, e: Event, last: map<ProducerKey, nat>)
    requires Tracked(es, last) && e.Reported? && e.producer in last && IntervalAt(es, last[e.producer])
    ensures IntervalAt(Extended(es, e, last), last[e.producer])
  {
    var j, r := last[e.producer], Extended(es, e, last);
    LastHasNoNext(es, last, e.producer);
    NextAfterAppend(es, e, e.producer, j + 1);
    assert SameReports(es + [e], r);
    SameNext(es + [e], r, e.producer, j + 1);
  }

  lemma IntervalKept(es: seq<Event>, e: Event, last: map<ProducerKey, nat>, j: nat)
    requires Tracked(es, last) && e.Reported? && j < |es| && IntervalAt(es, j)
    requires e.producer in last ==> j != last[e.producer]
    ensures IntervalAt(Extended(es, e, last), j)
  {
    var r := Extended(es, e, last);
    if es[j].Reported? {
      OthersKeepNext(es, e, last, j);
      assert SameReports(es + [e], r);
      SameNext(es + [e], r, es[j].producer, j + 1);
    }
  }

  lemma ExtendIntervals(es: seq<Event>, e: Event, last: map<ProducerKey, nat>)
    requires Tracked(es, last) && IntervalsExact(es)
    requires e.Reported? && e.validity == FreshValidity(e.stopped, e.effectiveAt)
    ensures IntervalsExact(Extended(es, e, last))
  {
    var r := Extended(es, e, last);
    forall j | 0 <= j < |r| ensures IntervalAt(r, j) {
      if j < |es| {
        if e.producer in last && j == last[e.producer] {
          IntervalClosed(es, e, last);
        } else {
          IntervalKept(es, e, last, j);
        }
      }
    }
  }

  lemma ContinuityKept(es: seq<Event>, e: Event, last: map<ProducerKey, nat>, j: nat)
    requires Tracked(es, last) && e.Reported? && j < |es| && ContinuityAt(es, j)
    ensures ContinuityAt(Extended(es, e, last), j)
  {
    var r := Extended(es, e, last);
    ContinuityOfPrefix(es, e, j);
    if es[j].Reported? {
      assert SameReports(es + [e], r);
      SamePrev(es + [e], r, es[j].producer, j);
    }
  }

  lemma ContinuityFresh(es: seq<Event>, e: Event, last: map<ProducerKey, nat>)
    requires Tracked(es, last) && FreshReport(es, e, last)
    ensures ContinuityAt(Extended(es, e, last), |es|)
  {
    var r := Extended(es, e, last);
    assert SameReports(es + [e], r);
    SamePrev(es + [e], r, e.producer, |es|);
    PrevOfPrefix(es, e, e.producer, |es|);
  }

  lemma ExtendContinuity(es: seq<Event>, e: Event, last: map<ProducerKey, nat>)
    requires Tracked(es, last) && ContinuityExact(es) && FreshReport(es, e, last)
    ensures ContinuityExact(Extended(es, e, last))
  {
    var r := Extended(es, e, last);
    forall j | 0 <= j < |r| ensures ContinuityAt(r, j) {
      if j < |es| {
        ContinuityKept(es, e, last, j);
      } else {
        ContinuityFresh(es, e, last);
      }
    }
  }

  lemma ExtendOrdered(es: seq<Event>, e: Event, last: map<ProducerKey, nat>)
    requires Tracked(es, last) && Ordered(es) && FreshReport(es, e, last)
    ensures Ordered(Extended(es, e, last)) && Tracked(Extended(es, e, last), last[e.producer := |es|])
    ensures SameReports(es + [e], Extended(es, e, last))
  {
  }

  /** Editing one interval in place keeps the whole log exact: the recorder never
      has to look at more than the producer's previous event. */
  lemma ExtendSound(es: seq<Event>, e: Event, last: map<ProducerKey, nat>)
    requires Sound(es, last) && FreshReport(es, e, last)
    ensures Sound(Extended(es, e, last), last[e.producer := |es|])
    ensures SameReports(es + [e], Extended(es, e, last))
  {
    ExtendIntervals(es, e, last);
    ExtendContinuity(es, e, last);
    ExtendOrdered(es, e, last);
  }

  /** What an exact interval says. It ends exactly when the event is an application
      whose next logged report carries the next sequence number with no clock
      going back; it then ends where that report begins, not before its own
      start on either checked clock. A stop has no interval. */
  lemma IntervalMeaning(es: seq<Event>, j: nat)
    requires IntervalsExact(es) && j < |es| && es[j].Reported?
    ensures es[j].stopped <==> es[j].validity.None?
    ensures var n := NextFrom(es, es[j].producer, j + 1);
            var ends := !es[j].stopped && n.Some? && es[n.value].sequence == es[j].sequence + 1
                        && es[n.value].effectiveAt.monotonic >= es[j].effectiveAt.monotonic
                        && es[n.value].effectiveAt.ros >= es[j].effectiveAt.ros;
            && (ends <==> es[j].validity.Some? && es[j].validity.value.until.Some?)
            && (ends ==> es[j].validity.value.until.value == es[n.value].effectiveAt
                         && es[j].validity.value.from == es[j].effectiveAt)
  {
    assert IntervalAt(es, j);
  }

  // ---- Polled sources ----------------------------------------------------

  /** Sources read by polling: declared files and parameters. */
  predicate Polled(k: FactKey) {
    k.kind == "calibration-file" || k.kind == "algorithm-file" || k.kind == "parameter"
  }

  /** What a poll found: the bytes, or why there are none. */
  datatype Finding = Found(digest: Digest) | Lacking(reason: string)

  predicate About(e: Event, k: FactKey) {
    !e.Reported? && e.key == k
  }

  function FindingOf(e: Event): Finding
    requires !e.Reported?
  {
    if e.Observed? then Found(e.content.digest) else Lacking(e.reason)
  }

  /** The finding last logged for k. */
  function LastFinding(es: seq<Event>, k: FactKey): Option<Finding> {
    if es == [] then None
    else if About(es[|es| - 1], k) then Some(FindingOf(es[|es| - 1]))
    else LastFinding(es[..|es| - 1], k)
  }

  predicate ChangeAt(es: seq<Event>, j: nat)
    requires j < |es|
  {
    !es[j].Reported? && Polled(es[j].key) ==> LastFinding(es[..j], es[j].key) != Some(FindingOf(es[j]))
  }

  /** No polled source is ever logged with the finding it already had. */
  predicate NoRepeats(es: seq<Event>) {
    forall j | 0 <= j < |es| :: ChangeAt(es, j)
  }

  predicate RememberedFor(last: Option<Finding>, seen: map<FactKey, Digest>, gone: map<FactKey, string>, k: FactKey) {
    match last
    case None => k !in seen && k !in gone
    case Some(Found(d)) => k in seen && seen[k] == d && k !in gone
    case Some(Lacking(r)) => k in gone && gone[k] == r && k !in seen
  }

  /** The two memories hold, for every polled source, exactly its last finding. */
  ghost predicate Remembered(es: seq<Event>, seen: map<FactKey, Digest>, gone: map<FactKey, string>) {
    forall k: FactKey | Polled(k) :: RememberedFor(LastFinding(es, k), seen, gone, k)
  }

  lemma LastAfterAppend(es: seq<Event>, e: Event, k: FactKey)
    ensures LastFinding(es + [e], k) == if About(e, k) then Some(FindingOf(e)) else LastFinding(es, k)
  {
    assert (es + [e])[..|es + [e]| - 1] == es;
  }

  lemma {:induction false} SameLast(a: seq<Event>, b: seq<Event>, k: FactKey)
    requires SameReports(a, b)
    ensures LastFinding(a, k) == LastFinding(b, k)
  {
    if a != [] {
      SameLast(a[..|a| - 1], b[..|b| - 1], k);
    }
  }

  lemma AppendNoRepeat(es: seq<Event>, e: Event)
    requires NoRepeats(es)
    requires !e.Reported? && Polled(e.key) ==> LastFinding(es, e.key) != Some(FindingOf(e))
    ensures NoRepeats(es + [e])
  {
    var after := es + [e];
    forall j | 0 <= j < |after| ensures ChangeAt(after, j) {
      if j < |es| {
        assert ChangeAt(es, j) && after[..j] == es[..j];
      } else {
        assert after[..j] == es;
      }
    }
  }

  lemma SameNoRepeats(a: seq<Event>, b: seq<Event>)
    requires NoRepeats(a) && SameReports(a, b)
    ensures NoRepeats(b)
  {
    forall j | 0 <= j < |b| ensures ChangeAt(b, j) {
      assert ChangeAt(a, j);
      if !b[j].Reported? {
        SameLast(a[..j], b[..j], b[j].key);
      }
    }
  }
}
