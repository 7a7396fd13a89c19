/** The recorder's fact observer: a bounded log of polled snapshots and producer
    reports, a content-addressed blob store, and the copy of the state that is
    written into the recording's manifest. */
module RecordFacts {
  import opened Basics
  import opened FactLog
  import opened FactPaths
  import opened FactStore

  const MAX_EVENTS: nat := 4096
  const QUEUE_SIZE: nat := 256

  /** A decoded and validated producer message. */
  datatype Report = Report(producer: ProducerKey, sequence: nat, stopped: bool, effectiveAt: Clock)

  datatype Message =
    | FromProducer(source: string, text: seq<Byte>, parsed: Result<Report, string>)
    | Notice(source: string, reason: string)
    | Sample(kind: string, source: string, encoded: Result<seq<Byte>, string>)

  /** Queued samples come from topics; polled sources never pass through the queue. */
  predicate FromTopic(m: Message) {
    m.Sample? ==> !Polled(FactKey(m.kind, m.source))
  }

  /** What a manifest holds about the facts. */
  datatype Saved = Saved(events: seq<Event>, droppedEvents: nat, closed: bool)

  predicate Refers(e: Event, paths: map<Digest, FileName>) {
    !e.Missing? ==> e.content.digest in paths && paths[e.content.digest] == e.content.path
                    && e.content.size == |e.content.digest.data|
  }

  /** Every logged content reference names a stored blob. */
  predicate References(es: seq<Event>, paths: map<Digest, FileName>) {
    forall i | 0 <= i < |es| :: Refers(es[i], paths)
  }

  lemma SameReferences(a: seq<Event>, b: seq<Event>, paths: map<Digest, FileName>)
    requires SameReports(a, b) && References(a, paths)
    ensures References(b, paths)
  {
    forall i | 0 <= i < |b| ensures Refers(b[i], paths) {
      assert Refers(a[i], paths);
    }
  }

  lemma RememberAppend(es: seq<Event>, e: Event, seen: map<FactKey, Digest>, gone: map<FactKey, string>,
                       seen': map<FactKey, Digest>, gone': map<FactKey, string>)
    requires Remembered(es, seen, gone) && !e.Reported?
    requires forall k | k != e.key :: (k in seen' <==> k in seen) && (k in seen ==> seen'[k] == seen[k])
    requires forall k | k != e.key :: (k in gone' <==> k in gone) && (k in gone ==> gone'[k] == gone[k])
    requires Polled(e.key) && e.Observed? ==> e.key in seen' && seen'[e.key] == e.content.digest && e.key !in gone'
    requires Polled(e.key) && e.Missing? ==> e.key in gone' && gone'[e.key] == e.reason && e.key !in seen'
    ensures Remembered(es + [e], seen', gone')
  {
    forall k: FactKey | Polled(k)
      ensures LastFinding(es + [e], k) == if k == e.key then Some(FindingOf(e)) else LastFinding(es, k)
    {
      LastAfterAppend(es, e, k);
    }
  }

  lemma RememberSame(a: seq<Event>, b: seq<Event>, seen: map<FactKey, Digest>, gone: map<FactKey, string>)
    requires SameReports(a, b) && Remembered(a, seen, gone)
    ensures Remembered(b, seen, gone)
  {
    forall k: FactKey | Polled(k) ensures LastFinding(a, k) == LastFinding(b, k) {
      SameLast(a, b, k);
    }
  }

  /** At most one event was added, none when sealed. */
  predicate Added(before: seq<Event>, after: seq<Event>, sealed: bool) {
    before <= after && |after| <= |before| + (if sealed then 0 else 1)
  }

  /** What holds of the log and its memories. The memories matter only while
      events can still be entered. */
  ghost predicate Consistent(es: seq<Event>, last: map<ProducerKey, nat>, seen: map<FactKey, Digest>,
                             gone: map<FactKey, string>, open: bool, paths: map<Digest, FileName>)
  {
    && Sound(es, last) && NoRepeats(es) && References(es, paths)
    && (open ==> Remembered(es, seen, gone))
  }

  /** A finding that differs from the remembered one may be entered. */
  lemma EnterFinding(es: seq<Event>, last: map<ProducerKey, nat>, seen: map<FactKey, Digest>,
                     gone: map<FactKey, string>, paths: map<Digest, FileName>, e: Event,
                     seen': map<FactKey, Digest>, gone': map<FactKey, string>, open: bool)
    requires Consistent(es, last, seen, gone, true, paths)
    requires !e.Reported? && e.ordinal == |es| && Refers(e, paths)
    requires if e.Observed? then seen' == seen[e.key := e.content.digest] && gone' == gone - {e.key}
             else seen' == seen - {e.key} && gone' == gone[e.key := e.reason]
    requires if e.Observed? then e.key in seen ==> seen[e.key] != e.content.digest
             else e.key in gone ==> gone[e.key] != e.reason
    ensures Consistent(es + [e], last, seen', gone', open, paths)
    ensures LastFinding(es + [e], e.key) == Some(FindingOf(e))
  {
    AppendOther(es, e, last);
    if Polled(e.key) {
      assert RememberedFor(LastFinding(es, e.key), seen, gone, e.key);
    }
    AppendNoRepeat(es, e);
    LastAfterAppend(es, e, e.key);
    RememberAppend(es, e, seen, gone, seen', gone');
  }

  lemma StoreGrows(es: seq<Event>, last: map<ProducerKey, nat>, seen: map<FactKey, Digest>, gone: map<FactKey, string>,
                   open: bool, a: map<Digest, FileName>, b: map<Digest, FileName>)
    requires Consistent(es, last, seen, gone, open, a) && Extends(a, b)
    ensures Consistent(es, last, seen, gone, open, b)
  {
    forall i | 0 <= i < |es| ensures Refers(es[i], b) {
      assert Refers(es[i], a);
    }
  }

  lemma EnterReport(es: seq<Event>, last: map<ProducerKey, nat>, seen: map<FactKey, Digest>, gone: map<FactKey, string>,
                    paths: map<Digest, FileName>, e: Event, open: bool)
    requires Consistent(es, last, seen, gone, true, paths)
    requires FreshReport(es, e, last) && Refers(e, paths)
    ensures Consistent(Extended(es, e, last), last[e.producer := |es|], seen, gone, open, paths)
  {
    var plain, r := es + [e], Extended(es, e, last);
    ExtendSound(es, e, last);
    AppendNoRepeat(es, e);
    SameNoRepeats(plain, r);
    SameReferences(plain, r, paths);
    forall k: FactKey | Polled(k) ensures RememberedFor(LastFinding(plain, k), seen, gone, k) {
      LastAfterAppend(es, e, k);
      assert RememberedFor(LastFinding(es, k), seen, gone, k);
    }
    RememberSame(plain, r, seen, gone);
  }

  lemma ForgetAbsence(es: seq<Event>, last: map<ProducerKey, nat>, seen: map<FactKey, Digest>,
                      gone: map<FactKey, string>, open: bool, paths: map<Digest, FileName>, k: FactKey)
    requires !open || !Polled(k) || k !in gone
    ensures Consistent(es, last, seen, gone, open, paths) <==> Consistent(es, last, seen, gone - {k}, open, paths)
  {
    forall j: FactKey | open && Polled(j)
      ensures RememberedFor(LastFinding(es, j), seen, gone, j)
              <==> RememberedFor(LastFinding(es, j), seen, gone - {k}, j)
    {
    }
  }

  lemma Recall(es: seq<Event>, last: map<ProducerKey, nat>, seen: map<FactKey, Digest>, gone: map<FactKey, string>,
               paths: map<Digest, FileName>, k: FactKey)
    requires Consistent(es, last, seen, gone, true, paths) && Polled(k)
    ensures RememberedFor(LastFinding(es, k), seen, gone, k)
  {
  }

  /** A report on its way into the log. */
  function Bare(report: Report, content: Content, c: Continuity): Event {
    Reported(0, report.producer, report.sequence, report.stopped, report.effectiveAt, content, c,
             Some(Validity(report.effectiveAt, None, EndNotObserved)))
  }

  function Latest(es: seq<Event>, last: map<ProducerKey, nat>, p: ProducerKey): (e: Option<Event>)
    requires Tracked(es, last)
    ensures e.Some? ==> By(e.value, p)
  {
    if p in last then Some(es[last[p]]) else None
  }

  /** A report as it stands in the log when it is new. */
  function Entered(bare: Event, i: nat): Event
    requires bare.Reported?
  {
    bare.(ordinal := i, validity := FreshValidity(bare.stopped, bare.effectiveAt))
  }

  predicate Newer(es: seq<Event>, last: map<ProducerKey, nat>, report: Report)
    requires Tracked(es, last)
  {
    report.producer in last ==> es[last[report.producer]].sequence < report.sequence
  }

  /** The event a report becomes. */
  function NewReport(es: seq<Event>, last: map<ProducerKey, nat>, report: Report, content: Content): Event
    requires Tracked(es, last)
  {
    var e := Bare(report, content, SequenceGap);
    Entered(e.(continuity := ContinuityAfter(Latest(es, last, report.producer), e)), |es|)
  }

  /** The log once a report is entered. */
  function WithReport(es: seq<Event>, last: map<ProducerKey, nat>, report: Report, content: Content): seq<Event>
    requires Tracked(es, last)
  {
    Extended(es, NewReport(es, last, report, content), last)
  }

  /** What the recorder needs to know to enter a report. */
  lemma ReportFits(es: seq<Event>, last: map<ProducerKey, nat>, seen: map<FactKey, Digest>, gone: map<FactKey, string>,
                   paths: map<Digest, FileName>, report: Report, content: Content, e: Event, open: bool)
    requires Consistent(es, last, seen, gone, true, paths)
    requires Refers(Bare(report, content, SequenceGap), paths) && Newer(es, last, report)
    requires e == Bare(report, content, ContinuityAfter(Latest(es, last, report.producer),
                                                        Bare(report, content, SequenceGap)))
    ensures Insertable(es, e, IndexOf(last, report.producer))
    ensures WithReport(es, last, report, content)
            == Inserted(es, Entered(e, |es|), IndexOf(last, report.producer))
    ensures Consistent(Inserted(es, Entered(e, |es|), IndexOf(last, report.producer)), last[report.producer := |es|],
                       seen, gone, open, paths)
  {
    if report.producer in last {
      assert IntervalAt(es, last[report.producer]);
    }
    EnterReport(es, last, seen, gone, paths, NewReport(es, last, report, content), open);
  }

  /** A new report, and the event whose interval it may close. */
  predicate Insertable(es: seq<Event>, e: Event, before: Option<nat>) {
    && e.Reported? && e.validity == FreshValidity(false, e.effectiveAt)
    && (before.Some? ==> before.value < |es| && es[before.value].Reported?
                         && (es[before.value].stopped || es[before.value].validity.Some?)
                         && e.continuity == Follows(es[before.value], e))
  }

  class Recorder {
    var events: seq<Event>
    var seen: map<FactKey, Digest>
    var gone: map<FactKey, string>
    var producers: map<ProducerKey, nat>
    var revision: nat
    var persisted: int
    var dropped: nat
    var messages: seq<Message>
    var closed: bool
    var sealed: bool
    var document: Option<Saved>
    const store: Store

    predicate Open()
      reads this
    {
      !sealed && |events| < MAX_EVENTS
    }

    ghost predicate Valid()
      reads this, store
    {
      ValidWith(gone)
    }

    /** The invariant, with `absent` in place of the remembered absences. */
    ghost predicate ValidWith(absent: map<FactKey, string>)
      reads this, store
    {
      && |events| <= MAX_EVENTS && |messages| <= QUEUE_SIZE
      && (forall i | 0 <= i < |messages| :: FromTopic(messages[i]))
      && Consistent(events, producers, seen, absent, Open(), store.paths)
      && store.Valid()
      && persisted <= revision
      && (persisted == revision ==> document == Some(Saved(events, dropped, sealed)))
    }

    constructor (blobs: Store)
      requires blobs.Valid() && blobs.paths == map[]
      ensures Valid() && store == blobs && events == [] && !sealed && document == None
    {
      events, seen, gone, producers := [], map[], map[], map[];
      revision, persisted, dropped := 0, -1, 0;
      messages, closed, sealed, document := [], false, false, None;
      store := blobs;
    }

    /** Past the end of the queue a message is counted as dropped. */
    method Enqueue(m: Message)
      requires Valid() && FromTopic(m)
      modifies `messages, `dropped, `revision
      ensures Valid()
      ensures closed ==> messages == old(messages) && dropped == old(dropped)
      ensures !closed ==> (messages == old(messages) + [m] && dropped == old(dropped))
                          || (|old(messages)| == QUEUE_SIZE && messages == old(messages) && dropped == old(dropped) + 1)
    {
      if closed {
        return;
      }
      if |messages| < QUEUE_SIZE {
        messages := messages + [m];
      } else {
        dropped, revision := dropped + 1, revision + 1;
      }
    }

    /** Numbers and appends the event, unless the log is sealed or full. */
    method Append(e: Event) returns (entered: bool)
      modifies `events, `dropped, `revision
      ensures entered == old(Open())
      ensures events == if entered then old(events) + [e.(ordinal := |old(events)|)] else old(events)
      ensures revision == if sealed then old(revision) else old(revision) + 1
      ensures dropped == if entered || sealed then old(dropped) else old(dropped) + 1
    {
      if sealed {
        return false;
      }
      if |events| >= MAX_EVENTS {
        dropped, revision := dropped + 1, revision + 1;
        return false;
      }
      events := events + [e.(ordinal := |events|)];
      revision := revision + 1;
      entered := true;
    }

    /** Enters an absence that differs from the remembered one. */
    method EnterAbsence(k: FactKey, reason: string)
      requires Valid() && (k in gone ==> gone[k] != reason)
      modifies `events, `dropped, `revision, `seen, `gone
      ensures Valid()
      ensures events == old(events) + (if old(Open()) then [Missing(|old(events)|, k, reason)] else [])
      ensures old(Open()) ==> LastFinding(events, k) == Some(Lacking(reason))
    {
      var e := Missing(|events|, k, reason);
      if Open() {
        EnterFinding(events, producers, seen, gone, store.paths, e, seen - {k}, gone[k := reason],
                     |events| + 1 < MAX_EVENTS);
      }
      var entered := Append(e);
      if entered {
        gone := gone[k := reason];
        seen := seen - {k};
      }
    }

    method Unavailable(k: FactKey, reason: string)
      requires Valid()
      modifies `events, `dropped, `revision, `seen, `gone
      ensures Valid() && Added(old(events), events, sealed)
      ensures Polled(k) && old(Open()) ==> LastFinding(events, k) == Some(Lacking(reason))
      ensures Polled(k) && old(Open()) && LastFinding(old(events), k) == Some(Lacking(reason)) ==> events == old(events)
    {
      if Open() && Polled(k) {
        Recall(events, producers, seen, gone, store.paths, k);
      }
      if k in gone && gone[k] == reason {
        return;
      }
      EnterAbsence(k, reason);
    }

    /** Stores the bytes; the log is untouched. */
    method Keep(data: seq<Byte>, name: string, suffix: string) returns (r: Result<Content, string>)
      requires Valid()
      modifies store
      ensures Valid() && Extends(old(store.paths), store.paths)
      ensures r.Ok? ==> r.value == Content(r.value.path, Sha(data), |data|)
                        && Sha(data) in store.paths && store.paths[Sha(data)] == r.value.path
    {
      ghost var before := store.paths;
      r := store.Put(data, name, suffix);
      StoreGrows(events, producers, seen, gone, Open(), before, store.paths);
    }

    /** Enters a stored snapshot that differs from the remembered one. */
    method Enter(k: FactKey, content: Content) returns (entered: bool)
      requires Valid() && Refers(Observed(0, k, content), store.paths)
      requires k in seen ==> seen[k] != content.digest
      modifies `events, `dropped, `revision, `seen
      ensures ValidWith(gone - {k}) && (entered || Valid()) && entered == old(Open())
      ensures events == old(events) + (if entered then [Observed(|old(events)|, k, content)] else [])
      ensures entered ==> LastFinding(events, k) == Some(Found(content.digest))
    {
      var e := Observed(|events|, k, content);
      if Open() {
        EnterFinding(events, producers, seen, gone, store.paths, e, seen[k := content.digest], gone - {k},
                     |events| + 1 < MAX_EVENTS);
      } else {
        ForgetAbsence(events, producers, seen, gone, Open(), store.paths, k);
      }
      entered := Append(e);
      if entered {
        seen := seen[k := content.digest];
      }
    }

    /** Logs a snapshot unless it is the remembered one. A remembered absence is
        left for the caller to clear. */
    method Observe(k: FactKey, data: seq<Byte>, suffix: string) returns (r: Result<bool, string>)
      requires Valid()
      modifies `events, `dropped, `revision, `seen, store
      ensures r.Ok? ==> ValidWith(gone - {k})
      ensures r != Ok(true) ==> Valid() && events == old(events)
      ensures Added(old(events), events, sealed)
      ensures r.Ok? && Polled(k) && old(Open()) ==> LastFinding(events, k) == Some(Found(Sha(data)))
      ensures r == Ok(true) && Polled(k) ==> LastFinding(old(events), k) != Some(Found(Sha(data)))
    {
      if Open() && Polled(k) {
        Recall(events, producers, seen, gone, store.paths, k);
      }
      if k in seen && seen[k] == Sha(data) {
        ForgetAbsence(events, producers, seen, gone, Open(), store.paths, k);
        return Ok(false);
      }
      var content := Keep(data, k.kind + "-" + k.source, suffix);
      if content.Err? {
        return Err(content.reason);
      }
      var entered := Enter(k, content.value);
      r := Ok(entered);
    }

    /** One poll of a declared file. `finding` is what this poll came to. */
    method PollFile(k: FactKey, read: Result<seq<Byte>, string>, suffix: string) returns (finding: Finding)
      requires Valid() && Polled(k)
      modifies `events, `dropped, `revision, `seen, `gone, store
      ensures Valid() && Added(old(events), events, sealed)
      ensures read.Err? ==> finding == Lacking(read.reason)
      ensures read.Ok? && finding.Found? ==> finding.digest == Sha(read.value)
      ensures old(Open()) ==> LastFinding(events, k) == Some(finding)
      ensures LastFinding(old(events), k) == Some(finding) && old(Open()) ==> events == old(events)
    {
      if read.Err? {
        Unavailable(k, read.reason);
        return Lacking(read.reason);
      }
      var r := Observe(k, read.value, suffix);
      if r.Err? {
        Unavailable(k, r.reason);
        return Lacking(r.reason);
      }
      if r.value {
        gone := gone - {k};
      }
      finding := Found(Sha(read.value));
    }

    /** One poll of a declared parameter: any failure is logged under `failure`. */
    method PollParameter(k: FactKey, read: Result<seq<Byte>, string>, failure: string) returns (finding: Finding)
      requires Valid() && Polled(k)
      modifies `events, `dropped, `revision, `seen, `gone, store
      ensures Valid() && Added(old(events), events, sealed)
      ensures read.Err? ==> finding == Lacking(read.reason)
      ensures read.Ok? && finding.Found? ==> finding.digest == Sha(read.value)
      ensures old(Open()) ==> LastFinding(events, k) == Some(finding)
      ensures LastFinding(old(events), k) == Some(finding) && old(Open()) ==> events == old(events)
    {
      if read.Err? {
        Unavailable(k, read.reason);
        return Lacking(read.reason);
      }
      var r := Observe(k, read.value, ".json");
      if r.Err? {
        Unavailable(k, failure);
        return Lacking(failure);
      }
      gone := gone - {k};
      finding := Found(Sha(read.value));
    }

    /** How a report follows what the log holds of its producer. */
    method Judge(e: Event, before: Option<Event>) returns (c: Continuity)
      requires e.Reported? && (before.Some? ==> before.value.Reported?)
      ensures c == ContinuityAfter(before, e)
    {
      c := if e.sequence == 1 then FirstObserved else PriorUnobserved;
      if before.Some? {
        var prior := before.value;
        c := SequenceGap;
        if e.sequence == prior.sequence + 1 {
          c := Consecutive;
          if e.effectiveAt.monotonic < prior.effectiveAt.monotonic {
            c := ClockRegression;
          } else if e.effectiveAt.ros < prior.effectiveAt.ros {
            c := RosRegression;
          }
        }
      }
    }

    /** Edits, in place, the interval that the last event closes. */
    method CloseInterval(i: nat)
      requires i < |events| - 1 && events[i].Reported? && events[i].validity.Some?
      requires events[|events| - 1].Reported?
      requires events[|events| - 1].continuity == Follows(events[i], events[|events| - 1])
      modifies `events
      ensures events == old(events)[i := Closed(old(events)[i], old(events)[|old(events)| - 1])]
    {
      var next, was := events[|events| - 1], events[i].validity.value;
      if next.continuity == Consecutive {
        was := was.(until := Some(next.effectiveAt));
        was := was.(reason := EndedBy(next.stopped));
      } else {
        was := was.(reason := Broken(next.continuity));
      }
      events := events[i := events[i].(validity := Some(was))];
    }

    /** Appends a report and, in place, closes the interval of the event before it. */
    method Insert(e: Event, before: Option<nat>) returns (entered: bool)
      requires Insertable(events, e, before)
      modifies `events, `dropped, `revision
      ensures entered == old(Open())
      ensures revision == if sealed then old(revision) else old(revision) + 1
      ensures dropped == if entered || sealed then old(dropped) else old(dropped) + 1
      ensures events == if entered then Inserted(old(events), Entered(e, |old(events)|), before) else old(events)
    {
      entered := Append(e);
      if !entered {
        return;
      }
      if before.Some? && !events[before.value].stopped {
        CloseInterval(before.value);
      }
      if e.stopped {
        events := events[|events| - 1 := events[|events| - 1].(validity := None)];
      }
    }

    /** A newer report while the log is open. */
    method EnterOpen(report: Report, content: Content, e: Event)
      requires Valid() && Refers(Bare(report, content, SequenceGap), store.paths) && Newer(events, producers, report)
      requires Open() && e == Bare(report, content, ContinuityAfter(Latest(events, producers, report.producer),
                                                                    Bare(report, content, SequenceGap)))
      modifies `events, `dropped, `revision, `producers
      ensures Valid() && events == WithReport(old(events), old(producers), report, content)
    {
      ReportFits(events, producers, seen, gone, store.paths, report, content, e, |events| + 1 < MAX_EVENTS);
      var entered := Insert(e, IndexOf(producers, report.producer));
      producers := producers[report.producer := |events| - 1];
    }

    method EnterReported(report: Report, content: Content) returns (entered: bool)
      requires Valid() && Refers(Bare(report, content, SequenceGap), store.paths) && Newer(events, producers, report)
      modifies `events, `dropped, `revision, `producers
      ensures Valid() && entered == old(Open())
      ensures !entered ==> events == old(events)
      ensures entered ==> events == WithReport(old(events), old(producers), report, content)
    {
      var bare := Bare(report, content, SequenceGap);
      var c := Judge(bare, Latest(events, producers, report.producer));
      var e := bare.(continuity := c);
      if Open() {
        EnterOpen(report, content, e);
        entered := true;
      } else {
        entered := Append(e);
      }
    }

    /** A report whose bytes are stored. The same report again is ignored; an older
        or different one with a number already used is refused. */
    method Admit(report: Report, content: Content) returns (r: Result<bool, string>)
      requires Valid() && Refers(Bare(report, content, SequenceGap), store.paths)
      modifies `events, `dropped, `revision, `producers
      ensures Valid()
      ensures r == Ok(true) <==> old(Open()) && Newer(old(events), old(producers), report)
      ensures events == if r == Ok(true) then WithReport(old(events), old(producers), report, content)
                        else old(events)
      ensures r.Err? ==> !Newer(old(events), old(producers), report)
    {
      if report.producer in producers {
        var previous := events[producers[report.producer]];
        if report.sequence == previous.sequence && content.digest == previous.content.digest {
          return Ok(false);
        }
        if report.sequence <= previous.sequence {
          return Err("producer-sequence-replay-or-conflict");
        }
      }
      var entered := EnterReported(report, content);
      r := Ok(entered);
    }

    /** One message on the facts topic. A report is entered exactly when it is well
        formed, its bytes could be stored, it is newer than the producer's last
        one, and the log is open. */
    method Produce(text: seq<Byte>, parsed: Result<Report, string>)
      returns (r: Result<bool, string>, stored: Result<Content, string>)
      requires Valid()
      modifies `events, `dropped, `revision, `producers, store
      ensures Valid()
      ensures stored.Ok? ==> parsed.Ok? && stored.value.digest == Sha(text) && stored.value.size == |text| <= MAX_BYTES
      ensures r == Ok(true) <==> stored.Ok? && old(Open()) && Newer(old(events), old(producers), parsed.value)
      ensures events == if r == Ok(true) then WithReport(old(events), old(producers), parsed.value, stored.value)
                        else old(events)
    {
      stored := Err("fact-payload-too-large");
      if |text| > MAX_BYTES {
        return Err(stored.reason), stored;
      }
      if parsed.Err? {
        return Err(parsed.reason), Err(parsed.reason);
      }
      stored := Keep(text, "application-" + parsed.value.producer.kind, ".json");
      if stored.Err? {
        return Err(stored.reason), stored;
      }
      r := Admit(parsed.value, stored.value);
    }

    /** At most one queue's worth of messages; a failing one is logged as an absence. */
    method ProcessMessages()
      requires Valid()
      modifies this, store
      ensures Valid() && closed == old(closed) && sealed == old(sealed)
      ensures |old(messages)| <= QUEUE_SIZE && messages == []
      ensures sealed ==> events == old(events)
      ensures |old(events)| <= |events| <= |old(events)| + |old(messages)|
    {
      var budget := QUEUE_SIZE;
      while budget > 0 && messages != []
        invariant |messages| <= budget
        invariant Valid() && closed == old(closed) && sealed == old(sealed)
        invariant sealed ==> events == old(events)
        invariant |old(events)| <= |events| <= |old(events)| + |old(messages)| - |messages|
        decreases |messages|
      {
        var m := messages[0];
        messages := messages[1..];
        Handle(m);
        budget := budget - 1;
      }
    }

    method Handle(m: Message)
      requires Valid() && FromTopic(m)
      modifies `events, `dropped, `revision, `producers, `seen, `gone, store
      ensures Valid() && (sealed ==> events == old(events))
      ensures |old(events)| <= |events| <= |old(events)| + 1
    {
      match m
      case FromProducer(source, text, parsed) =>
        var r, stored := Produce(text, parsed);
        if r.Err? {
          Unavailable(FactKey("observer", source), r.reason);
        }
      case Notice(source, reason) =>
        Unavailable(FactKey("observer", source), reason);
      case Sample(kind, source, encoded) =>
        if encoded.Err? {
          Unavailable(FactKey("observer", source), encoded.reason);
          return;
        }
        var k := FactKey(kind, source);
        var r := Observe(k, encoded.value, ".json");
        if r.Err? {
          Unavailable(FactKey("observer", source), r.reason);
        } else {
          ForgetAbsence(events, producers, seen, gone, Open(), store.paths, k);
        }
    }

    /** Copies the state for the manifest, unless the copy there is current. */
    method Snapshot() returns (changed: bool)
      requires Valid()
      modifies `persisted, `document
      ensures Valid() && changed == (old(persisted) != revision)
      ensures document == Some(Saved(events, dropped, sealed)) && persisted == revision
    {
      if persisted == revision {
        return false;
      }
      document := Some(Saved(events, dropped, sealed));
      persisted := revision;
      changed := true;
    }

    method Finish()
      requires Valid()
      modifies `closed, `sealed, `revision, `persisted, `document
      ensures Valid() && closed && sealed
      ensures document == Some(Saved(events, dropped, true))
    {
      closed := true;
      sealed := true;
      revision := revision + 1;
      var changed := Snapshot();
    }
  }
}
