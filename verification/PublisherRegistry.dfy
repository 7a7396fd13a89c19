/** The cache of native publishers shared by concurrent publish calls. Every
    method is one critical section under the registry mutex, so any sequence of
    calls is an interleaving of threads; Valid() is what each of them keeps. */
module PublisherRegistry {
  import opened Basics

  datatype ErrorClass =
    | Permanent | Transient | Uncertain | Rejected | ResourceExhausted | CancelledClass | DeadlineClass

  datatype Config = Config(messageType: string, latch: bool, queueSize: nat)

  datatype Binding = Unbound | Bound | Changed | Unavailable

  /** A cached publisher. It stays alive while anybody refers to it, whether or
      not the cache still does. */
  class Entry {
    const topic: string
    const config: Config
    var activeCalls: nat
    var committed: bool

    constructor (topic: string, config: Config)
      ensures this.topic == topic && this.config == config && activeCalls == 1 && !committed
    {
      this.topic, this.config, activeCalls, committed := topic, config, 1, false;
    }
  }

  datatype Lease = Lease(topic: string, config: Config, entry: Entry)

  function Holders(leases: map<nat, Lease>, e: Entry): set<nat> {
    set c | c in leases && leases[c].entry == e
  }

  lemma LeaseAdded(leases: map<nat, Lease>, c: nat, lease: Lease, e: Entry)
    requires c !in leases
    ensures |Holders(leases[c := lease], e)| == |Holders(leases, e)| + (if lease.entry == e then 1 else 0)
  {
    if lease.entry == e {
      assert Holders(leases[c := lease], e) == Holders(leases, e) + {c};
    } else {
      assert Holders(leases[c := lease], e) == Holders(leases, e);
    }
  }

  lemma LeaseRemoved(leases: map<nat, Lease>, c: nat, e: Entry)
    requires c in leases
    ensures |Holders(leases - {c}, e)| == |Holders(leases, e)| - (if leases[c].entry == e then 1 else 0)
  {
    if leases[c].entry == e {
      assert Holders(leases - {c}, e) == Holders(leases, e) - {c};
    } else {
      assert Holders(leases - {c}, e) == Holders(leases, e);
    }
  }

  class Registry {
    const maximum: nat
    var entries: map<string, Entry>
    var masterGeneration: int
    /** What each publish call that has not released yet holds in its own frame. */
    var leases: map<nat, Lease>
    /** Every entry ever created. */
    ghost var known: set<Entry>

    /** The cache stays within its capacity, every lease agrees with its entry in
        topic, type, latch and queue size, and the count of an entry is the
        number of its outstanding leases. */
    ghost predicate Counted()
      reads this, known
    {
      && |entries| <= maximum
      && (forall t | t in entries :: entries[t] in known && entries[t].topic == t)
      && (forall c | c in leases ::
            leases[c].entry in known && leases[c].topic == leases[c].entry.topic
            && leases[c].config == leases[c].entry.config)
      && (forall e | e in known :: e.activeCalls == |Holders(leases, e)|)
    }

    /** And every cached entry is leased or committed. */
    ghost predicate Valid()
      reads this, known
    {
      Counted() && forall t | t in entries :: entries[t].activeCalls > 0 || entries[t].committed
    }

    constructor (maximum: nat)
      requires maximum > 0
      ensures Valid() && this.maximum == maximum && entries == map[] && leases == map[] && masterGeneration == 0
      ensures known == {}
    {
      this.maximum, entries, masterGeneration, leases, known := maximum, map[], 0, map[], {};
    }

    /** First call on a topic: advertise and insert a new entry. */
    method Create(call: nat, topic: string, config: Config) returns (entry: Entry)
      requires Valid() && call !in leases && topic !in entries && |entries| < maximum
      modifies this
      ensures Valid() && masterGeneration == old(masterGeneration)
      ensures fresh(entry) && known == old(known) + {entry}
      ensures entries == old(entries)[topic := entry]
      ensures leases == old(leases)[call := Lease(topic, config, entry)]
    {
      entry := new Entry(topic, config);
      var lease := Lease(topic, config, entry);
      assert Holders(leases, entry) == {};
      forall e | e in known + {entry}
        ensures |Holders(leases[call := lease], e)| == |Holders(leases, e)| + (if e == entry then 1 else 0)
      {
        LeaseAdded(leases, call, lease, e);
      }
      entries := entries[topic := entry];
      leases := leases[call := lease];
      known := known + {entry};
    }

    /** Later call on a topic: share the cached entry. */
    method Share(call: nat, topic: string) returns (entry: Entry)
      requires Valid() && call !in leases && topic in entries
      modifies `leases, entries[topic]
      ensures Valid() && entry == entries[topic] && entry.committed == old(entries[topic].committed)
      ensures leases == old(leases)[call := Lease(topic, entry.config, entry)]
    {
      entry := entries[topic];
      var lease := Lease(topic, entry.config, entry);
      forall e | e in known
        ensures |Holders(leases[call := lease], e)| == |Holders(leases, e)| + (if e == entry then 1 else 0)
      {
        LeaseAdded(leases, call, lease, e);
      }
      entry.activeCalls := entry.activeCalls + 1;
      leases := leases[call := lease];
    }

    /** The critical section of publish: find or create the entry and count this
        call in. `advertised` is whether the native advertise succeeded. */
    method Acquire(call: nat, topic: string, config: Config, advertised: bool) returns (r: Result<Entry, ErrorClass>)
      requires Valid() && call !in leases
      modifies this, known
      ensures Valid() && masterGeneration == old(masterGeneration)
      ensures old(known) <= known && fresh(known - old(known))
      ensures forall e | e in old(known) :: e.committed == old(e.committed)
      ensures r.Ok? ==>
                && leases == old(leases)[call := Lease(topic, config, r.value)]
                && entries == old(entries)[topic := r.value]
                && (topic in old(entries) ==> r.value == old(entries)[topic])
      ensures r.Err? ==> entries == old(entries) && leases == old(leases) && known == old(known)
      ensures r == Err(ResourceExhausted) <==> topic !in old(entries) && |old(entries)| >= maximum
      ensures r == Err(Permanent) <==> topic in old(entries) && old(entries)[topic].config != config
      ensures r == Err(Transient) <==> topic !in old(entries) && |old(entries)| < maximum && !advertised
    {
      if topic !in entries {
        if |entries| >= maximum {
          return Err(ResourceExhausted);
        }
        if !advertised {
          return Err(Transient);
        }
        var created := Create(call, topic, config);
        return Ok(created);
      }
      if entries[topic].config != config {
        return Err(Permanent);
      }
      var shared := Share(call, topic);
      assert entries == old(entries)[topic := shared];
      return Ok(shared);
    }

    /** release: the guard against a count of zero never fires. The entry leaves the
        cache only when the cache still refers to this very entry, nobody else
        holds it, and nothing was ever dispatched through it; a newer entry
        for the topic is never touched. */
    method Release(call: nat, dispatched: bool)
      requires Valid() && call in leases
      modifies `entries, `leases, leases[call].entry
      ensures Valid()
      ensures leases == old(leases) - {call}
      ensures old(leases[call].entry.activeCalls) > 0
      ensures var lease := old(leases)[call];
              && lease.entry.committed == (old(leases[call].entry.committed) || dispatched)
              && entries == if lease.topic in old(entries) && old(entries)[lease.topic] == lease.entry
                               && Holders(old(leases), lease.entry) == {call} && !lease.entry.committed
                            then old(entries) - {lease.topic} else old(entries)
    {
      var lease := leases[call];
      var entry := lease.entry;
      LastHolder(leases, call);
      CountOut(call, dispatched);
      if lease.topic in entries && entries[lease.topic] == entry && entry.activeCalls == 0 && !entry.committed {
        Evict(lease.topic);
      }
    }

    method Evict(topic: string)
      requires Counted() && topic in entries
      modifies `entries
      ensures Counted() && entries == old(entries) - {topic}
    {
      assert (entries - {topic}).Keys == entries.Keys - {topic};
      entries := entries - {topic};
    }

    method CountOut(call: nat, dispatched: bool)
      requires Counted() && call in leases
      modifies `leases, leases[call].entry
      ensures Counted() && leases == old(leases) - {call}
      ensures old(leases[call].entry.activeCalls) > 0
      ensures old(leases)[call].entry.activeCalls == old(leases[call].entry.activeCalls) - 1
      ensures old(leases)[call].entry.committed == (old(leases[call].entry.committed) || dispatched)
    {
      var entry := leases[call].entry;
      LastHolder(leases, call);
      forall e | e in known
        ensures |Holders(leases - {call}, e)| == |Holders(leases, e)| - (if e == entry then 1 else 0)
      {
        LeaseRemoved(leases, call, e);
      }
      if entry.activeCalls > 0 {
        entry.activeCalls := entry.activeCalls - 1;
      }
      entry.committed := entry.committed || dispatched;
      leases := leases - {call};
    }

    /** stop of the capability: the cache is emptied while leases may be out. */
    method Clear()
      requires Valid()
      modifies `entries
      ensures Valid() && entries == map[]
    {
      entries := map[];
    }

    /** refreshMasterGeneration: binds once; a different master empties the cache and
        refuses dispatch. Err is a provider that threw. */
    method Refresh(current: Result<int, ErrorClass>) returns (r: Result<(), ErrorClass>)
      requires Valid()
      modifies `entries, `masterGeneration
      ensures Valid()
      ensures r.Ok? <==> current.Ok? && current.value > 0 && (old(masterGeneration) in {0, current.value})
      ensures r.Ok? ==> masterGeneration == current.value && entries == old(entries)
      ensures r.Err? ==> r.reason == Transient && masterGeneration == old(masterGeneration)
      ensures r.Err? ==> entries == if current.Ok? && current.value > 0 then map[] else old(entries)
    {
      if current.Err? || current.value <= 0 {
        return Err(Transient);
      }
      if masterGeneration == 0 {
        masterGeneration := current.value;
        return Ok(());
      }
      if masterGeneration != current.value {
        entries := map[];
        return Err(Transient);
      }
      return Ok(());
    }

    /** probeMasterBinding: the same one-time binding, without dropping anything. */
    method Probe(current: Result<int, ErrorClass>) returns (b: Binding)
      requires Valid()
      modifies `masterGeneration
      ensures Valid()
      ensures old(masterGeneration) != 0 ==> masterGeneration == old(masterGeneration)
      ensures b == if current.Err? || current.value <= 0 then (if masterGeneration == 0 then Unbound else Unavailable)
                   else if masterGeneration == current.value then Bound else Changed
    {
      if current.Err? || current.value <= 0 {
        return if masterGeneration == 0 then Unbound else Unavailable;
      }
      if masterGeneration == 0 {
        masterGeneration := current.value;
        return Bound;
      }
      return if masterGeneration != current.value then Changed else Bound;
    }
  }

  lemma LastHolder(leases: map<nat, Lease>, call: nat)
    requires call in leases
    ensures |Holders(leases, leases[call].entry)| >= 1
    ensures |Holders(leases, leases[call].entry)| == 1 <==> Holders(leases, leases[call].entry) == {call}
  {
    var h := Holders(leases, leases[call].entry);
    assert call in h;
    assert h == {call} + (h - {call});
  }
}
