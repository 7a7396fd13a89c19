/** The recorder process working on its directory: manifest writes, the move of
    one closed bag, and finalization. The process ends after `steps` system calls,
    and before each call the next entry of `arrivals` holds the files other
    processes have created meanwhile. */
module ArchiveFinalizer {
  import opened Basics
  import opened ArchiveNames
  import opened ArchiveProtocol
  import opened ArchiveState

  datatype Move = MoveCrashed | MoveRefused | Moved

  /** How a run of finalization ends: cut off by a crash, an exception outside the
      guarded part, a manifest marked failed, or a finalized one. */
  datatype Exit = Crashed | Raised | MarkedFailed | Done

  predicate Kept(a: Dir, b: Dir) {
    forall n | n in a :: n in b && b[n] == a[n]
  }

  predicate KeptBut(a: Dir, b: Dir, name: Name) {
    forall n | n in a && n != name :: n in b && b[n] == a[n]
  }

  predicate OnlyNew(a: Dir, b: Dir, name: Name) {
    forall n | n in b && n != name :: n in a
  }

  /** Entries listed so far: index, issued name and size of each moved bag. */
  ghost predicate Listed(segs: seq<Segment>, upto: nat, listed: map<nat, BagFile>)
    requires upto <= |segs|
  {
    && (forall k | 0 <= k < upto ::
          segs[k].index in listed && listed[segs[k].index] == BagFile(segs[k].name, segs[k].node.size))
    && (forall i | i in listed :: exists k :: 0 <= k < upto && segs[k].index == i)
  }

  ghost predicate InPlace(segs: seq<Segment>, upto: nat, live: Dir)
    requires upto <= |segs|
  {
    forall k | 0 <= k < upto :: segs[k].name in live && live[segs[k].name] == segs[k].node
  }

  ghost predicate Vacated(segs: seq<Segment>, upto: nat, live: Dir)
    requires upto <= |segs|
  {
    forall k | 0 <= k < upto :: segs[k].source !in live
  }

  lemma NotTaken(segs: seq<Segment>, i: nat, listed: map<nat, BagFile>)
    requires WellPinned(segs) && i < |segs| && Listed(segs, i, listed)
    ensures segs[i].index !in listed
    ensures segs[i].source == NativeBag(segs[i].index) && segs[i].name == IssuedName(segs[i].index, |segs|)
  {
  }

  lemma ListedStep(segs: seq<Segment>, i: nat, before: map<nat, BagFile>, after: map<nat, BagFile>)
    requires WellPinned(segs) && i < |segs| && Listed(segs, i, before)
    requires after == before[segs[i].index := BagFile(segs[i].name, segs[i].node.size)]
    ensures Listed(segs, i + 1, after)
  {
    forall j | j in after
      ensures exists k :: 0 <= k < i + 1 && segs[k].index == j
    {
      if j in before {
        var k :| 0 <= k < i && segs[k].index == j;
        assert 0 <= k < i + 1 && segs[k].index == j;
      } else {
        assert segs[i].index == j;
      }
    }
  }

  lemma InPlaceStep(segs: seq<Segment>, i: nat, before: Dir, after: Dir)
    requires WellPinned(segs) && i < |segs| && InPlace(segs, i, before) && KeptBut(before, after, segs[i].source)
    requires segs[i].name in after && after[segs[i].name] == segs[i].node
    ensures InPlace(segs, i + 1, after)
  {
    forall k | 0 <= k < i
      ensures segs[k].name in after && after[segs[k].name] == segs[k].node
    {
      PinsApart(segs, segs[i], segs[k]);
    }
  }

  lemma VacatedStep(segs: seq<Segment>, i: nat, before: Dir, after: Dir)
    requires WellPinned(segs) && i < |segs| && Vacated(segs, i, before) && OnlyNew(before, after, segs[i].name)
    requires segs[i].source !in after
    ensures Vacated(segs, i + 1, after)
  {
    forall k | 0 <= k < i
      ensures segs[k].source !in after
    {
      PinsApart(segs, segs[k], segs[i]);
    }
  }

  // ---- Scanning ----------------------------------------------------------

  function WithNames(raw: seq<Segment>, count: nat): (segs: seq<Segment>)
    ensures |segs| == |raw|
    ensures forall k | 0 <= k < |raw| :: segs[k] == raw[k].(name := IssuedName(raw[k].index, count))
  {
    if raw == [] then [] else [raw[0].(name := IssuedName(raw[0].index, count))] + WithNames(raw[1..], count)
  }

  /** The scan that pins: every closed native bag, once, with its inode; None when
      a native name is not a plain file. */
  method ScanNatives(live: Dir) returns (segs: Option<seq<Segment>>)
    ensures segs.Some? ==>
              && WellPinned(segs.value)
              && (forall k | 0 <= k < |segs.value| ::
                    segs.value[k].source in live && live[segs.value[k].source] == segs.value[k].node)
              && (forall n | n in live && n.NativeBag? ::
                    exists k :: 0 <= k < |segs.value| && segs.value[k].source == n)
    ensures segs.None? ==> exists n | n in live :: n.NativeBag? && !live[n].regular
  {
    var raw: seq<Segment> := [];
    var rest := live.Keys;
    while rest != {}
      invariant rest <= live.Keys
      invariant forall k | 0 <= k < |raw| ::
                  && raw[k].source == NativeBag(raw[k].index) && raw[k].source in live && raw[k].source !in rest
                  && live[raw[k].source] == raw[k].node && raw[k].node.regular
      invariant forall i, j | 0 <= i < j < |raw| :: raw[i].index != raw[j].index
      invariant forall n | n in live && n !in rest && n.NativeBag? :: exists k :: 0 <= k < |raw| && raw[k].source == n
      decreases rest
    {
      var n :| n in rest;
      rest := rest - {n};
      if n.NativeBag? {
        if !live[n].regular {
          return None;
        }
        ghost var was := raw;
        raw := raw + [Segment(n, n, n.index, live[n])];
        assert raw[|was|].source == n;
        assert forall k | 0 <= k < |was| :: raw[k] == was[k];
      }
    }
    segs := Some(WithNames(raw, |raw|));
    assert forall k | 0 <= k < |raw| :: segs.value[k].source == raw[k].source;
  }

  lemma {:induction false} DistinctCount(segs: seq<Segment>)
    requires forall i, j | 0 <= i < j < |segs| :: segs[i].index != segs[j].index
    ensures |set k | 0 <= k < |segs| :: segs[k].index| == |segs|
  {
    if segs != [] {
      var front := segs[..|segs| - 1];
      DistinctCount(front);
      var a, b := set k | 0 <= k < |front| :: front[k].index, set k | 0 <= k < |segs| :: segs[k].index;
      assert forall k | 0 <= k < |front| :: front[k] == segs[k];
      assert b == a + {segs[|segs| - 1].index};
      assert segs[|segs| - 1].index !in a;
    }
  }

  lemma PinnedIsNative(live: Dir, natives: Natives, seg: Segment)
    requires Untouched(live, natives) && seg.source == NativeBag(seg.index)
    requires seg.source in live && live[seg.source] == seg.node
    ensures seg.index in natives && natives[seg.index] == seg.node
  {
    assert IsClosed(seg.source);
  }

  /** Scanning an untouched directory pins exactly its native bags. */
  lemma ScanMatches(live: Dir, natives: Natives, segs: seq<Segment>)
    requires Untouched(live, natives) && WellPinned(segs)
    requires forall k | 0 <= k < |segs| :: segs[k].source in live && live[segs[k].source] == segs[k].node
    requires forall n | n in live && n.NativeBag? :: exists k :: 0 <= k < |segs| && segs[k].source == n
    ensures Matches(segs, natives)
  {
    forall k | 0 <= k < |segs|
      ensures segs[k].index in natives && natives[segs[k].index] == segs[k].node
    {
      PinnedIsNative(live, natives, segs[k]);
    }
    forall i | i in natives
      ensures exists k :: 0 <= k < |segs| && segs[k].index == i
    {
      assert NativeBag(i) in live;
      var k :| 0 <= k < |segs| && segs[k].source == NativeBag(i);
    }
    DistinctCount(segs);
    SameIndices(segs, natives.Keys);
  }

  lemma SameIndices(segs: seq<Segment>, indices: set<nat>)
    requires forall k | 0 <= k < |segs| :: segs[k].index in indices
    requires forall i | i in indices :: exists k :: 0 <= k < |segs| && segs[k].index == i
    ensures (set k | 0 <= k < |segs| :: segs[k].index) == indices
  {
  }

  // ---- Inventory ---------------------------------------------------------

  predicate IsIssuedIn(listed: map<nat, BagFile>, n: Name) {
    exists i | i in listed :: listed[i].name == n
  }

  /** Every entry of the directory that belongs to the record is either listed
      as finalized or as partial, with nothing else in between. */
  ghost predicate Inventoried(live: Dir, listed: map<nat, BagFile>, partial: map<Name, nat>) {
    && (forall n | n in live && IsClosed(n) :: IsIssuedIn(listed, n))
    && (forall n | n in live && n.ActiveBag? :: n in partial && partial[n] == live[n].size)
    && (forall n | n in partial :: n in live && n.ActiveBag?)
  }

  /** The check after the moves: bags still being written are listed as partial,
      and a closed bag nobody issued is refused. */
  method Inventory(live: Dir, listed: map<nat, BagFile>) returns (ok: bool, partial: map<Name, nat>)
    ensures ok ==> Inventoried(live, listed, partial)
    ensures !ok ==>
              exists n | n in live :: !n.Elsewhere? && (!live[n].regular || (IsClosed(n) && !IsIssuedIn(listed, n)))
  {
    partial := map[];
    var rest := live.Keys;
    while rest != {}
      invariant rest <= live.Keys
      invariant forall n | n in live && n !in rest && IsClosed(n) :: IsIssuedIn(listed, n)
      invariant forall n | n in live && n !in rest && n.ActiveBag? :: n in partial && partial[n] == live[n].size
      invariant forall n | n in partial :: n in live && n.ActiveBag? && n !in rest
      decreases rest
    {
      var n :| n in rest;
      rest := rest - {n};
      if !n.Elsewhere? {
        if !live[n].regular {
          return false, partial;
        }
        if n.ActiveBag? {
          partial := partial[n := live[n].size];
        } else if !IsIssuedIn(listed, n) {
          return false, partial;
        }
      }
    }
    return true, partial;
  }

  /** Undisturbed, the inventory finds nothing to refuse. */
  lemma InventoryPasses(live: Dir, natives: Natives, segs: seq<Segment>, listed: map<nat, BagFile>, n: Name)
    requires Owned(live, natives) && Matches(segs, natives) && Listed(segs, |segs|, listed)
    requires Vacated(segs, |segs|, live) && n in live && !n.Elsewhere?
    ensures live[n].regular && (IsClosed(n) ==> IsIssuedIn(listed, n))
  {
    if IsClosed(n) && !IsNativeOf(natives, n, live[n]) {
      var i :| i in natives && n == IssuedName(i, |natives|) && natives[i] == live[n];
      var k :| 0 <= k < |segs| && segs[k].index == i;
      assert listed[segs[k].index].name == n;
    }
  }

  /** The listed bags are those of `natives`. */
  lemma ListsNatives(natives: Natives, segs: seq<Segment>, d: Doc)
    requires Matches(segs, natives) && Listed(segs, |segs|, d.finalized)
    ensures Lists(d, natives)
  {
    forall i | i in natives
      ensures i in d.finalized && d.finalized[i] == BagFile(IssuedName(i, |natives|), natives[i].size)
    {
      var k :| 0 <= k < |segs| && segs[k].index == i;
    }
    assert d.finalized.Keys == natives.Keys;
  }

  /** The listed, moved and inventoried directory is the archive of `natives`. */
  lemma InventoryIsArchive(live: Dir, natives: Natives, d: Doc)
    requires Owned(live, natives) && d.segments.Some? && Matches(d.segments.value, natives)
    requires var segs := d.segments.value;
             Listed(segs, |segs|, d.finalized) && InPlace(segs, |segs|, live) && Vacated(segs, |segs|, live)
    requires Inventoried(live, d.finalized, d.partial)
    ensures Archived(live, live, d, natives)
  {
    var segs := d.segments.value;
    ListsNatives(natives, segs, d);
    forall i | i in natives
      ensures NativeBag(i) !in live
      ensures IssuedName(i, |natives|) in live && live[IssuedName(i, |natives|)] == natives[i]
    {
      var k :| 0 <= k < |segs| && segs[k].index == i;
    }
  }

  /** The manifest a start takes up again. */
  predicate Resumes(recordId: string, d: Doc) {
    d.recordId == recordId && d.ended && d.phase in {Pending, Failed}
  }

  class Recorder {
    const recordId: string
    var fs: Fs
    var steps: nat
    var arrivals: seq<Dir>
    ghost var origin: Fs
    ghost var history: seq<Action>
    ghost var base: Fs
    ghost var mark: nat

    /** Everything done since `origin` is a run of the protocol; `base` is the state
        `mark` actions into it. */
    ghost predicate Valid()
      reads this
    {
      && Inv(origin) && Inv(fs) && Runs(origin, history, fs)
      && mark <= |history| && Inv(base) && Runs(base, history[mark..], fs)
    }

    constructor (recordId: string, fs: Fs, steps: nat, arrivals: seq<Dir>)
      requires Inv(fs)
      ensures Valid() && this.recordId == recordId && this.fs == fs
      ensures this.steps == steps && this.arrivals == arrivals && origin == fs && history == []
    {
      this.recordId, this.fs, this.origin, this.base := recordId, fs, fs, fs;
      this.steps, this.arrivals, this.history, this.mark := steps, arrivals, [], 0;
    }

    method Do(a: Action)
      requires Valid() && Enabled(fs, a)
      modifies `fs, `history
      ensures Valid() && fs == Apply(old(fs), a) && history == old(history) + [a]
    {
      KeepInv(fs, a);
      RunsAppend(origin, history, fs, a);
      RunsAppend(base, history[mark..], fs, a);
      assert (history + [a])[mark..] == history[mark..] + [a];
      fs := Apply(fs, a);
      history := history + [a];
    }

    ghost method Checkpoint()
      requires Valid()
      modifies `base, `mark
      ensures Valid() && base == fs && mark == |history|
    {
      base, mark := fs, |history|;
    }

    /** The instant before a system call: the machine may fail, and foreign
        files may have appeared. */
    method Tick() returns (alive: bool)
      requires Valid()
      modifies `fs, `history, `steps, `arrivals
      ensures Valid() && old(history) <= history
      ensures alive == (old(steps) > 0) && steps == (if alive then old(steps) - 1 else 0)
      ensures fs == old(fs).(live := fs.live) && Kept(old(fs.live), fs.live)
      ensures old(arrivals) == [] || !alive ==> fs == old(fs) && history == old(history) && arrivals == old(arrivals)
    {
      if steps == 0 {
        return false;
      }
      steps := steps - 1;
      if arrivals != [] {
        Do(Foreign(arrivals[0]));
        arrivals := arrivals[1..];
      }
      return true;
    }

    method SyncDirectory() returns (alive: bool)
      requires Valid()
      modifies `fs, `history, `steps, `arrivals
      ensures Valid() && old(history) <= history
      ensures alive == (old(steps) > 0) && steps == (if alive then old(steps) - 1 else 0)
      ensures fs.doc == old(fs.doc) && fs.launches == old(fs.launches)
      ensures fs.recording == old(fs.recording) && fs.cleared == old(fs.cleared)
      ensures Kept(old(fs.live), fs.live)
      ensures if alive then fs.durable == fs.live && fs.durableDoc == fs.doc else fs == old(fs)
      ensures old(arrivals) == [] ==>
                && arrivals == []
                && (if alive then fs == Apply(old(fs), SyncDir) && history == old(history) + [SyncDir]
                    else fs == old(fs) && history == old(history))
    {
      alive := Tick();
      if alive {
        Do(SyncDir);
      }
    }

    /** The exclusive link. An existing destination is accepted only when it is
        this very inode. */
    method LinkIssued(seg: Segment) returns (r: Move)
      requires Valid() && seg in Pins(fs.doc) && fs.durableDoc == fs.doc
      requires seg.source in fs.live && fs.live[seg.source] == seg.node
      modifies `fs, `history, `steps, `arrivals
      ensures Valid() && old(history) <= history
      ensures fs.doc == old(fs.doc) && fs.durableDoc == fs.doc && fs.launches == old(fs.launches)
      ensures Kept(old(fs.live), fs.live)
      ensures r.Moved? ==> seg.name in fs.live && fs.live[seg.name] == seg.node
      ensures old(steps) >= 1 ==> !r.MoveCrashed? && steps + 1 == old(steps)
      ensures old(arrivals) == [] ==>
                && arrivals == []
                && (history == old(history) || history == old(history) + [Link(seg)])
                && OnlyNew(old(fs.live), fs.live, seg.name)
                && (r.MoveRefused? ==> seg.name in old(fs.live) && old(fs.live)[seg.name] != seg.node)
    {
      var alive := Tick();
      if !alive {
        return MoveCrashed;
      }
      if seg.name !in fs.live {
        Do(Link(seg));
      } else if fs.live[seg.name] != seg.node {
        return MoveRefused;
      }
      return Moved;
    }

    /** The second half of the move, behind the first sync. */
    method RemoveSource(seg: Segment) returns (r: Move)
      requires Valid() && seg in Pins(fs.doc) && fs.durableDoc == fs.doc
      requires seg.source in fs.live && fs.live[seg.source] == seg.node && Held(fs, seg.name, seg.node)
      modifies `fs, `history, `steps, `arrivals
      ensures Valid() && old(history) <= history
      ensures fs.doc == old(fs.doc) && fs.durableDoc == fs.doc && fs.launches == old(fs.launches)
      ensures KeptBut(old(fs.live), fs.live, seg.source)
      ensures !r.MoveRefused? && (r.Moved? ==> Held(fs, seg.name, seg.node))
      ensures old(steps) >= 2 ==> r.Moved? && steps + 2 == old(steps)
      ensures old(arrivals) == [] ==>
                && arrivals == []
                && (history == old(history) || history == old(history) + [Unlink(seg)]
                    || history == old(history) + [Unlink(seg), SyncDir])
                && OnlyNew(old(fs.live), fs.live, seg.name)
                && (r.Moved? ==> seg.source !in fs.live && fs.durable == fs.live)
    {
      PinsApart(Pins(fs.doc), seg, seg);
      var alive := Tick();
      if !alive {
        return MoveCrashed;
      }
      Do(Unlink(seg));
      alive := SyncDirectory();
      return if alive then Moved else MoveCrashed;
    }

    /** A call finalization makes on its own directory. */
    predicate Housekeeping(a: Action) {
      a.SyncDir? || a.Link? || a.Unlink?
    }

    /** The first half of the move: the issued name, synced. */
    method AddName(seg: Segment) returns (r: Move)
      requires Valid() && seg in Pins(fs.doc) && fs.durableDoc == fs.doc
      requires seg.source in fs.live && fs.live[seg.source] == seg.node
      modifies `fs, `history, `steps, `arrivals
      ensures Valid() && old(history) <= history
      ensures fs.doc == old(fs.doc) && fs.durableDoc == fs.doc && fs.launches == old(fs.launches)
      ensures Kept(old(fs.live), fs.live)
      ensures r.Moved? ==> Held(fs, seg.name, seg.node)
      ensures old(steps) >= 2 ==> !r.MoveCrashed? && steps + 2 >= old(steps)
      ensures old(arrivals) == [] ==>
                && arrivals == []
                && (forall k | |old(history)| <= k < |history| :: Housekeeping(history[k]))
                && OnlyNew(old(fs.live), fs.live, seg.name)
                && (r.MoveRefused? ==> seg.name in old(fs.live) && old(fs.live)[seg.name] != seg.node)
    {
      r := LinkIssued(seg);
      if r.Moved? {
        var alive := SyncDirectory();
        r := if alive then Moved else MoveCrashed;
      }
    }

    /** move_closed_without_replacement: link, sync, unlink, sync. */
    method MoveClosed(seg: Segment) returns (r: Move)
      requires Valid() && seg in Pins(fs.doc) && fs.durableDoc == fs.doc
      requires seg.source in fs.live && fs.live[seg.source] == seg.node
      modifies `fs, `history, `steps, `arrivals
      ensures Valid() && old(history) <= history
      ensures fs.doc == old(fs.doc) && fs.durableDoc == fs.doc && fs.launches == old(fs.launches)
      ensures KeptBut(old(fs.live), fs.live, seg.source)
      ensures r.Moved? ==> Held(fs, seg.name, seg.node)
      ensures old(steps) >= 4 ==> !r.MoveCrashed? && steps + 4 >= old(steps)
      ensures old(arrivals) == [] ==>
                && arrivals == []
                && (forall k | |old(history)| <= k < |history| :: Housekeeping(history[k]))
                && OnlyNew(old(fs.live), fs.live, seg.name)
                && (r.Moved? ==> seg.source !in fs.live && fs.durable == fs.live)
                && (r.MoveRefused? ==> seg.name in old(fs.live) && old(fs.live)[seg.name] != seg.node)
    {
      r := AddName(seg);
      if r.Moved? {
        r := RemoveSource(seg);
      }
    }

    /** write_manifest: the new document replaces the old one whole, then the
        directory is synced. */
    method WriteManifest(d: Doc) returns (alive: bool)
      requires Valid() && Enabled(fs, ReplaceDoc(d))
      modifies `fs, `history, `steps, `arrivals
      ensures Valid() && old(history) <= history
      ensures Kept(old(fs.live), fs.live)
      ensures fs.launches == old(fs.launches)
      ensures fs.recording == old(fs.recording) && fs.cleared == old(fs.cleared)
      ensures alive ==> fs.doc == Some(d) && fs.durableDoc == Some(d) && fs.durable == fs.live
      ensures !alive ==> fs.durableDoc == old(fs.durableDoc) && fs.durable == old(fs.durable)
      ensures fs.doc == (if old(steps) == 0 then old(fs.doc) else Some(d))
      ensures alive == (old(steps) >= 2) && (alive ==> steps + 2 == old(steps))
      ensures old(arrivals) == [] ==>
                && arrivals == [] && fs.live == old(fs.live)
                && (forall k | |old(history)| <= k < |history| :: history[k] in {ReplaceDoc(d), SyncDir})
    {
      alive := Tick();
      if alive {
        Do(ReplaceDoc(d));
        alive := SyncDirectory();
      }
    }

    // ---- One segment ----------------------------------------------------

    /** Whatever sits under the segment's two names is the pinned inode, and it
        sits under one of them. */
    predicate OursAt(f: Fs, seg: Segment) {
      && (seg.source in f.live ==> f.live[seg.source] == seg.node)
      && (seg.name in f.live ==> f.live[seg.name] == seg.node)
      && (seg.source in f.live || seg.name in f.live)
    }

    /** One turn of the finalization loop. */
    method MoveSegment(seg: Segment, count: nat, taken: bool) returns (r: Move)
      requires Valid() && seg in Pins(fs.doc) && fs.durableDoc == fs.doc
      modifies `fs, `history, `steps, `arrivals
      ensures Valid() && old(history) <= history
      ensures fs.doc == old(fs.doc) && fs.durableDoc == fs.doc && fs.launches == old(fs.launches)
      ensures KeptBut(old(fs.live), fs.live, seg.source)
      ensures r.Moved? ==>
                && seg.source == NativeBag(seg.index) && seg.name == IssuedName(seg.index, count) && !taken
                && seg.name in fs.live && fs.live[seg.name] == seg.node
      ensures old(steps) >= 6 ==> !r.MoveCrashed? && steps + 6 >= old(steps)
      ensures old(arrivals) == [] ==>
                && arrivals == []
                && (forall k | |old(history)| <= k < |history| :: Housekeeping(history[k]))
                && OnlyNew(old(fs.live), fs.live, seg.name)
                && (r.Moved? ==> seg.source !in fs.live && (old(fs.durable == fs.live) ==> fs.durable == fs.live))
      ensures old(arrivals) == [] && OursAt(old(fs), seg) && r.MoveRefused? ==>
                seg.source != NativeBag(seg.index) || seg.name != IssuedName(seg.index, count) || taken
    {
      if seg.source != NativeBag(seg.index) || seg.name != IssuedName(seg.index, count) || taken {
        return MoveRefused;
      }
      var alive := Tick();
      if !alive {
        return MoveCrashed;
      }
      if seg.source in fs.live {
        if fs.live[seg.source] != seg.node {
          return MoveRefused;
        }
        r := MoveClosed(seg);
        if !r.Moved? {
          return;
        }
      }
      alive := Tick();
      if !alive {
        return MoveCrashed;
      }
      if seg.name !in fs.live || fs.live[seg.name] != seg.node {
        return MoveRefused;
      }
      return Moved;
    }

    // ---- All segments ---------------------------------------------------

    /** No foreign file, a healthy start, and only finalization's own calls since. */
    ghost predicate Undisturbed(natives: Natives)
      reads this
    {
      && arrivals == [] && Healthy(base, recordId, natives)
      && forall k | mark <= k < |history| :: Tame(recordId, natives, history[k])
    }

    /** Before the first pending manifest: nothing pinned, the bags as the native
        recorder left them. The manifests, and what is synced, may be anything. */
    ghost predicate Beginning(natives: Natives)
      reads this
    {
      arrivals == [] && Fresh(fs, natives)
    }

    ghost predicate Calm(natives: Natives)
      reads this
    {
      Undisturbed(natives) || Beginning(natives)
    }

    /** Calm, and a start would go on with it, unless it is finished. */
    ghost predicate Underway(natives: Natives)
      reads this
    {
      Undisturbed(natives) || (Beginning(natives) && fs.doc.Some? && Resumes(recordId, fs.doc.value))
    }

    lemma StillHealthy(natives: Natives)
      requires Valid() && Undisturbed(natives)
      ensures Healthy(fs, recordId, natives)
    {
      TameRun(base, recordId, natives, history[mark..], fs);
      HealthyRun(base, recordId, natives, history[mark..], fs);
    }

    lemma SegmentIsOurs(natives: Natives, k: nat)
      requires Valid() && Undisturbed(natives) && k < |Pins(fs.doc)|
      ensures OursAt(fs, Pins(fs.doc)[k])
    {
      StillHealthy(natives);
      OwnNames(fs, natives, Pins(fs.doc)[k]);
    }

    /** One turn of the loop, with its entry in the list of moved bags. */
    method MoveListed(segs: seq<Segment>, i: nat, before: map<nat, BagFile>)
      returns (r: Move, listed: map<nat, BagFile>)
      requires Valid() && HasPins(fs.doc) && segs == Pins(fs.doc) && fs.durableDoc == fs.doc
      requires i < |segs| && Listed(segs, i, before) && InPlace(segs, i, fs.live)
      modifies `fs, `history, `steps, `arrivals
      ensures Valid() && old(history) <= history
      ensures fs.doc == old(fs.doc) && fs.durableDoc == fs.doc && fs.launches == old(fs.launches)
      ensures r.Moved? ==> Listed(segs, i + 1, listed) && InPlace(segs, i + 1, fs.live)
      ensures old(steps) >= 6 ==> !r.MoveCrashed? && steps + 6 >= old(steps)
      ensures old(arrivals) == [] ==>
                && arrivals == []
                && (forall k | |old(history)| <= k < |history| :: Housekeeping(history[k]))
                && OnlyNew(old(fs.live), fs.live, segs[i].name)
                && (r.Moved? ==> segs[i].source !in fs.live && (old(fs.durable == fs.live) ==> fs.durable == fs.live))
      ensures old(arrivals) == [] && OursAt(old(fs), segs[i]) ==> !r.MoveRefused?
    {
      ghost var was := fs.live;
      NotTaken(segs, i, before);
      listed := before[segs[i].index := BagFile(segs[i].name, segs[i].node.size)];
      r := MoveSegment(segs[i], |segs|, segs[i].index in before);
      if r.Moved? {
        InPlaceStep(segs, i, was, fs.live);
        ListedStep(segs, i, before, listed);
      }
    }

    lemma HousekeepingIsTame(natives: Natives, before: seq<Action>)
      requires arrivals == [] && Healthy(base, recordId, natives) && before <= history
      requires forall k | mark <= k < |before| :: Tame(recordId, natives, before[k])
      requires forall k | |before| <= k < |history| :: Housekeeping(history[k])
      ensures Undisturbed(natives)
    {
    }

    /** The same, undisturbed. */
    method MoveCalm(segs: seq<Segment>, i: nat, before: map<nat, BagFile>, ghost natives: Natives)
      returns (r: Move, listed: map<nat, BagFile>)
      requires Valid() && HasPins(fs.doc) && segs == Pins(fs.doc) && fs.durableDoc == fs.doc
      requires i < |segs| && Listed(segs, i, before) && InPlace(segs, i, fs.live)
      modifies `fs, `history, `steps, `arrivals
      ensures Valid() && old(history) <= history
      ensures fs.doc == old(fs.doc) && fs.durableDoc == fs.doc && fs.launches == old(fs.launches)
      ensures r.Moved? ==> Listed(segs, i + 1, listed) && InPlace(segs, i + 1, fs.live)
      ensures old(steps) >= 6 ==> !r.MoveCrashed? && steps + 6 >= old(steps)
      ensures old(Undisturbed(natives)) ==>
                && Undisturbed(natives) && !r.MoveRefused? && OnlyNew(old(fs.live), fs.live, segs[i].name)
                && (r.Moved? ==> segs[i].source !in fs.live && (old(fs.durable == fs.live) ==> fs.durable == fs.live))
    {
      ghost var calm, early := Undisturbed(natives), history;
      if calm { SegmentIsOurs(natives, i); }
      r, listed := MoveListed(segs, i, before);
      if calm { HousekeepingIsTame(natives, early); }
    }

    method MoveNext(segs: seq<Segment>, i: nat, before: map<nat, BagFile>, ghost natives: Natives)
      returns (r: Move, listed: map<nat, BagFile>)
      requires Valid() && HasPins(fs.doc) && segs == Pins(fs.doc) && fs.durableDoc == fs.doc
      requires i < |segs| && Listed(segs, i, before) && InPlace(segs, i, fs.live)
      modifies `fs, `history, `steps, `arrivals
      ensures Valid() && old(history) <= history
      ensures fs.doc == old(fs.doc) && fs.durableDoc == fs.doc && fs.launches == old(fs.launches)
      ensures r.Moved? ==> Listed(segs, i + 1, listed) && InPlace(segs, i + 1, fs.live)
      ensures old(steps) >= 6 ==> !r.MoveCrashed? && steps + 6 >= old(steps)
      ensures old(Undisturbed(natives)) ==> Undisturbed(natives) && !r.MoveRefused?
      ensures old(Undisturbed(natives) && Vacated(segs, i, fs.live)) && r.Moved? ==> Vacated(segs, i + 1, fs.live)
      ensures old(Undisturbed(natives) && fs.durable == fs.live) && r.Moved? ==> fs.durable == fs.live
    {
      ghost var was, calm := fs.live, Undisturbed(natives) && Vacated(segs, i, fs.live);
      r, listed := MoveCalm(segs, i, before, natives);
      if r.Moved? && calm {
        VacatedStep(segs, i, was, fs.live);
      }
    }

    method MoveAll(segs: seq<Segment>, ghost natives: Natives) returns (r: Move, listed: map<nat, BagFile>)
      requires Valid() && HasPins(fs.doc) && segs == Pins(fs.doc) && fs.durableDoc == fs.doc
      modifies `fs, `history, `steps, `arrivals
      ensures Valid() && old(history) <= history
      ensures fs.doc == old(fs.doc) && fs.durableDoc == fs.doc && fs.launches == old(fs.launches)
      ensures r.Moved? ==> Listed(segs, |segs|, listed) && InPlace(segs, |segs|, fs.live)
      ensures old(steps) >= 6 * |segs| ==> !r.MoveCrashed? && steps + 6 * |segs| >= old(steps)
      ensures old(Undisturbed(natives)) ==> Undisturbed(natives) && !r.MoveRefused?
      ensures old(Undisturbed(natives)) && r.Moved? ==> Vacated(segs, |segs|, fs.live)
      ensures old(Undisturbed(natives) && fs.durable == fs.live) && r.Moved? ==> fs.durable == fs.live
    {
      ghost var calm := Undisturbed(natives);
      listed := map[];
      for i := 0 to |segs|
        invariant Valid() && old(history) <= history
        invariant fs.doc == old(fs.doc) && fs.durableDoc == fs.doc && fs.launches == old(fs.launches)
        invariant Listed(segs, i, listed) && InPlace(segs, i, fs.live)
        invariant old(steps) >= 6 * |segs| ==> steps + 6 * i >= old(steps)
        invariant calm ==> Undisturbed(natives) && Vacated(segs, i, fs.live)
        invariant calm && old(fs.durable == fs.live) ==> fs.durable == fs.live
      {
        r, listed := MoveNext(segs, i, listed, natives);
        if !r.Moved? {
          return;
        }
      }
      r := Moved;
    }

    // ---- Finalization ---------------------------------------------------

    /** System calls an uninterrupted finalization of `count` bags needs. */
    static function Enough(count: nat): nat {
      8 + 6 * count
    }

    /** The manifest carries the result of this inventory of `seen`. */
    ghost predicate FinalizedAs(d: Doc, seen: Dir) {
      && d.phase == Finalized && d.segments.Some?
      && Listed(d.segments.value, |d.segments.value|, d.finalized)
      && InPlace(d.segments.value, |d.segments.value|, seen)
      && Inventoried(seen, d.finalized, d.partial)
    }

    method MarkFailed(d: Doc) returns (exit: Exit)
      requires Valid() && d.phase == Failed && Enabled(fs, ReplaceDoc(d))
      modifies `fs, `history, `steps, `arrivals
      ensures Valid() && old(history) <= history && fs.launches == old(fs.launches)
      ensures exit == Crashed || (exit == MarkedFailed && fs.doc == Some(d) && fs.durableDoc == Some(d))
    {
      var alive := WriteManifest(d);
      return if alive then MarkedFailed else Crashed;
    }

    method WriteTame(d: Doc, ghost natives: Natives) returns (alive: bool)
      requires Valid() && Enabled(fs, ReplaceDoc(d))
      modifies `fs, `history, `steps, `arrivals
      ensures Valid() && old(history) <= history && fs.launches == old(fs.launches)
      ensures Kept(old(fs.live), fs.live)
      ensures alive ==> fs.doc == Some(d) && fs.durableDoc == Some(d) && fs.durable == fs.live
      ensures !alive ==> fs.durableDoc == old(fs.durableDoc) && fs.durable == old(fs.durable)
      ensures fs.doc == (if old(steps) == 0 then old(fs.doc) else Some(d))
      ensures alive == (old(steps) >= 2) && (alive ==> steps + 2 == old(steps))
      ensures old(arrivals) == [] ==> arrivals == [] && fs.live == old(fs.live)
      ensures old(Undisturbed(natives)) && Tame(recordId, natives, ReplaceDoc(d)) ==> Undisturbed(natives)
    {
      alive := WriteManifest(d);
    }

    /** The first pending manifest. Once it is synced, nothing that happens to
        finalization alone can keep it from being resumed. */
    method WritePending(d: Doc, ghost natives: Natives) returns (alive: bool)
      requires Valid() && Enabled(fs, ReplaceDoc(d)) && d.ended && d.phase == Pending
      requires if fs.doc.Some? then d.segments == fs.doc.value.segments else d.segments.None?
      modifies `fs, `history, `steps, `arrivals, `base, `mark
      ensures Valid() && old(history) <= history && fs.launches == old(fs.launches)
      ensures Kept(old(fs.live), fs.live)
      ensures alive ==> fs.doc == Some(d) && fs.durableDoc == Some(d) && fs.durable == fs.live
      ensures !alive ==> fs.durableDoc == old(fs.durableDoc) && fs.durable == old(fs.durable)
      ensures fs.doc == (if old(steps) == 0 then old(fs.doc) else Some(d))
      ensures alive == (old(steps) >= 2) && (alive ==> steps + 2 == old(steps))
      ensures old(Undisturbed(natives)) && Ours(d) ==> Undisturbed(natives)
      ensures old(Beginning(natives)) && Ours(d) ==> if alive then Undisturbed(natives) else Beginning(natives)
    {
      ghost var beginning, calm := Beginning(natives) && Ours(d), Undisturbed(natives) && Ours(d);
      if calm { Undocumented(natives); PendingIsTame(natives, d); }
      alive := WriteTame(d, natives);
      if beginning && !calm && alive {
        PendingIsHealthy(fs, natives);
        Checkpoint();
      }
    }

    /** The segments already pinned, or else those the scan finds now. */
    method ChooseSegments(d: Doc, ghost natives: Natives) returns (exit: Exit, pinned: Doc)
      requires Valid() && fs.doc == Some(d) && d.phase == Pending && d.ended && d.finalized == map[]
      modifies `fs, `history, `steps, `arrivals
      ensures Valid() && old(history) <= history && fs.launches == old(fs.launches)
      ensures fs.doc == old(fs.doc) && fs.durableDoc == old(fs.durableDoc)
      ensures fs.durable == old(fs.durable) && Kept(old(fs.live), fs.live)
      ensures exit == Done ==>
                && pinned == d.(segments := pinned.segments) && pinned.segments.Some?
                && (d.segments.Some? ==> pinned == d)
                && Enabled(fs, ReplaceDoc(pinned))
      ensures exit == Done && d.segments.None? ==>
                Found(pinned.segments.value, fs.live) && AllListed(old(fs.live), pinned.segments.value)
      ensures exit in {Crashed, Raised, Done}
      ensures old(steps) >= 1 ==> exit != Crashed && steps + 1 == old(steps)
      ensures old(Undisturbed(natives)) ==> Undisturbed(natives) && exit != Raised
      ensures old(Undisturbed(natives) && Ours(d)) && exit == Done ==> Tame(recordId, natives, ReplaceDoc(pinned))
    {
      ghost var calm := Undisturbed(natives);
      pinned := d;
      var alive := Tick();
      if !alive {
        return Crashed, pinned;
      }
      if d.segments.None? {
        if calm { Undocumented(natives); }
        var scanned := ScanNatives(fs.live);
        if scanned.None? {
          return Raised, pinned;
        }
        if calm { ScanMatches(fs.live, natives, scanned.value); }
        pinned := d.(segments := scanned);
      } else if calm && Ours(d) {
        PendingIsTame(natives, d);
      }
      exit := Done;
    }

    predicate Ours(d: Doc) {
      d.recordId == recordId
    }

    /** Every segment of a fresh list is in the directory it was scanned from. */
    ghost predicate Found(segs: seq<Segment>, live: Dir) {
      forall k | 0 <= k < |segs| :: Shows(live, segs[k].source, segs[k].node)
    }

    /** Every native bag of the directory is in the list, with its node. */
    ghost predicate AllListed(dir: Dir, segs: seq<Segment>) {
      forall n | n in dir && n.NativeBag? :: exists k | 0 <= k < |segs| :: segs[k].source == n && segs[k].node == dir[n]
    }

    ghost predicate AllSafe(f: Fs, segs: seq<Segment>) {
      forall k | 0 <= k < |segs| :: PinSafe(f, segs[k])
    }

    /** Every file of the directory is live and synced under its name. */
    ghost predicate AllHeld(dir: Dir, f: Fs) {
      forall n | n in dir :: Held(f, n, dir[n])
    }

    /** The pending manifest, then the pinned one, both durable before any move. A
        fresh list holds every native bag that was there, and only bags that are
        by then live and synced. */
    method PinSegments(d: Doc, ghost natives: Natives) returns (exit: Exit, pinned: Doc)
      requires Valid() && (if fs.doc.Some? then d.segments == fs.doc.value.segments else d.segments.None?)
      requires d.phase == Pending && d.ended && d.finalized == map[]
      modifies `fs, `history, `steps, `arrivals, `base, `mark
      ensures Valid() && old(history) <= history && fs.launches == old(fs.launches)
      ensures exit == Done ==>
                && pinned == d.(segments := pinned.segments) && pinned.segments.Some?
                && (d.segments.Some? ==> pinned == d)
                && fs.doc == Some(pinned) && fs.durableDoc == fs.doc && fs.durable == fs.live
      ensures exit == Done && d.segments.None? ==>
                AllSafe(fs, pinned.segments.value) && AllListed(old(fs.live), pinned.segments.value)
      ensures exit != Done && d.segments.None? ==> !HasPins(fs.durableDoc)
      ensures d.segments.None? && HasPins(fs.doc) ==> AllHeld(old(fs.live), fs)
      ensures exit in {Crashed, Raised, Done}
      ensures old(steps) >= 5 ==> exit != Crashed && (exit == Done ==> steps + 5 >= old(steps))
      ensures old(Undisturbed(natives)) && Ours(d) ==> Undisturbed(natives) && exit != Raised
      ensures old(Beginning(natives)) && Ours(d) ==> exit != Raised && Onward(natives, old(fs), d, old(steps))
      ensures old(Calm(natives)) && Ours(d) && exit == Done ==> Undisturbed(natives)
    {
      pinned := d;
      var alive := WritePending(d, natives);
      if !alive {
        return Crashed, pinned;
      }
      exit, pinned := ChooseSegments(d, natives);
      if exit != Done {
        return;
      }
      alive := WriteTame(pinned, natives);
      exit := if alive then Done else Crashed;
    }

    /** How far so many calls take a beginning: two sync the pending manifest `d`,
        one leaves it in place unsynced, none leaves the old manifest. */
    ghost predicate Onward(natives: Natives, before: Fs, d: Doc, calls: nat)
      reads this
    {
      if calls >= 2 then Undisturbed(natives)
      else
        && Beginning(natives) && fs.durableDoc == before.durableDoc && fs.durable == before.durable
        && fs.doc == (if calls == 0 then before.doc else Some(d))
    }

    lemma PendingIsTame(natives: Natives, d: Doc)
      requires Valid() && Undisturbed(natives) && d.phase == Pending && d.ended && Ours(d)
      requires fs.doc.Some? && d.segments == fs.doc.value.segments
      ensures Tame(recordId, natives, ReplaceDoc(d))
    {
      StillHealthy(natives);
    }

    lemma Undocumented(natives: Natives)
      requires Valid() && Undisturbed(natives)
      ensures fs.doc.Some?
      ensures !HasPins(fs.doc) ==> Untouched(fs.live, natives)
    {
      StillHealthy(natives);
    }

    /** Listing what is in the directory after the moves. */
    method CheckInventory(listed: map<nat, BagFile>, ghost natives: Natives)
      returns (exit: Exit, partial: map<Name, nat>)
      requires Valid() && HasPins(fs.doc) && Listed(Pins(fs.doc), |Pins(fs.doc)|, listed)
      requires InPlace(Pins(fs.doc), |Pins(fs.doc)|, fs.live)
      modifies `fs, `history, `steps, `arrivals
      ensures Valid() && old(history) <= history && fs.launches == old(fs.launches)
      ensures fs.doc == old(fs.doc) && fs.durableDoc == old(fs.durableDoc) && fs.durable == old(fs.durable)
      ensures exit in {Crashed, MarkedFailed, Done}
      ensures exit == Done ==> Inventoried(fs.live, listed, partial) && InPlace(Pins(fs.doc), |Pins(fs.doc)|, fs.live)
      ensures old(steps) >= 1 ==> exit != Crashed && steps + 1 == old(steps)
      ensures old(Undisturbed(natives)) ==> fs.live == old(fs.live)
      ensures old(Undisturbed(natives) && Vacated(Pins(fs.doc), |Pins(fs.doc)|, fs.live)) ==>
                Undisturbed(natives) && exit != MarkedFailed
    {
      ghost var calm := Undisturbed(natives) && Vacated(Pins(fs.doc), |Pins(fs.doc)|, fs.live);
      var alive := Tick();
      if !alive {
        return Crashed, map[];
      }
      var ok;
      ok, partial := Inventory(fs.live, listed);
      if calm && !ok {
        ghost var n :| n in fs.live && !n.Elsewhere?
                       && (!fs.live[n].regular || (IsClosed(n) && !IsIssuedIn(listed, n)));
        NothingToRefuse(natives, listed, n);
      }
      exit := if ok then Done else MarkedFailed;
    }

    lemma NothingToRefuse(natives: Natives, listed: map<nat, BagFile>, n: Name)
      requires Valid() && Undisturbed(natives) && HasPins(fs.doc) && Listed(Pins(fs.doc), |Pins(fs.doc)|, listed)
      requires Vacated(Pins(fs.doc), |Pins(fs.doc)|, fs.live) && n in fs.live && !n.Elsewhere?
      ensures fs.live[n].regular && (IsClosed(n) ==> IsIssuedIn(listed, n))
    {
      StillHealthy(natives);
      InventoryPasses(fs.live, natives, Pins(fs.doc), listed, n);
    }

    lemma PinCount(natives: Natives)
      requires Valid() && Undisturbed(natives) && HasPins(fs.doc)
      ensures |Pins(fs.doc)| == |natives|
    {
      StillHealthy(natives);
    }

    /** The manifest to be written last is true of the directory. */
    lemma FinalIsTrue(natives: Natives, d: Doc)
      requires Valid() && Undisturbed(natives) && d.phase == Finalized && d.ended && Ours(d)
      requires HasPins(fs.doc) && d.segments == fs.doc.value.segments && fs.durable == fs.live
      requires var segs := Pins(fs.doc);
               Listed(segs, |segs|, d.finalized) && InPlace(segs, |segs|, fs.live) && Vacated(segs, |segs|, fs.live)
      requires Inventoried(fs.live, d.finalized, d.partial)
      ensures Seals(fs, recordId, natives, d)
    {
      StillHealthy(natives);
      InventoryIsArchive(fs.live, natives, d);
    }

    /** The finalized manifest takes the place of the pinned one. */
    method Replace(d: Doc, ghost natives: Natives, ghost truthful: bool)
      requires Valid() && Enabled(fs, ReplaceDoc(d))
      requires truthful ==> Undisturbed(natives) && Seals(fs, recordId, natives, d)
      modifies `fs, `history, `base, `mark
      ensures Valid() && fs == old(fs).(doc := Some(d)) && history == old(history) + [ReplaceDoc(d)]
      ensures truthful ==> Undisturbed(natives)
    {
      if truthful {
        StillHealthy(natives);
        SealHealthy(fs, recordId, natives, d);
      }
      Do(ReplaceDoc(d));
      if truthful {
        Checkpoint();
      }
    }

    method SyncCalm(ghost natives: Natives) returns (alive: bool)
      requires Valid()
      modifies `fs, `history, `steps, `arrivals
      ensures Valid() && old(history) <= history && fs.launches == old(fs.launches) && fs.doc == old(fs.doc)
      ensures Kept(old(fs.live), fs.live)
      ensures alive == (old(steps) > 0) && steps == (if alive then old(steps) - 1 else 0)
      ensures alive ==> fs.durableDoc == fs.doc && fs.durable == fs.live
      ensures old(Undisturbed(natives)) ==> Undisturbed(natives) && fs.live == old(fs.live)
    {
      alive := SyncDirectory();
    }

    /** Writing the finalized manifest. */
    method Seal(d: Doc, ghost natives: Natives, ghost truthful: bool) returns (alive: bool)
      requires Valid() && Enabled(fs, ReplaceDoc(d))
      requires truthful ==> Undisturbed(natives) && Seals(fs, recordId, natives, d)
      modifies `fs, `history, `steps, `arrivals, `base, `mark
      ensures Valid() && old(history) <= history && fs.launches == old(fs.launches)
      ensures Kept(old(fs.live), fs.live)
      ensures alive ==> fs.doc == Some(d) && fs.durableDoc == Some(d) && fs.durable == fs.live
      ensures old(steps) >= 2 ==> alive && steps + 2 == old(steps)
      ensures truthful ==> Undisturbed(natives) && fs.live == old(fs.live)
    {
      alive := Tick();
      if alive {
        Replace(d, natives, truthful);
        alive := SyncCalm(natives);
      }
    }

    // ---- What earlier states guarantee now ------------------------------

    /** What has been done since the state `from` actions into the history. */
    lemma Since(before: Fs, from: nat)
      requires Valid() && from <= |history| && Runs(origin, history[..from], before)
      ensures Inv(before) && Runs(before, history[from..], fs)
    {
      var mid := RunsTake(origin, history, fs, from);
      OneEnd(origin, history[..from], before, mid);
    }

    lemma StillSafe(before: Fs, from: nat, seg: Segment)
      requires Valid() && from <= |history| && Runs(origin, history[..from], before)
      requires PinSafe(before, seg) && seg in Pins(fs.doc)
      ensures PinSafe(fs, seg)
    {
      Since(before, from);
      var k :| 0 <= k < |Pins(fs.doc)| && Pins(fs.doc)[k] == seg;
      NoByteLoss(before, history[from..], fs, seg);
    }

    lemma SamePins(before: Fs, from: nat)
      requires Valid() && from <= |history| && Runs(origin, history[..from], before) && HasPins(before.durableDoc)
      ensures HasPins(fs.durableDoc) && Pins(fs.durableDoc) == Pins(before.durableDoc)
    {
      Since(before, from);
      PinsStay(before, history[from..], fs);
    }

    /** Durable pins are safe if they were safe earlier, or are new and safe since. */
    lemma PinsAllSafe(start: Fs, from: nat, middle: Fs, upto: nat, unpinned: bool)
      requires Valid() && from <= |history| && Runs(origin, history[..from], start)
      requires upto <= |history| && Runs(origin, history[..upto], middle)
      requires unpinned && HasPins(fs.durableDoc) ==>
                 HasPins(middle.durableDoc) && AllSafe(middle, Pins(middle.durableDoc))
      ensures forall seg | seg in Pins(fs.durableDoc) && (unpinned || PinSafe(start, seg)) :: PinSafe(fs, seg)
    {
      forall seg | seg in Pins(fs.durableDoc) && (unpinned || PinSafe(start, seg))
        ensures PinSafe(fs, seg)
      {
        if PinSafe(start, seg) {
          StillSafe(start, from, seg);
        } else {
          SamePins(middle, upto);
          StillSafe(middle, upto, seg);
        }
      }
    }

    lemma PresentAreSafe(dir: Dir, middle: Fs, upto: nat, unpinned: bool)
      requires Valid() && upto <= |history| && Runs(origin, history[..upto], middle)
      requires unpinned && HasPins(fs.doc) ==> AllHeld(dir, middle)
      ensures forall seg | unpinned && seg in Pins(fs.doc) && Shows(dir, seg.source, seg.node) :: PinSafe(fs, seg)
    {
      forall seg | unpinned && seg in Pins(fs.doc) && Shows(dir, seg.source, seg.node)
        ensures PinSafe(fs, seg)
      {
        StillSafe(middle, upto, seg);
      }
    }

    /** The moves, the inventory and the last manifest, once the pins are durable.
        `seen` is the directory at the inventory; nothing of it is gone when the
        manifest is durable. */
    method MoveAndSeal(pinned: Doc, ghost natives: Natives) returns (exit: Exit, ghost seen: Dir)
      requires Valid() && fs.doc == Some(pinned) && fs.durableDoc == fs.doc && fs.durable == fs.live
      requires pinned.segments.Some? && pinned.ended && pinned.finalized == map[]
      requires Undisturbed(natives) ==> |pinned.segments.value| == |natives|
      modifies `fs, `history, `steps, `arrivals, `base, `mark
      ensures Valid() && old(history) <= history && fs.launches == old(fs.launches)
      ensures exit == Done ==> fs.doc.Some? && fs.durableDoc == fs.doc && FinalizedAs(fs.doc.value, seen)
                               && fs.doc.value == pinned.(phase := Finalized, partial := fs.doc.value.partial,
                                                          finalized := fs.doc.value.finalized)
      ensures exit == Done ==> Kept(seen, fs.live) && fs.durable == fs.live
      ensures exit == MarkedFailed ==> fs.doc.Some? && fs.doc.value.phase == Failed && fs.durableDoc == fs.doc
      ensures old(Undisturbed(natives)) && Ours(pinned) ==> Undisturbed(natives) && exit in {Crashed, Done}
      ensures old(Undisturbed(natives)) && Ours(pinned) && exit == Done ==>
                seen == fs.live && Archived(fs.live, fs.durable, fs.doc.value, natives)
      ensures old(Undisturbed(natives)) && Ours(pinned) && old(steps) >= 3 + 6 * |natives| ==> exit == Done
    {
      ghost var calm := Undisturbed(natives) && Ours(pinned);
      seen := map[];
      var moved, listed := MoveAll(pinned.segments.value, natives);
      if moved.MoveCrashed? {
        return Crashed, seen;
      }
      if moved.MoveRefused? {
        exit := MarkFailed(pinned.(phase := Failed));
        return;
      }
      var partial;
      exit, partial := CheckInventory(listed, natives);
      if exit == Crashed {
        return;
      }
      if exit == MarkedFailed {
        exit := MarkFailed(pinned.(phase := Failed, partial := partial));
        return;
      }
      seen := fs.live;
      var final := pinned.(phase := Finalized, partial := partial, finalized := listed);
      if calm { FinalIsTrue(natives, final); }
      var alive := Seal(final, natives, calm);
      exit := if alive then Done else Crashed;
    }

    /** The first manifest finalization writes. */
    function Pended(d: Doc): Doc {
      d.(phase := Pending, partial := map[], finalized := map[])
    }

    /** Pinning, then moving: `middle` is the state in between, `upto` actions into
        the history. */
    method PinAndMove(d: Doc, ghost natives: Natives)
      returns (exit: Exit, ghost seen: Dir, ghost middle: Fs, ghost upto: nat)
      requires Valid() && d.ended && (if fs.doc.Some? then d.segments == fs.doc.value.segments else d.segments.None?)
      modifies `fs, `history, `steps, `arrivals, `base, `mark
      ensures Valid() && old(history) <= history && fs.launches == old(fs.launches)
      ensures upto <= |history| && Runs(origin, history[..upto], middle)
      ensures d.segments.None? && HasPins(fs.durableDoc) ==>
                HasPins(middle.durableDoc) && AllSafe(middle, Pins(middle.durableDoc))
      ensures d.segments.None? && HasPins(fs.doc) ==> AllHeld(old(fs.live), middle)
      ensures exit == Done ==>
                && fs.doc.Some? && fs.durableDoc == fs.doc && FinalizedAs(fs.doc.value, seen)
                && fs.doc.value.recordId == d.recordId && fs.doc.value.ended
                && (if d.segments.Some? then fs.doc.value.segments == d.segments
                    else AllListed(old(fs.live), fs.doc.value.segments.value))
      ensures exit == Done ==> Kept(seen, fs.live) && fs.durable == fs.live
      ensures exit == MarkedFailed ==> fs.doc.Some? && fs.doc.value.phase == Failed && fs.durableDoc == fs.doc
      ensures old(Undisturbed(natives)) && Ours(d) ==> Undisturbed(natives)
      ensures old(Beginning(natives)) && Ours(d) ==> Onward(natives, old(fs), Pended(d), old(steps))
      ensures old(Calm(natives)) && Ours(d) ==> exit in {Crashed, Done}
      ensures old(Calm(natives)) && Ours(d) && exit == Done ==>
                Undisturbed(natives) && seen == fs.live && Archived(fs.live, fs.durable, fs.doc.value, natives)
      ensures old(Calm(natives)) && Ours(d) && old(steps) >= Enough(|natives|) ==> exit == Done
    {
      seen := map[];
      var pinned;
      exit, pinned := PinSegments(Pended(d), natives);
      middle, upto := fs, |history|;
      ghost var later := history;
      assert later[..upto] == later;
      if exit == Done {
        if Undisturbed(natives) { PinCount(natives); }
        exit, seen := MoveAndSeal(pinned, natives);
        assert history[..upto] == later;
      }
    }

    /** The manifest lists every native bag of the directory, which is live and synced
        at the name it gives. */
    ghost predicate Holds(f: Fs, d: Doc, dir: Dir) {
      forall n | n in dir && n.NativeBag? ::
        && n.index in d.finalized && d.finalized[n.index].size == dir[n].size
        && Held(f, d.finalized[n.index].name, dir[n])
    }

    lemma ListedAreHeld(dir: Dir, seen: Dir)
      requires fs.doc.Some? && FinalizedAs(fs.doc.value, seen) && Kept(seen, fs.live) && fs.durable == fs.live
      requires WellPinned(fs.doc.value.segments.value) && AllListed(dir, fs.doc.value.segments.value)
      ensures Holds(fs, fs.doc.value, dir)
    {
      var segs := fs.doc.value.segments.value;
      forall n | n in dir && n.NativeBag?
        ensures n.index in fs.doc.value.finalized && fs.doc.value.finalized[n.index].size == dir[n].size
        ensures Held(fs, fs.doc.value.finalized[n.index].name, dir[n])
      {
        var k :| 0 <= k < |segs| && segs[k].source == n && segs[k].node == dir[n];
      }
    }

    /** finalize_archive_files, amid whatever files others create. A finalized
        manifest is an exact inventory of `seen`, the directory at its last look,
        all of which is still there and synced when the manifest is. A durable
        pin is safe against every crash if it was before or is new, and so is a
        pin that only the latest manifest has, if its bag was there at the
        beginning. A fresh list ends up holding every native bag that was there. Left to
        itself, from a manifest in progress or any state it was interrupted in,
        the only ends are a crash and the finalized manifest of all bags; and
        once its first manifest is synced it can be resumed. */
    method FinalizeArchiveFiles(d: Doc, ghost natives: Natives) returns (exit: Exit, ghost seen: Dir)
      requires Valid() && d.ended && (if fs.doc.Some? then d.segments == fs.doc.value.segments else d.segments.None?)
      modifies `fs, `history, `steps, `arrivals, `base, `mark
      ensures Valid() && old(history) <= history && fs.launches == old(fs.launches)
      ensures exit == Done ==>
                && fs.doc.Some? && fs.durableDoc == fs.doc && FinalizedAs(fs.doc.value, seen)
                && fs.doc.value.recordId == d.recordId && fs.doc.value.ended
                && (if d.segments.Some? then fs.doc.value.segments == d.segments
                    else Holds(fs, fs.doc.value, old(fs.live)))
      ensures exit == Done ==> Kept(seen, fs.live) && fs.durable == fs.live
      ensures exit == MarkedFailed ==> fs.doc.Some? && fs.doc.value.phase == Failed && fs.durableDoc == fs.doc
      ensures forall seg | seg in Pins(fs.durableDoc) && (d.segments.None? || PinSafe(old(fs), seg)) :: PinSafe(fs, seg)
      ensures forall seg | d.segments.None? && seg in Pins(fs.doc) && Shows(old(fs.live), seg.source, seg.node) ::
                PinSafe(fs, seg)
      ensures old(Undisturbed(natives)) && Ours(d) ==> Undisturbed(natives)
      ensures old(Beginning(natives)) && Ours(d) ==> Onward(natives, old(fs), Pended(d), old(steps))
      ensures old(Calm(natives)) && Ours(d) ==> exit in {Crashed, Done}
      ensures old(Calm(natives)) && Ours(d) && exit == Done ==>
                Undisturbed(natives) && seen == fs.live && Archived(fs.live, fs.durable, fs.doc.value, natives)
      ensures old(Calm(natives)) && Ours(d) && old(steps) >= Enough(|natives|) ==> exit == Done
    {
      ghost var start, early, middle, upto := fs, history, fs, 0;
      assert early[..|early|] == early;
      exit, seen, middle, upto := PinAndMove(d, natives);
      assert history[..|early|] == early;
      PinsAllSafe(start, |early|, middle, upto, d.segments.None?);
      PresentAreSafe(start.live, middle, upto, d.segments.None?);
      if exit == Done && d.segments.None? {
        ListedAreHeld(start.live, seen);
      }
    }
  }
}
