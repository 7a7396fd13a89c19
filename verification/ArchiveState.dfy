/** The states a recording directory can be in while nobody else creates closed
    bags of its prefix: what finalization starts from, passes through, and can be
    interrupted in. `natives` maps the index of each closed bag to its inode. */
module ArchiveState {
  import opened Basics
  import opened ArchiveNames
  import opened ArchiveProtocol

  type Natives = map<nat, Node>

  predicate IsNativeOf(natives: Natives, name: Name, node: Node) {
    name.NativeBag? && name.index in natives && natives[name.index] == node
  }

  predicate IsIssuedOf(natives: Natives, name: Name, node: Node) {
    exists i | i in natives :: name == IssuedName(i, |natives|) && natives[i] == node
  }

  /** Bags still being written are plain files. */
  predicate PlainActives(dir: Dir) {
    forall n | n in dir && n.ActiveBag? :: dir[n].regular
  }

  /** The closed bags are exactly the native ones. */
  predicate Untouched(dir: Dir, natives: Natives) {
    && PlainActives(dir)
    && (forall i | i in natives ::
          NativeBag(i) in dir && dir[NativeBag(i)] == natives[i] && natives[i].regular)
    && (forall n | n in dir && IsClosed(n) :: IsNativeOf(natives, n, dir[n]))
  }

  /** The native bags of a directory. */
  function Bags(dir: Dir): Natives {
    map n | n in dir && n.NativeBag? :: n.index := dir[n]
  }

  /** Plain files, the closed ones all native: what the native recorder leaves. */
  predicate Plain(dir: Dir) {
    PlainActives(dir) && forall n | n in dir && IsClosed(n) :: n.NativeBag? && dir[n].regular
  }

  lemma PlainIsUntouched(dir: Dir)
    requires Plain(dir)
    ensures Untouched(dir, Bags(dir))
  {
    forall i | i in Bags(dir)
      ensures NativeBag(i) in dir && dir[NativeBag(i)] == Bags(dir)[i]
    {
      assert exists n | n in dir :: n.NativeBag? && n.index == i;
    }
  }

  /** Every closed bag is one of ours, under its native or its issued name. */
  predicate Owned(dir: Dir, natives: Natives) {
    && PlainActives(dir)
    && (forall n | n in dir && IsClosed(n) :: IsNativeOf(natives, n, dir[n]) || IsIssuedOf(natives, n, dir[n]))
  }

  /** The pinned list names every closed bag once. */
  predicate Matches(segs: seq<Segment>, natives: Natives) {
    && WellPinned(segs) && |segs| == |natives|
    && (forall k | 0 <= k < |segs| :: segs[k].index in natives && natives[segs[k].index] == segs[k].node)
    && (forall i | i in natives :: exists k :: 0 <= k < |segs| && segs[k].index == i)
  }

  /** Nothing pinned yet. */
  predicate Fresh(fs: Fs, natives: Natives) {
    !HasPins(fs.doc) && !HasPins(fs.durableDoc) && Untouched(fs.live, natives)
  }

  /** Pinned, and possibly part of the way through the renames. */
  predicate Moving(fs: Fs, natives: Natives) {
    && HasPins(fs.doc) && Matches(Pins(fs.doc), natives)
    && (forall k | 0 <= k < |Pins(fs.doc)| :: PinSafe(fs, Pins(fs.doc)[k]))
    && Owned(fs.live, natives) && Owned(fs.durable, natives)
    && (if HasPins(fs.durableDoc) then Pins(fs.durableDoc) == Pins(fs.doc)
        else Untouched(fs.live, natives) && Untouched(fs.durable, natives))
  }

  /** Every state finalization can be interrupted in, once its first manifest
      is durable. */
  predicate Resumable(fs: Fs, natives: Natives) {
    (Fresh(fs, natives) && Untouched(fs.durable, natives)) || Moving(fs, natives)
  }

  // ---- What a manifest may say -------------------------------------------

  predicate Lists(d: Doc, natives: Natives) {
    && d.finalized.Keys == natives.Keys
    && (forall i | i in natives :: d.finalized[i] == BagFile(IssuedName(i, |natives|), natives[i].size))
  }

  /** The closed bags are exactly the native ones under their issued names, and no
      native name is left. */
  predicate Settled(dir: Dir, natives: Natives) {
    && (forall i | i in natives :: IssuedName(i, |natives|) in dir && dir[IssuedName(i, |natives|)] == natives[i])
    && (forall i | i in natives :: NativeBag(i) !in dir)
    && (forall n | n in dir && IsClosed(n) :: IsIssuedOf(natives, n, dir[n]))
  }

  /** The bags still being written are exactly those listed as partial. */
  predicate Accounts(partial: map<Name, nat>, dir: Dir) {
    && (forall n | n in dir && n.ActiveBag? :: n in partial && partial[n] == dir[n].size)
    && (forall n | n in partial :: n in dir && n.ActiveBag?)
  }

  predicate SameActives(a: Dir, b: Dir) {
    && (forall n | n in a && n.ActiveBag? :: n in b && b[n] == a[n])
    && (forall n | n in b && n.ActiveBag? :: n in a)
  }

  /** The finalized manifest is true of the live directory and of the synced one:
      pinned segments, identities, names, sizes and partial bags. */
  predicate Archived(live: Dir, durable: Dir, d: Doc, natives: Natives) {
    && d.segments.Some? && Matches(d.segments.value, natives) && Lists(d, natives)
    && Settled(live, natives) && Settled(durable, natives)
    && Accounts(d.partial, live) && Accounts(d.partial, durable)
  }

  /** Recording is over, and a manifest that claims to be finalized is right. */
  predicate Sound(fs: Fs, id: string, d: Option<Doc>, natives: Natives) {
    && d.Some? && d.value.recordId == id && d.value.ended
    && (d.value.phase in {Pending, Failed}
        || (d.value.phase == Finalized && Archived(fs.live, fs.durable, d.value, natives)))
  }

  predicate Healthy(fs: Fs, id: string, natives: Natives) {
    && Resumable(fs, natives) && SameActives(fs.live, fs.durable)
    && Sound(fs, id, fs.doc, natives) && Sound(fs, id, fs.durableDoc, natives)
  }

  /** What finalization, undisturbed, does on the way: its own calls, with pending
      manifests. The finalized manifest is a step of its own. */
  predicate Tame(id: string, natives: Natives, a: Action) {
    match a
    case ReplaceDoc(d) =>
      && d.recordId == id && d.ended && d.phase == Pending
      && (d.segments.None? || Matches(d.segments.value, natives))
    case SyncDir => true
    case Link(_) => true
    case Unlink(_) => true
    case LookUp => true
    case Crash(_, _) => true
    case _ => false
  }

  // ---- Steps keep it -----------------------------------------------------

  /** The segment's own two names, and what may be bound to them. */
  lemma OwnNames(fs: Fs, natives: Natives, seg: Segment)
    requires Moving(fs, natives) && seg in Pins(fs.doc)
    ensures IsClosed(seg.source) && IsClosed(seg.name)
    ensures IsNativeOf(natives, seg.source, seg.node)
    ensures IsIssuedOf(natives, seg.name, seg.node)
    ensures seg.source in fs.live ==> fs.live[seg.source] == seg.node
    ensures seg.name in fs.live ==> fs.live[seg.name] == seg.node
    ensures PinSafe(fs, seg)
  {
    var segs := Pins(fs.doc);
    var k :| 0 <= k < |segs| && segs[k] == seg;
    PinOfNative(segs, natives, k);
    assert PinSafe(fs, segs[k]);
    OneBagPerSource(fs.live, natives, seg.source, seg.node);
    if seg.name in fs.live {
      OneBagPerName(fs.live, natives, seg.name, seg.node);
    }
  }

  lemma PinOfNative(segs: seq<Segment>, natives: Natives, k: nat)
    requires Matches(segs, natives) && k < |segs|
    ensures segs[k].source == NativeBag(segs[k].index) && segs[k].name == IssuedName(segs[k].index, |natives|)
    ensures IsNativeOf(natives, segs[k].source, segs[k].node) && IsIssuedOf(natives, segs[k].name, segs[k].node)
  {
  }

  lemma OneBagPerSource(dir: Dir, natives: Natives, name: Name, node: Node)
    requires Owned(dir, natives) && IsNativeOf(natives, name, node)
    ensures name in dir ==> dir[name] == node
  {
  }

  lemma OneBagPerName(dir: Dir, natives: Natives, name: Name, node: Node)
    requires Owned(dir, natives) && name in dir && IsIssuedOf(natives, name, node)
    ensures dir[name] == node
  {
  }

  lemma PinsStaySafe(fs: Fs, natives: Natives, a: Action)
    requires Moving(fs, natives) && Inv(fs) && Enabled(fs, a) && (a.Link? || a.Unlink?)
    ensures forall k | 0 <= k < |Pins(fs.doc)| :: PinSafe(Apply(fs, a), Pins(fs.doc)[k])
  {
    forall k | 0 <= k < |Pins(fs.doc)|
      ensures PinSafe(Apply(fs, a), Pins(fs.doc)[k])
    {
      assert PinSafe(fs, Pins(fs.doc)[k]);
      PinSafeStep(fs, a, Pins(fs.doc)[k]);
    }
  }

  lemma LinkMoving(fs: Fs, natives: Natives, seg: Segment)
    requires Moving(fs, natives) && Inv(fs) && Enabled(fs, Link(seg))
    ensures Moving(Apply(fs, Link(seg)), natives)
  {
    OwnNames(fs, natives, seg);
    PinsStaySafe(fs, natives, Link(seg));
  }

  lemma UnlinkMoving(fs: Fs, natives: Natives, seg: Segment)
    requires Moving(fs, natives) && Inv(fs) && Enabled(fs, Unlink(seg))
    ensures Moving(Apply(fs, Unlink(seg)), natives)
  {
    PinsStaySafe(fs, natives, Unlink(seg));
  }

  lemma SyncMoving(fs: Fs, natives: Natives)
    requires Moving(fs, natives)
    ensures Moving(Apply(fs, SyncDir), natives)
  {
    var after := Apply(fs, SyncDir);
    forall k | 0 <= k < |Pins(after.doc)|
      ensures PinSafe(after, Pins(after.doc)[k])
    {
      assert PinSafe(fs, Pins(fs.doc)[k]);
    }
  }

  lemma ReplaceMoving(fs: Fs, natives: Natives, d: Doc)
    requires Moving(fs, natives) && d.segments == fs.doc.value.segments
    ensures Moving(Apply(fs, ReplaceDoc(d)), natives)
  {
    var after := Apply(fs, ReplaceDoc(d));
    forall k | 0 <= k < |Pins(after.doc)|
      ensures PinSafe(after, Pins(after.doc)[k])
    {
      assert PinSafe(fs, Pins(fs.doc)[k]);
    }
  }

  /** Pinning: the scanned list goes into the manifest. */
  lemma PinMoving(fs: Fs, natives: Natives, d: Doc)
    requires Fresh(fs, natives) && Untouched(fs.durable, natives)
    requires d.segments.Some? && Matches(d.segments.value, natives)
    ensures Moving(Apply(fs, ReplaceDoc(d)), natives)
  {
    var after := Apply(fs, ReplaceDoc(d));
    forall k | 0 <= k < |Pins(after.doc)|
      ensures PinSafe(after, Pins(after.doc)[k])
    {
      var seg := Pins(after.doc)[k];
      assert Held(after, NativeBag(seg.index), seg.node);
    }
  }

  lemma SyncResumable(fs: Fs, natives: Natives)
    requires Resumable(fs, natives)
    ensures Resumable(Apply(fs, SyncDir), natives)
  {
    if Moving(fs, natives) {
      SyncMoving(fs, natives);
    }
  }

  lemma ReplaceResumable(fs: Fs, natives: Natives, d: Doc)
    requires Resumable(fs, natives) && Enabled(fs, ReplaceDoc(d))
    requires d.segments.None? || Matches(d.segments.value, natives)
    ensures Resumable(Apply(fs, ReplaceDoc(d)), natives)
  {
    if Moving(fs, natives) {
      ReplaceMoving(fs, natives, d);
    } else if d.segments.Some? {
      PinMoving(fs, natives, d);
    }
  }

  lemma CrashUntouched(fs: Fs, natives: Natives, image: Dir)
    requires Untouched(fs.live, natives) && Untouched(fs.durable, natives) && CrashImage(fs, image)
    ensures Untouched(image, natives)
  {
    assert forall n | n in image :: SameAt(image, fs.live, n) || SameAt(image, fs.durable, n);
    forall i | i in natives
      ensures NativeBag(i) in image && image[NativeBag(i)] == natives[i]
    {
      assert SameAt(image, fs.live, NativeBag(i)) || SameAt(image, fs.durable, NativeBag(i));
    }
  }

  /** Before anything is pinned, a crash leaves a state finalization can begin in,
      with the bags that survive. */
  lemma CrashBegins(fs: Fs, image: Dir, keepDoc: bool)
    requires !HasPins(fs.doc) && !HasPins(fs.durableDoc) && CrashImage(fs, image)
    requires Plain(fs.live) && Plain(fs.durable)
    ensures Fresh(Apply(fs, Crash(image, keepDoc)), Bags(image))
  {
    assert forall n | n in image :: SameAt(image, fs.live, n) || SameAt(image, fs.durable, n);
    PlainIsUntouched(image);
  }

  /** A bag that was synced is among them. */
  lemma SyncedBagsSurvive(fs: Fs, image: Dir)
    requires CrashImage(fs, image)
    ensures forall i, node | Held(fs, NativeBag(i), node) :: i in Bags(image) && Bags(image)[i] == node
  {
    forall i, node | Held(fs, NativeBag(i), node)
      ensures i in Bags(image) && Bags(image)[i] == node
    {
      assert SameAt(image, fs.live, NativeBag(i)) || SameAt(image, fs.durable, NativeBag(i));
      assert NativeBag(i) in image;
    }
  }

  /** A crash leaves a resumable state resumable, with the same bags. */
  lemma CrashResumable(fs: Fs, natives: Natives, image: Dir, keepDoc: bool)
    requires Resumable(fs, natives) && CrashImage(fs, image)
    ensures Resumable(Apply(fs, Crash(image, keepDoc)), natives)
  {
    var after := Apply(fs, Crash(image, keepDoc));
    if Moving(fs, natives) && HasPins(after.doc) {
      CrashMoving(fs, natives, image, keepDoc);
    } else {
      CrashUntouched(fs, natives, image);
    }
  }

  lemma CrashOwned(fs: Fs, natives: Natives, image: Dir)
    requires Owned(fs.live, natives) && Owned(fs.durable, natives) && CrashImage(fs, image)
    ensures Owned(image, natives)
  {
    assert forall n | n in image :: SameAt(image, fs.live, n) || SameAt(image, fs.durable, n);
  }

  lemma CrashPinSafe(fs: Fs, image: Dir, keepDoc: bool, seg: Segment)
    requires PinSafe(fs, seg) && CrashImage(fs, image)
    ensures PinSafe(Apply(fs, Crash(image, keepDoc)), seg)
  {
    var name := if Held(fs, seg.source, seg.node) then seg.source else seg.name;
    assert SameAt(image, fs.live, name) || SameAt(image, fs.durable, name);
  }

  lemma CrashMoving(fs: Fs, natives: Natives, image: Dir, keepDoc: bool)
    requires Moving(fs, natives) && CrashImage(fs, image)
    requires HasPins(Apply(fs, Crash(image, keepDoc)).doc)
    ensures Moving(Apply(fs, Crash(image, keepDoc)), natives)
  {
    var after := Apply(fs, Crash(image, keepDoc));
    CrashOwned(fs, natives, image);
    assert Pins(after.doc) == Pins(fs.doc);
    forall k | 0 <= k < |Pins(after.doc)|
      ensures PinSafe(after, Pins(after.doc)[k])
    {
      assert PinSafe(fs, Pins(fs.doc)[k]);
      CrashPinSafe(fs, image, keepDoc, Pins(fs.doc)[k]);
    }
  }

  lemma CrashActives(fs: Fs, image: Dir)
    requires SameActives(fs.live, fs.durable) && CrashImage(fs, image)
    ensures SameActives(fs.live, image)
  {
    forall n | n in fs.live && n.ActiveBag?
      ensures n in image && image[n] == fs.live[n]
    {
      assert SameAt(image, fs.live, n) || SameAt(image, fs.durable, n);
    }
    assert forall n | n in image :: SameAt(image, fs.live, n) || SameAt(image, fs.durable, n);
  }

  lemma CrashSettled(fs: Fs, natives: Natives, image: Dir)
    requires Settled(fs.live, natives) && Settled(fs.durable, natives) && CrashImage(fs, image)
    ensures Settled(image, natives)
  {
    forall i | i in natives
      ensures NativeBag(i) !in image
      ensures IssuedName(i, |natives|) in image && image[IssuedName(i, |natives|)] == natives[i]
    {
      assert SameAt(image, fs.live, NativeBag(i)) || SameAt(image, fs.durable, NativeBag(i));
      assert SameAt(image, fs.live, IssuedName(i, |natives|)) || SameAt(image, fs.durable, IssuedName(i, |natives|));
    }
    assert forall n | n in image :: SameAt(image, fs.live, n) || SameAt(image, fs.durable, n);
  }

  lemma SameAccounts(partial: map<Name, nat>, a: Dir, b: Dir)
    requires SameActives(a, b) && Accounts(partial, a)
    ensures Accounts(partial, b)
  {
  }

  /** A true finalized manifest is true of every crash image. */
  lemma CrashArchived(fs: Fs, natives: Natives, d: Doc, image: Dir)
    requires Archived(fs.live, fs.durable, d, natives) && SameActives(fs.live, fs.durable) && CrashImage(fs, image)
    ensures Archived(image, image, d, natives)
  {
    CrashSettled(fs, natives, image);
    CrashActives(fs, image);
    SameAccounts(d.partial, fs.live, image);
  }

  lemma CrashHealthy(fs: Fs, id: string, natives: Natives, image: Dir, keepDoc: bool)
    requires Inv(fs) && Healthy(fs, id, natives) && CrashImage(fs, image)
    ensures Healthy(Apply(fs, Crash(image, keepDoc)), id, natives)
  {
    var after := Apply(fs, Crash(image, keepDoc));
    CrashResumable(fs, natives, image, keepDoc);
    var d := after.doc.value;
    if d.phase == Finalized {
      CrashArchived(fs, natives, d, image);
    }
  }

  /** Once a manifest is finalized there is nothing left to link or unlink. */
  lemma NothingToMove(fs: Fs, id: string, natives: Natives, seg: Segment)
    requires Inv(fs) && Healthy(fs, id, natives) && seg in Pins(fs.doc) && seg.source in fs.live
    ensures fs.doc.value.phase in {Pending, Failed} && fs.durableDoc.value.phase in {Pending, Failed}
  {
    var segs := Pins(fs.doc);
    var k :| 0 <= k < |segs| && segs[k] == seg;
    assert segs[k].index in natives && seg.source == NativeBag(seg.index);
  }

  lemma MoveHealthy(fs: Fs, id: string, natives: Natives, a: Action)
    requires Inv(fs) && Healthy(fs, id, natives) && Enabled(fs, a) && (a.Link? || a.Unlink?)
    ensures Healthy(Apply(fs, a), id, natives)
  {
    NothingToMove(fs, id, natives, a.seg);
    if a.Link? {
      OwnNames(fs, natives, a.seg);
      LinkMoving(fs, natives, a.seg);
    } else {
      OwnNames(fs, natives, a.seg);
      UnlinkMoving(fs, natives, a.seg);
    }
    ActivesStay(fs, natives, a);
  }

  lemma ActivesStay(fs: Fs, natives: Natives, a: Action)
    requires Moving(fs, natives) && SameActives(fs.live, fs.durable) && Enabled(fs, a) && (a.Link? || a.Unlink?)
    ensures SameActives(Apply(fs, a).live, fs.durable)
  {
    OwnNames(fs, natives, a.seg);
  }

  lemma KeepHealthy(fs: Fs, id: string, natives: Natives, a: Action)
    requires Inv(fs) && Healthy(fs, id, natives) && Enabled(fs, a) && Tame(id, natives, a)
    ensures Healthy(Apply(fs, a), id, natives)
  {
    match a
    case ReplaceDoc(d) => ReplaceResumable(fs, natives, d);
    case SyncDir => SyncResumable(fs, natives);
    case Link(seg) => MoveHealthy(fs, id, natives, a);
    case Unlink(seg) => MoveHealthy(fs, id, natives, a);
    case LookUp =>
    case Crash(image, keepDoc) => CrashHealthy(fs, id, natives, image, keepDoc);
  }

  /** The last manifest says what is true of the directory. */
  predicate Seals(fs: Fs, id: string, natives: Natives, d: Doc) {
    d.recordId == id && d.ended && d.phase == Finalized && Archived(fs.live, fs.durable, d, natives)
  }

  lemma SealHealthy(fs: Fs, id: string, natives: Natives, d: Doc)
    requires Inv(fs) && Healthy(fs, id, natives) && Enabled(fs, ReplaceDoc(d)) && Seals(fs, id, natives, d)
    ensures Healthy(Apply(fs, ReplaceDoc(d)), id, natives)
  {
    ReplaceResumable(fs, natives, d);
  }

  /** A run of finalization without foreign interference. */
  ghost predicate CalmRun(fs: Fs, id: string, natives: Natives, actions: seq<Action>)
    decreases |actions|
  {
    actions != [] ==>
      && Enabled(fs, actions[0])
      && (Tame(id, natives, actions[0]) || (actions[0].ReplaceDoc? && Seals(fs, id, natives, actions[0].doc)))
      && CalmRun(Apply(fs, actions[0]), id, natives, actions[1..])
  }

  /** Undisturbed finalization passes through healthy states only, whatever
      crashes cut it short. */
  lemma {:induction false} HealthyRun(fs: Fs, id: string, natives: Natives, actions: seq<Action>, end: Fs)
    requires Inv(fs) && Healthy(fs, id, natives) && Runs(fs, actions, end) && CalmRun(fs, id, natives, actions)
    ensures Healthy(end, id, natives)
    decreases |actions|
  {
    if actions != [] {
      var a := actions[0];
      KeepInv(fs, a);
      if Tame(id, natives, a) {
        KeepHealthy(fs, id, natives, a);
      } else {
        SealHealthy(fs, id, natives, a.doc);
      }
      HealthyRun(Apply(fs, a), id, natives, actions[1..], end);
    }
  }

  lemma {:induction false} TameRun(fs: Fs, id: string, natives: Natives, actions: seq<Action>, end: Fs)
    requires Runs(fs, actions, end) && forall k | 0 <= k < |actions| :: Tame(id, natives, actions[k])
    ensures CalmRun(fs, id, natives, actions)
    decreases |actions|
  {
    if actions != [] {
      TameRun(Apply(fs, actions[0]), id, natives, actions[1..], end);
    }
  }

  /** Where healthy states come from: the recorder has exited, its bags are on disk,
      and the pending manifest has been written and synced. */
  lemma FirstManifestIsHealthy(fs: Fs, natives: Natives, d: Doc)
    requires Untouched(fs.live, natives) && d.ended && d.phase == Pending && d.segments.None?
    ensures Healthy(Apply(Apply(fs, ReplaceDoc(d)), SyncDir), d.recordId, natives)
  {
  }

  /** The same of a disk on which that manifest is live and synced. */
  lemma PendingIsHealthy(fs: Fs, natives: Natives)
    requires fs.doc.Some? && fs.durableDoc == fs.doc && fs.durable == fs.live && Untouched(fs.live, natives)
    requires fs.doc.value.ended && fs.doc.value.phase == Pending && fs.doc.value.segments.None?
    ensures Healthy(fs, fs.doc.value.recordId, natives)
  {
  }
}
