/** What crash-safe finalization of a recording does to its directory and its
    manifest, one system call at a time. A directory entry or manifest change is
    volatile until the directory is synced; a crash may keep or lose each
    unsynced change independently. The guards say when finalization may issue
    a call; the laws below hold for every sequence of guarded calls, foreign
    file creations, recorder activity and crashes. */
module ArchiveProtocol {
  import opened Basics
  import opened ArchiveNames

  /** An inode: closed bags do not change size, so an inode is its number
      together with its kind and size. */
  datatype Node = Node(regular: bool, id: nat, size: nat)

  type Dir = map<Name, Node>

  /** One pinned closed bag: native name, issued name, index and inode. */
  datatype Segment = Segment(source: Name, name: Name, index: nat, node: Node)

  datatype Phase = NoPhase | Pending | Failed | Finalized

  datatype BagFile = BagFile(name: Name, size: nat)

  /** The manifest fields finalization reads or writes. Finalized bags are
      keyed by index, the order in which they are listed. */
  datatype Doc = Doc(
    recordId: string, ended: bool, phase: Phase, segments: Option<seq<Segment>>,
    partial: map<Name, nat>, finalized: map<nat, BagFile>)

  /** `live` and `doc` are what processes see; `durable` and `durableDoc` what the
      last directory sync preserved. `cleared` is a point in the program: this
      start looked for a manifest, found none, and has not launched yet. */
  datatype Fs = Fs(
    live: Dir, durable: Dir, doc: Option<Doc>, durableDoc: Option<Doc>,
    launches: nat, recording: bool, cleared: bool)

  datatype Action =
    | ReplaceDoc(doc: Doc)
    | SyncDir
    | Link(seg: Segment)
    | Unlink(seg: Segment)
    | LookUp
    | Launch
    | RecorderWrites(created: Dir, renamed: set<Name>)
    | RecorderExits
    | Foreign(files: Dir)
    | Crash(image: Dir, keepDoc: bool)

  function Pins(d: Option<Doc>): seq<Segment> {
    if d.Some? && d.value.segments.Some? then d.value.segments.value else []
  }

  predicate HasPins(d: Option<Doc>) {
    d.Some? && d.value.segments.Some?
  }

  predicate WellPinned(segs: seq<Segment>) {
    && (forall i | 0 <= i < |segs| ::
          && segs[i].source == NativeBag(segs[i].index)
          && segs[i].name == IssuedName(segs[i].index, |segs|) && segs[i].node.regular)
    && (forall i, j | 0 <= i < j < |segs| :: segs[i].index != segs[j].index)
  }

  /** The name shows this inode now and after any crash. */
  predicate Held(fs: Fs, name: Name, node: Node) {
    name in fs.live && fs.live[name] == node && name in fs.durable && fs.durable[name] == node
  }

  predicate PinSafe(fs: Fs, seg: Segment) {
    Held(fs, seg.source, seg.node) || Held(fs, seg.name, seg.node)
  }

  predicate SameAt(a: Dir, b: Dir, name: Name) {
    if name in b then name in a && a[name] == b[name] else name !in a
  }

  /** Each name independently shows its synced or its latest binding. */
  ghost predicate CrashImage(fs: Fs, image: Dir) {
    forall name: Name :: SameAt(image, fs.live, name) || SameAt(image, fs.durable, name)
  }

  /** A manifest that does not claim to be finalized lists no finalized bag. */
  predicate Honest(d: Doc) {
    d.phase != Finalized ==> d.finalized == map[]
  }

  ghost predicate Enabled(fs: Fs, a: Action) {
    match a
    case ReplaceDoc(d) =>
      && Honest(d) && (d.segments.Some? ==> WellPinned(d.segments.value))
      && (HasPins(fs.doc) ==> d.segments == fs.doc.value.segments)
    case SyncDir => true
    case Link(seg) =>
      && seg in Pins(fs.doc) && seg in Pins(fs.durableDoc)
      && seg.source in fs.live && fs.live[seg.source] == seg.node && seg.name !in fs.live
    case Unlink(seg) =>
      && seg in Pins(fs.doc) && seg in Pins(fs.durableDoc)
      && seg.source in fs.live && fs.live[seg.source] == seg.node && Held(fs, seg.name, seg.node)
    case LookUp => true
    case Launch => fs.cleared && fs.doc.Some? && fs.durableDoc == fs.doc
    case RecorderWrites(_, renamed) =>
      && fs.recording && !HasPins(fs.doc) && !HasPins(fs.durableDoc)
      && forall n | n in renamed :: n.ActiveBag?
    case RecorderExits => true
    case Foreign(_) => true
    case Crash(image, _) => CrashImage(fs, image)
  }

  function Apply(fs: Fs, a: Action): Fs
    requires a.Link? ==> a.seg.source in fs.live
  {
    match a
    case ReplaceDoc(d) => fs.(doc := Some(d))
    case SyncDir => fs.(durable := fs.live, durableDoc := fs.doc)
    case Link(seg) => fs.(live := fs.live[seg.name := fs.live[seg.source]])
    case Unlink(seg) => fs.(live := fs.live - {seg.source})
    case LookUp => fs.(cleared := fs.doc.None?)
    case Launch => fs.(launches := fs.launches + 1, recording := true, cleared := false)
    case RecorderWrites(created, renamed) => fs.(live := created + (fs.live - renamed))
    case RecorderExits => fs.(recording := false)
    case Foreign(files) => fs.(live := files + fs.live)
    case Crash(image, keepDoc) =>
      var d := if keepDoc then fs.doc else fs.durableDoc;
      fs.(live := image, durable := image, doc := d, durableDoc := d, recording := false, cleared := false)
  }

  /** Any finite sequence of enabled actions. */
  ghost predicate Runs(fs: Fs, actions: seq<Action>, end: Fs)
    decreases |actions|
  {
    if actions == [] then end == fs
    else Enabled(fs, actions[0]) && Runs(Apply(fs, actions[0]), actions[1..], end)
  }

  // ---- Invariant ---------------------------------------------------------

  predicate DocInv(d: Option<Doc>) {
    d.Some? ==> Honest(d.value) && (d.value.segments.Some? ==> WellPinned(d.value.segments.value))
  }

  /** Both manifests are well formed, durable pins are never forgotten, a launch
      left a durable manifest behind, and nobody is about to launch again. */
  predicate Inv(fs: Fs) {
    && DocInv(fs.doc) && DocInv(fs.durableDoc)
    && (fs.durableDoc.Some? ==> fs.doc.Some?)
    && (HasPins(fs.durableDoc) ==> HasPins(fs.doc) && fs.doc.value.segments == fs.durableDoc.value.segments)
    && (fs.launches > 0 ==> fs.durableDoc.Some? && !fs.cleared) && fs.launches <= 1
  }

  lemma KeepInv(fs: Fs, a: Action)
    requires Inv(fs) && Enabled(fs, a)
    ensures Inv(Apply(fs, a))
  {
  }

  /** Two pinned segments of one manifest never share a name with each other's
      native or issued name. */
  lemma PinsApart(segs: seq<Segment>, a: Segment, b: Segment)
    requires WellPinned(segs) && a in segs && b in segs
    ensures a.source != b.name
    ensures a == b || (a.source != b.source && a.name != b.name)
  {
    var i :| 0 <= i < |segs| && segs[i] == a;
    var j :| 0 <= j < |segs| && segs[j] == b;
    assert i != j ==> a.index != b.index;
  }

  /** A pin that is reachable now and after any crash stays so across one more
      action, whoever takes it. */
  lemma PinSafeStep(fs: Fs, a: Action, seg: Segment)
    requires Inv(fs) && Enabled(fs, a)
    requires seg in Pins(fs.durableDoc) && PinSafe(fs, seg)
    ensures PinSafe(Apply(fs, a), seg) && seg in Pins(Apply(fs, a).durableDoc)
  {
    match a
    case Link(other) => PinsApart(Pins(fs.durableDoc), other, seg);
    case Unlink(other) => PinsApart(Pins(fs.durableDoc), other, seg);
    case Crash(image, _) =>
      var name := if Held(fs, seg.source, seg.node) then seg.source else seg.name;
      assert SameAt(image, fs.live, name) || SameAt(image, fs.durable, name);
    case _ =>
  }

  // ---- Runs --------------------------------------------------------------

  /** The state in front of action k of a run. */
  lemma {:induction false} RunsTake(fs: Fs, actions: seq<Action>, end: Fs, k: nat) returns (mid: Fs)
    requires Inv(fs) && Runs(fs, actions, end) && k <= |actions|
    ensures Inv(mid) && Runs(fs, actions[..k], mid) && Runs(mid, actions[k..], end)
    ensures k < |actions| ==> Enabled(mid, actions[k])
    decreases |actions|
  {
    if k == 0 {
      mid := fs;
      assert actions[..0] == [] && actions[0..] == actions;
    } else {
      KeepInv(fs, actions[0]);
      mid := RunsTake(Apply(fs, actions[0]), actions[1..], end, k - 1);
      assert actions[..k][1..] == actions[1..][..k - 1] && actions[k..] == actions[1..][k - 1..];
    }
  }

  lemma {:induction false} RunsAppend(fs: Fs, actions: seq<Action>, end: Fs, a: Action)
    requires Runs(fs, actions, end) && Enabled(end, a)
    ensures Runs(fs, actions + [a], Apply(end, a))
    decreases |actions|
  {
    if actions == [] {
      assert ([] + [a])[1..] == [];
    } else {
      RunsAppend(Apply(fs, actions[0]), actions[1..], end, a);
      assert (actions + [a])[1..] == actions[1..] + [a];
    }
  }

  /** Actions determine where a run ends. */
  lemma {:induction false} OneEnd(fs: Fs, actions: seq<Action>, a: Fs, b: Fs)
    requires Runs(fs, actions, a) && Runs(fs, actions, b)
    ensures a == b
    decreases |actions|
  {
    if actions != [] {
      OneEnd(Apply(fs, actions[0]), actions[1..], a, b);
    }
  }

  lemma {:induction false} InvRun(fs: Fs, actions: seq<Action>, end: Fs)
    requires Inv(fs) && Runs(fs, actions, end)
    ensures Inv(end)
    decreases |actions|
  {
    if actions != [] {
      KeepInv(fs, actions[0]);
      InvRun(Apply(fs, actions[0]), actions[1..], end);
    }
  }

  // ---- No byte loss ------------------------------------------------------

  /** The file was moved: a durable pin names it, and its issued name holds it. */
  ghost predicate Relocated(fs: Fs, name: Name, node: Node) {
    exists seg :: seg in Pins(fs.durableDoc) && seg.source == name && seg.node == node && Held(fs, seg.name, node)
  }

  ghost predicate Safe(fs: Fs, name: Name, node: Node) {
    Held(fs, name, node) || Relocated(fs, name, node)
  }

  lemma RelocatedStep(fs: Fs, a: Action, name: Name, node: Node)
    requires Inv(fs) && Enabled(fs, a) && Relocated(fs, name, node)
    ensures Relocated(Apply(fs, a), name, node)
  {
    var seg :| seg in Pins(fs.durableDoc) && seg.source == name && seg.node == node && Held(fs, seg.name, node);
    if a.Unlink? {
      PinsApart(Pins(fs.durableDoc), a.seg, seg);
    } else if a.Crash? {
      assert SameAt(a.image, fs.live, seg.name) || SameAt(a.image, fs.durable, seg.name);
    }
    if !a.RecorderWrites? {
      assert seg in Pins(Apply(fs, a).durableDoc) && Held(Apply(fs, a), seg.name, node);
    }
  }

  lemma HeldStep(fs: Fs, a: Action, name: Name, node: Node)
    requires Inv(fs) && Enabled(fs, a) && Held(fs, name, node) && !name.ActiveBag?
    ensures Safe(Apply(fs, a), name, node)
  {
    match a
    case Unlink(seg) =>
      if seg.source == name {
        PinsApart(Pins(fs.durableDoc), seg, seg);
        assert seg in Pins(Apply(fs, a).durableDoc) && Held(Apply(fs, a), seg.name, node);
      }
    case Crash(image, _) => assert SameAt(image, fs.live, name) || SameAt(image, fs.durable, name);
    case _ =>
  }

  /** Nothing synced is ever lost: any file that is live and synced under a name
      stays so under that name, or under the issued name its durable pin gives
      it, over every run with any number of crashes, starts and foreign files. */
  lemma {:induction false} SafeRun(fs: Fs, actions: seq<Action>, end: Fs, name: Name, node: Node)
    requires Inv(fs) && Runs(fs, actions, end) && !name.ActiveBag? && Safe(fs, name, node)
    ensures Safe(end, name, node)
    decreases |actions|
  {
    if actions != [] {
      KeepInv(fs, actions[0]);
      if Held(fs, name, node) {
        HeldStep(fs, actions[0], name, node);
      } else {
        RelocatedStep(fs, actions[0], name, node);
      }
      SafeRun(Apply(fs, actions[0]), actions[1..], end, name, node);
    }
  }

  /** A name no pin uses as its source cannot be given up. */
  lemma OnlySourcesMove(fs: Fs, name: Name, node: Node)
    requires Inv(fs) && Safe(fs, name, node) && !name.NativeBag?
    ensures Held(fs, name, node)
  {
    var segs := Pins(fs.durableDoc);
    assert forall seg | seg in segs :: seg.source.NativeBag?;
  }

  /** A bag moved away is at the issued name of its only pin. */
  lemma MovedToIssued(fs: Fs, seg: Segment)
    requires Inv(fs) && seg in Pins(fs.doc) && Safe(fs, seg.source, seg.node)
    ensures PinSafe(fs, seg)
  {
    if !Held(fs, seg.source, seg.node) {
      var other :| other in Pins(fs.durableDoc) && other.source == seg.source && other.node == seg.node
                   && Held(fs, other.name, seg.node);
      PinsApart(Pins(fs.doc), other, seg);
    }
  }

  /** The two names a pin can have. */
  predicate Names(seg: Segment) {
    seg.source.NativeBag? && !seg.name.NativeBag? && !seg.name.ActiveBag?
  }

  /** No byte loss: a bag that is reachable under its native or its issued name, in
      the live directory and in the synced one, is so at the end of every run
      that still pins it, across any number of crashes and resumptions; and a
      durable pin is never forgotten. */
  lemma NoByteLoss(fs: Fs, actions: seq<Action>, end: Fs, seg: Segment)
    requires Inv(fs) && Runs(fs, actions, end) && Names(seg) && PinSafe(fs, seg)
    ensures seg in Pins(end.doc) ==> PinSafe(end, seg)
    ensures seg in Pins(fs.durableDoc) ==> seg in Pins(end.durableDoc) && seg in Pins(end.doc)
  {
    InvRun(fs, actions, end);
    PinsStay(fs, actions, end);
    if Held(fs, seg.source, seg.node) {
      SafeRun(fs, actions, end, seg.source, seg.node);
      if seg in Pins(end.doc) {
        MovedToIssued(end, seg);
      }
    } else {
      SafeRun(fs, actions, end, seg.name, seg.node);
      OnlySourcesMove(end, seg.name, seg.node);
    }
  }

  lemma {:induction false} PinsStay(fs: Fs, actions: seq<Action>, end: Fs)
    requires Inv(fs) && Runs(fs, actions, end)
    ensures HasPins(fs.durableDoc) ==> HasPins(end.durableDoc) && HasPins(end.doc)
                                       && Pins(end.durableDoc) == Pins(end.doc) == Pins(fs.durableDoc)
    decreases |actions|
  {
    if actions != [] {
      KeepInv(fs, actions[0]);
      PinsStay(Apply(fs, actions[0]), actions[1..], end);
    }
  }

  predicate Shows(dir: Dir, name: Name, node: Node) {
    name in dir && dir[name] == node
  }

  /** What a crash leaves when the names in `lost` fall back to their synced
      binding. */
  function Fallback(fs: Fs, lost: set<Name>): Dir {
    map n | n in fs.live.Keys + fs.durable.Keys && (if n in lost then n in fs.durable else n in fs.live)
      :: if n in lost then fs.durable[n] else fs.live[n]
  }

  lemma FallbackAt(fs: Fs, lost: set<Name>, n: Name)
    ensures SameAt(Fallback(fs, lost), if n in lost then fs.durable else fs.live, n)
  {
  }

  lemma FallbackIsImage(fs: Fs, lost: set<Name>)
    ensures CrashImage(fs, Fallback(fs, lost))
  {
    forall n: Name
      ensures SameAt(Fallback(fs, lost), fs.live, n) || SameAt(Fallback(fs, lost), fs.durable, n)
    {
      FallbackAt(fs, lost, n);
    }
  }

  /** Every crash image is a fallback: the names that do not show their latest
      binding show their synced one. */
  lemma EveryImageIsFallback(fs: Fs, image: Dir) returns (lost: set<Name>)
    requires CrashImage(fs, image)
    ensures image == Fallback(fs, lost)
  {
    lost := set n | n in image.Keys + fs.live.Keys + fs.durable.Keys && !SameAt(image, fs.live, n);
    forall n: Name
      ensures SameAt(image, Fallback(fs, lost), n)
    {
      FallbackAt(fs, lost, n);
      assert SameAt(image, fs.live, n) || SameAt(image, fs.durable, n);
    }
    SameMaps(image, Fallback(fs, lost));
  }

  lemma SameMaps(a: Dir, b: Dir)
    requires forall n: Name :: SameAt(a, b, n)
    ensures a == b
  {
    forall n: Name ensures n in a <==> n in b {
      assert SameAt(a, b, n);
    }
    forall n | n in a ensures a[n] == b[n] {
      assert SameAt(a, b, n);
    }
  }

  /** Being held under one of the two names is exactly what it takes: a bag is
      reachable in every possible crash image if and only if one of its names
      shows it both live and synced. */
  lemma ReachableExactly(fs: Fs, seg: Segment)
    ensures PinSafe(fs, seg) <==>
            forall image: Dir | CrashImage(fs, image) ::
              Shows(image, seg.source, seg.node) || Shows(image, seg.name, seg.node)
  {
    if PinSafe(fs, seg) {
      forall image: Dir | CrashImage(fs, image)
        ensures Shows(image, seg.source, seg.node) || Shows(image, seg.name, seg.node)
      {
        var name := if Held(fs, seg.source, seg.node) then seg.source else seg.name;
        assert SameAt(image, fs.live, name) || SameAt(image, fs.durable, name);
      }
    } else {
      var image := LosingImage(fs, seg);
    }
  }

  lemma LosingImage(fs: Fs, seg: Segment) returns (image: Dir)
    requires !PinSafe(fs, seg)
    ensures CrashImage(fs, image) && !Shows(image, seg.source, seg.node) && !Shows(image, seg.name, seg.node)
  {
    var lost := set n | n in {seg.source, seg.name} && Shows(fs.live, n, seg.node);
    image := Fallback(fs, lost);
    FallbackAt(fs, lost, seg.source);
    FallbackAt(fs, lost, seg.name);
    FallbackIsImage(fs, lost);
  }

  /** Reachable at the end of every run that still pins the bag. */
  ghost predicate Survives(fs: Fs, seg: Segment) {
    forall actions: seq<Action>, end: Fs | Runs(fs, actions, end) && seg in Pins(end.doc) ::
      Shows(end.live, seg.source, seg.node) || Shows(end.live, seg.name, seg.node)
  }

  /** What pinning needs. Just after its pin is written a bag survives every run if
      and only if the synced directory already showed it under its native name,
      or a link under its issued name was already live and synced. */
  lemma PinSurvivesExactly(fs: Fs, d: Doc, seg: Segment)
    requires Inv(fs) && Enabled(fs, ReplaceDoc(d)) && d.segments.Some? && seg in d.segments.value
    requires Shows(fs.live, seg.source, seg.node)
    ensures Survives(Apply(fs, ReplaceDoc(d)), seg)
            <==> Shows(fs.durable, seg.source, seg.node) || Held(fs, seg.name, seg.node)
  {
    var after := Apply(fs, ReplaceDoc(d));
    KeepInv(fs, ReplaceDoc(d));
    var k :| 0 <= k < |d.segments.value| && d.segments.value[k] == seg;
    if PinSafe(fs, seg) {
      forall actions: seq<Action>, end: Fs | Runs(after, actions, end) && seg in Pins(end.doc)
        ensures Shows(end.live, seg.source, seg.node) || Shows(end.live, seg.name, seg.node)
      {
        NoByteLoss(after, actions, end, seg);
      }
    } else {
      var image := LosingImage(after, seg);
      var crash := Crash(image, true);
      var end := Apply(after, crash);
      assert [crash][1..] == [] && Runs(end, [], end);
      assert Runs(after, [crash], end) && seg in Pins(end.doc);
    }
  }

  /** An unsynced pin can be lost: a native-looking file that someone else creates
      after the first sync can be pinned, and a crash before the next one can
      keep the manifest but not the file. */
  lemma UnsyncedPinCanBeLost(node: Node) returns (fs: Fs, actions: seq<Action>, end: Fs, seg: Segment)
    requires node.regular
    ensures Inv(fs) && Runs(fs, actions, end) && seg in Pins(end.durableDoc) && !PinSafe(end, seg)
  {
    var pending := Doc("r", true, Pending, None, map[], map[]);
    fs := Fs(map[], map[], Some(pending), Some(pending), 1, false, false);
    seg := Segment(NativeBag(0), WholeBag, 0, node);
    var created := Foreign(map[NativeBag(0) := node]);
    var pinned := ReplaceDoc(pending.(segments := Some([seg])));
    var crash := Crash(map[], true);
    actions := [created, pinned, crash];
    var one := Apply(fs, created);
    var two := Apply(one, pinned);
    end := Apply(two, crash);
    assert CrashImage(two, map[]) by {
      assert forall n: Name :: SameAt(map[], two.durable, n);
    }
    assert Runs(end, [], end);
    assert [crash][1..] == [] && Runs(two, [crash], end);
    assert [pinned, crash][1..] == [crash] && Runs(one, [pinned, crash], end);
    assert actions[1..] == [pinned, crash];
  }

  // ---- No replacement ----------------------------------------------------

  lemma KeptLiveStep(fs: Fs, a: Action, name: Name, node: Node)
    requires Inv(fs) && Enabled(fs, a) && !a.Crash? && Shows(fs.live, name, node) && !name.ActiveBag?
    ensures Shows(Apply(fs, a).live, name, node) || Relocated(Apply(fs, a), name, node)
  {
    if a.Unlink? && a.seg.source == name {
      PinsApart(Pins(fs.durableDoc), a.seg, a.seg);
      assert a.seg in Pins(Apply(fs, a).durableDoc) && Held(Apply(fs, a), a.seg.name, node);
    }
  }

  /** No replacement: as long as the machine stays up, every closed or foreign file
      keeps its inode under its name, whoever acts and however often, unless it
      is a pinned native bag whose issued name then holds it, live and synced. */
  lemma {:induction false} NoReplacement(fs: Fs, actions: seq<Action>, end: Fs, name: Name)
    requires Inv(fs) && Runs(fs, actions, end) && (forall k | 0 <= k < |actions| :: !actions[k].Crash?)
    requires name in fs.live && !name.ActiveBag?
    ensures Shows(end.live, name, fs.live[name]) || Relocated(end, name, fs.live[name])
    decreases |actions|
  {
    if actions != [] {
      var a, node := actions[0], fs.live[name];
      KeepInv(fs, a);
      KeptLiveStep(fs, a, name, node);
      if Shows(Apply(fs, a).live, name, node) {
        NoReplacement(Apply(fs, a), actions[1..], end, name);
      } else {
        RelocatedRun(Apply(fs, a), actions[1..], end, name, node);
      }
    }
  }

  lemma {:induction false} RelocatedRun(fs: Fs, actions: seq<Action>, end: Fs, name: Name, node: Node)
    requires Inv(fs) && Runs(fs, actions, end) && Relocated(fs, name, node)
    ensures Relocated(end, name, node)
    decreases |actions|
  {
    if actions != [] {
      KeepInv(fs, actions[0]);
      RelocatedStep(fs, actions[0], name, node);
      RelocatedRun(Apply(fs, actions[0]), actions[1..], end, name, node);
    }
  }

  // ---- Pins come before renames ------------------------------------------

  predicate Carries(a: Action, seg: Segment) {
    a.ReplaceDoc? && a.doc.segments.Some? && seg in a.doc.segments.value
  }

  /** A sync, or a crash that happened to keep the latest manifest. */
  predicate Persists(a: Action) {
    a.SyncDir? || (a.Crash? && a.keepDoc)
  }

  /** Action i writes the pin and a later action j makes it durable. */
  predicate PinnedBy(actions: seq<Action>, seg: Segment, i: int, j: int) {
    0 <= i < j < |actions| && Carries(actions[i], seg) && Persists(actions[j])
  }

  lemma PinAppears(fs: Fs, a: Action, seg: Segment)
    requires Enabled(fs, a) && seg !in Pins(fs.durableDoc)
    ensures seg in Pins(Apply(fs, a).durableDoc) ==> Persists(a) && seg in Pins(fs.doc)
    ensures seg !in Pins(Apply(fs, a).durableDoc) && seg in Pins(Apply(fs, a).doc) && seg !in Pins(fs.doc) ==>
              Carries(a, seg)
  {
  }

  lemma {:induction false} Provenance(fs: Fs, actions: seq<Action>, end: Fs, seg: Segment) returns (i: int, j: int)
    requires Runs(fs, actions, end) && seg in Pins(end.durableDoc) && seg !in Pins(fs.durableDoc)
    ensures 0 <= j < |actions| && Persists(actions[j])
    ensures seg in Pins(fs.doc) || PinnedBy(actions, seg, i, j)
    decreases |actions|
  {
    var mid := Apply(fs, actions[0]);
    PinAppears(fs, actions[0], seg);
    if seg in Pins(mid.durableDoc) {
      i, j := 0, 0;
    } else {
      i, j := Provenance(mid, actions[1..], end, seg);
      i, j := if seg in Pins(mid.doc) then 0 else i + 1, j + 1;
    }
  }

  /** No rename before its pin is durable: in any run that starts without pins,
      whoever takes part and however often it crashes, every link or unlink of a
      segment comes after a manifest with that segment was written and, later,
      made durable. */
  lemma RenameOnlyPinned(fs: Fs, actions: seq<Action>, end: Fs, k: nat) returns (i: int, j: int)
    requires Inv(fs) && Runs(fs, actions, end) && !HasPins(fs.doc) && !HasPins(fs.durableDoc)
    requires k < |actions| && (actions[k].Link? || actions[k].Unlink?)
    ensures i < j < k && PinnedBy(actions, actions[k].seg, i, j)
  {
    var mid := RunsTake(fs, actions, end, k);
    i, j := Provenance(fs, actions[..k], mid, actions[k].seg);
  }

  // ---- At most one launch ------------------------------------------------

  function Launches(actions: seq<Action>): nat {
    if actions == [] then 0 else (if actions[0].Launch? then 1 else 0) + Launches(actions[1..])
  }

  /** Over any sequence of starts and crashes the native recorder is launched at
      most once. Each start may launch after finding no manifest; the launch
      comes behind a durable manifest, so no later start finds none. */
  lemma {:induction false} LaunchedAtMostOnce(fs: Fs, actions: seq<Action>, end: Fs)
    requires Inv(fs) && Runs(fs, actions, end)
    ensures end.launches == fs.launches + Launches(actions) <= 1
    decreases |actions|
  {
    if actions != [] {
      KeepInv(fs, actions[0]);
      LaunchedAtMostOnce(Apply(fs, actions[0]), actions[1..], end);
    }
  }

  // ---- Before the first pending manifest is durable ------------------------

  /** The manifest of a record that is still being written. */
  predicate InProgress(d: Doc) {
    !d.ended && d.phase == NoPhase && d.segments.None? && d.finalized == map[]
  }

  /** From every state of a record in progress: the recorder exits, finalization
      writes its first pending manifest, and a crash comes before the sync. What
      survives is the manifest in progress. */
  lemma EarlyCrashForgets(fs: Fs, image: Dir) returns (actions: seq<Action>, end: Fs)
    requires Inv(fs) && fs.doc.Some? && InProgress(fs.doc.value) && fs.durableDoc == fs.doc
    requires CrashImage(fs, image)
    ensures Runs(fs, actions, end)
    ensures exists k :: 0 <= k < |actions| && actions[k] == ReplaceDoc(fs.doc.value.(ended := true, phase := Pending))
    ensures end.doc == fs.doc && end.durableDoc == fs.doc && end.live == image == end.durable
  {
    var pending := ReplaceDoc(fs.doc.value.(ended := true, phase := Pending));
    var crash := Crash(image, false);
    actions := [RecorderExits, pending, crash];
    var one := Apply(fs, RecorderExits);
    var two := Apply(one, pending);
    end := Apply(two, crash);
    assert CrashImage(two, image) by {
      assert forall n: Name :: SameAt(image, fs.live, n) || SameAt(image, fs.durable, n);
    }
    assert Runs(end, [], end);
    assert [crash][1..] == [] && Runs(two, [crash], end);
    assert [pending, crash][1..] == [crash] && Runs(one, [pending, crash], end);
    assert actions[1..] == [pending, crash] && actions[1] == pending;
  }
}
