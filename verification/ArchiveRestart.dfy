/** Starts and failures of the recorder program over the lifetime of a record: the
    startup guard, the launch, and what any number of interrupted starts leaves. */
module ArchiveRestart {
  import opened Basics
  import opened ArchiveNames
  import opened ArchiveProtocol
  import opened ArchiveState
  import opened ArchiveFinalizer

  /** How a start goes: cut off before it looked, refused because of an existing
      manifest or files or lack of space, finalizing an earlier recording, cut off
      before the launch, or recording. */
  datatype Began = Cut | Refused | Finalizing(exit: Exit) | CutBeforeLaunch | Launched(exit: Exit)

  /** What the native recorder does between two looks at it: it writes files and
      renames some of the bags it was writing. The manifest is then rewritten if
      something the program watches has changed. */
  datatype Effect = Effect(created: Dir, renamed: set<Name>, rewrites: bool)

  /** How a process ends: killed, or with the machine, losing unsynced changes. */
  datatype Failure = Killed | PowerLoss(lost: set<Name>, keepDoc: bool)

  /** One start under arbitrary circumstances: calls until the end, files others
      create, free space, what the native recorder does, and how it ends. */
  datatype Life = Life(
    budget: nat, arrivals: seq<Dir>, enoughSpace: bool, effects: seq<Effect>, failure: Failure)

  /** Nothing but files created by others, and this start's own look. */
  predicate LeftAlone(before: Fs, after: Fs) {
    after == before.(live := after.live, cleared := after.cleared) && Kept(before.live, after.live)
  }

  function After(dir: Dir, e: Effect): Dir {
    e.created + (dir - set n | n in e.renamed && n.ActiveBag?)
  }

  function Cost(e: Effect): nat {
    if e.rewrites then 3 else 1
  }

  /** The calls the program and its recorder have made once all this has happened. */
  function Calls(effects: seq<Effect>): nat {
    if effects == [] then 0 else Cost(effects[0]) + Calls(effects[1..])
  }

  /** The directory the recorder leaves. */
  function Written(dir: Dir, effects: seq<Effect>): Dir
    decreases |effects|
  {
    if effects == [] then dir else Written(After(dir, effects[0]), effects[1..])
  }

  /** One effect of the recorder, and the manifest perhaps rewritten. */
  method ObserveOnce(rec: Recorder, manifest: Doc, e: Effect) returns (alive: bool)
    requires rec.Valid() && rec.fs.recording && rec.fs.doc == Some(manifest) && rec.fs.durableDoc == rec.fs.doc
    requires InProgress(manifest)
    modifies rec
    ensures rec.Valid() && old(rec.history) <= rec.history && rec.fs.launches == old(rec.fs.launches)
    ensures rec.origin == old(rec.origin) && rec.fs.doc == Some(manifest) && rec.fs.durableDoc == rec.fs.doc
    ensures rec.fs.recording && alive == (old(rec.steps) >= Cost(e))
    ensures alive ==> rec.steps + Cost(e) == old(rec.steps)
    ensures alive && old(rec.arrivals) == [] ==> rec.arrivals == [] && rec.fs.live == After(old(rec.fs.live), e)
  {
    alive := rec.Tick();
    if alive {
      rec.Do(RecorderWrites(e.created, set n | n in e.renamed && n.ActiveBag?));
      if e.rewrites {
        alive := rec.WriteManifest(manifest);
      }
    }
  }

  /** While the recorder runs. */
  method Observe(rec: Recorder, manifest: Doc, effects: seq<Effect>) returns (alive: bool)
    requires rec.Valid() && rec.fs.recording && rec.fs.doc == Some(manifest) && rec.fs.durableDoc == rec.fs.doc
    requires InProgress(manifest)
    modifies rec
    ensures rec.Valid() && old(rec.history) <= rec.history && rec.fs.launches == old(rec.fs.launches)
    ensures rec.origin == old(rec.origin) && rec.fs.doc == Some(manifest) && rec.fs.durableDoc == rec.fs.doc
    ensures alive == (old(rec.steps) >= Calls(effects)) && (alive ==> rec.steps + Calls(effects) == old(rec.steps))
    ensures alive && old(rec.arrivals) == [] ==> rec.arrivals == [] && rec.fs.live == Written(old(rec.fs.live), effects)
  {
    for i := 0 to |effects|
      invariant rec.Valid() && old(rec.history) <= rec.history && rec.fs.launches == old(rec.fs.launches)
      invariant rec.fs.recording && rec.fs.doc == Some(manifest) && rec.fs.durableDoc == rec.fs.doc
      invariant rec.origin == old(rec.origin) && rec.steps - Calls(effects[i..]) == old(rec.steps) - Calls(effects)
      invariant old(rec.arrivals) == [] ==>
                  rec.arrivals == [] && Written(rec.fs.live, effects[i..]) == Written(old(rec.fs.live), effects)
    {
      assert effects[i..][0] == effects[i] && effects[i..][1..] == effects[i + 1..];
      alive := ObserveOnce(rec, manifest, effects[i]);
      if !alive {
        return;
      }
    }
    alive := true;
  }

  /** What a session leaves that had `calls` calls left when the recorder exited
      (fewer than none if the session ended before): the manifest in progress, the
      pending one once one call was left, a synced one with two, and the finalized
      and true one with enough. */
  ghost predicate Closed(rec: Recorder, natives: Natives, exit: Exit, calls: int)
    reads rec
  {
    && rec.fs.doc.Some? && exit in {Crashed, Done}
    && (if calls >= 1 then rec.Underway(natives) else InProgress(rec.fs.doc.value) && rec.fs.durableDoc == rec.fs.doc)
    && (calls >= 2 ==> rec.Undisturbed(natives))
    && (calls >= Recorder.Enough(|natives|) ==> exit == Done)
    && (exit == Done ==> Seals(rec.fs, rec.recordId, natives, rec.fs.doc.value) && rec.fs.durableDoc == rec.fs.doc)
  }

  lemma OnwardIsClosed(rec: Recorder, natives: Natives, exit: Exit, before: Fs, d: Doc, calls: nat)
    requires rec.Valid() && rec.Onward(natives, before, d, calls) && Resumes(rec.recordId, d)
    requires before.doc.Some? && InProgress(before.doc.value) && before.durableDoc == before.doc
    requires exit in {Crashed, Done} && (calls >= Recorder.Enough(|natives|) ==> exit == Done)
    requires exit == Done ==> rec.Undisturbed(natives) && rec.fs.doc.Some? && rec.fs.durableDoc == rec.fs.doc
                              && rec.fs.doc.value.phase == Finalized
    ensures Closed(rec, natives, exit, calls)
  {
    if rec.Undisturbed(natives) {
      FinishedMeansSealed(rec, natives);
    }
  }

  method Exits(rec: Recorder, ghost natives: Natives)
    requires rec.Valid()
    modifies rec`fs, rec`history
    ensures rec.Valid() && old(rec.history) <= rec.history && rec.fs == old(rec.fs).(recording := false)
    ensures old(rec.Beginning(natives)) ==> rec.Beginning(natives)
  {
    rec.Do(RecorderExits);
  }

  /** The end of the recording is entered into the manifest, and the files finalized. */
  method Close(rec: Recorder, manifest: Doc, ghost natives: Natives) returns (exit: Exit)
    requires rec.Valid() && rec.fs.doc == Some(manifest) && rec.fs.durableDoc == rec.fs.doc && InProgress(manifest)
    modifies rec
    ensures rec.Valid() && old(rec.history) <= rec.history && rec.fs.launches == old(rec.fs.launches)
    ensures rec.origin == old(rec.origin)
    ensures old(rec.Beginning(natives)) && manifest.recordId == rec.recordId ==>
              Closed(rec, natives, exit, old(rec.steps))
  {
    ghost var quiet := rec.Beginning(natives) && manifest.recordId == rec.recordId;
    ghost var before := rec.fs;
    var d := manifest.(ended := true);
    ghost var seen;
    exit, seen := rec.FinalizeArchiveFiles(d, natives);
    if quiet {
      OnwardIsClosed(rec, natives, exit, before, rec.Pended(d), old(rec.steps));
    }
  }

  /** The recording, and its end. */
  method Record(rec: Recorder, manifest: Doc, effects: seq<Effect>) returns (exit: Exit)
    requires rec.Valid() && rec.fs.recording && rec.fs.doc == Some(manifest) && rec.fs.durableDoc == rec.fs.doc
    requires InProgress(manifest)
    modifies rec
    ensures rec.Valid() && old(rec.history) <= rec.history && rec.fs.launches == old(rec.fs.launches)
    ensures rec.origin == old(rec.origin)
    ensures var dir := Written(old(rec.fs.live), effects);
            old(rec.arrivals) == [] && Plain(dir) && manifest.recordId == rec.recordId ==>
              Closed(rec, Bags(dir), exit, old(rec.steps) - Calls(effects))
  {
    ghost var dir := Written(rec.fs.live, effects);
    if Plain(dir) { PlainIsUntouched(dir); }
    exit := Crashed;
    var alive := Observe(rec, manifest, effects);
    if alive {
      Exits(rec, Bags(dir));
      exit := Close(rec, manifest, Bags(dir));
    }
  }

  /** A fresh directory is recorded into once the manifest is durable. */
  method Launch(rec: Recorder, effects: seq<Effect>) returns (began: Began)
    requires rec.Valid() && rec.fs.doc.None? && rec.fs.cleared
    modifies rec
    ensures rec.Valid() && old(rec.history) <= rec.history && rec.origin == old(rec.origin)
    ensures if old(rec.steps) >= 3 then began.Launched? else began.CutBeforeLaunch?
    ensures rec.fs.launches == old(rec.fs.launches) + (if began.Launched? then 1 else 0)
    ensures var dir := Written(old(rec.fs.live), effects);
            began.Launched? && old(rec.arrivals) == [] && Plain(dir) ==>
              Closed(rec, Bags(dir), began.exit, old(rec.steps) - 3 - Calls(effects))
  {
    var manifest := Doc(rec.recordId, false, NoPhase, None, map[], map[]);
    var alive := rec.WriteManifest(manifest);
    if !alive {
      return CutBeforeLaunch;
    }
    alive := rec.Tick();
    if !alive {
      return CutBeforeLaunch;
    }
    rec.Do(Action.Launch);
    var exit := Record(rec, manifest, effects);
    began := Launched(exit);
  }

  /** An existing manifest is finalized or left alone, by what it says alone. */
  method TakeUp(rec: Recorder, ghost natives: Natives) returns (began: Began)
    requires rec.Valid() && rec.fs.doc.Some?
    modifies rec
    ensures rec.Valid() && old(rec.history) <= rec.history && rec.fs.launches == old(rec.fs.launches)
    ensures rec.origin == old(rec.origin)
    ensures if Resumes(rec.recordId, old(rec.fs.doc.value)) then began.Finalizing?
            else began == Refused && rec.fs == old(rec.fs) && rec.history == old(rec.history)
                 && rec.arrivals == old(rec.arrivals) && rec.base == old(rec.base) && rec.mark == old(rec.mark)
    ensures began == Finalizing(Done) ==> rec.fs.doc.Some? && rec.fs.doc.value.phase == Finalized
                                          && rec.fs.durableDoc == rec.fs.doc && rec.fs.durable == rec.fs.live
    ensures old(rec.Undisturbed(natives)) ==> rec.Undisturbed(natives)
    ensures old(rec.Underway(natives)) ==> rec.Underway(natives)
    ensures old(rec.Underway(natives)) && began.Finalizing? && old(rec.steps) >= 2 ==> rec.Undisturbed(natives)
    ensures old(rec.Underway(natives)) && began.Finalizing? && old(rec.steps) >= Recorder.Enough(|natives|) ==>
              began.exit == Done
  {
    var existing := rec.fs.doc.value;
    if !Resumes(rec.recordId, existing) {
      return Refused;
    }
    ghost var seen;
    var exit;
    exit, seen := rec.FinalizeArchiveFiles(existing, natives);
    began := Finalizing(exit);
  }

  /** Is there a manifest? */
  method Look(rec: Recorder, ghost natives: Natives) returns (alive: bool)
    requires rec.Valid()
    modifies rec
    ensures rec.Valid() && old(rec.history) <= rec.history && rec.origin == old(rec.origin)
    ensures alive == (old(rec.steps) > 0) && rec.steps == (if alive then old(rec.steps) - 1 else 0)
    ensures LeftAlone(old(rec.fs), rec.fs) && (!alive ==> rec.fs == old(rec.fs))
    ensures alive ==> rec.fs.cleared == rec.fs.doc.None?
    ensures old(rec.arrivals) == [] ==> rec.arrivals == [] && rec.fs.live == old(rec.fs.live)
    ensures old(rec.Undisturbed(natives)) ==> rec.Undisturbed(natives) && rec.fs.doc.Some?
    ensures old(rec.Underway(natives)) ==> rec.Underway(natives) && rec.fs.doc.Some?
  {
    if rec.Undisturbed(natives) {
      rec.Undocumented(natives);
    }
    alive := rec.Tick();
    if alive {
      rec.Do(LookUp);
    }
  }

  /** The program from its startup guard on, for a version-1 record. An existing
      manifest is finalized if and only if it is this record's, ended, and pending
      or failed, and is otherwise left alone; only a directory without manifest
      and without recorded files leads to a launch. */
  method Start(rec: Recorder, enoughSpace: bool, effects: seq<Effect>, ghost natives: Natives)
    returns (began: Began)
    requires rec.Valid()
    modifies rec
    ensures rec.Valid() && old(rec.history) <= rec.history && rec.origin == old(rec.origin)
    ensures began == Cut <==> old(rec.steps) == 0
    ensures began == Cut ==> rec.fs == old(rec.fs)
    ensures old(rec.steps) > 0 && old(rec.fs.doc.Some?) ==>
              if Resumes(rec.recordId, old(rec.fs.doc.value)) then began.Finalizing?
              else began == Refused && LeftAlone(old(rec.fs), rec.fs)
                   && (old(rec.arrivals) == [] ==> rec.arrivals == [] && rec.fs.live == old(rec.fs.live))
    ensures began.Launched? ==> enoughSpace && old(rec.fs.doc.None?) && forall n | n in old(rec.fs.live) :: n.Elsewhere?
    ensures rec.fs.launches == old(rec.fs.launches) + (if began.Launched? then 1 else 0) <= 1
    ensures began == Finalizing(Done) ==> rec.fs.doc.Some? && rec.fs.doc.value.phase == Finalized
                                          && rec.fs.durableDoc == rec.fs.doc && rec.fs.durable == rec.fs.live
    ensures old(rec.Undisturbed(natives)) ==> rec.Undisturbed(natives)
    ensures old(rec.Underway(natives)) ==> rec.Underway(natives) && !began.Launched?
    ensures old(rec.Underway(natives)) && began.Finalizing? && old(rec.steps) >= 3 ==> rec.Undisturbed(natives)
    ensures old(rec.Underway(natives)) && began.Finalizing? && old(rec.steps) > Recorder.Enough(|natives|) ==>
              began.exit == Done
    ensures old(rec.arrivals == [] && rec.fs.doc.None? && forall n | n in rec.fs.live :: n.Elsewhere?) ==>
              began.Launched? == (enoughSpace && old(rec.steps) >= 4)
    ensures var dir := Written(old(rec.fs.live), effects);
            began.Launched? && old(rec.arrivals) == [] && Plain(dir) ==>
              Closed(rec, Bags(dir), began.exit, old(rec.steps) - 4 - Calls(effects))
  {
    var alive := Look(rec, natives);
    if !alive {
      return Cut;
    }
    if rec.fs.doc.Some? {
      began := TakeUp(rec, natives);
      return;
    }
    if !enoughSpace || exists n | n in rec.fs.live :: !n.Elsewhere? {
      return Refused;
    }
    began := Launch(rec, effects);
  }

  // ---- One start after another -------------------------------------------

  method Fail(rec: Recorder, failure: Failure, ghost natives: Natives)
    requires rec.Valid()
    modifies rec
    ensures rec.Valid() && old(rec.history) <= rec.history && rec.origin == old(rec.origin)
    ensures rec.fs.launches == old(rec.fs.launches) && rec.arrivals == old(rec.arrivals)
    ensures failure.Killed? ==> rec.fs == old(rec.fs)
    ensures failure.PowerLoss? ==>
              rec.fs == Apply(old(rec.fs), Crash(Fallback(old(rec.fs), failure.lost), failure.keepDoc))
    ensures old(rec.Undisturbed(natives)) ==> rec.Undisturbed(natives)
  {
    if failure.PowerLoss? {
      FallbackIsImage(rec.fs, failure.lost);
      rec.Do(Crash(Fallback(rec.fs, failure.lost), failure.keepDoc));
    }
  }

  /** A start and its end. */
  method Once(rec: Recorder, life: Life, ghost natives: Natives) returns (began: Began)
    requires rec.Valid()
    modifies rec
    ensures rec.Valid() && old(rec.history) <= rec.history && rec.origin == old(rec.origin)
    ensures rec.fs.launches == old(rec.fs.launches) + (if began.Launched? then 1 else 0)
    ensures began.Launched? ==> old(rec.fs.doc.None?)
    ensures old(rec.Undisturbed(natives)) && life.arrivals == [] ==> rec.Undisturbed(natives)
    ensures old(rec.Underway(natives)) && life.arrivals == [] && life.failure.Killed? ==> rec.Underway(natives)
    ensures old(rec.Underway(natives)) && life.arrivals == [] && life.budget >= 3 ==> rec.Undisturbed(natives)
    ensures life.failure.PowerLoss? ==> rec.fs.durableDoc == rec.fs.doc && rec.fs.durable == rec.fs.live
  {
    rec.steps, rec.arrivals := life.budget, life.arrivals;
    began := Start(rec, life.enoughSpace, life.effects, natives);
    Fail(rec, life.failure, natives);
  }

  /** Any number of starts under any circumstances: what others create, what the
      native recorder does, when each start is killed or the power fails, and what
      is lost then. The recorder is launched at most once; no file that was live
      and synced is lost; every durable pin that was safe is; and no manifest
      short of finalized lists a finalized bag. */
  method Lives(rec: Recorder, lives: seq<Life>) returns (launches: nat)
    requires rec.Valid()
    modifies rec
    ensures rec.Valid() && old(rec.history) <= rec.history
    ensures old(rec.fs.launches) + launches == rec.fs.launches <= 1
    ensures forall name: Name, node: Node | Held(old(rec.fs), name, node) && !name.ActiveBag? ::
              Safe(rec.fs, name, node)
    ensures forall seg | seg in Pins(old(rec.fs).durableDoc) && PinSafe(old(rec.fs), seg) ::
              seg in Pins(rec.fs.durableDoc) && PinSafe(rec.fs, seg)
    ensures rec.fs.doc.Some? ==> Honest(rec.fs.doc.value)
    ensures rec.fs.durableDoc.Some? ==> Honest(rec.fs.durableDoc.value)
  {
    launches := 0;
    ghost var start, early := rec.fs, rec.history;
    assert early[..|early|] == early;
    for i := 0 to |lives|
      invariant rec.Valid() && early <= rec.history && rec.origin == old(rec.origin)
      invariant old(rec.fs.launches) + launches == rec.fs.launches
    {
      var began := Once(rec, lives[i], map[]);
      launches := launches + (if began.Launched? then 1 else 0);
    }
    assert rec.history[..|early|] == early;
    NothingLost(rec, start, |early|);
  }

  lemma NothingLost(rec: Recorder, start: Fs, from: nat)
    requires rec.Valid() && from <= |rec.history| && Runs(rec.origin, rec.history[..from], start)
    ensures forall name: Name, node: Node | Held(start, name, node) && !name.ActiveBag? :: Safe(rec.fs, name, node)
    ensures forall seg | seg in Pins(start.durableDoc) && PinSafe(start, seg) ::
              seg in Pins(rec.fs.durableDoc) && PinSafe(rec.fs, seg)
  {
    rec.Since(start, from);
    forall name: Name, node: Node | Held(start, name, node) && !name.ActiveBag?
      ensures Safe(rec.fs, name, node)
    {
      SafeRun(start, rec.history[from..], rec.fs, name, node);
    }
    forall seg | seg in Pins(start.durableDoc) && PinSafe(start, seg)
      ensures seg in Pins(rec.fs.durableDoc) && PinSafe(rec.fs, seg)
    {
      rec.SamePins(start, from);
      rec.StillSafe(start, from, seg);
    }
  }

  // ---- Convergence -------------------------------------------------------

  /** A finalized manifest on an undisturbed disk is true of it. */
  lemma FinishedMeansSealed(rec: Recorder, natives: Natives)
    requires rec.Valid() && rec.Undisturbed(natives)
    ensures rec.fs.doc.Some?
    ensures !Resumes(rec.recordId, rec.fs.doc.value) ==> Seals(rec.fs, rec.recordId, natives, rec.fs.doc.value)
    ensures rec.fs.doc.value.phase == Finalized ==> Seals(rec.fs, rec.recordId, natives, rec.fs.doc.value)
  {
    rec.StillHealthy(natives);
  }

  lemma SealedIsHeld(f: Fs, id: string, natives: Natives, d: Doc)
    requires Seals(f, id, natives, d)
    ensures forall i | i in natives :: Held(f, IssuedName(i, |natives|), natives[i])
  {
  }

  method OnceCalm(rec: Recorder, life: Life, ghost natives: Natives)
    requires rec.Valid() && rec.Underway(natives) && life.arrivals == []
    requires life.failure.PowerLoss? ==> rec.Undisturbed(natives) || life.budget >= 3
    modifies rec
    ensures rec.Valid() && rec.Underway(natives) && rec.fs.launches == old(rec.fs.launches)
    ensures old(rec.Undisturbed(natives)) || life.budget >= 3 ==> rec.Undisturbed(natives)
    ensures life.failure.PowerLoss? ==> rec.fs.durableDoc == rec.fs.doc
  {
    if rec.Undisturbed(natives) { FinishedMeansSealed(rec, natives); }
    var began := Once(rec, life, natives);
  }

  /** A start with enough calls before its end finishes what is left to do. */
  method Finish(rec: Recorder, enoughSpace: bool, plenty: nat, ghost natives: Natives)
    requires rec.Valid() && rec.Underway(natives) && rec.fs.doc.Some? && plenty > Recorder.Enough(|natives|)
    modifies rec
    ensures rec.Valid() && rec.Undisturbed(natives) && rec.fs.launches == old(rec.fs.launches)
    ensures rec.fs.doc.Some? && Seals(rec.fs, rec.recordId, natives, rec.fs.doc.value)
    ensures rec.fs.durableDoc == rec.fs.doc
            <==> old(rec.fs.durableDoc == rec.fs.doc) || Resumes(rec.recordId, old(rec.fs.doc.value))
  {
    if rec.Undisturbed(natives) { FinishedMeansSealed(rec, natives); }
    rec.steps := plenty;
    var began := Start(rec, enoughSpace, [], natives);
    FinishedMeansSealed(rec, natives);
  }

  /** By the end of life `k`, some start has had the calls to look, to write the
      pending manifest and to sync it. */
  predicate Synced(lives: seq<Life>, k: nat)
    requires k < |lives|
  {
    exists i | 0 <= i <= k :: lives[i].budget >= 3
  }

  /** Starts that are all interrupted. */
  method Endure(rec: Recorder, lives: seq<Life>, ghost natives: Natives)
    requires rec.Valid() && rec.Underway(natives) && forall k | 0 <= k < |lives| :: lives[k].arrivals == []
    requires forall k | 0 <= k < |lives| && lives[k].failure.PowerLoss? :: rec.Undisturbed(natives) || Synced(lives, k)
    modifies rec
    ensures rec.Valid() && rec.Underway(natives) && rec.fs.launches == old(rec.fs.launches)
    ensures (if lives == [] then old(rec.fs.durableDoc == rec.fs.doc) else lives[|lives| - 1].failure.PowerLoss?) ==>
              rec.fs.durableDoc == rec.fs.doc
  {
    ghost var past := rec.Undisturbed(natives);
    for i := 0 to |lives|
      invariant rec.Valid() && rec.Underway(natives) && rec.fs.launches == old(rec.fs.launches)
      invariant past == (old(rec.Undisturbed(natives)) || (i > 0 && Synced(lives, i - 1)))
      invariant past ==> rec.Undisturbed(natives)
      invariant (if i == 0 then old(rec.fs.durableDoc == rec.fs.doc) else lives[i - 1].failure.PowerLoss?) ==>
                  rec.fs.durableDoc == rec.fs.doc
    {
      assert Synced(lives, i) == ((i > 0 && Synced(lives, i - 1)) || lives[i].budget >= 3);
      past := past || lives[i].budget >= 3;
      OnceCalm(rec, lives[i], natives);
    }
  }

  /** Convergence. However many starts are killed or cut off by a power failure, and
      whatever is lost, one more uninterrupted start leaves this record's manifest
      finalized and true: every bag live and synced at its issued name with its
      inode and size, no native name left, no other closed file, and every bag
      still being written listed as partial. A power failure may come at any time
      once the pending manifest has been synced, and before that a kill may. The
      manifest is durable unless the process was merely killed between writing
      and syncing it. */
  method Converge(rec: Recorder, lives: seq<Life>, enoughSpace: bool, plenty: nat, ghost natives: Natives)
    requires rec.Valid() && rec.Underway(natives) && plenty > Recorder.Enough(|natives|)
    requires forall k | 0 <= k < |lives| :: lives[k].arrivals == []
    requires forall k | 0 <= k < |lives| && lives[k].failure.PowerLoss? :: rec.Undisturbed(natives) || Synced(lives, k)
    modifies rec
    ensures rec.Valid() && rec.Undisturbed(natives) && rec.fs.launches == old(rec.fs.launches)
    ensures rec.fs.doc.Some? && Seals(rec.fs, rec.recordId, natives, rec.fs.doc.value)
    ensures forall i | i in natives :: Held(rec.fs, IssuedName(i, |natives|), natives[i])
    ensures (if lives == [] then old(rec.fs.durableDoc == rec.fs.doc) else lives[|lives| - 1].failure.PowerLoss?) ==>
              rec.fs.durableDoc == rec.fs.doc
  {
    Endure(rec, lives, natives);
    if rec.Undisturbed(natives) { FinishedMeansSealed(rec, natives); }
    Finish(rec, enoughSpace, plenty, natives);
    SealedIsHeld(rec.fs, rec.recordId, natives, rec.fs.doc.value);
  }

  // ---- Which manifests lead there ----------------------------------------

  /** A disk on which nothing is unsynced, as a power failure leaves it. */
  predicate Quiescent(f: Fs) {
    f.durableDoc == f.doc && f.durable == f.live
  }

  predicate SameDisk(a: Fs, b: Fs) {
    a.live == b.live && a.durable == b.durable && a.doc == b.doc && a.durableDoc == b.durableDoc
  }

  lemma NothingToLose(f: Fs, lost: set<Name>)
    requires f.durable == f.live
    ensures Fallback(f, lost) == f.live
  {
  }

  method FailQuietly(rec: Recorder, failure: Failure)
    requires rec.Valid() && (rec.fs.durableDoc == rec.fs.doc || failure.Killed?)
    modifies rec
    ensures rec.Valid() && rec.fs.launches == old(rec.fs.launches)
    ensures rec.fs.doc == old(rec.fs.doc) && rec.fs.durableDoc == old(rec.fs.durableDoc)
    ensures old(Quiescent(rec.fs)) || failure.Killed? ==> SameDisk(old(rec.fs), rec.fs)
  {
    if failure.PowerLoss? && Quiescent(rec.fs) {
      NothingToLose(rec.fs, failure.lost);
    }
    Fail(rec, failure, map[]);
  }

  /** A start that is refused, and its end, leave the manifest as it is, and the
      directory too if there was nothing to lose. */
  method RefusedOnce(rec: Recorder, life: Life)
    requires rec.Valid() && rec.fs.doc.Some? && !Resumes(rec.recordId, rec.fs.doc.value) && life.arrivals == []
    requires rec.fs.durableDoc == rec.fs.doc || life.failure.Killed?
    modifies rec
    ensures rec.Valid() && rec.fs.launches == old(rec.fs.launches)
    ensures rec.fs.doc == old(rec.fs.doc) && rec.fs.durableDoc == old(rec.fs.durableDoc)
    ensures old(Quiescent(rec.fs)) || life.failure.Killed? ==> SameDisk(old(rec.fs), rec.fs)
  {
    rec.steps, rec.arrivals := life.budget, [];
    var began := Start(rec, life.enoughSpace, life.effects, map[]);
    FailQuietly(rec, life.failure);
  }

  /** Any number of such starts. */
  method RefusedForEver(rec: Recorder, lives: seq<Life>)
    requires rec.Valid() && rec.fs.doc.Some? && !Resumes(rec.recordId, rec.fs.doc.value)
    requires forall k | 0 <= k < |lives| :: lives[k].arrivals == []
    requires forall k | 0 <= k < |lives| && lives[k].failure.PowerLoss? :: rec.fs.durableDoc == rec.fs.doc
    modifies rec
    ensures rec.Valid() && rec.fs.launches == old(rec.fs.launches)
    ensures rec.fs.doc == old(rec.fs.doc) && rec.fs.durableDoc == old(rec.fs.durableDoc)
    ensures old(Quiescent(rec.fs)) || (forall k | 0 <= k < |lives| :: lives[k].failure.Killed?) ==>
              SameDisk(old(rec.fs), rec.fs)
  {
    for i := 0 to |lives|
      invariant rec.Valid() && rec.fs.launches == old(rec.fs.launches)
      invariant rec.fs.doc == old(rec.fs.doc) && rec.fs.durableDoc == old(rec.fs.durableDoc)
      invariant old(Quiescent(rec.fs)) || (forall k | 0 <= k < i :: lives[k].failure.Killed?) ==>
                  SameDisk(old(rec.fs), rec.fs)
    {
      RefusedOnce(rec, lives[i]);
    }
  }

  /** What repeated starts make of a manifest they find. On a disk that holds the bags
      of a recording, untouched, or synced part of the way through their renames,
      they lead to the finalized and true manifest if and only if the manifest is
      this record's, ended, and pending or failed; any other manifest is refused
      for ever. The manifest they find is the live one, synced or not: a power
      failure may come once it is known to be synced. */
  method Recover(rec: Recorder, lives: seq<Life>, enoughSpace: bool, plenty: nat, ghost natives: Natives)
    requires rec.Valid() && rec.fs.doc.Some?
    requires Fresh(rec.fs, natives) || (Quiescent(rec.fs) && Resumable(rec.fs, natives))
    requires plenty > Recorder.Enough(|natives|) && forall k | 0 <= k < |lives| :: lives[k].arrivals == []
    requires forall k | 0 <= k < |lives| && lives[k].failure.PowerLoss? ::
               if Resumes(rec.recordId, rec.fs.doc.value) then Quiescent(rec.fs) || Synced(lives, k)
               else rec.fs.durableDoc == rec.fs.doc
    modifies rec
    ensures rec.Valid() && rec.fs.launches == old(rec.fs.launches) && rec.fs.doc.Some?
    ensures old(rec.fs.doc.value.phase) != Finalized ==>
              (rec.fs.doc.value.phase == Finalized <==> Resumes(rec.recordId, old(rec.fs.doc.value)))
    ensures Resumes(rec.recordId, old(rec.fs.doc.value)) ==> Seals(rec.fs, rec.recordId, natives, rec.fs.doc.value)
    ensures !Resumes(rec.recordId, old(rec.fs.doc.value)) ==>
              rec.fs.doc == old(rec.fs.doc) && rec.fs.durableDoc == old(rec.fs.durableDoc)
    ensures !Resumes(rec.recordId, old(rec.fs.doc.value))
            && (old(Quiescent(rec.fs)) || forall k | 0 <= k < |lives| :: lives[k].failure.Killed?) ==>
              SameDisk(old(rec.fs), rec.fs)
  {
    rec.arrivals := [];
    if Resumes(rec.recordId, rec.fs.doc.value) {
      if Quiescent(rec.fs) {
        rec.Checkpoint();
      }
      Converge(rec, lives, enoughSpace, plenty, natives);
    } else {
      RefusedForEver(rec, lives);
      RefusedOnce(rec, Life(plenty, [], enoughSpace, [], Killed));
    }
  }

  /** The calls of a session up to the pending manifest: the look, the manifest in
      progress, the launch, the recorder's effects, and the manifest itself. */
  function Closing(effects: seq<Effect>): nat {
    5 + Calls(effects)
  }

  /** A whole record, from a directory without one. The recorder is launched and
      writes; the session ends after `calls` calls; starts follow, each killed or
      cut off by a power failure, and one more. The record ends finalized and
      true of what the recorder left if and only if the session lived to put the
      pending manifest in place; if not, the manifest in progress stays for ever.
      With enough calls the session itself ends so. */
  method Session(rec: Recorder, effects: seq<Effect>, calls: nat, lives: seq<Life>, plenty: nat)
    returns (exit: Exit)
    requires rec.Valid() && rec.fs.doc.None? && calls >= 4 && forall n | n in rec.fs.live :: n.Elsewhere?
    requires Plain(Written(rec.fs.live, effects))
    requires plenty > Recorder.Enough(|Bags(Written(rec.fs.live, effects))|)
    requires forall k | 0 <= k < |lives| :: lives[k].arrivals == []
    requires forall k | 0 <= k < |lives| && lives[k].failure.PowerLoss? :: calls != Closing(effects) || Synced(lives, k)
    modifies rec
    ensures rec.Valid() && rec.fs.launches == old(rec.fs.launches) + 1 == 1 && rec.fs.doc.Some?
    ensures rec.fs.doc.value.phase == Finalized <==> calls >= Closing(effects)
    ensures var natives := Bags(Written(old(rec.fs.live), effects));
            if calls >= Closing(effects) then Seals(rec.fs, rec.recordId, natives, rec.fs.doc.value)
            else InProgress(rec.fs.doc.value) && rec.fs.durableDoc == rec.fs.doc
    ensures calls >= Closing(effects) - 1 + Recorder.Enough(|Bags(Written(old(rec.fs.live), effects))|) ==> exit == Done
  {
    ghost var natives := Bags(Written(rec.fs.live, effects));
    rec.steps, rec.arrivals := calls, [];
    var began := Start(rec, true, effects, natives);
    exit := began.exit;
    if calls >= Closing(effects) {
      Converge(rec, lives, true, plenty, natives);
    } else {
      RefusedForEver(rec, lives);
      RefusedOnce(rec, Life(plenty, [], true, [], Killed));
    }
  }

  method LosePower(rec: Recorder, lost: set<Name>, keepDoc: bool)
    requires rec.Valid() && Plain(rec.fs.live) && Plain(rec.fs.durable)
    requires !HasPins(rec.fs.doc) && !HasPins(rec.fs.durableDoc)
    modifies rec
    ensures rec.Valid() && rec.fs.launches == old(rec.fs.launches) && Quiescent(rec.fs)
    ensures rec.fs.live == Fallback(old(rec.fs), lost) && Fresh(rec.fs, Bags(rec.fs.live))
    ensures rec.fs.doc == old(if keepDoc then rec.fs.doc else rec.fs.durableDoc)
  {
    FallbackIsImage(rec.fs, lost);
    CrashBegins(rec.fs, Fallback(rec.fs, lost), keepDoc);
    rec.Do(Crash(Fallback(rec.fs, lost), keepDoc));
  }

  /** A power failure before anything is pinned, and the starts after it. Exactly the
      surviving manifest decides, and what is archived is what survived, which
      is at least every bag that was synced. */
  method RecoverLoss(rec: Recorder, lost: set<Name>, keepDoc: bool, lives: seq<Life>, enoughSpace: bool, plenty: nat)
    requires rec.Valid() && rec.fs.doc.Some? && rec.fs.durableDoc.Some? && Plain(rec.fs.live) && Plain(rec.fs.durable)
    requires !HasPins(rec.fs.doc) && !HasPins(rec.fs.durableDoc)
    requires plenty > Recorder.Enough(|Bags(Fallback(rec.fs, lost))|)
    requires forall k | 0 <= k < |lives| :: lives[k].arrivals == []
    modifies rec
    ensures rec.Valid() && rec.fs.launches == old(rec.fs.launches) && rec.fs.doc.Some?
    ensures var d, natives := old(if keepDoc then rec.fs.doc.value else rec.fs.durableDoc.value),
                              Bags(Fallback(old(rec.fs), lost));
            if Resumes(rec.recordId, d) then Seals(rec.fs, rec.recordId, natives, rec.fs.doc.value)
            else rec.fs.doc.value == d && rec.fs.live == Fallback(old(rec.fs), lost)
    ensures forall i, node | Held(old(rec.fs), NativeBag(i), node) ::
              i in Bags(Fallback(old(rec.fs), lost)) && Bags(Fallback(old(rec.fs), lost))[i] == node
  {
    ghost var natives := Bags(Fallback(rec.fs, lost));
    FallbackIsImage(rec.fs, lost);
    SyncedBagsSurvive(rec.fs, Fallback(rec.fs, lost));
    LosePower(rec, lost, keepDoc);
    Recover(rec, lives, enoughSpace, plenty, natives);
  }

  /** The failing input of unconditional recovery: the first pending manifest is
      written but a crash comes before its sync. The manifest in progress is what
      survives, and no later start takes it up. */
  lemma EarlyCrashIsNotResumed(f: Fs, image: Dir, recordId: string) returns (actions: seq<Action>, end: Fs)
    requires Inv(f) && f.doc.Some? && InProgress(f.doc.value) && f.durableDoc == f.doc && CrashImage(f, image)
    ensures Runs(f, actions, end) && Inv(end) && Quiescent(end) && end.live == image
    ensures exists k :: 0 <= k < |actions| && actions[k].ReplaceDoc?
                        && actions[k].doc.ended && actions[k].doc.phase == Pending
    ensures end.doc == f.doc && !Resumes(recordId, end.doc.value)
  {
    actions, end := EarlyCrashForgets(f, image);
    InvRun(f, actions, end);
  }

  /** Why `Finish` cannot promise a durable manifest: a process killed between
      putting the finalized manifest in place and syncing it leaves it live but
      not synced. No later start touches it, so nothing ever syncs it; a power
      failure can then bring the pending manifest back. */
  lemma UnsyncedSealStays(f: Fs, id: string, natives: Natives, d: Doc)
    requires Inv(f) && Healthy(f, id, natives) && f.durableDoc == f.doc && Resumes(id, f.doc.value)
    requires Enabled(f, ReplaceDoc(d)) && Seals(f, id, natives, d)
    ensures var cut := Apply(f, ReplaceDoc(d));
            && Healthy(cut, id, natives) && !Resumes(id, cut.doc.value) && cut.durableDoc != cut.doc
            && Enabled(cut, Crash(cut.live, false))
            && Apply(cut, Crash(cut.live, false)).doc == f.doc
  {
    SealHealthy(f, id, natives, d);
    var cut := Apply(f, ReplaceDoc(d));
    assert forall n: Name :: SameAt(cut.live, cut.live, n);
  }

  /** There is such a disk: one bag, renamed and synced, its manifest still pending. */
  lemma UnsyncedSealExists(id: string, node: Node) returns (f: Fs, natives: Natives, d: Doc)
    requires node.regular
    ensures Inv(f) && Healthy(f, id, natives) && f.durableDoc == f.doc && Resumes(id, f.doc.value)
    ensures Enabled(f, ReplaceDoc(d)) && Seals(f, id, natives, d) && natives == map[0 := node]
  {
    var name := IssuedName(0, 1);
    var segs := [Segment(NativeBag(0), name, 0, node)];
    var pending := Doc(id, true, Pending, Some(segs), map[], map[]);
    var dir: Dir := map[name := node];
    natives := map[0 := node];
    assert |natives| == 1;
    f := Fs(dir, dir, Some(pending), Some(pending), 0, false, false);
    d := pending.(phase := Finalized, finalized := map[0 := BagFile(name, node.size)]);
    assert segs[0].index == 0 && PinSafe(f, segs[0]);
  }
}
