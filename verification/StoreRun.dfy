/** Whole runs of the store: any sequence of client operations, collections, purges, restarts and
    crashes, in the middle of operations too. */
module StoreRun {
  import opened Wrappers
  import opened Paths
  import opened FileSystem
  import opened Layout
  import opened Recycle
  import opened RecycleLaws
  import opened Tidiness
  import opened RestoreNames
  import opened RestoreAnywhere
  import opened Staging
  import opened StagingLaws
  import opened Provenance
  import opened Maintenance
  import opened Crash
  import opened CrashRuns

  datatype Config = Config(hash: Hash, localId: string)

  /** One step on files. Device and space are those the operation resolved to. The crash events are
      operations cut off after k of their file-system actions, with the table lost. */
  datatype Event =
    | BeginEv(caller: string, space: string, path: string, size: int, sha: string, id: string, now: int)
    | ChunkEv(id: string, raw: Option<Bytes>, offset: int)
    | CommitEv(ids: seq<string>, clock: nat -> Stamp)
    | DeleteEv(device: string, space: string, path: string, stamp: Stamp)
    | RestoreEv(path: string, stamp: Stamp)
    | EmptyEv
    | GcStagingEv(deadline: int)
    | GcRecycleEv(parse: string -> Option<int>, cutoff: int)
    | PurgeEv(device: string)
    | WipeEv
    | RestartEv
    | BeginCrashEv(caller: string, space: string, path: string, size: int, sha: string, id: string, now: int, k: nat)
    | CommitCrashEv(ids: seq<string>, clock: nat -> Stamp, k: nat)
    | GcCrashEv(deadline: int, order: seq<Collected>, k: nat)

  ghost function Step(cfg: Config, s: Store, ev: Event): Store {
    match ev
    case BeginEv(caller, space, path, size, sha, id, now) => Begin(s, caller, space, path, size, sha, id, now).0
    case ChunkEv(id, raw, offset) => Chunk(s, id, raw, offset).0
    case CommitEv(ids, clock) => Commit(cfg.hash, s, cfg.localId, ids, clock).0
    case DeleteEv(device, space, path, stamp) => s.(fs := Delete(s.fs, cfg.localId, device, space, path, stamp).0)
    case RestoreEv(path, stamp) => s.(fs := Restore(s.fs, cfg.localId, path, stamp).0)
    case EmptyEv => s.(fs := EmptyBin(s.fs))
    case GcStagingEv(deadline) => GcStaging(s, deadline)
    case GcRecycleEv(parse, cutoff) => s.(fs := GcRecycle(s.fs, parse, cutoff))
    case PurgeEv(device) => s.(fs := Purge(s.fs, device, cfg.localId).0)
    case WipeEv => s.(fs := Wipe(s.fs, cfg.localId, cfg.localId).0)
    case RestartEv => Crashed(s)
    case BeginCrashEv(caller, space, path, size, sha, id, now,
                      k) => Crashed(BeginCut(s, caller, space, path, size, sha, id, now, k))
    case CommitCrashEv(ids, clock, k) => Crashed(CommitCut(cfg.hash, s, cfg.localId, ids, clock, k))
    case GcCrashEv(_, order, k) => Crashed(DoAll(s, Upto(SweepActs(order), k)))
  }

  /** What a step assumes of its inputs: ids and spaces the access check lets through, real dates, and
      restores after which every file still belongs to its device and space. */
  ghost predicate Legal(cfg: Config, s: Store, ev: Event) {
    match ev
    case BeginEv(caller, space, _, _, _, _, _) => IsValidDeviceId(caller) && IsValidSpace(space)
    case BeginCrashEv(caller, space, _, _, _, _, _, _) => IsValidDeviceId(caller) && IsValidSpace(space)
    case CommitEv(ids, clock) => Dated(clock, |ids|)
    case CommitCrashEv(ids, clock, _) => Dated(clock, |ids|)
    case DeleteEv(device, space, path, stamp) => IsValidDeviceId(device) && IsValidSpace(space) && DateSeg(stamp.date)
    case RestoreEv(path, stamp) => IsValidDeviceId(cfg.localId) && DateSeg(stamp.date)
      && RestoreSound(s.fs, cfg.localId, path, stamp)
    case GcCrashEv(deadline, order, _) => forall c <- order :: Stale(s.fs, c.device, c.space, c.id, deadline)
    case _ => true
  }

  /** Begins that have succeeded, or were cut off with their meta file written. */
  function BegunAfter(b: set<Begun>, s: Store, ev: Event): set<Begun> {
    match ev
    case BeginEv(caller, space, path, size, sha, id, now) =>
      if Begin(s, caller, space, path, size, sha, id, now).1.Ok? then b + {Begun(caller, space, size, sha)} else b
    case BeginCrashEv(caller, space, path, size, sha, id, _, k) =>
      if BeginNoted(s, caller, space, path, size, sha, id, k) then b + {Begun(caller, space, size, sha)} else b
    case _ => b
  }

  /** Copies of c the step newly commits: those of the members it reports, or of those whose parts
      it had moved when it was cut off. */
  ghost function Gain(cfg: Config, s: Store, ev: Event, c: Bytes): nat {
    match ev
    case CommitEv(ids, clock) =>
      var r := Commit(cfg.hash, s, cfg.localId, ids, clock).1;
      if r.Ok? then Tally(s.fs, r.value.committed, c) else 0
    case CommitCrashEv(ids, clock, k) => Tally(s.fs, CommitMoved(cfg.hash, s, cfg.localId, ids, clock, k), c)
    case _ => 0
  }

  /** Steps that are there to remove content. */
  predicate Removes(ev: Event) {
    ev.EmptyEv? || ev.GcRecycleEv? || ev.PurgeEv? || ev.WipeEv?
  }

  ghost function Loss(cfg: Config, s: Store, ev: Event, c: Bytes): nat {
    if Removes(ev) then LostCopies(s.fs, Step(cfg, s, ev).fs, c) else 0
  }

  /** Recycled files the step replaces by others: what is moved into the bin can land on them. */
  ghost function Overwritten(cfg: Config, s: Store, ev: Event): multiset<Bytes> {
    match ev
    case CommitEv(ids, clock) => CommitLoss(cfg.hash, s, cfg.localId, ids, clock)
    case CommitCrashEv(ids, clock, k) => CommitDropped(cfg.hash, s, cfg.localId, ids, clock, k)
    case DeleteEv(device, space, path, stamp) => DeleteLoss(s.fs, device, space, path, stamp)
    case RestoreEv(path, stamp) => RestoreLoss(s.fs, cfg.localId, path, stamp)
    case _ => multiset{}
  }

  function DeleteLoss(fs: Fs, device: string, space: string, path: string, stamp: Stamp): multiset<Bytes> {
    match Normalize(path)
    case Err(_) => multiset{}
    case Ok(rel) => if rel == [] then multiset{} else RecycleLoss(fs, device, space, rel, stamp)
  }

  /** What holds in every state of a run: the staging invariant, provenance, and tidy places. */
  ghost predicate Accounted(hash: Hash, b: set<Begun>, s: Store) {
    Inv(s) && Known(hash, b, s) && Tidy(s.fs)
  }

  /** The account of one step: what holds of states, and the balance of copies. */
  ghost predicate StepKeeps(cfg: Config, b: set<Begun>, s: Store, ev: Event) {
    var g := Step(cfg, s, ev);
    && Accounted(cfg.hash, BegunAfter(b, s, ev), g)
    && forall c ::
         Copies(g.fs, c) + Loss(cfg, s, ev, c) + Overwritten(cfg, s, ev)[c] == Copies(s.fs, c) + Gain(cfg, s, ev, c)
  }

  // ---------- one lemma per kind of step ----------

  predicate Commits(ev: Event) {
    ev.CommitEv? || ev.CommitCrashEv?
  }

  lemma LiveSameKnown(hash: Hash, b: set<Begun>, f: Fs, g: Fs)
    requires KnownFiles(hash, b, f) && LiveSame(f, g)
    ensures KnownFiles(hash, b, g)
  {
  }

  /** Putting a step's account together. */
  lemma Account(cfg: Config, b: set<Begun>, s: Store, ev: Event)
    requires !Commits(ev) && !Removes(ev)
    requires var g := Step(cfg, s, ev);
             && Inv(g) && Known(cfg.hash, BegunAfter(b, s, ev), g) && Tidy(g.fs)
             && forall c :: Copies(g.fs, c) + Overwritten(cfg, s, ev)[c] == Copies(s.fs, c)
    ensures StepKeeps(cfg, b, s, ev)
  {
    hide Inv, Known, Step, Copies, BegunAfter, Tidy, Overwritten;
  }

  /** The same for steps that leave official and recycled files alone. */
  lemma LiveAccount(cfg: Config, b: set<Begun>, s: Store, ev: Event)
    requires !Commits(ev) && !Removes(ev) && !ev.DeleteEv? && !ev.RestoreEv? && Known(cfg.hash, b, s)
    requires var g := Step(cfg, s, ev);
             Inv(g) && LiveSame(s.fs, g.fs) && KnownMeta(BegunAfter(b, s, ev), g.fs) && Tidy(g.fs)
    ensures StepKeeps(cfg, b, s, ev)
  {
    hide Inv, Step, LiveSame, Copies, KnownMeta, KnownFiles, Tidy;
    var g := Step(cfg, s, ev);
    BegunGrows(b, s, ev);
    LiveSameCopies(s.fs, g.fs);
    LiveSameKnown(cfg.hash, b, s.fs, g.fs);
    KnownMore(cfg.hash, b, BegunAfter(b, s, ev), g.fs);
    Account(cfg, b, s, ev);
  }

  lemma KnownMore(hash: Hash, b: set<Begun>, b': set<Begun>, fs: Fs)
    requires KnownFiles(hash, b, fs) && b <= b'
    ensures KnownFiles(hash, b', fs)
  {
  }

  lemma BegunGrows(b: set<Begun>, s: Store, ev: Event)
    ensures b <= BegunAfter(b, s, ev)
    ensures !ev.BeginEv? && !ev.BeginCrashEv? ==> BegunAfter(b, s, ev) == b
  {
    hide Begin, BeginNoted;
  }

  lemma BeginStep(cfg: Config, b: set<Begun>, s: Store, ev: Event)
    requires ev.BeginEv? && Accounted(cfg.hash, b, s) && Legal(cfg, s, ev)
    ensures StepKeeps(cfg, b, s, ev)
  {
    hide Begin, Inv, LiveSame, StepKeeps, BegunAfter, KnownMeta, Tidy, BeginCut, BeginNoted, BeginAdds;
    var BeginEv(caller, space, path, size, sha, id, now) := ev;
    BeginKeeps(s, caller, space, path, size, sha, id, now);
    BeginCutIs(s, caller, space, path, size, sha, id, now, 4);
    BeginCutKeeps(s, caller, space, path, size, sha, id, now, 4);
    BeginAddsTidy(s.fs, Begin(s, caller, space, path, size, sha, id, now).0.fs, caller, space, id);
    BeginKnown(b, s, ev);
    LiveAccount(cfg, b, s, ev);
  }

  lemma BeginKnown(b: set<Begun>, s: Store, ev: Event)
    requires ev.BeginEv? && Inv(s) && KnownMeta(b, s.fs) && IsValidDeviceId(ev.caller) && IsValidSpace(ev.space)
    ensures KnownMeta(BegunAfter(b, s, ev), Begin(s, ev.caller, ev.space, ev.path, ev.size, ev.sha, ev.id, ev.now).0.fs)
  {
    hide Begin, Inv, BeginCut, BeginAdds, LiveSame, BeginNoted, KnownMeta;
    BeginCutIs(s, ev.caller, ev.space, ev.path, ev.size, ev.sha, ev.id, ev.now, 4);
    BeginCutKeeps(s, ev.caller, ev.space, ev.path, ev.size, ev.sha, ev.id, ev.now, 4);
    if BeginNoted(s, ev.caller, ev.space, ev.path, ev.size, ev.sha, ev.id, 4) {
      NotedSucceeds(s, ev.caller, ev.space, ev.path, ev.size, ev.sha, ev.id, ev.now);
    }
    NotedKnown(b, BegunAfter(b, s, ev), s.fs,
               Begin(s, ev.caller, ev.space, ev.path, ev.size, ev.sha, ev.id, ev.now).0.fs,
               Begun(ev.caller, ev.space, ev.size, ev.sha), ev.id);
  }

  lemma NotedKnown(b: set<Begun>, b': set<Begun>, f: Fs, g: Fs, noted: Begun, id: string)
    requires KnownMeta(b, f) && b <= b'
    requires forall p <- g | g[p].Meta? :: (p in f && f[p] == g[p])
               || (noted in b' && p == MetaPath(noted.device, noted.space, id) && g[p].meta.size == noted.size
                   && g[p].meta.sha == noted.sha)
    ensures KnownMeta(b', g)
  {
  }

  /** A begin that writes its meta file and is not cut off succeeds. */
  lemma NotedSucceeds(s: Store, caller: string, space: string, path: string, size: int, sha: string, id: string,
                      now: int)
    requires Inv(s) && IsValidDeviceId(caller) && IsValidSpace(space)
             && BeginNoted(s, caller, space, path, size, sha, id, 4)
    ensures Begin(s, caller, space, path, size, sha, id, now).1.Ok?
  {
    BeginFacts(s, caller, space, id);
    hide Inv, CanMkdirs, Normalize;
  }

  lemma BeginCrashStep(cfg: Config, b: set<Begun>, s: Store, ev: Event)
    requires ev.BeginCrashEv? && Accounted(cfg.hash, b, s) && Legal(cfg, s, ev)
    ensures StepKeeps(cfg, b, s, ev)
  {
    hide Inv, LiveSame, StepKeeps, Tidy, BeginCut, BeginNoted, BeginAdds;
    var BeginCrashEv(caller, space, path, size, sha, id, now, k) := ev;
    BeginCutKeeps(s, caller, space, path, size, sha, id, now, k);
    BeginAddsTidy(s.fs, BeginCut(s, caller, space, path, size, sha, id, now, k).fs, caller, space, id);
    LiveAccount(cfg, b, s, ev);
  }

  lemma ChunkStep(cfg: Config, b: set<Begun>, s: Store, ev: Event)
    requires ev.ChunkEv? && Accounted(cfg.hash, b, s)
    ensures StepKeeps(cfg, b, s, ev)
  {
    hide Chunk, Inv, LiveSame, StepKeeps, KnownMeta, Tidy;
    ChunkKeeps(s, ev.id, ev.raw, ev.offset);
    ChunkMetas(b, s, ev.id, ev.raw, ev.offset);
    ChunkPlaces(s, ev.id, ev.raw, ev.offset);
    LiveAccount(cfg, b, s, ev);
  }

  lemma ChunkMetas(b: set<Begun>, s: Store, id: string, raw: Option<Bytes>, offset: int)
    requires KnownMeta(b, s.fs)
    ensures KnownMeta(b, Chunk(s, id, raw, offset).0.fs)
  {
    ChunkShape(s, id, raw, offset);
    hide Chunk;
  }

  lemma ChunkPlaces(s: Store, id: string, raw: Option<Bytes>, offset: int)
    requires Tidy(s.fs)
    ensures Tidy(Chunk(s, id, raw, offset).0.fs)
  {
    ChunkShape(s, id, raw, offset);
    hide Chunk, TidyPath;
  }

  lemma CommitStep(cfg: Config, b: set<Begun>, s: Store, ev: Event)
    requires ev.CommitEv? && Accounted(cfg.hash, b, s) && Legal(cfg, s, ev)
    ensures StepKeeps(cfg, b, s, ev)
  {
    hide Commit, Inv, Known, Dated, Tidy, CommitCut, CommitMoved, CommitDropped, CommitLoss, Crashed, Follows, Copies;
    CommitConserves(cfg.hash, b, s, cfg.localId, ev.ids, ev.clock);
    CommitCutKeeps(cfg.hash, b, s, cfg.localId, ev.ids, ev.clock, 0);
  }

  lemma CommitCrashStep(cfg: Config, b: set<Begun>, s: Store, ev: Event)
    requires ev.CommitCrashEv? && Accounted(cfg.hash, b, s) && Legal(cfg, s, ev)
    ensures StepKeeps(cfg, b, s, ev)
  {
    hide Inv, Dated, Tidy, CommitCut, CommitMoved, CommitDropped, Copies;
    CommitCutKeeps(cfg.hash, b, s, cfg.localId, ev.ids, ev.clock, ev.k);
  }

  /** A step that only rearranges files keeps all but those it overwrites. */
  lemma RearrangeStep(cfg: Config, b: set<Begun>, s: Store, g: Fs, lost: multiset<Bytes>)
    requires Inv(s) && Known(cfg.hash, b, s) && Rearranged(s.fs, g, lost)
    ensures Inv(s.(fs := g)) && Known(cfg.hash, b, s.(fs := g)) && forall c :: Copies(g, c) + lost[c] == Copies(s.fs, c)
  {
    hide Inv, Known, Resettled, Copies;
    ShuffleKeepsInv(s, g);
    ShuffleKeepsKnown(cfg.hash, b, s, s.(fs := g));
  }

  lemma DeleteStep(cfg: Config, b: set<Begun>, s: Store, ev: Event)
    requires ev.DeleteEv? && Accounted(cfg.hash, b, s) && Legal(cfg, s, ev)
    ensures StepKeeps(cfg, b, s, ev)
  {
    hide Delete, Inv, Known, Rearranged, StepKeeps, Tidy, DeleteLoss;
    DeleteEvRearranges(cfg, s, ev);
    DeleteEvTidy(cfg, s, ev);
    RearrangeStep(cfg, b, s, Step(cfg, s, ev).fs, Overwritten(cfg, s, ev));
    Account(cfg, b, s, ev);
  }

  lemma DeleteEvRearranges(cfg: Config, s: Store, ev: Event)
    requires ev.DeleteEv? && Inv(s) && Legal(cfg, s, ev)
    ensures Rearranged(s.fs, Delete(s.fs, cfg.localId, ev.device, ev.space, ev.path, ev.stamp).0,
                       DeleteLoss(s.fs, ev.device, ev.space, ev.path, ev.stamp))
  {
    hide MoveToRecycle, Normalize, RecycleLoss, Rearranged, Shuffled, Inv;
    InvTree(s);
    if Normalize(ev.path).Ok? {
      NormalizedIsClean(ev.path);
      MoveToRecycleRearranges(s.fs, cfg.localId, ev.device, ev.space, Normalize(ev.path).value, ev.stamp);
    } else {
      ShuffledSelf(s.fs);
      NothingLost(s.fs, s.fs);
    }
  }

  lemma DeleteEvTidy(cfg: Config, s: Store, ev: Event)
    requires ev.DeleteEv? && Tidy(s.fs) && Legal(cfg, s, ev)
    ensures Tidy(Delete(s.fs, cfg.localId, ev.device, ev.space, ev.path, ev.stamp).0)
  {
    hide MoveToRecycle, Normalize, Tidy;
    if Normalize(ev.path).Ok? {
      NormalizedIsClean(ev.path);
      RecycleTidy(s.fs, cfg.localId, ev.device, ev.space, Normalize(ev.path).value, ev.stamp);
    }
  }

  lemma RestoreStep(cfg: Config, b: set<Begun>, s: Store, ev: Event)
    requires ev.RestoreEv? && Accounted(cfg.hash, b, s) && Legal(cfg, s, ev)
    ensures StepKeeps(cfg, b, s, ev)
  {
    hide Restore, Inv, Known, RestoreSound, RestoreLoss, Rearranged, StepKeeps, Tidy;
    InvTree(s);
    RestoreKeeps(s.fs, cfg.localId, ev.path, ev.stamp);
    RearrangeStep(cfg, b, s, Step(cfg, s, ev).fs, Overwritten(cfg, s, ev));
    Account(cfg, b, s, ev);
  }

  lemma RemoveStep(cfg: Config, b: set<Begun>, s: Store, ev: Event)
    requires Removes(ev) && Accounted(cfg.hash, b, s)
    ensures StepKeeps(cfg, b, s, ev)
  {
    hide Step, TrimsStaging, Trimmed, Known, Inv, LostCopies, Copies, Tidy;
    InvTree(s);
    RemoveTrims(cfg, s, ev);
    RemoveTidy(cfg, s, ev);
    var g := Step(cfg, s, ev);
    TrimKeepsInv(s, g);
    TrimKeepsKnown(cfg.hash, b, s, g);
    forall c ensures Copies(g.fs, c) + Loss(cfg, s, ev, c) == Copies(s.fs, c) {
      TrimmedCopies(s.fs, g.fs, c);
    }
  }

  lemma RemoveTrims(cfg: Config, s: Store, ev: Event)
    requires Removes(ev) && IsTree(s.fs)
    ensures var g := Step(cfg, s, ev); Trimmed(s.fs, g.fs) && TrimsStaging(s.fs, g.fs) && g.uploads == s.uploads
  {
    var weightless := (n: Node) => 0;
    hide EmptyBin, GcRecycle, Purge, Wipe, Trimmed, TrimsStaging, Stored, SizeBelow;
    match ev {
      case EmptyEv => EmptyBinLaw(s.fs, weightless);
      case GcRecycleEv(parse, cutoff) => GcRecycleLaw(s.fs, parse, cutoff);
      case PurgeEv(device) => PurgeLaw(s.fs, device, cfg.localId, weightless);
      case WipeEv => WipeLaw(s.fs, cfg.localId, cfg.localId, weightless);
    }
  }

  lemma RemoveTidy(cfg: Config, s: Store, ev: Event)
    requires Removes(ev) && Tidy(s.fs)
    ensures Tidy(Step(cfg, s, ev).fs)
  {
    hide TidyPath, MkSpaces;
    ShortTidy(RECYCLE);
    match ev {
      case EmptyEv =>
        MkdirsTidy(RemoveTree(s.fs, [RECYCLE]), [RECYCLE]);
      case GcRecycleEv(parse, cutoff) =>
      case PurgeEv(device) =>
      case WipeEv =>
        if IsValidDeviceId(cfg.localId) { SpacesTidy(RemoveTree(s.fs, [cfg.localId]), cfg.localId, |SPACES|); }
    }
  }

  lemma ShortTidy(top: string)
    ensures TidyPath([top])
  {
  }

  lemma {:induction false} SpacesTidy(fs: Fs, device: string, n: nat)
    requires Tidy(fs) && IsValidDeviceId(device) && n <= |SPACES|
    ensures Tidy(MkSpaces(fs, device, n))
  {
    hide Tidy, TidyPath;
    if n == 0 {
      ShortTidy(device);
      MkdirsTidy(fs, [device]);
    } else {
      SpacesTidy(fs, device, n - 1);
      SpacePathTidy(device, SPACES[n - 1], [device, SPACES[n - 1]]);
      MkdirsTidy(MkSpaces(fs, device, n - 1), [device, SPACES[n - 1]]);
    }
  }

  lemma GcStagingStep(cfg: Config, b: set<Begun>, s: Store, ev: Event)
    requires ev.GcStagingEv? && Accounted(cfg.hash, b, s)
    ensures StepKeeps(cfg, b, s, ev)
  {
    hide GcStaging, GcStagingDone, Inv, LiveSame, StepKeeps, Trimmed, KeptIfRecent, KnownFiles, KnownMeta, Step,
      BegunAfter, Tidy;
    GcStagingIsStep(cfg, s, ev);
    var g := Step(cfg, s, ev);
    GcStagingLaw(s, g, ev.deadline);
    TrimKeepsKnown(cfg.hash, b, s, g);
    GcStagingTidy(s, g, ev.deadline);
    BegunGrows(b, s, ev);
    LiveAccount(cfg, b, s, ev);
  }

  lemma GcStagingTidy(s: Store, g: Store, deadline: int)
    requires Tidy(s.fs) && GcStagingDone(s, g, deadline)
    ensures Tidy(g.fs)
  {
    hide TidyPath, StaleFile, Stale;
  }

  lemma GcStagingIsStep(cfg: Config, s: Store, ev: Event)
    requires ev.GcStagingEv?
    ensures GcStagingDone(s, Step(cfg, s, ev), ev.deadline)
  {
    hide GcStagingDone;
  }

  lemma GcCrashStep(cfg: Config, b: set<Begun>, s: Store, ev: Event)
    requires ev.GcCrashEv? && Accounted(cfg.hash, b, s) && Legal(cfg, s, ev)
    ensures StepKeeps(cfg, b, s, ev)
  {
    hide Inv, StepKeeps, KnownFiles, Stale, DoAll, SweepActs, LiveSame, Tidy;
    GcCutSwept(cfg, s, ev);
    SweptKeeps(b, s.fs, Step(cfg, s, ev).fs);
    LiveAccount(cfg, b, s, ev);
  }

  lemma GcCutSwept(cfg: Config, s: Store, ev: Event)
    requires ev.GcCrashEv? && Inv(s) && Legal(cfg, s, ev)
    ensures Inv(Step(cfg, s, ev)) && Swept(s.fs, Step(cfg, s, ev).fs)
  {
    hide Inv, DoAll, SweepActs, LiveSame, Swept;
    var acts := SweepActs(ev.order);
    forall c <- ev.order ensures IsValidDeviceId(c.device) { assert Stale(s.fs, c.device, c.space, c.id, ev.deadline); }
    SweepCrashSafe(s, ev.order, if ev.k <= |acts| then ev.k else |acts|);
    assert acts[..|acts|] == acts;
  }

  lemma SweptKeeps(b: set<Begun>, f: Fs, g: Fs)
    requires Swept(f, g) && KnownMeta(b, f) && Tidy(f)
    ensures KnownMeta(b, g) && Tidy(g)
  {
    hide TidyPath;
  }

  lemma AnyStep(cfg: Config, b: set<Begun>, s: Store, ev: Event)
    requires Accounted(cfg.hash, b, s) && Legal(cfg, s, ev)
    ensures StepKeeps(cfg, b, s, ev)
  {
    hide Accounted, Legal, StepKeeps;
    match ev {
      case BeginEv(_, _, _, _, _, _, _) => BeginStep(cfg, b, s, ev);
      case ChunkEv(_, _, _) => ChunkStep(cfg, b, s, ev);
      case CommitEv(_, _) => CommitStep(cfg, b, s, ev);
      case DeleteEv(_, _, _, _) => DeleteStep(cfg, b, s, ev);
      case RestoreEv(_, _) => RestoreStep(cfg, b, s, ev);
      case EmptyEv => RemoveStep(cfg, b, s, ev);
      case GcStagingEv(_) => GcStagingStep(cfg, b, s, ev);
      case GcRecycleEv(_, _) => RemoveStep(cfg, b, s, ev);
      case PurgeEv(_) => RemoveStep(cfg, b, s, ev);
      case WipeEv => RemoveStep(cfg, b, s, ev);
      case RestartEv => RestartStep(cfg, b, s, ev);
      case BeginCrashEv(_, _, _, _, _, _, _, _) => BeginCrashStep(cfg, b, s, ev);
      case CommitCrashEv(_, _, _) => CommitCrashStep(cfg, b, s, ev);
      case GcCrashEv(_, _, _) => GcCrashStep(cfg, b, s, ev);
    }
  }

  lemma RestartStep(cfg: Config, b: set<Begun>, s: Store, ev: Event)
    requires ev.RestartEv? && Accounted(cfg.hash, b, s)
    ensures StepKeeps(cfg, b, s, ev)
  {
    LiveSameSelf(s.fs);
    hide LiveSame, StepKeeps, Tidy;
    LiveAccount(cfg, b, s, ev);
  }

  // ---------- runs ----------

  ghost function Run(cfg: Config, s: Store, evs: seq<Event>): Store
    decreases |evs|
  {
    if evs == [] then s else Run(cfg, Step(cfg, s, evs[0]), evs[1..])
  }

  ghost predicate LegalRun(cfg: Config, s: Store, evs: seq<Event>)
    decreases |evs|
  {
    evs != [] ==> Legal(cfg, s, evs[0]) && LegalRun(cfg, Step(cfg, s, evs[0]), evs[1..])
  }

  ghost function BegunDuring(cfg: Config, b: set<Begun>, s: Store, evs: seq<Event>): set<Begun>
    decreases |evs|
  {
    if evs == [] then b else BegunDuring(cfg, BegunAfter(b, s, evs[0]), Step(cfg, s, evs[0]), evs[1..])
  }

  ghost function TotalGain(cfg: Config, s: Store, evs: seq<Event>, c: Bytes): nat
    decreases |evs|
  {
    if evs == [] then 0 else Gain(cfg, s, evs[0], c) + TotalGain(cfg, Step(cfg, s, evs[0]), evs[1..], c)
  }

  ghost function TotalLoss(cfg: Config, s: Store, evs: seq<Event>, c: Bytes): nat
    decreases |evs|
  {
    if evs == [] then 0 else Loss(cfg, s, evs[0], c) + TotalLoss(cfg, Step(cfg, s, evs[0]), evs[1..], c)
  }

  ghost function TotalOverwritten(cfg: Config, s: Store, evs: seq<Event>): multiset<Bytes>
    decreases |evs|
  {
    if evs == [] then multiset{}
      else Overwritten(cfg, s, evs[0]) + TotalOverwritten(cfg, Step(cfg, s, evs[0]), evs[1..])
  }

  /** Over every run, for every content: the copies stored at the end, those the removing steps
      removed and those overwritten in the bin are exactly those stored at the start and those the
      commits reported. */
  lemma {:induction false} RunConserves(cfg: Config, b: set<Begun>, s: Store, evs: seq<Event>, c: Bytes)
    requires Accounted(cfg.hash, b, s) && LegalRun(cfg, s, evs)
    ensures Copies(Run(cfg, s, evs).fs, c) + TotalLoss(cfg, s, evs, c) + TotalOverwritten(cfg, s, evs)[c]
            == Copies(s.fs, c) + TotalGain(cfg, s, evs, c)
    decreases |evs|
  {
    hide Accounted, Legal, Step, Copies, Loss, Gain, Overwritten, BegunAfter;
    if evs != [] {
      AnyStep(cfg, b, s, evs[0]);
      RunConserves(cfg, BegunAfter(b, s, evs[0]), Step(cfg, s, evs[0]), evs[1..], c);
    }
  }

  /** In every reachable state the staging invariant holds, and every official or recycled file
      has the size and hash of a begin its own device made in its own space. */
  lemma {:induction false} RunKeeps(cfg: Config, b: set<Begun>, s: Store, evs: seq<Event>)
    requires Accounted(cfg.hash, b, s) && LegalRun(cfg, s, evs)
    ensures Accounted(cfg.hash, BegunDuring(cfg, b, s, evs), Run(cfg, s, evs))
    decreases |evs|
  {
    hide Accounted, Legal, Step, BegunAfter;
    if evs != [] {
      AnyStep(cfg, b, s, evs[0]);
      RunKeeps(cfg, BegunAfter(b, s, evs[0]), Step(cfg, s, evs[0]), evs[1..]);
    }
  }

  /** A store just opened on an empty root. */
  function Opened(localId: string): Store {
    Store(Mkdirs(MkSpaces(map[[] := Dir], localId, |SPACES|), [RECYCLE]), map[])
  }

  lemma OpenedHolds(cfg: Config)
    requires IsValidDeviceId(cfg.localId)
    ensures Accounted(cfg.hash, {}, Opened(cfg.localId))
    ensures forall c :: Copies(Opened(cfg.localId).fs, c) == 0
  {
    hide Tidy, IsTree, MkSpaces;
    OnlyDirs(cfg.localId);
    OpenedTidy(cfg.localId);
    EmptyHolds(cfg.hash, Opened(cfg.localId));
  }

  /** Directories alone, and few, satisfy everything. */
  lemma EmptyHolds(hash: Hash, s: Store)
    requires IsTree(s.fs) && Tidy(s.fs) && (forall p <- s.fs :: s.fs[p] == Dir && |p| <= 2) && s.uploads == map[]
    ensures Accounted(hash, {}, s) && forall c :: Copies(s.fs, c) == 0
  {
    hide Tidy, IsTree;
    forall c ensures Holders(s.fs, c) == {} { }
  }

  lemma OpenedTidy(localId: string)
    requires IsValidDeviceId(localId)
    ensures Tidy(Opened(localId).fs)
  {
    var root: Fs := map[[] := Dir];
    assert Tidy(root);
    hide Tidy, TidyPath, MkSpaces;
    SpacesTidy(root, localId, |SPACES|);
    ShortTidy(RECYCLE);
    MkdirsTidy(MkSpaces(root, localId, |SPACES|), [RECYCLE]);
  }

  lemma OnlyDirs(localId: string)
    requires IsValidDeviceId(localId)
    ensures var fs := Opened(localId).fs; IsTree(fs) && forall p <- fs :: fs[p] == Dir && |p| <= 2
  {
    var root: Fs := map[[] := Dir];
    assert IsTree(root);
    MkSpacesLaw(root, localId, |SPACES|);
    MadeBelow(root, localId, |SPACES|);
    var f := MkSpaces(root, localId, |SPACES|);
    hide MkSpaces;
    forall p <- f ensures f[p] == Dir && |p| <= 2 {
      if p !in root { assert [localId] <= p; }
    }
    assert CanMkdirs(f, [RECYCLE]);
    MkdirsTree(f, [RECYCLE]);
  }

  // ---------- what restore finds ----------

  /** Uploads begun by devices, in spaces. */
  ghost predicate BegunValid(b: set<Begun>) {
    forall e <- b :: IsValidDeviceId(e.device) && IsValidSpace(e.space)
  }

  lemma {:induction false} BegunStaysValid(cfg: Config, b: set<Begun>, s: Store, evs: seq<Event>)
    requires BegunValid(b) && LegalRun(cfg, s, evs)
    ensures BegunValid(BegunDuring(cfg, b, s, evs))
    decreases |evs|
  {
    hide Legal, Step, BegunAfter, BegunValid;
    if evs != [] {
      StepStaysValid(cfg, b, s, evs[0]);
      BegunStaysValid(cfg, BegunAfter(b, s, evs[0]), Step(cfg, s, evs[0]), evs[1..]);
    }
  }

  lemma StepStaysValid(cfg: Config, b: set<Begun>, s: Store, ev: Event)
    requires BegunValid(b) && Legal(cfg, s, ev)
    ensures BegunValid(BegunAfter(b, s, ev))
  {
    hide Begin, BeginNoted, RestoreSound, Stale, IsValidDeviceId, IsValidSpace, Normalize, DateSeg;
  }

  /** Every state of a run is one for which recycle.restore is settled: whether a restore keeps
      everything is exactly whether it is safe. */
  lemma RunRestores(cfg: Config, b: set<Begun>, s: Store, evs: seq<Event>, path: string, stamp: Stamp)
    requires Accounted(cfg.hash, b, s) && BegunValid(b) && LegalRun(cfg, s, evs) && IsValidDeviceId(cfg.localId)
             && DateSeg(stamp.date)
    ensures var fs := Run(cfg, s, evs).fs;
            Shuffled(fs, Restore(fs, cfg.localId, path, stamp).0) <==> RestoreSafe(fs, cfg.localId, path, stamp)
  {
    hide Accounted, BegunValid, Legal, Step, Run, LegalRun, BegunDuring, Restore, Shuffled, RestoreSafe,
      IsValidDeviceId, DateSeg, Tidy, ValidOwners, MetasStaged, IsTree;
    RunKeeps(cfg, b, s, evs);
    BegunStaysValid(cfg, b, s, evs);
    Settled(cfg.hash, BegunDuring(cfg, b, s, evs), Run(cfg, s, evs));
    RestoreSafeIff(Run(cfg, s, evs).fs, cfg.localId, path, stamp);
  }

  lemma Settled(hash: Hash, b: set<Begun>, s: Store)
    requires Accounted(hash, b, s) && BegunValid(b)
    ensures IsTree(s.fs) && Tidy(s.fs) && ValidOwners(s.fs) && MetasStaged(s.fs)
  {
    hide IsTree, Tidy, PartHasMeta, EntryOk, IsSession, GoodMeta, Owner, Staged, IsValidDeviceId, IsValidSpace;
    forall p <- s.fs | !Staged(p) && s.fs[p] != Dir ensures ValidOwner(p) {
      assert s.fs[p].Blob?;
      assert Begun(Owner(p).value.0, Owner(p).value.1, |s.fs[p].data|, hash(s.fs[p].data)) in b;
    }
  }
}
