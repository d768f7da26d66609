/** The upload table is keyed by id alone: which device and space an id stands for, over whole runs. */
module Sessions {
  import opened Wrappers
  import opened Paths
  import opened FileSystem
  import opened Layout
  import opened Recycle
  import opened Staging
  import opened StagingLaws
  import opened BatchLaws
  import opened Maintenance
  import opened Crash
  import opened CrashRuns
  import opened StoreRun

  /** The device and space an id stands for. */
  function Holder(s: Store, id: string): Option<(string, string)> {
    if id in s.uploads then Some((s.uploads[id].device, s.uploads[id].space)) else None
  }

  // ---------- one step ----------

  /** The step is a begin of this id that goes through. */
  predicate Takes(s: Store, ev: Event, id: string) {
    ev.BeginEv? && ev.id == id && Begin(s, ev.caller, ev.space, ev.path, ev.size, ev.sha, ev.id, ev.now).1.Ok?
  }

  /** The step ends the process, commits this id, or collects a stale upload of this id - of any device
      and space. */
  ghost predicate Ends(cfg: Config, s: Store, ev: Event, id: string) {
    match ev
    case RestartEv => true
    case BeginCrashEv(_, _, _, _, _, _, _, _) => true
    case CommitCrashEv(_, _, _) => true
    case GcCrashEv(_, _, _) => true
    case GcStagingEv(deadline) => exists d, sp :: Stale(s.fs, d, sp, id, deadline)
    case CommitEv(ids, clock) =>
      var r := Commit(cfg.hash, s, cfg.localId, ids, clock).1;
      r.Ok? && exists p <- r.value.committed :: p.id == id
    case _ => false
  }

  lemma {:induction false} CommitAllTable(s: Store, localId: string, batch: seq<Pending>, clock: nat -> Stamp)
    ensures var o := CommitAll(s, localId, batch, clock); TableLess(s, o.store, o.committed)
  {
    hide CommitOne, TableLess;
    if batch == [] {
      FullTable(s);
    } else {
      var n := |batch| - 1;
      CommitAllTable(s, localId, batch[..n], clock);
      var before := CommitAll(s, localId, batch[..n], clock);
      CommitOneTable(before.store, localId, batch[n], clock(n));
      var (after, done) := CommitOne(before.store, localId, batch[n], clock(n));
      if done {
        TableGrows(s, before.store, after, before.committed, batch[n]);
      } else {
        SameTable(s, before.store, after, before.committed);
      }
    }
  }

  lemma FullTable(s: Store)
    ensures TableLess(s, s, [])
  {
  }

  lemma SameTable(s: Store, f: Store, g: Store, committed: seq<Pending>)
    requires TableLess(s, f, committed) && g.uploads == f.uploads
    ensures TableLess(s, g, committed)
  {
  }

  lemma CommitOneTable(s: Store, localId: string, p: Pending, stamp: Stamp)
    ensures var (after, done) := CommitOne(s, localId, p, stamp);
            after.uploads == if done then Without(s.uploads, p.id) else s.uploads
  {
    hide Clear, Deposit;
  }

  lemma BeginTable(s: Store, ev: Event, id: string)
    requires ev.BeginEv?
    ensures var after := Begin(s, ev.caller, ev.space, ev.path, ev.size, ev.sha, ev.id, ev.now).0;
            Holder(after, id) == if Takes(s, ev, id) then Some((ev.caller, ev.space)) else Holder(s, id)
  {
    hide CanMkdirs, Mkdirs, BeginError;
  }

  lemma ChunkTable(s: Store, ev: Event, id: string)
    requires ev.ChunkEv?
    ensures Holder(Chunk(s, ev.id, ev.raw, ev.offset).0, id) == Holder(s, id)
  {
    ChunkShape(s, ev.id, ev.raw, ev.offset);
    hide Chunk;
  }

  /** What one step does to an id, exactly: a begin of it that goes through makes it the caller's,
      whosever it was; the steps that end it take it off the table; and no other step moves it. */
  lemma StepHolder(cfg: Config, s: Store, ev: Event, id: string)
    ensures Holder(Step(cfg, s, ev), id) ==
              if Takes(s, ev, id) then Some((ev.caller, ev.space))
              else if Ends(cfg, s, ev, id) then None
              else Holder(s, id)
  {
    hide Begin, Chunk, Commit, CommitAll, Verify, Delete, Restore, EmptyBin, GcRecycle, Purge, Wipe, BeginCut,
      CommitCut, DoAll, SweepActs, Stale;
    match ev {
      case BeginEv(_, _, _, _, _, _, _) => BeginTable(s, ev, id);
      case ChunkEv(_, _, _) => ChunkTable(s, ev, id);
      case CommitEv(ids, clock) => CommitTable(cfg, s, ids, clock, id);
      case GcStagingEv(deadline) => GcStagingIsStep(cfg, s, ev);
      case _ =>
    }
  }

  lemma CommitTable(cfg: Config, s: Store, ids: seq<string>, clock: nat -> Stamp, id: string)
    ensures var (after, r) := Commit(cfg.hash, s, cfg.localId, ids, clock);
            Holder(after, id) == if r.Ok? && exists p <- r.value.committed :: p.id == id then None else Holder(s, id)
  {
    hide Verify, CommitAll;
    if Verify(cfg.hash, s, ids).Ok? {
      CommitAllTable(s, cfg.localId, Verify(cfg.hash, s, ids).value, clock);
    }
  }

  /** Nothing but the part of this upload has changed. */
  ghost predicate OnlyPart(f: Fs, g: Fs, device: string, space: string, id: string) {
    forall p | p != PartPath(device, space, id) :: (p in g <==> p in f) && (p in f ==> g[p] == f[p])
  }

  /** Where an accepted chunk goes: into the part of whoever the id stands for, and nowhere else. */
  lemma ChunkGoesToHolder(s: Store, id: string, raw: Option<Bytes>, offset: int)
    requires Chunk(s, id, raw, offset).1.Ok?
    ensures Holder(s, id).Some?
            && OnlyPart(s.fs, Chunk(s, id, raw, offset).0.fs, Holder(s, id).value.0, Holder(s, id).value.1, id)
  {
    ChunkShape(s, id, raw, offset);
    hide Chunk;
  }

  // ---------- runs ----------

  /** The last begin of this id that went through, if one did. */
  ghost function LastBegin(cfg: Config, s: Store, evs: seq<Event>, id: string): Option<(string, string)>
    decreases |evs|
  {
    if evs == [] then None
    else
      var later := LastBegin(cfg, Step(cfg, s, evs[0]), evs[1..], id);
      if later.Some? then later
      else if Takes(s, evs[0], id) then Some((evs[0].caller, evs[0].space))
      else None
  }

  /** Over every run an id stands for the device and space of the last begin of it that went through, or
      for what it stood for at the start - or for nothing, once it has ended. */
  lemma {:induction false} HolderIsLastBegin(cfg: Config, s: Store, evs: seq<Event>, id: string)
    ensures var end := Holder(Run(cfg, s, evs), id);
            end.Some? ==> end == (if LastBegin(cfg, s, evs, id).Some? then LastBegin(cfg, s, evs, id)
                                  else Holder(s, id))
    decreases |evs|
  {
    hide Step, Takes, Ends, Holder;
    if evs != [] {
      StepHolder(cfg, s, evs[0], id);
      HolderIsLastBegin(cfg, Step(cfg, s, evs[0]), evs[1..], id);
      NoneLeft(cfg, Step(cfg, s, evs[0]), evs[1..], id);
    }
  }

  /** An id that stands for nothing needs a begin to stand for something again. */
  lemma {:induction false} NoneLeft(cfg: Config, s: Store, evs: seq<Event>, id: string)
    ensures Holder(s, id).None? && LastBegin(cfg, s, evs, id).None? ==> Holder(Run(cfg, s, evs), id).None?
    decreases |evs|
  {
    hide Step, Takes, Ends, Holder;
    if evs != [] {
      StepHolder(cfg, s, evs[0], id);
      NoneLeft(cfg, Step(cfg, s, evs[0]), evs[1..], id);
    }
  }

  /** Only this device begins this id, and in this space. */
  ghost predicate SoleBeginner(evs: seq<Event>, id: string, device: string, space: string) {
    forall ev <- evs | ev.BeginEv? && ev.id == id :: ev.caller == device && ev.space == space
  }

  /** So an upload keeps its device and space through any run in which nobody else begins its id, and a
      chunk accepted at the end of it changes that device's part and no other file. */
  lemma {:induction false} SoleBeginnerKeeps(cfg: Config, s: Store, evs: seq<Event>, id: string, device: string,
                                             space: string, raw: Option<Bytes>, offset: int)
    requires SoleBeginner(evs, id, device, space) && Holder(s, id) in {None, Some((device, space))}
    ensures var end := Run(cfg, s, evs);
            var (g, r) := Chunk(end, id, raw, offset);
            && Holder(end, id) in {None, Some((device, space))}
            && (r.Ok? ==> Holder(end, id).Some? && OnlyPart(end.fs, g.fs, device, space, id))
    decreases |evs|
  {
    hide Step, Takes, Ends, Holder, Chunk, OnlyPart;
    if evs != [] {
      StepHolder(cfg, s, evs[0], id);
      TakenBy(s, evs[0], id);
      assert evs[0] in evs;
      SoleBeginnerKeeps(cfg, Step(cfg, s, evs[0]), evs[1..], id, device, space, raw, offset);
    } else if Chunk(s, id, raw, offset).1.Ok? {
      ChunkGoesToHolder(s, id, raw, offset);
    }
  }

  lemma TakenBy(s: Store, ev: Event, id: string)
    ensures Takes(s, ev, id) ==> ev.BeginEv? && ev.id == id
  {
    hide Begin;
  }

  // ---------- ids that two devices use ----------

  /** A device that begins an upload under an id another device is using takes the id over: the other's
      next chunk, sent from where it had got to, is refused, and a chunk it sends from the start goes into
      the new device's part. Its own part keeps what it had. */
  lemma BeginTakesOver(s: Store, id: string, device: string, space: string, path: string, size: int, sha: string,
                       now: int, raw: Bytes)
    requires Inv(s) && id in s.uploads && s.uploads[id].device != device && s.uploads[id].received > 0
    requires PartPath(s.uploads[id].device, s.uploads[id].space, id) in s.fs
    requires IsValidDeviceId(device) && IsValidSpace(space) && BeginError(path, size, sha, id).None?
    requires CanMkdirs(s.fs, [device, space, STAGING]) && MetaPath(device, space, id) !in s.fs
    requires 0 < |raw| <= MAX_CHUNK && (size > 0 ==> |raw| <= size)
    ensures var u := s.uploads[id];
            var own := PartPath(u.device, u.space, id);
            var (begun, r) := Begin(s, device, space, path, size, sha, id, now);
            && r == Ok(0) && Holder(begun, id) == Some((device, space))
            && Chunk(begun, id, Some(raw), u.received) == (begun, Err(StagingState))
            && var (after, accepted) := Chunk(begun, id, Some(raw), 0);
               && accepted == Ok(|raw|)
               && PartPath(device, space, id) in after.fs && after.fs[PartPath(device, space, id)] == Blob(raw)
               && own in after.fs && after.fs[own] == s.fs[own]
  {
    hide Inv, CanMkdirs, Mkdirs;
    var u := s.uploads[id];
    var own, part, meta := PartPath(u.device, u.space, id), PartPath(device, space, id), MetaPath(device, space, id);
    BeginFacts(s, device, space, id);
    PathsApart(device, space, id, device, space, id);
    PathsApart(u.device, u.space, id, device, space, id);
    PathsApart(device, space, id, u.device, u.space, id);
    var made := Mkdirs(s.fs, [device, space, STAGING]);
    assert BeginAt(s.(fs := made), device, space, StagingMeta(Normalize(path).value, size, sha, now), id).1 == Ok(0);
    var begun := Begin(s, device, space, path, size, sha, id, now).0;
    assert part in begun.fs && begun.fs[part] == Blob([]) && begun.uploads[id].received == 0
           && begun.uploads[id].size == size;
    assert own in begun.fs && begun.fs[own] == s.fs[own];
    assert Splice([], 0, raw) == raw;
  }

  /** Collecting one device's stale upload forgets the id for another device that is using it: its files
      stay, but its chunks are refused until it begins again - and that begin takes up every byte. */
  lemma OtherCollected(s: Store, g: Store, id: string, other: string, space: string, deadline: int, raw: Bytes,
                       offset: int, path: string, now: int)
    requires Inv(s) && GcStagingDone(s, g, deadline) && id in s.uploads && |raw| <= MAX_CHUNK
    requires var u := s.uploads[id];
             && Stale(s.fs, other, space, id, deadline) && !Stale(s.fs, u.device, u.space, id, deadline)
             && PartPath(u.device, u.space, id) in s.fs && Normalize(path) == Ok(u.rel)
    ensures var u := s.uploads[id];
            && id !in g.uploads && Chunk(g, id, Some(raw), offset) == (g, Err(StagingState))
            && var (again, r) := Begin(g, u.device, u.space, path, u.size, u.sha, id, now);
               r == Ok(u.received) && Holder(again, id) == Some((u.device, u.space))
  {
    hide Inv, Stale, StaleFile, Trimmed, LiveSame, KeptIfRecent, Chunk, Begin, IsValidDeviceId, IsValidSpace, Clean,
      ValidUploadId, IsHexSha256;
    var u := s.uploads[id];
    GcStagingLaw(s, g, deadline);
    EntryChecks(s, id);
    FilesStay(s, g, u, id, deadline);
    ForgottenChunk(g, id, raw, offset);
    BeginAgain(g, u, id, path, now);
  }

  lemma EntryChecks(s: Store, id: string)
    requires Inv(s) && id in s.uploads && PartPath(s.uploads[id].device, s.uploads[id].space, id) in s.fs
    ensures EntryOk(s.fs, id, s.uploads[id])
  {
  }

  lemma FilesStay(s: Store, g: Store, u: Upload, id: string, deadline: int)
    requires GcStagingDone(s, g, deadline) && !Stale(s.fs, u.device, u.space, id, deadline)
    ensures forall p | p == PartPath(u.device, u.space, id) || p == MetaPath(u.device, u.space, id) ::
              p in s.fs ==> p in g.fs && g.fs[p] == s.fs[p]
  {
    hide Stale, StaleFile;
    StaleFileIff(s.fs, u.device, u.space, id, deadline);
  }

  lemma ForgottenChunk(s: Store, id: string, raw: Bytes, offset: int)
    requires ValidUploadId(id) && |raw| <= MAX_CHUNK && id !in s.uploads
    ensures Chunk(s, id, Some(raw), offset) == (s, Err(StagingState))
  {
  }

  lemma BeginAgain(g: Store, u: Upload, id: string, path: string, now: int)
    requires Inv(g) && IsValidDeviceId(u.device) && IsValidSpace(u.space) && ValidUploadId(id) && u.size >= 0
             && IsHexSha256(u.sha)
    requires var part, meta := PartPath(u.device, u.space, id), MetaPath(u.device, u.space, id);
             && part in g.fs && g.fs[part].Blob? && |g.fs[part].data| == u.received && meta in g.fs && g.fs[meta].Meta?
             && g.fs[meta].meta.rel == u.rel && g.fs[meta].meta.size == u.size && g.fs[meta].meta.sha == u.sha
    requires Normalize(path) == Ok(u.rel)
    ensures var (again, r) := Begin(g, u.device, u.space, path, u.size, u.sha, id, now);
            r == Ok(u.received) && Holder(again, id) == Some((u.device, u.space))
  {
    hide Inv, CanMkdirs, Mkdirs;
    var dir, meta := [u.device, u.space, STAGING], MetaPath(u.device, u.space, id);
    InvTree(g);
    StagingStands(g.fs, dir, meta);
    BeginFacts(g, u.device, u.space, id);
  }

  lemma StagingStands(fs: Fs, dir: Path, p: Path)
    requires IsTree(fs) && p in fs && |p| == |dir| + 1 && Parent(p) == dir
    ensures CanMkdirs(fs, dir)
  {
    forall k | 0 <= k <= |dir| && dir[..k] in fs ensures fs[dir[..k]] == Dir {
      AncestorIsDir(fs, p, k);
      assert dir[..k] == p[..k];
    }
  }
}
