/** What is uploaded in chunks, in whatever order, is what is committed and read back. */
module Fidelity {
  import opened Wrappers
  import opened Paths
  import opened FileSystem
  import opened Layout
  import opened Recycle
  import opened RecycleLaws
  import opened Staging
  import opened StagingLaws
  import opened CommitLaws
  import opened BatchLaws
  import opened Provenance
  import opened Maintenance
  import opened Tidiness
  import opened RestoreAnywhere
  import opened Crash
  import opened CrashRuns
  import opened StoreRun

  // ---------- reading ----------

  function ReadLength(length: int): (n: nat)
    ensures 1 <= n <= MAX_CHUNK
  {
    if length <= 0 || length > MAX_CHUNK then MAX_CHUNK else length
  }

  /** One read of an open file: the bytes and the eof flag. */
  function ReadChunk(data: Bytes, offset: nat, length: int): (Bytes, bool) {
    var n := ReadLength(length);
    if offset + n <= |data| then (data[offset..offset + n], false)
    else if offset <= |data| then (data[offset..], true)
    else ([], true)
  }

  /** The file a read request opens. A directory opens as well, and no byte can be read from it. */
  function OpenForRead(fs: Fs, localId: string, space: string, device: string, path: string): Result<Bytes, OpError> {
    match ResolvePath(localId, space, device, path)
    case Err(e) => Err(e)
    case Ok(full) => if full !in fs then Err(NotFound) else Ok(if fs[full].Blob? then fs[full].data else [])
  }

  /** A client reading on from `offset` until eof, asking for lengths(i) bytes the i-th time. */
  function ReadUntilEof(data: Bytes, offset: nat, lengths: nat -> int, i: nat): Bytes
    requires offset <= |data|
    decreases |data| - offset
  {
    var (got, eof) := ReadChunk(data, offset, lengths(i));
    if eof then got else got + ReadUntilEof(data, offset + |got|, lengths, i + 1)
  }

  /** Whatever lengths are asked for, the loop ends and returns the rest of the file. */
  lemma {:induction false} ReadReturnsAll(data: Bytes, offset: nat, lengths: nat -> int, i: nat)
    requires offset <= |data|
    ensures ReadUntilEof(data, offset, lengths, i) == data[offset..]
    decreases |data| - offset
  {
    var (got, eof) := ReadChunk(data, offset, lengths(i));
    if !eof {
      ReadReturnsAll(data, offset + |got|, lengths, i + 1);
      assert got + data[offset + |got|..] == data[offset..];
    }
  }

  // ---------- chunks that agree with one content ----------

  predicate Agrees(content: Bytes, at: nat, raw: Bytes) {
    at + |raw| <= |content| && content[at..at + |raw|] == raw
  }

  lemma SpliceAgrees(content: Bytes, was: Bytes, at: nat, raw: Bytes)
    requires was <= content && at <= |was| && Agrees(content, at, raw)
    ensures Splice(was, at, raw) <= content
  {
    var now := Splice(was, at, raw);
    forall i | 0 <= i < |now| ensures now[i] == content[i] {
      if at <= i < at + |raw| {
        assert raw[i - at] == content[at..at + |raw|][i - at];
      }
    }
  }

  /** The part of upload `id`, if it exists, is a beginning of the content. */
  ghost predicate PartIsPrefix(fs: Fs, device: string, space: string, id: string, content: Bytes) {
    var part := PartPath(device, space, id);
    part in fs ==> fs[part].Blob? && fs[part].data <= content
  }

  /** A chunk accepted for this upload agrees with the content; other events are free. */
  ghost predicate ChunkAgrees(s: Store, ev: Event, device: string, space: string, id: string, content: Bytes) {
    ev.ChunkEv? && ev.id == id && Chunk(s, id, ev.raw, ev.offset).1.Ok? && id in s.uploads
    && s.uploads[id].device == device && s.uploads[id].space == space
    ==> ev.raw.Some? && ev.offset >= 0 && Agrees(content, ev.offset, ev.raw.value)
  }

  ghost predicate ChunksAgree(cfg: Config, s: Store, evs: seq<Event>, device: string, space: string, id: string,
                              content: Bytes)
    decreases |evs|
  {
    evs != [] ==>
      ChunkAgrees(s, evs[0], device, space, id, content)
      && ChunksAgree(cfg, Step(cfg, s, evs[0]), evs[1..], device, space, id, content)
  }

  lemma ShrinkKeepsPrefix(f: Fs, g: Fs, device: string, space: string, id: string, content: Bytes)
    requires IsValidDeviceId(device) && PartIsPrefix(f, device, space, id, content)
    requires forall q <- g | Staged(q) :: q in f && g[q] == f[q]
    ensures PartIsPrefix(g, device, space, id, content)
  {
    assert device[0] != '.' && Staged(PartPath(device, space, id));
  }

  /** What a begin adds, cut off or not, puts no byte into any part. */
  lemma BeginKeepsPrefix(f: Fs, g: Fs, caller: string, sp: string, up: string, device: string, space: string,
                         id: string, content: Bytes)
    requires BeginAdds(f, g, caller, sp, up) && PartIsPrefix(f, device, space, id, content)
    ensures PartIsPrefix(g, device, space, id, content)
  {
    PathsApart(device, space, id, caller, sp, up);
    var part := PartPath(device, space, id);
    assert |part| == 4 && !(part <= [caller, sp, STAGING]);
  }

  lemma ChunkKeepsPrefix(s: Store, ev: Event, device: string, space: string, id: string, content: Bytes)
    requires ev.ChunkEv? && Inv(s) && PartIsPrefix(s.fs, device, space, id, content)
    requires ChunkAgrees(s, ev, device, space, id, content)
    ensures PartIsPrefix(Chunk(s, ev.id, ev.raw, ev.offset).0.fs, device, space, id, content)
  {
    ChunkShape(s, ev.id, ev.raw, ev.offset);
    hide Chunk;
    if Chunk(s, ev.id, ev.raw, ev.offset).1.Ok? {
      var u := s.uploads[ev.id];
      var part := PartPath(u.device, u.space, ev.id);
      assert EntryOk(s.fs, ev.id, u);
      PathsApart(device, space, id, u.device, u.space, ev.id);
      if part == PartPath(device, space, id) {
        SpliceAgrees(content, s.fs[part].data, ev.offset, ev.raw.value);
      }
    }
  }

  lemma StepKeepsPrefix(cfg: Config, b: set<Begun>, s: Store, ev: Event, device: string, space: string, id: string,
                        content: Bytes)
    requires Accounted(cfg.hash, b, s) && Legal(cfg, s, ev) && IsValidDeviceId(device)
    requires PartIsPrefix(s.fs, device, space, id, content) && ChunkAgrees(s, ev, device, space, id, content)
    ensures PartIsPrefix(Step(cfg, s, ev).fs, device, space, id, content)
  {
    if Begins(ev) {
      BeginStepAdds(cfg, s, ev);
      hide Step, BeginAdds;
      BeginKeepsPrefix(s.fs, Step(cfg, s, ev).fs, ev.caller, ev.space, ev.id, device, space, id, content);
    } else if ev.ChunkEv? {
      ChunkKeepsPrefix(s, ev, device, space, id, content);
    } else {
      StagingOnlyShrinks(cfg, b, s, ev);
      hide Step;
      ShrinkKeepsPrefix(s.fs, Step(cfg, s, ev).fs, device, space, id, content);
    }
    hide Known, Inv, Tidy, BeginNoted, BeginCut, Begin, Chunk, Commit, Delete, Restore, CommitCut, DoAll;
  }

  predicate Begins(ev: Event) {
    ev.BeginEv? || ev.BeginCrashEv?
  }

  lemma BeginStepAdds(cfg: Config, s: Store, ev: Event)
    requires Begins(ev) && Inv(s) && Legal(cfg, s, ev)
    ensures BeginAdds(s.fs, Step(cfg, s, ev).fs, ev.caller, ev.space, ev.id)
  {
    hide Inv, Begin, BeginCut, BeginAdds, LiveSame, BeginNoted;
    var k := if ev.BeginEv? then 4 else ev.k;
    BeginCutIs(s, ev.caller, ev.space, ev.path, ev.size, ev.sha, ev.id, ev.now, k);
    BeginCutKeeps(s, ev.caller, ev.space, ev.path, ev.size, ev.sha, ev.id, ev.now, k);
  }

  /** No step but begin and chunk puts anything into the staging area. */
  lemma StagingOnlyShrinks(cfg: Config, b: set<Begun>, s: Store, ev: Event)
    requires !Begins(ev) && !ev.ChunkEv? && Accounted(cfg.hash, b, s) && Legal(cfg, s, ev)
    ensures StagingShrinks(s.fs, Step(cfg, s, ev).fs)
  {
    hide Commit, Delete, Restore, EmptyBin, GcRecycle, Purge, Wipe, GcStaging, Inv, Known, Tidy, RestoreSound,
      RestoreLoss, CommitCut, CommitMoved, CommitDropped, CommitLoss, DoAll, SweepActs, LiveSame, Dated, Copies,
      DeleteLoss;
    InvTree(s);
    if ev.CommitEv? {
      CommitConserves(cfg.hash, b, s, cfg.localId, ev.ids, ev.clock);
    } else if ev.CommitCrashEv? {
      CommitCutKeeps(cfg.hash, b, s, cfg.localId, ev.ids, ev.clock, ev.k);
    } else if ev.DeleteEv? {
      DeleteEvRearranges(cfg, s, ev);
    } else if ev.RestoreEv? {
      RestoreKeeps(s.fs, cfg.localId, ev.path, ev.stamp);
    } else if Removes(ev) {
      RemoveTrims(cfg, s, ev);
    } else if ev.GcStagingEv? {
      GcStagingIsStep(cfg, s, ev);
    } else if ev.GcCrashEv? {
      GcCutSwept(cfg, s, ev);
    }
  }

  /** The part is exactly the first `received` bytes of the content. */
  ghost predicate HoldsReceived(s: Store, device: string, space: string, id: string, content: Bytes) {
    var part := PartPath(device, space, id);
    part in s.fs && id in s.uploads && s.uploads[id].device == device && s.uploads[id].space == space ==>
      0 <= s.uploads[id].received <= |content| && s.fs[part] == Blob(content[..s.uploads[id].received])
  }

  lemma PrefixHoldsReceived(s: Store, device: string, space: string, id: string, content: Bytes)
    requires Inv(s) && PartIsPrefix(s.fs, device, space, id, content)
    ensures HoldsReceived(s, device, space, id, content)
  {
    if id in s.uploads {
      assert EntryOk(s.fs, id, s.uploads[id]);
    }
  }

  /** Over every run in which the chunks accepted for an upload agree with one content - in any order,
      overlapping, repeated, across restarts, crashes inside operations and new begins - its part, if it
      exists, is the first `received` bytes of that content. */
  lemma {:induction false} PartIsReceivedContent(cfg: Config, b: set<Begun>, s: Store, evs: seq<Event>,
                                                 device: string, space: string, id: string, content: Bytes)
    requires Accounted(cfg.hash, b, s) && LegalRun(cfg, s, evs) && IsValidDeviceId(device)
    requires PartIsPrefix(s.fs, device, space, id, content) && ChunksAgree(cfg, s, evs, device, space, id, content)
    ensures PartIsPrefix(Run(cfg, s, evs).fs, device, space, id, content)
    ensures HoldsReceived(Run(cfg, s, evs), device, space, id, content)
    decreases |evs|
  {
    hide Accounted, Legal, Step, BegunAfter, PartIsPrefix, ChunkAgrees, HoldsReceived;
    if evs != [] {
      AnyStep(cfg, b, s, evs[0]);
      StepKeepsPrefix(cfg, b, s, evs[0], device, space, id, content);
      PartIsReceivedContent(cfg, BegunAfter(b, s, evs[0]), Step(cfg, s, evs[0]), evs[1..], device, space, id, content);
    } else {
      AccountedInv(cfg.hash, b, s);
      PrefixHoldsReceived(s, device, space, id, content);
    }
  }

  lemma AccountedInv(hash: Hash, b: set<Begun>, s: Store)
    requires Accounted(hash, b, s)
    ensures Inv(s)
  {
  }

  // ---------- parts and declared sizes ----------

  /** No part exceeds the size its meta file declares, if that is not 0. */
  ghost predicate WithinDeclared(fs: Fs) {
    forall d, t, id | IsValidDeviceId(d) && PartPath(d, t, id) in fs :: PartWithin(fs, d, t, id)
  }

  ghost predicate PartWithin(fs: Fs, d: string, t: string, id: string) {
    var part, meta := PartPath(d, t, id), MetaPath(d, t, id);
    part in fs && fs[part].Blob? && meta in fs && fs[meta].Meta? && fs[meta].meta.size > 0 ==>
        |fs[part].data| <= fs[meta].meta.size
  }

  /** A begin, cut off or not, notes a size only where there is no part yet. */
  lemma BeginKeepsWithin(cfg: Config, s: Store, ev: Event)
    requires Begins(ev) && Inv(s) && Legal(cfg, s, ev) && WithinDeclared(s.fs)
    ensures WithinDeclared(Step(cfg, s, ev).fs)
  {
    hide Inv, Begin, BeginCut, BeginAdds, LiveSame, Step, PartWithin;
    BeginStepAdds(cfg, s, ev);
    BeginStepMetas(cfg, s, ev);
    forall d, t, id | IsValidDeviceId(d) && PartPath(d, t, id) in Step(cfg, s, ev).fs
      ensures PartWithin(Step(cfg, s, ev).fs, d, t, id)
    {
      InvPair(s, d, t, id);
      BegunWithin(s.fs, Step(cfg, s, ev).fs, ev.caller, ev.space, ev.id, d, t, id);
    }
  }

  lemma InvPair(s: Store, d: string, t: string, id: string)
    requires Inv(s) && IsValidDeviceId(d)
    ensures PartPath(d, t, id) in s.fs ==> MetaPath(d, t, id) in s.fs && s.fs[MetaPath(d, t, id)].Meta?
  {
  }

  lemma BeginStepMetas(cfg: Config, s: Store, ev: Event)
    requires Begins(ev) && Inv(s) && Legal(cfg, s, ev)
    ensures var g := Step(cfg, s, ev).fs;
            forall p <- g | g[p].Meta? ::
                (p in s.fs && s.fs[p] == g[p]) || (p == MetaPath(ev.caller, ev.space, ev.id) && p !in s.fs)
  {
    hide Inv, Begin, BeginCut, BeginAdds, LiveSame;
    var k := if ev.BeginEv? then 4 else ev.k;
    BeginCutIs(s, ev.caller, ev.space, ev.path, ev.size, ev.sha, ev.id, ev.now, k);
    BeginCutKeeps(s, ev.caller, ev.space, ev.path, ev.size, ev.sha, ev.id, ev.now, k);
  }

  lemma BegunWithin(f: Fs, g: Fs, caller: string, sp: string, up: string, d: string, t: string, id: string)
    requires BeginAdds(f, g, caller, sp, up) && PartPath(d, t, id) in g
             && (PartPath(d, t, id) in f ==> MetaPath(d, t, id) in f && PartWithin(f, d, t, id))
    requires forall p <- g | g[p].Meta? :: (p in f && f[p] == g[p]) || (p == MetaPath(caller, sp, up) && p !in f)
    ensures PartWithin(g, d, t, id)
  {
    PathsApart(d, t, id, caller, sp, up);
    var part := PartPath(d, t, id);
    assert |part| == 4 && !(part <= [caller, sp, STAGING]);
  }

  /** A chunk that would go past the declared size is refused. */
  lemma ChunkKeepsWithin(s: Store, id: string, raw: Option<Bytes>, offset: int)
    requires Inv(s) && WithinDeclared(s.fs)
    ensures WithinDeclared(Chunk(s, id, raw, offset).0.fs)
  {
    hide Inv, PartWithin;
    ChunkShape(s, id, raw, offset);
    var g := Chunk(s, id, raw, offset).0.fs;
    if Chunk(s, id, raw, offset).1.Ok? {
      ChunkFits(s, id, raw, offset);
      var u := s.uploads[id];
      hide Chunk;
      forall d, t, i | IsValidDeviceId(d) && PartPath(d, t, i) in g ensures PartWithin(g, d, t, i) {
        PathsApart(d, t, i, u.device, u.space, id);
        PathsApart(u.device, u.space, id, d, t, i);
        OtherWithin(s.fs, g, PartPath(u.device, u.space, id), d, t, i);
      }
    }
  }

  lemma OtherWithin(f: Fs, g: Fs, changed: Path, d: string, t: string, id: string)
    requires g.Keys == f.Keys && (forall p <- f | p != changed :: g[p] == f[p]) && changed != MetaPath(d, t, id)
    requires PartWithin(if changed == PartPath(d, t, id) then g else f, d, t, id)
    ensures PartWithin(g, d, t, id)
  {
  }

  lemma ChunkFits(s: Store, id: string, raw: Option<Bytes>, offset: int)
    requires Inv(s) && Chunk(s, id, raw, offset).1.Ok? && id in s.uploads
    ensures var u := s.uploads[id];
            PartWithin(s.fs, u.device, u.space, id) ==>
                PartWithin(Chunk(s, id, raw, offset).0.fs, u.device, u.space, id)
  {
    var u := s.uploads[id];
    ChunkShape(s, id, raw, offset);
    assert EntryOk(s.fs, id, u);
    PathsApart(u.device, u.space, id, u.device, u.space, id);
    SpliceLength(s.fs[PartPath(u.device, u.space, id)].data, offset, raw.value);
    hide Splice;
  }

  lemma ShrinkKeepsWithin(f: Fs, g: Fs)
    requires WithinDeclared(f) && StagingShrinks(f, g)
    ensures WithinDeclared(g)
  {
    forall d, t, id | IsValidDeviceId(d) && PartPath(d, t, id) in g ensures PartWithin(g, d, t, id) {
      assert d[0] != '.' && Staged(PartPath(d, t, id)) && Staged(MetaPath(d, t, id));
      assert PartPath(d, t, id) in f && PartWithin(f, d, t, id);
    }
  }

  /** Over every run, crashes inside operations included, a part never exceeds the size its upload
      declared, unless that was 0. */
  lemma {:induction false} NeverBeyondDeclared(cfg: Config, b: set<Begun>, s: Store, evs: seq<Event>)
    requires Accounted(cfg.hash, b, s) && LegalRun(cfg, s, evs) && WithinDeclared(s.fs)
    ensures WithinDeclared(Run(cfg, s, evs).fs)
    decreases |evs|
  {
    hide Accounted, Legal, Step, BegunAfter, WithinDeclared;
    if evs != [] {
      AnyStep(cfg, b, s, evs[0]);
      StepKeepsWithin(cfg, b, s, evs[0]);
      NeverBeyondDeclared(cfg, BegunAfter(b, s, evs[0]), Step(cfg, s, evs[0]), evs[1..]);
    }
  }

  lemma StepKeepsWithin(cfg: Config, b: set<Begun>, s: Store, ev: Event)
    requires Accounted(cfg.hash, b, s) && Legal(cfg, s, ev) && WithinDeclared(s.fs)
    ensures WithinDeclared(Step(cfg, s, ev).fs)
  {
    hide Legal, WithinDeclared, Accounted;
    AccountedInv(cfg.hash, b, s);
    if Begins(ev) {
      hide Step;
      BeginKeepsWithin(cfg, s, ev);
    } else if ev.ChunkEv? {
      ChunkKeepsWithin(s, ev.id, ev.raw, ev.offset);
    } else {
      hide Step;
      StagingOnlyShrinks(cfg, b, s, ev);
      ShrinkKeepsWithin(s.fs, Step(cfg, s, ev).fs);
    }
    hide Inv, Chunk;
  }

  ghost predicate ReportedCommitted(r: Result<Outcome, OpError>, id: string) {
    r.Ok? && exists p <- r.value.committed :: p.id == id
  }

  /** Once every byte has been received, a commit that reports the upload as committed, alone or
      with others, makes the content readable, in pieces of any length, under every spelling of
      its path. */
  lemma CommittedReadsBack(cfg: Config, s: Store, ids: seq<string>, id: string, clock: nat -> Stamp,
                           content: Bytes, path: string, lengths: nat -> int)
    requires Inv(s) && id in s.uploads
    requires PartIsPrefix(s.fs, s.uploads[id].device, s.uploads[id].space, id, content)
             && s.uploads[id].received == |content|
    requires Dated(clock, |ids|) && (Verify(cfg.hash, s, ids).Ok? ==> Independent(Verify(cfg.hash, s, ids).value))
    requires Normalize(path) == Ok(s.uploads[id].rel)
    ensures var u := s.uploads[id];
            var (after, r) := Commit(cfg.hash, s, cfg.localId, ids, clock);
            ReportedCommitted(r, id) ==>
              var file := OpenForRead(after.fs, cfg.localId, u.space, u.device, path);
              file == Ok(content) && ReadUntilEof(file.value, 0, lengths, 0) == content
  {
    hide Commit, Verify, Dated, Independent, Inv, OpenForRead, Normalize, HoldsReceived, PartIsPrefix,
      ReadUntilEof, ReportedCommitted;
    PrefixHoldsReceived(s, s.uploads[id].device, s.uploads[id].space, id, content);
    var (after, r) := Commit(cfg.hash, s, cfg.localId, ids, clock);
    if ReportedCommitted(r, id) {
      CommittedLands(cfg, s, ids, id, clock);
      WholeContent(s, id, content);
      EntryAddress(s, id);
      OpensAt(after.fs, cfg.localId, s.uploads[id], path);
      ReadReturnsAll(content, 0, lengths, 0);
      assert content[0..] == content;
    }
  }

  lemma WholeContent(s: Store, id: string, content: Bytes)
    requires id in s.uploads && HoldsReceived(s, s.uploads[id].device, s.uploads[id].space, id, content)
    requires s.uploads[id].received == |content| && PartPath(s.uploads[id].device, s.uploads[id].space, id) in s.fs
    ensures s.fs[PartPath(s.uploads[id].device, s.uploads[id].space, id)] == Blob(content)
  {
    assert content[..|content|] == content;
  }

  lemma EntryAddress(s: Store, id: string)
    requires Inv(s) && id in s.uploads
    ensures IsValidDeviceId(s.uploads[id].device) && IsValidSpace(s.uploads[id].space)
  {
    assert EntryOk(s.fs, id, s.uploads[id]);
  }

  lemma OpensAt(fs: Fs, localId: string, u: Upload, path: string)
    requires IsValidDeviceId(u.device) && IsValidSpace(u.space) && Normalize(path) == Ok(u.rel)
    requires Destination(u) in fs && fs[Destination(u)].Blob?
    ensures OpenForRead(fs, localId, u.space, u.device, path) == Ok(fs[Destination(u)].data)
  {
    hide Normalize, Kept, IsValidDeviceId, IsValidSpace, BaseText, Push;
    NormalizedIsClean(path);
    NoEmptyNormal();
    DeviceSpaceSegments(u.device, u.space);
    EscapeUnreachable(localId, u.space, u.device, path);
    OfficialText(u.device, u.space, u.rel);
    assert Resolve(localId, u.space, u.device, path) == Ok([u.device, u.space] + u.rel);
  }

  lemma NoEmptyNormal()
    ensures Normalize("").Err? && Normalize("/").Err?
  {
  }

  lemma CommittedLands(cfg: Config, s: Store, ids: seq<string>, id: string, clock: nat -> Stamp)
    requires Inv(s) && id in s.uploads
    requires Dated(clock, |ids|) && (Verify(cfg.hash, s, ids).Ok? ==> Independent(Verify(cfg.hash, s, ids).value))
    requires ReportedCommitted(Commit(cfg.hash, s, cfg.localId, ids, clock).1, id)
    ensures var u := s.uploads[id];
            var after := Commit(cfg.hash, s, cfg.localId, ids, clock).0;
            var part := PartPath(u.device, u.space, id);
            part in s.fs && s.fs[part].Blob? && Destination(u) in after.fs && after.fs[Destination(u)] == s.fs[part]
  {
    hide NoneOverwritten, Dated, Independent, Inv, Untouched, Retryable, Commit, Verify, Partition, InBin, GoodUpload;
    BatchCommit(cfg.hash, s, cfg.localId, ids, clock);
    var r := Commit(cfg.hash, s, cfg.localId, ids, clock).1;
    var p :| p in r.value.committed && p.id == id;
    assert Checked(cfg.hash, s, p);
  }
}
