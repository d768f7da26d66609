/** No request takes the file system out of tree shape, whatever state it finds. */
module Trees {
  import opened Wrappers
  import opened Paths
  import opened FileSystem
  import opened Layout
  import opened Recycle
  import opened RecycleLaws
  import opened RestoreLaws
  import opened Staging
  import opened StagingLaws
  import opened CommitLaws
  import opened Maintenance
  import opened Host
  import P = Protocol
  import A = ImportAuth

  lemma BeginTree(s: Store, caller: string, space: string, path: string, size: int, sha: string, id: string, now: int)
    requires IsTree(s.fs)
    ensures IsTree(Begin(s, caller, space, path, size, sha, id, now).0.fs)
  {
    hide IsTree, CanMkdirs, Mkdirs, Normalize;
    var dir := [caller, space, STAGING];
    if BeginError(path, size, sha, id).None? && CanMkdirs(s.fs, dir) {
      MkdirsTree(s.fs, dir);
      BeginAtTree(s.(fs := Mkdirs(s.fs, dir)), caller, space, StagingMeta(Normalize(path).value, size, sha, now), id);
    }
  }

  lemma BeginAtTree(s: Store, caller: string, space: string, declared: StagingMeta, id: string)
    requires IsTree(s.fs) && [caller, space, STAGING] in s.fs && s.fs[[caller, space, STAGING]] == Dir
    ensures IsTree(BeginAt(s, caller, space, declared, id).0.fs)
  {
    hide IsTree;
    var part, meta := PartPath(caller, space, id), MetaPath(caller, space, id);
    assert Parent(part) == Parent(meta) == [caller, space, STAGING];
    if !(meta in s.fs && s.fs[meta].Meta?) && !(meta in s.fs && s.fs[meta].Dir?) {
      SetNode(s.fs, meta, Meta(declared));
      var noted := s.fs[meta := Meta(declared)];
      assert [caller, space, STAGING] in noted && |meta| == 4;
      if part !in noted { SetNode(noted, part, Blob([])); }
    }
  }

  lemma ChunkTree(s: Store, id: string, raw: Option<Bytes>, offset: int)
    requires IsTree(s.fs)
    ensures IsTree(Chunk(s, id, raw, offset).0.fs)
  {
    ChunkShape(s, id, raw, offset);
    hide Chunk, IsTree;
    if Chunk(s, id, raw, offset).1.Ok? {
      var part := PartPath(s.uploads[id].device, s.uploads[id].space, id);
      ParentIsDir(s.fs, part);
      SetNode(s.fs, part, Blob(Splice(s.fs[part].data, offset, raw.value)));
    }
  }

  lemma ParentIsDir(fs: Fs, p: Path)
    requires IsTree(fs) && p in fs && p != []
    ensures Parent(p) in fs && fs[Parent(p)] == Dir
  {
  }

  lemma CommitOneTree(s: Store, localId: string, p: Pending, stamp: Stamp)
    requires IsTree(s.fs)
    ensures IsTree(CommitOne(s, localId, p, stamp).0.fs)
  {
    hide IsTree, MoveToRecycle, CanMkdirs, Mkdirs, Rename, RemoveFile;
    var u, dest := p.u, Destination(p.u);
    if CanMkdirs(s.fs, Parent(dest)) {
      MkdirsTree(s.fs, Parent(dest));
      MoveToRecycleTree(Mkdirs(s.fs, Parent(dest)), localId, u.device, u.space, Join(u.rel), stamp);
      var cleared := Clear(s.fs, localId, u, stamp).0;
      var part, meta := PartPath(u.device, u.space, p.id), MetaPath(u.device, u.space, p.id);
      if Rename(cleared, part, dest).Ok? {
        RenameIsTree(cleared, part, dest);
        RemoveFileTree(Rename(cleared, part, dest).value, meta);
      }
    }
  }

  lemma RemoveFileTree(fs: Fs, p: Path)
    requires IsTree(fs) && p != []
    ensures IsTree(RemoveFile(fs, p))
  {
    if p in fs && fs[p] != Dir { MetaRemoved(fs, p); }
  }

  lemma {:induction false} CommitAllTree(s: Store, localId: string, batch: seq<Pending>, clock: nat -> Stamp)
    requires IsTree(s.fs)
    ensures IsTree(CommitAll(s, localId, batch, clock).store.fs)
  {
    hide IsTree, CommitOne;
    if batch != [] {
      var n := |batch| - 1;
      CommitAllTree(s, localId, batch[..n], clock);
      CommitOneTree(CommitAll(s, localId, batch[..n], clock).store, localId, batch[n], clock(n));
    }
  }

  lemma CommitTree(hash: Hash, s: Store, localId: string, ids: seq<string>, clock: nat -> Stamp)
    requires IsTree(s.fs)
    ensures IsTree(Commit(hash, s, localId, ids, clock).0.fs)
  {
    hide IsTree, Verify, CommitAll;
    if Verify(hash, s, ids).Ok? { CommitAllTree(s, localId, Verify(hash, s, ids).value, clock); }
  }

  lemma DeleteTree(fs: Fs, localId: string, device: string, space: string, path: string, stamp: Stamp)
    requires IsTree(fs)
    ensures IsTree(Delete(fs, localId, device, space, path, stamp).0)
  {
    hide IsTree, MoveToRecycle, Normalize;
    if Normalize(path).Ok? { MoveToRecycleTree(fs, localId, device, space, Join(Normalize(path).value), stamp); }
  }

  lemma RestoreTree(fs: Fs, localId: string, path: string, stamp: Stamp)
    requires IsTree(fs)
    ensures IsTree(Restore(fs, localId, path, stamp).0)
  {
    hide IsTree, MoveToRecycle, Transfer, Prune, Resolve, Split, Slashed, HasDotDot, ExistsAt, EndingOf, Stricter,
      OriginParts, Named, Join;
    var parts := Split(Slashed(path));
    if |parts| >= 5 {
      var rel := Join(OriginParts(parts));
      MoveToRecycleTree(fs, localId, parts[2], parts[3], rel, stamp);
      if Resolve(localId, parts[3], parts[2], rel).Ok? {
        var dest := Resolve(localId, parts[3], parts[2], rel).value;
        var e := Stricter(EndingOf(parts), EndingOf(dest));
        var cleared := if ExistsAt(fs, dest) then MoveToRecycle(fs, localId, parts[2], parts[3], rel, stamp).0 else fs;
        TransferTree(cleared, Named(parts), Named(dest), e);
        PrunedTree(Transfer(cleared, Named(parts), Named(dest), e).0);
      }
    }
  }

  lemma PrunedTree(fs: Fs)
    requires IsTree(fs)
    ensures IsTree(Prune(fs))
  {
    PruneShuffles(fs);
  }

  lemma EmptyTree(fs: Fs)
    requires IsTree(fs)
    ensures IsTree(EmptyBin(fs))
  {
    EmptyBinLaw(fs, (n: Node) => 0);
  }

  /** No request takes the file system out of tree shape. */
  lemma HandleTree(site: Site, s: State, f: P.Frame, caller: string, trust: P.Trust, loopback: bool, inp: Inputs)
    requires IsTree(s.store.fs)
    ensures IsTree(Handle(site, s, f, caller, trust, loopback, inp).0.store.fs)
  {
    hide IsTree, Begin, Chunk, Commit, Delete, Restore, EmptyBin, Look, A.RequireImportGrant, A.CreateRequest,
      A.GrantRequest, A.RejectRequest, P.CheckAcl, A.AuthorizeSeed;
    BeginTree(s.store, caller, f.space, f.path, f.size, f.sha, UploadId(f, inp), inp.now);
    ChunkTree(s.store, ChunkId(f), f.data, f.offset);
    CommitTree(site.reader.hash, s.store, site.localId, BatchIds(f), inp.clock);
    DeleteTree(s.store.fs, site.localId, P.TargetDevice(f, caller), f.space, f.path, inp.stamp);
    RestoreTree(s.store.fs, site.localId, f.recyclePath, inp.stamp);
    EmptyTree(s.store.fs);
  }
}
