/** write.begin, write.chunk and commit as the store carries them out, on the object. */
module WriteOps {
  import opened Wrappers
  import opened Paths
  import opened FileSystem
  import opened Layout
  import opened Recycle
  import opened Staging
  import opened StagingLaws
  import opened Uploading
  import opened Locals
  import opened BrowseOps

  method WriteBegin(local: Local, caller: string, space: string, path: string, size: int, sha: string, id: string,
                    now: int)
    returns (r: Result<int, OpError>)
    modifies local
    ensures (local.Files(), r) == Begin(old(local.Files()), caller, space, path, size, sha, id, now)
  {
    hide Normalize, IsHexSha256, ValidUploadId, CanMkdirs, Mkdirs, Split, Join;
    var norm := NormalizePath(path);
    if norm.Err? { return Err(BadPath); }
    if size < 0 { return Err(BadOp); }
    if !IsHexSha256(sha) { return Err(BadOp); }
    if !ValidUploadId(id) { return Err(BadOp); }
    NormalizedIsClean(path);
    var rel := Split(norm.value);
    var dir := [caller, space, STAGING];
    if !CanMkdirs(local.fs, dir) { return Err(Internal); }
    local.fs := Mkdirs(local.fs, dir);
    var part, meta := PartPath(caller, space, id), MetaPath(caller, space, id);
    if meta in local.fs && local.fs[meta].Meta? {
      var m := local.fs[meta].meta;
      if m.rel != rel || m.size != size || (m.sha != "" && m.sha != sha) { return Err(StagingState); }
      var received := PartLength(local.fs, part);
      local.uploads := local.uploads[id := Upload(caller, space, rel, size, m.sha, received)];
      return Ok(received);
    }
    if meta in local.fs && local.fs[meta].Dir? { return Err(Internal); }
    local.fs := local.fs[meta := Meta(StagingMeta(rel, size, sha, now))];
    if part in local.fs && local.fs[part].Dir? { return Err(Internal); }
    if part !in local.fs {
      local.fs := local.fs[part := Blob([])];
    }
    local.uploads := local.uploads[id := Upload(caller, space, rel, size, sha, 0)];
    return Ok(0);
  }

  lemma ChunkAccepted(s: Store, id: string, raw: Bytes, offset: int)
    requires id in s.uploads && |raw| <= 65536
    ensures Inv(s) && PartPath(s.uploads[id].device, s.uploads[id].space, id) in s.fs ==>
              var u, r := s.uploads[id], Chunk(s, id, Some(raw), offset).1;
              && (r.Ok? <==> 0 <= offset <= u.received && (u.size == 0 || offset + |raw| <= u.size))
              && (r.Ok? ==> r.value == if offset + |raw| > u.received then offset + |raw| else u.received)
  {
    hide Inv, Chunk;
    if Inv(s) && PartPath(s.uploads[id].device, s.uploads[id].space, id) in s.fs {
      ChunkAcceptedIff(s, id, raw, offset);
    }
  }

  method WriteChunk(local: Local, id: string, raw: Option<Bytes>, offset: int) returns (r: Result<int, OpError>)
    modifies local
    ensures (local.Files(), r) == Chunk(old(local.Files()), id, raw, offset)
    ensures old(Inv(local.Files())) && id in old(local.uploads) && raw.Some? && |raw.value| <= 65536
            && PartPath(old(local.uploads)[id].device, old(local.uploads)[id].space, id) in old(local.fs) ==>
              var u := old(local.uploads)[id];
              && (r.Ok? <==>
                    0 <= offset <= u.received && (u.size == 0 || offset + |raw.value| <= u.size))
              && (r.Ok? ==> r.value == if offset + |raw.value| > u.received then offset + |raw.value| else u.received)
  {
    if raw.Some? && |raw.value| <= 65536 && id in local.uploads {
      ChunkAccepted(local.Files(), id, raw.value, offset);
    }
    if !ValidUploadId(id) { return Err(BadOp); }
    if raw.None? { return Err(BadOp); }
    if |raw.value| > MAX_CHUNK { return Err(BadOp); }
    hide ValidUploadId, Splice;
    if id !in local.uploads { return Err(StagingState); }
    var u := local.uploads[id];
    var received := u.received;
    if offset > received { return Err(StagingState); }
    if u.size > 0 && offset + |raw.value| > u.size { return Err(BadOp); }
    var part := PartPath(u.device, u.space, id);
    if part !in local.fs || !local.fs[part].Blob? { return Err(Internal); }
    if offset < 0 { return Err(Internal); }
    local.fs := local.fs[part := Blob(Splice(local.fs[part].data, offset, raw.value))];
    var end := offset + |raw.value|;
    if end > received {
      received := end;
    }
    local.uploads := local.uploads[id := u.(received := received)];
    return Ok(received);
  }

  // ---------- commit ----------

  lemma {:induction false} VerifyGrows(hash: Hash, s: Store, ids: seq<string>, i: nat, batch: seq<Pending>)
    requires i < |ids| && Verify(hash, s, ids[..i]) == Ok(batch)
    ensures var one := VerifyOne(hash, s, ids[i]);
            && (one.Err? ==> Verify(hash, s, ids) == Err(one.error))
            && (one.Ok? ==> Verify(hash, s, ids[..i + 1]) == Ok(batch + [one.value]))
    decreases |ids|
  {
    hide VerifyOne;
    if i == 0 {
      assert ids[..1][0] == ids[0] && ids[..1][1..] == [];
      assert Verify(hash, s, []) == Ok([]);
      assert ids[..0] == [] && batch == [];
      var one := VerifyOne(hash, s, ids[0]);
      if one.Ok? {
        assert Verify(hash, s, ids[..1]) == Ok([one.value] + []);
        assert [one.value] + [] == batch + [one.value];
      }
    } else {
      assert ids[..i][1..] == ids[1..][..i - 1] && ids[..i + 1][1..] == ids[1..][..i];
      VerifyGrows(hash, s, ids[1..], i - 1, batch[1..]);
      assert batch == [batch[0]] + batch[1..];
      var one := VerifyOne(hash, s, ids[i]);
      if one.Ok? {
        assert [batch[0]] + (batch[1..] + [one.value]) == batch + [one.value];
      }
    }
  }

  /** First phase: look at every upload, touch nothing, stop at the first that does not check. */
  method VerifyBatch(local: Local, ids: seq<string>) returns (r: Result<seq<Pending>, OpError>)
    ensures r == Verify(local.reader.hash, local.Files(), ids)
  {
    hide Verify, VerifyOne;
    var batch: seq<Pending> := [];
    var i := 0;
    VerifyNone(local.reader.hash, local.Files(), ids);
    while i < |ids|
      invariant 0 <= i <= |ids| && Verify(local.reader.hash, local.Files(), ids[..i]) == Ok(batch)
    {
      VerifyGrows(local.reader.hash, local.Files(), ids, i, batch);
      var one := VerifyMember(local, ids[i]);
      if one.Err? { return Err(one.error); }
      batch := batch + [one.value];
      i := i + 1;
    }
    assert ids[..i] == ids;
    return Ok(batch);
  }

  lemma VerifyNone(hash: Hash, s: Store, ids: seq<string>)
    ensures Verify(hash, s, ids[..0]) == Ok([])
  {
  }

  method VerifyMember(local: Local, id: string) returns (r: Result<Pending, OpError>)
    ensures r == VerifyOne(local.reader.hash, local.Files(), id)
  {
    if !ValidUploadId(id) { return Err(BadOp); }
    hide ValidUploadId;
    if id !in local.uploads { return Err(StagingState); }
    var u := local.uploads[id];
    var declared := StagingMeta(u.rel, u.size, u.sha, 0);
    var meta := MetaPath(u.device, u.space, id);
    if meta in local.fs && local.fs[meta].Meta? {
      declared := local.fs[meta].meta;
    }
    var part := PartPath(u.device, u.space, id);
    if part !in local.fs || !local.fs[part].Blob? { return Err(Internal); }
    var data := local.fs[part].data;
    var sum := local.reader.hash(data);
    if declared.size >= 0 && |data| != declared.size { return Err(HashMismatch); }
    if declared.sha != "" && sum != declared.sha { return Err(HashMismatch); }
    return Ok(Pending(id, u, |data|, sum));
  }

  method CommitMember(local: Local, p: Pending, stamp: Stamp) returns (done: bool)
    modifies local
    ensures (local.Files(), done) == CommitOne(old(local.Files()), local.deviceId, p, stamp)
  {
    hide MoveToRecycle, CanMkdirs, Mkdirs, Rename;
    var dest := Destination(p.u);
    if !CanMkdirs(local.fs, Parent(dest)) { return false; }
    local.fs := Mkdirs(local.fs, Parent(dest));
    if dest in local.fs {
      var displaced := RecycleItem(local, p.u.device, p.u.space, Join(p.u.rel), stamp);
      if displaced.Err? { return false; }
    }
    var moved := Rename(local.fs, PartPath(p.u.device, p.u.space, p.id), dest);
    if moved.Err? { return false; }
    local.fs := moved.value;
    local.fs := RemoveFile(local.fs, MetaPath(p.u.device, p.u.space, p.id));
    local.uploads := Without(local.uploads, p.id);
    return true;
  }

  /** commit: verify all, then move each; a member that fails leaves the others to go on. */
  method CommitBatch(local: Local, ids: seq<string>, clock: nat -> Stamp)
    returns (r: Result<(seq<Pending>, seq<string>), OpError>)
    modifies local
    ensures var (after, outcome) := Commit(local.reader.hash, old(local.Files()), local.deviceId, ids, clock);
            && local.Files() == after
            && r == (match outcome case Err(e) => Err(e) case Ok(o) => Ok((o.committed, o.failed)))
  {
    hide Verify, CommitAll, CommitOne;
    var verified := VerifyBatch(local, ids);
    if verified.Err? { return Err(verified.error); }
    var batch := verified.value;
    var committed: seq<Pending>, failed: seq<string> := [], [];
    var i := 0;
    ghost var start := local.Files();
    CommitNone(start, local.deviceId, batch, clock);
    while i < |batch|
      invariant 0 <= i <= |batch|
      invariant CommitAll(start, local.deviceId, batch[..i], clock) == Outcome(local.Files(), committed, failed)
    {
      CommitNext(start, local.deviceId, batch, i, clock);
      var done := CommitMember(local, batch[i], clock(i));
      if done {
        committed := committed + [batch[i]];
      } else {
        failed := failed + [batch[i].id];
      }
      i := i + 1;
    }
    assert batch[..i] == batch;
    return Ok((committed, failed));
  }

  lemma CommitNone(s: Store, localId: string, batch: seq<Pending>, clock: nat -> Stamp)
    ensures CommitAll(s, localId, batch[..0], clock) == Outcome(s, [], [])
  {
  }

  lemma CommitNext(s: Store, localId: string, batch: seq<Pending>, i: nat, clock: nat -> Stamp)
    requires i < |batch|
    ensures var before := CommitAll(s, localId, batch[..i], clock);
            var (after, done) := CommitOne(before.store, localId, batch[i], clock(i));
            CommitAll(s, localId, batch[..i + 1], clock)
            == if done then Outcome(after, before.committed + [batch[i]], before.failed)
               else Outcome(after, before.committed, before.failed + [batch[i].id])
  {
    hide CommitOne;
    assert batch[..i + 1][..i] == batch[..i] && batch[..i + 1][i] == batch[i];
  }
}
