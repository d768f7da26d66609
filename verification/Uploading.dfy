/** What write.begin, write.chunk and commit answer and leave behind, request by request. */
module Uploading {
  import opened Wrappers
  import opened Paths
  import opened FileSystem
  import opened Layout
  import opened RecycleLaws
  import opened Staging
  import opened StagingLaws
  import opened Host
  import opened Requests
  import P = Protocol

  /** The frame is an owner's, passes the access check and reaches a master. */
  predicate MayWrite(site: Site, s: State, f: P.Frame, caller: string, trust: P.Trust) {
    && trust == P.Trust.Owner && HexId(caller)
    && (SpaceName(f.space) || (f.space == "" && f.op != P.WriteBegin)) && Own(f, caller)
    && s.pointer.master == site.localId
  }

  // ---------- names of uploads ----------

  predicate HexSha(sha: string) {
    |sha| == 64 && forall i :: 0 <= i < 64 ==> HexDigit(sha[i])
  }

  /** One to 64 letters, digits and hyphens. */
  predicate UploadName(id: string) {
    && 1 <= |id| <= 64
    && forall i :: 0 <= i < |id| ==>
         'A' <= id[i] <= 'Z' || 'a' <= id[i] <= 'z' || '0' <= id[i] <= '9' || id[i] == '-'
  }

  lemma HexShaIs(sha: string)
    ensures HexSha(sha) <==> IsHexSha256(sha)
  {
    hide HexDigit;
    forall c ensures HexDigit(c) <==> '0' <= c <= '9' || 'a' <= c <= 'f' { HexDigitIs(c); }
  }

  lemma UploadNameIs(id: string)
    ensures UploadName(id) <==> ValidUploadId(id)
  {
  }

  // ---------- write.begin ----------

  /** The id a begin works under: the one it was given, or one drawn for it. */
  function GivenId(f: P.Frame, inp: Inputs): string {
    match f.uploadId
    case Some(id) => id
    case None => inp.unnamed
  }

  /** A begin that is refused before the disk is looked at. */
  predicate Malformed(f: P.Frame, id: string) {
    f.size < 0 || !HexSha(f.sha) || !UploadName(id)
  }

  /** The meta file that is there was written for another file. */
  predicate Conflicts(fs: Fs, meta: Path, f: P.Frame, rel: seq<string>) {
    meta in fs && fs[meta].Meta?
    && (fs[meta].meta.rel != rel || fs[meta].meta.size != f.size || fs[meta].meta.sha != f.sha)
  }

  /** An upload begun anew: an empty part, its meta file with the time, the directories on the way. */
  ghost predicate BegunAnew(was: Fs, now: Fs, part: Path, meta: Path, noted: StagingMeta) {
    && part in now && now[part] == Blob([]) && meta in now && now[meta] == Meta(noted)
    && (forall p <- was :: p in now && now[p] == was[p])
    && (forall p <- now | p !in was && p != part && p != meta :: now[p] == Dir && p < part)
  }

  function BytesOf(fs: Fs, part: Path): nat {
    if part in fs && fs[part].Blob? then |fs[part].data| else 0
  }

  lemma Resumed(s: Store, caller: string, space: string, path: string, size: int, sha: string, id: string, now: int)
    requires Inv(s) && BeginError(path, size, sha, id).None? && IsValidDeviceId(caller) && IsValidSpace(space)
    requires MetaPath(caller, space, id) in s.fs
    ensures var part, meta := PartPath(caller, space, id), MetaPath(caller, space, id);
            && s.fs[meta].Meta? && CanMkdirs(s.fs, [caller, space, STAGING])
            && var m, rel := s.fs[meta].meta, Normalize(path).value;
               Begin(s, caller, space, path, size, sha, id, now)
               == if m.rel != rel || m.size != size || m.sha != sha then (s, Err(StagingState))
                  else (s.(uploads := s.uploads[id := Upload(caller, space, rel, size, sha, BytesOf(s.fs, part))]),
                        Ok(BytesOf(s.fs, part)))
  {
    hide IsHexSha256, ValidUploadId, IsValidDeviceId, IsValidSpace, Normalize, IsSession, Clean;
    var meta := MetaPath(caller, space, id);
    SessionNode(s.fs, caller, space, id);
    assert meta[..3] == Parent(meta) == [caller, space, STAGING];
    MkdirsIdle(s.fs, [caller, space, STAGING]);
    assert s.(fs := s.fs) == s;
    HexNotEmpty(s.fs[meta].meta.sha);
  }

  lemma HexNotEmpty(sha: string)
    requires IsHexSha256(sha)
    ensures sha != ""
  {
  }

  lemma Started(s: Store, caller: string, space: string, path: string, size: int, sha: string, id: string, now: int)
    requires Inv(s) && BeginError(path, size, sha, id).None? && IsValidDeviceId(caller) && IsValidSpace(space)
    requires MetaPath(caller, space, id) !in s.fs && CanMkdirs(s.fs, [caller, space, STAGING])
    ensures var part, meta := PartPath(caller, space, id), MetaPath(caller, space, id);
            var (after, r) := Begin(s, caller, space, path, size, sha, id, now);
            var rel := Normalize(path).value;
            && part !in s.fs && r == Ok(0)
            && BegunAnew(s.fs, after.fs, part, meta, StagingMeta(rel, size, sha, now))
            && after.uploads == s.uploads[id := Upload(caller, space, rel, size, sha, 0)]
  {
    hide IsHexSha256, ValidUploadId, IsValidDeviceId, IsValidSpace, Normalize, IsSession, Clean, IsTree, StagingShape;
    var part, meta := PartPath(caller, space, id), MetaPath(caller, space, id);
    PathsApart(caller, space, id, caller, space, id);
    var dir := [caller, space, STAGING];
    assert dir < part && dir < meta && !(part <= dir) && !(meta <= dir);
  }

  lemma BegunBy(site: Site, s: State, f: P.Frame, caller: string, trust: P.Trust, loopback: bool, inp: Inputs)
    requires MayWrite(site, s, f, caller, trust) && f.op == P.WriteBegin
    ensures IsValidDeviceId(caller) && IsValidSpace(f.space)
    ensures var id := GivenId(f, inp);
            var (store, r) := Begin(s.store, caller, f.space, f.path, f.size, f.sha, id, inp.now);
            Handle(site, s, f, caller, trust, loopback, inp)
            == (s.(store := store), if r.Ok? then Ok(UploadAt(id, r.value)) else Err(r.error))
  {
    hide Begin, HexId, TurnedAway;
    HexIdIs(caller);
    WritesLetIn(site, s, f, caller, loopback, inp);
    hide Handle;
  }

  /** write.begin: an upload of a new id starts empty; one whose meta file is there goes on with every byte of its
      part if the declared values are the same, and is refused if they are not. */
  lemma BeginLaw(site: Site, s: State, f: P.Frame, caller: string, trust: P.Trust, loopback: bool, inp: Inputs)
    requires MayWrite(site, s, f, caller, trust) && f.op == P.WriteBegin && Inv(s.store)
    ensures var (after, r) := Handle(site, s, f, caller, trust, loopback, inp);
            var id := GivenId(f, inp);
            var part, meta := PartPath(caller, f.space, id), MetaPath(caller, f.space, id);
            && after == s.(store := after.store)
            && if Normalize(f.path).Err? then r == Err(BadPath) && after == s
               else if Malformed(f, id) then r == Err(BadOp) && after == s
               else if !CanMkdirs(s.store.fs, [caller, f.space, STAGING]) then r == Err(Internal) && after == s
               else
                 var rel := Normalize(f.path).value;
                 if Conflicts(s.store.fs, meta, f, rel) then r == Err(StagingState) && after == s
                 else
                   var held := BytesOf(s.store.fs, part);
                   && r == Ok(UploadAt(id, held))
                   && after.store.uploads == s.store.uploads[id := Upload(caller, f.space, rel, f.size, f.sha, held)]
                   && (meta in s.store.fs ==> after.store.fs == s.store.fs)
                   && (meta !in s.store.fs ==>
                         held == 0
                         && BegunAnew(s.store.fs, after.store.fs, part, meta,
                                      StagingMeta(rel, f.size, f.sha, inp.now)))
  {
    hide HexSha, UploadName, Inv, Handle, Normalize, BegunAnew, MayWrite;
    var id := GivenId(f, inp);
    BegunBy(site, s, f, caller, trust, loopback, inp);
    HexShaIs(f.sha);
    UploadNameIs(id);
    if BeginError(f.path, f.size, f.sha, id).None? {
      if MetaPath(caller, f.space, id) in s.store.fs {
        Resumed(s.store, caller, f.space, f.path, f.size, f.sha, id, inp.now);
      } else if CanMkdirs(s.store.fs, [caller, f.space, STAGING]) {
        Started(s.store, caller, f.space, f.path, f.size, f.sha, id, inp.now);
      }
    }
  }

  // ---------- write.chunk ----------

  /** The chunk starts within what has been received and ends within the declared size, if there is one. */
  predicate Fits(u: Upload, offset: int, length: nat) {
    0 <= offset <= u.received && (u.size == 0 || offset + length <= u.size)
  }

  /** Which chunks are accepted: exactly those that fit, sent before or not; and what is received then. */
  lemma ChunkAcceptedIff(s: Store, id: string, raw: Bytes, offset: int)
    requires Inv(s) && id in s.uploads && |raw| <= 65536
    requires PartPath(s.uploads[id].device, s.uploads[id].space, id) in s.fs
    ensures var r := Chunk(s, id, Some(raw), offset).1;
            && (r.Ok? <==> Fits(s.uploads[id], offset, |raw|))
            && (r.Ok? ==> r.value == Most(s.uploads[id].received, offset + |raw|))
  {
    hide IsHexSha256, ValidUploadId, IsValidDeviceId, IsValidSpace, Clean, IsTree, StagingShape, PartHasMeta, WriteAt;
    assert EntryOk(s.fs, id, s.uploads[id]);
  }

  /** What a file holds after `raw` has been written at an offset within it. */
  function Overwritten(was: Bytes, offset: nat, raw: Bytes): Bytes
    requires offset <= |was|
  {
    was[..offset] + raw + (if offset + |raw| < |was| then was[offset + |raw|..] else [])
  }

  lemma SpliceIs(was: Bytes, offset: nat, raw: Bytes)
    requires offset <= |was|
    ensures Splice(was, offset, raw) == Overwritten(was, offset, raw)
  {
    if raw == [] {
      assert was[..offset] + [] + was[offset..] == was;
    }
  }

  /** The error of a chunk that is refused. */
  function ChunkError(u: Upload, offset: int, length: nat): OpError {
    if offset > u.received then StagingState
    else if u.size > 0 && offset + length > u.size then BadOp
    else Internal
  }

  lemma ChunkRefused(s: Store, id: string, raw: Option<Bytes>, offset: int)
    requires Inv(s)
    ensures var (after, r) := Chunk(s, id, raw, offset);
            if !UploadName(id) || raw.None? || |raw.value| > 65536 then after == s && r == Err(BadOp)
            else if id !in s.uploads then after == s && r == Err(StagingState)
            else
              var u := s.uploads[id];
              PartPath(u.device, u.space, id) !in s.fs || !Fits(u, offset, |raw.value|) ==>
                after == s && r == Err(ChunkError(u, offset, |raw.value|))
  {
    hide IsHexSha256, ValidUploadId, IsValidDeviceId, IsValidSpace, Clean, IsTree, StagingShape, PartHasMeta, WriteAt,
      UploadName;
    UploadNameIs(id);
    if id in s.uploads {
      assert EntryOk(s.fs, id, s.uploads[id]);
    }
  }

  lemma ChunkTaken(s: Store, id: string, raw: Bytes, offset: int)
    requires Inv(s) && id in s.uploads && |raw| <= 65536 && Fits(s.uploads[id], offset, |raw|)
    requires PartPath(s.uploads[id].device, s.uploads[id].space, id) in s.fs
    ensures var u := s.uploads[id];
            var part := PartPath(u.device, u.space, id);
            && s.fs[part].Blob? && offset <= |s.fs[part].data|
            && Chunk(s, id, Some(raw), offset).0
               == Store(s.fs[part := Blob(Overwritten(s.fs[part].data, offset, raw))],
                        s.uploads[id := u.(received := Most(u.received, offset + |raw|))])
  {
    hide IsHexSha256, ValidUploadId, IsValidDeviceId, IsValidSpace, Clean, IsTree, StagingShape, PartHasMeta, Splice,
      Overwritten;
    var u := s.uploads[id];
    assert EntryOk(s.fs, id, u);
    ChunkAcceptedIff(s, id, raw, offset);
    SpliceIs(s.fs[PartPath(u.device, u.space, id)].data, offset, raw);
  }

  lemma ChunkBy(site: Site, s: State, f: P.Frame, caller: string, trust: P.Trust, loopback: bool, inp: Inputs)
    requires MayWrite(site, s, f, caller, trust) && f.op == P.WriteChunk
    ensures var (store, r) := Chunk(s.store, if f.uploadId.Some? then f.uploadId.value else "", f.data, f.offset);
            Handle(site, s, f, caller, trust, loopback, inp)
            == (s.(store := store),
                if r.Ok? then Ok(Accepted(r.value, if f.data.Some? then |f.data.value| else 0)) else Err(r.error))
  {
    hide Chunk, HexId, TurnedAway;
    WritesLetIn(site, s, f, caller, loopback, inp);
    hide Handle;
  }

  /** write.chunk: a chunk of a known upload that fits is written at its offset and answered with what has been
      received by then and its own length; any other is refused and changes nothing. */
  lemma ChunkLaw(site: Site, s: State, f: P.Frame, caller: string, trust: P.Trust, loopback: bool, inp: Inputs)
    requires MayWrite(site, s, f, caller, trust) && f.op == P.WriteChunk && Inv(s.store)
    ensures var (after, r) := Handle(site, s, f, caller, trust, loopback, inp);
            var id := if f.uploadId.Some? then f.uploadId.value else "";
            if !UploadName(id) || f.data.None? || |f.data.value| > 65536 then r == Err(BadOp) && after == s
            else if id !in s.store.uploads then r == Err(StagingState) && after == s
            else
              var u, raw := s.store.uploads[id], f.data.value;
              var part := PartPath(u.device, u.space, id);
              if part in s.store.fs && Fits(u, f.offset, |raw|) then
                  var reached := Most(u.received, f.offset + |raw|);
                  && r == Ok(Accepted(reached, |raw|))
                  && s.store.fs[part].Blob? && f.offset <= |s.store.fs[part].data|
                  && after == s.(store :=
                       Store(s.store.fs[part := Blob(Overwritten(s.store.fs[part].data, f.offset, raw))],
                             s.store.uploads[id := u.(received := reached)]))
              else r == Err(ChunkError(u, f.offset, |raw|)) && after == s
  {
    hide Inv, Handle, Chunk, MayWrite, UploadName, Overwritten, Fits, ChunkError;
    var id := if f.uploadId.Some? then f.uploadId.value else "";
    ChunkBy(site, s, f, caller, trust, loopback, inp);
    ChunkRefused(s.store, id, f.data, f.offset);
    if id in s.store.uploads && f.data.Some? && |f.data.value| <= 65536 {
      var u := s.store.uploads[id];
      if PartPath(u.device, u.space, id) in s.store.fs && Fits(u, f.offset, |f.data.value|) {
        ChunkAcceptedIff(s.store, id, f.data.value, f.offset);
        ChunkTaken(s.store, id, f.data.value, f.offset);
      }
    }
  }
}
