/** What every step on staged uploads keeps, and what a commit of one upload does. */
module StagingLaws {
  import opened Wrappers
  import opened Paths
  import opened FileSystem
  import opened Layout
  import opened Staging

  predicate GoodMeta(m: StagingMeta) {
    Clean(m.rel) && m.size >= 0 && IsHexSha256(m.sha)
  }

  ghost predicate IsSession(name: string, node: Node) {
    exists id :: ValidUploadId(id) && ((name == id + ".part" && node.Blob?) || (name == id + ".json" && node.Meta?))
  }

  /** Staging directories hold part and meta files and nothing else, and meta files are nowhere else. */
  ghost predicate StagingShape(fs: Fs) {
    && (forall p <- fs | Staged(p) ::
          IsValidDeviceId(p[0]) && IsValidSpace(p[1])
          && ((|p| == 3 && fs[p].Dir?) || (|p| == 4 && IsSession(p[3], fs[p]))))
    && (forall p <- fs | fs[p].Meta? :: Staged(p) && GoodMeta(fs[p].meta))
  }

  /** A part file never stands without its meta file. */
  ghost predicate PartHasMeta(fs: Fs) {
    forall d, s, id | IsValidDeviceId(d) && PartPath(d, s, id) in fs ::
        MetaPath(d, s, id) in fs && fs[MetaPath(d, s, id)].Meta?
  }

  /** A table entry whose part file exists has counted its bytes and agrees with its meta file. */
  ghost predicate EntryOk(fs: Fs, id: string, u: Upload) {
    && IsValidDeviceId(u.device) && IsValidSpace(u.space) && Clean(u.rel) && ValidUploadId(id)
    && u.size >= 0 && IsHexSha256(u.sha) && u.received >= 0
    && var part, meta := PartPath(u.device, u.space, id), MetaPath(u.device, u.space, id);
       part in fs ==>
         && fs[part].Blob? && |fs[part].data| == u.received
         && meta in fs && fs[meta].Meta?
         && fs[meta].meta.rel == u.rel && fs[meta].meta.size == u.size && fs[meta].meta.sha == u.sha
  }

  /** What holds of the disk alone, and so survives losing the in-memory table. */
  ghost predicate DiskInv(fs: Fs) {
    IsTree(fs) && StagingShape(fs) && PartHasMeta(fs)
  }

  ghost predicate Inv(s: Store) {
    DiskInv(s.fs) && forall id <- s.uploads :: EntryOk(s.fs, id, s.uploads[id])
  }

  lemma InvTree(s: Store)
    requires Inv(s)
    ensures DiskInv(s.fs) && IsTree(s.fs)
  {
  }

  lemma NamesApart(a: string, b: string)
    ensures a + ".part" == b + ".part" ==> a == b
    ensures a + ".json" == b + ".json" ==> a == b
    ensures a + ".part" != b + ".json"
  {
    var pa, pb, jb := a + ".part", b + ".part", b + ".json";
    assert pa[..|pa| - 5] == a && pb[..|pb| - 5] == b && jb[..|jb| - 5] == b;
    assert (a + ".json")[..|a|] == a;
    assert pa[|pa| - 1] == 't' && jb[|jb| - 1] == 'n';
  }

  lemma PathsApart(d: string, s: string, a: string, d': string, s': string, b: string)
    ensures PartPath(d, s, a) == PartPath(d', s', b) ==> d == d' && s == s' && a == b
    ensures MetaPath(d, s, a) == MetaPath(d', s', b) ==> d == d' && s == s' && a == b
    ensures PartPath(d, s, a) != MetaPath(d', s', b)
  {
    NamesApart(a, b);
    var p, q := PartPath(d, s, a), PartPath(d', s', b);
    var m, n := MetaPath(d, s, a), MetaPath(d', s', b);
    assert p[0] == d && p[1] == s && p[3] == a + ".part" && q[0] == d' && q[1] == s' && q[3] == b + ".part";
    assert m[0] == d && m[1] == s && m[3] == a + ".json" && n[0] == d' && n[1] == s' && n[3] == b + ".json";
  }

  lemma OthersApart(d: string, s: string, a: string)
    ensures forall d', s', b :: PartPath(d', s', b) == PartPath(d, s, a) ==> d' == d && s' == s && b == a
    ensures forall d', s', b :: MetaPath(d', s', b) == MetaPath(d, s, a) ==> d' == d && s' == s && b == a
    ensures forall d', s', b :: PartPath(d', s', b) != MetaPath(d, s, a) && MetaPath(d', s', b) != PartPath(d, s, a)
  {
    forall d', s', b
      ensures PartPath(d', s', b) == PartPath(d, s, a) ==> d' == d && s' == s && b == a
      ensures MetaPath(d', s', b) == MetaPath(d, s, a) ==> d' == d && s' == s && b == a
      ensures PartPath(d', s', b) != MetaPath(d, s, a) && MetaPath(d', s', b) != PartPath(d, s, a)
    {
      PathsApart(d', s', b, d, s, a);
      PathsApart(d, s, a, d', s', b);
    }
  }

  /** Whatever leaves the staging area alone keeps the staging invariant. */
  lemma ShuffleKeepsInv(s: Store, fs: Fs)
    requires Inv(s) && Resettled(s.fs, fs)
    ensures Inv(s.(fs := fs))
  {
    hide GoodMeta, ValidUploadId, Clean;
    forall d, t, id | IsValidDeviceId(d)
      ensures Staged(PartPath(d, t, id)) && Staged(MetaPath(d, t, id))
    {
      assert d[0] != '.';
    }
    hide IsValidDeviceId, IsValidSpace, IsHexSha256, IsSession;
    forall p <- fs | fs[p].Meta? ensures Staged(p) && GoodMeta(fs[p].meta) { }
  }

  /** Official and recycled files are the same in both. */
  ghost predicate LiveSame(f: Fs, g: Fs) {
    && (forall p <- g | !Staged(p) && g[p] != Dir :: p in f && f[p] == g[p])
    && (forall p <- f | !Staged(p) && f[p] != Dir :: p in g && f[p] == g[p])
  }

  lemma LiveSameCopies(f: Fs, g: Fs)
    requires LiveSame(f, g)
    ensures SameOwners(f, g)
    ensures forall c :: Copies(g, c) == Copies(f, c)
  {
    forall c ensures Holders(g, c) == Holders(f, c) { }
  }

  // ---------- single file-system actions on the staging area ----------

  lemma StagingDirs(fs: Fs, caller: string, space: string)
    requires DiskInv(fs) && IsValidDeviceId(caller) && IsValidSpace(space)
    requires CanMkdirs(fs, [caller, space, STAGING])
    ensures var g := Mkdirs(fs, [caller, space, STAGING]);
            && DiskInv(g) && LiveSame(fs, g)
            && [caller, space, STAGING] in g && g[[caller, space, STAGING]] == Dir
            && forall d, s, id ::
                 && (PartPath(d, s, id) in g <==> PartPath(d, s, id) in fs)
                 && (MetaPath(d, s, id) in g <==> MetaPath(d, s, id) in fs)
  {
    var dir := [caller, space, STAGING];
    var g := Mkdirs(fs, dir);
    MkdirsTree(fs, dir);
    forall d, s, id ensures !(PartPath(d, s, id) <= dir) && !(MetaPath(d, s, id) <= dir) { }
    forall p <- g | Staged(p) && p !in fs ensures p == dir {
      assert p <= dir;
    }
  }

  lemma SetNode(fs: Fs, p: Path, n: Node)
    requires IsTree(fs) && p != [] && Parent(p) in fs && fs[Parent(p)] == Dir && n != Dir
    requires p in fs ==> fs[p] != Dir
    ensures IsTree(fs[p := n])
  {
    var g := fs[p := n];
    forall q <- g | q != [] ensures Parent(q) in g && g[Parent(q)] == Dir {
      if q != p { assert Parent(q) != p; }
    }
  }

  lemma SessionNode(fs: Fs, d: string, s: string, id: string)
    requires StagingShape(fs) && IsValidDeviceId(d)
    ensures Staged(PartPath(d, s, id)) && Staged(MetaPath(d, s, id))
    ensures PartPath(d, s, id) in fs ==> fs[PartPath(d, s, id)].Blob?
    ensures MetaPath(d, s, id) in fs ==> fs[MetaPath(d, s, id)].Meta?
  {
    var p, m := PartPath(d, s, id), MetaPath(d, s, id);
    assert d[0] != '.' && Staged(p) && Staged(m);
    if p in fs {
      var i :| ValidUploadId(i) && ((p[3] == i + ".part" && fs[p].Blob?) || (p[3] == i + ".json" && fs[p].Meta?));
      NamesApart(id, i);
    }
    if m in fs {
      var i :| ValidUploadId(i) && ((m[3] == i + ".part" && fs[m].Blob?) || (m[3] == i + ".json" && fs[m].Meta?));
      NamesApart(i, id);
    }
  }

  /** Writing a meta file next to no part. */
  lemma WriteMetaKeeps(fs: Fs, d: string, s: string, id: string, m: StagingMeta)
    requires DiskInv(fs) && IsValidDeviceId(d) && IsValidSpace(s) && ValidUploadId(id) && GoodMeta(m)
    requires [d, s, STAGING] in fs && fs[[d, s, STAGING]] == Dir && MetaPath(d, s, id) !in fs
    ensures var g := fs[MetaPath(d, s, id) := Meta(m)]; DiskInv(g) && LiveSame(fs, g)
  {
    var meta := MetaPath(d, s, id);
    SessionNode(fs, d, s, id);
    assert Parent(meta) == [d, s, STAGING];
    SetNode(fs, meta, Meta(m));
    OthersApart(d, s, id);
    assert IsSession(meta[3], Meta(m));
  }

  /** Putting bytes in a part file whose meta file exists. */
  lemma WritePartKeeps(fs: Fs, d: string, s: string, id: string, data: Bytes)
    requires DiskInv(fs) && IsValidDeviceId(d) && IsValidSpace(s) && ValidUploadId(id)
    requires MetaPath(d, s, id) in fs
    ensures var g := fs[PartPath(d, s, id) := Blob(data)]; DiskInv(g) && LiveSame(fs, g)
  {
    hide GoodMeta, IsTree, PartHasMeta, StagingShape;
    SessionNode(fs, d, s, id);
    var part, meta := PartPath(d, s, id), MetaPath(d, s, id);
    PartParent(fs, part, meta);
    SetNode(fs, part, Blob(data));
    PartWrittenPairs(fs, d, s, id, data);
    assert IsSession(part[3], Blob(data));
    PartWrittenShape(fs, part, data);
  }

  lemma PartParent(fs: Fs, part: Path, meta: Path)
    requires IsTree(fs) && meta in fs && |part| == |meta| == 4 && part[..3] == meta[..3]
    ensures Parent(part) in fs && fs[Parent(part)] == Dir
  {
    assert Parent(part) == Parent(meta);
  }

  lemma PartWrittenPairs(fs: Fs, d: string, s: string, id: string, data: Bytes)
    requires PartHasMeta(fs) && MetaPath(d, s, id) in fs && fs[MetaPath(d, s, id)].Meta?
    ensures PartHasMeta(fs[PartPath(d, s, id) := Blob(data)])
  {
    OthersApart(d, s, id);
  }

  lemma PartWrittenShape(fs: Fs, part: Path, data: Bytes)
    requires StagingShape(fs) && Staged(part) && |part| == 4 && IsValidDeviceId(part[0]) && IsValidSpace(part[1])
             && IsSession(part[3], Blob(data))
    requires part in fs ==> fs[part].Blob?
    ensures StagingShape(fs[part := Blob(data)]) && LiveSame(fs, fs[part := Blob(data)])
  {
    hide IsSession, GoodMeta, IsValidDeviceId, IsValidSpace;
  }

  /** Table entries do not notice changes to another upload's files. */
  lemma EntriesFrame(f: Fs, g: Fs, uploads: map<string, Upload>, d: string, s: string, id: string)
    requires forall i <- uploads :: EntryOk(f, i, uploads[i])
    requires forall p | p != PartPath(d, s, id) && p != MetaPath(d, s, id) && Staged(p) ::
               (p in g ==> p in f && f[p] == g[p]) && (p in f ==> p in g)
    ensures forall i <- uploads | i != id :: EntryOk(g, i, uploads[i])
    ensures forall i <- uploads | uploads[i].device != d || uploads[i].space != s :: EntryOk(g, i, uploads[i])
  {
    OthersApart(d, s, id);
    forall i <- uploads | i != id || uploads[i].device != d || uploads[i].space != s ensures EntryOk(g, i, uploads[i]) {
      var u := uploads[i];
      assert EntryOk(f, i, u);
      assert u.device[0] != '.' && Staged(PartPath(u.device, u.space, i)) && Staged(MetaPath(u.device, u.space, i));
    }
  }

  /** Changing one upload's files and its table entry together. */
  lemma EntryUpdated(f: Fs, g: Fs, uploads: map<string, Upload>, id: string, u: Upload)
    requires forall i <- uploads :: EntryOk(f, i, uploads[i])
    requires forall p | p != PartPath(u.device, u.space, id) && p != MetaPath(u.device, u.space, id) && Staged(p) ::
               (p in g ==> p in f && f[p] == g[p]) && (p in f ==> p in g)
    requires DiskInv(g) && EntryOk(g, id, u)
    ensures Inv(Store(g, uploads[id := u]))
  {
    EntriesFrame(f, g, uploads, u.device, u.space, id);
  }

  // ---------- write.begin and write.chunk ----------

  /** The disk after a begin that got past its checks and found no meta file. */
  lemma FreshBegin(fs: Fs, d: string, s: string, id: string, m: StagingMeta)
    requires DiskInv(fs) && IsValidDeviceId(d) && IsValidSpace(s) && ValidUploadId(id) && GoodMeta(m)
    requires [d, s, STAGING] in fs && fs[[d, s, STAGING]] == Dir && MetaPath(d, s, id) !in fs
    ensures PartPath(d, s, id) !in fs
    ensures var noted := fs[MetaPath(d, s, id) := Meta(m)];
            var g := noted[PartPath(d, s, id) := Blob([])];
            DiskInv(noted) && DiskInv(g) && LiveSame(fs, noted) && LiveSame(fs, g) && PartPath(d, s, id) !in noted
  {
    WriteMetaKeeps(fs, d, s, id, m);
    WritePartKeeps(fs[MetaPath(d, s, id) := Meta(m)], d, s, id, []);
    OthersApart(d, s, id);
  }

  lemma ResumeKeeps(s: Store, caller: string, space: string, m: StagingMeta, id: string)
    requires Inv(s) && IsValidDeviceId(caller) && IsValidSpace(space) && ValidUploadId(id)
    requires MetaPath(caller, space, id) in s.fs && s.fs[MetaPath(caller, space, id)] == Meta(m)
    ensures var part := PartPath(caller, space, id);
            Inv(s.(uploads := s.uploads[id := Upload(caller, space, m.rel, m.size, m.sha, PartLength(s.fs, part))]))
  {
    var u := Upload(caller, space, m.rel, m.size, m.sha, PartLength(s.fs, PartPath(caller, space, id)));
    SessionNode(s.fs, caller, space, id);
    assert GoodMeta(m);
    hide IsTree, StagingShape, PartHasMeta, IsValidDeviceId, IsValidSpace, ValidUploadId, Clean, IsHexSha256;
    assert EntryOk(s.fs, id, u);
    EntryUpdated(s.fs, s.fs, s.uploads, id, u);
  }

  lemma FreshKeeps(s: Store, caller: string, space: string, declared: StagingMeta, id: string)
    requires Inv(s) && IsValidDeviceId(caller) && IsValidSpace(space) && ValidUploadId(id) && GoodMeta(declared)
    requires [caller, space, STAGING] in s.fs && s.fs[[caller, space, STAGING]] == Dir
             && MetaPath(caller, space, id) !in s.fs
    ensures PartPath(caller, space, id) !in s.fs[MetaPath(caller, space, id) := Meta(declared)]
    ensures var g := s.fs[MetaPath(caller, space, id) := Meta(declared)][PartPath(caller, space, id) := Blob([])];
            Inv(Store(g, s.uploads[id := Upload(caller, space, declared.rel, declared.size, declared.sha, 0)]))
              && LiveSame(s.fs, g)
  {
    hide DiskInv, LiveSame, IsValidDeviceId, IsValidSpace, ValidUploadId, Clean, IsHexSha256, Staged, PartPath,
      MetaPath;
    FreshBegin(s.fs, caller, space, id, declared);
    PathsApart(caller, space, id, caller, space, id);
    var g := s.fs[MetaPath(caller, space, id) := Meta(declared)][PartPath(caller, space, id) := Blob([])];
    EntryUpdated(s.fs, g, s.uploads, id, Upload(caller, space, declared.rel, declared.size, declared.sha, 0));
  }

  lemma BeginAtKeeps(s: Store, caller: string, space: string, declared: StagingMeta, id: string)
    requires Inv(s) && IsValidDeviceId(caller) && IsValidSpace(space) && ValidUploadId(id) && GoodMeta(declared)
    requires [caller, space, STAGING] in s.fs && s.fs[[caller, space, STAGING]] == Dir
    ensures var s' := BeginAt(s, caller, space, declared, id).0; Inv(s') && LiveSame(s.fs, s'.fs)
  {
    SessionNode(s.fs, caller, space, id);
    LiveSameSelf(s.fs);
    hide Inv, LiveSame, IsValidDeviceId, IsValidSpace, ValidUploadId, GoodMeta;
    var meta := MetaPath(caller, space, id);
    if meta in s.fs {
      ResumeKeeps(s, caller, space, s.fs[meta].meta, id);
    } else {
      FreshKeeps(s, caller, space, declared, id);
    }
  }

  lemma MkdirsKeepsInv(s: Store, caller: string, space: string)
    requires Inv(s) && IsValidDeviceId(caller) && IsValidSpace(space) && CanMkdirs(s.fs, [caller, space, STAGING])
    ensures var g := Mkdirs(s.fs, [caller, space, STAGING]);
            && Inv(s.(fs := g)) && LiveSame(s.fs, g)
            && [caller, space, STAGING] in g && g[[caller, space, STAGING]] == Dir
  {
    StagingDirs(s.fs, caller, space);
    var g := Mkdirs(s.fs, [caller, space, STAGING]);
    forall i <- s.uploads ensures EntryOk(g, i, s.uploads[i]) { assert EntryOk(s.fs, i, s.uploads[i]); }
  }

  lemma LiveSameTrans(f: Fs, g: Fs, h: Fs)
    requires LiveSame(f, g) && LiveSame(g, h)
    ensures LiveSame(f, h)
  {
  }

  /** write.begin keeps the invariant and touches no official or recycled file. */
  lemma BeginKeeps(s: Store, caller: string, space: string, path: string, size: int, sha: string, id: string, now: int)
    requires Inv(s) && IsValidDeviceId(caller) && IsValidSpace(space)
    ensures var s' := Begin(s, caller, space, path, size, sha, id, now).0; Inv(s') && LiveSame(s.fs, s'.fs)
  {
    if BeginError(path, size, sha, id).None? && CanMkdirs(s.fs, [caller, space, STAGING]) {
      NormalizedIsClean(path);
      MkdirsKeepsInv(s, caller, space);
      var made := s.(fs := Mkdirs(s.fs, [caller, space, STAGING]));
      var declared := StagingMeta(Normalize(path).value, size, sha, now);
      BeginAtKeeps(made, caller, space, declared, id);
      LiveSameTrans(s.fs, made.fs, BeginAt(made, caller, space, declared, id).0.fs);
    }
  }

  /** The upload a successful begin leaves: a fresh one starts from nothing, in spite of opening
      without truncation; a resumed one counts the bytes that are really there and keeps them. */
  lemma BeginReceived(s: Store, caller: string, space: string, path: string, size: int, sha: string, id: string,
                      now: int)
    requires Inv(s) && IsValidDeviceId(caller) && IsValidSpace(space)
    requires Begin(s, caller, space, path, size, sha, id, now).1.Ok?
    ensures var (s', r) := Begin(s, caller, space, path, size, sha, id, now);
            var part, meta := PartPath(caller, space, id), MetaPath(caller, space, id);
            && r.value == PartLength(s.fs, part) == PartLength(s'.fs, part)
            && (meta !in s.fs ==> part in s'.fs && s'.fs[part] == Blob([]))
            && (meta in s.fs && part in s.fs ==> part in s'.fs && s'.fs[part] == s.fs[part])
            && meta in s'.fs && s'.fs[meta].Meta?
            && s'.fs[meta].meta.size == size && s'.fs[meta].meta.sha == sha
               && Normalize(path) == Ok(s'.fs[meta].meta.rel)
            && id in s'.uploads && s'.uploads[id].device == caller && s'.uploads[id].space == space
               && s'.uploads[id].received == r.value
  {
    StagingDirs(s.fs, caller, space);
    NormalizedIsClean(path);
    var made := s.(fs := Mkdirs(s.fs, [caller, space, STAGING]));
    var declared := StagingMeta(Normalize(path).value, size, sha, now);
    SessionNode(s.fs, caller, space, id);
    SessionNode(made.fs, caller, space, id);
    OthersApart(caller, space, id);
    var part, meta := PartPath(caller, space, id), MetaPath(caller, space, id);
    if meta in made.fs {
      assert GoodMeta(made.fs[meta].meta);
      assert made.fs[meta].meta.sha != "";
    } else {
      FreshBegin(made.fs, caller, space, id, declared);
    }
  }

  lemma SpliceLength(was: Bytes, at: nat, raw: Bytes)
    requires at <= |was|
    ensures |Splice(was, at, raw)| == if at + |raw| > |was| then at + |raw| else |was|
  {
  }

  /** An accepted chunk and the state it leads to; a refused one changes nothing. */
  lemma ChunkShape(s: Store, id: string, raw: Option<Bytes>, offset: int)
    ensures var (s', r) := Chunk(s, id, raw, offset);
            if r.Err? then s' == s
            else
              && id in s.uploads && raw.Some? && 0 <= offset <= s.uploads[id].received
              && var u := s.uploads[id];
                 var part := PartPath(u.device, u.space, id);
                 && part in s.fs && s.fs[part].Blob?
                 && r.value == (if offset + |raw.value| > u.received then offset + |raw.value| else u.received)
                 && s' == WriteAt(s, id, raw.value, offset, r.value)
  {
  }

  /** write.chunk keeps the invariant: the count stays the length, with no hole. */
  lemma ChunkKeeps(s: Store, id: string, raw: Option<Bytes>, offset: int)
    requires Inv(s)
    ensures var s' := Chunk(s, id, raw, offset).0; Inv(s') && LiveSame(s.fs, s'.fs)
  {
    ChunkShape(s, id, raw, offset);
    hide Chunk, Inv, LiveSame, WriteAt;
    if Chunk(s, id, raw, offset).1.Ok? {
      WriteAtKeeps(s, id, raw.value, offset);
    } else {
      LiveSameSelf(s.fs);
    }
  }

  lemma LiveSameSelf(f: Fs)
    ensures LiveSame(f, f)
  {
  }

  lemma WriteAtKeeps(s: Store, id: string, raw: Bytes, at: nat)
    requires Inv(s) && id in s.uploads && at <= s.uploads[id].received
    requires PartPath(s.uploads[id].device, s.uploads[id].space, id) in s.fs
    ensures var u := s.uploads[id];
            var part := PartPath(u.device, u.space, id);
            s.fs[part].Blob? && |s.fs[part].data| == u.received
            && var s' := WriteAt(s, id, raw, at, if at + |raw| > u.received then at + |raw| else u.received);
               Inv(s') && LiveSame(s.fs, s'.fs)
  {
    hide DiskInv, LiveSame, Splice, IsValidDeviceId, IsValidSpace, ValidUploadId, Clean, IsHexSha256, Staged, PartPath,
      MetaPath;
    var u := s.uploads[id];
    var part := PartPath(u.device, u.space, id);
    assert EntryOk(s.fs, id, u);
    var data := Splice(s.fs[part].data, at, raw);
    SpliceLength(s.fs[part].data, at, raw);
    WritePartKeeps(s.fs, u.device, u.space, id, data);
    PathsApart(u.device, u.space, id, u.device, u.space, id);
    EntryUpdated(s.fs, s.fs[part := Blob(data)], s.uploads, id, u.(received := |data|));
  }
}
