/** The whole batch of a commit. */
module BatchLaws {
  import opened Wrappers
  import opened Paths
  import opened FileSystem
  import opened Layout
  import opened Recycle
  import opened RecycleLaws
  import opened Staging
  import opened StagingLaws
  import opened CommitLaws

  // ---------- first phase ----------

  ghost predicate Checked(hash: Hash, s: Store, p: Pending) {
    && p.id in s.uploads && p.u == s.uploads[p.id] && GoodUpload(p.u, p.id)
    && var part, meta := PartPath(p.u.device, p.u.space, p.id), MetaPath(p.u.device, p.u.space, p.id);
       && part in s.fs && s.fs[part].Blob? && meta in s.fs && s.fs[meta].Meta?
       && |s.fs[part].data| == p.size == s.fs[meta].meta.size
       && hash(s.fs[part].data) == p.sum == s.fs[meta].meta.sha
  }

  lemma VerifyOneChecks(hash: Hash, s: Store, id: string)
    requires Inv(s) && VerifyOne(hash, s, id).Ok?
    ensures Checked(hash, s, VerifyOne(hash, s, id).value) && VerifyOne(hash, s, id).value.id == id
  {
    var u := s.uploads[id];
    assert EntryOk(s.fs, id, u);
    var meta := MetaPath(u.device, u.space, id);
    assert GoodMeta(s.fs[meta].meta) && s.fs[meta].meta.sha != "";
  }

  /** A member checks exactly when its part is there with the declared size and hash. */
  lemma VerifiesIff(hash: Hash, s: Store, id: string)
    requires Inv(s)
    ensures VerifyOne(hash, s, id).Ok? <==>
              && id in s.uploads
              && var u := s.uploads[id];
                 var part := PartPath(u.device, u.space, id);
                 part in s.fs && s.fs[part].Blob? && |s.fs[part].data| == u.size && hash(s.fs[part].data) == u.sha
    ensures id in s.uploads && PartPath(s.uploads[id].device, s.uploads[id].space, id) in s.fs
            && s.uploads[id].received != s.uploads[id].size
            ==> VerifyOne(hash, s, id) == Err(HashMismatch)
  {
    hide IsValidDeviceId, IsValidSpace, Clean, IsTree, StagingShape, PartHasMeta;
    if id in s.uploads {
      var u := s.uploads[id];
      assert EntryOk(s.fs, id, u);
      assert u.sha != "";
    }
  }

  /** A declared size of 0 lifts the bound on chunks; only commit then refuses what came in. */
  lemma ZeroSizeCaughtAtCommit(hash: Hash, s: Store, id: string, raw: Bytes, offset: nat)
    requires Inv(s) && id in s.uploads && s.uploads[id].size == 0 && offset <= s.uploads[id].received
    requires PartPath(s.uploads[id].device, s.uploads[id].space, id) in s.fs && 0 < |raw| <= MAX_CHUNK
    ensures var (after, r) := Chunk(s, id, Some(raw), offset);
            r.Ok? && VerifyOne(hash, after, id) == Err(HashMismatch)
  {
    hide VerifyOne, Inv, Splice;
    EntryStands(s, id);
    ChunkKeeps(s, id, Some(raw), offset);
    VerifiesIff(hash, Chunk(s, id, Some(raw), offset).0, id);
  }

  lemma EntryStands(s: Store, id: string)
    requires Inv(s) && id in s.uploads && PartPath(s.uploads[id].device, s.uploads[id].space, id) in s.fs
    ensures ValidUploadId(id) && s.fs[PartPath(s.uploads[id].device, s.uploads[id].space, id)].Blob?
            && s.uploads[id].received >= 0
  {
    assert EntryOk(s.fs, id, s.uploads[id]);
  }

  /** A verified batch has every member's bytes agree with its declared size and hash. */
  lemma {:induction false} VerifyChecks(hash: Hash, s: Store, ids: seq<string>)
    requires Inv(s) && Verify(hash, s, ids).Ok?
    ensures var batch := Verify(hash, s, ids).value;
            |batch| == |ids| && forall i :: 0 <= i < |ids| ==> batch[i].id == ids[i] && Checked(hash, s, batch[i])
  {
    hide VerifyOne, Checked, Inv;
    if ids != [] {
      VerifyOneChecks(hash, s, ids[0]);
      VerifyChecks(hash, s, ids[1..]);
      var rest := Verify(hash, s, ids[1..]).value;
      assert Verify(hash, s, ids).value == [VerifyOne(hash, s, ids[0]).value] + rest;
    }
  }

  // ---------- independent batches ----------

  /** Distinct ids, and no destination at or above that of an earlier member. */
  ghost predicate Independent(batch: seq<Pending>) {
    forall i, j :: 0 <= i < j < |batch| ==>
      batch[i].id != batch[j].id && !(Destination(batch[j].u) <= Destination(batch[i].u))
  }

  /** No displaced item replaces a file in the bin when its turn comes. */
  ghost predicate NoneOverwritten(s: Store, localId: string, batch: seq<Pending>, clock: nat -> Stamp) {
    forall i :: 0 <= i < |batch| ==>
      DateSeg(clock(i).date)
      && batch[i].u.rel != []
      && NothingOverwritten(CommitAll(s, localId, batch[..i], clock).store.fs, batch[i].u, clock(i))
  }

  predicate IsOwnFile(p: Pending, q: Path) {
    q == PartPath(p.u.device, p.u.space, p.id) || q == MetaPath(p.u.device, p.u.space, p.id)
  }

  /** Some subtree of the recycle bin of g is what stood at dest in f. */
  ghost predicate InBin(f: Fs, g: Fs, dest: Path) {
    exists slot :: HoldsTree(f, g, dest, slot)
  }

  ghost predicate HoldsTree(f: Fs, g: Fs, dest: Path, slot: Path) {
    InRecycle(slot) && forall q <- f | dest <= q :: Relocated(dest, slot, q) in g && g[Relocated(dest, slot, q)] == f[q]
  }

  /** What one member's commit does when its part is there; if `spared`, it overwrites nothing in the bin. */
  ghost predicate OneDone(f: Store, g: Store, p: Pending, spared: bool) {
    var dest := Destination(p.u);
    && PartPath(p.u.device, p.u.space, p.id) in f.fs
    && dest in g.fs && g.fs[dest] == f.fs[PartPath(p.u.device, p.u.space, p.id)]
    && g.uploads == Without(f.uploads, p.id)
    && (forall q <- g.fs | Staged(q) :: q in f.fs && !IsOwnFile(p, q))
    && (forall q <- f.fs | !(dest <= q) && !IsOwnFile(p, q) && (spared || !InRecycle(q)) ::
          q in g.fs && g.fs[q] == f.fs[q])
    && (dest in f.fs ==> InBin(f.fs, g.fs, dest))
  }

  lemma CommitOneEffect(s: Store, localId: string, p: Pending, stamp: Stamp, spared: bool)
    requires Inv(s) && GoodUpload(p.u, p.id) && DateSeg(stamp.date) && (spared ==> NothingOverwritten(s.fs, p.u, stamp))
    requires PartPath(p.u.device, p.u.space, p.id) in s.fs
    ensures var (s', done) := CommitOne(s, localId, p, stamp);
            if done then OneDone(s, s', p, spared) else s' == s
  {
    hide Clear, ClearLoss, OneDone, ChosenSlot, Copies, DiskInv, Overwrites, Shuffled, CleanSeg, DateSeg;
    InvTree(s);
    ClearLaw(s.fs, localId, p.u, p.id, stamp);
    var (cleared, ok) := Clear(s.fs, localId, p.u, stamp);
    if ok {
      EffectFrom(s, cleared, p, ChosenSlot(s.fs, p.u.device, p.u.space, p.u.rel, stamp), spared);
    }
  }

  lemma EffectFrom(s: Store, cleared: Fs, p: Pending, slot: Path, spared: bool)
    requires Inv(s) && GoodUpload(p.u, p.id) && PartPath(p.u.device, p.u.space, p.id) in s.fs
    requires Resettled(s.fs, cleared)
    requires var dest := Destination(p.u);
             && (forall q <- cleared :: !(dest <= q)) && Parent(dest) in cleared && cleared[Parent(dest)] == Dir
             && (forall q <- s.fs | !(dest <= q) && (spared || !InRecycle(q)) :: q in cleared && cleared[q] == s.fs[q])
             && (dest in s.fs ==> HoldsTree(s.fs, cleared, dest, slot))
    ensures var r := Deposit(cleared, p.u, p.id);
            r.Ok? && OneDone(s, Store(r.value, Without(s.uploads, p.id)), p, spared)
  {
    ShuffleKeepsInv(s, cleared);
    DepositLaw(cleared, p.u, p.id);
    OwnFilesStaged(p);
    assert PartPath(p.u.device, p.u.space, p.id) in cleared;
    EffectOfDeposit(s, cleared, Deposit(cleared, p.u, p.id).value, p, slot, spared);
  }

  lemma EffectOfDeposit(s: Store, cleared: Fs, g: Fs, p: Pending, slot: Path, spared: bool)
    requires GoodUpload(p.u, p.id) && SameStaging(s.fs, cleared)
    requires var part, meta, dest := PartPath(p.u.device, p.u.space, p.id), MetaPath(p.u.device, p.u.space, p.id),
               Destination(p.u);
             && part in s.fs && part in cleared
             && (forall q <- s.fs | !(dest <= q) && (spared || !InRecycle(q)) :: q in cleared && cleared[q] == s.fs[q])
             && (dest in s.fs ==> HoldsTree(s.fs, cleared, dest, slot))
             && g.Keys == cleared.Keys - {part, meta} + {dest} && g[dest] == cleared[part]
             && (forall q <- g | q != dest :: g[q] == cleared[q])
    ensures OneDone(s, Store(g, Without(s.uploads, p.id)), p, spared)
  {
    OwnFilesStaged(p);
    if Destination(p.u) in s.fs {
      HeldThroughDeposit(s.fs, cleared, g, p, slot);
    }
    OneDoneFrom(s, cleared, g, p, spared);
  }

  lemma OwnFilesStaged(p: Pending)
    requires GoodUpload(p.u, p.id)
    ensures var part, meta, dest := PartPath(p.u.device, p.u.space, p.id), MetaPath(p.u.device, p.u.space, p.id),
              Destination(p.u);
            && Staged(part) && Staged(meta) && !Staged(dest) && !InRecycle(dest) && !InRecycle(part) && !InRecycle(meta)
            && !(dest <= part) && !(dest <= meta) && part != meta
  {
    var u := p.u;
    var part, meta, dest := PartPath(u.device, u.space, p.id), MetaPath(u.device, u.space, p.id), Destination(u);
    PathsApart(u.device, u.space, p.id, u.device, u.space, p.id);
    assert dest[2] == u.rel[0] && part[2] == STAGING && meta[2] == STAGING && u.device[0] != '.';
  }

  lemma HeldThroughDeposit(fs: Fs, cleared: Fs, g: Fs, p: Pending, slot: Path)
    requires GoodUpload(p.u, p.id) && HoldsTree(fs, cleared, Destination(p.u), slot)
    requires forall q <- cleared | !IsOwnFile(p, q) && q != Destination(p.u) :: q in g && g[q] == cleared[q]
    ensures InBin(fs, g, Destination(p.u))
  {
    var dest := Destination(p.u);
    OwnFilesStaged(p);
    forall q <- fs | dest <= q
      ensures Relocated(dest, slot, q) in g && g[Relocated(dest, slot, q)] == fs[q]
    {
      assert Relocated(dest, slot, q)[0] == slot[0] == RECYCLE;
    }
    assert HoldsTree(fs, g, dest, slot);
  }

  lemma OneDoneFrom(s: Store, cleared: Fs, g: Fs, p: Pending, spared: bool)
    requires GoodUpload(p.u, p.id)
    requires var part, meta, dest := PartPath(p.u.device, p.u.space, p.id), MetaPath(p.u.device, p.u.space, p.id),
               Destination(p.u);
             && part in s.fs && part in cleared && cleared[part] == s.fs[part] && part != meta
             && (forall q <- s.fs | !(dest <= q) && (spared || !InRecycle(q)) :: q in cleared && cleared[q] == s.fs[q])
             && SameStaging(s.fs, cleared)
             && g.Keys == cleared.Keys - {part, meta} + {dest} && g[dest] == cleared[part]
             && (forall q <- g | q != dest :: g[q] == cleared[q])
             && (dest in s.fs ==> InBin(s.fs, g, dest))
    ensures OneDone(s, Store(g, Without(s.uploads, p.id)), p, spared)
  {
    OwnFilesStaged(p);
  }

  /** Committed and failed members split the members seen so far. */
  ghost predicate Partition(seen: seq<Pending>, committed: seq<Pending>, failed: seq<string>) {
    && |committed| + |failed| == |seen|
    && (forall p <- committed :: p in seen && p.id !in failed)
    && (forall id <- failed :: exists p <- seen :: p.id == id)
    && (forall p <- seen :: p in committed || p.id in failed)
  }

  /** One committed member: its bytes stand at its destination, its staging files are gone, and - if the
      bin was spared - what stood there before is in it. */
  ghost predicate Landed(s: Store, g: Store, p: Pending, spared: bool) {
    var part, dest := PartPath(p.u.device, p.u.space, p.id), Destination(p.u);
    && part in s.fs && dest in g.fs && g.fs[dest] == s.fs[part]
    && (forall q <- g.fs | Staged(q) :: !IsOwnFile(p, q))
    && (spared && dest in s.fs ==> InBin(s.fs, g.fs, dest))
  }

  /** The committed members leave the table, and only they. */
  ghost predicate TableLess(s: Store, g: Store, committed: seq<Pending>) {
    forall id :: (id in g.uploads <==> id in s.uploads && forall p <- committed :: p.id != id)
                 && (id in g.uploads ==> g.uploads[id] == s.uploads[id])
  }

  /** Nothing changes except below the committed destinations, at the committed staging files and - if it
      was not spared - in the bin. */
  ghost predicate Untouched(s: Store, g: Store, committed: seq<Pending>, spared: bool) {
    forall q <- s.fs |
        (spared || !InRecycle(q)) && forall p <- committed :: !(Destination(p.u) <= q) && !IsOwnFile(p, q) ::
        q in g.fs && g.fs[q] == s.fs[q]
  }

  /** How far a batch has come. */
  ghost predicate Progress(s: Store, g: Store, seen: seq<Pending>, committed: seq<Pending>, failed: seq<string>,
                           spared: bool)
  {
    && Partition(seen, committed, failed)
    && (forall p <- committed :: Landed(s, g, p, spared))
    && TableLess(s, g, committed)
    && Untouched(s, g, committed, spared)
  }

  lemma PartitionGrows(seen: seq<Pending>, committed: seq<Pending>, failed: seq<string>, p: Pending)
    requires Partition(seen, committed, failed) && forall q <- seen :: q.id != p.id
    ensures Partition(seen + [p], committed, failed + [p.id])
    ensures Partition(seen + [p], committed + [p], failed)
  {
    forall id <- failed ensures exists q <- seen + [p] :: q.id == id {
      var q :| q in seen && q.id == id;
      assert q in seen + [p];
    }
    assert p in seen + [p];
    assert p.id !in failed;
  }

  lemma Apart(a: Pending, b: Pending)
    requires a.id != b.id && GoodUpload(a.u, a.id) && GoodUpload(b.u, b.id)
    ensures forall q :: IsOwnFile(a, q) ==> !IsOwnFile(b, q) && !(Destination(b.u) <= q)
    ensures forall q | Destination(a.u) <= q :: !IsOwnFile(b, q)
  {
    PathsApart(a.u.device, a.u.space, a.id, b.u.device, b.u.space, b.id);
    PathsApart(b.u.device, b.u.space, b.id, a.u.device, a.u.space, a.id);
    forall q | IsOwnFile(a, q) || IsOwnFile(b, q) ensures |q| == 4 && q[2] == STAGING { }
    forall q | Destination(a.u) <= q ensures q[2] == a.u.rel[0] != STAGING { assert q[2] == Destination(a.u)[2]; }
    forall q | Destination(b.u) <= q ensures q[2] == b.u.rel[0] != STAGING { assert q[2] == Destination(b.u)[2]; }
  }

  /** The new member is another one, and not at or above one already seen. */
  predicate NotAbove(p: Pending, c: Pending) {
    c.id != p.id && !(Destination(p.u) <= Destination(c.u))
  }

  /** The new member stands aside from one already seen. */
  predicate Aside(p: Pending, c: Pending) {
    c.id != p.id && !(Destination(c.u) <= Destination(p.u)) && !(Destination(p.u) <= Destination(c.u))
  }

  lemma LandedStays(s: Store, f: Store, g: Store, p: Pending, c: Pending, spared: bool)
    requires Landed(s, f, c, spared) && OneDone(f, g, p, spared) && Aside(p, c) && GoodUpload(p.u, p.id)
             && GoodUpload(c.u, c.id)
    ensures Landed(s, g, c, spared)
  {
    Apart(c, p);
    OwnFilesStaged(c);
    OwnFilesStaged(p);
    var dest := Destination(c.u);
    assert dest <= dest;
    if spared && dest in s.fs {
      var slot :| HoldsTree(s.fs, f.fs, dest, slot);
      forall q <- s.fs | dest <= q
        ensures Relocated(dest, slot, q) in g.fs && g.fs[Relocated(dest, slot, q)] == s.fs[q]
      {
        assert Relocated(dest, slot, q)[0] == slot[0] == RECYCLE && Destination(p.u)[0] != RECYCLE;
      }
      assert HoldsTree(s.fs, g.fs, dest, slot);
    }
  }

  /** Nothing an earlier member did reached below the new member's destination or its part. */
  lemma EarlierAside(s: Store, f: Store, committed: seq<Pending>, p: Pending, spared: bool)
    requires Untouched(s, f, committed, spared) && GoodUpload(p.u, p.id)
    requires forall c <- committed :: Aside(p, c) && GoodUpload(c.u, c.id)
    ensures forall q <- s.fs | Destination(p.u) <= q || IsOwnFile(p, q) :: q in f.fs && f.fs[q] == s.fs[q]
  {
    forall q <- s.fs | Destination(p.u) <= q || IsOwnFile(p, q) ensures q in f.fs && f.fs[q] == s.fs[q] {
      forall c <- committed ensures !(Destination(c.u) <= q) && !IsOwnFile(c, q) {
        Apart(c, p);
        Apart(p, c);
        Comparable(Destination(c.u), Destination(p.u), q);
      }
    }
  }

  /** A member whose destination lies below a file cannot be committed. */
  lemma BlockedBelow(f: Store, localId: string, p: Pending, above: Path, stamp: Stamp)
    requires above in f.fs && f.fs[above] != Dir && above < Destination(p.u)
    ensures !CommitOne(f, localId, p, stamp).1
  {
    var dir := Parent(Destination(p.u));
    assert above <= dir by { PrefixParent(above, Destination(p.u)); }
    assert dir[..|above|] == above;
    assert !CanMkdirs(f.fs, dir);
    hide CanMkdirs;
  }

  /** So a member that commits stands aside from all that did before it. */
  lemma DoneIsAside(s: Store, f: Store, localId: string, committed: seq<Pending>, p: Pending, stamp: Stamp,
                    spared: bool)
    requires CommitOne(f, localId, p, stamp).1
    requires forall c <- committed ::
               Landed(s, f, c, spared) && s.fs[PartPath(c.u.device, c.u.space, c.id)].Blob? && NotAbove(p, c)
    ensures forall c <- committed :: Aside(p, c)
  {
    hide CommitOne;
    forall c <- committed ensures Aside(p, c) {
      if Destination(c.u) <= Destination(p.u) {
        assert Destination(p.u)[..|Destination(c.u)|] + Destination(p.u)[|Destination(c.u)|..] == Destination(p.u);
        BlockedBelow(f, localId, p, Destination(c.u), stamp);
      }
    }
  }

  lemma FirstLanding(s: Store, f: Store, g: Store, committed: seq<Pending>, p: Pending, spared: bool)
    requires Untouched(s, f, committed, spared) && OneDone(f, g, p, spared) && GoodUpload(p.u, p.id)
    requires PartPath(p.u.device, p.u.space, p.id) in s.fs
    requires forall c <- committed :: Aside(p, c) && GoodUpload(c.u, c.id)
    ensures Landed(s, g, p, spared)
  {
    EarlierAside(s, f, committed, p, spared);
    var dest := Destination(p.u);
    if dest in s.fs {
      assert dest <= dest;
      var slot :| HoldsTree(f.fs, g.fs, dest, slot);
      assert HoldsTree(s.fs, g.fs, dest, slot);
    }
  }

  lemma ProgressDone(s: Store, f: Store, g: Store, seen: seq<Pending>, committed: seq<Pending>, failed: seq<string>,
                     p: Pending, spared: bool)
    requires Progress(s, f, seen, committed, failed, spared) && OneDone(f, g, p, spared) && GoodUpload(p.u, p.id)
    requires PartPath(p.u.device, p.u.space, p.id) in s.fs
    requires forall c <- seen :: NotAbove(p, c) && GoodUpload(c.u, c.id)
    requires forall c <- committed :: Aside(p, c)
    ensures Progress(s, g, seen + [p], committed + [p], failed, spared)
  {
    PartitionGrows(seen, committed, failed, p);
    FirstLanding(s, f, g, committed, p, spared);
    forall c <- committed ensures Landed(s, g, c, spared) {
      LandedStays(s, f, g, p, c, spared);
    }
    TableGrows(s, f, g, committed, p);
    UntouchedGrows(s, f, g, committed, p, spared);
  }

  lemma TableGrows(s: Store, f: Store, g: Store, committed: seq<Pending>, p: Pending)
    requires TableLess(s, f, committed) && g.uploads == Without(f.uploads, p.id)
    ensures TableLess(s, g, committed + [p])
  {
    forall id ensures id in g.uploads <==> id in s.uploads && forall c <- committed + [p] :: c.id != id {
      assert p in committed + [p];
      assert forall c <- committed :: c in committed + [p];
    }
  }

  lemma UntouchedGrows(s: Store, f: Store, g: Store, committed: seq<Pending>, p: Pending, spared: bool)
    requires Untouched(s, f, committed, spared) && OneDone(f, g, p, spared)
    ensures Untouched(s, g, committed + [p], spared)
  {
    forall q <- s.fs |
        (spared || !InRecycle(q)) && forall c <- committed + [p] :: !(Destination(c.u) <= q) && !IsOwnFile(c, q)
      ensures q in g.fs && g.fs[q] == s.fs[q]
    {
      assert p in committed + [p];
      forall c <- committed ensures !(Destination(c.u) <= q) && !IsOwnFile(c, q) { assert c in committed + [p]; }
    }
  }

  // ---------- the batch theorem ----------

  lemma ProgressStep(s: Store, f: Store, g: Store, done: bool, seen: seq<Pending>, committed: seq<Pending>,
                     failed: seq<string>, p: Pending, spared: bool)
    requires Progress(s, f, seen, committed, failed, spared) && GoodUpload(p.u, p.id)
    requires PartPath(p.u.device, p.u.space, p.id) in s.fs
    requires forall c <- seen :: NotAbove(p, c) && GoodUpload(c.u, c.id)
    requires if done then OneDone(f, g, p, spared) && forall c <- committed :: Aside(p, c) else g == f
    ensures if done then Progress(s, g, seen + [p], committed + [p], failed, spared)
            else Progress(s, g, seen + [p], committed, failed + [p.id], spared)
  {
    if done {
      ProgressDone(s, f, g, seen, committed, failed, p, spared);
    } else {
      PartitionGrows(seen, committed, failed, p);
    }
  }

  ghost predicate WithPart(s: Store, c: Pending) {
    var part := PartPath(c.u.device, c.u.space, c.id);
    GoodUpload(c.u, c.id) && part in s.fs && s.fs[part].Blob?
  }

  lemma SeenAside(hash: Hash, s: Store, batch: seq<Pending>)
    requires batch != [] && Independent(batch) && forall p <- batch :: Checked(hash, s, p)
    ensures var n := |batch| - 1; forall c <- batch[..n] :: NotAbove(batch[n], c) && WithPart(s, c)
    ensures Independent(batch[..|batch| - 1])
  {
    var n := |batch| - 1;
    forall c <- batch[..n] ensures NotAbove(batch[n], c) && WithPart(s, c) {
      var i :| 0 <= i < n && batch[i] == c;
      assert batch[i].id != batch[n].id && Checked(hash, s, batch[i]);
    }
  }

  lemma {:induction false} CommitAllProgress(hash: Hash, s: Store, localId: string, batch: seq<Pending>,
                                             clock: nat -> Stamp, spared: bool)
    requires Inv(s) && (forall p <- batch :: Checked(hash, s, p))
    requires Independent(batch) && Dated(clock, |batch|) && (spared ==> NoneOverwritten(s, localId, batch, clock))
    ensures var o := CommitAll(s, localId, batch, clock);
            Inv(o.store) && Progress(s, o.store, batch, o.committed, o.failed, spared)
  {
    hide CommitOne, Inv, Progress, Independent, NothingOverwritten, NotAbove, NoneOverwritten, GoodUpload, WithPart,
      DateSeg;
    if batch == [] {
      NothingYet(s, spared);
    } else {
      var n := |batch| - 1;
      var seen, p := batch[..n], batch[n];
      SeenAside(hash, s, batch);
      if spared {
        NoneOverwrittenPrefix(s, localId, batch, clock);
        LastOverwritesNothing(s, localId, batch, clock);
      }
      CommitAllProgress(hash, s, localId, seen, clock, spared);
      var before := CommitAll(s, localId, seen, clock);
      assert Checked(hash, s, p);
      NextMember(s, localId, before.store, seen, before.committed, before.failed, p, clock(n), spared);
      assert batch == seen + [p];
    }
  }

  lemma NothingYet(s: Store, spared: bool)
    ensures Progress(s, s, [], [], [], spared)
  {
  }

  lemma LastOverwritesNothing(s: Store, localId: string, batch: seq<Pending>, clock: nat -> Stamp)
    requires NoneOverwritten(s, localId, batch, clock) && batch != []
    ensures var n := |batch| - 1;
            DateSeg(clock(n).date) && batch[n].u.rel != []
            && NothingOverwritten(CommitAll(s, localId, batch[..n], clock).store.fs, batch[n].u, clock(n))
  {
  }

  lemma NextMember(s: Store, localId: string, f: Store, seen: seq<Pending>, committed: seq<Pending>,
                   failed: seq<string>, p: Pending, stamp: Stamp, spared: bool)
    requires Inv(f) && Progress(s, f, seen, committed, failed, spared) && GoodUpload(p.u, p.id)
    requires PartPath(p.u.device, p.u.space, p.id) in s.fs
    requires forall c <- seen :: NotAbove(p, c) && WithPart(s, c)
    requires DateSeg(stamp.date) && (spared ==> NothingOverwritten(f.fs, p.u, stamp))
    ensures var (g, done) := CommitOne(f, localId, p, stamp);
            Inv(g) && if done then Progress(s, g, seen + [p], committed + [p], failed, spared)
              else Progress(s, g, seen + [p], committed, failed + [p.id], spared)
  {
    hide CommitOne, Inv, NothingOverwritten, GoodUpload, DateSeg;
    assert forall c <- committed :: c in seen;
    OwnFilesLeft(s, f, committed, p, spared);
    assert IsOwnFile(p, PartPath(p.u.device, p.u.space, p.id));
    CommitOneKeeps(f, localId, p, stamp);
    CommitOneEffect(f, localId, p, stamp, spared);
    var (g, done) := CommitOne(f, localId, p, stamp);
    if done {
      DoneIsAside(s, f, localId, committed, p, stamp, spared);
    }
    ProgressStep(s, f, g, done, seen, committed, failed, p, spared);
  }

  lemma NoneOverwrittenPrefix(s: Store, localId: string, batch: seq<Pending>, clock: nat -> Stamp)
    requires NoneOverwritten(s, localId, batch, clock) && batch != []
    ensures NoneOverwritten(s, localId, batch[..|batch| - 1], clock)
  {
    hide CommitAll, NothingOverwritten;
    var seen := batch[..|batch| - 1];
    forall i | 0 <= i < |seen| ensures seen[..i] == batch[..i] && seen[i] == batch[i] { }
  }

  /** A failed member is staged as before: table entry, part and meta file. */
  ghost predicate Retryable(s: Store, g: Store, p: Pending) {
    && p.id in s.uploads && p.id in g.uploads && g.uploads[p.id] == s.uploads[p.id]
    && forall q <- s.fs | IsOwnFile(p, q) :: q in g.fs && g.fs[q] == s.fs[q]
  }

  lemma FailedRetryable(hash: Hash, s: Store, g: Store, batch: seq<Pending>, committed: seq<Pending>,
                        failed: seq<string>, p: Pending, spared: bool)
    requires Progress(s, g, batch, committed, failed, spared) && Independent(batch) && p in batch && p.id in failed
    requires forall c <- batch :: Checked(hash, s, c)
    ensures Retryable(s, g, p)
  {
    forall c <- committed ensures c.id != p.id && GoodUpload(c.u, c.id) { }
    OwnFilesLeft(s, g, committed, p, spared);
  }

  lemma OwnFilesLeft(s: Store, g: Store, committed: seq<Pending>, p: Pending, spared: bool)
    requires Untouched(s, g, committed, spared) && GoodUpload(p.u, p.id)
    requires forall c <- committed :: c.id != p.id && GoodUpload(c.u, c.id)
    ensures forall q <- s.fs | IsOwnFile(p, q) :: q in g.fs && g.fs[q] == s.fs[q]
  {
    forall q <- s.fs | IsOwnFile(p, q) ensures q in g.fs && g.fs[q] == s.fs[q] {
      forall c <- committed ensures !(Destination(c.u) <= q) && !IsOwnFile(c, q) {
        Apart(c, p);
        Apart(p, c);
      }
    }
  }

  /** A batch whose first phase went through: committed and failed split it; every committed destination holds
      exactly its staged bytes, with the declared size and hash; a failed upload keeps its files and its table
      entry; and nothing outside the committed destinations and the bin changes. If the bin was spared, what
      stood at the destinations is in it, and so is all that was there. */
  ghost predicate BatchDone(hash: Hash, s: Store, batch: seq<Pending>, after: Store, o: Outcome, spared: bool) {
    && o.store == after && Inv(after)
    && Partition(batch, o.committed, o.failed)
    && (forall p <- o.committed :: Landed(s, after, p, spared) && Checked(hash, s, p) && p.id !in after.uploads)
    && (forall p <- batch | p.id in o.failed :: Retryable(s, after, p))
    && Untouched(s, after, o.committed, spared)
  }

  /** This commit overwrites nothing in the bin. */
  ghost predicate Spared(hash: Hash, s: Store, localId: string, ids: seq<string>, clock: nat -> Stamp) {
    Verify(hash, s, ids).Ok? && NoneOverwritten(s, localId, Verify(hash, s, ids).value, clock)
  }

  /** The batch commit: a verification failure changes nothing; otherwise, for distinct ids and no destination
      at or above an earlier one, it is done. */
  lemma BatchCommit(hash: Hash, s: Store, localId: string, ids: seq<string>, clock: nat -> Stamp)
    requires Inv(s) && Dated(clock, |ids|)
    requires Verify(hash, s, ids).Ok? ==> Independent(Verify(hash, s, ids).value)
    ensures var (after, r) := Commit(hash, s, localId, ids, clock);
            match Verify(hash, s, ids)
            case Err(e) => after == s && r == Err(e)
            case Ok(batch) => r.Ok? && BatchDone(hash, s, batch, after, r.value, Spared(hash, s, localId, ids, clock))
  {
    hide DateSeg, NoneOverwritten;
    if Verify(hash, s, ids).Ok? {
      var batch := Verify(hash, s, ids).value;
      VerifyChecks(hash, s, ids);
      CommittedBatch(hash, s, localId, batch, clock, Spared(hash, s, localId, ids, clock));
    }
  }

  lemma CommittedBatch(hash: Hash, s: Store, localId: string, batch: seq<Pending>, clock: nat -> Stamp, spared: bool)
    requires Inv(s) && Independent(batch) && Dated(clock, |batch|)
    requires spared ==> NoneOverwritten(s, localId, batch, clock)
    requires forall i :: 0 <= i < |batch| ==> Checked(hash, s, batch[i])
    ensures var o := CommitAll(s, localId, batch, clock); BatchDone(hash, s, batch, o.store, o, spared)
  {
    hide DateSeg, NoneOverwritten, Checked, Landed, Untouched, Inv, CommitAll, Retryable;
    CommitAllProgress(hash, s, localId, batch, clock, spared);
    var o := CommitAll(s, localId, batch, clock);
    forall p <- batch | p.id in o.failed ensures Retryable(s, o.store, p) {
      FailedRetryable(hash, s, o.store, batch, o.committed, o.failed, p, spared);
    }
  }

  // ---------- why the condition on the batch is there ----------

  /** Of two members, both committed, the later one at or above the earlier: the later one recycles
      what the earlier one brought. */
  lemma LaterDisplacesEarlier(s: Store, localId: string, p: Pending, q: Pending, first: Stamp, second: Stamp)
    requires Inv(s) && GoodUpload(p.u, p.id) && GoodUpload(q.u, q.id) && p.id != q.id
             && Destination(q.u) <= Destination(p.u)
    requires PartPath(p.u.device, p.u.space, p.id) in s.fs && PartPath(q.u.device, q.u.space, q.id) in s.fs
    requires DateSeg(first.date) && DateSeg(second.date)
    ensures var (mid, one) := CommitOne(s, localId, p, first);
            var (end, two) := CommitOne(mid, localId, q, second);
            one && two ==>
              && Destination(q.u) in end.fs && end.fs[Destination(q.u)] == s.fs[PartPath(q.u.device, q.u.space, q.id)]
              && exists slot ::
                   InRecycle(slot) && slot in end.fs && end.fs[slot] == s.fs[PartPath(p.u.device, p.u.space, p.id)]
  {
    hide CommitOne, Inv, DateSeg, GoodUpload, PartPath, HoldsTree, Destination;
    var (mid, one) := CommitOne(s, localId, p, first);
    if one {
      CommitOneEffect(s, localId, p, first, false);
      CommitOneKeeps(s, localId, p, first);
      OtherPartStays(s, mid, p, q);
      var (end, two) := CommitOne(mid, localId, q, second);
      if two {
        CommitOneEffect(mid, localId, q, second, false);
        StandsAbove(mid, Destination(q.u), Destination(p.u));
        RecycledAt(mid.fs, end.fs, Destination(q.u), Destination(p.u));
      }
    }
  }

  lemma StandsAbove(s: Store, above: Path, p: Path)
    requires Inv(s) && p in s.fs && above <= p
    ensures above in s.fs
  {
    if above != p {
      assert p[..|above|] + p[|above|..] == p;
      PrefixIsDir(s.fs, above, p);
    }
  }

  lemma OtherPartStays(f: Store, g: Store, p: Pending, q: Pending)
    requires OneDone(f, g, p, false) && GoodUpload(p.u, p.id) && GoodUpload(q.u, q.id) && p.id != q.id
    requires PartPath(q.u.device, q.u.space, q.id) in f.fs
    ensures PartPath(q.u.device, q.u.space, q.id) in g.fs
    ensures g.fs[PartPath(q.u.device, q.u.space, q.id)] == f.fs[PartPath(q.u.device, q.u.space, q.id)]
  {
    Apart(p, q);
    assert IsOwnFile(q, PartPath(q.u.device, q.u.space, q.id));
  }

  lemma RecycledAt(f: Fs, g: Fs, dest: Path, p: Path)
    requires InBin(f, g, dest) && p in f && dest <= p
    ensures exists slot :: InRecycle(slot) && slot in g && g[slot] == f[p]
  {
    var slot :| HoldsTree(f, g, dest, slot);
    var to := Relocated(dest, slot, p);
    assert InRecycle(to) && to in g && g[to] == f[p];
  }

  /** The second turn of a member that has committed: its part is gone, so it fails, but not before
      it has made room - which empties the destination whenever that can be done. */
  lemma SecondTurnFails(s: Store, localId: string, p: Pending, first: Stamp, second: Stamp)
    requires Inv(s) && GoodUpload(p.u, p.id) && DateSeg(first.date) && DateSeg(second.date)
    requires CommitOne(s, localId, p, first).1 && PartPath(p.u.device, p.u.space, p.id) in s.fs
    ensures var mid := CommitOne(s, localId, p, first).0;
            var (end, again) := CommitOne(mid, localId, p, second);
            var room := Clear(mid.fs, localId, p.u, second).1;
            && !again && p.id !in end.uploads
            && Destination(p.u) in mid.fs && mid.fs[Destination(p.u)] == s.fs[PartPath(p.u.device, p.u.space, p.id)]
            && (Destination(p.u) in end.fs <==> !room)
            && (room ==> InBin(mid.fs, end.fs, Destination(p.u)))
  {
    hide CommitOne, Clear, Deposit, Inv, NothingOverwritten, DateSeg, GoodUpload, PartPath, Destination, Shuffled;
    var mid := CommitOne(s, localId, p, first).0;
    CommitOneEffect(s, localId, p, first, false);
    CommitOneKeeps(s, localId, p, first);
    assert IsOwnFile(p, PartPath(p.u.device, p.u.space, p.id));
    OwnFilesStaged(p);
    InvTree(mid);
    ClearLaw(mid.fs, localId, p.u, p.id, second);
    SecondTurn(mid, localId, p, second);
  }

  lemma SecondTurn(mid: Store, localId: string, p: Pending, stamp: Stamp)
    requires Inv(mid) && GoodUpload(p.u, p.id) && DateSeg(stamp.date)
    requires PartPath(p.u.device, p.u.space, p.id) !in mid.fs && Destination(p.u) in mid.fs
    ensures var (end, again) := CommitOne(mid, localId, p, stamp);
            var (cleared, room) := Clear(mid.fs, localId, p.u, stamp);
            && !again && end == mid.(fs := cleared)
            && (Destination(p.u) in cleared <==> !room)
            && (room ==> InBin(mid.fs, cleared, Destination(p.u)))
  {
    hide Clear, Inv, NothingOverwritten, DateSeg, PartPath, IsTree, GoodUpload, Parent, SameOwners, Copies, ClearLoss,
      Shuffled, ChosenSlot;
    InvTree(mid);
    ClearLaw(mid.fs, localId, p.u, p.id, stamp);
    OwnFilesStaged(p);
    var (cleared, room) := Clear(mid.fs, localId, p.u, stamp);
    assert PartPath(p.u.device, p.u.space, p.id) !in cleared;
    if room {
      assert Destination(p.u) <= Destination(p.u);
      assert HoldsTree(mid.fs, cleared, Destination(p.u), ChosenSlot(mid.fs, p.u.device, p.u.space, p.u.rel, stamp));
    }
  }

  /** So a batch that names one upload twice reports it both committed and failed, and leaves its
      destination empty, the content in the recycle bin. */
  lemma DuplicateIdEmpties(hash: Hash, s: Store, localId: string, p: Pending, clock: nat -> Stamp, mid: Store,
                           data: Bytes)
    requires Inv(s) && VerifyOne(hash, s, p.id) == Ok(p) && Dated(clock, 2)
    requires var part := PartPath(p.u.device, p.u.space, p.id); part in s.fs && s.fs[part] == Blob(data)
    requires CommitOne(s, localId, p, clock(0)) == (mid, true) && Clear(mid.fs, localId, p.u, clock(1)).1
    ensures var (end, r) := Commit(hash, s, localId, [p.id, p.id], clock);
            && r == Ok(Outcome(end, [p], [p.id])) && Destination(p.u) !in end.fs && p.id !in end.uploads
            && exists slot :: InRecycle(slot) && slot in end.fs && end.fs[slot] == Blob(data)
  {
    hide VerifyOne, CommitOne, Clear, Inv, NothingOverwritten, DateSeg;
    VerifyOneChecks(hash, s, p.id);
    TwoTurns(s, localId, p, clock);
    TwiceVerified(hash, s, p.id);
    SecondTurnFails(s, localId, p, clock(0), clock(1));
    RecycledAt(mid.fs, CommitOne(mid, localId, p, clock(1)).0.fs, Destination(p.u), Destination(p.u));
  }

  lemma TwiceVerified(hash: Hash, s: Store, id: string)
    requires VerifyOne(hash, s, id).Ok?
    ensures Verify(hash, s, [id, id]) == Ok([VerifyOne(hash, s, id).value, VerifyOne(hash, s, id).value])
  {
    hide VerifyOne;
    assert [id, id][1..] == [id] && [id][1..] == [];
    var v := VerifyOne(hash, s, id).value;
    assert Verify(hash, s, [id]) == Ok([v] + []) && [v] + [] == [v];
    assert Verify(hash, s, [id, id]) == Ok([v] + [v]) && [v] + [v] == [v, v];
  }

  lemma TwoTurns(s: Store, localId: string, p: Pending, clock: nat -> Stamp)
    ensures var (mid, one) := CommitOne(s, localId, p, clock(0));
            one && !CommitOne(mid, localId, p, clock(1)).1 ==>
              CommitAll(s, localId, [p, p], clock) == Outcome(CommitOne(mid, localId, p, clock(1)).0, [p], [p.id])
  {
    hide CommitOne;
    assert [p, p][..0] == [] && [p, p][..1] == [p] && [p][..0] == [];
    assert CommitAll(s, localId, [], clock) == Outcome(s, [], []);
    assert CommitAll(s, localId, [p], clock).store == CommitOne(s, localId, p, clock(0)).0;
    assert [p, p][0] == p && [p, p][1] == p;
    assert [] + [p] == [p] && [] + [p.id] == [p.id];
    if CommitOne(s, localId, p, clock(0)).1 {
      assert CommitAll(s, localId, [p], clock) == Outcome(CommitOne(s, localId, p, clock(0)).0, [p], []);
    }
  }
}
