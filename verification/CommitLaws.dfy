/** The batch commit: what one member does, and what the whole batch does. */
module CommitLaws {
  import opened Paths
  import opened FileSystem
  import opened Layout
  import opened Recycle
  import opened RecycleLaws
  import opened Staging
  import opened StagingLaws

  predicate GoodUpload(u: Upload, id: string) {
    Addressable(u.device, u.space, u.rel) && ValidUploadId(id)
  }

  /** If something has to be displaced, it replaces no file in the bin. */
  predicate NothingOverwritten(fs: Fs, u: Upload, stamp: Stamp)
    requires u.rel != []
  {
    Destination(u) in fs ==> !Overwrites(fs, u.device, u.space, u.rel, stamp)
  }

  // ---------- clearing the destination ----------

  /** What clearing destroys: the recycled file the displaced one replaces. */
  function ClearLoss(fs: Fs, u: Upload, stamp: Stamp): multiset<Bytes>
    requires u.rel != []
  {
    RecycleLoss(fs, u.device, u.space, u.rel, stamp)
  }

  lemma MadeSame(fs: Fs, u: Upload, id: string, stamp: Stamp)
    requires IsTree(fs) && GoodUpload(u, id) && DateSeg(stamp.date) && CanMkdirs(fs, Parent(Destination(u)))
    ensures var made := Mkdirs(fs, Parent(Destination(u)));
            && Shuffled(fs, made)
            && (Destination(u) in made <==> Destination(u) in fs)
            && ChosenSlot(made, u.device, u.space, u.rel, stamp) == ChosenSlot(fs, u.device, u.space, u.rel, stamp)
            && (Destination(u) in fs ==> made == fs)
  {
    var dest := Destination(u);
    assert u.device[0] != '.' && dest[2] == u.rel[0];
    forall q | q <= Parent(dest) ensures !Staged(q) && !InRecycle(q) {
      if |q| > 0 { assert q[0] == dest[0]; }
      if |q| >= 3 { assert q[2] == dest[2]; }
    }
    MkdirsShuffles(fs, Parent(dest));
    if dest in fs {
      MkdirsIdle(fs, Parent(dest));
    }
  }

  /** The destination is free, everything that was not below it stands as it was, but for `taken`, and
      what was below it is at the slot, node for node. */
  ghost predicate Emptied(f: Fs, g: Fs, dest: Path, slot: Path, taken: bool)
    requires dest != []
  {
    && (forall q <- g :: !(dest <= q))
    && Parent(dest) in g && g[Parent(dest)] == Dir
    && (forall q <- f | !(dest <= q) && (q == slot ==> !taken) :: q in g && g[q] == f[q])
    && (forall q <- g | q !in f && !InRecycle(q) :: g[q] == Dir)
    && (dest in f ==> InRecycle(slot) && forall q <- f | dest <= q ::
          Relocated(dest, slot, q) in g && g[Relocated(dest, slot, q)] == f[q])
  }

  /** Clearing succeeds or changes nothing; it copies no file and loses just the one in the bin that
      the displaced one replaces, if any. On success the destination is free, everything else is as it
      was, and what was below the destination is in the recycle bin, node for node. */
  lemma ClearLaw(fs: Fs, localId: string, u: Upload, id: string, stamp: Stamp)
    requires IsTree(fs) && GoodUpload(u, id) && DateSeg(stamp.date)
    ensures var (cleared, ok) := Clear(fs, localId, u, stamp);
            var dest, slot := Destination(u), ChosenSlot(fs, u.device, u.space, u.rel, stamp);
            && Rearranged(fs, cleared, ClearLoss(fs, u, stamp))
            && (!ok ==> cleared == fs)
            && (ok ==> Emptied(fs, cleared, dest, slot, !NothingOverwritten(fs, u, stamp)))
    ensures NothingOverwritten(fs, u, stamp) ==>
              ClearLoss(fs, u, stamp) == multiset{} && Shuffled(fs, Clear(fs, localId, u, stamp).0)
  {
    hide Shuffled, Rearranged, IsTree, CleanSeg, DateSeg, MoveToRecycle, RecycleLoss, Emptied;
    var dest := Destination(u);
    ShuffledSelf(fs);
    NothingLost(fs, fs);
    LossIff(fs, u, stamp);
    NothingLost(fs, Clear(fs, localId, u, stamp).0);
    if CanMkdirs(fs, Parent(dest)) {
      MadeSame(fs, u, id, stamp);
      if dest in fs {
        DisplaceLaw(fs, localId, u, id, stamp);
        assert Mkdirs(fs, Parent(dest)) == fs;
        var (cleared, moved) := MoveToRecycle(fs, localId, u.device, u.space, Join(u.rel), stamp);
        assert Clear(fs, localId, u, stamp) == (cleared, moved.Ok?);
      } else {
        NothingLost(fs, Mkdirs(fs, Parent(dest)));
        MadeEmptied(fs, u, id, stamp);
      }
    } else {
      ParentMakeable(fs, dest);
    }
  }

  lemma LossIff(fs: Fs, u: Upload, stamp: Stamp)
    requires u.rel != []
    ensures NothingOverwritten(fs, u, stamp) ==> ClearLoss(fs, u, stamp) == multiset{}
    ensures Destination(u) !in fs ==> ClearLoss(fs, u, stamp) == multiset{}
  {
    assert Destination(u) == Official(u.device, u.space, u.rel);
  }

  lemma ParentMakeable(fs: Fs, dest: Path)
    requires IsTree(fs) && dest != []
    ensures dest in fs ==> CanMkdirs(fs, Parent(dest))
  {
    if dest in fs { MkdirsIdle(fs, Parent(dest)); }
  }

  lemma MadeEmptied(fs: Fs, u: Upload, id: string, stamp: Stamp)
    requires IsTree(fs) && GoodUpload(u, id) && CanMkdirs(fs, Parent(Destination(u))) && Destination(u) !in fs
    ensures var dest := Destination(u);
            Emptied(fs, Mkdirs(fs, Parent(dest)), dest, ChosenSlot(fs, u.device, u.space, u.rel, stamp), false)
  {
    hide IsTree, CanMkdirs, CleanSeg;
    var dest := Destination(u);
    MkdirsTree(fs, Parent(dest));
    NothingBelowMissing(Mkdirs(fs, Parent(dest)), dest);
  }

  lemma DisplaceLaw(fs: Fs, localId: string, u: Upload, id: string, stamp: Stamp)
    requires IsTree(fs) && GoodUpload(u, id) && DateSeg(stamp.date) && Destination(u) in fs
    ensures var (cleared, moved) := MoveToRecycle(fs, localId, u.device, u.space, Join(u.rel), stamp);
            var dest, slot := Destination(u), ChosenSlot(fs, u.device, u.space, u.rel, stamp);
            && Rearranged(fs, cleared, ClearLoss(fs, u, stamp))
            && (moved.Err? ==> cleared == fs)
            && (moved.Ok? ==> Emptied(fs, cleared, dest, slot, !NothingOverwritten(fs, u, stamp)))
  {
    hide MoveToRecycle, Transfer, Shuffled, Rearranged, Relocatable, Clobbers, IsTree, CleanSeg, DateSeg, TildeOrDrive,
      Emptied;
    var dest, slot := Destination(u), ChosenSlot(fs, u.device, u.space, u.rel, stamp);
    assert dest == Official(u.device, u.space, u.rel);
    MoveToRecycleClean(fs, localId, u.device, u.space, u.rel, stamp);
    ShuffledSelf(fs);
    NothingLost(fs, fs);
    if !TildeOrDrive(u.rel[0]) {
      BinSlot(fs, u, stamp);
      DisplacedBy(fs, dest, slot);
    }
  }

  lemma BinSlot(fs: Fs, u: Upload, stamp: Stamp)
    requires Addressable(u.device, u.space, u.rel)
    ensures var dest, slot := Destination(u), ChosenSlot(fs, u.device, u.space, u.rel, stamp);
            && Relocatable(fs, dest, slot) && !(slot <= dest) && InRecycle(slot) && !InRecycle(dest)
            && |slot| > 1 && dest != []
  {
    assert Destination(u) == Official(u.device, u.space, u.rel) && u.device[0] != '.';
    CleanSuffixed(u.rel, stamp.ms);
    OfficialToSlot(fs, stamp.date, u.device, u.space, u.rel, u.rel);
    OfficialToSlot(fs, stamp.date, u.device, u.space, u.rel, Suffixed(u.rel, stamp.ms));
  }

  lemma DisplacedBy(fs: Fs, dest: Path, slot: Path)
    requires IsTree(fs) && dest in fs && dest != [] && Relocatable(fs, dest, slot) && !(slot <= dest)
    requires InRecycle(slot) && !InRecycle(dest) && |slot| > 1
    ensures var (cleared, done) := Transfer(fs, dest, slot, Plain);
            && Rearranged(fs, cleared, Replaced(fs, dest, slot))
            && (!done ==> cleared == fs)
            && (done ==> Emptied(fs, cleared, dest, slot, Clobbers(fs, dest, slot)))
  {
    hide Transfer, Shuffled, Rearranged, IsTree, Relocatable, Emptied;
    TransferRearranges(fs, dest, slot);
    if slot in fs {
      TransferOnto(fs, dest, slot);
      DisplacedOnto(fs, dest, slot);
    } else {
      TransferShuffles(fs, dest, slot);
      if CanMkdirs(fs, Parent(slot)) {
        DisplacedTree(fs, Mkdirs(fs, Parent(slot)), dest, slot);
      }
    }
  }

  /** The same when a file or an empty directory gave way. */
  lemma DisplacedOnto(fs: Fs, dest: Path, slot: Path)
    requires IsTree(fs) && dest in fs && dest != [] && InRecycle(slot) && !InRecycle(dest) && |slot| > 1 && slot in fs
    requires Transfer(fs, dest, slot, Plain).1 ==>
               fs[dest].Dir? == fs[slot].Dir?
                 && Transfer(fs, dest, slot, Plain).0 == MoveTree(RemoveTree(fs, slot), dest, slot)
               && !HasChildren(fs, slot)
    ensures Transfer(fs, dest, slot, Plain).1 ==>
              Emptied(fs, Transfer(fs, dest, slot, Plain).0, dest, slot, Clobbers(fs, dest, slot))
  {
    hide Transfer, Emptied;
    if Transfer(fs, dest, slot, Plain).1 {
      var cut := RemoveTree(fs, slot);
      RemoveTreeIsTree(fs, slot);
      LeafUnlessChildren(fs, slot);
      MkdirsIdle(fs, Parent(slot));
      PrefixParent(slot, slot);
      MkdirsIdle(cut, Parent(slot));
      assert dest[0] != slot[0];
      DisplacedTree(cut, cut, dest, slot);
      EmptiedAround(fs, cut, MoveTree(cut, dest, slot), dest, slot);
    }
  }

  lemma EmptiedAround(fs: Fs, cut: Fs, g: Fs, dest: Path, slot: Path)
    requires dest in fs && dest != [] && slot in fs && !(slot <= dest) && fs[dest].Dir? == fs[slot].Dir?
    requires cut == RemoveTree(fs, slot) && (forall q <- fs :: slot <= q ==> q == slot)
             && Emptied(cut, g, dest, slot, false)
    ensures Emptied(fs, g, dest, slot, Clobbers(fs, dest, slot))
  {
    assert Relocated(dest, slot, dest) == slot;
  }

  lemma DisplacedTree(fs: Fs, made: Fs, dest: Path, slot: Path)
    requires IsTree(fs) && dest in fs && dest != [] && InRecycle(slot) && !InRecycle(dest) && |slot| > 1
    requires made == Mkdirs(fs, Parent(slot)) && forall q <- made :: !(slot <= q)
    ensures Emptied(fs, MoveTree(made, dest, slot), dest, slot, false)
  {
    var g := MoveTree(made, dest, slot);
    assert dest[0] != slot[0];
    assert !(dest <= slot) && !(slot <= dest);
    MoveTreeLeaves(made, dest, slot);
    PrefixParent(dest, dest);
    PrefixParent(slot, dest);
    assert Parent(dest) in fs && Parent(dest) in made && !(slot <= Parent(dest));
    forall q <- fs | dest <= q ensures Relocated(dest, slot, q) in g && g[Relocated(dest, slot, q)] == fs[q] {
      RelocatedBack(dest, slot, q);
    }
    forall q <- g | slot <= q ensures InRecycle(q) { assert q[0] == slot[0]; }
  }

  // ---------- depositing the part ----------

  /** One file has moved to a free place and another has gone. */
  ghost predicate PartMoved(fs: Fs, g: Fs, part: Path, meta: Path, dest: Path) {
    && part in fs && fs[part].Blob? && dest !in fs
    && g.Keys == fs.Keys - {part, meta} + {dest} && g[dest] == fs[part]
    && (forall q <- g | q != dest :: g[q] == fs[q])
  }

  /** Depositing succeeds exactly when the part is still there, and then moves that one file. */
  lemma DepositLaw(fs: Fs, u: Upload, id: string)
    requires DiskInv(fs) && GoodUpload(u, id)
    requires (forall q <- fs :: !(Destination(u) <= q)) && Parent(Destination(u)) in fs
             && fs[Parent(Destination(u))] == Dir
    ensures var part, meta, dest := PartPath(u.device, u.space, id), MetaPath(u.device, u.space, id), Destination(u);
            var r := Deposit(fs, u, id);
            && (r.Ok? <==> part in fs)
            && (r.Ok? ==> DiskInv(r.value) && PartMoved(fs, r.value, part, meta, dest))
  {
    var part, meta, dest := PartPath(u.device, u.space, id), MetaPath(u.device, u.space, id), Destination(u);
    SessionNode(fs, u.device, u.space, id);
    if part in fs {
      PathsApart(u.device, u.space, id, u.device, u.space, id);
      assert dest[2] == u.rel[0] && dest[2] != STAGING;
      DepositMoves(fs, part, meta, dest);
      DepositShape(fs, u, id, Deposit(fs, u, id).value);
    }
  }

  lemma DepositMoves(fs: Fs, part: Path, meta: Path, dest: Path)
    requires IsTree(fs) && part in fs && fs[part].Blob? && (meta in fs ==> fs[meta].Meta?) && part != meta
    requires |part| == 4 && |meta| == 4 && |dest| >= 3 && part[2] != dest[2] && meta[2] != dest[2]
    requires (forall q <- fs :: !(dest <= q)) && Parent(dest) in fs && fs[Parent(dest)] == Dir
    ensures Rename(fs, part, dest).Ok?
    ensures IsTree(RemoveFile(Rename(fs, part, dest).value, meta))
    ensures PartMoved(fs, RemoveFile(Rename(fs, part, dest).value, meta), part, meta, dest)
  {
    hide IsTree, Rename;
    PartMoves(fs, part, dest);
    var moved := Rename(fs, part, dest).value;
    assert meta != dest && (meta in moved ==> moved[meta] == fs[meta]);
    MetaRemoved(moved, meta);
  }

  lemma PartMoves(fs: Fs, part: Path, dest: Path)
    requires IsTree(fs) && part in fs && fs[part].Blob?
    requires |part| == 4 && |dest| >= 3 && part[2] != dest[2]
    requires (forall q <- fs :: !(dest <= q)) && Parent(dest) in fs && fs[Parent(dest)] == Dir
    ensures dest !in fs && Rename(fs, part, dest).Ok?
    ensures var g := Rename(fs, part, dest).value;
            && IsTree(g) && g.Keys == fs.Keys - {part} + {dest} && g[dest] == fs[part]
            && (forall q <- g | q != dest :: g[q] == fs[q])
  {
    FileIsLeaf(fs, part);
    assert !(part <= dest) && !(dest <= part);
    assert dest !in fs by { assert dest <= dest; }
    RenameSucceeds(fs, part, dest);
    RenameIsTree(fs, part, dest);
    LeafMoved(fs, part, dest);
  }

  lemma LeafMoved(fs: Fs, part: Path, dest: Path)
    requires part in fs && !(part <= dest) && !(dest <= part)
    requires (forall q <- fs :: part <= q ==> q == part) && forall q <- fs :: !(dest <= q)
    ensures MoveTree(fs, part, dest).Keys == fs.Keys - {part} + {dest}
    ensures MoveTree(fs, part, dest)[dest] == fs[part]
    ensures forall q <- MoveTree(fs, part, dest) | q != dest :: MoveTree(fs, part, dest)[q] == fs[q]
  {
    var g := MoveTree(fs, part, dest);
    assert Relocated(dest, part, dest) == part;
    forall q <- g | dest <= q ensures q == dest {
      RelocatedBack(dest, part, q);
    }
  }

  lemma MetaRemoved(fs: Fs, meta: Path)
    requires IsTree(fs) && meta != [] && (meta in fs ==> fs[meta] != Dir)
    ensures IsTree(RemoveFile(fs, meta)) && RemoveFile(fs, meta).Keys == fs.Keys - {meta}
  {
    if meta in fs {
      FileIsLeaf(fs, meta);
      var g := RemoveFile(fs, meta);
      forall q <- g | q != [] ensures Parent(q) in g && g[Parent(q)] == Dir { }
    }
  }

  lemma DestOutside(u: Upload)
    requires Clean(u.rel)
    ensures |Destination(u)| >= 3 && Destination(u)[2] != STAGING && !Staged(Destination(u))
  {
    assert Destination(u)[2] == u.rel[0];
  }

  lemma DepositShape(fs: Fs, u: Upload, id: string, g: Fs)
    requires DiskInv(fs) && Clean(u.rel) && IsTree(g)
    requires PartMoved(fs, g, PartPath(u.device, u.space, id), MetaPath(u.device, u.space, id), Destination(u))
    ensures DiskInv(g)
  {
    hide IsTree, StagingShape, PartHasMeta, PartPath, MetaPath, Destination, Clean, Staged;
    var dest := Destination(u);
    DestOutside(u);
    forall p <- g | p != dest ensures p in fs && g[p] == fs[p] { }
    SiblingsStay(fs, u.device, u.space, id, dest, g);
    ShapeStays(fs, g, dest);
  }

  lemma ShapeStays(fs: Fs, g: Fs, dest: Path)
    requires StagingShape(fs) && dest in g && g[dest].Blob? && !Staged(dest) && forall p <- g | p != dest ::
               p in fs && g[p] == fs[p]
    ensures StagingShape(g)
  {
    hide Staged, IsSession, GoodMeta, IsValidDeviceId, IsValidSpace;
  }

  lemma SiblingsStay(fs: Fs, device: string, space: string, id: string, dest: Path, g: Fs)
    requires PartHasMeta(fs) && |dest| >= 3 && dest[2] != STAGING && dest !in fs
    requires g.Keys == fs.Keys - {PartPath(device, space, id), MetaPath(device, space, id)} + {dest}
    requires forall q <- g | q != dest :: g[q] == fs[q]
    ensures PartHasMeta(g)
  {
    forall d, t, i | IsValidDeviceId(d) && PartPath(d, t, i) in g
      ensures MetaPath(d, t, i) in g && g[MetaPath(d, t, i)].Meta?
    {
      assert PartPath(d, t, i)[2] == STAGING && MetaPath(d, t, i)[2] == STAGING;
      PathsApart(d, t, i, device, space, id);
      PathsApart(device, space, id, d, t, i);
    }
  }

  // ---------- one member ----------

  /** Everything a commit of one member does to the store, at the cost of what it overwrites in the bin. */
  ghost predicate Deposited(f: Store, g: Store, u: Upload, id: string, data: Bytes, lost: multiset<Bytes>) {
    var part, meta, dest := PartPath(u.device, u.space, id), MetaPath(u.device, u.space, id), Destination(u);
    && part in f.fs && f.fs[part] == Blob(data) && dest in g.fs && g.fs[dest] == Blob(data)
    && g.uploads == Without(f.uploads, id)
    && (forall q | Staged(q) ::
          (q in g.fs <==> q in f.fs && q != part && q != meta) && (q in g.fs ==> g.fs[q] == f.fs[q]))
    && (forall c :: Copies(g.fs, c) + lost[c] == Copies(f.fs, c) + (if c == data then 1 else 0))
    && (forall q <- g.fs | !Staged(q) && !g.fs[q].Dir? && q != dest ::
          exists o <- f.fs :: !Staged(o) && f.fs[o] == g.fs[q] && Owner(o) == Owner(q))
  }

  lemma DepositCounts(fs: Fs, g: Fs, u: Upload, id: string, data: Bytes)
    requires IsValidDeviceId(u.device) && Clean(u.rel)
    requires var part, meta, dest := PartPath(u.device, u.space, id), MetaPath(u.device, u.space, id), Destination(u);
             part in fs && fs[part] == Blob(data) && dest !in fs
             && g.Keys == fs.Keys - {part, meta} + {dest} && g[dest] == fs[part]
             && forall q <- g | q != dest :: g[q] == fs[q]
    ensures forall c :: Copies(g, c) == Copies(fs, c) + (if c == data then 1 else 0)
  {
    var part, meta, dest := PartPath(u.device, u.space, id), MetaPath(u.device, u.space, id), Destination(u);
    assert u.device[0] != '.' && Staged(part) && Staged(meta) && dest[2] == u.rel[0] && !Staged(dest);
    forall c ensures Copies(g, c) == Copies(fs, c) + (if c == data then 1 else 0) {
      OneMoreHolder(fs, g, part, meta, dest, data, c);
    }
  }

  /** Bytes leave staging for a place outside it. */
  lemma OneMoreHolder(fs: Fs, g: Fs, part: Path, meta: Path, dest: Path, data: Bytes, c: Bytes)
    requires Staged(part) && Staged(meta) && !Staged(dest) && dest !in fs && dest in g && g[dest] == Blob(data)
    requires (forall q <- fs | q != part && q != meta :: q in g) && forall q <- g | q != dest ::
               q in fs && g[q] == fs[q]
    ensures Copies(g, c) == Copies(fs, c) + (if c == data then 1 else 0)
  {
    hide Staged;
    assert Holders(g, c) == Holders(fs, c) + (if c == data then {dest} else {});
  }

  /** Committing one member keeps the invariant. Either it fails and only rearranges files, or its
      part is deposited and nothing else changes hands; in both cases all that is lost is the recycled
      file that making room replaced. */
  lemma CommitOneKeeps(s: Store, localId: string, p: Pending, stamp: Stamp)
    requires Inv(s) && GoodUpload(p.u, p.id) && DateSeg(stamp.date)
    ensures var (s', done) := CommitOne(s, localId, p, stamp);
            && Inv(s')
            && (!done ==> s'.uploads == s.uploads && Rearranged(s.fs, s'.fs, ClearLoss(s.fs, p.u, stamp)))
            && (done ==> exists data :: Deposited(s, s', p.u, p.id, data, ClearLoss(s.fs, p.u, stamp)))
  {
    hide Clear, ClearLoss, DiskInv, Deposit, CleanSeg, DateSeg, Copies;
    InvTree(s);
    ClearLaw(s.fs, localId, p.u, p.id, stamp);
    var (cleared, ok) := Clear(s.fs, localId, p.u, stamp);
    var mid, lost := s.(fs := cleared), ClearLoss(s.fs, p.u, stamp);
    ShuffleKeepsInv(s, cleared);
    if ok {
      DepositLaw(cleared, p.u, p.id);
      var r := Deposit(cleared, p.u, p.id);
      if r.Ok? {
        var part, dest := PartPath(p.u.device, p.u.space, p.id), Destination(p.u);
        var data := cleared[part].data;
        DepositedFrom(s, cleared, r.value, p.u, p.id, data, lost);
        DepositKeepsEntries(mid, r.value, p.u, p.id);
      }
    }
  }

  lemma DepositKeepsEntries(s: Store, g: Fs, u: Upload, id: string)
    requires Inv(s) && DiskInv(g) && IsValidDeviceId(u.device) && Clean(u.rel)
    requires var part, meta, dest := PartPath(u.device, u.space, id), MetaPath(u.device, u.space, id), Destination(u);
             g.Keys == s.fs.Keys - {part, meta} + {dest} && forall q <- g | q != dest :: g[q] == s.fs[q]
    ensures Inv(Store(g, Without(s.uploads, id)))
  {
    hide DiskInv, Clean, IsValidDeviceId, Destination, EntryOk;
    var part, meta, dest := PartPath(u.device, u.space, id), MetaPath(u.device, u.space, id), Destination(u);
    DestOutside(u);
    forall p | p != part && p != meta && Staged(p)
      ensures (p in g ==> p in s.fs && s.fs[p] == g[p]) && (p in s.fs ==> p in g)
    {
      assert p != dest;
    }
    hide Staged;
    EntriesFrame(s.fs, g, s.uploads, u.device, u.space, id);
  }

  lemma DepositedFrom(s: Store, cleared: Fs, g: Fs, u: Upload, id: string, data: Bytes, lost: multiset<Bytes>)
    requires IsTree(s.fs) && Rearranged(s.fs, cleared, lost) && IsValidDeviceId(u.device) && Clean(u.rel)
    requires var part, meta, dest := PartPath(u.device, u.space, id), MetaPath(u.device, u.space, id), Destination(u);
             part in cleared && cleared[part] == Blob(data) && dest !in cleared
             && g.Keys == cleared.Keys - {part, meta} + {dest} && g[dest] == cleared[part]
             && forall q <- g | q != dest :: g[q] == cleared[q]
    ensures Deposited(s, Store(g, Without(s.uploads, id)), u, id, data, lost)
  {
    var part, meta, dest := PartPath(u.device, u.space, id), MetaPath(u.device, u.space, id), Destination(u);
    assert u.device[0] != '.' && Staged(part) && Staged(meta) && dest[2] == u.rel[0] && !Staged(dest);
    DepositCounts(cleared, g, u, id, data);
    forall q <- g | !Staged(q) && !g[q].Dir? && q != dest
      ensures exists o <- s.fs :: !Staged(o) && s.fs[o] == g[q] && Owner(o) == Owner(q)
    {
      assert q in cleared && cleared[q] == g[q];
    }
  }
}
