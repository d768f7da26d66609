/** Begin, commit and gc_staging one file-system action at a time: what a crash can leave behind. */
module Crash {
  import opened Wrappers
  import opened Paths
  import opened FileSystem
  import opened Layout
  import opened Recycle
  import opened RecycleLaws
  import opened Staging
  import opened StagingLaws
  import opened CommitLaws

  datatype Act =
    | MakeDirs(dir: Path)
    | WriteMeta(path: Path, meta: StagingMeta)
    | OpenPart(path: Path)
    | Enter(id: string, u: Upload)
    | Move(src: Path, dst: Path)
    | Unlink(path: Path)
    | Forget(id: string)

  function Do(s: Store, a: Act): Store {
    match a
    case MakeDirs(dir) => if CanMkdirs(s.fs, dir) then s.(fs := Mkdirs(s.fs, dir)) else s
    case WriteMeta(path, meta) => s.(fs := s.fs[path := Meta(meta)])
    case OpenPart(path) => if path in s.fs then s else s.(fs := s.fs[path := Blob([])])
    case Enter(id, u) => s.(uploads := s.uploads[id := u])
    case Move(src, dst) => (match Rename(s.fs, src, dst) case Ok(fs) => s.(fs := fs) case Err(_) => s)
    case Unlink(path) => s.(fs := RemoveFile(s.fs, path))
    case Forget(id) => s.(uploads := Without(s.uploads, id))
  }

  function DoAll(s: Store, acts: seq<Act>): Store {
    if acts == [] then s else Do(DoAll(s, acts[..|acts| - 1]), acts[|acts| - 1])
  }

  /** What is found after a crash: the disk as it was, the table gone. */
  function Crashed(s: Store): Store {
    s.(uploads := map[])
  }

  lemma CrashedHolds(s: Store)
    requires DiskInv(s.fs)
    ensures Inv(Crashed(s))
  {
  }

  // ---------- write.begin ----------

  /** The actions of a begin that got past its checks, given that its directory can be made. */
  function BeginActs(s: Store, caller: string, space: string, declared: StagingMeta, id: string): seq<Act> {
    var dir := [caller, space, STAGING];
    var part, meta := PartPath(caller, space, id), MetaPath(caller, space, id);
    if meta in s.fs && s.fs[meta].Meta? then
      var m := s.fs[meta].meta;
      if m.rel != declared.rel || m.size != declared.size || (m.sha != "" && m.sha != declared.sha) then [MakeDirs(dir)]
      else [MakeDirs(dir), Enter(id, Upload(caller, space, m.rel, m.size, m.sha, PartLength(s.fs, part)))]
    else
      [MakeDirs(dir), WriteMeta(meta, declared), OpenPart(part),
       Enter(id, Upload(caller, space, declared.rel, declared.size, declared.sha, 0))]
  }

  lemma DoOne(s: Store, acts: seq<Act>, k: nat)
    requires k < |acts|
    ensures DoAll(s, acts[..k + 1]) == Do(DoAll(s, acts[..k]), acts[k])
  {
    assert acts[..k + 1][..k] == acts[..k];
  }

  /** The states a begin goes through. */
  function BeginState(s: Store, caller: string, space: string, declared: StagingMeta, id: string, k: nat): Store {
    var acts := BeginActs(s, caller, space, declared, id);
    var made := Mkdirs(s.fs, [caller, space, STAGING]);
    var part, meta := PartPath(caller, space, id), MetaPath(caller, space, id);
    var fs :=
      if k == 0 then s.fs
      else if k == 1 || meta in s.fs then made
      else if k == 2 then made[meta := Meta(declared)]
      else made[meta := Meta(declared)][part := Blob([])];
    Store(fs, if k == |acts| && acts[k - 1].Enter? then s.uploads[id := acts[k - 1].u] else s.uploads)
  }

  lemma BeginFacts(s: Store, caller: string, space: string, id: string)
    requires Inv(s) && IsValidDeviceId(caller) && IsValidSpace(space) && CanMkdirs(s.fs, [caller, space, STAGING])
    ensures var made := Mkdirs(s.fs, [caller, space, STAGING]);
            var part, meta := PartPath(caller, space, id), MetaPath(caller, space, id);
            && (meta in s.fs ==> s.fs[meta].Meta?)
            && (meta in made <==> meta in s.fs) && (part in made <==> part in s.fs)
            && (meta in s.fs ==> made[meta] == s.fs[meta]) && (part in s.fs ==> made[part] == s.fs[part])
            && (part in s.fs ==> meta in s.fs && s.fs[part].Blob?) && part != meta
  {
    StagingDirs(s.fs, caller, space);
    SessionNode(s.fs, caller, space, id);
    PathsApart(caller, space, id, caller, space, id);
  }

  lemma {:induction false} BeginActsStates(s: Store, caller: string, space: string, declared: StagingMeta, id: string,
                                           k: nat)
    requires Inv(s) && IsValidDeviceId(caller) && IsValidSpace(space) && CanMkdirs(s.fs, [caller, space, STAGING])
    requires k <= |BeginActs(s, caller, space, declared, id)|
    ensures DoAll(s, BeginActs(s, caller, space, declared, id)[..k]) == BeginState(s, caller, space, declared, id, k)
  {
    hide Inv, CanMkdirs;
    BeginFacts(s, caller, space, id);
    var acts := BeginActs(s, caller, space, declared, id);
    if k == 0 {
      assert acts[..0] == [];
    } else {
      BeginActsStates(s, caller, space, declared, id, k - 1);
      DoOne(s, acts, k - 1);
      BeginOne(s, caller, space, declared, id, k);
    }
  }

  lemma BeginOne(s: Store, caller: string, space: string, declared: StagingMeta, id: string, k: nat)
    requires 1 <= k <= |BeginActs(s, caller, space, declared, id)| && CanMkdirs(s.fs, [caller, space, STAGING])
    requires var made := Mkdirs(s.fs, [caller, space, STAGING]);
             var part, meta := PartPath(caller, space, id), MetaPath(caller, space, id);
             && (meta in s.fs ==> s.fs[meta].Meta?) && part != meta
             && (part in made <==> part in s.fs) && (part in s.fs ==> meta in s.fs)
    ensures Do(BeginState(s, caller, space, declared, id, k - 1), BeginActs(s, caller, space, declared, id)[k - 1])
            == BeginState(s, caller, space, declared, id, k)
  {
    hide CanMkdirs;
  }

  /** At every point of a begin the disk is sound: no part without its meta file. Whatever a crash
      leaves, a later begin on it finds either nothing or bytes it can account for. */
  lemma BeginCrashSafe(s: Store, caller: string, space: string, declared: StagingMeta, id: string, k: nat)
    requires Inv(s) && IsValidDeviceId(caller) && IsValidSpace(space) && ValidUploadId(id) && GoodMeta(declared)
    requires CanMkdirs(s.fs, [caller, space, STAGING]) && k <= |BeginActs(s, caller, space, declared, id)|
    ensures Inv(Crashed(DoAll(s, BeginActs(s, caller, space, declared, id)[..k])))
  {
    hide DoAll, DiskInv, CanMkdirs, BeginState, ValidUploadId, GoodMeta;
    BeginActsStates(s, caller, space, declared, id, k);
    BeginStateDisk(s, caller, space, declared, id, k);
    CrashedHolds(BeginState(s, caller, space, declared, id, k));
  }

  lemma BeginStateDisk(s: Store, caller: string, space: string, declared: StagingMeta, id: string, k: nat)
    requires Inv(s) && IsValidDeviceId(caller) && IsValidSpace(space) && ValidUploadId(id) && GoodMeta(declared)
    requires CanMkdirs(s.fs, [caller, space, STAGING])
    ensures DiskInv(BeginState(s, caller, space, declared, id, k).fs)
  {
    StagingDirs(s.fs, caller, space);
    BeginFacts(s, caller, space, id);
    if MetaPath(caller, space, id) !in s.fs {
      FreshBegin(Mkdirs(s.fs, [caller, space, STAGING]), caller, space, id, declared);
    }
    hide DiskInv, CanMkdirs, BeginActs;
  }

  /** The actions, run to the end, are write.begin. */
  lemma BeginActsRefine(s: Store, caller: string, space: string, path: string, size: int, sha: string, id: string,
                        now: int)
    requires Inv(s) && IsValidDeviceId(caller) && IsValidSpace(space)
    requires BeginError(path, size, sha, id).None? && CanMkdirs(s.fs, [caller, space, STAGING])
    ensures DoAll(s, BeginActs(s, caller, space, StagingMeta(Normalize(path).value, size, sha, now), id))
            == Begin(s, caller, space, path, size, sha, id, now).0
  {
    var declared := StagingMeta(Normalize(path).value, size, sha, now);
    var acts := BeginActs(s, caller, space, declared, id);
    hide Inv, DoAll, Begin, Normalize;
    BeginActsStates(s, caller, space, declared, id, |acts|);
    BeginFacts(s, caller, space, id);
    assert acts[..|acts|] == acts;
    BeginIsBeginAt(s, caller, space, path, size, sha, id, now);
    BeginStateEnds(s, caller, space, declared, id);
    hide BeginState, BeginAt, BeginActs, CanMkdirs, BeginError;
  }

  lemma BeginStateEnds(s: Store, caller: string, space: string, declared: StagingMeta, id: string)
    requires var made := Mkdirs(s.fs, [caller, space, STAGING]);
             var part, meta := PartPath(caller, space, id), MetaPath(caller, space, id);
             && (meta in s.fs ==> s.fs[meta].Meta?) && (meta in made <==> meta in s.fs)
             && (part in made <==> part in s.fs) && (part in s.fs ==> meta in s.fs) && part != meta
    ensures BeginState(s, caller, space, declared, id, |BeginActs(s, caller, space, declared, id)|)
            == BeginAt(s.(fs := Mkdirs(s.fs, [caller, space, STAGING])), caller, space, declared, id).0
  {
  }

  lemma BeginIsBeginAt(s: Store, caller: string, space: string, path: string, size: int, sha: string, id: string,
                       now: int)
    requires BeginError(path, size, sha, id).None? && CanMkdirs(s.fs, [caller, space, STAGING])
    ensures Begin(s, caller, space, path, size, sha, id, now).0 ==
            BeginAt(s.(fs := Mkdirs(s.fs, [caller, space, STAGING])), caller, space,
                    StagingMeta(Normalize(path).value, size, sha, now), id).0
  {
  }

  lemma {:induction false} DoAllAppend(s: Store, a: seq<Act>, b: seq<Act>)
    ensures DoAll(s, a + b) == DoAll(DoAll(s, a), b)
  {
    if b == [] {
      assert a + b == a;
    } else {
      var c := b[..|b| - 1];
      DoAllAppend(s, a, c);
      assert (a + b)[..|a + b| - 1] == a + c;
    }
  }

  // ---------- commit of one member ----------

  /** The actions that make room at the destination, as far as they go. */
  function ClearActs(fs: Fs, u: Upload, stamp: Stamp): seq<Act>
    requires u.rel != []
  {
    var dest, slot := Destination(u), ChosenSlot(fs, u.device, u.space, u.rel, stamp);
    if !CanMkdirs(fs, Parent(dest)) then []
    else if dest !in fs || TildeOrDrive(u.rel[0]) || !Transfer(fs, dest, slot, Plain).1 then [MakeDirs(Parent(dest))]
    else [MakeDirs(Parent(dest)), MakeDirs(Parent(slot)), Move(dest, slot)]
  }

  function DepositActs(u: Upload, id: string): seq<Act> {
    [Move(PartPath(u.device, u.space, id), Destination(u)), Unlink(MetaPath(u.device, u.space, id)), Forget(id)]
  }

  function CommitActs(fs: Fs, localId: string, u: Upload, id: string, stamp: Stamp): seq<Act>
    requires u.rel != []
  {
    ClearActs(fs, u, stamp)
    + (if Clear(fs, localId, u, stamp).1 && PartPath(u.device, u.space, id) in fs then DepositActs(u, id) else [])
  }

  /** What the first k of these actions have destroyed. */
  function LossAt(fs: Fs, u: Upload, stamp: Stamp, k: nat): multiset<Bytes> {
    if k >= 3 && u.rel != [] then ClearLoss(fs, u, stamp) else multiset{}
  }

  /** Every state on the way to a clear destination is the first one rearranged. */
  lemma ClearActsKeep(s: Store, localId: string, u: Upload, id: string, stamp: Stamp, k: nat)
    requires IsTree(s.fs) && GoodUpload(u, id) && DateSeg(stamp.date) && k <= |ClearActs(s.fs, u, stamp)|
    ensures var g := DoAll(s, ClearActs(s.fs, u, stamp)[..k]);
            Rearranged(s.fs, g.fs, LossAt(s.fs, u, stamp, k)) && g.uploads == s.uploads
    ensures k == |ClearActs(s.fs, u, stamp)| ==>
              && DoAll(s, ClearActs(s.fs, u, stamp)[..k]).fs == Clear(s.fs, localId, u, stamp).0
              && LossAt(s.fs, u, stamp, k) == ClearLoss(s.fs, u, stamp)
  {
    hide Shuffled, Rearranged, ClearLoss, DateSeg, CleanSeg, Do, Transfer, Clear, DoAll, IsTree;
    var acts := ClearActs(s.fs, u, stamp);
    ShuffledSelf(s.fs);
    NothingLost(s.fs, s.fs);
    if |acts| < 3 { StoppedLoss(s.fs, u, id, stamp); }
    if k == 0 {
      assert acts[..0] == [];
      NoActs(s);
      if |acts| == 0 { UnmadeClear(s.fs, localId, u, stamp); }
    } else {
      MadeSame(s.fs, u, id, stamp);
      NothingLost(s.fs, Mkdirs(s.fs, Parent(Destination(u))));
      DoFirst(s, acts, k);
      if |acts| == 3 {
        ClearedByActs(s, localId, u, id, stamp, k);
      } else {
        DirsMade(s, Parent(Destination(u)));
        StoppedClear(s.fs, localId, u, id, stamp);
      }
    }
  }

  lemma UnmadeClear(fs: Fs, localId: string, u: Upload, stamp: Stamp)
    requires !CanMkdirs(fs, Parent(Destination(u)))
    ensures Clear(fs, localId, u, stamp).0 == fs
  {
  }

  lemma DirsMade(s: Store, dir: Path)
    requires CanMkdirs(s.fs, dir)
    ensures Do(s, MakeDirs(dir)) == s.(fs := Mkdirs(s.fs, dir))
  {
  }

  /** Only a rename that goes through destroys anything. */
  lemma StoppedLoss(fs: Fs, u: Upload, id: string, stamp: Stamp)
    requires IsTree(fs) && GoodUpload(u, id) && |ClearActs(fs, u, stamp)| < 3
    ensures ClearLoss(fs, u, stamp) == multiset{}
  {
    hide IsTree, Transfer, CleanSeg, CanMkdirs, Relocatable, TildeOrDrive;
    var dest, slot := Destination(u), ChosenSlot(fs, u.device, u.space, u.rel, stamp);
    LossIff(fs, u, stamp);
    assert dest == Official(u.device, u.space, u.rel);
    if dest in fs {
      ParentMakeable(fs, dest);
      BinSlot(fs, u, stamp);
      if slot in fs {
        TransferOnto(fs, dest, slot);
        FileHasNoChildren(fs, slot);
      }
    }
  }

  lemma DoFirst(s: Store, acts: seq<Act>, k: nat)
    requires 1 <= k <= |acts|
    ensures k == 1 ==> DoAll(s, acts[..k]) == Do(s, acts[0])
    ensures k == 2 ==> DoAll(s, acts[..k]) == Do(Do(s, acts[0]), acts[1])
    ensures k == 3 ==> DoAll(s, acts[..k]) == Do(Do(Do(s, acts[0]), acts[1]), acts[2])
  {
    assert acts[..0] == [];
    DoOne(s, acts, 0);
    if k >= 2 { DoOne(s, acts, 1); }
    if k >= 3 { DoOne(s, acts, 2); }
    hide DoAll, Do;
  }

  /** Clear on an occupied destination, without strings. */
  lemma ClearDisplaces(fs: Fs, localId: string, u: Upload, id: string, stamp: Stamp)
    requires IsTree(fs) && GoodUpload(u, id) && DateSeg(stamp.date)
    requires CanMkdirs(fs, Parent(Destination(u))) && Destination(u) in fs
    ensures var dest, slot := Destination(u), ChosenSlot(fs, u.device, u.space, u.rel, stamp);
            && Mkdirs(fs, Parent(dest)) == fs
            && Clear(fs, localId, u, stamp) == if TildeOrDrive(u.rel[0]) then (fs, false)
               else Transfer(fs, dest, slot, Plain)
  {
    hide Shuffled, IsTree, Clean, DateSeg, MoveToRecycle, Transfer, TildeOrDrive;
    MadeSame(fs, u, id, stamp);
    MoveToRecycleClean(fs, localId, u.device, u.space, u.rel, stamp);
    assert Destination(u) == Official(u.device, u.space, u.rel);
  }

  lemma StoppedClear(fs: Fs, localId: string, u: Upload, id: string, stamp: Stamp)
    requires IsTree(fs) && GoodUpload(u, id) && DateSeg(stamp.date) && |ClearActs(fs, u, stamp)| == 1
    ensures Clear(fs, localId, u, stamp).0 == Mkdirs(fs, Parent(Destination(u)))
  {
    hide Shuffled, KeepsOwner, IsTree, Clean, DateSeg, MoveToRecycle, Transfer, TildeOrDrive, NothingOverwritten,
      Rearranged;
    if Destination(u) in fs {
      ClearLaw(fs, localId, u, id, stamp);
      ClearDisplaces(fs, localId, u, id, stamp);
    } else {
      MadeSame(fs, u, id, stamp);
    }
  }

  lemma ClearedByActs(s: Store, localId: string, u: Upload, id: string, stamp: Stamp, k: nat)
    requires IsTree(s.fs) && GoodUpload(u, id) && DateSeg(stamp.date)
    requires |ClearActs(s.fs, u, stamp)| == 3 && 1 <= k <= 3
    ensures var acts := ClearActs(s.fs, u, stamp);
            var one := Do(s, acts[0]);
            var two := Do(one, acts[1]);
            var g := if k == 1 then one else if k == 2 then two else Do(two, acts[2]);
            && Rearranged(s.fs, g.fs, LossAt(s.fs, u, stamp, k)) && g.uploads == s.uploads
            && (k == 3 ==> g.fs == Clear(s.fs, localId, u, stamp).0)
  {
    var dest, slot := Destination(u), ChosenSlot(s.fs, u.device, u.space, u.rel, stamp);
    hide Shuffled, Rearranged, KeepsOwner, Do, Clear, Transfer, ClearLoss, IsTree, CleanSeg, DateSeg, CanMkdirs;
    MadeSame(s.fs, u, id, stamp);
    ShuffledSelf(s.fs);
    NothingLost(s.fs, s.fs);
    DisplacingTransfer(s.fs, localId, u, id, stamp);
    NothingLost(s.fs, Mkdirs(s.fs, Parent(slot)));
    TransferByActs(s, dest, slot);
    FirstActIdle(s, Parent(dest));
  }

  lemma FirstActIdle(s: Store, dir: Path)
    requires CanMkdirs(s.fs, dir) && Mkdirs(s.fs, dir) == s.fs
    ensures Do(s, MakeDirs(dir)) == s
  {
  }

  lemma TransferByActs(s: Store, src: Path, dst: Path)
    requires dst != [] && Transfer(s.fs, src, dst, Plain).1
    ensures var one := Do(s, MakeDirs(Parent(dst)));
            one == s.(fs := Mkdirs(s.fs, Parent(dst)))
              && Do(one, Move(src, dst)) == s.(fs := Transfer(s.fs, src, dst, Plain).0)
  {
  }

  lemma DisplacingTransfer(fs: Fs, localId: string, u: Upload, id: string, stamp: Stamp)
    requires IsTree(fs) && GoodUpload(u, id) && DateSeg(stamp.date) && |ClearActs(fs, u, stamp)| == 3
    ensures var dest, slot := Destination(u), ChosenSlot(fs, u.device, u.space, u.rel, stamp);
            && slot != [] && Transfer(fs, dest, slot, Plain).1
               && Transfer(fs, dest, slot, Plain).0 == Clear(fs, localId, u, stamp).0
            && Shuffled(fs, Mkdirs(fs, Parent(slot)))
            && Rearranged(fs, Transfer(fs, dest, slot, Plain).0, ClearLoss(fs, u, stamp))
  {
    hide Shuffled, Rearranged, ClearLoss, KeepsOwner, IsTree, CleanSeg, DateSeg, MoveToRecycle, Transfer, TildeOrDrive,
      NothingOverwritten, Clear, Relocatable;
    var dest, slot := Destination(u), ChosenSlot(fs, u.device, u.space, u.rel, stamp);
    ClearDisplaces(fs, localId, u, id, stamp);
    ClearLaw(fs, localId, u, id, stamp);
    BinSlot(fs, u, stamp);
    TransferNeedsDirs(fs, dest, slot);
    BinDirs(fs, slot);
  }

  lemma TransferNeedsDirs(fs: Fs, src: Path, dst: Path)
    requires dst != [] && Transfer(fs, src, dst, Plain).1
    ensures CanMkdirs(fs, Parent(dst))
  {
  }

  lemma BinDirs(fs: Fs, slot: Path)
    requires IsTree(fs) && InRecycle(slot) && CanMkdirs(fs, Parent(slot))
    ensures Shuffled(fs, Mkdirs(fs, Parent(slot)))
  {
    forall q | q <= Parent(slot) ensures !Staged(q) { if q != [] { assert q[0] == slot[0]; } }
    MkdirsShuffles(fs, Parent(slot));
  }

  /** g has lost staging files of one upload, its part at least, and nothing else. */
  ghost predicate LacksPart(f: Fs, g: Fs, part: Path, meta: Path) {
    && IsTree(g) && part !in g
    && (forall p <- g :: (p in f && g[p] == f[p]) || (!Staged(p) && g[p].Blob?))
    && (forall p <- f | Staged(p) && p != part && p != meta :: p in g)
  }

  /** Losing staging files of one upload, the part first, keeps the invariant. */
  lemma PartGone(s: Store, g: Fs, device: string, space: string, id: string)
    requires Inv(s) && IsValidDeviceId(device)
    requires LacksPart(s.fs, g, PartPath(device, space, id), MetaPath(device, space, id))
    ensures Inv(s.(fs := g))
  {
    var part, meta := PartPath(device, space, id), MetaPath(device, space, id);
    assert device[0] != '.' && Staged(part) && Staged(meta);
    EntriesFrame(s.fs, g, s.uploads, device, space, id);
    forall d, t, i | IsValidDeviceId(d) && PartPath(d, t, i) in g
      ensures MetaPath(d, t, i) in g && g[MetaPath(d, t, i)].Meta?
    {
      assert d[0] != '.' && Staged(PartPath(d, t, i)) && Staged(MetaPath(d, t, i));
      PathsApart(d, t, i, device, space, id);
      PathsApart(device, space, id, d, t, i);
    }
    forall i <- s.uploads ensures EntryOk(g, i, s.uploads[i]) {
      assert EntryOk(s.fs, i, s.uploads[i]);
    }
  }

  lemma WithoutKeepsInv(s: Store, id: string)
    requires Inv(s)
    ensures Inv(s.(uploads := Without(s.uploads, id)))
  {
  }

  /** Every state of depositing a part keeps the invariant. */
  lemma DepositActsSafe(s: Store, u: Upload, id: string, k: nat)
    requires Inv(s) && GoodUpload(u, id) && PartPath(u.device, u.space, id) in s.fs && k <= 3
    requires (forall q <- s.fs :: !(Destination(u) <= q)) && Parent(Destination(u)) in s.fs
             && s.fs[Parent(Destination(u))] == Dir
    ensures Inv(DoAll(s, DepositActs(u, id)[..k]))
    ensures Deposit(s.fs, u, id).Ok?
    ensures k == 3 ==> DoAll(s, DepositActs(u, id)[..k]) == Store(Deposit(s.fs, u, id).value, Without(s.uploads, id))
  {
    hide DoAll, Inv;
    var acts := DepositActs(u, id);
    DepositStates(s, u, id);
    if k == 0 { assert acts[..0] == []; NoActs(s); } else { DoFirst(s, acts, k); }
  }

  lemma NoActs(s: Store)
    ensures DoAll(s, []) == s
  {
  }

  lemma DepositStates(s: Store, u: Upload, id: string)
    requires Inv(s) && GoodUpload(u, id) && PartPath(u.device, u.space, id) in s.fs
    requires (forall q <- s.fs :: !(Destination(u) <= q)) && Parent(Destination(u)) in s.fs
             && s.fs[Parent(Destination(u))] == Dir
    ensures var acts := DepositActs(u, id);
            var one := Do(s, acts[0]);
            var two := Do(one, acts[1]);
            var three := Do(two, acts[2]);
            && Inv(one) && Inv(two) && Inv(three) && Deposit(s.fs, u, id).Ok?
            && three == Store(Deposit(s.fs, u, id).value, Without(s.uploads, id))
  {
    hide Inv, Rename, RemoveFile, GoodUpload, HasChildren, Parent;
    var moved := DepositDisk(s, u, id);
    WithoutKeepsInv(s.(fs := RemoveFile(moved, MetaPath(u.device, u.space, id))), id);
  }

  lemma DepositDisk(s: Store, u: Upload, id: string) returns (moved: Fs)
    requires Inv(s) && GoodUpload(u, id) && PartPath(u.device, u.space, id) in s.fs
    requires (forall q <- s.fs :: !(Destination(u) <= q)) && Parent(Destination(u)) in s.fs
             && s.fs[Parent(Destination(u))] == Dir
    ensures Rename(s.fs, PartPath(u.device, u.space, id), Destination(u)) == Ok(moved)
    ensures Inv(s.(fs := moved)) && Inv(s.(fs := RemoveFile(moved, MetaPath(u.device, u.space, id))))
  {
    hide Inv, Rename, RemoveFile, HasChildren, Parent, IsTree;
    moved := DepositMoved(s, u, id);
    PartGone(s, moved, u.device, u.space, id);
    PartGone(s, RemoveFile(moved, MetaPath(u.device, u.space, id)), u.device, u.space, id);
  }

  lemma DepositMoved(s: Store, u: Upload, id: string) returns (moved: Fs)
    requires Inv(s) && GoodUpload(u, id) && PartPath(u.device, u.space, id) in s.fs
    requires (forall q <- s.fs :: !(Destination(u) <= q)) && Parent(Destination(u)) in s.fs
             && s.fs[Parent(Destination(u))] == Dir
    ensures Rename(s.fs, PartPath(u.device, u.space, id), Destination(u)) == Ok(moved)
    ensures var part, meta := PartPath(u.device, u.space, id), MetaPath(u.device, u.space, id);
            LacksPart(s.fs, moved, part, meta) && LacksPart(s.fs, RemoveFile(moved, meta), part, meta)
  {
    var part, meta, dest := PartPath(u.device, u.space, id), MetaPath(u.device, u.space, id), Destination(u);
    hide Rename, IsTree, RemoveFile, PartHasMeta, StagingShape, EntryOk, LacksPart, PartPath, MetaPath, Destination,
      Clean, HasChildren;
    OwnFacts(s, u, id);
    PartMoves(s.fs, part, dest);
    DepositMoves(s.fs, part, meta, dest);
    moved := Rename(s.fs, part, dest).value;
    LacksFrom(s.fs, moved, part, meta, dest);
    LacksFrom(s.fs, RemoveFile(moved, meta), part, meta, dest);
  }

  lemma OwnFacts(s: Store, u: Upload, id: string)
    requires Inv(s) && GoodUpload(u, id) && PartPath(u.device, u.space, id) in s.fs
    ensures var part, meta, dest := PartPath(u.device, u.space, id), MetaPath(u.device, u.space, id), Destination(u);
            && s.fs[part].Blob? && (meta in s.fs ==> s.fs[meta].Meta?) && part != meta && IsTree(s.fs)
            && |part| == 4 && |meta| == 4 && |dest| >= 3 && part[2] != dest[2] && meta[2] != dest[2] && !Staged(dest)
  {
    SessionNode(s.fs, u.device, u.space, id);
    PathsApart(u.device, u.space, id, u.device, u.space, id);
    assert Destination(u)[2] == u.rel[0];
  }

  lemma LacksFrom(f: Fs, g: Fs, part: Path, meta: Path, dest: Path)
    requires IsTree(g) && part in f && f[part].Blob? && part != dest && !Staged(dest)
    requires part !in g && (forall p <- f | p != part && p != meta :: p in g) && (forall p <- g | p != dest :: p in f)
    requires dest in g && g[dest] == f[part] && forall q <- g | q != dest :: g[q] == f[q]
    ensures LacksPart(f, g, part, meta)
  {
  }

  lemma WithinAppend(s: Store, a: seq<Act>, b: seq<Act>, k: nat)
    requires k <= |a| + |b|
    ensures DoAll(s, (a + b)[..k]) == if k <= |a| then DoAll(s, a[..k]) else DoAll(DoAll(s, a[..|a|]), b[..k - |a|])
  {
    hide DoAll;
    if k <= |a| {
      assert (a + b)[..k] == a[..k];
    } else {
      assert (a + b)[..k] == a + b[..k - |a|] && a[..|a|] == a;
      DoAllAppend(s, a, b[..k - |a|]);
    }
  }

  lemma ClearActsSafe(s: Store, localId: string, u: Upload, id: string, stamp: Stamp, k: nat)
    requires Inv(s) && GoodUpload(u, id) && DateSeg(stamp.date) && k <= |ClearActs(s.fs, u, stamp)|
    ensures var g := DoAll(s, ClearActs(s.fs, u, stamp)[..k]);
            && Inv(g) && Rearranged(s.fs, g.fs, LossAt(s.fs, u, stamp, k))
            && (k == |ClearActs(s.fs, u, stamp)| ==>
                  g == s.(fs := Clear(s.fs, localId, u, stamp).0)
                    && LossAt(s.fs, u, stamp, k) == ClearLoss(s.fs, u, stamp))
  {
    ClearActsKeep(s, localId, u, id, stamp, k);
    var g := DoAll(s, ClearActs(s.fs, u, stamp)[..k]);
    assert g == s.(fs := g.fs);
    hide DoAll, ClearActs, Clear, Resettled, GoodUpload, ClearLoss, Copies;
    ShuffleKeepsInv(s, g.fs);
  }

  lemma ReadyToDeposit(fs: Fs, localId: string, u: Upload, id: string, stamp: Stamp)
    requires IsTree(fs) && GoodUpload(u, id) && DateSeg(stamp.date)
    ensures var (cleared, ok) := Clear(fs, localId, u, stamp);
            && (PartPath(u.device, u.space, id) in cleared <==> PartPath(u.device, u.space, id) in fs)
            && (ok ==>
                  && (forall q <- cleared :: !(Destination(u) <= q))
                  && Parent(Destination(u)) in cleared && cleared[Parent(Destination(u))] == Dir)
  {
    hide Clear, ClearLoss, Copies, SameOwners, IsTree, NothingOverwritten, ChosenSlot, Shuffled, DateSeg, Destination,
      CleanSeg, Relocated;
    ClearLaw(fs, localId, u, id, stamp);
    assert u.device[0] != '.' && Staged(PartPath(u.device, u.space, id));
  }

  /** What the end of the actions has to do with CommitOne. */
  lemma CommitEnds(s: Store, localId: string, p: Pending, stamp: Stamp)
    requires Inv(s) && GoodUpload(p.u, p.id) && DateSeg(stamp.date)
    ensures var (cleared, ok) := Clear(s.fs, localId, p.u, stamp);
            CommitOne(s, localId, p, stamp).0 ==
              if ok && PartPath(p.u.device, p.u.space, p.id) in s.fs then
                (if Deposit(cleared, p.u, p.id).Ok? then Store(Deposit(cleared, p.u, p.id).value,
                                                               Without(s.uploads, p.id)) else s.(fs := cleared))
              else s.(fs := cleared)
  {
    ReadyToDeposit(s.fs, localId, p.u, p.id, stamp);
    hide Clear;
  }

  lemma CrashedKeeps(s: Store)
    requires Inv(s)
    ensures Inv(Crashed(s))
  {
  }

  /** At every point of committing one member the whole invariant holds, for the table too: a
      crash, or a look at the state, never finds a part without its meta file or a wrong count.
      Run to the end, the actions are the commit. */
  lemma CommitCrashSafe(s: Store, localId: string, p: Pending, stamp: Stamp, k: nat)
    requires Inv(s) && GoodUpload(p.u, p.id) && DateSeg(stamp.date)
    requires k <= |CommitActs(s.fs, localId, p.u, p.id, stamp)|
    ensures var acts := CommitActs(s.fs, localId, p.u, p.id, stamp);
            && Inv(DoAll(s, acts[..k])) && Inv(Crashed(DoAll(s, acts[..k])))
            && (k == |acts| ==> DoAll(s, acts[..k]) == CommitOne(s, localId, p, stamp).0)
  {
    hide DoAll, Inv, Clear, ClearActs, Deposit, CommitOne, IsTree, Rearranged, DateSeg, Crashed;
    var a := ClearActs(s.fs, p.u, stamp);
    var acts := CommitActs(s.fs, localId, p.u, p.id, stamp);
    var b := acts[|a|..];
    assert acts == a + b;
    InvTree(s);
    WithinAppend(s, a, b, k);
    CommitEnds(s, localId, p, stamp);
    ReadyToDeposit(s.fs, localId, p.u, p.id, stamp);
    ClearActsSafe(s, localId, p.u, p.id, stamp, |a|);
    if k <= |a| {
      ClearActsSafe(s, localId, p.u, p.id, stamp, k);
    } else {
      var mid := DoAll(s, a[..|a|]);
      assert b == DepositActs(p.u, p.id);
      DepositActsSafe(mid, p.u, p.id, k - |a|);
    }
    CrashedKeeps(DoAll(s, acts[..k]));
  }

  // ---------- gc_staging of one upload ----------

  /** Collecting one upload: part, meta file, table entry, in that order. */
  function CollectActs(device: string, space: string, id: string): seq<Act> {
    [Unlink(PartPath(device, space, id)), Unlink(MetaPath(device, space, id)), Forget(id)]
  }

  /** At every point of collecting one upload the whole invariant holds: the part goes before its
      meta file. */
  lemma CollectCrashSafe(s: Store, device: string, space: string, id: string, k: nat)
    requires Inv(s) && IsValidDeviceId(device) && k <= 3
    ensures Inv(DoAll(s, CollectActs(device, space, id)[..k]))
            && Inv(Crashed(DoAll(s, CollectActs(device, space, id)[..k])))
  {
    hide DoAll, Inv, Crashed;
    var acts := CollectActs(device, space, id);
    CollectStates(s, device, space, id);
    if k == 0 { assert acts[..0] == []; NoActs(s); } else { DoFirst(s, acts, k); }
    CrashedKeeps(DoAll(s, acts[..k]));
  }

  lemma CollectStates(s: Store, device: string, space: string, id: string)
    requires Inv(s) && IsValidDeviceId(device)
    ensures var acts := CollectActs(device, space, id);
            var one := Do(s, acts[0]);
            var two := Do(one, acts[1]);
            Inv(one) && Inv(two) && Inv(Do(two, acts[2]))
  {
    var part, meta := PartPath(device, space, id), MetaPath(device, space, id);
    SessionNode(s.fs, device, space, id);
    PathsApart(device, space, id, device, space, id);
    MetaRemoved(s.fs, part);
    var one := RemoveFile(s.fs, part);
    MetaRemoved(one, meta);
    hide IsTree, Inv;
    PartGone(s, one, device, space, id);
    PartGone(s, RemoveFile(one, meta), device, space, id);
    WithoutKeepsInv(s.(fs := RemoveFile(one, meta)), id);
  }
}
