/** Where reserved names may stand, and what any move of unstaged nodes keeps. */
module Tidiness {
  import opened Wrappers
  import opened Paths
  import opened FileSystem
  import opened Layout
  import opened Recycle
  import opened RecycleLaws

  // ---------- where things are ----------

  /** ".staging" and ".recycle" only where they belong, and dates below the bin. */
  predicate TidyPath(p: Path) {
    && (forall i :: 1 <= i < |p| ==> p[i] != STAGING && p[i] != RECYCLE)
    && (|p| >= 2 && p[0] == RECYCLE ==> DateSeg(p[1]))
  }

  ghost predicate Tidy(fs: Fs) {
    forall p <- fs | !Staged(p) :: TidyPath(p)
  }

  lemma TidyPrefix(q: Path, p: Path)
    requires q <= p && TidyPath(p)
    ensures TidyPath(q) && !Staged(q)
  {
    forall i | 0 <= i < |q| ensures q[i] == p[i] { }
  }

  lemma TidyRelocated(src: Path, dst: Path, p: Path)
    requires src <= p && src != [] && TidyPath(dst) && TidyPath(p) && dst != [] && dst != [RECYCLE]
    ensures TidyPath(Relocated(src, dst, p)) && !Staged(Relocated(src, dst, p))
  {
    var q := Relocated(src, dst, p);
    forall i | 1 <= i < |q| ensures q[i] != STAGING && q[i] != RECYCLE {
      if i < |dst| {
        assert q[i] == dst[i];
      } else {
        assert q[i] == p[|src| + i - |dst|];
      }
    }
    assert q[0] == dst[0] && (|dst| >= 2 ==> q[1] == dst[1]);
  }

  lemma MkdirsTidy(fs: Fs, p: Path)
    requires Tidy(fs) && TidyPath(p)
    ensures Tidy(Mkdirs(fs, p))
  {
    forall q <- Mkdirs(fs, p) | !Staged(q) ensures TidyPath(q) {
      if q !in fs { TidyPrefix(q, p); }
    }
  }

  lemma PrefixTrans(a: Path, b: Path, c: Path)
    ensures a <= b && b <= c ==> a <= c
  {
    if a <= b && b <= c {
      assert c[..|a|] == b[..|a|];
    }
  }

  /** Official places are not in the bin. */
  lemma BinAside(dest: Path, q: Path, p: Path)
    requires dest != [] && dest[0] != RECYCLE && InRecycle(q) && q <= p
    ensures !(dest <= p)
  {
    assert p[0] == q[0];
  }

  lemma ProperPrefix(a: Path, b: Path)
    requires a <= b && a != b
    ensures a < b
  {
  }

  // ---------- one move ----------

  /** A transfer is the plain one, or ends before the rename. */
  lemma TransferSpelt(fs: Fs, src: Path, dst: Path, e: Ending)
    requires dst != []
    ensures var r := Transfer(fs, src, dst, e);
            || r == Transfer(fs, src, dst, Plain)
            || (!r.1 && CanMkdirs(fs, Parent(dst)) && r.0 == Mkdirs(fs, Parent(dst)))
    ensures var (after, done) := Transfer(fs, src, dst, e);
            !done ==> after == fs || (CanMkdirs(fs, Parent(dst)) && after == Mkdirs(fs, Parent(dst)))
    ensures var (after, done) := Transfer(fs, src, dst, e);
            var made := Mkdirs(fs, Parent(dst));
            done ==>
              && CanMkdirs(fs, Parent(dst)) && src in made && Rename(made, src, dst) == Ok(after)
              && Transfer(fs, src, dst, e) == Transfer(fs, src, dst, Plain)
  {
    hide CanMkdirs, Mkdirs, Rename;
  }

  /** A transfer that did not go through made directories at most. */
  lemma StoppedKeeps(fs: Fs, src: Path, dst: Path, e: Ending)
    requires IsTree(fs) && Tidy(fs) && TidyPath(dst) && dst != []
    requires !Transfer(fs, src, dst, e).1
    ensures var after := Transfer(fs, src, dst, e).0; Shuffled(fs, after) && Tidy(after)
  {
    hide Transfer, Shuffled, IsTree, Tidy;
    TransferSpelt(fs, src, dst, e);
    ShuffledSelf(fs);
    TidyPrefix(Parent(dst), dst);
    forall q | q <= Parent(dst) ensures !Staged(q) { TidyPrefix(q, Parent(dst)); }
    if CanMkdirs(fs, Parent(dst)) {
      MkdirsShuffles(fs, Parent(dst));
      MkdirsTidy(fs, Parent(dst));
    }
  }

  /** The state a transfer hangs the subtree up in. */
  function Cut(fs: Fs, dst: Path): Fs
    requires dst != []
  {
    RemoveTree(Mkdirs(fs, Parent(dst)), dst)
  }

  /** What a transfer that goes through leaves where. */
  lemma WentThrough(fs: Fs, src: Path, dst: Path, e: Ending)
    requires dst != [] && Transfer(fs, src, dst, e).1 && src != dst
    ensures var after := Transfer(fs, src, dst, e).0;
            && src != [] && !(src <= dst)
            && (forall p ::
                  p in after <==>
                    (dst <= p && Relocated(dst, src, p) in Cut(fs, dst)) || (!(src <= p) && p in Cut(fs, dst)))
            && (forall p <- after ::
                  after[p] == if dst <= p then Cut(fs, dst)[Relocated(dst, src, p)] else Cut(fs, dst)[p])
  {
    hide Transfer, Mkdirs, RemoveTree;
    TransferSpelt(fs, src, dst, e);
  }

  /** Directories made on the way to dst are not below src. */
  lemma InMadeBelow(fs: Fs, src: Path, dst: Path, p: Path)
    requires dst != [] && !(src <= dst) && src <= p && p in Mkdirs(fs, Parent(dst))
    ensures p in fs
  {
    PrefixParent(src, dst);
    PrefixTrans(src, p, Parent(dst));
  }

  lemma WentTidy(fs: Fs, src: Path, dst: Path, e: Ending)
    requires Tidy(fs) && TidyPath(dst) && dst != [] && dst != [RECYCLE] && src != dst
    requires Transfer(fs, src, dst, e).1 && forall p <- fs | src <= p :: !Staged(p)
    ensures Tidy(Transfer(fs, src, dst, e).0)
  {
    hide Transfer, TidyPath;
    WentThrough(fs, src, dst, e);
    TidyPrefix(Parent(dst), dst);
    MkdirsTidy(fs, Parent(dst));
    var made, after := Mkdirs(fs, Parent(dst)), Transfer(fs, src, dst, e).0;
    forall p <- after | !Staged(p) ensures TidyPath(p) {
      if dst <= p {
        var o := Relocated(dst, src, p);
        RelocatedBack(dst, src, p);
        InMadeBelow(fs, src, dst, o);
        TidyRelocated(src, dst, o);
      } else {
        assert p in made;
      }
    }
  }

  /** A transfer that goes through, of nodes none of which is staged, to a tidy place: no copy is lost
      but that of a file it replaces, none is made, and the staging area stays as it was. */
  lemma UnstagedMove(fs: Fs, src: Path, dst: Path, e: Ending)
    requires IsTree(fs) && Tidy(fs) && TidyPath(dst) && dst != [] && dst != [RECYCLE] && src != dst && !(dst < src)
    requires Transfer(fs, src, dst, e).1 && src in fs && forall p <- fs | src <= p :: !Staged(p)
    ensures var after := Transfer(fs, src, dst, e).0;
            && IsTree(after) && Tidy(after) && SameStaging(fs, after)
            && forall c :: Copies(after, c) + Replaced(fs, src, dst)[c] == Copies(fs, c)
  {
    hide Transfer, Tidy, TidyPath, IsTree, SameStaging, Copies;
    TransferTree(fs, src, dst, e);
    WentTidy(fs, src, dst, e);
    TransferSpelt(fs, src, dst, e);
    var made := Mkdirs(fs, Parent(dst));
    TidyPrefix(Parent(dst), dst);
    MkdirsTidy(fs, Parent(dst));
    forall q | q <= Parent(dst) ensures !Staged(q) { TidyPrefix(q, Parent(dst)); }
    MkdirsShuffles(fs, Parent(dst));
    MkdirsTree(fs, Parent(dst));
    RenameCopies(fs, made, src, dst);
    StagingTrans(fs, made, Transfer(fs, src, dst, e).0);
  }

  lemma StagingTrans(f: Fs, g: Fs, h: Fs)
    requires SameStaging(f, g) && SameStaging(g, h)
    ensures SameStaging(f, h)
  {
  }

  lemma RenameCopies(fs: Fs, made: Fs, src: Path, dst: Path)
    requires IsTree(made) && Tidy(made) && dst != [] && made == Mkdirs(fs, Parent(dst)) && src in fs && src != dst
             && !(dst < src)
    requires TidyPath(dst) && dst != [RECYCLE] && Rename(made, src, dst).Ok? && forall p <- fs | src <= p :: !Staged(p)
    ensures var after := Rename(made, src, dst).value;
            SameStaging(made, after) && forall c :: Copies(after, c) + Replaced(fs, src, dst)[c] == Copies(made, c)
  {
    hide TidyPath, IsTree, SameStaging, Copies;
    RenameIs(made, src, dst);
    var cut := RemoveTree(made, dst);
    TidyPrefix(dst, dst);
    RemoveTreeIsTree(made, dst);
    PrefixParent(dst, dst);
    CutOne(fs, made, src, dst);
    forall p <- cut | src <= p ensures !Staged(p) && !Staged(Relocated(src, dst, p)) {
      InMadeBelow(fs, src, dst, p);
      assert TidyPath(p);
      TidyRelocated(src, dst, p);
    }
    assert dst !in cut;
    MoveKeepsCopies(cut, src, dst);
    StagingTrans(made, cut, MoveTree(cut, src, dst));
  }

  /** What rename asks for, and what it gives. */
  lemma RenameIs(fs: Fs, src: Path, dst: Path)
    requires Rename(fs, src, dst).Ok? && src != dst
    ensures src != [] && dst != [] && src in fs && !(src <= dst) && Parent(dst) in fs && fs[Parent(dst)] == Dir
    ensures dst in fs ==> (fs[src] == Dir <==> fs[dst] == Dir) && !HasChildren(fs, dst)
    ensures Rename(fs, src, dst).value == MoveTree(RemoveTree(fs, dst), src, dst)
  {
  }

  /** Clearing the name a rename goes to. */
  lemma CutOne(fs: Fs, made: Fs, src: Path, dst: Path)
    requires IsTree(made) && dst != [] && made == Mkdirs(fs, Parent(dst)) && src in fs && src in made && !Staged(dst)
    requires dst in made ==> (made[src] == Dir <==> made[dst] == Dir) && !HasChildren(made, dst)
    ensures var cut := RemoveTree(made, dst);
            SameStaging(made, cut) && forall c :: Copies(cut, c) + Replaced(fs, src, dst)[c] == Copies(made, c)
  {
    hide IsTree, SameStaging, Copies;
    assert dst in made <==> dst in fs;
    if dst in made {
      LeafUnlessChildren(made, dst);
      DropLeaf(made, dst);
    } else {
      NothingBelowMissing(made, dst);
      assert RemoveTree(made, dst) == made;
      StagingSelf(made);
    }
  }

  lemma StagingSelf(f: Fs)
    ensures SameStaging(f, f)
  {
  }

  // ---------- recycling ----------

  /** Recycling a clean path leaves the store tidy, whatever it replaces. */
  lemma RecycleTidy(fs: Fs, localId: string, device: string, space: string, rel: seq<string>, stamp: Stamp)
    requires Tidy(fs) && Addressable(device, space, rel) && DateSeg(stamp.date)
    ensures Tidy(MoveToRecycle(fs, localId, device, space, Join(rel), stamp).0)
  {
    hide Transfer, Tidy, TidyPath, MoveToRecycle, CleanSeg, DateSeg, IsValidDeviceId, IsValidSpace, TildeOrDrive;
    var full, slot := Official(device, space, rel), ChosenSlot(fs, device, space, rel, stamp);
    MoveToRecycleClean(fs, localId, device, space, rel, stamp);
    ChosenTidy(fs, device, space, rel, stamp);
    if Transfer(fs, full, slot, Plain).1 {
      CleanBelow(fs, device, space, rel);
      WentTidy(fs, full, slot, Plain);
    } else {
      TransferSpelt(fs, full, slot, Plain);
      TidyPrefix(Parent(slot), slot);
      MkdirsTidy(fs, Parent(slot));
    }
  }

  lemma ChosenTidy(fs: Fs, device: string, space: string, rel: seq<string>, stamp: Stamp)
    requires Addressable(device, space, rel) && DateSeg(stamp.date)
    ensures var slot := ChosenSlot(fs, device, space, rel, stamp);
            TidyPath(slot) && slot != [] && slot != [RECYCLE] && slot != Official(device, space, rel)
  {
    hide IsValidSpace;
    CleanSuffixed(rel, stamp.ms);
    assert device[0] != '.';
    SlotTidy(stamp.date, device, space, rel);
    SlotTidy(stamp.date, device, space, Suffixed(rel, stamp.ms));
    var slot := ChosenSlot(fs, device, space, rel, stamp);
    assert |slot| > 1 && slot[0] == RECYCLE && Official(device, space, rel)[0] == device;
  }

  lemma SlotTidy(date: string, device: string, space: string, rel: seq<string>)
    requires DateSeg(date) && Addressable(device, space, rel)
    ensures TidyPath(Slot(date, device, space, rel))
  {
    hide IsValidDeviceId, IsValidSpace;
    DeviceSpaceSegments(device, space);
    var slot := Slot(date, device, space, rel);
    assert slot[1] == date && slot[2] == device && slot[3] == space;
    forall i | 1 <= i < |slot| ensures CleanSeg(slot[i]) {
      if i >= 4 { assert slot[i] == rel[i - 4]; }
    }
  }

  lemma CleanBelow(fs: Fs, device: string, space: string, rel: seq<string>)
    requires Addressable(device, space, rel)
    ensures forall p <- fs | Official(device, space, rel) <= p :: !Staged(p)
  {
    forall p <- fs | Official(device, space, rel) <= p
      ensures !Staged(p)
    {
      assert p[2] == Official(device, space, rel)[2] == rel[0];
    }
  }
}
