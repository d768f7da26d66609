/** recycle.restore under every path it accepts: when nothing is lost, copied, unstaged or given to
    another owner. */
module RestoreAnywhere {
  import opened Wrappers
  import opened Paths
  import opened Suffix
  import opened FileSystem
  import opened Layout
  import opened Recycle
  import opened RecycleLaws
  import opened RestoreLaws
  import opened Tidiness
  import opened TwoMoves
  import opened RestoreNames

  /** No file the request moves would change owner, and nothing staged would leave its place. */
  ghost predicate RestoreSound(fs: Fs, localId: string, path: string, stamp: Stamp) {
    Accepted(fs, localId, path) ==> Sound(fs, SceneOf(fs, localId, path, stamp))
  }

  /** What makes room replaces a file in the bin. */
  predicate RestoreOverwrites(fs: Fs, localId: string, path: string, stamp: Stamp) {
    Accepted(fs, localId, path)
    && var sc := SceneOf(fs, localId, path, stamp);
       sc.there && sc.dest in fs && Room(fs, sc).1 && Clobbers(fs, sc.dest, sc.slot)
  }

  /** Neither. */
  ghost predicate RestoreSafe(fs: Fs, localId: string, path: string, stamp: Stamp) {
    RestoreSound(fs, localId, path, stamp) && !RestoreOverwrites(fs, localId, path, stamp)
  }

  /** What making room destroys. */
  function RestoreLoss(fs: Fs, localId: string, path: string, stamp: Stamp): multiset<Bytes> {
    if Accepted(fs, localId, path) then Lost(fs, SceneOf(fs, localId, path, stamp)) else multiset{}
  }

  lemma ScenePlaces(fs: Fs, localId: string, path: string, stamp: Stamp)
    requires Accepted(fs, localId, path)
    ensures var sc, parts := SceneOf(fs, localId, path, stamp), Parts(path);
            && |parts| >= 5 && Target(localId, parts) == Ok(sc.dest)
            && sc.item == Item(path) && sc.slot == SlotOf(fs, parts, stamp) && sc.item in fs
            && (sc.there ==> sc.dest in fs) && (!sc.there && sc.dest in fs ==> fs[sc.dest] != Dir && sc.second != Plain)
  {
    hide Named, EndingOf, Split, Slashed, HasDotDot, Resolve, SlotParts, OriginText;
  }

  lemma SceneProper(fs: Fs, localId: string, path: string, stamp: Stamp)
    requires IsTree(fs) && Tidy(fs) && Accepted(fs, localId, path) && IsValidDeviceId(localId) && DateSeg(stamp.date)
    ensures Proper(fs, SceneOf(fs, localId, path, stamp))
  {
    hide Accepted, Target, SceneOf, Parts, Item, Tidy, IsTree, TidyPath, DateSeg, IsValidDeviceId, Placeable, SlotOf;
    var dest, slot := Places(fs, localId, path, stamp);
    ScenePlaces(fs, localId, path, stamp);
  }

  // ---------- what a sound restore keeps ----------

  lemma PruneTidy(fs: Fs)
    requires Tidy(fs)
    ensures Tidy(Prune(fs))
  {
  }

  /** A restore that is sound - under whatever path, and however it ends - loses nothing but a file it
      replaces in the bin, copies nothing, changes no owner, takes nothing from staging, and leaves the
      store tidy. */
  lemma RestoreKeeps(fs: Fs, localId: string, path: string, stamp: Stamp)
    requires IsTree(fs) && Tidy(fs) && IsValidDeviceId(localId) && DateSeg(stamp.date)
    requires RestoreSound(fs, localId, path, stamp)
    ensures var after := Restore(fs, localId, path, stamp).0;
            Rearranged(fs, after, RestoreLoss(fs, localId, path, stamp)) && Tidy(after)
  {
    hide Restore, Accepted, SceneOf, Rearranged, Shuffled, IsTree, Tidy, IsValidDeviceId, DateSeg, Proper, Sound, Lost,
      Done, Left, Prune;
    if !Accepted(fs, localId, path) {
      RestoreRefused(fs, localId, path, stamp);
      ShuffledSelf(fs);
      NothingLost(fs, fs);
    } else {
      var sc := SceneOf(fs, localId, path, stamp);
      SceneProper(fs, localId, path, stamp);
      RestoreMoves(fs, localId, path, stamp);
      SoundKeeps(fs, sc);
      PrunedKeeps(fs, Left(fs, sc), Lost(fs, sc));
      PruneTidy(Left(fs, sc));
    }
  }

  lemma PrunedKeeps(fs: Fs, after: Fs, lost: multiset<Bytes>)
    requires Rearranged(fs, after, lost)
    ensures Rearranged(fs, Prune(after), lost)
  {
    hide Prune;
    PruneShuffles(after);
    NothingLost(after, Prune(after));
    RearrangedTrans(fs, after, Prune(after), lost, multiset{});
    assert lost + multiset{} == lost;
  }

  /** If it replaces no file either, it loses nothing at all. */
  lemma SafeLosesNothing(fs: Fs, localId: string, path: string, stamp: Stamp)
    requires RestoreSafe(fs, localId, path, stamp)
    ensures RestoreLoss(fs, localId, path, stamp) == multiset{}
  {
    hide Accepted, SceneOf, Room, Sound;
  }

  lemma SafeKeeps(fs: Fs, localId: string, path: string, stamp: Stamp)
    requires IsTree(fs) && Tidy(fs) && IsValidDeviceId(localId) && DateSeg(stamp.date)
             && RestoreSafe(fs, localId, path, stamp)
    ensures var after := Restore(fs, localId, path, stamp).0; Shuffled(fs, after) && Tidy(after)
  {
    hide Restore, RestoreLoss, RestoreSound, RestoreOverwrites, IsTree, Tidy, IsValidDeviceId, DateSeg, Shuffled,
      Rearranged;
    RestoreKeeps(fs, localId, path, stamp);
    SafeLosesNothing(fs, localId, path, stamp);
    NothingLost(fs, Restore(fs, localId, path, stamp).0);
  }

  // ---------- paths that lead home ----------

  /** With a target strictly below a space, both moves keep owners. */
  lemma HomeSound(fs: Fs, sc: Scene, a: string, date: string, b: Path, last: Path, stripped: Path, ending: Path)
    requires Placeable(sc.dest) && |sc.dest| >= 3 && |last| <= 1 && |stripped| <= |last| && |stripped| <= |ending| <= 1
    requires sc.item == [RECYCLE, a] + b + last && sc.dest == b + stripped && sc.slot == [RECYCLE, date] + b + ending
    ensures Sound(fs, sc)
  {
    hide Room, Land, Done;
    var done := Done(fs, sc);
    forall p <- fs | sc.dest <= p
      ensures var q := Resting(sc, done, p); !Staged(p) && Owner(q) == Owner(p)
    {
      assert p[0] == sc.dest[0] && p[1] == sc.dest[1] && p[2] == sc.dest[2];
      var x := Relocated(sc.dest, sc.slot, p);
      assert sc.slot <= x && x[0] == RECYCLE && x[2] == sc.slot[2] == b[0] && x[3] == sc.slot[3] == b[1];
      PrefixTrans(sc.item, sc.slot, x);
      if done && sc.item <= sc.slot {
        var q := Relocated(sc.item, sc.dest, x);
        assert q[0] == sc.dest[0] && q[1] == sc.dest[1] && q[2] == sc.dest[2];
      }
    }
    forall p <- fs | sc.item <= p ensures Owner(Relocated(sc.item, sc.dest, p)) == Owner(p) {
      assert p[0] == sc.item[0] && p[2] == sc.item[2] == b[0] && p[3] == sc.item[3] == b[1];
      var q := Relocated(sc.item, sc.dest, p);
      assert q[0] == sc.dest[0] && q[1] == sc.dest[1];
    }
  }

  /** Every such path of anything in the bin - with empty and "." components and trailing slashes, and
      for names that are nothing but a suffix - is sound as long as its target lies strictly below a
      space. */
  lemma HomeIsSound(fs: Fs, localId: string, path: string, stamp: Stamp)
    requires Tidy(fs) && IsValidDeviceId(localId) && DateSeg(stamp.date) && Accepted(fs, localId, path)
    requires var sc := SceneOf(fs, localId, path, stamp); Home(Parts(path)) && |sc.dest| >= 3
    ensures RestoreSound(fs, localId, path, stamp)
  {
    hide Tidy, TidyPath, Target, Accepted, Parts, Item, DateSeg, IsValidDeviceId, SlotOf, Home, Real, Strip, Head,
      SceneOf, Sound, Placeable;
    var sc, parts := SceneOf(fs, localId, path, stamp), Parts(path);
    ScenePlaces(fs, localId, path, stamp);
    var front, last, stripped, ending := Components(fs, localId, path, stamp, sc.dest);
    var dest, slot := Places(fs, localId, path, stamp);
    var b := Real(parts[2]) + Real(parts[3]) + front;
    HomeSplits(localId, parts, stamp.date, sc.item, sc.dest, sc.slot, front, last, stripped, ending);
    HomeSound(fs, sc, parts[1], stamp.date, b, last, stripped, ending);
  }

  // ---------- the condition is exact ----------

  /** The end of a restore has the files of its second move and nothing new. */
  ghost predicate EndsAs(after: Fs, end: Fs) {
    (forall p <- end :: p in after && end[p] == after[p]) && forall p <- after | after[p] != Dir :: p in end
  }

  lemma EndIs(after: Fs)
    ensures EndsAs(after, after) && EndsAs(after, Prune(after))
  {
    forall p <- after | after[p] != Dir ensures p in Prune(after) { assert p <= p; }
  }

  /** In the end, an official or recycled file has a valid owner. */
  lemma EndsOwned(fs: Fs, after: Fs, end: Fs, x: Path)
    requires ValidOwners(fs) && SameOwners(fs, end) && EndsAs(after, end) && x in after && after[x] != Dir && !Staged(x)
    ensures ValidOwner(x)
  {
    hide ValidOwner;
    assert x in end && !end[x].Dir?;
    var q :| q in fs && !Staged(q) && fs[q] == end[x] && Owner(q) == Owner(x);
    SameOwnerValid(q, x);
  }

  lemma SameOwnerValid(q: Path, x: Path)
    requires ValidOwner(q) && Owner(q) == Owner(x)
    ensures ValidOwner(x)
  {
  }

  lemma OwnedHere(fs: Fs, p: Path)
    requires ValidOwners(fs) && p in fs && !Staged(p) && fs[p] != Dir
    ensures ValidOwner(p)
  {
  }

  /** Where what makes room stands in the end, whether or not it is staged. */
  lemma RestsThere(fs: Fs, sc: Scene, p: Path)
    requires Proper(fs, sc) && sc.there && Room(fs, sc).1 && p in fs && sc.dest <= p
    ensures var q := Resting(sc, Done(fs, sc), p); q in Left(fs, sc) && Left(fs, sc)[q] == fs[p]
  {
    hide Transfer, TidyPath, Tidy, IsTree;
    TargetReal(fs, sc);
    FirstMoveLeaves(fs, sc);
    var cleared, x := Room(fs, sc).0, Relocated(sc.dest, sc.slot, p);
    RelocatedBack(sc.dest, sc.slot, p);
    NotBelowSlot(fs, sc.dest, sc.slot, sc.first, sc.item);
    SlotOverItem(sc, x);
    if Done(fs, sc) {
      WentThrough(cleared, sc.item, sc.dest, sc.second);
      if sc.item <= sc.slot { RelocatedBack(sc.item, sc.dest, x); }
      BinAside(sc.dest, sc.slot, x);
      if sc.item <= x { BinAside(sc.dest, sc.item, x); }
      InCut(cleared, sc.dest, x);
    } else {
      TransferSpelt(cleared, sc.item, sc.dest, sc.second);
    }
  }

  lemma InCut(fs: Fs, dest: Path, x: Path)
    requires dest != [] && x in fs && !(dest <= x)
    ensures x in Cut(fs, dest) && Cut(fs, dest)[x] == fs[x]
  {
  }

  /** Nothing staged comes back to the target, but by resting at its own place. */
  lemma StagedStaysOut(fs: Fs, sc: Scene, p: Path)
    requires Proper(fs, sc) && sc.there && Room(fs, sc).1 && p in fs && sc.dest <= p && Staged(p)
    ensures p in Left(fs, sc) ==> Resting(sc, Done(fs, sc), p) == p
  {
    hide Transfer, TidyPath, Tidy, IsTree, Room, Land;
    TargetReal(fs, sc);
    if Done(fs, sc) && sc.item == sc.slot {
      RelocatedBack(sc.dest, sc.slot, p);
    } else if p in Left(fs, sc) {
      StagedGone(fs, sc, p);
    }
  }

  lemma StagedGone(fs: Fs, sc: Scene, p: Path)
    requires Proper(fs, sc) && sc.there && Room(fs, sc).1 && sc.dest <= p && Staged(p)
             && !(Done(fs, sc) && sc.item == sc.slot)
    ensures p !in Left(fs, sc)
  {
    hide Transfer, TidyPath, Tidy, IsTree;
    TargetReal(fs, sc);
    FirstMoveLeaves(fs, sc);
    var cleared := Room(fs, sc).0;
    PrefixTrans(sc.dest, p, Parent(sc.dest));
    PrefixParent(sc.dest, sc.dest);
    if Done(fs, sc) {
      WentThrough(cleared, sc.item, sc.dest, sc.second);
      var o := Relocated(sc.dest, sc.item, p);
      RelocatedBack(sc.dest, sc.item, p);
      BroughtAside(cleared, sc, o);
      BroughtTidy(fs, sc, o);
    } else {
      TransferSpelt(cleared, sc.item, sc.dest, sc.second);
    }
  }

  lemma BroughtAside(cleared: Fs, sc: Scene, o: Path)
    requires sc.dest != [] && !(sc.item <= sc.dest) && sc.item <= o
    ensures o in Cut(cleared, sc.dest) ==> o in cleared
  {
    if o in Mkdirs(cleared, Parent(sc.dest)) { InMadeBelow(cleared, sc.item, sc.dest, o); }
  }

  /** What comes to the target from the item does not come to lie in staging, unless the slot is the
      item itself. */
  lemma BroughtTidy(fs: Fs, sc: Scene, o: Path)
    requires Proper(fs, sc) && Room(fs, sc).1 && Placeable(sc.dest) && sc.item <= o && (sc.there ==> sc.item != sc.slot)
    ensures o in Room(fs, sc).0 ==> !Staged(Relocated(sc.item, sc.dest, o))
  {
    hide Transfer, Tidy, TidyPath, IsTree, Room;
    assert o[0] == sc.item[0];
    if o in Room(fs, sc).0 {
      RoomOrigin(fs, sc, o);
      if sc.there && sc.slot <= o {
        SlotInside(fs, sc, o);
        NoneStagedInside(fs, sc.item, sc.dest, sc.slot, Relocated(sc.slot, sc.dest, o));
      } else {
        BinTidy(fs, sc, o);
        TidyRelocated(sc.item, sc.dest, o);
      }
    }
  }

  lemma BinTidy(fs: Fs, sc: Scene, o: Path)
    requires Proper(fs, sc) && InRecycle(o) && (o in fs || o <= sc.slot)
    ensures TidyPath(o)
  {
    hide TidyPath;
    if o <= sc.slot { TidyPrefix(o, sc.slot); }
  }

  lemma SlotInside(fs: Fs, sc: Scene, o: Path)
    requires Proper(fs, sc) && Room(fs, sc).1 && Placeable(sc.dest) && sc.there && sc.item <= o && sc.slot <= o
             && sc.item != sc.slot
    ensures sc.item < sc.slot
  {
    hide Transfer, TidyPath, Tidy, IsTree;
    NotBelowSlot(fs, sc.dest, sc.slot, sc.first, sc.item);
    SlotOverItem(sc, o);
    ProperPrefix(sc.item, sc.slot);
  }

  /** What is carried into the item and out again does not come to lie in staging. */
  lemma NoneStagedInside(fs: Fs, item: Path, dest: Path, slot: Path, p: Path)
    requires IsTree(fs) && Tidy(fs) && p in fs && dest <= p && dest != [] && TidyPath(dest) && item != []
             && item < slot && TidyPath(slot)
    ensures !Staged(Relocated(item, dest, Relocated(dest, slot, p)))
  {
    hide Tidy, TidyPath, IsTree;
    var z := Relocated(item, dest, Relocated(dest, slot, p));
    var t, rest := slot[|item|..], p[|dest|..];
    InsideParts(item, dest, slot, p);
    NoStagingSegment(dest);
    NoStagingSegment(slot);
    if |z| >= 3 {
      if |dest| + |t| <= 2 {
        assert z[2] == rest[2 - |dest| - |t|] == p[2 - |t|];
        AncestorIsDir(fs, p, |p| - 1);
        SecondSegment(fs, p);
      } else if |dest| <= 2 {
        assert z[2] == t[2 - |dest|] == slot[|item| + 2 - |dest|];
      } else {
        assert z[2] == dest[2];
      }
    }
  }

  lemma NoStagingSegment(p: Path)
    requires TidyPath(p)
    ensures forall i :: 1 <= i < |p| ==> p[i] != STAGING
  {
  }

  lemma SecondSegment(fs: Fs, p: Path)
    requires IsTree(fs) && Tidy(fs) && p in fs && |p| >= 2
    ensures p[1] != STAGING
  {
    if |p| > 2 {
      AncestorIsDir(fs, p, 2);
      NoStagingSegment(p[..2]);
      assert p[..2][1] == p[1];
    } else {
      NoStagingSegment(p);
    }
  }

  // ---------- what a restore that keeps everything must have been ----------

  /** A request that got past the checks, with real ids and dates. */
  ghost predicate Request(fs: Fs, localId: string, path: string, stamp: Stamp) {
    IsValidDeviceId(localId) && DateSeg(stamp.date) && Accepted(fs, localId, path)
  }

  lemma SlotKeepsOwner(fs: Fs, localId: string, path: string, stamp: Stamp, p: Path)
    requires Request(fs, localId, path, stamp)
    requires var sc := SceneOf(fs, localId, path, stamp);
             Placeable(sc.dest) && sc.dest <= p && ValidOwner(p) && ValidOwner(Relocated(sc.dest, sc.slot, p))
    ensures var sc := SceneOf(fs, localId, path, stamp); Owner(Relocated(sc.dest, sc.slot, p)) == Owner(p)
  {
    hide Accepted, Target, SlotOf, Parts, Item, ValidOwner, IsValidDeviceId, DateSeg, Owner, Real, Strip, Head,
      TidyPath, SceneOf;
    var sc := SceneOf(fs, localId, path, stamp);
    ScenePlaces(fs, localId, path, stamp);
    var front, last, stripped, ending := Components(fs, localId, path, stamp, sc.dest);
    var tail := p[|sc.dest|..];
    assert p == sc.dest + tail && p[0] == sc.dest[0];
    SlotOwner(Parts(path), localId, stamp.date, stripped, ending, front, tail, p, Relocated(sc.dest, sc.slot, p));
  }

  lemma InsideKeepsOwner(fs: Fs, localId: string, path: string, stamp: Stamp, p: Path)
    requires Request(fs, localId, path, stamp)
    requires var sc := SceneOf(fs, localId, path, stamp);
             && Placeable(sc.dest) && sc.item < sc.slot && sc.dest <= p
             && ValidOwner(p) && ValidOwner(Relocated(sc.item, sc.dest, Relocated(sc.dest, sc.slot, p)))
    ensures var sc := SceneOf(fs, localId, path, stamp);
            Owner(Relocated(sc.item, sc.dest, Relocated(sc.dest, sc.slot, p))) == Owner(p)
  {
    hide Accepted, Target, SlotOf, Parts, Item, ValidOwner, IsValidDeviceId, DateSeg, Owner, Real, Strip, Head,
      TidyPath, Composed, SceneOf;
    var sc := SceneOf(fs, localId, path, stamp);
    ScenePlaces(fs, localId, path, stamp);
    var front, last, stripped, ending := Components(fs, localId, path, stamp, sc.dest);
    var tail := p[|sc.dest|..];
    assert p == sc.dest + tail;
    InsideParts(sc.item, sc.dest, sc.slot, p);
    InsideOwner(localId, Parts(path), stamp.date, sc.item, sc.dest, sc.slot, front, last, stripped, ending, tail);
  }

  lemma ItemKeepsOwner(fs: Fs, localId: string, path: string, stamp: Stamp, p: Path)
    requires Request(fs, localId, path, stamp)
    requires var sc := SceneOf(fs, localId, path, stamp);
             && Placeable(sc.dest) && InRecycle(sc.item) && sc.item <= p && TidyPath(p)
             && ValidOwner(p) && ValidOwner(Relocated(sc.item, sc.dest, p))
    ensures var sc := SceneOf(fs, localId, path, stamp);
            Home(Parts(path)) && Owner(Relocated(sc.item, sc.dest, p)) == Owner(p)
  {
    hide Accepted, Target, SlotOf, Parts, Item, ValidOwner, IsValidDeviceId, DateSeg, Real, Strip, Head, SceneOf;
    var sc := SceneOf(fs, localId, path, stamp);
    ScenePlaces(fs, localId, path, stamp);
    var front, last, stripped, ending := Components(fs, localId, path, stamp, sc.dest);
    var tail := p[|sc.item|..];
    assert p == sc.item + tail && p[0] == sc.item[0] && Relocated(sc.item, sc.dest, p)[0] == sc.dest[0];
    OwnerLong(p);
    hide TidyPath, Owner;
    ItemOwner(Parts(path), localId, last, stripped, front, tail, p, Relocated(sc.item, sc.dest, p));
  }

  lemma OwnerLong(o: Path)
    requires ValidOwner(o) && InRecycle(o)
    ensures |o| >= 5
  {
  }

  /** What makes room had to rest well. */
  lemma RestsNeeded(fs: Fs, localId: string, path: string, stamp: Stamp, end: Fs)
    requires Request(fs, localId, path, stamp)
    requires var sc := SceneOf(fs, localId, path, stamp);
             Proper(fs, sc) && ValidOwners(fs) && sc.there && Room(fs, sc).1 && EndsAs(Left(fs, sc), end)
    requires SameOwners(fs, end) && SameStaging(fs, end)
    ensures RestsWell(fs, SceneOf(fs, localId, path, stamp))
  {
    hide Transfer, Tidy, IsTree, TidyPath, Accepted, IsValidDeviceId, DateSeg, SceneOf, ValidOwners, SameOwners, Owner,
      Room, Land, Resting, Proper;
    var sc := SceneOf(fs, localId, path, stamp);
    forall p <- fs | sc.dest <= p
      ensures var q := Resting(sc, Done(fs, sc), p); (Staged(p) ==> q == p) && (fs[p] != Dir ==> Owner(q) == Owner(p))
    {
      if Staged(p) {
        StagedStaysOut(fs, sc, p);
      } else if fs[p] != Dir {
        FileRests(fs, localId, path, stamp, end, p);
      }
    }
  }

  /** One file at the target. */
  lemma FileRests(fs: Fs, localId: string, path: string, stamp: Stamp, end: Fs, p: Path)
    requires Request(fs, localId, path, stamp)
    requires var sc := SceneOf(fs, localId, path, stamp);
             && Proper(fs, sc) && ValidOwners(fs) && sc.there && Room(fs, sc).1 && EndsAs(Left(fs, sc), end)
             && p in fs && sc.dest <= p && !Staged(p) && fs[p] != Dir
    requires SameOwners(fs, end)
    ensures var sc := SceneOf(fs, localId, path, stamp); Owner(Resting(sc, Done(fs, sc), p)) == Owner(p)
  {
    hide Transfer, Tidy, IsTree, TidyPath, Accepted, IsValidDeviceId, DateSeg, SceneOf, ValidOwners, ValidOwner,
      SameOwners, Owner, Room, Land;
    var sc := SceneOf(fs, localId, path, stamp);
    var q := Resting(sc, Done(fs, sc), p);
    TargetReal(fs, sc);
    RestsThere(fs, sc, p);
    OwnedHere(fs, p);
    RelocatedBack(sc.dest, sc.slot, p);
    if Done(fs, sc) && sc.item <= sc.slot {
      if sc.item != sc.slot {
        ProperPrefix(sc.item, sc.slot);
        NoneStagedInside(fs, sc.item, sc.dest, sc.slot, p);
        EndsOwned(fs, Left(fs, sc), end, q);
        InsideKeepsOwner(fs, localId, path, stamp, p);
      }
    } else {
      assert q[0] == sc.slot[0];
      EndsOwned(fs, Left(fs, sc), end, q);
      SlotKeepsOwner(fs, localId, path, stamp, p);
    }
  }

  /** Making room replaces no file, or a file by a file. */
  lemma BinFileStays(fs: Fs, sc: Scene, p: Path)
    requires Proper(fs, sc) && Room(fs, sc).1 && p in fs && fs[p] != Dir && InRecycle(p)
    requires sc.there ==> !Clobbers(fs, sc.dest, sc.slot)
    ensures p in Room(fs, sc).0 && Room(fs, sc).0[p] == fs[p]
  {
    hide Transfer, IsTree, Tidy, TidyPath;
    TargetReal(fs, sc);
    if sc.there {
      NotBelowSlot(fs, sc.dest, sc.slot, sc.first, p);
      TransferSpelt(fs, sc.dest, sc.slot, sc.first);
      RenameIs(Mkdirs(fs, Parent(sc.slot)), sc.dest, sc.slot);
      WentThrough(fs, sc.dest, sc.slot, sc.first);
      BinAside(sc.dest, p, p);
      PrefixCases(sc.slot, p);
    }
  }

  lemma PrefixCases(a: Path, p: Path)
    ensures a <= p ==> a == p || a < p
  {
  }

  /** What the item carries to the target. */
  lemma Brings(fs: Fs, sc: Scene, p: Path)
    requires Proper(fs, sc) && Done(fs, sc) && p in Room(fs, sc).0 && sc.item <= p
    ensures var z := Relocated(sc.item, sc.dest, p); z in Left(fs, sc) && Left(fs, sc)[z] == Room(fs, sc).0[p]
  {
    hide Transfer, IsTree, Tidy, TidyPath;
    TargetReal(fs, sc);
    WentThrough(Room(fs, sc).0, sc.item, sc.dest, sc.second);
    RelocatedBack(sc.item, sc.dest, p);
    BinAside(sc.dest, sc.item, p);
    InCut(Room(fs, sc).0, sc.dest, p);
  }

  /** The item had to land well. */
  lemma LandsNeeded(fs: Fs, localId: string, path: string, stamp: Stamp, end: Fs)
    requires Request(fs, localId, path, stamp)
    requires var sc := SceneOf(fs, localId, path, stamp);
             && Proper(fs, sc) && ValidOwners(fs) && Done(fs, sc) && EndsAs(Left(fs, sc), end)
             && (sc.there ==> !Clobbers(fs, sc.dest, sc.slot))
    requires SameOwners(fs, end)
    ensures LandsWell(fs, SceneOf(fs, localId, path, stamp))
  {
    hide Transfer, Tidy, IsTree, TidyPath, Accepted, IsValidDeviceId, DateSeg, SceneOf, ValidOwners, ValidOwner,
      SameOwners, Owner, Room, Land, Left, EndsAs;
    var sc := SceneOf(fs, localId, path, stamp);
    TargetReal(fs, sc);
    if sc.there && sc.item == sc.slot { BackAgain(fs, sc); }
    forall p <- fs | sc.item <= p && fs[p] != Dir ensures Owner(Relocated(sc.item, sc.dest, p)) == Owner(p) {
      assert p[0] == sc.item[0];
      BinFileStays(fs, sc, p);
      Brings(fs, sc, p);
      BroughtTidy(fs, sc, p);
      EndsOwned(fs, Left(fs, sc), end, Relocated(sc.item, sc.dest, p));
      OwnedHere(fs, p);
      BinTidy(fs, sc, p);
      ItemKeepsOwner(fs, localId, path, stamp, p);
    }
  }

  /** No staging meta file stands anywhere else. */
  ghost predicate MetasStaged(fs: Fs) {
    forall p <- fs | fs[p].Meta? :: Staged(p)
  }

  /** A file replaced in the slot is lost, whatever else happens. */
  lemma ClobberLoses(fs: Fs, sc: Scene)
    requires Proper(fs, sc) && MetasStaged(fs) && sc.there && Room(fs, sc).1 && Clobbers(fs, sc.dest, sc.slot)
    ensures Lost(fs, sc) != multiset{}
    ensures forall c :: Copies(Left(fs, sc), c) + Lost(fs, sc)[c] == Copies(fs, c)
  {
    hide Transfer, Tidy, TidyPath, IsTree, Copies, Room, Land, Left;
    TargetReal(fs, sc);
    FileIsLeaf(fs, sc.dest);
    UnstagedPlace(sc.dest);
    UnstagedBin(sc.slot);
    MovesKeep(fs, sc);
  }

  lemma UnstagedPlace(p: Path)
    requires Placeable(p)
    ensures !Staged(p)
  {
  }

  lemma UnstagedBin(p: Path)
    requires InRecycle(p)
    ensures !Staged(p)
  {
  }

  lemma SomethingLost(f: Fs, g: Fs, lost: multiset<Bytes>)
    requires lost != multiset{} && forall c :: Copies(g, c) + lost[c] == Copies(f, c)
    ensures !(forall c :: Copies(g, c) == Copies(f, c))
  {
    hide Copies;
    var c :| c in lost;
    assert Copies(g, c) + lost[c] == Copies(f, c);
  }

  lemma ClobberSeen(fs: Fs, sc: Scene, end: Fs)
    requires Proper(fs, sc) && MetasStaged(fs) && sc.there && Room(fs, sc).1 && Clobbers(fs, sc.dest, sc.slot)
    requires end == Left(fs, sc) || end == Prune(Left(fs, sc))
    ensures !Shuffled(fs, end)
  {
    hide Transfer, Tidy, TidyPath, IsTree, Copies, Room, Land, Left, Prune, Resettled, Lost;
    LeftTree(fs, sc);
    ClobberLoses(fs, sc);
    PruneShuffles(Left(fs, sc));
    SomethingLost(fs, end, Lost(fs, sc));
  }

  lemma LeftTree(fs: Fs, sc: Scene)
    requires IsTree(fs)
    ensures IsTree(Left(fs, sc))
  {
    hide Transfer, IsTree;
    TransferTree(fs, sc.dest, sc.slot, sc.first);
    TransferTree(Room(fs, sc).0, sc.item, sc.dest, sc.second);
  }

  /** In every state a store can be in, and under every path, a restore loses nothing, copies nothing,
      changes no owner and leaves staging alone exactly when it is safe. */
  lemma RestoreSafeIff(fs: Fs, localId: string, path: string, stamp: Stamp)
    requires IsTree(fs) && Tidy(fs) && ValidOwners(fs) && MetasStaged(fs) && IsValidDeviceId(localId)
             && DateSeg(stamp.date)
    ensures Shuffled(fs, Restore(fs, localId, path, stamp).0) <==> RestoreSafe(fs, localId, path, stamp)
  {
    hide Tidy, IsTree, ValidOwners, MetasStaged, Shuffled, Restore, RestoreSafe, IsValidDeviceId, DateSeg, Accepted;
    if RestoreSafe(fs, localId, path, stamp) {
      SafeKeeps(fs, localId, path, stamp);
    } else if Accepted(fs, localId, path) {
      SafeNeeded(fs, localId, path, stamp);
    } else {
      RefusedIsSafe(fs, localId, path, stamp);
    }
  }

  lemma RefusedIsSafe(fs: Fs, localId: string, path: string, stamp: Stamp)
    requires !Accepted(fs, localId, path)
    ensures RestoreSafe(fs, localId, path, stamp)
  {
    hide Accepted;
  }

  lemma SafeNeeded(fs: Fs, localId: string, path: string, stamp: Stamp)
    requires IsTree(fs) && Tidy(fs) && ValidOwners(fs) && MetasStaged(fs)
    requires IsValidDeviceId(localId) && DateSeg(stamp.date) && Accepted(fs, localId, path)
    ensures Shuffled(fs, Restore(fs, localId, path, stamp).0) ==> RestoreSafe(fs, localId, path, stamp)
  {
    hide Tidy, IsTree, ValidOwners, MetasStaged, Restore, Shuffled, IsValidDeviceId, DateSeg, Accepted, SceneOf,
      Room, Left, Prune, Sound, Done, Clobbers, Proper, RestoreSafe, Parts, OriginText, Target, Item, SlotOf, EndsAs;
    var sc, end := SceneOf(fs, localId, path, stamp), Restore(fs, localId, path, stamp).0;
    RestoreMoves(fs, localId, path, stamp);
    SceneProper(fs, localId, path, stamp);
    ScenePlaces(fs, localId, path, stamp);
    EndIs(Left(fs, sc));
    if sc.there && Room(fs, sc).1 && Clobbers(fs, sc.dest, sc.slot) {
      ClobberSeen(fs, sc, end);
    } else if Shuffled(fs, end) {
      SoundNeeded(fs, localId, path, stamp, end);
      SafeFrom(fs, localId, path, stamp);
    }
  }

  lemma SafeFrom(fs: Fs, localId: string, path: string, stamp: Stamp)
    requires Accepted(fs, localId, path)
    requires var sc := SceneOf(fs, localId, path, stamp);
             Sound(fs, sc) && !(sc.there && sc.dest in fs && Room(fs, sc).1 && Clobbers(fs, sc.dest, sc.slot))
    ensures RestoreSafe(fs, localId, path, stamp)
  {
    hide Accepted, SceneOf, Sound, Room, Clobbers;
  }

  lemma SoundNeeded(fs: Fs, localId: string, path: string, stamp: Stamp, end: Fs)
    requires Request(fs, localId, path, stamp)
    requires var sc := SceneOf(fs, localId, path, stamp);
             && Proper(fs, sc) && ValidOwners(fs) && EndsAs(Left(fs, sc), end) && Shuffled(fs, end)
             && (sc.there && Room(fs, sc).1 ==> !Clobbers(fs, sc.dest, sc.slot))
    ensures Sound(fs, SceneOf(fs, localId, path, stamp))
  {
    hide Tidy, IsTree, TidyPath, ValidOwners, Shuffled, IsValidDeviceId, DateSeg, Accepted, SceneOf, Room, Land, Left,
      RestsWell, LandsWell, EndsAs, Clobbers;
    var sc := SceneOf(fs, localId, path, stamp);
    ShuffledStaging(fs, end);
    if sc.there && Room(fs, sc).1 { RestsNeeded(fs, localId, path, stamp, end); }
    if Done(fs, sc) { LandsNeeded(fs, localId, path, stamp, end); }
  }
}
