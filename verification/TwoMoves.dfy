/** A restore as two moves: what stands at the target goes to a slot in the bin, then the item goes to
    the target. */
module TwoMoves {
  import opened FileSystem
  import opened Layout
  import opened Recycle
  import opened RecycleLaws
  import opened Tidiness

  /** The three places, whether something stands at the target, and how the names of each move end. */
  datatype Scene = Scene(item: Path, dest: Path, slot: Path, there: bool, first: Ending, second: Ending)

  /** The state after making room, and whether there is room. */
  function Room(fs: Fs, sc: Scene): (Fs, bool) {
    if sc.there then Transfer(fs, sc.dest, sc.slot, sc.first) else (fs, true)
  }

  /** The state after moving the item, and whether it could be moved. */
  function Land(fs: Fs, sc: Scene): (Fs, bool) {
    Transfer(fs, sc.item, sc.dest, sc.second)
  }

  predicate Done(fs: Fs, sc: Scene) {
    Room(fs, sc).1 && Land(Room(fs, sc).0, sc).1
  }

  /** The state both moves leave. */
  function Left(fs: Fs, sc: Scene): Fs {
    if Room(fs, sc).1 then Land(Room(fs, sc).0, sc).0 else Room(fs, sc).0
  }

  /** What making room destroys. */
  function Lost(fs: Fs, sc: Scene): multiset<Bytes> {
    if sc.there && sc.dest in fs && Room(fs, sc).1 then Replaced(fs, sc.dest, sc.slot) else multiset{}
  }

  /** A place outside the bin where something may stand. */
  predicate Placeable(p: Path) {
    p != [] && p[0] != RECYCLE && TidyPath(p)
  }

  /** A tidy tree that has the item in its bin, with a target outside the bin and a slot in it; and
      `there` misses only a file under a name that asks for a directory. */
  ghost predicate Proper(fs: Fs, sc: Scene) {
    && IsTree(fs) && Tidy(fs)
    && sc.item in fs && InRecycle(sc.item)
    && (sc.dest != [] ==> Placeable(sc.dest))
    && InRecycle(sc.slot) && |sc.slot| >= 2 && TidyPath(sc.slot)
    && (sc.there ==> sc.dest in fs)
    && (!sc.there && sc.dest in fs ==> fs[sc.dest] != Dir && sc.second != Plain)
  }

  /** Where what stood at p, at or below the target, comes to rest: in the slot, or back below the
      target if the slot was moved there with the item. */
  function Resting(sc: Scene, done: bool, p: Path): Path {
    var x := Relocated(sc.dest, sc.slot, p);
    if done && sc.item <= sc.slot then Relocated(sc.item, sc.dest, x) else x
  }

  /** What makes room keeps its owners, and anything staged comes back to its place. */
  ghost predicate RestsWell(fs: Fs, sc: Scene) {
    forall p <- fs | sc.dest <= p ::
      var q := Resting(sc, Done(fs, sc), p);
      (Staged(p) ==> q == p) && (fs[p] != Dir ==> Owner(q) == Owner(p))
  }

  /** The files of the item keep their owners at the target. */
  ghost predicate LandsWell(fs: Fs, sc: Scene) {
    forall p <- fs | sc.item <= p && fs[p] != Dir :: Owner(Relocated(sc.item, sc.dest, p)) == Owner(p)
  }

  ghost predicate Sound(fs: Fs, sc: Scene) {
    (sc.there && Room(fs, sc).1 ==> RestsWell(fs, sc)) && (Done(fs, sc) ==> LandsWell(fs, sc))
  }

  // ---------- the moves ----------

  /** Neither move touches the root. */
  lemma TargetReal(fs: Fs, sc: Scene)
    requires Proper(fs, sc) && Room(fs, sc).1
    ensures Placeable(sc.dest) && sc.dest != sc.slot && sc.dest != sc.item
    ensures !(sc.slot < sc.dest) && !(sc.dest < sc.item) && !(sc.dest <= sc.slot)
  {
    hide TidyPath, Tidy;
    assert [] in fs && fs[[]] == Dir;
    BinAside(sc.dest, sc.item, sc.item);
    BinAside(sc.dest, sc.slot, sc.slot);
  }

  /** The target is free when its turn comes, unless a file is in the way of the move. */
  lemma TargetFree(fs: Fs, sc: Scene)
    requires Proper(fs, sc) && Done(fs, sc)
    ensures sc.dest !in Room(fs, sc).0
  {
    hide Transfer, Tidy, TidyPath, IsTree;
    TargetReal(fs, sc);
    if sc.there {
      FirstMoveLeaves(fs, sc);
    } else {
      NotOntoAFile(fs, sc.item, sc.dest, sc.second);
    }
  }

  lemma NotOntoAFile(fs: Fs, src: Path, dst: Path, e: Ending)
    requires Transfer(fs, src, dst, e).1 && src != dst
    ensures dst in fs && fs[dst] != Dir ==> e == Plain
  {
  }

  /** What made room is in the slot, and nothing is left at the target. */
  lemma FirstMoveLeaves(fs: Fs, sc: Scene)
    requires Proper(fs, sc) && sc.there && Room(fs, sc).1
    ensures var cleared := Room(fs, sc).0;
            && (forall p <- fs | sc.dest <= p ::
                  Relocated(sc.dest, sc.slot, p) in cleared && cleared[Relocated(sc.dest, sc.slot, p)] == fs[p])
            && (forall p <- cleared :: !(sc.dest <= p))
  {
    hide Transfer, TidyPath, Tidy, IsTree;
    TargetReal(fs, sc);
    var dest, slot, cleared := sc.dest, sc.slot, Room(fs, sc).0;
    WentThrough(fs, dest, slot, sc.first);
    forall p <- fs | dest <= p
      ensures Relocated(dest, slot, p) in cleared && cleared[Relocated(dest, slot, p)] == fs[p]
    {
      RelocatedBack(dest, slot, p);
      if InRecycle(p) { BinAside(dest, p, p); }
    }
    forall p <- cleared ensures !(dest <= p) {
      if slot <= p { BinAside(dest, slot, p); }
    }
  }

  /** A rename does not empty a directory. */
  lemma NotBelowSlot(fs: Fs, src: Path, slot: Path, e: Ending, item: Path)
    requires IsTree(fs) && item in fs && slot != [] && src != slot && Transfer(fs, src, slot, e).1
    ensures !(slot < item)
  {
    hide Transfer, IsTree;
    TransferSpelt(fs, src, slot, e);
    ChildKnown(fs, Mkdirs(fs, Parent(slot)), slot, item);
  }

  lemma ChildKnown(fs: Fs, made: Fs, slot: Path, item: Path)
    requires IsTree(fs) && item in fs && fs.Keys <= made.Keys
    ensures slot < item ==> slot in made && HasChildren(made, slot)
  {
    if slot < item { PrefixIsDir(fs, slot, item); }
  }

  /** Where things come from after the first move. */
  lemma RoomOrigin(fs: Fs, sc: Scene, o: Path)
    requires Proper(fs, sc) && Room(fs, sc).1 && o in Room(fs, sc).0
    ensures var cleared := Room(fs, sc).0;
            if sc.there && sc.slot <= o then
              var p := Relocated(sc.slot, sc.dest, o);
              p in fs && sc.dest <= p && cleared[o] == fs[p] && Relocated(sc.dest, sc.slot, p) == o
            else (o in fs && cleared[o] == fs[o]) || (cleared[o] == Dir && o <= sc.slot)
  {
    hide Transfer, TidyPath, Tidy, IsTree;
    TargetReal(fs, sc);
    if sc.there {
      WentThrough(fs, sc.dest, sc.slot, sc.first);
      if sc.slot <= o {
        RelocatedBack(sc.slot, sc.dest, o);
        InMadeBelow(fs, sc.dest, sc.slot, Relocated(sc.slot, sc.dest, o));
      }
    }
  }

  /** Where a file comes from after both. */
  lemma FileOrigin(fs: Fs, sc: Scene, q: Path) returns (p: Path)
    requires Proper(fs, sc) && Room(fs, sc).1 && q in Left(fs, sc) && Left(fs, sc)[q] != Dir
    ensures p in fs && fs[p] == Left(fs, sc)[q]
    ensures || q == p
            || (sc.there && sc.dest <= p && q == Resting(sc, Done(fs, sc), p))
            || (Done(fs, sc) && sc.item <= p && q == Relocated(sc.item, sc.dest, p))
  {
    hide Transfer, TidyPath, Tidy, IsTree;
    TargetReal(fs, sc);
    var cleared := Room(fs, sc).0;
    if Done(fs, sc) {
      WentThrough(cleared, sc.item, sc.dest, sc.second);
      var o := if sc.dest <= q then Relocated(sc.dest, sc.item, q) else q;
      if sc.dest <= q {
        RelocatedBack(sc.dest, sc.item, q);
        InMadeBelow(cleared, sc.item, sc.dest, o);
      }
      RoomOrigin(fs, sc, o);
      p := if sc.there && sc.slot <= o then Relocated(sc.slot, sc.dest, o) else o;
      if sc.there && sc.slot <= o {
        NotBelowSlot(fs, sc.dest, sc.slot, sc.first, sc.item);
        SlotOverItem(sc, o);
      }
    } else {
      TransferSpelt(cleared, sc.item, sc.dest, sc.second);
      RoomOrigin(fs, sc, q);
      p := if sc.there && sc.slot <= q then Relocated(sc.slot, sc.dest, q) else q;
    }
  }

  lemma SlotOverItem(sc: Scene, o: Path)
    requires sc.slot <= o && !(sc.slot < sc.item)
    ensures sc.item <= o <==> sc.item <= sc.slot
  {
    Comparable(sc.item, sc.slot, o);
    PrefixTrans(sc.item, sc.slot, o);
    if sc.slot <= sc.item && sc.slot != sc.item { ProperPrefix(sc.slot, sc.item); }
  }

  // ---------- sound scenes keep everything ----------

  /** If not every node comes back to its place, none at the target is staged. */
  lemma NoneStaged(fs: Fs, sc: Scene)
    requires Proper(fs, sc) && sc.there && Room(fs, sc).1 && RestsWell(fs, sc) && !(Done(fs, sc) && sc.item == sc.slot)
    ensures forall p <- fs | sc.dest <= p :: !Staged(p)
  {
    hide Transfer, TidyPath, Tidy, IsTree, Room, Land;
    TargetReal(fs, sc);
    forall p <- fs | sc.dest <= p ensures Resting(sc, Done(fs, sc), p) != p {
      RestsElsewhere(sc, Done(fs, sc), p);
    }
  }

  lemma RestsElsewhere(sc: Scene, done: bool, p: Path)
    requires sc.dest <= p && sc.dest != [] && sc.dest[0] != RECYCLE && InRecycle(sc.slot)
             && !(done && sc.item == sc.slot)
    ensures Resting(sc, done, p) != p
  {
    if done && sc.item <= sc.slot {
      ProperPrefix(sc.item, sc.slot);
      InsideParts(sc.item, sc.dest, sc.slot, p);
      assert p == sc.dest + p[|sc.dest|..];
      assert |Resting(sc, done, p)| > |p|;
    } else {
      assert Relocated(sc.dest, sc.slot, p)[0] == sc.slot[0] && p[0] == sc.dest[0];
    }
  }

  lemma InsideParts(item: Path, dest: Path, slot: Path, p: Path)
    requires dest <= p && item < slot
    ensures Relocated(item, dest, Relocated(dest, slot, p)) == dest + slot[|item|..] + p[|dest|..]
    ensures item <= Relocated(dest, slot, p)
  {
    var t, rest := slot[|item|..], p[|dest|..];
    assert slot == item + t;
    assert slot + rest == item + (t + rest);
    assert (item + (t + rest))[|item|..] == t + rest;
  }

  lemma SoundOwners(fs: Fs, sc: Scene)
    requires Proper(fs, sc) && Room(fs, sc).1 && Sound(fs, sc)
    requires sc.there ==> forall p <- fs | sc.dest <= p :: !Staged(p)
    ensures SameOwners(fs, Left(fs, sc))
  {
    hide Transfer, TidyPath, Tidy, IsTree, Room, Land, Resting;
    var after := Left(fs, sc);
    forall q <- after | !Staged(q) && !after[q].Dir?
      ensures exists p <- fs :: !Staged(p) && fs[p] == after[q] && Owner(p) == Owner(q)
    {
      var p := FileOrigin(fs, sc, q);
      if sc.item <= p { assert p[0] == sc.item[0]; }
    }
  }

  /** Making room, and moving the item, when nothing staged is in the way. */
  lemma MovesKeep(fs: Fs, sc: Scene)
    requires Proper(fs, sc) && Room(fs, sc).1
    requires sc.there ==> forall p <- fs | sc.dest <= p :: !Staged(p)
    ensures var after := Left(fs, sc);
            && IsTree(after) && Tidy(after) && SameStaging(fs, after)
            && forall c :: Copies(after, c) + Lost(fs, sc)[c] == Copies(fs, c)
  {
    hide Transfer, TidyPath, Tidy, IsTree, SameStaging, Copies, Replaced;
    TargetReal(fs, sc);
    var cleared := Room(fs, sc).0;
    if sc.there {
      UnstagedMove(fs, sc.dest, sc.slot, sc.first);
    } else {
      StagingSelf(fs);
    }
    assert IsTree(cleared) && Tidy(cleared) && SameStaging(fs, cleared);
    LandKeeps(fs, sc);
    StagingTrans(fs, cleared, Left(fs, sc));
  }

  lemma LandKeeps(fs: Fs, sc: Scene)
    requires Proper(fs, sc) && Room(fs, sc).1 && IsTree(Room(fs, sc).0) && Tidy(Room(fs, sc).0)
    ensures var cleared, after := Room(fs, sc).0, Left(fs, sc);
            && IsTree(after) && Tidy(after) && SameStaging(cleared, after)
            && forall c :: Copies(after, c) == Copies(cleared, c)
  {
    hide Transfer, TidyPath, Tidy, IsTree, SameStaging, Copies, Resettled;
    TargetReal(fs, sc);
    var cleared := Room(fs, sc).0;
    if Done(fs, sc) {
      TargetFree(fs, sc);
      TransferSpelt(cleared, sc.item, sc.dest, sc.second);
      InMadeBelow(cleared, sc.item, sc.dest, sc.item);
      forall p <- cleared | sc.item <= p ensures !Staged(p) { assert p[0] == sc.item[0]; }
      UnstagedMove(cleared, sc.item, sc.dest, sc.second);
    } else {
      StoppedKeeps(cleared, sc.item, sc.dest, sc.second);
      ShuffledStaging(cleared, Left(fs, sc));
    }
  }

  lemma ShuffledStaging(f: Fs, g: Fs)
    requires Shuffled(f, g)
    ensures IsTree(g) && SameOwners(f, g) && SameStaging(f, g) && forall c :: Copies(g, c) == Copies(f, c)
  {
  }

  /** A slot that is the item itself: everything comes back, and the item is gone. */
  lemma BackAgain(fs: Fs, sc: Scene)
    requires Proper(fs, sc) && sc.there && Done(fs, sc) && sc.item == sc.slot
    ensures Left(fs, sc) == RemoveTree(fs, sc.slot) && (forall q <- fs :: sc.slot <= q ==> q == sc.slot)
    ensures fs[sc.slot] != Dir ==> fs[sc.dest] != Dir
  {
    hide Transfer, TidyPath, Tidy, IsTree;
    TargetReal(fs, sc);
    TargetFree(fs, sc);
    var dest, slot, cut := sc.dest, sc.slot, RemoveTree(fs, sc.slot);
    OntoTaken(fs, dest, slot, sc.first);
    BinAside(dest, slot, slot);
    BinBeside(slot, dest);
    IntoFree(fs, cut, dest, slot, sc.second);
    MoveTreeBack(cut, dest, slot);
  }

  /** A move onto a name that is taken clears it first. */
  lemma OntoTaken(fs: Fs, src: Path, dst: Path, e: Ending)
    requires IsTree(fs) && dst in fs && dst != [] && src != dst && Transfer(fs, src, dst, e).1
    ensures src in fs && (fs[src] == Dir <==> fs[dst] == Dir) && forall q <- fs :: dst <= q ==> q == dst
    ensures forall q <- RemoveTree(fs, dst) :: !(dst <= q)
    ensures Transfer(fs, src, dst, e).0 == MoveTree(RemoveTree(fs, dst), src, dst)
  {
    hide Transfer, IsTree;
    TransferSpelt(fs, src, dst, e);
    ItemParent(fs, dst);
    RenameIs(fs, src, dst);
    LeafUnlessChildren(fs, dst);
  }

  /** And the move back. */
  lemma IntoFree(fs: Fs, cut: Fs, dest: Path, slot: Path, e: Ending)
    requires IsTree(fs) && dest in fs && Placeable(dest) && InRecycle(slot) && slot in fs && cut == RemoveTree(fs, slot)
    requires forall q <- cut :: !(slot <= q)
    requires !(dest <= slot) && !(slot <= dest) && Transfer(MoveTree(cut, dest, slot), slot, dest, e).1
    ensures Transfer(MoveTree(cut, dest, slot), slot, dest, e).0 == MoveTree(MoveTree(cut, dest, slot), slot, dest)
  {
    hide Transfer, IsTree, TidyPath;
    var cleared := MoveTree(cut, dest, slot);
    MoveTreeLeaves(cut, dest, slot);
    TransferSpelt(cleared, slot, dest, e);
    DestParent(fs, cut, cleared, dest, slot);
    RenameIs(cleared, slot, dest);
    NothingThere(cleared, dest);
  }

  lemma NothingThere(fs: Fs, p: Path)
    requires forall q <- fs :: !(p <= q)
    ensures RemoveTree(fs, p) == fs
  {
  }

  lemma ItemParent(fs: Fs, p: Path)
    requires IsTree(fs) && p in fs && p != []
    ensures Mkdirs(fs, Parent(p)) == fs
  {
    MkdirsIdle(fs, Parent(p));
  }

  lemma DestParent(fs: Fs, cut: Fs, cleared: Fs, dest: Path, slot: Path)
    requires IsTree(fs) && dest in fs && Placeable(dest) && InRecycle(slot) && slot in fs
    requires cut == RemoveTree(fs, slot) && (forall q <- cut :: !(slot <= q)) && cleared == MoveTree(cut, dest, slot)
    ensures Mkdirs(cleared, Parent(dest)) == cleared
  {
    hide TidyPath;
    PrefixParent(dest, dest);
    BinBeside(slot, dest);
    forall q | q <= Parent(dest) ensures q in cleared {
      PrefixTrans(slot, q, Parent(dest));
      ShorterAbove(dest, q);
      AncestorOf(fs, q, dest);
    }
    assert Mkdirs(cleared, Parent(dest)).Keys == cleared.Keys;
  }

  lemma ShorterAbove(dest: Path, q: Path)
    requires dest != [] && q <= Parent(dest)
    ensures !(dest <= q) && q < dest
  {
    assert q == dest[..|q|];
  }

  lemma AncestorOf(fs: Fs, q: Path, p: Path)
    requires IsTree(fs) && p in fs && q < p
    ensures q in fs
  {
    PrefixIsDir(fs, q, p);
  }

  lemma BinBeside(slot: Path, dest: Path)
    requires InRecycle(slot) && dest != [] && dest[0] != RECYCLE
    ensures !(slot <= dest) && !(slot <= Parent(dest))
  {
  }

  /** In a sound scene no copy is lost but that of a file replaced, no owner changes, and the staging
      area stays as it was, however far the moves get. */
  lemma SoundKeeps(fs: Fs, sc: Scene)
    requires Proper(fs, sc) && Sound(fs, sc)
    ensures Rearranged(fs, Left(fs, sc), Lost(fs, sc)) && Tidy(Left(fs, sc))
  {
    hide Transfer, TidyPath, Tidy, IsTree, SameStaging, SameOwners, Copies, Replaced, RestsWell, LandsWell, Resting;
    if !Room(fs, sc).1 {
      StoppedKeeps(fs, sc.dest, sc.slot, sc.first);
    } else if sc.there && Done(fs, sc) && sc.item == sc.slot {
      BackAgain(fs, sc);
      BackLoses(fs, sc);
    } else {
      if sc.there { NoneStaged(fs, sc); }
      SoundOwners(fs, sc);
      MovesKeep(fs, sc);
    }
  }

  lemma BackLoses(fs: Fs, sc: Scene)
    requires Proper(fs, sc) && sc.there && Done(fs, sc) && sc.item == sc.slot && Left(fs, sc) == RemoveTree(fs, sc.slot)
    requires (forall q <- fs :: sc.slot <= q ==> q == sc.slot) && (fs[sc.slot] != Dir ==> fs[sc.dest] != Dir)
    ensures Rearranged(fs, Left(fs, sc), Lost(fs, sc)) && Tidy(Left(fs, sc))
  {
    hide Transfer, TidyPath, IsTree, Rearranged;
    DropLeaf(fs, sc.slot);
  }
}
