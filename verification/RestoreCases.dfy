/** recycle.restore by what is asked for: where it lands, when a spelling is safe, and which spellings
    it refuses. */
module RestoreCases {
  import opened Wrappers
  import opened Paths
  import opened Suffix
  import opened FileSystem
  import opened Layout
  import opened Recycle
  import opened RecycleLaws
  import opened RestoreLaws
  import opened Tidiness
  import opened TwoMoves
  import opened RestoreNames
  import opened RestoreAnywhere

  // ---------- where a recycled item lands ----------

  /** For every spelling of a recycled item, restore aims below the item's own device and space
      exactly when the component after ".recycle" is a real one, the third is not empty, and the
      target is not the space itself. */
  lemma RestoreLandsHomeIff(localId: string, path: string, date: string, device: string, space: string,
                            rel: seq<string>, dest: Path)
    requires DateSeg(date) && Addressable(device, space, rel) && IsValidDeviceId(localId)
    requires RECYCLE + "/" <= Slashed(path) && Item(path) == Slot(date, device, space, rel)
    requires |Parts(path)| >= 5 && Target(localId, Parts(path)) == Ok(dest)
    ensures Owner(dest) == Some((device, space)) <==> Home(Parts(path)) && |dest| >= 3
  {
    hide Parts, Item, Target, Strip, Head, IsValidDeviceId, IsValidSpace, DateSeg, Addressable, TidyPath, Front;
    var parts := Parts(path);
    var front, last, stripped := Front(parts), Real(Last(parts)), Real(Strip(Last(parts)));
    ItemAndTarget(localId, path);
    SlotTidy(date, device, space, rel);
    StripTrivial(Last(parts));
    AimsOutside(localId, parts, Item(path), dest);
    if Owner(dest) == Some((device, space)) {
      OwnerOfSlot(date, device, space, rel, dest);
      var none: Path := [];
      assert Item(path) == Item(path) + none && dest == dest + none;
      ItemOwner(parts, localId, last, stripped, front, none, Item(path), dest);
    } else if Home(parts) {
      HomeOwner(parts, localId, front, last, stripped, Item(path), dest);
    }
  }

  /** A target is never in the bin. */
  lemma AimsOutside(localId: string, parts: seq<string>, item: Path, dest: Path)
    requires |parts| >= 5 && TidyPath(item) && IsValidDeviceId(localId)
    requires item == [RECYCLE] + Real(parts[1]) + Real(parts[2]) + Real(parts[3]) + Front(parts) + Real(Last(parts))
    requires dest == Real(Head(localId, parts)) + Real(parts[3]) + Front(parts) + Real(Strip(Last(parts)))
    requires forall i :: 0 <= i < |Front(parts) + Real(Strip(Last(parts)))| ==>
               CleanSeg((Front(parts) + Real(Strip(Last(parts))))[i])
    ensures !InRecycle(dest)
  {
    hide Real, Front, Strip, Head, AllOrdinary, TidyPath, IsValidDeviceId;
    var head, third, front, last := Real(Head(localId, parts)), Real(parts[3]), Front(parts), Real(Strip(Last(parts)));
    HeadOrdinary(localId, parts, item);
    CleanOrdinary(front, last);
    OrdinaryAppend(head, third);
    OrdinaryAppend(head + third, front);
    OrdinaryAppend(head + third + front, last);
    OrdinaryPlaceable(dest);
  }

  lemma OwnerOfSlot(date: string, device: string, space: string, rel: seq<string>, dest: Path)
    requires Addressable(device, space, rel) && Owner(dest) == Some((device, space)) && !InRecycle(dest)
    ensures |dest| >= 3 && ValidOwner(dest) && ValidOwner(Slot(date, device, space, rel))
            && Slot(date, device, space, rel)[1] == date
  {
  }

  lemma HomeOwner(parts: seq<string>, localId: string, front: Path, last: Path, stripped: Path, item: Path, dest: Path)
    requires Home(parts) && |last| <= 1 && |stripped| <= |last| && !InRecycle(dest) && InRecycle(item)
    requires item == [RECYCLE] + Real(parts[1]) + Real(parts[2]) + Real(parts[3]) + front + last
    requires dest == Real(Head(localId, parts)) + Real(parts[3]) + front + stripped
    ensures |dest| >= 3 ==> Owner(dest) == Owner(item)
  {
    hide Real;
    var b := Real(parts[2]) + Real(parts[3]) + front;
    HeadReal(parts[1]);
    RegroupFour([RECYCLE, parts[1]], Real(parts[2]), Real(parts[3]), front, last);
    assert dest == b + stripped;
    if |dest| >= 3 {
      assert item[2] == b[0] && item[3] == b[1] && dest[0] == b[0] && dest[1] == b[1];
    }
  }

  /** An item whose own name is nothing but a suffix is put in the place of its directory; what
      stands there, the rest of the directory, makes room. */
  lemma BareSuffixAims(localId: string, date: string, device: string, space: string, rel: seq<string>)
    requires DateSeg(date) && Addressable(device, space, rel) && |rel| >= 2 && Strip(Last(rel)) == ""
    requires var path := Join(Slot(date, device, space, rel)); |Parts(path)| >= 5 && Target(localId, Parts(path)).Ok?
    ensures var path := Join(Slot(date, device, space, rel));
            Target(localId, Parts(path)) == Ok(Official(device, space, Parent(rel))) && Home(Parts(path))
  {
    hide Strip, Join, Split, Slashed, Target, IsValidDeviceId, IsValidSpace, Kept;
    var slot := Slot(date, device, space, rel);
    var path := Join(slot);
    SlotText(date, device, space, rel);
    SlotTextFacts(date, device, space, rel);
    assert Parts(path) == slot;
    ItemAndTarget(localId, path);
    DeviceSpaceSegments(device, space);
    DateIsSeg(date);
    assert Last(slot) == Last(rel) && slot[4..|slot| - 1] == Parent(rel);
    KeptNontrivial(Parent(rel));
    assert [device] + [space] + Parent(rel) + [] == Official(device, space, Parent(rel));
  }

  // ---------- when a spelling is safe ----------

  /** Restoring anything in the bin under any path that leads home - with empty and "." components,
      trailing slashes, or a last name that is nothing but a suffix - to a place below a space copies
      nothing, changes no owner, and loses nothing but a file it replaces in the bin, however it ends. */
  lemma RestoreShuffles(fs: Fs, localId: string, path: string, stamp: Stamp)
    requires IsTree(fs) && Tidy(fs) && IsValidDeviceId(localId) && DateSeg(stamp.date)
    requires Accepted(fs, localId, path) ==> Home(Parts(path)) && |Target(localId, Parts(path)).value| >= 3
    ensures var after := Restore(fs, localId, path, stamp).0;
            && Rearranged(fs, after, RestoreLoss(fs, localId, path, stamp)) && Tidy(after)
            && (!RestoreOverwrites(fs, localId, path, stamp) ==> Shuffled(fs, after))
  {
    hide Tidy, IsTree, Parts, Target, Restore, Rearranged, Shuffled, IsValidDeviceId, DateSeg, Accepted, Home, SceneOf,
      RestoreLoss, RestoreOverwrites, Sound;
    if Accepted(fs, localId, path) {
      ScenePlaces(fs, localId, path, stamp);
      HomeIsSound(fs, localId, path, stamp);
    }
    RestoreKeeps(fs, localId, path, stamp);
    if !RestoreOverwrites(fs, localId, path, stamp) {
      SafeKeeps(fs, localId, path, stamp);
    }
  }

  /** A restore that goes through, of anything that holds a file, to below a space, is sound exactly
      when its path leads home. */
  lemma SoundIffHome(fs: Fs, localId: string, path: string, stamp: Stamp, file: Path)
    requires IsTree(fs) && Tidy(fs) && ValidOwners(fs) && IsValidDeviceId(localId) && DateSeg(stamp.date)
    requires Restore(fs, localId, path, stamp).1.Ok? && file in fs && fs[file] != Dir && Item(path) <= file
    requires Accepted(fs, localId, path) ==> |Target(localId, Parts(path)).value| >= 3
    ensures RestoreSound(fs, localId, path, stamp) <==> Home(Parts(path))
  {
    hide Tidy, IsTree, TidyPath, Parts, Item, Target, ValidOwners, Restore, IsValidDeviceId, DateSeg, Accepted, Home,
      SceneOf, Sound;
    if !Accepted(fs, localId, path) {
      RestoreRefused(fs, localId, path, stamp);
    } else {
      ScenePlaces(fs, localId, path, stamp);
      RestoreMoves(fs, localId, path, stamp);
      SceneProper(fs, localId, path, stamp);
      if Home(Parts(path)) {
        HomeIsSound(fs, localId, path, stamp);
      } else {
        AwayFromHome(fs, localId, path, stamp, file);
      }
    }
  }

  /** A path that leads elsewhere carries every file of a valid owner to another one, or to none. */
  lemma AwayFromHome(fs: Fs, localId: string, path: string, stamp: Stamp, file: Path)
    requires IsValidDeviceId(localId) && DateSeg(stamp.date) && Accepted(fs, localId, path) && ValidOwners(fs)
    requires Proper(fs, SceneOf(fs, localId, path, stamp)) && Done(fs, SceneOf(fs, localId, path, stamp))
    requires file in fs && fs[file] != Dir && SceneOf(fs, localId, path, stamp).item <= file && !Home(Parts(path))
    ensures !Sound(fs, SceneOf(fs, localId, path, stamp))
  {
    hide TidyPath, Parts, Item, Target, ValidOwner, IsValidDeviceId, DateSeg, Accepted, Placeable, Home, Owner,
      SceneOf, Room, Land, RestsWell, Tidy, IsTree, Done;
    var sc := SceneOf(fs, localId, path, stamp);
    var z := Relocated(sc.item, sc.dest, file);
    assert file[0] == sc.item[0];
    DoneHasRoom(fs, sc);
    TargetReal(fs, sc);
    BinTidy(fs, sc, file);
    OwnedHere(fs, file);
    if Sound(fs, sc) {
      SameOwnerValid(file, z);
      ItemKeepsOwner(fs, localId, path, stamp, file);
    }
  }

  lemma DoneHasRoom(fs: Fs, sc: Scene)
    requires Done(fs, sc)
    ensures Room(fs, sc).1
  {
  }

  // ---------- spellings that are refused ----------

  /** An empty space component: resolve_path takes every origin with a normal form for an escape, and
      the restore changes nothing. */
  lemma EmptySpaceRefused(fs: Fs, localId: string, path: string, stamp: Stamp)
    requires |Parts(path)| >= 5 && Parts(path)[3] == "" && OriginText(Parts(path)) != ""
             && OriginText(Parts(path)) != "/"
    ensures Restore(fs, localId, path, stamp).0 == fs && Restore(fs, localId, path, stamp).1.Err?
  {
    hide Resolve, Accepted, Parts, OriginText, Restore;
    EscapeIff(localId, "", Parts(path)[2], OriginText(Parts(path)));
    NotAccepted(fs, localId, path);
    RestoreRefused(fs, localId, path, stamp);
  }

  lemma NotAccepted(fs: Fs, localId: string, path: string)
    requires |Parts(path)| >= 5 && Resolve(localId, Parts(path)[3], Parts(path)[2], OriginText(Parts(path))).Err?
    ensures !Accepted(fs, localId, path)
  {
    hide Resolve, Parts, OriginText;
  }

  /** The test for escapes at work: the same item that is restored under its own path is answered with
      bad_path when an empty component comes after its device, although it is there. */
  lemma EscapeFires(fs: Fs, localId: string, date: string, device: string, space: string, rel: seq<string>,
                    stamp: Stamp)
    requires CanonicalItem(date, device, space, rel) && NoDotDot(rel) && Slot(date, device, space, rel) in fs
    ensures Restore(fs, localId, Join([RECYCLE, date, device, "", space] + rel), stamp) == (fs, Err(BadPath))
  {
    hide Restore, Resolve, Join, Split, Slashed, HasDotDot, Kept, NoDotDot, OriginParts, Normalize, IsValidDeviceId,
      IsValidSpace, Strip, DateSeg;
    var parts := [RECYCLE, date, device, "", space] + rel;
    EscapeText(date, device, space, rel);
    EscapeNames(date, device, space, rel);
    var origin := [space] + Origin(rel);
    CleanOrigin(rel);
    DeviceSpaceSegments(device, space);
    EscapeOrigin(date, device, space, rel);
    SlashIsTrivial(origin);
    RenormalizeIff(origin);
    SpaceHead(space);
    EscapeIff(localId, "", device, Join(origin));
    EscapeEvaluates(fs, localId, parts, stamp);
  }

  lemma SpaceHead(space: string)
    requires IsValidSpace(space)
    ensures !TildeOrDrive(space)
  {
  }

  lemma EscapeOrigin(date: string, device: string, space: string, rel: seq<string>)
    requires rel != []
    ensures OriginParts([RECYCLE, date, device, "", space] + rel) == [space] + Origin(rel)
  {
    hide Strip;
    var parts := [RECYCLE, date, device, "", space] + rel;
    assert parts[4..] == [space] + rel;
  }

  lemma EscapeEvaluates(fs: Fs, localId: string, parts: seq<string>, stamp: Stamp)
    requires |parts| >= 5 && Slashed(Join(parts)) == Join(parts) && RECYCLE + "/" <= Join(parts)
             && !HasDotDot(Join(parts))
    requires Split(Join(parts)) == parts && ExistsAt(fs, parts)
    requires Resolve(localId, parts[3], parts[2], Join(OriginParts(parts))) == Err(BadPath)
    ensures Restore(fs, localId, Join(parts), stamp) == (fs, Err(BadPath))
  {
    hide Resolve, Join, Split, Slashed, HasDotDot, OriginParts, ExistsAt, MoveToRecycle, Transfer;
  }

  lemma EscapeText(date: string, device: string, space: string, rel: seq<string>)
    requires DateSeg(date) && Addressable(device, space, rel) && NoDotDot(rel)
    ensures var text := Join([RECYCLE, date, device, "", space] + rel);
            Slashed(text) == text && RECYCLE + "/" <= text && !HasDotDot(text)
  {
    var head := [RECYCLE, date, device, "", space];
    var parts := head + rel;
    DeviceSpaceSegments(device, space);
    assert forall i :: 0 <= i < 5 ==> '\\' !in head[i] && !HasDotDot(head[i]);
    assert forall i :: 5 <= i < |parts| ==> parts[i] == rel[i - 5];
    JoinChars(parts, '\\');
    SlashedIdentity(Join(parts));
    JoinDotDot(parts);
    assert parts == [RECYCLE] + parts[1..];
    JoinAppend([RECYCLE], parts[1..]);
  }

  lemma EscapeNames(date: string, device: string, space: string, rel: seq<string>)
    requires DateSeg(date) && Addressable(device, space, rel)
    ensures var parts := [RECYCLE, date, device, "", space] + rel;
            Split(Join(parts)) == parts && Named(parts) == Slot(date, device, space, rel) && EndingOf(parts) == Plain
  {
    hide Split, Join, HasDotDot, IsValidDeviceId, IsValidSpace, Kept;
    var tail := [space] + rel;
    DeviceSpaceSegments(device, space);
    KeptNontrivial(tail);
    KeptFour(date, device, "", tail);
    hide Kept;
    assert [RECYCLE, date, device, "", space] + rel == [RECYCLE, date, device, ""] + tail;
    assert [RECYCLE, date] + [device] + [] + tail == Slot(date, device, space, rel);
    EscapeSplits(date, device, space, rel);
  }

  lemma EscapeSplits(date: string, device: string, space: string, rel: seq<string>)
    requires CleanSeg(date) && CleanSeg(device) && CleanSeg(space) && Clean(rel)
    ensures var parts := [RECYCLE, date, device, "", space] + rel;
            Split(Join(parts)) == parts && EndingOf(parts) == Plain
  {
    var parts := [RECYCLE, date, device, "", space] + rel;
    assert forall i :: 5 <= i < |parts| ==> parts[i] == rel[i - 5];
    SplitJoin(parts);
    assert Last(parts) == Last(rel);
  }

  /** A path or a target that ends in a "." component: the system refuses to rename it, so whatever
      else happens, every file stays where it is. */
  lemma DotMovesNothing(fs: Fs, localId: string, path: string, stamp: Stamp)
    requires Accepted(fs, localId, path)
    requires EndingOf(TargetParts(localId, Parts(path))) == Dot
             || (EndingOf(Parts(path)) == Dot && !There(fs, localId, Parts(path)))
    ensures var (after, r) := Restore(fs, localId, path, stamp);
            r.Err? && (forall p <- fs :: p in after && after[p] == fs[p]) && forall p <- after | p !in fs ::
                after[p] == Dir
  {
    hide Accepted, Restore, Transfer, EndingOf, TargetParts, Parts, There, Item, SlotOf, SlotParts, OriginText;
    var sc := SceneOf(fs, localId, path, stamp);
    RestoreMoves(fs, localId, path, stamp);
    if sc.there {
      DotRefused(fs, sc.dest, sc.slot);
    } else {
      DotRefused(fs, sc.item, sc.dest);
    }
  }

  lemma DotRefused(fs: Fs, src: Path, dst: Path)
    ensures var (after, done) := Transfer(fs, src, dst, Dot);
            !done && (forall p <- fs :: p in after && after[p] == fs[p]) && forall p <- after | p !in fs ::
                after[p] == Dir
  {
  }

  /** So does the path `.recycle/<date>/<device>/./`, which names a whole device. */
  lemma DotSpaceStays(localId: string, date: string, device: string)
    requires DateSeg(date) && IsValidDeviceId(device)
    ensures var path := Join([RECYCLE, date, device, ".", ""]);
            && Parts(path) == [RECYCLE, date, device, ".", ""] && Item(path) == [RECYCLE, date, device]
            && Target(localId, Parts(path)) == Ok([device]) && EndingOf(TargetParts(localId, Parts(path))) == Dot
  {
    hide Join, IsValidDeviceId, Target, TargetParts;
    var parts := [RECYCLE, date, device, ".", ""];
    DeviceSpaceSegments(device, "files");
    DotSpaceText(date, device);
    KeptFour(date, device, ".", [""]);
    KeptOne("");
    assert [RECYCLE, date, device, "."] + [""] == parts;
    assert [RECYCLE, date] + [device] + [] + [] == [RECYCLE, date, device];
    DotSpaceTarget(localId, date, device);
  }

  lemma DotSpaceText(date: string, device: string)
    requires CleanSeg(date) && CleanSeg(device)
    ensures Parts(Join([RECYCLE, date, device, ".", ""])) == [RECYCLE, date, device, ".", ""]
  {
    var parts := [RECYCLE, date, device, ".", ""];
    assert forall i :: 0 <= i < 5 ==> '\\' !in parts[i] && '/' !in parts[i];
    hide Split, Join, Slashed;
    JoinChars(parts, '\\');
    SlashedIdentity(Join(parts));
    SplitJoin(parts);
  }

  lemma DotSpaceTarget(localId: string, date: string, device: string)
    requires CleanSeg(device)
    ensures var parts := [RECYCLE, date, device, ".", ""];
            Target(localId, parts) == Ok([device]) && EndingOf(TargetParts(localId, parts)) == Dot
  {
    hide Normalize, BaseText, Push;
    var parts := [RECYCLE, date, device, ".", ""];
    EmptyOrigin(parts);
    assert Resolve(localId, ".", device, "") == Ok([device, "."]);
    KeptAppend([device], ["."]);
    KeptNontrivial([device]);
    KeptOne(".");
    assert [device] + ["."] == [device, "."] && [device] + [] == [device];
  }

  lemma EmptyOrigin(parts: seq<string>)
    requires |parts| == 5 && parts[4] == ""
    ensures OriginText(parts) == ""
  {
    OriginSplits(parts);
    StripTrivial("");
    JoinOne("");
    assert parts[4..4] == [] && [] + [""] == [""];
  }

  lemma JoinOne(part: string)
    ensures Join([part]) == part
  {
  }
}
