/** The paths that restore a whole space, `.recycle/<date>/<device>/<space>/`, or a whole device,
    `.recycle/<date>/<device>//`: what stands there makes room as a whole, its staging included. */
module WholeTrees {
  import opened Wrappers
  import opened Paths
  import opened Suffix
  import opened FileSystem
  import opened Layout
  import opened Recycle
  import opened RecycleLaws
  import opened Tidiness
  import opened TwoMoves
  import opened RestoreNames
  import opened RestoreAnywhere
  import opened RestoreCases

  /** The component after the device: a space, or nothing for the whole device. */
  predicate Third(third: string) {
    third == "" || IsValidSpace(third)
  }

  function WholeParts(date: string, device: string, third: string): seq<string> {
    [RECYCLE, date, device, third, ""]
  }

  function WholeText(date: string, device: string, third: string): string {
    Join(WholeParts(date, device, third))
  }

  function WholeDest(device: string, third: string): Path {
    [device] + Real(third)
  }

  function WholeItem(date: string, device: string, third: string): Path {
    [RECYCLE, date] + WholeDest(device, third)
  }

  // ---------- the names ----------

  lemma NoDots()
    ensures !HasDotDot(RECYCLE) && !HasDotDot("")
  {
  }

  lemma WholePath(date: string, device: string, third: string)
    requires DateSeg(date) && IsValidDeviceId(device) && Third(third)
    ensures var path, parts := WholeText(date, device, third), WholeParts(date, device, third);
            && Parts(path) == parts && Split(path) == parts
            && RECYCLE + "/" <= Slashed(path) && !HasDotDot(Slashed(path)) && Home(parts)
  {
    hide IsValidSpace, IsValidDeviceId, Split, Join, HasDotDot;
    var parts := WholeParts(date, device, third);
    DeviceSpaceSegments(device, if third == "" then "files" else third);
    DateIsSeg(date);
    NoDots();
    assert forall i :: 0 <= i < 5 ==> '\\' !in parts[i] && '/' !in parts[i] && !HasDotDot(parts[i]);
    JoinChars(parts, '\\');
    SlashedIdentity(Join(parts));
    JoinDotDot(parts);
    SplitJoin(parts);
    assert parts == [RECYCLE] + parts[1..];
    JoinAppend([RECYCLE], parts[1..]);
    JoinOne(RECYCLE);
  }

  lemma WholeNamed(date: string, device: string, third: string)
    requires DateSeg(date) && IsValidDeviceId(device) && Third(third)
    ensures var parts := WholeParts(date, device, third);
            Named(parts) == WholeItem(date, device, third) && EndingOf(parts) == Slash
  {
    hide Kept, IsValidDeviceId, IsValidSpace, Real;
    DeviceSpaceSegments(device, if third == "" then "files" else third);
    KeptFour(date, device, third, [""]);
    KeptOne("");
    NoReal();
    assert [RECYCLE, date, device, third] + [""] == WholeParts(date, device, third);
    RealSeg(device);
    assert [RECYCLE, date] + [device] + Real(third) + [] == [RECYCLE, date] + ([device] + Real(third));
    WholeEnding(date, device, third);
  }

  lemma NoReal()
    ensures Real("") == []
  {
  }

  lemma RealSeg(seg: string)
    requires CleanSeg(seg)
    ensures Real(seg) == [seg]
  {
  }

  lemma WholeEnding(date: string, device: string, third: string)
    requires CleanSeg(device) && (third == "" || CleanSeg(third))
    ensures EndingOf(WholeParts(date, device, third)) == Slash
  {
    var parts := WholeParts(date, device, third);
    assert parts[..4] == [RECYCLE, date, device, third]
           && [RECYCLE, date, device, third][..3] == [RECYCLE, date, device];
    assert EndingOf([RECYCLE, date, device]) == Plain;
    assert EndingOf([RECYCLE, date, device, third]) != Dot;
  }

  lemma WholeTarget(localId: string, date: string, device: string, third: string)
    requires IsValidDeviceId(device) && Third(third)
    ensures var parts := WholeParts(date, device, third);
            && OriginText(parts) == "" && Target(localId, parts) == Ok(WholeDest(device, third))
            && EndingOf(TargetParts(localId, parts)) == if third == "" then Slash else Plain
  {
    hide Normalize, BaseText, Push, Kept, IsValidSpace;
    var parts := WholeParts(date, device, third);
    EmptyOrigin(parts);
    DeviceSpaceSegments(device, if third == "" then "files" else third);
    assert Resolve(localId, third, device, "") == Ok([device, third]);
    KeptNontrivial([device]);
    KeptOne(third);
    KeptAppend([device], [third]);
    assert [device] + [third] == [device, third] && [device, third][..1] == [device];
    assert EndingOf([device]) == Plain;
  }

  /** The tree is moved to its own place below today's date, or to a bare suffix there. */
  lemma WholeSlot(fs: Fs, date: string, device: string, third: string, stamp: Stamp)
    requires DateSeg(date) && DateSeg(stamp.date) && IsValidDeviceId(device) && Third(third)
    ensures var parts, today := WholeParts(date, device, third), WholeItem(stamp.date, device, third);
            if today in fs && fs[today] == Dir then
              SlotOf(fs, parts, stamp) == today + ["~" + Decimal(stamp.ms)]
                && EndingOf(SlotParts(fs, parts, stamp)) == Plain
            else SlotOf(fs, parts, stamp) == today && EndingOf(SlotParts(fs, parts, stamp)) == Slash
  {
    hide Split, Join, IsValidDeviceId, IsValidSpace, DateSeg, Target, Parts, Strip, Real, Named, WholeItem, Decimal;
    var parts, plain := WholeParts(date, device, third), WholeParts(stamp.date, device, third);
    WholePath(stamp.date, device, third);
    WholeNamed(stamp.date, device, third);
    WholeTarget("", date, device, third);
    JoinFour(RECYCLE, stamp.date, device, third);
    JoinAppend([RECYCLE, stamp.date, device, third], [""]);
    assert [RECYCLE, stamp.date, device, third] + [""] == plain;
    JoinOne("");
    assert RECYCLE + "/" + stamp.date + "/" + device + "/" + third + "/" + "" == Join(plain);
    WholeSuffixed(device, third, stamp);
  }

  lemma WholeSuffixed(device: string, third: string, stamp: Stamp)
    requires DateSeg(stamp.date) && IsValidDeviceId(device) && Third(third)
    ensures var last := "~" + Decimal(stamp.ms);
            var text := WholeText(stamp.date, device, third) + "~" + Decimal(stamp.ms);
            Named(Split(text)) == WholeItem(stamp.date, device, third) + [last] && EndingOf(Split(text)) == Plain
  {
    hide Split, Join, IsValidDeviceId, IsValidSpace, Kept, Real;
    var plain, last := WholeParts(stamp.date, device, third), "~" + Decimal(stamp.ms);
    var long := [RECYCLE, stamp.date, device, third, last];
    JoinAppendText(plain, last);
    assert plain[..4] + ["" + last] == long && "" + last == last;
    assert Join(plain) + last == Join(plain) + "~" + Decimal(stamp.ms);
    DeviceSpaceSegments(device, if third == "" then "files" else third);
    DateIsSeg(stamp.date);
    DigitsPlain(stamp.ms);
    SplitJoin(long);
    KeptFour(stamp.date, device, third, [last]);
    KeptOne(last);
    RealTilde(last);
    RealSeg(device);
    assert [RECYCLE, stamp.date, device, third] + [last] == long;
    assert [RECYCLE, stamp.date] + [device] + Real(third) + [last]
           == [RECYCLE, stamp.date] + ([device] + Real(third)) + [last];
  }

  lemma RealTilde(seg: string)
    requires seg != "" && seg[0] == '~'
    ensures Real(seg) == [seg] && seg != "." && seg != ""
  {
  }

  /** The two moves such a request comes to. */
  lemma WholeScene(fs: Fs, localId: string, date: string, device: string, third: string, stamp: Stamp)
    requires DateSeg(date) && DateSeg(stamp.date) && IsValidDeviceId(device) && Third(third)
    requires WholeItem(date, device, third) in fs && fs[WholeItem(date, device, third)] == Dir
    ensures Accepted(fs, localId, WholeText(date, device, third))
    ensures var sc, today := SceneOf(fs, localId, WholeText(date, device, third), stamp),
              WholeItem(stamp.date, device, third);
            && sc.item == WholeItem(date, device, third) && sc.dest == WholeDest(device, third) && sc.second == Slash
               && sc.first != Dot
            && sc.slot == (if today in fs && fs[today] == Dir then today + ["~" + Decimal(stamp.ms)] else today)
            && (sc.there <==> sc.dest in fs && (third == "" ==> fs[sc.dest] == Dir))
  {
    hide Split, Join, IsValidDeviceId, IsValidSpace, DateSeg, Named, Real, WholeItem, WholeDest, Decimal, Slashed,
      HasDotDot, WholeText, WholeParts, EndingOf, SlotParts, SlotOf, OriginText, Resolve;
    WholePath(date, device, third);
    WholeNamed(date, device, third);
    WholeTarget(localId, date, device, third);
    WholeSlot(fs, date, device, third, stamp);
  }

  // ---------- when they are safe ----------

  lemma LongerThan(a: Path, p: Path)
    requires a <= p
    ensures p != a ==> |p| > |a|
  {
    if |p| == |a| { assert p == a; }
  }

  /** Restoring a whole space: files keep device and space wherever they rest. */
  lemma SpaceSound(fs: Fs, sc: Scene)
    requires |sc.dest| == 2 && sc.dest[0] != RECYCLE && sc.dest in fs && fs[sc.dest] == Dir && sc.there
    requires |sc.item| == 4 && sc.item[0] == RECYCLE && sc.item[2] == sc.dest[0] && sc.item[3] == sc.dest[1]
    requires |sc.slot| >= 4 && sc.slot[0] == RECYCLE && sc.slot[2] == sc.dest[0] && sc.slot[3] == sc.dest[1]
    requires sc.item in fs && fs[sc.item] == Dir && sc.item != sc.slot
    ensures Sound(fs, sc) <==> (Room(fs, sc).1 ==> forall p <- fs | sc.dest <= p :: !Staged(p))
  {
    hide Room, Land, Done;
    forall p <- fs | sc.dest <= p && fs[p] != Dir ensures Owner(Resting(sc, Done(fs, sc), p)) == Owner(p) {
      assert p[0] == sc.dest[0] && p[1] == sc.dest[1];
      LongerThan(sc.dest, p);
      var x := Relocated(sc.dest, sc.slot, p);
      assert sc.slot <= x && x[0] == sc.slot[0] && x[2] == sc.slot[2] && x[3] == sc.slot[3];
      PrefixTrans(sc.item, sc.slot, x);
      if sc.item <= sc.slot {
        ProperPrefix(sc.item, sc.slot);
        InsideParts(sc.item, sc.dest, sc.slot, p);
        var z := Relocated(sc.item, sc.dest, x);
        assert z[0] == sc.dest[0] && z[1] == sc.dest[1];
      }
    }
    forall p <- fs | sc.dest <= p ensures Resting(sc, Done(fs, sc), p) != p { RestsElsewhere(sc, Done(fs, sc), p); }
    forall p <- fs | sc.item <= p && fs[p] != Dir ensures Owner(Relocated(sc.item, sc.dest, p)) == Owner(p) {
      assert p[0] == sc.item[0] && p[2] == sc.item[2] && p[3] == sc.item[3];
      LongerThan(sc.item, p);
      var z := Relocated(sc.item, sc.dest, p);
      assert z[0] == sc.dest[0] && z[1] == sc.dest[1];
    }
  }

  /** Restoring a whole device: files keep device and space in its own place, and in no other. */
  lemma DeviceSound(fs: Fs, sc: Scene)
    requires |sc.dest| == 1 && sc.dest[0] != RECYCLE && sc.dest in fs && fs[sc.dest] == Dir && sc.there
             && ValidOwners(fs)
    requires |sc.item| == 3 && sc.item[0] == RECYCLE && sc.item[2] == sc.dest[0]
    requires 3 <= |sc.slot| <= 4 && sc.slot[0] == RECYCLE && sc.slot[2] == sc.dest[0]
             && (|sc.slot| == 4 ==> !IsValidSpace(sc.slot[3]))
    requires sc.item in fs && fs[sc.item] == Dir && sc.item != sc.slot
    ensures Sound(fs, sc) <==>
              (Room(fs, sc).1 ==> (forall p <- fs | sc.dest <= p :: !Staged(p))
                                  && (|sc.slot| == 4 ==> forall p <- fs | sc.dest <= p :: fs[p] == Dir))
  {
    hide Room, Land, Done, IsValidSpace, IsValidDeviceId;
    forall p <- fs | sc.dest <= p && fs[p] != Dir && !Staged(p)
      ensures Owner(Resting(sc, Done(fs, sc), p)) == Owner(p) <==> |sc.slot| == 3
    {
      DeviceFile(fs, sc, p);
    }
    forall p <- fs | sc.dest <= p ensures Resting(sc, Done(fs, sc), p) != p { RestsElsewhere(sc, Done(fs, sc), p); }
    forall p <- fs | sc.item <= p && fs[p] != Dir ensures Owner(Relocated(sc.item, sc.dest, p)) == Owner(p) {
      assert p[0] == sc.item[0] && p[2] == sc.item[2];
      LongerThan(sc.item, p);
      var z := Relocated(sc.item, sc.dest, p);
      assert z[0] == sc.dest[0] && z[1] == p[3];
    }
  }

  lemma DeviceFile(fs: Fs, sc: Scene, p: Path)
    requires |sc.dest| == 1 && sc.dest[0] != RECYCLE && ValidOwners(fs)
    requires |sc.item| == 3 && sc.item[0] == RECYCLE && sc.item != sc.slot
    requires 3 <= |sc.slot| <= 4 && sc.slot[0] == RECYCLE && sc.slot[2] == sc.dest[0]
             && (|sc.slot| == 4 ==> !IsValidSpace(sc.slot[3]))
    requires p in fs && sc.dest <= p && fs[p] != Dir && !Staged(p)
    ensures Owner(Resting(sc, Done(fs, sc), p)) == Owner(p) <==> |sc.slot| == 3
  {
    hide Done, IsValidSpace, IsValidDeviceId;
    assert p[0] == sc.dest[0] && ValidOwner(p);
    OfficialOwner(p);
    var x := Relocated(sc.dest, sc.slot, p);
    assert sc.slot <= x && x[0] == sc.slot[0] && x[2] == sc.slot[2] && x[|sc.slot|] == p[1];
    assert |sc.slot| == 4 ==> x[3] == sc.slot[3];
    if sc.item <= sc.slot {
      ProperPrefix(sc.item, sc.slot);
      InsideParts(sc.item, sc.dest, sc.slot, p);
      var z := Relocated(sc.item, sc.dest, x);
      assert z == sc.dest + sc.slot[3..] + p[1..];
      assert z[0] == sc.dest[0] && z[1] == sc.slot[3];
    }
  }

  /** Something stands at the target of such a request, and can be moved out of the way. */
  predicate WholeMoves(fs: Fs, localId: string, date: string, device: string, third: string, stamp: Stamp) {
    && Accepted(fs, localId, WholeText(date, device, third))
    && var sc := SceneOf(fs, localId, WholeText(date, device, third), stamp); sc.there && Room(fs, sc).1
  }

  lemma WholeSafe(fs: Fs, localId: string, path: string, stamp: Stamp)
    requires Accepted(fs, localId, path)
    requires var sc := SceneOf(fs, localId, path, stamp); sc.there && sc.dest in fs ==> fs[sc.dest] == Dir
    ensures RestoreSafe(fs, localId, path, stamp) <==> Sound(fs, SceneOf(fs, localId, path, stamp))
  {
    hide Accepted, SceneOf, Sound, Room;
  }

  lemma DirUnlessFile(fs: Fs, p: Path)
    requires ValidOwners(fs) && p in fs && |p| <= 2
    ensures fs[p] == Dir
  {
    OwnersAreDeep(p);
  }

  lemma OwnersAreDeep(p: Path)
    ensures ValidOwner(p) ==> |p| >= 3
  {
  }

  lemma NobodyThere(fs: Fs, sc: Scene)
    requires !sc.there && LandsWell(fs, sc)
    ensures Sound(fs, sc)
  {
  }

  lemma WholeShape(date: string, device: string, third: string, today: string)
    requires IsValidDeviceId(device) && Third(third)
    ensures device != RECYCLE
    ensures third != "" ==>
              && WholeDest(device, third) == [device, third]
              && WholeItem(date, device, third) == [RECYCLE, date, device, third]
    ensures third == "" ==>
              WholeDest(device, third) == [device] && WholeItem(date, device, third) == [RECYCLE, date, device]
    ensures WholeItem(date, device, third) == WholeItem(today, device, third) ==> date == today
  {
    assert device[0] != '.';
    assert WholeItem(date, device, third)[1] == date && WholeItem(today, device, third)[1] == today;
  }

  /** The path of a whole space is safe exactly when either nothing there can be moved out of the way,
      or nothing is being uploaded to that space. */
  lemma SpaceSafeIff(fs: Fs, localId: string, date: string, device: string, space: string, stamp: Stamp)
    requires DateSeg(date) && DateSeg(stamp.date) && IsValidDeviceId(device) && IsValidSpace(space) && ValidOwners(fs)
    requires [RECYCLE, date, device, space] in fs && fs[[RECYCLE, date, device, space]] == Dir
    ensures RestoreSafe(fs, localId, WholeText(date, device, space), stamp)
            <==> (WholeMoves(fs, localId, date, device, space, stamp) ==> forall p <- fs | [device, space] <= p ::
                    !Staged(p))
  {
    hide IsValidSpace, IsValidDeviceId, DateSeg, WholeText, SceneOf, Accepted, Sound, Decimal, RestoreSafe,
      ValidOwners, Room, WholeItem, WholeDest;
    SpaceIsThird(space);
    WholeShape(date, device, space, stamp.date);
    WholeShape(stamp.date, device, space, stamp.date);
    WholeScene(fs, localId, date, device, space, stamp);
    var sc := SceneOf(fs, localId, WholeText(date, device, space), stamp);
    if sc.there { DirUnlessFile(fs, sc.dest); }
    WholeSafe(fs, localId, WholeText(date, device, space), stamp);
    if sc.there {
      SlotShape(fs, sc, WholeItem(stamp.date, device, space), stamp);
      SpaceSound(fs, sc);
    } else {
      SpaceLands(fs, sc);
      NobodyThere(fs, sc);
    }
  }

  lemma SpaceIsThird(space: string)
    requires IsValidSpace(space)
    ensures Third(space) && space != "" && !IsValidSpace("")
  {
  }

  /** The slot is not the item: the item's own place is taken, by the item. */
  lemma SlotShape(fs: Fs, sc: Scene, today: Path, stamp: Stamp)
    requires sc.slot == if today in fs && fs[today] == Dir then today + ["~" + Decimal(stamp.ms)] else today
    requires sc.item in fs && fs[sc.item] == Dir && |today| == |sc.item|
    ensures sc.item != sc.slot && today <= sc.slot && |sc.slot| <= |today| + 1
    ensures |sc.slot| == |today| + 1 <==> today in fs && fs[today] == Dir
    ensures |sc.slot| == |today| + 1 ==> !IsValidSpace(sc.slot[|today|])
    ensures forall i :: 0 <= i < |today| ==> sc.slot[i] == today[i]
  {
    hide Decimal;
    if |sc.slot| == |today| + 1 { assert sc.slot[|today|][0] == '~'; }
  }

  lemma SpaceLands(fs: Fs, sc: Scene)
    requires |sc.dest| == 2 && sc.dest[0] != RECYCLE
    requires |sc.item| == 4 && sc.item[0] == RECYCLE && sc.item[2] == sc.dest[0] && sc.item[3] == sc.dest[1]
    requires sc.item in fs && fs[sc.item] == Dir
    ensures LandsWell(fs, sc)
  {
    forall p <- fs | sc.item <= p && fs[p] != Dir ensures Owner(Relocated(sc.item, sc.dest, p)) == Owner(p) {
      assert p[0] == sc.item[0] && p[2] == sc.item[2] && p[3] == sc.item[3];
      LongerThan(sc.item, p);
      var z := Relocated(sc.item, sc.dest, p);
      assert z[0] == sc.dest[0] && z[1] == sc.dest[1];
    }
  }

  lemma DeviceLands(fs: Fs, sc: Scene)
    requires |sc.dest| == 1 && sc.dest[0] != RECYCLE
    requires |sc.item| == 3 && sc.item[0] == RECYCLE && sc.item[2] == sc.dest[0]
    requires sc.item in fs && fs[sc.item] == Dir
    ensures LandsWell(fs, sc)
  {
    forall p <- fs | sc.item <= p && fs[p] != Dir ensures Owner(Relocated(sc.item, sc.dest, p)) == Owner(p) {
      assert p[0] == sc.item[0] && p[2] == sc.item[2];
      LongerThan(sc.item, p);
      var z := Relocated(sc.item, sc.dest, p);
      assert z[0] == sc.dest[0] && z[1] == p[3];
    }
  }

  /** The path of a whole device is safe exactly when either nothing there can be moved out of the way,
      or nothing is being uploaded to that device and, if today's bin holds that device already, it has
      no files. */
  lemma DeviceSafeIff(fs: Fs, localId: string, date: string, device: string, stamp: Stamp)
    requires DateSeg(date) && DateSeg(stamp.date) && IsValidDeviceId(device) && ValidOwners(fs)
    requires [RECYCLE, date, device] in fs && fs[[RECYCLE, date, device]] == Dir
    ensures RestoreSafe(fs, localId, WholeText(date, device, ""), stamp)
            <==> (WholeMoves(fs, localId, date, device, "", stamp) ==>
                    && (forall p <- fs | [device] <= p :: !Staged(p))
                    && ([RECYCLE, stamp.date, device] in fs && fs[[RECYCLE, stamp.date, device]] == Dir ==>
                          forall p <- fs | [device] <= p :: fs[p] == Dir))
  {
    hide IsValidSpace, IsValidDeviceId, DateSeg, WholeText, SceneOf, Accepted, Sound, Decimal, RestoreSafe,
      ValidOwners, Room, WholeItem, WholeDest;
    WholeShape(date, device, "", stamp.date);
    WholeShape(stamp.date, device, "", stamp.date);
    WholeScene(fs, localId, date, device, "", stamp);
    var sc := SceneOf(fs, localId, WholeText(date, device, ""), stamp);
    if sc.there { DirUnlessFile(fs, sc.dest); }
    WholeSafe(fs, localId, WholeText(date, device, ""), stamp);
    if sc.there {
      SlotShape(fs, sc, WholeItem(stamp.date, device, ""), stamp);
      DeviceSound(fs, sc);
    } else {
      DeviceLands(fs, sc);
      NobodyThere(fs, sc);
    }
  }

  // ---------- what becomes of an upload in progress ----------

  lemma TransferDir(fs: Fs, src: Path, dst: Path, e: Ending)
    requires src in fs && fs[src] == Dir && e != Dot
    ensures Transfer(fs, src, dst, e) == Transfer(fs, src, dst, Plain)
  {
    hide Rename, CanMkdirs;
  }

  /** What a restore of a whole space or device does to an upload in progress, on the first day anything
      is recycled: it is accepted, and the bytes received so far end in the bin under a name that no
      longer belongs to staging - they count as a stored copy, though no commit ever took them. */
  lemma WholeRestoreUnstages(fs: Fs, localId: string, date: string, device: string, third: string, space: string,
                             name: string, stamp: Stamp)
    requires IsTree(fs) && DateSeg(date) && DateSeg(stamp.date) && date != stamp.date
    requires IsValidDeviceId(device) && IsValidSpace(space) && (third == "" || third == space)
    requires WholeItem(date, device, third) in fs && fs[WholeItem(date, device, third)] == Dir
    requires [RECYCLE, stamp.date] !in fs
    requires [device, space, STAGING, name] in fs && fs[[device, space, STAGING, name]] != Dir
    ensures var (after, r) := Restore(fs, localId, WholeText(date, device, third), stamp);
            var bytes := [RECYCLE, stamp.date, device, space, STAGING, name];
            && r == Ok("") && bytes in after && after[bytes] == fs[[device, space, STAGING, name]]
            && !Staged(bytes) && bytes !in fs && Owner(bytes) == Some((device, space))
  {
    hide IsTree, IsValidSpace, IsValidDeviceId, DateSeg, WholeText, SceneOf, Accepted, Restore, Prune, WholeItem,
      WholeDest, Decimal;
    var path, staged := WholeText(date, device, third), [device, space, STAGING, name];
    var bytes := [RECYCLE, stamp.date, device, space, STAGING, name];
    WholeScene(fs, localId, date, device, third, stamp);
    var sc := SceneOf(fs, localId, path, stamp);
    NothingBelowMissing(fs, [RECYCLE, stamp.date]);
    assert [RECYCLE, stamp.date] <= bytes;
    WholePaths(date, device, third, space, name, stamp.date);
    assert [RECYCLE, stamp.date] <= WholeItem(stamp.date, device, third);
    PrefixIsDir(fs, sc.dest, staged);
    WentAside(fs, sc, staged, bytes, stamp.date);
    RestoreMoves(fs, localId, path, stamp);
    WholeOrigin(localId, date, device, third);
  }

  lemma WholeOrigin(localId: string, date: string, device: string, third: string)
    requires DateSeg(date) && IsValidDeviceId(device) && Third(third)
    ensures |Parts(WholeText(date, device, third))| >= 5 && OriginText(Parts(WholeText(date, device, third))) == ""
  {
    hide Parts, OriginText, WholeText, DateSeg, IsValidSpace, IsValidDeviceId;
    WholePath(date, device, third);
    WholeTarget(localId, date, device, third);
  }

  lemma WholePaths(date: string, device: string, third: string, space: string, name: string, today: string)
    requires IsValidDeviceId(device) && IsValidSpace(space) && (third == "" || third == space)
    ensures var dest, item, slot := WholeDest(device, third), WholeItem(date, device, third),
              WholeItem(today, device, third);
            var staged, bytes := [device, space, STAGING, name], [RECYCLE, today, device, space, STAGING, name];
            && dest != [] && dest[0] != RECYCLE && dest < staged && Relocated(dest, slot, staged) == bytes
            && |item| == |slot| >= 3 && item[0] == slot[0] == RECYCLE && item[1] == date && slot[1] == today
  {
    SpaceIsThird(space);
    WholeShape(date, device, third, today);
    WholeShape(today, device, third, today);
    var staged := [device, space, STAGING, name];
    if third == "" {
      assert staged[1..] == [space, STAGING, name];
    } else {
      assert staged[2..] == [STAGING, name];
    }
  }

  /** Nothing of the bin is below today's date yet, so the slot can be made. */
  lemma NoBinToday(fs: Fs, slot: Path, item: Path)
    requires IsTree(fs) && item in fs && |item| >= 3 && |slot| >= 3 && item[0] == slot[0] && slot[..2] !in fs
    ensures slot !in fs && CanMkdirs(fs, Parent(slot))
  {
    NothingBelowMissing(fs, slot[..2]);
    AncestorIsDir(fs, item, 1);
    AncestorIsDir(fs, item, 0);
    var dir := Parent(slot);
    forall k | 2 <= k <= |dir| ensures dir[..k] !in fs { assert slot[..2] <= dir[..k]; }
    assert dir[..1] == item[..1] && dir[..0] == item[..0];
    assert slot[..2] <= slot;
  }

  /** Both moves of such a restore, and where a file that stood below the target is after them. */
  lemma WentAside(fs: Fs, sc: Scene, staged: Path, bytes: Path, today: string)
    requires IsTree(fs) && sc.there && sc.first != Dot && sc.second == Slash
    requires sc.dest != [] && sc.dest[0] != RECYCLE && sc.dest < staged && bytes == Relocated(sc.dest, sc.slot, staged)
    requires |sc.item| == |sc.slot| >= 3 && sc.item[0] == sc.slot[0] == RECYCLE && sc.item[1] != sc.slot[1] == today
    requires sc.item in fs && fs[sc.item] == Dir && [RECYCLE, today] !in fs
    requires staged in fs && fs[staged] != Dir && sc.dest in fs && fs[sc.dest] == Dir
    ensures Done(fs, sc) && bytes in Prune(Left(fs, sc)) && Prune(Left(fs, sc))[bytes] == fs[staged]
  {
    hide IsTree, Transfer, Prune, CanMkdirs;
    assert sc.slot[..2] == [RECYCLE, today];
    NoBinToday(fs, sc.slot, sc.item);
    assert !(sc.dest <= sc.slot) && !(sc.dest <= sc.item) && !(sc.slot <= sc.dest) && !(sc.slot <= sc.item);
    TransferFree(fs, sc.dest, sc.slot);
    TransferDir(fs, sc.dest, sc.slot, sc.first);
    var made := Mkdirs(fs, Parent(sc.slot));
    var cleared := MoveTree(made, sc.dest, sc.slot);
    MoveTreeLeaves(made, sc.dest, sc.slot);
    RelocatedBack(sc.dest, sc.slot, staged);
    assert sc.item in cleared && cleared[sc.item] == Dir && bytes in cleared && cleared[bytes] == fs[staged];
    AboveStays(fs, made, sc.dest, sc.slot);
    assert !(sc.item <= bytes) by { assert bytes[1] == sc.slot[1]; }
    MkdirsIdle(cleared, Parent(sc.dest));
    assert sc.dest !in cleared by { assert sc.dest <= sc.dest; }
    TransferFree(cleared, sc.item, sc.dest);
    TransferDir(cleared, sc.item, sc.dest, sc.second);
    BinAside(sc.dest, bytes, bytes);
    FileStays(MoveTree(cleared, sc.item, sc.dest), bytes);
  }

  lemma AboveStays(fs: Fs, made: Fs, dest: Path, slot: Path)
    requires IsTree(fs) && dest in fs && dest != [] && dest[0] != RECYCLE && slot != [] && slot[0] == RECYCLE
    requires made == Mkdirs(fs, Parent(slot)) && forall q <- made :: !(slot <= q)
    ensures var g := MoveTree(made, dest, slot); Parent(dest) in g && g[Parent(dest)] == Dir
  {
    PrefixParent(dest, dest);
    assert !(dest <= Parent(dest)) && !(slot <= Parent(dest));
  }

  lemma FileStays(fs: Fs, p: Path)
    requires p in fs && fs[p] != Dir
    ensures p in Prune(fs) && Prune(fs)[p] == fs[p]
  {
    assert p <= p;
  }
}
