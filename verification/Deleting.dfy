/** What delete, recycle.restore and recycle.empty answer and leave behind, request by request. */
module Deleting {
  import opened Wrappers
  import opened Paths
  import opened Suffix
  import opened FileSystem
  import opened Layout
  import opened Recycle
  import opened RecycleLaws
  import opened RestoreLaws
  import opened Host
  import opened Requests
  import L = Looking
  import P = Protocol

  /** The frame is an owner's, passes the access check and reaches a master. */
  predicate MayDelete(site: Site, s: State, f: P.Frame, caller: string, trust: P.Trust) {
    && trust == P.Trust.Owner && HexId(caller)
    && SpaceName(f.space) && (Own(f, caller) || Shared(f.space)) && NamedDevice(f)
    && s.pointer.master == site.localId
  }

  // ---------- the place in the bin ----------

  /** Where in the bin a deleted path goes: under its date, device and space; with the time after its name if that
      place is taken. */
  function BinPlace(fs: Fs, stamp: Stamp, device: string, space: string, rel: seq<string>): Path
    requires rel != []
  {
    var plain := [".recycle", stamp.date, device, space] + rel;
    if plain in fs then plain[|plain| - 1 := plain[|plain| - 1] + "~" + Decimal(stamp.ms)] else plain
  }

  /** The name the reply gives it. */
  function BinName(fs: Fs, stamp: Stamp, device: string, space: string, rel: seq<string>): string {
    ".recycle/" + stamp.date + "/" + device + "/" + space + "/" + Join(rel)
    + if [".recycle", stamp.date, device, space] + rel in fs then "~" + Decimal(stamp.ms) else ""
  }

  /** Nothing prevents the move there: no file stands where a directory is needed, and a place that is taken in
      spite of its suffix holds a file for a file or an empty directory for a directory. */
  ghost predicate RoomAt(fs: Fs, from: Path, to: Path)
    requires from in fs && to != []
  {
    if to in fs then fs[from].Dir? == fs[to].Dir? && !HasChildren(fs, to) else CanMkdirs(fs, Parent(to))
  }

  /** The tree at one place is now at another, node for node; every other node is as it was, and what is new
      besides are directories on the way there. */
  ghost predicate Moved(was: Fs, now: Fs, from: Path, to: Path) {
    && (forall q <- was | from <= q :: Relocated(from, to, q) in now && now[Relocated(from, to, q)] == was[q])
    && (forall q <- now | to <= q :: Relocated(to, from, q) in was)
    && (forall q <- now :: !(from <= q))
    && (forall q <- was | !(from <= q) && q != to :: q in now && now[q] == was[q])
    && (forall q <- now | q !in was && !(to <= q) :: now[q] == Dir && q < to)
  }

  /** Nothing of any other device has changed. */
  ghost predicate OthersSame(was: Fs, now: Fs, device: string) {
    forall q: Path | q != [] && q[0] != device && q[0] != ".recycle" ::
      (q in now <==> q in was) && (q in was ==> now[q] == was[q])
  }

  lemma BinPlaceIs(fs: Fs, stamp: Stamp, device: string, space: string, rel: seq<string>)
    requires rel != []
    ensures BinPlace(fs, stamp, device, space, rel) == ChosenSlot(fs, device, space, rel, stamp)
  {
    var plain := Slot(stamp.date, device, space, rel);
    var n := |rel| - 1;
    assert plain[|plain| - 1] == rel[n];
    assert rel[n] + "~" + Decimal(stamp.ms) == WithSuffix(rel[n], stamp.ms);
    assert plain[|plain| - 1 := WithSuffix(rel[n], stamp.ms)]
           == Slot(stamp.date, device, space, Suffixed(rel, stamp.ms));
  }

  lemma BinNameIs(fs: Fs, stamp: Stamp, device: string, space: string, rel: seq<string>)
    requires Addressable(device, space, rel) && DateSeg(stamp.date)
    ensures BinName(fs, stamp, device, space, rel) == Join(ChosenSlot(fs, device, space, rel, stamp))
  {
    hide Join, IsValidDeviceId, IsValidSpace, CleanSeg, DateSeg, Split, Named;
    var plain := Slot(stamp.date, device, space, rel);
    SlotText(stamp.date, device, space, rel);
    JoinAppendText(plain, "~" + Decimal(stamp.ms));
    assert RECYCLE + "/" == ".recycle/";
    assert Last(plain) + ("~" + Decimal(stamp.ms)) == WithSuffix(Last(rel), stamp.ms);
    assert plain[..|plain| - 1] + [WithSuffix(Last(rel), stamp.ms)]
        == Slot(stamp.date, device, space, Suffixed(rel, stamp.ms));
    assert Join(plain) + "" == Join(plain);
  }

  lemma SlotAside(fs: Fs, device: string, space: string, rel: seq<string>, stamp: Stamp)
    requires IsTree(fs) && Addressable(device, space, rel) && DateSeg(stamp.date)
    ensures var from, to := Official(device, space, rel), ChosenSlot(fs, device, space, rel, stamp);
            && Relocatable(fs, from, to) && !(to <= from) && to != [] && from[0] == device != RECYCLE == to[0]
  {
    hide IsTree, DateSeg, CleanSeg;
    CleanSuffixed(rel, stamp.ms);
    assert device[0] != '.';
    OfficialToSlot(fs, stamp.date, device, space, rel, rel);
    OfficialToSlot(fs, stamp.date, device, space, rel, Suffixed(rel, stamp.ms));
  }

  lemma TransferMoves(fs: Fs, from: Path, to: Path)
    requires IsTree(fs) && from in fs && Relocatable(fs, from, to) && !(to <= from)
    ensures var (now, done) := Transfer(fs, from, to, Plain);
            && (done <==> RoomAt(fs, from, to))
            && (done ==> Moved(fs, now, from, to))
            && (!done ==> now == fs)
  {
    hide Transfer, Shuffled, Relocatable, IsTree, Moved;
    RelocatableApart(fs, from, to);
    if to in fs {
      TransferOnto(fs, from, to);
      if Transfer(fs, from, to, Plain).1 {
        LeafUnlessChildren(fs, to);
        MovedOnto(fs, from, to);
      }
    } else {
      TransferShuffles(fs, from, to);
      if CanMkdirs(fs, Parent(to)) {
        MovedInto(fs, from, to);
      }
    }
  }

  lemma RelocatableApart(fs: Fs, from: Path, to: Path)
    requires Relocatable(fs, from, to)
    ensures from != [] && to != [] && !(from <= to)
  {
  }

  lemma MovedInto(fs: Fs, from: Path, to: Path)
    requires from != [] && to != [] && !(from <= to) && !(to <= from)
    requires forall q <- Mkdirs(fs, Parent(to)) :: !(to <= q)
    ensures Moved(fs, MoveTree(Mkdirs(fs, Parent(to)), from, to), from, to)
  {
    var made := Mkdirs(fs, Parent(to));
    forall q | from <= q ensures q in made <==> q in fs {
      if q <= Parent(to) { PrefixParent(from, to); }
    }
    MovedTree(made, from, to);
  }

  lemma MovedOnto(fs: Fs, from: Path, to: Path)
    requires !(from <= to) && !(to <= from) && to in fs && forall q <- fs | to <= q :: q == to
    requires forall q <- RemoveTree(fs, to) :: !(to <= q)
    ensures Moved(fs, MoveTree(RemoveTree(fs, to), from, to), from, to)
  {
    forall q <- fs | from <= q ensures !(to <= q) { assert q != to; }
    MovedTree(RemoveTree(fs, to), from, to);
  }

  lemma MovedTree(fs: Fs, from: Path, to: Path)
    requires (forall q <- fs :: !(to <= q)) && !(from <= to) && !(to <= from)
    ensures var now := MoveTree(fs, from, to);
            && (forall q <- fs | from <= q :: Relocated(from, to, q) in now && now[Relocated(from, to, q)] == fs[q])
            && (forall q <- now | to <= q :: Relocated(to, from, q) in fs && from <= Relocated(to, from, q))
            && (forall q <- now :: !(from <= q))
            && (forall q <- fs | !(from <= q) :: q in now && now[q] == fs[q])
            && (forall q <- now | !(to <= q) :: q in fs)
  {
    MoveTreeLeaves(fs, from, to);
    forall q | from <= q ensures to <= Relocated(from, to, q) && Relocated(to, from, Relocated(from, to, q)) == q {
      RelocatedBack(from, to, q);
    }
    forall q | to <= q ensures from <= Relocated(to, from, q) { RelocatedBack(to, from, q); }
  }

  lemma OnlyOneDevice(was: Fs, now: Fs, from: Path, to: Path, device: string)
    requires from != [] && to != [] && from[0] == device && to[0] == ".recycle" && Moved(was, now, from, to)
    ensures OthersSame(was, now, device)
  {
    forall q: Path | q != [] && q[0] != device && q[0] != ".recycle"
      ensures !(from <= q) && !(to <= q) && !(q < to)
    {
    }
  }

  // ---------- delete ----------

  /** move_to_recycle on a clean path: refused, missing, or moved whole. */
  lemma Recycling(fs: Fs, localId: string, device: string, space: string, rel: seq<string>, stamp: Stamp)
    requires IsTree(fs) && Addressable(device, space, rel) && DateSeg(stamp.date)
    ensures var from, to := Official(device, space, rel), BinPlace(fs, stamp, device, space, rel);
            var (now, r) := MoveToRecycle(fs, localId, device, space, Join(rel), stamp);
            if TildeOrDrive(rel[0]) then now == fs && r == Err(BadPath)
            else if from !in fs then now == fs && r == Err(NotFound)
            else if !RoomAt(fs, from, to) then now == fs && r == Err(Internal)
            else
              && r == Ok(BinName(fs, stamp, device, space, rel))
              && Moved(fs, now, from, to) && OthersSame(fs, now, device)
  {
    hide IsTree, IsValidDeviceId, IsValidSpace, DateSeg, CleanSeg, MoveToRecycle, Transfer, Moved, OthersSame, RoomAt,
      Relocatable, TildeOrDrive, BinName, BinPlace;
    var from, to := Official(device, space, rel), BinPlace(fs, stamp, device, space, rel);
    BinPlaceIs(fs, stamp, device, space, rel);
    BinNameIs(fs, stamp, device, space, rel);
    MoveToRecycleClean(fs, localId, device, space, rel, stamp);
    SlotAside(fs, device, space, rel, stamp);
    if from in fs {
      TransferMoves(fs, from, to);
      if RoomAt(fs, from, to) { OnlyOneDevice(fs, Transfer(fs, from, to, Plain).0, from, to, device); }
    }
  }

  lemma DeleteBy(site: Site, s: State, f: P.Frame, caller: string, trust: P.Trust, loopback: bool, inp: Inputs)
    requires MayDelete(site, s, f, caller, trust) && f.op == P.Op.Delete
    ensures IsValidDeviceId(L.Whose(f, caller)) && IsValidSpace(f.space)
    ensures var (fs, r) := Delete(s.store.fs, site.localId, L.Whose(f, caller), f.space, f.path, inp.stamp);
            var (after, reply) := Handle(site, s, f, caller, trust, loopback, inp);
            match r
            case Err(e) => (after, reply) == (s.(store := s.store.(fs := fs)), Err(e))
            case Ok(item) =>
              && after == s.(store := s.store.(fs := fs), cursors := after.cursors)
              && reply.Ok? && reply.value.Gone? && reply.value.item == item
              && Credits(s.cursors, after.cursors, caller, f.upto, reply.value.applied)
  {
    hide Delete, HexId, TurnedAway;
    L.WhoseIsId(f, caller);
    DeletesLetIn(site, s, f, caller, loopback, inp);
    hide Handle;
  }

  /** delete: what the path names below the named device's space - the caller's own if none is named - moves to
      the bin as a whole and nothing of any other device changes; what is not there is already gone. */
  lemma DeleteLaw(site: Site, s: State, f: P.Frame, caller: string, trust: P.Trust, loopback: bool, inp: Inputs)
    requires MayDelete(site, s, f, caller, trust) && f.op == P.Op.Delete
    requires IsTree(s.store.fs) && DateSeg(inp.stamp.date)
    ensures var (after, r) := Handle(site, s, f, caller, trust, loopback, inp);
            var was, now := s.store.fs, after.store.fs;
            && after == s.(store := s.store.(fs := now), cursors := after.cursors)
            && if Normalize(f.path).Err? || TildeOrDrive(Normalize(f.path).value[0]) then
                 r == Err(BadPath) && after == s
               else
                 var device := if f.device == "" then caller else f.device;
                 var rel := Normalize(f.path).value;
                 var from, to := [device, f.space] + rel, BinPlace(was, inp.stamp, device, f.space, rel);
                 if from in was && !RoomAt(was, from, to) then r == Err(Internal) && after == s
                 else
                   && r.Ok? && r.value.Gone?
                   && Credits(s.cursors, after.cursors, caller, f.upto, r.value.applied)
                   && if from !in was then r.value.item == AlreadyGone && now == was
                      else
                        && r.value.item == Recycled(BinName(was, inp.stamp, device, f.space, rel))
                        && Moved(was, now, from, to) && OthersSame(was, now, device)
  {
    hide MayDelete, Handle, IsTree, IsValidDeviceId, IsValidSpace, DateSeg, CleanSeg, MoveToRecycle, Moved, OthersSame,
      RoomAt, TildeOrDrive, BinName, BinPlace, Normalize, Credits;
    DeleteBy(site, s, f, caller, trust, loopback, inp);
    if Normalize(f.path).Ok? {
      NormalizedIsClean(f.path);
      Recycling(s.store.fs, site.localId, L.Whose(f, caller), f.space, Normalize(f.path).value, inp.stamp);
    }
  }

  // ---------- recycle.restore ----------

  lemma RestoreBy(site: Site, s: State, f: P.Frame, caller: string, loopback: bool, inp: Inputs)
    requires f.op == P.RecycleRestore
    ensures var (fs, r) := Restore(s.store.fs, site.localId, f.recyclePath, inp.stamp);
            Handle(site, s, f, caller, P.Trust.Owner, loopback, inp)
            == (s.(store := s.store.(fs := fs)), if r.Ok? then Ok(Restored(r.value)) else Err(r.error))
  {
    hide Restore, TurnedAway;
    OthersLetIn(site, s, f, caller, loopback, inp);
    hide Handle;
  }

  /** A path string names something that exists, a directory if it ends in a slash or a dot. */
  predicate There(fs: Fs, parts: seq<string>)
    requires parts != []
  {
    var last := parts[|parts| - 1];
    Kept(parts) in fs && (last == "" || last == "." ==> fs[Kept(parts)] == Dir)
  }

  lemma {:induction false} ThereIs(fs: Fs, parts: seq<string>)
    requires parts != []
    ensures There(fs, parts) <==> ExistsAt(fs, parts)
  {
    hide Kept;
  }

  /** No directory of the bin is without a file. */
  ghost predicate NoneEmpty(fs: Fs) {
    forall q <- fs | [".recycle"] < q && fs[q] == Dir :: exists r <- fs :: q < r && fs[r] != Dir
  }

  lemma PrunedNoneEmpty(fs: Fs)
    ensures NoneEmpty(Prune(fs))
  {
    var now := Prune(fs);
    forall q <- now | [".recycle"] < q && now[q] == Dir ensures exists r <- now :: q < r && now[r] != Dir {
      assert HoldsFile(fs, q);
      var r :| r in fs && q <= r && fs[r] != Dir;
      assert r <= r && HoldsFile(fs, r);
      assert r[..|q|] == q && r[..|r|] == r != q;
      assert r in now && q < r;
    }
  }

  /** recycle.restore: the paths it refuses and those it does not find, nothing being changed; any other it
      answers, if it can be moved, with the path below the space, the suffix taken off its name, and leaves no
      directory of the bin empty. */
  lemma RestoreLaw(site: Site, s: State, f: P.Frame, caller: string, loopback: bool, inp: Inputs)
    requires f.op == P.RecycleRestore
    ensures var (after, r) := Handle(site, s, f, caller, P.Trust.Owner, loopback, inp);
            var name := Slashed(f.recyclePath);
            var parts := Split(name);
            && after == s.(store := s.store.(fs := after.store.fs))
            && if !(".recycle/" <= name) || (exists i :: 0 <= i < |name| - 1 && name[i] == '.' && name[i + 1] == '.')
               then r == Err(BadPath) && after == s
               else if !There(s.store.fs, parts) then r == Err(NotFound) && after == s
               else if |parts| < 5 then r == Err(BadPath) && after == s
               else
                 var n := |parts| - 1;
                 var rel := Join(parts[4..n] + [Strip(parts[n])]);
                 && (r.Ok? ==> r == Ok(Restored(rel)) && NoneEmpty(after.store.fs))
                 && (rel != "" && rel != "/" && (Normalize(rel).Err? || parts[3] == "") ==>
                       r == Err(BadPath) && after == s)
  {
    hide Slashed, Split, There, ExistsAt, Join, Strip, Resolve, MoveToRecycle, Transfer, Prune, Normalize, Handle,
      NoneEmpty, Restore;
    var name := Slashed(f.recyclePath);
    var parts := Split(name);
    RestoreBy(site, s, f, caller, loopback, inp);
    RestoreAnswers(s.store.fs, site.localId, f.recyclePath, inp.stamp);
  }

  lemma RestoreAnswers(fs: Fs, localId: string, path: string, stamp: Stamp)
    ensures var (now, r) := Restore(fs, localId, path, stamp);
            var name := Slashed(path);
            var parts := Split(name);
            if !(".recycle/" <= name) || (exists i :: 0 <= i < |name| - 1 && name[i] == '.' && name[i + 1] == '.') then
              r == Err(BadPath) && now == fs
            else if !There(fs, parts) then r == Err(NotFound) && now == fs
            else if |parts| < 5 then r == Err(BadPath) && now == fs
            else
              var n := |parts| - 1;
              var rel := Join(parts[4..n] + [Strip(parts[n])]);
              && (r.Ok? ==> r == Ok(rel) && NoneEmpty(now))
              && (rel != "" && rel != "/" && (Normalize(rel).Err? || parts[3] == "") ==> r == Err(BadPath) && now == fs)
  {
    hide Slashed, Split, There, ExistsAt, Join, Strip, Resolve, MoveToRecycle, Transfer, Prune, Normalize, NoneEmpty;
    var name := Slashed(path);
    var parts := Split(name);
    RestoredPruned(fs, localId, path, stamp);
    ThereIs(fs, parts);
    SlashPrefix();
    if |parts| >= 5 {
      var n := |parts| - 1;
      assert parts[4..][..n - 4] == parts[4..n];
      assert OriginParts(parts) == parts[4..n] + [Strip(parts[n])];
      EscapeIff(localId, parts[3], parts[2], Join(OriginParts(parts)));
    }
  }

  lemma RestoredPruned(fs: Fs, localId: string, path: string, stamp: Stamp)
    ensures var (now, r) := Restore(fs, localId, path, stamp); r.Ok? ==> NoneEmpty(now)
  {
    hide Slashed, Split, ExistsAt, Join, Resolve, MoveToRecycle, Transfer, Prune, NoneEmpty, OriginParts, EndingOf,
      Stricter, Named, HasDotDot;
    if Restore(fs, localId, path, stamp).1.Ok? {
      var parts := Split(Slashed(path));
      var rel := Join(OriginParts(parts));
      var dest := Resolve(localId, parts[3], parts[2], rel).value;
      var cleared := if ExistsAt(fs, dest) then MoveToRecycle(fs, localId, parts[2], parts[3], rel, stamp).0 else fs;
      PrunedNoneEmpty(Transfer(cleared, Named(parts), Named(dest), Stricter(EndingOf(parts), EndingOf(dest))).0);
    }
  }

  lemma SlashPrefix()
    ensures RECYCLE + "/" == ".recycle/"
  {
  }

  /** An item of the bin stands node for node at its target; every other file is as it was, nothing is left at its
      place in the bin, and outside the bin what is new besides are directories on the way. */
  ghost predicate Brought(was: Fs, now: Fs, slot: Path, dest: Path) {
    && (forall q <- was | slot <= q :: Relocated(slot, dest, q) in now && now[Relocated(slot, dest, q)] == was[q])
    && (forall q <- now | dest <= q :: Relocated(dest, slot, q) in was)
    && (forall q <- now :: !(slot <= q))
    && (forall q <- was | !(slot <= q) && (was[q] != Dir || !InRecycle(q)) :: q in now && now[q] == was[q])
    && (forall q <- now | q !in was && !(dest <= q) :: now[q] == Dir && q < dest)
  }

  /** Restoring an item of the bin whose target is free goes through exactly when no file stands on the way. */
  lemma RestoreToFreeTarget(site: Site, s: State, f: P.Frame, caller: string, loopback: bool, inp: Inputs,
                            date: string, device: string, space: string, rel: seq<string>)
    requires f.op == P.RecycleRestore && f.recyclePath == Join(Slot(date, device, space, rel))
    requires IsTree(s.store.fs) && CanonicalItem(date, device, space, rel) && NoDotDot(rel) && DateSeg(inp.stamp.date)
    requires Slot(date, device, space, rel) in s.store.fs && !TildeOrDrive(Origin(rel)[0])
    requires Official(device, space, Origin(rel)) !in s.store.fs
    ensures var (after, r) := Handle(site, s, f, caller, P.Trust.Owner, loopback, inp);
            var slot, dest := Slot(date, device, space, rel), Official(device, space, Origin(rel));
            if CanMkdirs(s.store.fs, Parent(dest)) then
                r == Ok(Restored(Join(Origin(rel)))) && Brought(s.store.fs, after.store.fs, slot, dest)
            else r == Err(Internal) && after == s
  {
    hide Handle, Restore, IsTree, IsValidDeviceId, IsValidSpace, DateSeg, Join, NoDotDot, Strip, CleanSeg, TildeOrDrive,
      Brought, CanMkdirs, Mkdirs, Prune, Transfer, MoveToRecycle;
    var slot, dest := Slot(date, device, space, rel), Official(device, space, Origin(rel));
    RestoreBy(site, s, f, caller, loopback, inp);
    RestoreClean(s.store.fs, site.localId, date, device, space, rel, inp.stamp);
    ItemAside(date, device, space, rel);
    BringsItem(s.store.fs, slot, dest);
  }

  lemma ItemAside(date: string, device: string, space: string, rel: seq<string>)
    requires CanonicalItem(date, device, space, rel)
    ensures var slot, dest := Slot(date, device, space, rel), Official(device, space, Origin(rel));
            slot[0] == RECYCLE && dest[0] == device && device != RECYCLE && |dest| > 1
  {
    assert device[0] != '.';
  }

  lemma BringsItem(fs: Fs, slot: Path, dest: Path)
    requires IsTree(fs) && slot in fs && slot != [] && dest != [] && dest !in fs
    requires slot[0] == RECYCLE && dest[0] != RECYCLE
    ensures var (now, done) := Transfer(fs, slot, dest, Plain);
            && (done <==> CanMkdirs(fs, Parent(dest))) && (!done ==> now == fs)
            && (done ==> Brought(fs, Prune(now), slot, dest))
  {
    hide Prune, Moved, Brought, IsTree, Mkdirs, CanMkdirs, Transfer;
    assert !(slot <= dest) && !(dest <= slot);
    if CanMkdirs(fs, Parent(dest)) {
      TransferFree(fs, slot, dest);
      MovedInto(fs, slot, dest);
      var now := MoveTree(Mkdirs(fs, Parent(dest)), slot, dest);
      PruneOnlyDrops(now);
      BroughtFrom(fs, now, Prune(now), slot, dest);
    } else {
      NoWayThere(fs, slot, dest);
    }
  }

  lemma NoWayThere(fs: Fs, slot: Path, dest: Path)
    requires dest != [] && !CanMkdirs(fs, Parent(dest))
    ensures Transfer(fs, slot, dest, Plain) == (fs, false)
  {
    hide CanMkdirs;
  }

  lemma PruneOnlyDrops(fs: Fs)
    requires IsTree(fs)
    ensures forall p :: !InRecycle(p) ==> (p in Prune(fs) <==> p in fs)
    ensures forall p <- fs | fs[p] != Dir :: p in Prune(fs)
    ensures forall p <- Prune(fs) :: p in fs && Prune(fs)[p] == fs[p]
  {
    PruneShuffles(fs);
  }

  lemma BroughtFrom(was: Fs, moved: Fs, now: Fs, slot: Path, dest: Path)
    requires slot != [] && dest != [] && slot[0] == RECYCLE && dest[0] != RECYCLE && Moved(was, moved, slot, dest)
    requires dest !in was
    requires (forall p :: !InRecycle(p) ==> (p in now <==> p in moved))
             && (forall p <- now :: p in moved && now[p] == moved[p])
    requires forall p <- moved | moved[p] != Dir :: p in now
    ensures Brought(was, now, slot, dest)
  {
    forall q | dest <= q ensures !InRecycle(q) { assert q[0] == dest[0]; }
  }

  /** Restoring the path a delete was answered with, by whichever owner, puts every file back and answers with the
      deleted path exactly when that is possible. */
  lemma DeleteThenRestore(site: Site, s: State, f: P.Frame, caller: string, trust: P.Trust, loopback: bool,
                          inp: Inputs, g: P.Frame, client: string, near: bool, later: Inputs)
    requires MayDelete(site, s, f, caller, trust) && f.op == P.Op.Delete && g.op == P.RecycleRestore
    requires IsTree(s.store.fs) && DateSeg(inp.stamp.date) && DateSeg(later.stamp.date)
             && inp.stamp.ms >= 1_000_000_000
    requires var (after, r) := Handle(site, s, f, caller, trust, loopback, inp);
             r.Ok? && r.value.Gone? && r.value.item == Recycled(g.recyclePath)
    requires Normalize(f.path).Ok?
             && BinPlace(s.store.fs, inp.stamp, L.Whose(f, caller), f.space, Normalize(f.path).value) !in s.store.fs
    ensures var device, rel := L.Whose(f, caller), Normalize(f.path).value;
            var after := Handle(site, s, f, caller, trust, loopback, inp).0;
            var (end, r) := Handle(site, after, g, client, P.Trust.Owner, near, later);
            && (r == Ok(Restored(Join(rel))) <==> Undoable(s.store.fs, device, f.space, rel, inp.stamp))
            && (r == Ok(Restored(Join(rel))) ==> SameFiles(s.store.fs, end.store.fs))
  {
    hide MayDelete, Handle, IsTree, IsValidDeviceId, IsValidSpace, DateSeg, CleanSeg, MoveToRecycle, Normalize,
      Credits, Restore, SameFiles, Undoable, BinPlace, ChosenSlot;
    var device, rel := L.Whose(f, caller), Normalize(f.path).value;
    DeleteBy(site, s, f, caller, trust, loopback, inp);
    NormalizedIsClean(f.path);
    BinPlaceIs(s.store.fs, inp.stamp, device, f.space, rel);
    RestoreUndoesDelete(s.store.fs, site.localId, device, f.space, rel, inp.stamp, later.stamp);
    RestoreBy(site, Handle(site, s, f, caller, trust, loopback, inp).0, g, client, near, later);
  }
}
