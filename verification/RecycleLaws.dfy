/** Laws of the recycle bin: nothing is lost, owners stay, and restore undoes delete. */
module RecycleLaws {
  import opened Wrappers
  import opened Paths
  import opened Suffix
  import opened FileSystem
  import opened Layout
  import opened Recycle

  // ---------- the string operations on clean paths ----------

  predicate Addressable(device: string, space: string, rel: seq<string>) {
    IsValidDeviceId(device) && IsValidSpace(space) && Clean(rel)
  }

  function Official(device: string, space: string, rel: seq<string>): Path {
    [device, space] + rel
  }

  function Slot(date: string, device: string, space: string, rel: seq<string>): Path {
    [RECYCLE, date, device, space] + rel
  }

  function Suffixed(rel: seq<string>, ms: nat): seq<string>
    requires rel != []
  {
    rel[..|rel| - 1] + [WithSuffix(Last(rel), ms)]
  }

  /** The place move_to_recycle picks. */
  function ChosenSlot(fs: Fs, device: string, space: string, rel: seq<string>, stamp: Stamp): Path
    requires rel != []
  {
    var plain := Slot(stamp.date, device, space, rel);
    if plain in fs then Slot(stamp.date, device, space, Suffixed(rel, stamp.ms)) else plain
  }

  lemma CleanSuffixed(rel: seq<string>, ms: nat)
    requires Clean(rel)
    ensures Clean(Suffixed(rel, ms))
  {
    forall c | c in Decimal(ms) ensures IsDigit(c) { }
  }

  lemma DeviceSpaceSegments(device: string, space: string)
    requires IsValidDeviceId(device) && IsValidSpace(space)
    ensures CleanSeg(device) && CleanSeg(space)
    ensures !HasDotDot(device) && !HasDotDot(space)
  {
    forall i | 0 <= i < |device|
      ensures device[i] != '.' && device[i] != '/' && device[i] != '\\' && device[i] != '\0'
    {
    }
    forall i | 0 <= i < |space| ensures space[i] != '.' && space[i] != '/' && space[i] != '\\' && space[i] != '\0' { }
  }

  lemma JoinFour(a: string, b: string, c: string, d: string)
    ensures Join([a, b, c, d]) == a + "/" + b + "/" + c + "/" + d
  {
    var whole := [a, b, c, d];
    assert whole[1..] == [b, c, d] && whole[1..][1..] == [c, d] && whole[1..][1..][1..] == [d];
    assert Join([d]) == d;
    assert Join([c, d]) == c + "/" + d;
    assert Join([b, c, d]) == b + "/" + (c + "/" + d);
    assert a + "/" + (b + "/" + (c + "/" + d)) == a + "/" + b + "/" + c + "/" + d;
  }

  /** The string a slot is written as, and that it reads back as that slot. */
  lemma SlotText(date: string, device: string, space: string, rel: seq<string>)
    requires DateSeg(date) && Addressable(device, space, rel)
    ensures RECYCLE + "/" + date + "/" + device + "/" + space + "/" + Join(rel) == Join(Slot(date, device, space, rel))
    ensures Split(Join(Slot(date, device, space, rel))) == Slot(date, device, space, rel)
    ensures Named(Slot(date, device, space, rel)) == Slot(date, device, space, rel)
            && EndingOf(Slot(date, device, space, rel)) == Plain
  {
    var head := [RECYCLE, date, device, space];
    var slot := Slot(date, device, space, rel);
    DeviceSpaceSegments(device, space);
    JoinAppend(head, rel);
    JoinFour(RECYCLE, date, device, space);
    assert RECYCLE + "/" + date + "/" + device + "/" + space + "/" + Join(rel) == Join(head) + "/" + Join(rel);
    SplitJoin(slot);
    KeptNontrivial(slot);
  }

  /** The escape test lets everything through that is joined to a base with a real last component. */
  lemma InsideBase(text: string, more: string)
    requires text != "" && text[|text| - 1] != '/'
    ensures text + "/" <= Push(text, more)
  {
  }

  lemma BaseEnds(head: string, space: string)
    ensures BaseText(head, space) != ""
    ensures BaseText(head, space)[|BaseText(head, space)| - 1] == if space == "" then '/' else space[|space| - 1]
  {
  }

  lemma OfficialText(device: string, space: string, rel: seq<string>)
    requires Addressable(device, space, rel)
    ensures Named(Official(device, space, rel)) == Official(device, space, rel)
            && EndingOf(Official(device, space, rel)) == Plain
  {
    hide IsValidDeviceId, IsValidSpace;
    DeviceSpaceSegments(device, space);
    var full := Official(device, space, rel);
    forall i | 0 <= i < |full| ensures CleanSeg(full[i]) {
      if i >= 2 { assert full[i] == rel[i - 2]; }
    }
    KeptNontrivial(full);
  }

  /** With a space in place, the escape test lets every normal form through. */
  lemma StaysInside(head: string, space: string, more: string)
    requires space != "" && '/' !in space
    ensures BaseText(head, space) + "/" <= Push(BaseText(head, space), more)
  {
    BaseEnds(head, space);
    InsideBase(BaseText(head, space), more);
    hide BaseText;
  }

  lemma ResolveClean(localId: string, device: string, space: string, rel: seq<string>)
    requires Addressable(device, space, rel)
    ensures Resolve(localId, space, device, Join(rel)) ==
            if TildeOrDrive(rel[0]) then Err(BadPath) else Ok(Official(device, space, rel))
  {
    hide IsValidDeviceId, IsValidSpace, Named, Normalize, BaseText, Push;
    DeviceSpaceSegments(device, space);
    CleanJoin(rel);
    SlashIsTrivial(rel);
    RenormalizeIff(rel);
    StaysInside(device, space, Join(rel));
  }

  lemma SlashIsTrivial(rel: seq<string>)
    requires Clean(rel)
    ensures Join(rel) != "" && Join(rel) != "/"
  {
    CleanJoin(rel);
  }

  /** When resolve_path refuses: where normalisation does, and where the test for leaving the base
      fires, which is for every path with a normal form if the space is empty or ends in a separator.
      Otherwise it appends clean segments to the base. */
  lemma EscapeIff(localId: string, space: string, device: string, rel: string)
    ensures Resolve(localId, space, device, rel).Err? <==>
              rel != "" && rel != "/" && (Normalize(rel).Err? || space == "" || space[|space| - 1] == '/')
    ensures var base := [if device == "" then localId else device, space];
            match Resolve(localId, space, device, rel)
            case Err(e) => e == BadPath
            case Ok(full) =>
              full == base || (Normalize(rel).Ok? && Clean(Normalize(rel).value) && full == base + Normalize(rel).value)
  {
    hide Kept, BaseText, Normalize;
    var head := if device == "" then localId else device;
    if rel != "" && rel != "/" && Normalize(rel).Ok? {
      var segs := Normalize(rel).value;
      NormalizedIsClean(rel);
      BaseEnds(head, space);
      CleanJoin(segs);
      KeptNontrivial(segs);
      KeptAppend([head, space], segs);
      if space == "" || space[|space| - 1] == '/' {
        Leaves(BaseText(head, space), Join(segs));
      } else {
        InsideBase(BaseText(head, space), Join(segs));
      }
    }
  }

  lemma Leaves(text: string, more: string)
    requires text != "" && text[|text| - 1] == '/' && more != "" && more[0] != '/'
    ensures !(text + "/" <= Push(text, more))
  {
    assert (text + "/")[|text|] == '/' && (text + more)[|text|] == more[0];
  }

  /** So with a space in place, as the access check demands everywhere but for recycle.restore, the
      test never fires. */
  lemma EscapeUnreachable(localId: string, space: string, device: string, rel: string)
    requires space != "" && '/' !in space
    ensures Resolve(localId, space, device, rel).Err? <==> rel != "" && rel != "/" && Normalize(rel).Err?
  {
    EscapeIff(localId, space, device, rel);
    hide Resolve, Normalize;
  }

  lemma RecycleNameClean(fs: Fs, device: string, space: string, rel: seq<string>, stamp: Stamp)
    requires Addressable(device, space, rel) && DateSeg(stamp.date)
    ensures RecycleName(fs, device, space, Join(rel), stamp) == Join(ChosenSlot(fs, device, space, rel, stamp))
    ensures var slot := ChosenSlot(fs, device, space, rel, stamp);
            Split(Join(slot)) == slot && Named(slot) == slot && EndingOf(slot) == Plain
  {
    var plain := Slot(stamp.date, device, space, rel);
    var suffixed := Slot(stamp.date, device, space, Suffixed(rel, stamp.ms));
    SlotText(stamp.date, device, space, rel);
    CleanSuffixed(rel, stamp.ms);
    SlotText(stamp.date, device, space, Suffixed(rel, stamp.ms));
    JoinAppendText(plain, "~" + Decimal(stamp.ms));
    assert Last(plain) + ("~" + Decimal(stamp.ms)) == WithSuffix(Last(rel), stamp.ms);
    assert plain[..|plain| - 1] + [WithSuffix(Last(rel), stamp.ms)] == suffixed;
    assert Join(plain) + "~" + Decimal(stamp.ms) == Join(plain) + ("~" + Decimal(stamp.ms));
  }

  /** move_to_recycle on a clean path, without strings. */
  lemma MoveToRecycleClean(fs: Fs, localId: string, device: string, space: string, rel: seq<string>, stamp: Stamp)
    requires Addressable(device, space, rel) && DateSeg(stamp.date)
    ensures MoveToRecycle(fs, localId, device, space, Join(rel), stamp) ==
            var full := Official(device, space, rel);
            if TildeOrDrive(rel[0]) then (fs, Err(BadPath))
            else if full !in fs then (fs, Err(NotFound))
            else
              var slot := ChosenSlot(fs, device, space, rel, stamp);
              var (after, done) := Transfer(fs, full, slot, Plain);
              (after, if done then Ok(Join(slot)) else Err(Internal))
  {
    hide IsValidDeviceId, IsValidSpace, Join, Transfer, Resolve, RecycleName, Split, Named, CleanSeg, DateSeg,
      TildeOrDrive;
    OfficialText(device, space, rel);
    ResolveClean(localId, device, space, rel);
    RecycleNameClean(fs, device, space, rel, stamp);
  }

  // ---------- conservation of a single move ----------

  /** Making directories below the official tree or the bin, outside staging. */
  lemma MkdirsShuffles(fs: Fs, p: Path)
    requires IsTree(fs) && CanMkdirs(fs, p) && forall q :: q <= p ==> !Staged(q)
    ensures Shuffled(fs, Mkdirs(fs, p))
  {
    MkdirsTree(fs, p);
    DirsOnly(fs, Mkdirs(fs, p));
  }

  lemma TransferTree(fs: Fs, src: Path, dst: Path, e: Ending)
    requires IsTree(fs)
    ensures IsTree(Transfer(fs, src, dst, e).0)
  {
    hide IsTree, Rename, CanMkdirs, Mkdirs, SpellingAllows;
    if dst != [] && CanMkdirs(fs, Parent(dst)) {
      MkdirsTree(fs, Parent(dst));
      var made := Mkdirs(fs, Parent(dst));
      if src in made && Rename(made, src, dst).Ok? {
        RenameIsTree(made, src, dst);
      }
    }
  }

  lemma MoveToRecycleTree(fs: Fs, localId: string, device: string, space: string, rel: string, stamp: Stamp)
    requires IsTree(fs)
    ensures IsTree(MoveToRecycle(fs, localId, device, space, rel, stamp).0)
  {
    hide IsTree, Transfer, Resolve, RecycleName, Split, Named, EndingOf, ExistsAt;
    var full := Resolve(localId, space, device, rel);
    if full.Ok? {
      var parts := Split(RecycleName(fs, device, space, rel, stamp));
      TransferTree(fs, Named(full.value), Named(parts), Stricter(EndingOf(full.value), EndingOf(parts)));
    }
  }

  /** src may go to dst as far as owners and the staging area are concerned. */
  ghost predicate Relocatable(fs: Fs, src: Path, dst: Path) {
    && src != [] && dst != [] && !(src <= dst)
    && (forall q :: q <= dst ==> !Staged(q))
    && KeepsOwner(src, dst, fs)
  }

  /** A transfer to a free name whose directories can be made goes through. */
  lemma TransferFree(fs: Fs, src: Path, dst: Path)
    requires IsTree(fs) && src in fs && src != [] && dst != [] && dst !in fs && !(src <= dst)
    requires CanMkdirs(fs, Parent(dst))
    ensures var made := Mkdirs(fs, Parent(dst));
            && IsTree(made) && Parent(dst) in made && made[Parent(dst)] == Dir && (forall q <- made :: !(dst <= q))
            && Transfer(fs, src, dst, Plain) == (MoveTree(made, src, dst), true)
            && IsTree(MoveTree(made, src, dst))
  {
    var made := Mkdirs(fs, Parent(dst));
    MkdirsTree(fs, Parent(dst));
    assert !(dst <= Parent(dst)) && dst !in made;
    RenameSucceeds(made, src, dst);
    PrefixParent(src, dst);
    MoveTreeIsTree(made, src, dst);
  }

  /** A transfer to a free name shuffles files, whether or not it goes through; it goes through
      exactly when no file stands where a directory is needed. */
  lemma TransferShuffles(fs: Fs, src: Path, dst: Path)
    requires IsTree(fs) && src in fs && dst !in fs && Relocatable(fs, src, dst)
    ensures Shuffled(fs, Transfer(fs, src, dst, Plain).0)
    ensures Transfer(fs, src, dst, Plain).1 <==> CanMkdirs(fs, Parent(dst))
    ensures Transfer(fs, src, dst, Plain).1 ==>
              var made := Mkdirs(fs, Parent(dst));
              (forall q <- made :: !(dst <= q)) && Transfer(fs, src, dst, Plain).0 == MoveTree(made, src, dst)
    ensures !Transfer(fs, src, dst, Plain).1 ==> Transfer(fs, src, dst, Plain).0 == fs
  {
    if CanMkdirs(fs, Parent(dst)) {
      var made := Mkdirs(fs, Parent(dst));
      MkdirsShuffles(fs, Parent(dst));
      TransferFree(fs, src, dst);
      KeepsOwnerAfterMkdirs(fs, src, dst);
      MoveShuffles(made, src, dst);
      ShuffledTrans(fs, made, MoveTree(made, src, dst));
    } else {
      ShuffledSelf(fs);
    }
  }

  lemma KeepsOwnerAfterMkdirs(fs: Fs, src: Path, dst: Path)
    requires Relocatable(fs, src, dst)
    ensures KeepsOwner(src, dst, Mkdirs(fs, Parent(dst)))
  {
    var made := Mkdirs(fs, Parent(dst));
    forall p <- made | p !in fs ensures !(src <= p) {
      assert p <= Parent(dst) && p <= dst;
    }
  }

  lemma OfficialToSlot(fs: Fs, date: string, device: string, space: string, rel: seq<string>, to: seq<string>)
    requires Addressable(device, space, rel) && Clean(to)
    ensures Relocatable(fs, Official(device, space, rel), Slot(date, device, space, to))
    ensures Relocatable(fs, Slot(date, device, space, to), Official(device, space, rel))
  {
    var full, slot := Official(device, space, rel), Slot(date, device, space, to);
    assert device[0] != '.' && device != RECYCLE;
    assert full[0] == device && full[1] == space && full[2] == rel[0];
    assert rel[0] != STAGING;
    assert slot[0] == RECYCLE && slot[2] == device && slot[3] == space;
    assert !(full <= slot) && !(slot <= full);
    forall q | q <= slot ensures !Staged(q) { if |q| > 0 { assert q[0] == slot[0]; } }
    forall q | q <= full ensures !Staged(q) { if |q| >= 3 { assert q[2] == full[2]; } }
    forall p <- fs | full <= p
      ensures var q := Relocated(full, slot, p); !Staged(p) && !Staged(q) && Owner(q) == Owner(p)
    {
      assert p[0] == full[0] && p[1] == full[1] && p[2] == full[2];
    }
    forall p <- fs | slot <= p
      ensures var q := Relocated(slot, full, p); !Staged(p) && !Staged(q) && Owner(q) == Owner(p)
    {
      assert p[0] == slot[0] && p[2] == slot[2] && p[3] == slot[3];
      var q := Relocated(slot, full, p);
      assert q[0] == full[0] && q[1] == full[1] && q[2] == full[2];
    }
  }

  /** The move replaces a file by a file. */
  predicate Clobbers(fs: Fs, src: Path, dst: Path)
    requires src in fs
  {
    fs[src] != Dir && dst in fs && fs[dst] != Dir
  }

  lemma MkdirsIdle(fs: Fs, p: Path)
    requires IsTree(fs) && p in fs && fs[p] == Dir
    ensures CanMkdirs(fs, p) && Mkdirs(fs, p) == fs
  {
    forall k | 0 <= k <= |p| ensures p[..k] in fs && fs[p[..k]] == Dir {
      if k < |p| { AncestorIsDir(fs, p, k); } else { assert p[..k] == p; }
    }
    forall q | q <= p ensures q in fs { assert q == p[..|q|]; }
    assert Mkdirs(fs, p).Keys == fs.Keys;
  }

  lemma RemoveLeafCopies(fs: Fs, p: Path, c: Bytes)
    requires p in fs && !Staged(p) && forall q <- fs :: p <= q ==> q == p
    ensures Copies(RemoveTree(fs, p), c) == Copies(fs, c) - (if fs[p] == Blob(c) then 1 else 0)
  {
    assert Holders(RemoveTree(fs, p), c) == Holders(fs, c) - {p};
  }

  lemma DropLeaf(fs: Fs, p: Path)
    requires IsTree(fs) && p in fs && p != [] && !Staged(p) && forall q <- fs :: p <= q ==> q == p
    ensures Rearranged(fs, RemoveTree(fs, p), if fs[p].Blob? then multiset{fs[p].data} else multiset{})
  {
    RemoveTreeIsTree(fs, p);
    forall c
      ensures Copies(RemoveTree(fs, p), c) == Copies(fs, c) - (if fs[p] == Blob(c) then 1 else 0)
    {
      RemoveLeafCopies(fs, p, c);
    }
    forall q | Staged(q) && p <= q ensures q !in fs { }
  }

  /** A transfer onto an occupied name: refused, or the same as clearing the name first. */
  lemma TransferOnto(fs: Fs, src: Path, dst: Path)
    requires IsTree(fs) && src in fs && dst in fs && Relocatable(fs, src, dst) && !(dst <= src)
    ensures var (after, done) := Transfer(fs, src, dst, Plain);
            var clash := fs[src].Dir? != fs[dst].Dir? || HasChildren(fs, dst);
            && (done <==> !clash)
            && after == (if clash then fs else Transfer(RemoveTree(fs, dst), src, dst, Plain).0)
            && (done ==> after == MoveTree(RemoveTree(fs, dst), src, dst))
    ensures var g := RemoveTree(fs, dst);
            && IsTree(g) && src in g && dst !in g && Relocatable(g, src, dst) && CanMkdirs(g, Parent(dst))
               && Mkdirs(g, Parent(dst)) == g
            && Shuffled(g, Transfer(g, src, dst, Plain).0)
  {
    var g := RemoveTree(fs, dst);
    MkdirsIdle(fs, Parent(dst));
    RemoveTreeIsTree(fs, dst);
    PrefixParent(dst, dst);
    MkdirsIdle(g, Parent(dst));
    TransferShuffles(g, src, dst);
  }

  lemma LeafUnlessChildren(fs: Fs, p: Path)
    requires !HasChildren(fs, p)
    ensures forall q <- fs :: p <= q ==> q == p
  {
    forall q <- fs | p <= q ensures q == p {
      assert q[..|p|] + q[|p|..] == q;
    }
  }

  /** What a plain rename destroys: the file it replaces by another. */
  function Replaced(fs: Fs, src: Path, dst: Path): multiset<Bytes>
    requires src in fs
  {
    if Clobbers(fs, src, dst) && fs[dst].Blob? then multiset{fs[dst].data} else multiset{}
  }

  /** A transfer rearranges files, whether or not it goes through, and loses just the one it replaces. */
  lemma TransferRearranges(fs: Fs, src: Path, dst: Path)
    requires IsTree(fs) && src in fs && Relocatable(fs, src, dst) && !(dst <= src)
    ensures Rearranged(fs, Transfer(fs, src, dst, Plain).0, Replaced(fs, src, dst))
  {
    hide Transfer, Shuffled, Rearranged, Relocatable, IsTree;
    var after := Transfer(fs, src, dst, Plain).0;
    NothingLost(fs, after);
    if dst !in fs {
      TransferShuffles(fs, src, dst);
    } else {
      TransferOnto(fs, src, dst);
      ShuffledSelf(fs);
      NothingLost(RemoveTree(fs, dst), after);
      if Transfer(fs, src, dst, Plain).1 {
        LeafUnlessChildren(fs, dst);
        RelocatableTarget(fs, src, dst);
        DropLeaf(fs, dst);
        var lost := if fs[dst].Blob? then multiset{fs[dst].data} else multiset{};
        RearrangedTrans(fs, RemoveTree(fs, dst), after, lost, multiset{});
        assert lost + multiset{} == lost == Replaced(fs, src, dst);
      } else {
        FileHasNoChildren(fs, dst);
      }
    }
  }

  lemma RelocatableTarget(fs: Fs, src: Path, dst: Path)
    requires Relocatable(fs, src, dst)
    ensures dst != [] && !Staged(dst)
  {
    assert dst <= dst;
  }

  lemma FileHasNoChildren(fs: Fs, p: Path)
    requires IsTree(fs) && p in fs
    ensures fs[p] != Dir ==> !HasChildren(fs, p)
  {
    if HasChildren(fs, p) {
      var q :| q in fs && p < q;
      PrefixIsDir(fs, p, q);
    }
  }

  /** A transfer that replaces no file by a file shuffles files, whether or not it goes through. */
  lemma TransferKeeps(fs: Fs, src: Path, dst: Path)
    requires IsTree(fs) && src in fs && Relocatable(fs, src, dst) && !(dst <= src) && !Clobbers(fs, src, dst)
    ensures Shuffled(fs, Transfer(fs, src, dst, Plain).0)
  {
    hide Transfer, Shuffled, Rearranged, Relocatable, IsTree;
    TransferRearranges(fs, src, dst);
    NothingLost(fs, Transfer(fs, src, dst, Plain).0);
  }

  /** The name move_to_recycle is about to use is free. */
  predicate NameFree(fs: Fs, device: string, space: string, rel: seq<string>, stamp: Stamp)
    requires rel != []
  {
    ChosenSlot(fs, device, space, rel, stamp) !in fs
  }

  /** The move replaces a file that is already in the bin. */
  predicate Overwrites(fs: Fs, device: string, space: string, rel: seq<string>, stamp: Stamp)
    requires rel != []
  {
    var full := Official(device, space, rel);
    !TildeOrDrive(rel[0]) && full in fs && Clobbers(fs, full, ChosenSlot(fs, device, space, rel, stamp))
  }

  /** What moving to the recycle bin destroys there. */
  function RecycleLoss(fs: Fs, device: string, space: string, rel: seq<string>, stamp: Stamp): multiset<Bytes>
    requires rel != []
  {
    var full := Official(device, space, rel);
    if !TildeOrDrive(rel[0]) && full in fs then Replaced(fs, full, ChosenSlot(fs, device, space, rel, stamp))
      else multiset{}
  }

  /** Moving to the recycle bin copies nothing, changes no owner, and loses just the file it replaces. */
  lemma MoveToRecycleRearranges(fs: Fs, localId: string, device: string, space: string, rel: seq<string>, stamp: Stamp)
    requires IsTree(fs) && Addressable(device, space, rel) && DateSeg(stamp.date)
    ensures Rearranged(fs, MoveToRecycle(fs, localId, device, space, Join(rel), stamp).0,
                       RecycleLoss(fs, device, space, rel, stamp))
  {
    hide MoveToRecycle, Transfer, Rearranged, Shuffled, Relocatable, IsTree, IsValidSpace, CleanSeg, DateSeg,
      TildeOrDrive;
    MoveToRecycleClean(fs, localId, device, space, rel, stamp);
    var full, slot := Official(device, space, rel), ChosenSlot(fs, device, space, rel, stamp);
    if TildeOrDrive(rel[0]) || full !in fs {
      ShuffledSelf(fs);
      NothingLost(fs, fs);
    } else {
      ChosenRelocatable(fs, device, space, rel, stamp);
      TransferRearranges(fs, full, slot);
    }
  }

  lemma ChosenRelocatable(fs: Fs, device: string, space: string, rel: seq<string>, stamp: Stamp)
    requires Addressable(device, space, rel)
    ensures var full, slot := Official(device, space, rel), ChosenSlot(fs, device, space, rel, stamp);
            Relocatable(fs, full, slot) && !(slot <= full) && !Staged(slot)
  {
    hide Relocatable;
    CleanSuffixed(rel, stamp.ms);
    OfficialToSlot(fs, stamp.date, device, space, rel, rel);
    OfficialToSlot(fs, stamp.date, device, space, rel, Suffixed(rel, stamp.ms));
    assert ChosenSlot(fs, device, space, rel, stamp)[0] == RECYCLE && Official(device, space, rel)[0] == device
           && device[0] != '.';
  }

  /** So short of replacing a file there, it loses nothing. */
  lemma MoveToRecycleShuffles(fs: Fs, localId: string, device: string, space: string, rel: seq<string>, stamp: Stamp)
    requires IsTree(fs) && Addressable(device, space, rel) && DateSeg(stamp.date)
    requires !Overwrites(fs, device, space, rel, stamp)
    ensures Shuffled(fs, MoveToRecycle(fs, localId, device, space, Join(rel), stamp).0)
  {
    hide MoveToRecycle, Shuffled, Rearranged, IsTree, CleanSeg, DateSeg, IsValidDeviceId, IsValidSpace;
    MoveToRecycleRearranges(fs, localId, device, space, rel, stamp);
    NothingLost(fs, MoveToRecycle(fs, localId, device, space, Join(rel), stamp).0);
  }

  /** Moving to the recycle bin keeps every copy of every content exactly when it does not
      replace a file already there under the name it picked. */
  lemma MoveToRecycleKeepsIff(fs: Fs, localId: string, device: string, space: string, rel: seq<string>, stamp: Stamp)
    requires IsTree(fs) && Addressable(device, space, rel) && DateSeg(stamp.date)
    ensures (forall c :: Copies(MoveToRecycle(fs, localId, device, space, Join(rel), stamp).0, c) == Copies(fs, c))
            <==> !(Overwrites(fs, device, space, rel, stamp) && fs[ChosenSlot(fs, device, space, rel, stamp)].Blob?)
  {
    hide MoveToRecycle, Resettled, IsTree, CleanSeg, DateSeg, IsValidDeviceId, IsValidSpace, Copies;
    MoveToRecycleRearranges(fs, localId, device, space, rel, stamp);
    var after, lost := MoveToRecycle(fs, localId, device, space, Join(rel), stamp).0,
      RecycleLoss(fs, device, space, rel, stamp);
    if Overwrites(fs, device, space, rel, stamp) && fs[ChosenSlot(fs, device, space, rel, stamp)].Blob? {
      var c := fs[ChosenSlot(fs, device, space, rel, stamp)].data;
      assert lost[c] == 1 && Copies(after, c) + lost[c] == Copies(fs, c);
    }
  }

  /** Such a replacement can happen: a file whose own name ends in "~<ms>" is recycled, then one
      without that ending, and the latter is uploaded again and recycled at that very millisecond. */
  lemma OverwriteWitness(fs: Fs, localId: string, device: string, space: string, rel: seq<string>, date: string,
                         earlier: nat, ms: nat, again: Bytes)
    requires IsTree(fs) && Addressable(device, space, rel) && DateSeg(date) && !TildeOrDrive(rel[0])
    requires var full, other := Official(device, space, rel), Official(device, space, Suffixed(rel, ms));
             full in fs && fs[full] != Dir && other in fs && fs[other] != Dir
    requires var slot, taken := Slot(date, device, space, rel), Slot(date, device, space, Suffixed(rel, ms));
             slot !in fs && taken !in fs && CanMkdirs(fs, Parent(slot))
    ensures var one := MoveToRecycle(fs, localId, device, space, Join(Suffixed(rel, ms)), Stamp(date, earlier)).0;
            var two := MoveToRecycle(one, localId, device, space, Join(rel), Stamp(date, earlier)).0;
            Overwrites(two[Official(device, space, rel) := Blob(again)], device, space, rel, Stamp(date, ms))
  {
    hide MoveToRecycle, Transfer, Join, CleanSeg, IsTree, DateSeg, IsValidDeviceId, IsValidSpace, TildeOrDrive;
    var rel', stamp := Suffixed(rel, ms), Stamp(date, earlier);
    var full, other, slot, taken := Official(device, space, rel), Official(device, space, rel'),
      Slot(date, device, space, rel), Slot(date, device, space, rel');
    CleanSuffixed(rel, ms);
    SuffixedHead(rel, ms);
    Siblings(device, space, date, rel, ms);
    MoveToRecycleClean(fs, localId, device, space, rel', stamp);
    FileRecycled(fs, other, taken);
    var one := Transfer(fs, other, taken, Plain).0;
    MoveToRecycleClean(one, localId, device, space, rel, stamp);
    FileRecycled(one, full, slot);
  }

  lemma Siblings(device: string, space: string, date: string, rel: seq<string>, ms: nat)
    requires Addressable(device, space, rel)
    ensures var rel' := Suffixed(rel, ms);
            var full, other, slot, taken := Official(device, space, rel), Official(device, space, rel'),
              Slot(date, device, space, rel), Slot(date, device, space, rel');
            && full != other && slot != taken && |slot| == |taken| && Parent(slot) == Parent(taken)
            && !InRecycle(full) && !InRecycle(other) && InRecycle(slot) && InRecycle(taken)
            && !Trivial(Last(slot)) && !Trivial(Last(taken))
  {
    hide IsValidSpace;
    CleanSuffixed(rel, ms);
    var rel' := Suffixed(rel, ms);
    assert device[0] != '.' && |WithSuffix(Last(rel), ms)| > |Last(rel)|;
    assert Last(Official(device, space, rel)) == Last(rel) && Last(Official(device, space, rel')) == Last(rel');
    assert Last(Slot(date, device, space, rel)) == Last(rel) && Last(Slot(date, device, space, rel')) == Last(rel');
    assert Parent(Slot(date, device, space, rel)) == [RECYCLE, date, device, space] + Parent(rel);
    assert Parent(Slot(date, device, space, rel')) == [RECYCLE, date, device, space] + Parent(rel);
  }

  /** One file moved into the bin, under a free name. */
  lemma FileRecycled(fs: Fs, src: Path, dst: Path)
    requires IsTree(fs) && src in fs && fs[src] != Dir && src != [] && !InRecycle(src) && InRecycle(dst) && dst !in fs
    requires CanMkdirs(fs, Parent(dst))
    ensures var (g, done) := Transfer(fs, src, dst, Plain);
            && done && IsTree(g) && dst in g && g[dst] == fs[src] && CanMkdirs(g, Parent(dst))
            && (forall p <- fs | p != src :: p in g && g[p] == fs[p])
            && (forall p <- g | p !in fs :: p == dst || p <= Parent(dst))
  {
    hide IsTree, Transfer;
    NotAboveBin(src, dst);
    TransferFree(fs, src, dst);
    var made := Mkdirs(fs, Parent(dst));
    var g := MoveTree(made, src, dst);
    FileIsLeaf(made, src);
    assert Relocated(dst, src, dst) == src;
    forall p <- g | dst <= p ensures p == dst { RelocatedBack(dst, src, p); }
    NotAboveBin(src, Parent(dst));
    PrefixParent(dst, dst);
    MkdirsIdle(g, Parent(dst));
  }

  lemma NotAboveBin(src: Path, dst: Path)
    requires src != [] && !InRecycle(src) && (dst == [] || InRecycle(dst))
    ensures !(src <= dst)
  {
  }

  lemma FileIsLeaf(fs: Fs, p: Path)
    requires IsTree(fs) && p in fs && fs[p] != Dir
    ensures forall q <- fs :: p <= q ==> q == p
  {
    forall q <- fs | p <= q ensures q == p {
      if p < q { PrefixIsDir(fs, p, q); }
    }
  }

  lemma SuffixedHead(rel: seq<string>, ms: nat)
    requires Clean(rel)
    ensures TildeOrDrive(Suffixed(rel, ms)[0]) ==> TildeOrDrive(rel[0])
  {
    var s := Suffixed(rel, ms);
    if |rel| == 1 {
      assert s[0] == WithSuffix(rel[0], ms) && s[0][0] == rel[0][0];
    } else {
      assert s[0] == rel[0];
    }
  }
}
