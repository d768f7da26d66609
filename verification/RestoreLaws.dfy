/** recycle.restore: what it keeps, where it lands, and when it undoes a delete. */
module RestoreLaws {
  import opened Wrappers
  import opened Paths
  import opened Suffix
  import opened FileSystem
  import opened Layout
  import opened Recycle
  import opened RecycleLaws

  /** The relative path restore gives back for a recycled relative path. */
  function Origin(rel: seq<string>): seq<string>
    requires rel != []
  {
    rel[..|rel| - 1] + [Strip(Last(rel))]
  }

  predicate NoDotDot(rel: seq<string>) {
    forall i :: 0 <= i < |rel| ==> !HasDotDot(rel[i])
  }

  /** A recycled item under the name recycle.list reports, whose own name is not just a suffix. */
  predicate CanonicalItem(date: string, device: string, space: string, rel: seq<string>) {
    DateSeg(date) && Addressable(device, space, rel) && Strip(Last(rel)) != ""
  }

  lemma CleanOrigin(rel: seq<string>)
    requires Clean(rel) && Strip(Last(rel)) != ""
    ensures Clean(Origin(rel))
  {
  }

  lemma SlotTextFacts(date: string, device: string, space: string, rel: seq<string>)
    requires DateSeg(date) && Addressable(device, space, rel)
    ensures var text := Join(Slot(date, device, space, rel));
            && Slashed(text) == text && RECYCLE + "/" <= text
            && (HasDotDot(text) <==> !NoDotDot(rel))
  {
    var slot := Slot(date, device, space, rel);
    var text := Join(slot);
    DeviceSpaceSegments(device, space);
    assert forall i :: 0 <= i < |slot| ==> '\\' !in slot[i];
    JoinChars(slot, '\\');
    SlashedIdentity(text);
    JoinAppend([RECYCLE], slot[1..]);
    assert slot == [RECYCLE] + slot[1..];
    JoinDotDot(slot);
    assert !HasDotDot(RECYCLE);
    assert forall i :: 0 <= i < |rel| ==> slot[i + 4] == rel[i];
    assert forall i :: 4 <= i < |slot| ==> slot[i] == rel[i - 4];
  }

  /** recycle.restore on a canonical item, without strings. */
  lemma RestoreClean(fs: Fs, localId: string, date: string, device: string, space: string, rel: seq<string>,
                     stamp: Stamp)
    requires CanonicalItem(date, device, space, rel) && DateSeg(stamp.date)
    ensures Restore(fs, localId, Join(Slot(date, device, space, rel)), stamp) ==
            var slot, origin := Slot(date, device, space, rel), Origin(rel);
            var dest := Official(device, space, origin);
            if !NoDotDot(rel) then (fs, Err(BadPath))
            else if slot !in fs then (fs, Err(NotFound))
            else if TildeOrDrive(origin[0]) then (fs, Err(BadPath))
            else
              var (cleared, displaced) :=
                if dest in fs then MoveToRecycle(fs, localId, device, space, Join(origin), stamp) else (fs, Ok(""));
              if displaced.Err? then (cleared, Err(displaced.error))
              else
                var (after, done) := Transfer(cleared, slot, dest, Plain);
                if done then (Prune(after), Ok(Join(origin))) else (after, Err(Internal))
  {
    hide Transfer, Resolve, Prune, Join, Split, Slashed, HasDotDot, MoveToRecycle, Named, CleanSeg, DateSeg,
      IsValidDeviceId, IsValidSpace, NoDotDot, Strip;
    var slot := Slot(date, device, space, rel);
    SlotText(date, device, space, rel);
    SlotTextFacts(date, device, space, rel);
    CleanOrigin(rel);
    ResolveClean(localId, device, space, Origin(rel));
    OfficialText(device, space, Origin(rel));
    assert slot[4..] == rel;
    assert OriginParts(slot) == Origin(rel);
    assert ExistsAt(fs, slot) <==> slot in fs;
    assert ExistsAt(fs, Official(device, space, Origin(rel))) <==> Official(device, space, Origin(rel)) in fs;
  }

  lemma PruneShuffles(fs: Fs)
    requires IsTree(fs)
    ensures Shuffled(fs, Prune(fs))
    ensures forall p :: !InRecycle(p) ==> (p in Prune(fs) <==> p in fs)
    ensures forall p <- fs | fs[p] != Dir :: p in Prune(fs)
  {
    var g := Prune(fs);
    forall p <- g | p != [] ensures Parent(p) in g && g[Parent(p)] == Dir {
      if [RECYCLE] < Parent(p) {
        PrefixParent([RECYCLE], p);
        var q :| q in fs && p <= q && fs[q] != Dir;
        PrefixParent(p, p);
        assert Parent(p) <= q;
      }
    }
    forall p | p in fs && fs[p] != Dir ensures p in g {
      assert p <= p;
    }
    assert [] in g;
    DirsOnly(fs, g);
  }

  // ---------- restore undoes delete ----------

  lemma SuffixAddsNoDots(name: string, ms: nat)
    ensures HasDotDot(WithSuffix(name, ms)) <==> HasDotDot(name)
  {
    var s := WithSuffix(name, ms);
    forall i | |name| <= i < |s| ensures s[i] != '.' {
      if i > |name| { assert s[i] == Decimal(ms)[i - |name| - 1]; }
    }
    if HasDotDot(name) {
      var k :| 0 <= k < |name| - 1 && name[k] == '.' && name[k + 1] == '.';
      assert s[k] == '.' && s[k + 1] == '.';
    }
    if HasDotDot(s) {
      var k :| 0 <= k < |s| - 1 && s[k] == '.' && s[k + 1] == '.';
      assert name[k] == '.' && name[k + 1] == '.';
    }
  }

  lemma SuffixedFacts(rel: seq<string>, ms: nat)
    requires Clean(rel) && ms >= 1_000_000_000
    ensures NoDotDot(Suffixed(rel, ms)) <==> NoDotDot(rel)
    ensures Origin(Suffixed(rel, ms)) == rel
  {
    hide HasDotDot, Strip, WithSuffix, CleanSeg;
    SuffixAddsNoDots(Last(rel), ms);
    StripSuffixedIff(Last(rel), ms);
    var longer := Suffixed(rel, ms);
    forall i | 0 <= i < |rel| ensures HasDotDot(longer[i]) <==> HasDotDot(rel[i]) {
      if i < |rel| - 1 { assert longer[i] == rel[i]; }
    }
    assert longer[..|rel| - 1] == rel[..|rel| - 1];
    assert rel[..|rel| - 1] + [Last(rel)] == rel;
  }

  lemma {:induction false} OriginShorter(rel: seq<string>)
    requires rel != [] && HasSuffix(Last(rel))
    ensures |Join(Origin(rel))| < |Join(rel)|
  {
    var last := Last(rel);
    var text := last[LastTilde(last)..];
    JoinAppendText(Origin(rel), text);
    assert Strip(last) + text == last;
    assert Origin(rel)[..|rel| - 1] + [Strip(last) + text] == rel;
  }

  /** Same official tree, same files everywhere: only empty bin directories may differ. */
  ghost predicate SameFiles(f: Fs, g: Fs) {
    && (forall p :: !InRecycle(p) ==> (p in g <==> p in f) && (p in f ==> g[p] == f[p]))
    && (forall p <- g | g[p] != Dir :: p in f && f[p] == g[p])
    && (forall p <- f | f[p] != Dir :: p in g && f[p] == g[p])
  }

  /** When a delete can be undone under its own name: no ".." anywhere in the path, and either
      the bin already held that name (so a suffix was added) or the name ends in no suffix. */
  predicate Undoable(fs: Fs, device: string, space: string, rel: seq<string>, stamp: Stamp)
    requires rel != []
  {
    NoDotDot(rel) && (Slot(stamp.date, device, space, rel) in fs || !HasSuffix(Last(rel)))
  }

  /** The name a successful delete of a clean path picks, and the state it leaves. */
  lemma DeletedState(fs: Fs, localId: string, device: string, space: string, rel: seq<string>, stamp: Stamp)
    returns (to: seq<string>, made: Fs)
    requires IsTree(fs) && Addressable(device, space, rel) && DateSeg(stamp.date)
    requires NameFree(fs, device, space, rel, stamp)
    requires MoveToRecycle(fs, localId, device, space, Join(rel), stamp).1.Ok?
    ensures to == if Slot(stamp.date, device, space, rel) in fs then Suffixed(rel, stamp.ms) else rel
    ensures Clean(to) && !TildeOrDrive(rel[0]) && IsTree(made) && SameFiles(fs, made)
    ensures var full, slot := Official(device, space, rel), Slot(stamp.date, device, space, to);
            && full in made && !(full <= slot) && !(slot <= full) && !(full <= Parent(slot))
            && Parent(slot) in made && made[Parent(slot)] == Dir && (forall q <- made :: !(slot <= q))
            && MoveToRecycle(fs, localId, device, space, Join(rel), stamp)
               == (MoveTree(made, full, slot), Ok(Join(slot)))
  {
    hide Join, Shuffled, NameFree, SameFiles, KeepsOwner;
    var full := Official(device, space, rel);
    to := if Slot(stamp.date, device, space, rel) in fs then Suffixed(rel, stamp.ms) else rel;
    var slot := Slot(stamp.date, device, space, to);
    MoveToRecycleClean(fs, localId, device, space, rel, stamp);
    hide MoveToRecycle;
    CleanSuffixed(rel, stamp.ms);
    OfficialToSlot(fs, stamp.date, device, space, rel, to);
    SlotIsFree(fs, device, space, rel, stamp);
    TransferShuffles(fs, full, slot);
    hide Transfer;
    made := Mkdirs(fs, Parent(slot));
    MkdirsTree(fs, Parent(slot));
    PrefixParent(full, slot);
    assert full[0] == device && device[0] != '.' && slot[0] == RECYCLE;
    MadeInBin(fs, Parent(slot));
  }

  lemma SlotIsFree(fs: Fs, device: string, space: string, rel: seq<string>, stamp: Stamp)
    requires rel != [] && NameFree(fs, device, space, rel, stamp)
    ensures ChosenSlot(fs, device, space, rel, stamp) !in fs
  {
  }

  lemma MadeInBin(fs: Fs, p: Path)
    requires InRecycle(p) && [] in fs
    ensures SameFiles(fs, Mkdirs(fs, p))
  {
    var made := Mkdirs(fs, p);
    forall q | q in made && q !in fs ensures InRecycle(q) {
      assert q <= p && q != [];
    }
  }

  /** Moving a subtree back to the place it just left. */
  lemma TransferBack(made: Fs, full: Path, slot: Path)
    requires IsTree(made) && full in made && full != [] && slot != [] && !(full <= slot) && !(slot <= full)
    requires !(full <= Parent(slot)) && Parent(slot) in made && made[Parent(slot)] == Dir
    requires forall q <- made :: !(slot <= q)
    ensures var deleted := MoveTree(made, full, slot);
            && full !in deleted && slot in deleted
            && Transfer(deleted, slot, full, Plain) == (made, true)
  {
    MoveTreeBack(made, full, slot);
    var deleted := MoveTree(made, full, slot);
    MoveTreeIsTree(made, full, slot);
    PrefixParent(full, full);
    PrefixParent(slot, full);
    assert Relocated(slot, full, slot) == full;
    assert Parent(full) in deleted && deleted[Parent(full)] == Dir;
    MkdirsIdle(deleted, Parent(full));
    RenameSucceeds(deleted, slot, full);
  }

  /** Whatever a restore answers, it answers with the origin of the name it was given. */
  lemma RestoredName(fs: Fs, localId: string, date: string, device: string, space: string, rel: seq<string>,
                     stamp: Stamp)
    requires DateSeg(date) && Addressable(device, space, rel)
    ensures var reply := Restore(fs, localId, Join(Slot(date, device, space, rel)), stamp).1;
            reply.Ok? ==> NoDotDot(rel) && reply == Ok(Join(Origin(rel)))
  {
    SlotText(date, device, space, rel);
    SlotTextFacts(date, device, space, rel);
    assert Slot(date, device, space, rel)[4..] == rel;
  }

  /** Restoring the path a delete returned answers with the deleted path exactly when it is
      undoable, and then puts every file back, for single files and whole directories. */
  lemma RestoreUndoesDelete(fs: Fs, localId: string, device: string, space: string, rel: seq<string>, del: Stamp,
                            res: Stamp)
    requires IsTree(fs) && Addressable(device, space, rel) && DateSeg(del.date) && DateSeg(res.date)
    requires NameFree(fs, device, space, rel, del) && del.ms >= 1_000_000_000
    requires MoveToRecycle(fs, localId, device, space, Join(rel), del).1.Ok?
    ensures var (deleted, name) := MoveToRecycle(fs, localId, device, space, Join(rel), del);
            var (restored, reply) := Restore(deleted, localId, name.value, res);
            && (reply == Ok(Join(rel)) <==> Undoable(fs, device, space, rel, del))
            && (reply == Ok(Join(rel)) ==> SameFiles(fs, restored))
  {
    hide MoveToRecycle, Restore, Transfer, Prune, Join, HasSuffix, NoDotDot, Strip, NameFree, WithSuffix, SameFiles,
      Clean, DateSeg;
    var to, made := DeletedState(fs, localId, device, space, rel, del);
    var deleted := MoveTree(made, Official(device, space, rel), Slot(del.date, device, space, to));
    SuffixedFacts(rel, del.ms);
    RestoredName(deleted, localId, del.date, device, space, to, res);
    if Undoable(fs, device, space, rel, del) {
      UnsuffixedFacts(rel);
      RestoredBack(made, localId, del.date, device, space, rel, to, res);
      PrunedSame(fs, made);
    } else if NoDotDot(rel) {
      OriginShorter(rel);
    }
  }

  lemma UnsuffixedFacts(rel: seq<string>)
    requires rel != []
    ensures !HasSuffix(Last(rel)) ==> Origin(rel) == rel
  {
    assert rel[..|rel| - 1] + [Last(rel)] == rel;
  }

  lemma PrunedSame(f: Fs, g: Fs)
    requires IsTree(g) && SameFiles(f, g)
    ensures SameFiles(f, Prune(g))
  {
    PruneShuffles(g);
  }

  /** The restore half: from the state a delete leaves, back to the files before it. */
  lemma RestoredBack(made: Fs, localId: string, date: string, device: string, space: string, rel: seq<string>,
                     to: seq<string>, stamp: Stamp)
    requires IsTree(made) && DateSeg(date) && DateSeg(stamp.date) && Addressable(device, space, rel) && Clean(to)
             && !TildeOrDrive(rel[0])
    requires NoDotDot(to) && Origin(to) == rel
    requires var full, slot := Official(device, space, rel), Slot(date, device, space, to);
             && full in made && !(full <= slot) && !(slot <= full) && !(full <= Parent(slot))
             && Parent(slot) in made && made[Parent(slot)] == Dir && (forall q <- made :: !(slot <= q))
    ensures var full, slot := Official(device, space, rel), Slot(date, device, space, to);
            Restore(MoveTree(made, full, slot), localId, Join(slot), stamp) == (Prune(made), Ok(Join(rel)))
  {
    hide Restore, MoveToRecycle, Transfer, Join, NoDotDot, HasSuffix;
    var full, slot := Official(device, space, rel), Slot(date, device, space, to);
    assert Last(full) == Last(rel) && Last(slot) == Last(to);
    RestoreClean(MoveTree(made, full, slot), localId, date, device, space, to, stamp);
    TransferBack(made, full, slot);
  }

  // ---------- spellings recycle.restore does not guard against ----------

  lemma KeptPairIs(a: string, b: string)
    ensures Named([a, b]) == Kept([a, b])
  {
  }

  lemma StripChars(name: string, c: char)
    requires c !in name
    ensures c !in Strip(name)
  {
  }

  lemma SlashTexts()
    ensures Split("") == [""] && Split("/") == ["", ""]
  {
    SplitSegment("", "");
    assert "" + "/" + "" == "/";
  }

  lemma KeptPair(a: string, b: string, tail: Path)
    ensures Kept([a, b]) + tail == Real(a) + (Real(b) + tail)
  {
    KeptDrop([a, b], 0);
    KeptDrop([a, b], 1);
    assert [a, b][0..] == [a, b] && [a, b][2..] == [];
    assert Kept([]) == [];
    hide Kept, Real;
    assert Real(b) + [] == Real(b);
    assert Real(a) + Real(b) + tail == Real(a) + (Real(b) + tail);
  }

  lemma KeptDrop(parts: seq<string>, i: nat)
    requires i < |parts|
    ensures Kept(parts[i..]) == Real(parts[i]) + Kept(parts[i + 1..])
  {
    assert parts[i..][1..] == parts[i + 1..];
  }

  /** With an empty component after ".recycle", any item of the bin is
      restored to a tree named after its date, out of its device's reach. */
  lemma RestoreEmptyComponentLeaves(fs: Fs, localId: string, date: string, device: string, space: string,
                                    rel: seq<string>, stamp: Stamp)
    requires IsTree(fs) && CanonicalItem(date, device, space, rel) && DateSeg(stamp.date)
    requires Slot(date, device, space, rel) in fs && NoDotDot(rel) && [date] !in fs
    ensures var dest := [date, device, space] + Origin(rel);
            var (after, reply) := Restore(fs, localId, Join([RECYCLE, "", date, device, space] + rel), stamp);
            reply.Ok? && dest in after && after[dest] == fs[Slot(date, device, space, rel)]
            && Owner(dest) == Some((date, device))
  {
    hide Restore, ResolvePath, Join, Split, Slashed, HasDotDot, Kept, NoDotDot, OriginParts, IsTree, Normalize;
    var parts := [RECYCLE, "", date, device, space] + rel;
    var dest := [date, device, space] + Origin(rel);
    var slot := Slot(date, device, space, rel);
    EmptyComponentText(date, device, space, rel);
    EmptyComponentNames(date, device, space, rel);
    EmptyComponentResolves(localId, date, device, space, rel);
    assert [date] <= dest;
    FreshTop(fs, date, dest);
    CleanOrigin(rel);
    assert Last(dest) == Last(Origin(rel)) && Last(parts) == Last(rel) == Last(slot);
    RestoreToFree(fs, localId, parts, slot, dest, stamp);
  }

  /** Nothing below a top-level name that does not exist stands in the way. */
  lemma FreshTop(fs: Fs, top: string, p: Path)
    requires IsTree(fs) && [top] !in fs && [top] <= p
    ensures p !in fs && CanMkdirs(fs, Parent(p))
  {
    NothingBelowMissing(fs, [top]);
    forall k | 0 < k <= |Parent(p)| ensures [top] <= Parent(p)[..k] { }
  }

  /** A restore that passes its checks and whose target is free moves the item there. */
  lemma RestoreToFree(fs: Fs, localId: string, parts: seq<string>, slot: Path, dest: Path, stamp: Stamp)
    requires IsTree(fs) && |parts| >= 5 && Slashed(Join(parts)) == Join(parts)
    requires RECYCLE + "/" <= Join(parts) && !HasDotDot(Join(parts))
    requires Split(Join(parts)) == parts && Named(parts) == slot && slot in fs && InRecycle(slot)
             && EndingOf(parts) == Plain
    requires dest != [] && Named(dest) == dest && EndingOf(dest) == Plain && !InRecycle(dest)
    requires Resolve(localId, parts[3], parts[2], Join(OriginParts(parts))) == Ok(dest)
    requires dest !in fs && CanMkdirs(fs, Parent(dest))
    ensures var (after, reply) := Restore(fs, localId, Join(parts), stamp);
            reply == Ok(Join(OriginParts(parts))) && dest in after && after[dest] == fs[slot]
  {
    LandsAt(fs, slot, dest);
    RestoreEvaluates(fs, localId, parts, dest, stamp);
  }

  lemma RestoreEvaluates(fs: Fs, localId: string, parts: seq<string>, dest: Path, stamp: Stamp)
    requires |parts| >= 5 && Slashed(Join(parts)) == Join(parts) && RECYCLE + "/" <= Join(parts)
             && !HasDotDot(Join(parts))
    requires Split(Join(parts)) == parts && Named(parts) in fs && EndingOf(parts) == Plain
    requires dest != [] && Named(dest) == dest && EndingOf(dest) == Plain
    requires Resolve(localId, parts[3], parts[2], Join(OriginParts(parts))) == Ok(dest) && dest !in fs
    ensures Restore(fs, localId, Join(parts), stamp) ==
            var (after, done) := Transfer(fs, Named(parts), dest, Plain);
            if done then (Prune(after), Ok(Join(OriginParts(parts)))) else (after, Err(Internal))
  {
    hide Transfer, Resolve, Prune, Join, Split, Slashed, HasDotDot, MoveToRecycle;
    assert ExistsAt(fs, parts) && !ExistsAt(fs, dest);
  }

  lemma LandsAt(fs: Fs, slot: Path, dest: Path)
    requires IsTree(fs) && slot in fs && InRecycle(slot) && dest != [] && !InRecycle(dest) && dest !in fs
    requires CanMkdirs(fs, Parent(dest))
    ensures var (after, done) := Transfer(fs, slot, dest, Plain);
            done && dest in Prune(after) && Prune(after)[dest] == fs[slot]
  {
    assert !(slot <= dest) by { assert slot[0] == RECYCLE; }
    TransferFree(fs, slot, dest);
    var after := MoveTree(Mkdirs(fs, Parent(dest)), slot, dest);
    assert Relocated(dest, slot, dest) == slot;
    PruneShuffles(after);
  }

  lemma EmptyComponentResolves(localId: string, date: string, device: string, space: string, rel: seq<string>)
    requires CanonicalItem(date, device, space, rel)
    ensures var parts := [RECYCLE, "", date, device, space] + rel;
            Resolve(localId, parts[3], parts[2], Join(OriginParts(parts))) == Ok([date, device, space] + Origin(rel))
    ensures var dest := [date, device, space] + Origin(rel); Named(dest) == dest && EndingOf(dest) == Plain
  {
    hide Split, Join, Slashed, HasDotDot, Named, Normalize, BaseText, Push, IsValidDeviceId, IsValidSpace, Strip;
    var parts := [RECYCLE, "", date, device, space] + rel;
    var origin := [space] + Origin(rel);
    CleanOrigin(rel);
    DeviceSpaceSegments(device, space);
    assert parts[4..] == [space] + rel;
    assert OriginParts(parts) == origin;
    EmptyComponentOrigin(date, device, space, origin);
    assert [date, device] + origin == [date, device, space] + Origin(rel);
    EmptyComponentDest(date, device, space, Origin(rel));
    hide OriginParts;
    assert date != "";
  }

  lemma EmptyComponentOrigin(date: string, device: string, space: string, origin: seq<string>)
    requires IsValidDeviceId(device) && IsValidSpace(space) && Clean(origin) && origin[0] == space
    ensures Join(origin) != "" && Join(origin) != "/" && Normalize(Join(origin)) == Ok(origin)
    ensures BaseText(date, device) + "/" <= Push(BaseText(date, device), Join(origin))
  {
    assert !TildeOrDrive(space);
    SlashIsTrivial(origin);
    RenormalizeIff(origin);
    DeviceSpaceSegments(device, space);
    StaysInside(date, device, Join(origin));
  }

  lemma EmptyComponentDest(date: string, device: string, space: string, rel: seq<string>)
    requires CleanSeg(date) && CleanSeg(device) && CleanSeg(space) && Clean(rel)
    ensures var dest := [date, device, space] + rel; Named(dest) == dest && EndingOf(dest) == Plain
  {
    KeptNontrivial([date, device, space] + rel);
    assert Last([date, device, space] + rel) == Last(rel);
  }

  lemma EmptyComponentText(date: string, device: string, space: string, rel: seq<string>)
    requires DateSeg(date) && Addressable(device, space, rel) && NoDotDot(rel)
    ensures var text := Join([RECYCLE, "", date, device, space] + rel);
            Slashed(text) == text && RECYCLE + "/" <= text && !HasDotDot(text)
  {
    var head := [RECYCLE, "", date, device, space];
    var parts := head + rel;
    DeviceSpaceSegments(device, space);
    assert forall i :: 0 <= i < 5 ==> '\\' !in head[i] && !HasDotDot(head[i]);
    assert forall i :: 5 <= i < |parts| ==> parts[i] == rel[i - 5];
    JoinChars(parts, '\\');
    SlashedIdentity(Join(parts));
    JoinDotDot(parts);
    assert parts == [RECYCLE] + parts[1..];
    JoinAppend([RECYCLE], parts[1..]);
  }

  lemma SlotSegments(date: string, device: string, space: string, rel: seq<string>)
    requires DateSeg(date) && Addressable(device, space, rel)
    ensures forall c <- [date, device, space] + rel :: !Trivial(c) && '/' !in c
  {
    hide IsValidDeviceId, IsValidSpace;
    DeviceSpaceSegments(device, space);
    var tail := [date, device, space] + rel;
    forall c <- tail ensures !Trivial(c) && '/' !in c {
      var i :| 0 <= i < |tail| && tail[i] == c;
      if i >= 3 { assert tail[i] == rel[i - 3]; }
    }
  }

  lemma EmptyComponentNames(date: string, device: string, space: string, rel: seq<string>)
    requires DateSeg(date) && Addressable(device, space, rel)
    ensures var parts := [RECYCLE, "", date, device, space] + rel;
            Split(Join(parts)) == parts && Named(parts) == Slot(date, device, space, rel)
  {
    hide Split, Join, DateSeg, IsValidDeviceId, IsValidSpace, CleanSeg, Clean, Kept;
    var head, tail := [RECYCLE, ""], [date, device, space] + rel;
    SlotSegments(date, device, space, rel);
    KeptNontrivial(tail);
    SplitJoin(head + tail);
    KeptAppend(head, tail);
    KeptPair(RECYCLE, "", []);
    assert [RECYCLE, "", date, device, space] + rel == head + tail;
    assert Kept(head) + [] == Kept(head) == [RECYCLE];
    assert Slot(date, device, space, rel) == [RECYCLE] + tail;
  }
}
