/** What a recycle.restore request names: item, target and slot, component by component. */
module RestoreNames {
  import opened Wrappers
  import opened Paths
  import opened Suffix
  import opened FileSystem
  import opened Layout
  import opened Recycle
  import opened RecycleLaws
  import opened RestoreLaws
  import opened Tidiness
  import opened TwoMoves

  // ---------- what a request names ----------

  function Parts(path: string): seq<string> {
    Split(Slashed(path))
  }

  function OriginText(parts: seq<string>): string
    requires |parts| >= 5
  {
    Join(OriginParts(parts))
  }

  /** The item in the bin. */
  function Item(path: string): Path {
    Named(Parts(path))
  }

  /** Where resolve_path puts it. */
  function Target(localId: string, parts: seq<string>): Result<Path, OpError>
    requires |parts| >= 5
  {
    ResolvePath(localId, parts[3], parts[2], OriginText(parts))
  }

  /** The request gets past every check that comes before the first move. */
  predicate Accepted(fs: Fs, localId: string, path: string) {
    var parts := Parts(path);
    RECYCLE + "/" <= Slashed(path) && !HasDotDot(Slashed(path)) && ExistsAt(fs, parts) && |parts| >= 5
      && Target(localId, parts).Ok?
  }

  /** The name what stands at the target is moved to. */
  function SlotParts(fs: Fs, parts: seq<string>, stamp: Stamp): (slot: seq<string>)
    requires |parts| >= 5
    ensures slot != []
  {
    Split(RecycleName(fs, parts[2], parts[3], OriginText(parts), stamp))
  }

  function SlotOf(fs: Fs, parts: seq<string>, stamp: Stamp): Path
    requires |parts| >= 5
  {
    Named(SlotParts(fs, parts, stamp))
  }

  /** The target as spelt. */
  function TargetParts(localId: string, parts: seq<string>): (to: seq<string>)
    requires |parts| >= 5 && Target(localId, parts).Ok?
    ensures to != [] && Target(localId, parts).value == Named(to)
  {
    Resolve(localId, parts[3], parts[2], OriginText(parts)).value
  }

  /** `dest.exists()`: whether something stands at the target and has to make room. */
  predicate There(fs: Fs, localId: string, parts: seq<string>)
    requires |parts| >= 5 && Target(localId, parts).Ok?
  {
    ExistsAt(fs, TargetParts(localId, parts))
  }

  /** The two moves of an accepted request. */
  function SceneOf(fs: Fs, localId: string, path: string, stamp: Stamp): Scene
    requires Accepted(fs, localId, path)
  {
    var parts := Parts(path);
    var to, slot := TargetParts(localId, parts), SlotParts(fs, parts, stamp);
    Scene(Item(path), Named(to), SlotOf(fs, parts, stamp), There(fs, localId, parts),
          Stricter(EndingOf(to), EndingOf(slot)), Stricter(EndingOf(parts), EndingOf(to)))
  }

  /** Restore is its two moves, and pruning when both went through. */
  lemma RestoreMoves(fs: Fs, localId: string, path: string, stamp: Stamp)
    requires Accepted(fs, localId, path)
    ensures var sc := SceneOf(fs, localId, path, stamp);
            Restore(fs, localId, path, stamp) ==
              if Done(fs, sc) then (Prune(Left(fs, sc)), Ok(OriginText(Parts(path)))) else (Left(fs, sc), Err(Internal))
  {
    hide Transfer, Resolve, Split, Slashed, HasDotDot, ExistsAt, RecycleName, Prune, Named, OriginParts, Join, EndingOf;
  }

  lemma RestoreRefused(fs: Fs, localId: string, path: string, stamp: Stamp)
    requires !Accepted(fs, localId, path)
    ensures Restore(fs, localId, path, stamp).0 == fs && Restore(fs, localId, path, stamp).1.Err?
  {
    hide Transfer, Resolve, Split, Slashed, HasDotDot, ExistsAt, MoveToRecycle, Prune, Named, OriginParts, Join,
      EndingOf;
  }

  // ---------- its names, without strings ----------

  /** All but the last component of the origin, and the last one. */
  function Front(parts: seq<string>): Path
    requires |parts| >= 5
  {
    Kept(parts[4..|parts| - 1])
  }

  function Head(localId: string, parts: seq<string>): string
    requires |parts| >= 5
  {
    if parts[2] == "" then localId else parts[2]
  }

  /** The item and its target differ in the head and in the last component only. */
  lemma ItemAndTarget(localId: string, path: string)
    requires |Parts(path)| >= 5 && RECYCLE + "/" <= Slashed(path) && Target(localId, Parts(path)).Ok?
    ensures var parts := Parts(path);
            && Item(path) == [RECYCLE] + Real(parts[1]) + Real(parts[2]) + Real(parts[3]) + Front(parts)
               + Real(Last(parts))
            && Target(localId, parts).value
               == Real(Head(localId, parts)) + Real(parts[3]) + Front(parts) + Real(Strip(Last(parts)))
            && forall i :: 0 <= i < |Front(parts) + Real(Strip(Last(parts)))| ==>
                 CleanSeg((Front(parts) + Real(Strip(Last(parts))))[i])
  {
    hide Normalize, Slashed, Split, Join, Kept, Real, Strip, CleanSeg, Target;
    var parts := Parts(path);
    PartsPlain(path);
    FirstPart(path);
    ItemSplits(parts);
    OriginSplits(parts);
    TargetIs(localId, parts);
    TargetSplits(Head(localId, parts), parts[3], Front(parts), Real(Strip(Last(parts))));
  }

  lemma PartsPlain(path: string)
    ensures SlashFree(Parts(path)) && forall i :: 0 <= i < |Parts(path)| ==> '\\' !in Parts(path)[i]
  {
    var s := Slashed(path);
    JoinSplit(s);
    forall i, c | 0 <= i < |Parts(path)| && c in Parts(path)[i] ensures c != '\\' {
      SplitChars(s, i, c);
    }
  }

  lemma FirstPart(path: string)
    requires RECYCLE + "/" <= Slashed(path)
    ensures Parts(path)[0] == RECYCLE
  {
    var s := Slashed(path);
    var rest := s[|RECYCLE| + 1..];
    assert s == RECYCLE + "/" + rest;
    SplitSegment(RECYCLE, rest);
  }

  lemma ItemSplits(parts: seq<string>)
    requires |parts| >= 5 && parts[0] == RECYCLE
    ensures Named(parts) == [RECYCLE] + Real(parts[1]) + Real(parts[2]) + Real(parts[3]) + Front(parts)
            + Real(Last(parts))
  {
    KeptDrop(parts, 0);
    KeptDrop(parts, 1);
    KeptDrop(parts, 2);
    KeptDrop(parts, 3);
    assert parts[0..] == parts && Real(parts[0]) == [RECYCLE];
    var tail := parts[4..];
    assert tail == parts[4..|parts| - 1] + [Last(parts)];
    KeptAppend(parts[4..|parts| - 1], [Last(parts)]);
    KeptOne(Last(parts));
    ReassociateFive([RECYCLE], Real(parts[1]), Real(parts[2]), Real(parts[3]), Front(parts), Real(Last(parts)));
  }

  lemma ReassociateFive(r: Path, a: Path, b: Path, c: Path, d: Path, e: Path)
    ensures r + (a + (b + (c + (d + e)))) == r + a + b + c + d + e
  {
  }

  lemma KeptOne(part: string)
    ensures Kept([part]) == Real(part)
  {
    assert Kept([part][1..]) == [];
    assert Real(part) + [] == Real(part);
  }

  lemma OriginSplits(parts: seq<string>)
    requires |parts| >= 5
    ensures OriginParts(parts) == parts[4..|parts| - 1] + [Strip(Last(parts))]
    ensures Kept(OriginParts(parts)) == Front(parts) + Real(Strip(Last(parts)))
  {
    hide Kept, Real, Strip;
    assert parts[4..][..|parts[4..]| - 1] == parts[4..|parts| - 1] && Last(parts[4..]) == Last(parts);
    KeptAppend(parts[4..|parts| - 1], [Strip(Last(parts))]);
    KeptOne(Strip(Last(parts)));
  }

  lemma OriginPlain(parts: seq<string>)
    requires |parts| >= 5 && SlashFree(parts) && (forall i :: 0 <= i < |parts| ==> '\\' !in parts[i])
    ensures Slashed(OriginText(parts)) == OriginText(parts) && Split(OriginText(parts)) == OriginParts(parts)
  {
    hide Split, Join, Slashed, Strip;
    OriginSplits(parts);
    var origin := OriginParts(parts);
    StripChars(Last(parts), '\\');
    StripChars(Last(parts), '/');
    forall i | 0 <= i < |origin| ensures '\\' !in origin[i] && '/' !in origin[i] {
      if i < |origin| - 1 { assert origin[i] == parts[i + 4]; }
    }
    JoinChars(origin, '\\');
    SlashedIdentity(Join(origin));
    SplitJoin(origin);
  }

  lemma TargetIs(localId: string, parts: seq<string>)
    requires |parts| >= 5 && SlashFree(parts) && (forall i :: 0 <= i < |parts| ==> '\\' !in parts[i])
    requires Target(localId, parts).Ok?
    ensures Target(localId, parts).value == Named([Head(localId, parts), parts[3]]) + Kept(OriginParts(parts))
    ensures forall i :: 0 <= i < |Kept(OriginParts(parts))| ==> CleanSeg(Kept(OriginParts(parts))[i])
  {
    hide Split, Join, Slashed, Strip, CleanSeg, OriginParts, RawError, FirstForbidden;
    OriginPlain(parts);
    SlashTexts();
    var rel := OriginText(parts);
    if rel == "" {
      KeptOne("");
    } else if rel == "/" {
      KeptAppend([""], [""]);
      assert [""] + [""] == ["", ""];
      KeptOne("");
    } else {
      NormalizedIsClean(rel);
      var segs := Kept(OriginParts(parts));
      assert Normalize(rel) == Ok(segs);
      KeptAppend([Head(localId, parts), parts[3]], segs);
      KeptClean(segs);
    }
  }

  lemma TargetSplits(head: string, third: string, front: Path, last: Path)
    ensures Named([head, third]) + (front + last) == Real(head) + Real(third) + front + last
  {
    KeptPairIs(head, third);
    KeptPair(head, third, front + last);
    hide Kept, Real;
    assert Real(head) + (Real(third) + (front + last)) == Real(head) + Real(third) + front + last;
  }

  /** The slot is the target below today's date, but for its head and a suffix. */
  lemma SlotIs(fs: Fs, localId: string, path: string, stamp: Stamp)
    requires |Parts(path)| >= 5 && DateSeg(stamp.date)
    ensures var parts := Parts(path);
            var base := [RECYCLE, stamp.date] + Real(parts[2]) + Real(parts[3]) + Front(parts);
            var slot, last := SlotOf(fs, parts, stamp), Strip(Last(parts));
            && (slot == base + Real(last) || slot == base + [last + ("~" + Decimal(stamp.ms))])
            && SlotParts(fs, parts, stamp) != []
  {
    hide Split, Join, Slashed, Strip, Kept, Real, ExistsAt, DateSeg, Decimal;
    var parts := Parts(path);
    PartsPlain(path);
    OriginSplits(parts);
    OriginPlain(parts);
    var head := [RECYCLE, stamp.date, parts[2], parts[3]];
    var whole := head + OriginParts(parts);
    JoinFour(RECYCLE, stamp.date, parts[2], parts[3]);
    JoinAppend(head, OriginParts(parts));
    assert RECYCLE + "/" + stamp.date + "/" + parts[2] + "/" + parts[3] + "/" + OriginText(parts) == Join(whole);
    SlotPlain(parts, stamp);
    SlotSuffixed(parts, stamp);
    JoinAppendText(whole, "~" + Decimal(stamp.ms));
    assert Join(whole) + "~" + Decimal(stamp.ms) == Join(whole) + ("~" + Decimal(stamp.ms));
    assert whole[..|whole| - 1] + [Last(whole) + ("~" + Decimal(stamp.ms))]
           == head + parts[4..|parts| - 1] + [Strip(Last(parts)) + ("~" + Decimal(stamp.ms))];
  }

  lemma SlotPlain(parts: seq<string>, stamp: Stamp)
    requires |parts| >= 5 && SlashFree(parts) && DateSeg(stamp.date)
    ensures var whole := [RECYCLE, stamp.date, parts[2], parts[3]] + OriginParts(parts);
            && Split(Join(whole)) == whole
            && Named(whole) == [RECYCLE, stamp.date] + Real(parts[2]) + Real(parts[3]) + Front(parts)
               + Real(Strip(Last(parts)))
  {
    hide Split, Join, Strip, Kept, Real;
    OriginSplits(parts);
    StripChars(Last(parts), '/');
    var whole := [RECYCLE, stamp.date, parts[2], parts[3]] + OriginParts(parts);
    SplitJoin(whole);
    KeptFour(stamp.date, parts[2], parts[3], OriginParts(parts));
    assert [RECYCLE, stamp.date] + Real(parts[2]) + Real(parts[3]) + (Front(parts) + Real(Strip(Last(parts))))
           == [RECYCLE, stamp.date] + Real(parts[2]) + Real(parts[3]) + Front(parts) + Real(Strip(Last(parts)));
  }

  lemma SlotSuffixed(parts: seq<string>, stamp: Stamp)
    requires |parts| >= 5 && SlashFree(parts) && DateSeg(stamp.date)
    ensures var last := Strip(Last(parts)) + ("~" + Decimal(stamp.ms));
            var whole := [RECYCLE, stamp.date, parts[2], parts[3]] + parts[4..|parts| - 1] + [last];
            && Split(Join(whole)) == whole
            && Named(whole) == [RECYCLE, stamp.date] + Real(parts[2]) + Real(parts[3]) + Front(parts) + [last]
  {
    hide Split, Join, Strip, Kept, DateSeg;
    var last := Strip(Last(parts)) + ("~" + Decimal(stamp.ms));
    StripChars(Last(parts), '/');
    DigitsPlain(stamp.ms);
    assert DateSeg(stamp.date) ==> '/' !in stamp.date by { DateIsSeg(stamp.date); }
    var tail := parts[4..|parts| - 1] + [last];
    var whole := [RECYCLE, stamp.date, parts[2], parts[3]] + parts[4..|parts| - 1] + [last];
    assert whole == [RECYCLE, stamp.date, parts[2], parts[3]] + tail;
    SplitJoin(whole);
    KeptFour(stamp.date, parts[2], parts[3], tail);
    KeptAppend(parts[4..|parts| - 1], [last]);
    KeptOne(last);
    assert last[|Strip(Last(parts))|] == '~';
    assert Real(last) == [last];
    hide Real;
    assert [RECYCLE, stamp.date] + Real(parts[2]) + Real(parts[3]) + (Front(parts) + [last])
           == [RECYCLE, stamp.date] + Real(parts[2]) + Real(parts[3]) + Front(parts) + [last];
  }

  lemma DateIsSeg(date: string)
    requires DateSeg(date)
    ensures CleanSeg(date) && !Trivial(date) && '/' !in date && '~' !in date
  {
  }

  lemma DigitsPlain(n: nat)
    ensures '/' !in Decimal(n)
  {
    forall c | c in Decimal(n) ensures IsDigit(c) { }
  }

  lemma KeptFour(date: string, second: string, third: string, tail: seq<string>)
    requires DateSeg(date)
    ensures Kept([RECYCLE, date, second, third] + tail) == [RECYCLE, date] + Real(second) + Real(third) + Kept(tail)
  {
    DateIsSeg(date);
    var whole := [RECYCLE, date, second, third] + tail;
    KeptDrop(whole, 0);
    KeptDrop(whole, 1);
    KeptDrop(whole, 2);
    KeptDrop(whole, 3);
    assert whole[0..] == whole && whole[4..] == tail;
    assert Real(RECYCLE) == [RECYCLE] && Real(date) == [date];
    hide Kept, Real;
    assert [RECYCLE] + ([date] + (Real(second) + (Real(third) + Kept(tail))))
           == [RECYCLE, date] + Real(second) + Real(third) + Kept(tail);
  }

  // ---------- what every accepted request keeps ----------

  /** A segment anything may have at any depth. */
  predicate Ordinary(seg: string) {
    seg != STAGING && seg != RECYCLE && !Trivial(seg)
  }

  predicate AllOrdinary(p: Path) {
    forall i :: 0 <= i < |p| ==> Ordinary(p[i])
  }

  lemma OrdinaryPlaceable(p: Path)
    requires AllOrdinary(p)
    ensures p != [] ==> Placeable(p)
  {
    if p != [] {
      assert Ordinary(p[0]) && Ordinary(p[|p| - 1]);
      forall i | 0 <= i < |p| ensures p[i] != STAGING && p[i] != RECYCLE { assert Ordinary(p[i]); }
    }
  }

  lemma OrdinarySlot(date: string, rest: Path)
    requires AllOrdinary(rest) && DateSeg(date)
    ensures var slot := [RECYCLE, date] + rest; InRecycle(slot) && TidyPath(slot)
  {
    var slot := [RECYCLE, date] + rest;
    DateIsSeg(date);
    forall i | 1 <= i < |slot| ensures slot[i] != STAGING && slot[i] != RECYCLE && !Trivial(slot[i]) {
      if i >= 2 { assert Ordinary(rest[i - 2]); }
    }
  }

  lemma OrdinaryAppend(a: Path, b: Path)
    ensures AllOrdinary(a) && AllOrdinary(b) ==> AllOrdinary(a + b)
  {
  }

  /** The target and the slot are places things may be put, given a tidy store that has the item. */
  lemma Places(fs: Fs, localId: string, path: string, stamp: Stamp) returns (dest: Path, slot: Path)
    requires Tidy(fs) && Accepted(fs, localId, path) && IsValidDeviceId(localId) && DateSeg(stamp.date)
    ensures Target(localId, Parts(path)) == Ok(dest) && slot == SlotOf(fs, Parts(path), stamp)
    ensures Item(path) in fs && InRecycle(Item(path)) && TidyPath(Item(path))
    ensures dest != [] ==> Placeable(dest)
    ensures InRecycle(slot) && |slot| >= 2 && TidyPath(slot)
  {
    hide Real, Strip, Kept, Split, Slashed, SlotParts, HasDotDot, DateSeg, Decimal, ResolvePath, IsValidDeviceId,
      Front, CleanSeg, Head, TidyPath;
    var parts := Parts(path);
    ItemAndTarget(localId, path);
    SlotIs(fs, localId, path, stamp);
    dest, slot := Target(localId, parts).value, SlotOf(fs, parts, stamp);
    assert Item(path) in fs;
    assert Item(path)[0] == RECYCLE && !Staged(Item(path));
    HeadOrdinary(localId, parts, Item(path));
    PlacesOrdinary(localId, parts, dest, slot, stamp);
  }

  /** The second and third components are segments of the item, so no reserved names. */
  lemma HeadOrdinary(localId: string, parts: seq<string>, item: Path)
    requires |parts| >= 5 && TidyPath(item) && IsValidDeviceId(localId)
    requires item == [RECYCLE] + Real(parts[1]) + Real(parts[2]) + Real(parts[3]) + Front(parts) + Real(Last(parts))
    ensures AllOrdinary(Real(parts[2])) && AllOrdinary(Real(parts[3])) && AllOrdinary(Real(Head(localId, parts)))
  {
    hide Front;
    assert localId[0] != '.';
    var r := [RECYCLE] + Real(parts[1]);
    if !Trivial(parts[2]) {
      assert item[|r|] == parts[2];
    }
    var r' := r + Real(parts[2]);
    if !Trivial(parts[3]) {
      assert item[|r'|] == parts[3];
    }
  }

  lemma PlacesOrdinary(localId: string, parts: seq<string>, dest: Path, slot: Path, stamp: Stamp)
    requires |parts| >= 5 && DateSeg(stamp.date)
    requires AllOrdinary(Real(parts[2])) && AllOrdinary(Real(parts[3])) && AllOrdinary(Real(Head(localId, parts)))
    requires forall i :: 0 <= i < |Front(parts) + Real(Strip(Last(parts)))| ==>
               CleanSeg((Front(parts) + Real(Strip(Last(parts))))[i])
    requires dest == Real(Head(localId, parts)) + Real(parts[3]) + Front(parts) + Real(Strip(Last(parts)))
    requires var base, last := [RECYCLE, stamp.date] + Real(parts[2]) + Real(parts[3]) + Front(parts),
               Strip(Last(parts));
             slot == base + Real(last) || slot == base + [last + ("~" + Decimal(stamp.ms))]
    ensures dest != [] ==> Placeable(dest)
    ensures InRecycle(slot) && |slot| >= 2 && TidyPath(slot)
  {
    hide Real, Front, Strip, Decimal, DateSeg, Head, AllOrdinary, TidyPath;
    var front, last := Front(parts), Strip(Last(parts));
    var suffixed := last + ("~" + Decimal(stamp.ms));
    TildeOrdinary(suffixed, |last|);
    CleanOrdinary(front, Real(last));
    var ends := if slot == [RECYCLE, stamp.date] + Real(parts[2]) + Real(parts[3]) + front + Real(last) then Real(last)
      else [suffixed];
    var head, third, second := Real(Head(localId, parts)), Real(parts[3]), Real(parts[2]);
    OrdinaryAppend(head, third);
    OrdinaryAppend(head + third, front);
    OrdinaryAppend(head + third + front, Real(last));
    OrdinaryPlaceable(dest);
    OrdinaryAppend(second, third);
    OrdinaryAppend(second + third, front);
    OrdinaryAppend(second + third + front, ends);
    OrdinarySlot(stamp.date, second + third + front + ends);
    assert slot == [RECYCLE, stamp.date] + (second + third + front + ends);
  }

  lemma TildeOrdinary(seg: string, i: nat)
    requires i < |seg| && seg[i] == '~'
    ensures AllOrdinary([seg])
  {
  }

  lemma CleanOrdinary(a: Path, b: Path)
    requires forall i :: 0 <= i < |a + b| ==> CleanSeg((a + b)[i])
    ensures AllOrdinary(a) && AllOrdinary(b)
  {
    forall i | 0 <= i < |a| ensures Ordinary(a[i]) { assert a[i] == (a + b)[i]; }
    forall i | 0 <= i < |b| ensures Ordinary(b[i]) { assert b[i] == (a + b)[|a| + i]; }
  }

  // ---------- spellings that lead home ----------

  /** The component after ".recycle" is a real one, and the third is not empty. */
  predicate Home(parts: seq<string>) {
    |parts| >= 5 && !Trivial(parts[1]) && parts[2] != ""
  }

  lemma StripTrivial(name: string)
    ensures Trivial(name) ==> Strip(name) == name
  {
    if name == "." { assert LastTilde(".") == -1; }
  }

  /** The three paths of a request, by their components. */
  ghost predicate Composed(localId: string, parts: seq<string>, date: string, item: Path, dest: Path, slot: Path,
                           front: Path, last: Path, stripped: Path, ending: Path)
    requires |parts| >= 5
  {
    && item == [RECYCLE] + Real(parts[1]) + Real(parts[2]) + Real(parts[3]) + front + last
    && dest == Real(Head(localId, parts)) + Real(parts[3]) + front + stripped
    && slot == [RECYCLE, date] + Real(parts[2]) + Real(parts[3]) + front + ending
    && |last| <= 1 && |stripped| <= |last| && |stripped| <= |ending| <= 1
    && (ending == stripped || (|ending| == 1 && '~' in ending[0]))
    && (last != [] ==> stripped == Real(Strip(last[0])) && !Trivial(last[0]))
  }

  lemma Components(fs: Fs, localId: string, path: string, stamp: Stamp, dest: Path)
    returns (front: Path, last: Path, stripped: Path, ending: Path)
    requires Accepted(fs, localId, path) && DateSeg(stamp.date) && |Parts(path)| >= 5
             && Target(localId, Parts(path)) == Ok(dest)
    ensures Composed(localId, Parts(path), stamp.date, Item(path), dest, SlotOf(fs, Parts(path), stamp), front, last,
                     stripped, ending)
  {
    hide Kept, Split, Slashed, SlotParts, HasDotDot, DateSeg, Decimal, ResolvePath, Front, CleanSeg, Strip, Head;
    var parts := Parts(path);
    ItemAndTarget(localId, path);
    SlotIs(fs, localId, path, stamp);
    StripTrivial(Last(parts));
    var suffixed := Strip(Last(parts)) + ("~" + Decimal(stamp.ms));
    assert suffixed[|Strip(Last(parts))|] == '~';
    front, last, stripped := Front(parts), Real(Last(parts)), Real(Strip(Last(parts)));
    ending := if SlotOf(fs, parts, stamp)
      == [RECYCLE, stamp.date] + Real(parts[2]) + Real(parts[3]) + front + stripped then stripped else [suffixed];
  }

  lemma HomeSplits(localId: string, parts: seq<string>, date: string, item: Path, dest: Path, slot: Path,
                   front: Path, last: Path, stripped: Path, ending: Path)
    requires |parts| >= 5 && Home(parts)
             && Composed(localId, parts, date, item, dest, slot, front, last, stripped, ending)
    ensures var b := Real(parts[2]) + Real(parts[3]) + front;
            item == [RECYCLE, parts[1]] + b + last && dest == b + stripped && slot == [RECYCLE, date] + b + ending
  {
    hide Real, Strip;
    HeadReal(parts[1]);
    RegroupFour([RECYCLE, parts[1]], Real(parts[2]), Real(parts[3]), front, last);
    RegroupFour([RECYCLE, date], Real(parts[2]), Real(parts[3]), front, ending);
  }

  lemma HeadReal(part: string)
    requires !Trivial(part)
    ensures [RECYCLE] + Real(part) == [RECYCLE, part]
  {
  }

  lemma RegroupFour(r: Path, b: Path, c: Path, front: Path, last: Path)
    ensures r + b + c + front + last == r + (b + c + front) + last
  {
    assert r + b + c + front == r + (b + c + front);
  }

  // ---------- owners ----------

  predicate ValidOwner(p: Path) {
    Owner(p).Some? && IsValidDeviceId(Owner(p).value.0) && IsValidSpace(Owner(p).value.1)
  }

  /** Every official and recycled file belongs to a device and a space. */
  ghost predicate ValidOwners(fs: Fs) {
    forall p <- fs | !Staged(p) && fs[p] != Dir :: ValidOwner(p)
  }

  lemma NoTilde(name: string)
    requires IsValidDeviceId(name) || IsValidSpace(name) || DateSeg(name)
    ensures '~' !in name
  {
    if IsValidDeviceId(name) {
      forall i | 0 <= i < |name| ensures name[i] != '~' { }
    }
  }

  lemma {:induction false} StripPlain(name: string)
    requires '~' !in name
    ensures Strip(name) == name
  {
  }

  /** What replaces the last component when it is stripped, seen at an index. */
  lemma StrippedAt(m: Path, last: Path, stripped: Path, tail: Path, i: nat)
    requires |last| <= 1 && (last == [] ==> stripped == [])
             && (last != [] ==> stripped == Real(Strip(last[0])) && !Trivial(last[0]))
    requires i < |m + last + tail| && '~' !in (m + last + tail)[i]
             && (forall j :: 0 <= j < i ==> '~' !in (m + last + tail)[j])
    ensures i < |m + stripped + tail| && (m + stripped + tail)[i] == (m + last + tail)[i]
  {
    hide Strip, Real;
    if i < |m| {
      AtFront(m, last, tail, i);
      AtFront(m, stripped, tail, i);
    } else if last != [] {
      assert (m + last + tail)[|m|] == last[0];
      StrippedSame(last[0]);
      assert stripped == last;
    }
  }

  lemma AtFront(m: Path, x: Path, tail: Path, i: nat)
    requires i < |m|
    ensures i < |m + x + tail| && (m + x + tail)[i] == m[i]
  {
  }

  lemma StrippedSame(name: string)
    requires !Trivial(name) && '~' !in name
    ensures Real(Strip(name)) == [name]
  {
    StripPlain(name);
  }

  /** A file of the item that ends at a valid place ends at its own: and only by a home spelling. */
  lemma ItemOwner(parts: seq<string>, localId: string, last: Path, stripped: Path, front: Path, tail: Path, x: Path,
                  z: Path)
    requires |parts| >= 5 && IsValidDeviceId(localId)
    requires |last| <= 1 && (last == [] ==> stripped == [])
             && (last != [] ==> stripped == Real(Strip(last[0])) && !Trivial(last[0]))
    requires x == [RECYCLE] + Real(parts[1]) + Real(parts[2]) + Real(parts[3]) + front + last + tail
    requires z == Real(Head(localId, parts)) + Real(parts[3]) + front + stripped + tail
    requires ValidOwner(x) && DateSeg(x[1]) && ValidOwner(z) && !InRecycle(z)
    ensures Home(parts) && Owner(z) == Owner(x)
  {
    hide Strip, IsValidDeviceId, IsValidSpace, DateSeg;
    var m := Real(parts[2]) + Real(parts[3]) + front;
    var w, w' := m + last + tail, m + stripped + tail;
    SplitItem(parts, localId, front, last, stripped, tail);
    NoTilde(x[1]);
    NoTilde(x[2]);
    NoTilde(x[3]);
    DateNoOwner(x[1]);
    DeviceNoSpace(x[2]);
    IdIsReal(localId);
    if !Trivial(parts[1]) {
      assert w[0] == x[2] && w[1] == x[3];
      StrippedAt(m, last, stripped, tail, 0);
      StrippedAt(m, last, stripped, tail, 1);
    } else {
      assert w[0] == x[1];
      StrippedAt(m, last, stripped, tail, 0);
    }
  }

  /** The two paths of an item, grouped. */
  lemma SplitItem(parts: seq<string>, localId: string, front: Path, last: Path, stripped: Path, tail: Path)
    requires |parts| >= 5
    ensures var m := Real(parts[2]) + Real(parts[3]) + front;
            && [RECYCLE] + Real(parts[1]) + Real(parts[2]) + Real(parts[3]) + front + last + tail
               == (if Trivial(parts[1]) then [RECYCLE] else [RECYCLE, parts[1]]) + (m + last + tail)
            && Real(Head(localId, parts)) + Real(parts[3]) + front + stripped + tail
               == (if parts[2] == "" && !Trivial(localId) then [localId] else []) + (m + stripped + tail)
  {
    var b, c := Real(parts[2]), Real(parts[3]);
    Grouped([RECYCLE] + Real(parts[1]), b, c, front, last, tail);
    HeadOf(parts[1]);
    if parts[2] == "" {
      Grouped(Real(localId), [], c, front, stripped, tail);
      assert Real(localId) + [] == Real(localId);
    } else {
      Grouped([], b, c, front, stripped, tail);
      assert [] + b == b;
    }
    hide Real;
  }

  lemma HeadOf(part: string)
    ensures [RECYCLE] + Real(part) == if Trivial(part) then [RECYCLE] else [RECYCLE, part]
  {
    assert [RECYCLE] + [] == [RECYCLE] && [RECYCLE] + [part] == [RECYCLE, part];
  }

  lemma Grouped(r: Path, b: Path, c: Path, front: Path, last: Path, tail: Path)
    ensures r + b + c + front + last + tail == r + ((b + c + front) + last + tail)
  {
  }

  lemma DeviceNoSpace(name: string)
    requires IsValidDeviceId(name)
    ensures !IsValidSpace(name)
  {
  }

  lemma DateNoOwner(date: string)
    requires DateSeg(date)
    ensures !IsValidDeviceId(date) && !IsValidSpace(date)
  {
  }

  /** A file that makes room and ends at a valid place keeps its owner. */
  lemma SlotOwner(parts: seq<string>, localId: string, date: string, stripped: Path, ending: Path, front: Path,
                  tail: Path, p: Path, x: Path)
    requires |parts| >= 5 && IsValidDeviceId(localId)
    requires |stripped| <= |ending| <= 1 && (ending == stripped || (|ending| == 1 && '~' in ending[0]))
    requires p == Real(Head(localId, parts)) + Real(parts[3]) + front + stripped + tail
    requires x == [RECYCLE, date] + Real(parts[2]) + Real(parts[3]) + front + ending + tail
    requires ValidOwner(p) && !InRecycle(p) && ValidOwner(x)
    ensures Owner(x) == Owner(p)
  {
    hide IsValidDeviceId, IsValidSpace, Real, Head;
    var v := Real(parts[2]) + Real(parts[3]) + front;
    SplitItem(parts, localId, front, stripped, stripped, tail);
    NoTilde(x[2]);
    NoTilde(x[3]);
    SpaceNoDevice(p[1]);
    IdIsReal(localId);
    Grouped([RECYCLE, date], Real(parts[2]), Real(parts[3]), front, ending, tail);
    SuffixedOwner(v, stripped, ending, tail, x, date);
  }

  lemma IdIsReal(id: string)
    requires IsValidDeviceId(id)
    ensures !Trivial(id)
  {
  }

  /** Unless a suffix got among the first two components, they are the same as without it. */
  lemma SuffixedOwner(v: Path, stripped: Path, ending: Path, tail: Path, x: Path, date: string)
    requires |stripped| <= |ending| <= 1 && (ending == stripped || (|ending| == 1 && '~' in ending[0]))
    requires x == [RECYCLE, date] + (v + ending + tail) && |x| >= 5 && '~' !in x[2] && '~' !in x[3]
    ensures var w := v + stripped + tail; |w| >= 2 && w[0] == x[2] && w[1] == x[3]
  {
    if ending != stripped {
      assert x[2 + |v|] == ending[0];
    }
  }

  lemma SpaceNoDevice(name: string)
    requires IsValidSpace(name)
    ensures !IsValidDeviceId(name)
  {
  }

  /** With a component missing after ".recycle", a slot inside the item shows today's date where a
      device or a space would have to be. */
  lemma DateInTheWay(localId: string, parts: seq<string>, date: string, item: Path, dest: Path, slot: Path,
                     front: Path, last: Path, stripped: Path, ending: Path, tail: Path)
    requires |parts| >= 5 && Composed(localId, parts, date, item, dest, slot, front, last, stripped, ending)
    requires Trivial(parts[1]) && item < slot && dest != [] && IsValidDeviceId(localId) && '~' !in date
             && !Trivial(date)
    ensures var p, z := dest + tail, dest + slot[|item|..] + tail;
            |p| >= 2 ==> p[0] == date || p[1] == date || (|z| >= 2 && z[1] == date)
  {
    hide Strip, Real, Head;
    StrippedSame(date);
    HeadOf(parts[1]);
    HeadPart(localId, parts);
    var head: Path := if parts[2] == "" then [localId] else [];
    var b, c := Real(parts[2]), Real(parts[3]);
    RegroupTail([RECYCLE], b, c, front, last);
    RegroupTail([RECYCLE, date], b, c, front, ending);
    RegroupTail(head, b, c, front, stripped);
    hide Composed;
    DateFirst(item, dest, slot, date, head, b + c + front, last, stripped, ending, tail);
  }

  lemma HeadPart(localId: string, parts: seq<string>)
    requires |parts| >= 5 && IsValidDeviceId(localId)
    ensures Real(Head(localId, parts)) == (if parts[2] == "" then [localId] else []) + Real(parts[2])
  {
    IdIsReal(localId);
    hide IsValidDeviceId;
    assert [] + Real(parts[2]) == Real(parts[2]) && [localId] + [] == [localId];
  }

  lemma RegroupTail(r: Path, b: Path, c: Path, front: Path, last: Path)
    ensures r + b + c + front + last == r + ((b + c + front) + last)
  {
    RegroupFour(r, b, c, front, last);
    assert r + (b + c + front) + last == r + ((b + c + front) + last);
  }

  lemma DateFirst(item: Path, dest: Path, slot: Path, date: string, head: Path, v: Path, last: Path, stripped: Path,
                  ending: Path, tail: Path)
    requires item == [RECYCLE] + (v + last) && slot == [RECYCLE, date] + (v + ending) && dest == head + (v + stripped)
    requires item < slot && dest != [] && |head| <= 1 && |last| <= 1 && (last == [] ==> stripped == [])
             && (last == [date] ==> stripped == [date])
    ensures var p, z := dest + tail, dest + slot[|item|..] + tail;
            |p| >= 2 ==> p[0] == date || p[1] == date || (|z| >= 2 && z[1] == date)
  {
    var p, z := dest + tail, dest + slot[|item|..] + tail;
    if v + last != [] {
      assert item[1] == (v + last)[0] && slot[1] == date;
      assert v == [] ==> last == [date];
      assert dest[|head|] == date;
    } else {
      assert item == [RECYCLE] && slot[1..][0] == date && dest == head;
      assert z[1] == slot[1..][0];
    }
  }

  /** A file put into the item and taken out again ends at a valid place only if it keeps its owner. */
  lemma InsideOwner(localId: string, parts: seq<string>, date: string, item: Path, dest: Path, slot: Path,
                    front: Path, last: Path, stripped: Path, ending: Path, tail: Path)
    requires |parts| >= 5 && Composed(localId, parts, date, item, dest, slot, front, last, stripped, ending)
    requires item < slot && dest != [] && dest[0] != RECYCLE && IsValidDeviceId(localId) && DateSeg(date)
    requires ValidOwner(dest + tail) && ValidOwner(dest + slot[|item|..] + tail)
    ensures Owner(dest + tail) == Owner(dest + slot[|item|..] + tail)
  {
    hide Strip, IsValidDeviceId, IsValidSpace;
    var p, z := dest + tail, dest + slot[|item|..] + tail;
    assert p[0] == dest[0] && z[0] == dest[0];
    OfficialOwner(p);
    OfficialOwner(z);
    DateIsSeg(date);
    DateNoOwner(date);
    if Trivial(parts[1]) {
      DateInTheWay(localId, parts, date, item, dest, slot, front, last, stripped, ending, tail);
    } else {
      var b := Real(parts[2]) + Real(parts[3]) + front;
      InsideSplits(localId, parts, date, item, dest, slot, front, last, stripped, ending);
      NoTilde(z[0]);
      NoTilde(z[1]);
      HomeInside(if parts[2] == "" then [localId]
                 else [], parts[1], date, item, dest, slot, b, last, stripped, ending, tail);
    }
  }

  lemma InsideSplits(localId: string, parts: seq<string>, date: string, item: Path, dest: Path, slot: Path,
                     front: Path, last: Path, stripped: Path, ending: Path)
    requires |parts| >= 5 && Composed(localId, parts, date, item, dest, slot, front, last, stripped, ending)
    requires !Trivial(parts[1]) && IsValidDeviceId(localId)
    ensures var b := Real(parts[2]) + Real(parts[3]) + front;
            var head: Path := if parts[2] == "" then [localId] else [];
            item == [RECYCLE, parts[1]] + b + last && dest == head + b + stripped
              && slot == [RECYCLE, date] + b + ending
  {
    hide Strip, Real, Head;
    HeadReal(parts[1]);
    HeadPart(localId, parts);
    var b, c := Real(parts[2]), Real(parts[3]);
    RegroupFour([RECYCLE, parts[1]], b, c, front, last);
    RegroupFour([RECYCLE, date], b, c, front, ending);
    RegroupFour(if parts[2] == "" then [localId] else [], b, c, front, stripped);
  }

  lemma OfficialOwner(p: Path)
    requires ValidOwner(p) && p != [] && p[0] != RECYCLE
    ensures |p| >= 3 && Owner(p) == Some((p[0], p[1])) && IsValidDeviceId(p[0]) && IsValidSpace(p[1])
  {
  }

  lemma HomeInside(head: Path, a: string, date: string, item: Path, dest: Path, slot: Path, b: Path,
                   last: Path, stripped: Path, ending: Path, tail: Path)
    requires item == [RECYCLE, a] + b + last && dest == head + b + stripped && slot == [RECYCLE, date] + b + ending
             && item < slot
    requires |stripped| <= |last| && |ending| <= 1 && (ending == stripped || (|ending| == 1 && '~' in ending[0]))
    requires var p, z := dest + tail, dest + slot[|item|..] + tail;
             |p| >= 3 && |z| >= 3 && p[0] != RECYCLE && z[0] != RECYCLE && '~' !in z[0] && '~' !in z[1]
    ensures Owner(dest + tail) == Owner(dest + slot[|item|..] + tail)
  {
    assert |last| == 0 && |ending| == 1;
    var p, z := dest + tail, dest + slot[|item|..] + tail;
    assert slot[|item|..] == ending && dest == head + b;
    assert z[|dest|] == ending[0];
    assert |dest| >= 2;
    assert p[0] == dest[0] && p[1] == dest[1] && z[0] == dest[0] && z[1] == dest[1];
  }
}
