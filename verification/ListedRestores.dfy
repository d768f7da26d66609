/** What recycle.list shows is what recycle.restore takes. */
module ListedRestores {
  import opened Wrappers
  import opened Paths
  import opened Suffix
  import opened FileSystem
  import opened Layout
  import opened Recycle
  import opened RecycleLaws
  import opened Tidiness
  import opened Listing
  import opened RestoreNames
  import opened RestoreAnywhere
  import opened BinList

  /** Names as directories hold them and as a request can spell them: no "." and no separator of either kind. */
  predicate Spellable(p: Path) {
    forall i :: 0 <= i < |p| ==> !Trivial(p[i]) && '/' !in p[i] && '\\' !in p[i]
  }

  lemma ListedNames(p: Path)
    requires Spellable(p) && |p| >= 5 && p[0] == RECYCLE
    ensures Parts(Join(p)) == p && RECYCLE + "/" <= Slashed(Join(p)) && Named(p) == p && EndingOf(p) == Plain
  {
    hide Split, Join, Slashed;
    JoinChars(p, '\\');
    SlashedIdentity(Join(p));
    SplitJoin(p);
    assert p == [RECYCLE] + p[1..];
    JoinAppend([RECYCLE], p[1..]);
    OnePart(RECYCLE);
    KeptNontrivial(p);
  }

  lemma OnePart(part: string)
    ensures Join([part]) == part
  {
  }

  lemma ListableInBin(fs: Fs, p: Path)
    requires Listable(fs, [RECYCLE], p)
    ensures p in fs && |p| >= 5 && p[0] == RECYCLE && p[1] != "." && p[2] != "." && p[3] != "."
  {
    assert !DotLed(p[1]) && !DotLed(p[2]) && !DotLed(p[3]);
  }

  /** An entry names its item as recycle.restore reads it; the request gets past every check unless the path
      holds ".." or the origin has no normal form; and one that goes through answers with the origin. */
  lemma ListedRestoreAnswers(reader: Reader, fs: Fs, dates: Dates, localId: string, p: Path, stamp: Stamp)
    requires Listable(fs, [RECYCLE], p) && Spellable(p)
    ensures var item := ItemOf(reader, fs, dates, p);
            && (Accepted(fs, localId, item.path) <==>
                  !HasDotDot(item.path) && (item.origin == "" || Normalize(item.origin).Ok?))
            && match Restore(fs, localId, item.path, stamp).1
               case Ok(rel) => rel == item.origin
               case Err(_) => true
  {
    hide Split, Join, Slashed, HasDotDot, Normalize, Resolve, Named, Kept, OriginParts, Restore, Listable, Spellable;
    ListableInBin(fs, p);
    ListedNames(p);
    SpaceSpelt(p);
    NotASlash(p);
    EscapeIff(localId, p[3], p[2], OriginText(p));
    var path := Join(p);
    if Accepted(fs, localId, path) {
      RestoreMoves(fs, localId, path, stamp);
      hide Accepted, SceneOf;
    } else {
      SlashedSpelt(p);
      RestoreRefused(fs, localId, path, stamp);
    }
    SlashedSpelt(p);
  }

  lemma SlashedSpelt(p: Path)
    requires Spellable(p)
    ensures Slashed(Join(p)) == Join(p)
  {
    hide Join, Slashed;
    JoinChars(p, '\\');
    SlashedIdentity(Join(p));
  }

  lemma SpaceSpelt(p: Path)
    requires Spellable(p) && |p| >= 5
    ensures p[2] != "" && p[3] != "" && p[3][|p[3]| - 1] != '/'
  {
    assert !Trivial(p[2]) && !Trivial(p[3]);
  }

  /** The origin of an entry is not a lone slash. */
  lemma NotASlash(p: Path)
    requires Spellable(p) && |p| >= 5
    ensures OriginText(p) != "/"
  {
    var origin := OriginParts(p);
    if |origin| == 1 {
      OnePart(origin[0]);
      StripPart(Last(p));
    } else {
      assert origin[0] == p[4];
      assert Join(origin) == origin[0] + "/" + Join(origin[1..]);
      assert Join(origin)[0] == p[4][0];
    }
  }

  lemma StripPart(name: string)
    ensures '/' !in name ==> '/' !in Strip(name)
  {
  }

  /** And it is sound whatever it meets: nothing leaves its device and space, nothing leaves staging. The one
      entry that needs care is a bare collision suffix right below a space, which has no origin. */
  lemma ListedRestoreSound(reader: Reader, fs: Fs, dates: Dates, localId: string, p: Path, stamp: Stamp)
    requires IsTree(fs) && Tidy(fs) && IsValidDeviceId(localId) && DateSeg(stamp.date)
    requires Listable(fs, [RECYCLE], p) && Spellable(p)
    ensures var item := ItemOf(reader, fs, dates, p); item.origin != "" ==> RestoreSound(fs, localId, item.path, stamp)
  {
    hide Join, Split, Slashed, HasDotDot, Normalize, Kept, OriginParts, Listable, Spellable, Tidy, IsTree, DateSeg,
      IsValidDeviceId, RestoreSound, SceneOf, Accepted;
    var path := Join(p);
    ListableInBin(fs, p);
    ListedNames(p);
    SpaceSpelt(p);
    if Accepted(fs, localId, path) && OriginText(p) != "" {
      ScenePlaces(fs, localId, path, stamp);
      DeepTarget(localId, p);
      RealPart(p);
      HomeIsSound(fs, localId, path, stamp);
    } else if !Accepted(fs, localId, path) {
      RefusedIsSound(fs, localId, path, stamp);
    }
  }

  lemma RealPart(p: Path)
    requires Spellable(p) && |p| >= 5
    ensures Home(p)
  {
  }

  lemma RefusedIsSound(fs: Fs, localId: string, path: string, stamp: Stamp)
    requires !Accepted(fs, localId, path)
    ensures RestoreSound(fs, localId, path, stamp)
  {
  }

  /** With an origin, the target lies strictly below the entry's space. */
  lemma DeepTarget(localId: string, p: Path)
    requires Spellable(p) && |p| >= 5 && OriginText(p) != "" && Target(localId, p).Ok?
    ensures |Target(localId, p).value| >= 3
  {
    hide Join, Normalize, OriginParts, BaseText, Push;
    SpaceSpelt(p);
    NotASlash(p);
    var segs := Normalize(OriginText(p)).value;
    NormalizedIsClean(OriginText(p));
    assert Resolve(localId, p[3], p[2], OriginText(p)) == Ok([p[2], p[3]] + segs);
    KeptNontrivial([p[2], p[3]]);
    KeptAppend([p[2], p[3]], segs);
    KeptNontrivial(segs);
  }
}
