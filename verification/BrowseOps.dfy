/** Moving into the recycle bin and back, deleting and emptying, on the object. */
module BrowseOps {
  import opened Wrappers
  import opened Paths
  import opened Suffix
  import opened FileSystem
  import opened Layout
  import opened Recycle
  import opened RecycleLaws
  import opened Locals

  /** create_dir_all and rename, the end of every move. */
  method Move(local: Local, src: Path, dst: Path, e: Ending) returns (done: bool)
    modifies local`fs
    ensures (local.fs, done) == Transfer(old(local.fs), src, dst, e)
  {
    hide CanMkdirs, Mkdirs, Rename, SpellingAllows;
    if dst == [] { return false; }
    if !CanMkdirs(local.fs, Parent(dst)) { return false; }
    local.fs := Mkdirs(local.fs, Parent(dst));
    if src !in local.fs || !SpellingAllows(local.fs, src, e) { return false; }
    var moved := Rename(local.fs, src, dst);
    if moved.Err? { return false; }
    local.fs := moved.value;
    return true;
  }

  /** move_to_recycle */
  method RecycleItem(local: Local, device: string, space: string, rel: string, stamp: Stamp)
    returns (r: Result<string, OpError>)
    modifies local`fs
    ensures (local.fs, r) == MoveToRecycle(old(local.fs), local.deviceId, device, space, rel, stamp)
  {
    hide Transfer, Resolve, ExistsAt, EndingOf, Stricter, Split, Named, Decimal;
    var full := Resolve(local.deviceId, space, device, rel);
    if full.Err? { return Err(full.error); }
    if !ExistsAt(local.fs, full.value) { return Err(NotFound); }
    var name := RECYCLE + "/" + stamp.date + "/" + device + "/" + space + "/" + rel;
    if ExistsAt(local.fs, Split(name)) {
      name := name + "~" + Decimal(stamp.ms);
    }
    var parts := Split(name);
    var done := Move(local, Named(full.value), Named(parts), Stricter(EndingOf(full.value), EndingOf(parts)));
    if !done { return Err(Internal); }
    return Ok(name);
  }

  /** delete, up to the cursor. */
  method DeleteItem(local: Local, device: string, space: string, path: string, stamp: Stamp)
    returns (r: Result<Deleted, OpError>)
    modifies local`fs
    ensures (local.fs, r) == Delete(old(local.fs), local.deviceId, device, space, path, stamp)
  {
    hide MoveToRecycle, Normalize;
    var norm := NormalizePath(path);
    if norm.Err? { return Err(BadPath); }
    var moved := RecycleItem(local, device, space, norm.value, stamp);
    match moved {
      case Ok(name) => return Ok(Recycled(name));
      case Err(e) =>
        if e == NotFound { return Ok(AlreadyGone); }
        return Err(e);
    }
  }

  // ---------- recycle.restore ----------

  ghost predicate IsBinDir(fs: Fs, d: Path) {
    d in fs && [RECYCLE] < d && fs[d] == Dir
  }

  /** remove_dir: only an empty directory goes. */
  function RemoveEmptyDir(fs: Fs, d: Path): Fs {
    if d in fs && fs[d] == Dir && !HasChildren(fs, d) then map q | q in fs && q != d :: fs[q] else fs
  }

  /** Directories of the bin not yet visited are all there; those visited are there when they hold a
      file; nothing else has changed. */
  ghost predicate Pruned(was: Fs, now: Fs, rest: set<Path>) {
    && (forall p :: p in now <==> p in was && (IsBinDir(was, p) && p !in rest ==> HoldsFile(was, p)))
    && (forall p <- now :: now[p] == was[p])
  }

  /** With all below it visited, a directory is empty exactly when it never held a file. */
  lemma EmptyIff(was: Fs, now: Fs, rest: set<Path>, d: Path)
    requires Pruned(was, now, rest) && IsBinDir(was, d) && d in rest
    requires forall e <- rest :: !(d < e)
    ensures HasChildren(now, d) <==> HoldsFile(was, d)
  {
    if HoldsFile(was, d) {
      var q :| q in was && d <= q && was[q] != Dir;
      assert q[..|d|] == d;
      assert q != d && q[..|d|] + q[|d|..] == q;
      assert d < q && q in now;
    }
    if HasChildren(now, d) {
      var q :| q in now && d < q;
      if was[q] == Dir {
        assert q[..1] == d[..1] == [RECYCLE];
        assert IsBinDir(was, q) && q !in rest;
        var f :| f in was && q <= f && was[f] != Dir;
        assert f[..|d|] == q[..|d|] == d;
      }
      assert HoldsFile(was, d);
    }
  }

  lemma PruneOne(was: Fs, now: Fs, rest: set<Path>, d: Path)
    requires Pruned(was, now, rest) && d in rest && IsBinDir(was, d)
    requires forall e <- rest :: !(d < e)
    ensures Pruned(was, RemoveEmptyDir(now, d), rest - {d})
  {
    EmptyIff(was, now, rest, d);
    hide HasChildren, HoldsFile;
    assert d in now && now[d] == Dir;
    var after := RemoveEmptyDir(now, d);
    forall p ensures p in after <==> p in was && (IsBinDir(was, p) && p !in rest - {d} ==> HoldsFile(was, p)) {
      assert p != d ==> (p in after <==> p in now);
    }
  }

  lemma PruneAll(was: Fs, now: Fs)
    requires IsTree(was) && Pruned(was, now, {})
    ensures now == Prune(was)
  {
    forall p ensures p in now <==> p in Prune(was) {
      if p in was && [RECYCLE] < p && was[p] != Dir {
        assert HoldsFile(was, p);
      }
    }
  }

  lemma Longest(dirs: set<Path>) returns (d: Path)
    requires dirs != {}
    ensures d in dirs && forall e <- dirs :: |e| <= |d|
  {
    var first :| first in dirs;
    var rest := dirs - {first};
    d := first;
    if rest != {} {
      var e := Longest(rest);
      if |e| > |first| {
        d := e;
      }
    }
    forall e <- dirs ensures |e| <= |d| {
      assert e == first || e in rest;
    }
  }

  /** prune_empty_recycle_dirs: all directories of the bin, those below others first. */
  method PruneEmptyDirs(local: Local)
    requires IsTree(local.fs)
    modifies local`fs
    ensures local.fs == Prune(old(local.fs))
  {
    hide IsTree;
    ghost var was := local.fs;
    var rest := set d | d in local.fs && [RECYCLE] < d && local.fs[d] == Dir;
    while rest != {}
      invariant forall d <- rest :: IsBinDir(was, d)
      invariant Pruned(was, local.fs, rest)
      decreases |rest|
    {
      ghost var longest := Longest(rest);
      assert longest in rest && forall e <- rest :: !(longest < e);
      var d :| d in rest && forall e <- rest :: !(d < e);
      PruneOne(was, local.fs, rest, d);
      local.fs := RemoveEmptyDir(local.fs, d);
      rest := rest - {d};
    }
    PruneAll(was, local.fs);
  }

  method RestoreItem(local: Local, recyclePath: string, stamp: Stamp) returns (r: Result<string, OpError>)
    requires IsTree(local.fs)
    modifies local`fs
    ensures (local.fs, r) == Restore(old(local.fs), local.deviceId, recyclePath, stamp)
  {
    var name := Slashed(recyclePath);
    if !(RECYCLE + "/" <= name) || HasDotDot(name) { return Err(BadPath); }
    var parts := Split(name);
    if !ExistsAt(local.fs, parts) { return Err(NotFound); }
    if |parts| < 5 { return Err(BadPath); }
    hide Slashed, HasDotDot, Split, ExistsAt, EndingOf, Stricter, MoveToRecycle, Resolve, Transfer, Prune, Join, Strip,
      Named;
    var origin := parts[4..];
    origin := origin[..|origin| - 1] + [Strip(Last(origin))];
    var rel := Join(origin);
    var dest := Resolve(local.deviceId, parts[3], parts[2], rel);
    if dest.Err? { return Err(dest.error); }
    ghost var was := local.fs;
    if ExistsAt(local.fs, dest.value) {
      var displaced := RecycleItem(local, parts[2], parts[3], rel, stamp);
      if displaced.Err? { return Err(displaced.error); }
    }
    ghost var cleared := local.fs;
    var e := Stricter(EndingOf(parts), EndingOf(dest.value));
    var done := Move(local, Named(parts), Named(dest.value), e);
    if !done { return Err(Internal); }
    MovedTree(was, cleared, local.fs, local.deviceId, parts[2], parts[3], rel, stamp, Named(parts), Named(dest.value),
              e);
    PruneEmptyDirs(local);
    return Ok(rel);
  }

  lemma MovedTree(was: Fs, cleared: Fs, now: Fs, localId: string, device: string, space: string, rel: string,
                  stamp: Stamp, src: Path, dst: Path, e: Ending)
    requires IsTree(was)
    requires cleared == was || cleared == MoveToRecycle(was, localId, device, space, rel, stamp).0
    requires now == Transfer(cleared, src, dst, e).0
    ensures IsTree(now)
  {
    hide IsTree, Transfer, MoveToRecycle;
    MoveToRecycleTree(was, localId, device, space, rel, stamp);
    TransferTree(cleared, src, dst, e);
  }
}
