/** Local::open on any root: the node's directories made one after the other. */
module Opening {
  import opened FileSystem
  import opened Layout
  import opened RecycleLaws
  import opened Tidiness
  import opened Staging
  import opened StagingLaws
  import opened Provenance
  import opened Maintenance
  import opened StoreRun

  /** create_dir_all of the first n spaces, up to the first that fails. */
  function MakeFirst(fs: Fs, device: string, n: nat): (Fs, bool)
    requires n <= |SPACES|
  {
    if n == 0 then (fs, true)
    else
      var (made, ok) := MakeFirst(fs, device, n - 1);
      if ok && CanMkdirs(made, [device, SPACES[n - 1]]) then (Mkdirs(made, [device, SPACES[n - 1]]), true)
        else (made, false)
  }

  /** The root after opening, and whether opening went through. */
  function OpenRoot(fs: Fs, device: string): (Fs, bool) {
    var (made, ok) := MakeFirst(fs, device, |SPACES|);
    if ok && CanMkdirs(made, [RECYCLE]) then (Mkdirs(made, [RECYCLE]), true) else (made, false)
  }

  /** Once a space cannot be made, no later one is tried. */
  lemma {:induction false} StopsAt(fs: Fs, device: string, i: nat, n: nat)
    requires i <= n <= |SPACES| && !MakeFirst(fs, device, i).1
    ensures MakeFirst(fs, device, n) == MakeFirst(fs, device, i)
    decreases n
  {
    hide CanMkdirs, Mkdirs;
    if n > i { StopsAt(fs, device, i, n - 1); }
  }

  /** One directory more: nothing but an empty directory outside staging. */
  lemma DirMade(fs: Fs, dir: Path)
    requires IsTree(fs) && Tidy(fs) && CanMkdirs(fs, dir) && TidyPath(dir)
    ensures Shuffled(fs, Mkdirs(fs, dir)) && Tidy(Mkdirs(fs, dir)) && IsTree(Mkdirs(fs, dir))
  {
    forall q | q <= dir ensures !Staged(q) { TidyPrefix(q, dir); }
    hide Tidy, TidyPath, Shuffled;
    MkdirsShuffles(fs, dir);
    MkdirsTidy(fs, dir);
    MkdirsTree(fs, dir);
  }

  lemma {:induction false} FirstMade(fs: Fs, device: string, n: nat)
    requires IsTree(fs) && Tidy(fs) && IsValidDeviceId(device) && n <= |SPACES|
    ensures var g := MakeFirst(fs, device, n).0; Shuffled(fs, g) && Tidy(g) && IsTree(g)
  {
    hide Tidy, TidyPath, Shuffled, IsTree, CanMkdirs, Mkdirs;
    ShuffledSelf(fs);
    if n > 0 {
      FirstMade(fs, device, n - 1);
      var (made, ok) := MakeFirst(fs, device, n - 1);
      var dir := [device, SPACES[n - 1]];
      SpaceDirTidy(device, SPACES[n - 1]);
      if ok && CanMkdirs(made, dir) {
        DirMade(made, dir);
        ShuffledTrans(fs, made, Mkdirs(made, dir));
      }
    }
  }

  lemma SpaceDirTidy(device: string, space: string)
    requires IsValidDeviceId(device) && IsValidSpace(space)
    ensures TidyPath([device, space])
  {
  }

  /** Opening on any sound root, whether or not it goes through, keeps every file, every upload on
      disk, the staging invariant and provenance. */
  lemma OpenKeeps(hash: Hash, b: set<Begun>, s: Store, device: string)
    requires Accounted(hash, b, s) && IsValidDeviceId(device)
    ensures var g := OpenRoot(s.fs, device).0;
            Accounted(hash, b, Store(g, map[])) && Shuffled(s.fs, g)
  {
    hide Inv, Known, Tidy, Shuffled;
    InvTree(s);
    OpenShuffles(s.fs, device);
    var g := OpenRoot(s.fs, device).0;
    hide OpenRoot;
    ShuffledResettles(s.fs, g);
    ShuffleKeepsInv(s, g);
    ShuffleKeepsKnown(hash, b, s, s.(fs := g));
    TableGone(hash, b, s.(fs := g));
  }

  lemma ShuffledResettles(f: Fs, g: Fs)
    requires Shuffled(f, g)
    ensures Resettled(f, g)
  {
  }

  lemma OpenShuffles(fs: Fs, device: string)
    requires IsTree(fs) && Tidy(fs) && IsValidDeviceId(device)
    ensures var g := OpenRoot(fs, device).0; Shuffled(fs, g) && Tidy(g)
  {
    hide Tidy, TidyPath, Shuffled, IsTree, CanMkdirs, Mkdirs, MakeFirst;
    FirstMade(fs, device, |SPACES|);
    var (made, ok) := MakeFirst(fs, device, |SPACES|);
    ShortTidy(RECYCLE);
    if ok && CanMkdirs(made, [RECYCLE]) {
      DirMade(made, [RECYCLE]);
      ShuffledTrans(fs, made, Mkdirs(made, [RECYCLE]));
    }
  }

  lemma TableGone(hash: Hash, b: set<Begun>, s: Store)
    requires Inv(s) && Known(hash, b, s)
    ensures Inv(Store(s.fs, map[])) && Known(hash, b, Store(s.fs, map[]))
  {
  }

  /** It goes through exactly when no file stands in the place of a directory it needs. */
  lemma OpensIff(fs: Fs, device: string)
    requires IsTree(fs) && IsValidDeviceId(device)
    ensures OpenRoot(fs, device).1 <==>
              && ([device] in fs ==> fs[[device]] == Dir) && ([RECYCLE] in fs ==> fs[[RECYCLE]] == Dir)
              && forall i :: 0 <= i < |SPACES| ==> ([device, SPACES[i]] in fs ==> fs[[device, SPACES[i]]] == Dir)
  {
    hide MakeFirst;
    FirstIff(fs, device, |SPACES|);
    var (made, ok) := MakeFirst(fs, device, |SPACES|);
    BesideBin(device);
    RootIsDir(fs);
    ShortMkdirs(made, [RECYCLE]);
    assert [RECYCLE][..1] == [RECYCLE] && device !in [RECYCLE] && |SPACES| == 4;
  }

  lemma BesideBin(device: string)
    requires IsValidDeviceId(device)
    ensures device != RECYCLE
  {
    assert device[0] != '.';
  }

  /** What CanMkdirs asks for, for a path of one or two segments. */
  lemma ShortMkdirs(fs: Fs, dir: Path)
    requires [] in fs && fs[[]] == Dir && 1 <= |dir| <= 2
    ensures CanMkdirs(fs, dir) <==> (dir[..1] in fs ==> fs[dir[..1]] == Dir) && (dir in fs ==> fs[dir] == Dir)
  {
    assert dir[..|dir|] == dir && dir[..0] == [];
    if (dir[..1] in fs ==> fs[dir[..1]] == Dir) && (dir in fs ==> fs[dir] == Dir) {
      forall k | 0 <= k <= |dir| && dir[..k] in fs ensures fs[dir[..k]] == Dir {
        assert k == 0 || k == 1 || k == |dir|;
      }
    }
  }

  lemma {:induction false} FirstIff(fs: Fs, device: string, n: nat)
    requires IsTree(fs) && n <= |SPACES|
    ensures var (g, ok) := MakeFirst(fs, device, n);
            && (ok <==> (n > 0 && [device] in fs ==> fs[[device]] == Dir)
                        && forall i :: 0 <= i < n ==> ([device, SPACES[i]] in fs ==> fs[[device, SPACES[i]]] == Dir))
            && (forall p <- fs :: p in g && g[p] == fs[p])
            && (forall p <- g | p !in fs :: g[p] == Dir && device in p)
  {
    hide IsTree;
    if n > 0 {
      FirstIff(fs, device, n - 1);
      var (made, ok) := MakeFirst(fs, device, n - 1);
      var dir := [device, SPACES[n - 1]];
      RootIsDir(fs);
      ShortMkdirs(made, dir);
      assert dir[..1] == [device];
      forall p | p <= dir && p !in fs
        ensures device in p
      {
        if p == [] { RootIsDir(fs); } else { assert p[0] == dir[0]; }
      }
    }
  }

  lemma RootIsDir(fs: Fs)
    requires IsTree(fs)
    ensures [] in fs && fs[[]] == Dir
  {
  }

  /** On an empty root this is the opened store of the runs. */
  lemma OpensEmpty(device: string)
    requires IsValidDeviceId(device)
    ensures OpenRoot(map[[] := Dir], device) == (Opened(device).fs, true)
  {
    var root: Fs := map[[] := Dir];
    assert IsTree(root);
    OpensIff(root, device);
    hide MkSpaces, MakeFirst;
    FirstAre(root, device, |SPACES|);
  }

  /** As long as nothing fails, making the spaces with all their parents is making the device first. */
  lemma {:induction false} FirstAre(fs: Fs, device: string, n: nat)
    requires 1 <= n <= |SPACES| && MakeFirst(fs, device, n).1
    ensures MakeFirst(fs, device, n).0 == MkSpaces(fs, device, n)
  {
    hide CanMkdirs, Mkdirs;
    if n == 1 {
      FirstOne(fs, device);
    } else {
      FirstAre(fs, device, n - 1);
    }
  }

  lemma FirstOne(fs: Fs, device: string)
    requires |SPACES| > 1 && MakeFirst(fs, device, 1).1
    ensures MakeFirst(fs, device, 1).0 == MkSpaces(fs, device, 1)
  {
    hide CanMkdirs, Mkdirs;
    assert MkSpaces(fs, device, 0) == Mkdirs(fs, [device]) && MakeFirst(fs, device, 0) == (fs, true);
    MkdirsBoth(fs, [device], [device, SPACES[0]]);
  }

  lemma MkdirsBoth(fs: Fs, a: Path, b: Path)
    requires a <= b
    ensures Mkdirs(Mkdirs(fs, a), b) == Mkdirs(fs, b)
  {
    forall q | q in Prefixes(a) ensures q in Prefixes(b) { PrefixTrans(q, a, b); }
  }
}
