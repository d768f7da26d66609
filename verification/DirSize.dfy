/** dir_size: the recursive sum of file lengths, with its rule for directories that start with a dot. */
module DirSize {
  import opened FileSystem
  import opened Layout
  import opened Listing
  import opened Maintenance

  type Size = Node -> nat

  /** The files summed below a directory. Dot-led directories are left out when asked for, but only
      from the second level on: those directly in the base are walked. */
  ghost function Counted(fs: Fs, base: Path, dir: Path, skip: bool): (r: set<Path>)
    ensures r <= fs.Keys
  {
    set q <- fs | dir < q && fs[q] != Dir && (skip ==> Reached(base, dir, q))
  }

  ghost predicate Reached(base: Path, dir: Path, q: Path) {
    forall i | |dir| <= i < |q| - 1 && |base| < i :: !DotLed(q[i])
  }

  /** The counted files under the first so many names of a directory. */
  ghost function CountedIn(fs: Fs, base: Path, dir: Path, skip: bool, names: seq<string>): (r: set<Path>)
    ensures r <= fs.Keys
  {
    set q <- Counted(fs, base, dir, skip) | q[|dir|] in names
  }

  /** What one child adds. */
  ghost function CountedAt(fs: Fs, base: Path, dir: Path, skip: bool, name: string): (r: set<Path>)
    ensures r <= fs.Keys
  {
    var p := dir + [name];
    if p !in fs then {}
    else if fs[p] != Dir then {p}
    else if skip && DotLed(name) && dir != base then {}
    else Counted(fs, base, p, skip)
  }

  lemma CountedChild(fs: Fs, base: Path, dir: Path, skip: bool, name: string, q: Path)
    requires IsTree(fs) && base <= dir
    ensures q in CountedAt(fs, base, dir, skip, name) <==> q in Counted(fs, base, dir, skip) && q[|dir|] == name
  {
    var p := dir + [name];
    assert p[|dir|] == name && dir < p;
    if dir < q && q[|dir|] == name {
      PrefixAt(dir, q);
      assert p != q ==> p < q;
    }
    if q in fs && p < q {
      PrefixIsDir(fs, p, q);
      assert q[..|dir|] == p[..|dir|] == dir;
      assert q[|dir|] == name;
      ReachedStep(base, dir, name, q);
    }
  }

  lemma ReachedStep(base: Path, dir: Path, name: string, q: Path)
    requires base <= dir && dir + [name] < q && q[|dir|] == name
    ensures Reached(base, dir, q) <==> !(DotLed(name) && dir != base) && Reached(base, dir + [name], q)
  {
    if Reached(base, dir, q) && dir != base {
      assert !DotLed(q[|dir|]);
    }
  }

  lemma CountedSplit(fs: Fs, base: Path, dir: Path, skip: bool, names: seq<string>, name: string)
    requires IsTree(fs) && base <= dir && name !in names
    ensures CountedIn(fs, base, dir, skip, names + [name])
            == CountedIn(fs, base, dir, skip, names) + CountedAt(fs, base, dir, skip, name)
    ensures CountedIn(fs, base, dir, skip, names) !! CountedAt(fs, base, dir, skip, name)
  {
    forall q
      ensures q in CountedAt(fs, base, dir, skip, name) <==> q in Counted(fs, base, dir, skip) && q[|dir|] == name
    {
      CountedChild(fs, base, dir, skip, name, q);
    }
    hide CountedAt, Counted;
  }

  lemma CountedNames(fs: Fs, readDir: ReadDir, base: Path, dir: Path, skip: bool)
    requires IsTree(fs) && Enumerates(fs, readDir)
    ensures CountedIn(fs, base, dir, skip, readDir(dir)) == Counted(fs, base, dir, skip)
    ensures CountedIn(fs, base, dir, skip, []) == {}
  {
    forall q <- Counted(fs, base, dir, skip) ensures q[|dir|] in readDir(dir) {
      PrefixAt(dir, q);
      var name := q[|dir|];
      if dir + [name] != q {
        PrefixIsDir(fs, dir + [name], q);
      }
      assert name in readDir(dir) <==> dir + [name] in fs;
    }
  }

  /** walk_dir_size, adding to a running total. */
  method WalkDirSize(fs: Fs, readDir: ReadDir, size: Size, base: Path, dir: Path, skip: bool, total: nat)
    returns (sum: nat)
    requires IsTree(fs) && Enumerates(fs, readDir) && base <= dir
    ensures sum == total + Total(fs, Counted(fs, base, dir, skip), size)
    decreases Under(fs, dir), 1
  {
    hide Counted, CountedAt, CountedIn, Total, Enumerates, IsTree, Under;
    var names := readDir(dir);
    NamesDistinct(fs, readDir, dir);
    CountedNames(fs, readDir, base, dir, skip);
    TotalEmpty(fs, size);
    sum := total;
    var i := 0;
    assert names[..0] == [];
    while i < |names|
      invariant 0 <= i <= |names|
      invariant sum == total + Total(fs, CountedIn(fs, base, dir, skip, names[..i]), size)
    {
      assert names[..i + 1] == names[..i] + [names[i]];
      CountedSplit(fs, base, dir, skip, names[..i], names[i]);
      TotalUnion(fs, CountedIn(fs, base, dir, skip, names[..i]), CountedAt(fs, base, dir, skip, names[i]), size);
      sum := WalkOneSize(fs, readDir, size, base, dir, skip, names[i], sum);
      i := i + 1;
    }
    assert names[..|names|] == names;
  }

  lemma NamesDistinct(fs: Fs, readDir: ReadDir, dir: Path)
    requires Enumerates(fs, readDir)
    ensures forall i | 0 <= i < |readDir(dir)| :: readDir(dir)[i] !in readDir(dir)[..i]
    ensures forall name <- readDir(dir) :: dir + [name] in fs
  {
  }

  lemma TotalEmpty(fs: Fs, size: Size)
    ensures Total(fs, {}, size) == 0
  {
  }

  method WalkOneSize(fs: Fs, readDir: ReadDir, size: Size, base: Path, dir: Path, skip: bool, name: string, total: nat)
    returns (sum: nat)
    requires IsTree(fs) && Enumerates(fs, readDir) && base <= dir && dir + [name] in fs
    ensures sum == total + Total(fs, CountedAt(fs, base, dir, skip, name), size)
    decreases Under(fs, dir), 0
  {
    hide Counted, Enumerates, IsTree, Under;
    var p := dir + [name];
    sum := total;
    if fs[p] == Dir {
      if !(skip && DotLed(name) && dir != base) {
        UnderShrinks(fs, dir, name);
        sum := WalkDirSize(fs, readDir, size, base, p, skip, sum);
      }
    } else {
      TotalRemove(fs, {p}, size, p);
      assert {p} - {p} == {};
      sum := sum + size(fs[p]);
    }
  }

  // ---------- what dir_size measures ----------

  /** dir_size: nothing for a path that is not a directory. */
  method Measure(fs: Fs, readDir: ReadDir, size: Size, dir: Path, skip: bool) returns (sum: nat)
    requires IsTree(fs) && Enumerates(fs, readDir)
    ensures sum == Total(fs, Counted(fs, dir, dir, skip), size)
  {
    hide Counted, Total, IsTree;
    if dir in fs && fs[dir] == Dir {
      sum := WalkDirSize(fs, readDir, size, dir, dir, skip, 0);
    } else {
      CountedNothing(fs, dir, skip);
      TotalEmpty(fs, size);
      sum := 0;
    }
  }

  lemma CountedNothing(fs: Fs, dir: Path, skip: bool)
    requires IsTree(fs) && !(dir in fs && fs[dir] == Dir)
    ensures Counted(fs, dir, dir, skip) == {}
  {
    forall q | q in fs && dir < q ensures false {
      PrefixIsDir(fs, dir, q);
    }
  }

  /** Without the rule for dots it is every byte stored below the directory: the figure by which
      recycle.empty, gc_recycle, purge and wipe report what they free. */
  lemma MeasureIsSizeBelow(fs: Fs, dir: Path, size: Size)
    requires IsTree(fs) && Weighs(size)
    ensures Total(fs, Counted(fs, dir, dir, false), size) == SizeBelow(fs, dir, size)
  {
    var files := Counted(fs, dir, dir, false);
    var dirs := set q <- fs | dir < q && fs[q] == Dir;
    assert Below(fs, dir) == files + dirs;
    TotalUnion(fs, files, dirs, size);
    DirsWeighNothing(fs, dirs, size);
  }

  /** The staging files of a space. */
  ghost function StagedFiles(fs: Fs, base: Path): set<Path> {
    set q <- fs | base + [STAGING] < q && fs[q] != Dir
  }

  ghost function VisibleFiles(fs: Fs, base: Path): set<Path> {
    set q <- fs | Visible(fs, base, q)
  }

  /** With the rule, as stats uses it for a space: the staging directory hangs directly in the space,
      so its files are counted with the committed ones whenever the space holds no other dot-led name. */
  lemma StatsCountStaging(fs: Fs, device: string, space: string, size: Size)
    requires IsTree(fs) && ([device, space, STAGING] in fs ==> fs[[device, space, STAGING]] == Dir)
    requires forall q <- fs, i | [device, space] < q && 2 <= i < |q| && DotLed(q[i]) :: i == 2 && q[2] == STAGING
    ensures var base := [device, space];
            Total(fs, Counted(fs, base, base, true), size)
            == Total(fs, VisibleFiles(fs, base), size) + Total(fs, StagedFiles(fs, base), size)
  {
    var base := [device, space];
    assert base + [STAGING] == [device, space, STAGING];
    var counted, visible, staged := Counted(fs, base, base, true), VisibleFiles(fs, base), StagedFiles(fs, base);
    forall q | q in fs ensures q in counted <==> q in visible || q in staged {
      StagedOrVisible(fs, base, q);
    }
    forall q <- staged ensures q !in visible {
      StagedOrVisible(fs, base, q);
    }
    hide Counted, VisibleFiles, StagedFiles, Total, IsTree;
    assert counted == visible + staged;
    TotalUnion(fs, visible, staged, size);
  }

  lemma StagedOrVisible(fs: Fs, base: Path, q: Path)
    requires |base| == 2 && q in fs && (base + [STAGING] in fs ==> fs[base + [STAGING]] == Dir)
    requires forall i | base < q && 2 <= i < |q| && DotLed(q[i]) :: i == 2 && q[2] == STAGING
    ensures q in StagedFiles(fs, base) ==> q in Counted(fs, base, base, true) && q !in VisibleFiles(fs, base)
    ensures q in VisibleFiles(fs, base) ==> q in Counted(fs, base, base, true)
    ensures q in Counted(fs, base, base, true) ==> q in VisibleFiles(fs, base) || q in StagedFiles(fs, base)
  {
    var p := base + [STAGING];
    assert p[2] == STAGING && DotLed(STAGING);
    if p < q {
      assert q[..2] == p[..2] == base && q[2] == p[2];
    }
    if base < q && q[2] == STAGING {
      PrefixAt(base, q);
      assert base + [q[2]] == p;
      assert p == q || p < q;
    } else if base < q {
      forall i | 2 <= i < |q| ensures !DotLed(q[i]) { }
    }
  }
}
