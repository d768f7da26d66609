/** Listing a space: the bounded accumulator walk against the full depth-first flattening. */
module Listing {
  import opened Wrappers
  import opened Paths
  import opened FileSystem
  import opened Layout
  import opened Recycle
  import opened Staging

  /** Directory reading: the names in a directory, in whatever order the system gives them. */
  type ReadDir = Path -> seq<string>

  /** The names read are exactly those present, each once. */
  ghost predicate Enumerates(fs: Fs, readDir: ReadDir) {
    forall dir ::
      && (forall name :: name in readDir(dir) <==> dir + [name] in fs)
      && (forall i, j :: 0 <= i < j < |readDir(dir)| ==> readDir(dir)[i] != readDir(dir)[j])
  }

  predicate DotLed(name: string) {
    name != "" && name[0] == '.'
  }

  /** Everything strictly below a directory. */
  function Under(fs: Fs, dir: Path): set<Path> {
    set q | q in fs && dir < q
  }

  lemma UnderShrinks(fs: Fs, dir: Path, name: string)
    requires dir + [name] in fs
    ensures Under(fs, dir + [name]) < Under(fs, dir)
  {
    assert dir + [name] in Under(fs, dir);
    forall q <- Under(fs, dir + [name]) ensures dir < q {
      assert q[..|dir|] == (dir + [name])[..|dir|];
    }
  }

  // ---------- the simple form ----------

  /** All the files of a directory, depth first, whole. */
  function Flatten(fs: Fs, readDir: ReadDir, dir: Path): seq<Path>
    decreases Under(fs, dir), 2, 0
  {
    if dir in fs && fs[dir] == Dir then FlattenAll(fs, readDir, dir, readDir(dir)) else []
  }

  function FlattenAll(fs: Fs, readDir: ReadDir, dir: Path, names: seq<string>): seq<Path>
    decreases Under(fs, dir), 1, |names|
  {
    if names == [] then [] else FlattenOne(fs, readDir, dir, names[0]) + FlattenAll(fs, readDir, dir, names[1..])
  }

  function FlattenOne(fs: Fs, readDir: ReadDir, dir: Path, name: string): seq<Path>
    decreases Under(fs, dir), 0, 0
  {
    var p := dir + [name];
    if p !in fs || DotLed(name) then []
    else if fs[p] == Dir then UnderShrinks(fs, dir, name); Flatten(fs, readDir, p)
    else [p]
  }

  // ---------- the walk ----------

  /** An accumulator after a sequence was offered to it: it takes no more than the limit. */
  function Filled(acc: seq<Path>, s: seq<Path>, limit: nat): (r: seq<Path>)
    ensures |acc| <= limit ==> |r| <= limit
  {
    if |acc| >= limit then acc else if |acc| + |s| <= limit then acc + s else acc + s[..limit - |acc|]
  }

  lemma FilledAppend(acc: seq<Path>, a: seq<Path>, b: seq<Path>, limit: nat)
    ensures Filled(Filled(acc, a, limit), b, limit) == Filled(acc, a + b, limit)
    ensures |Filled(acc, a, limit)| >= limit ==> Filled(acc, a + b, limit) == Filled(acc, a, limit)
  {
  }

  lemma FilledSmall(acc: seq<Path>, p: Path, limit: nat)
    ensures Filled(acc, [], limit) == acc
    ensures |acc| < limit ==> Filled(acc, [p], limit) == acc + [p]
    ensures |acc| >= limit ==> forall s :: Filled(acc, s, limit) == acc
  {
  }

  lemma FirstOf(s: seq<Path>, limit: nat)
    ensures Filled([], s, limit) == if |s| <= limit then s else s[..limit]
  {
  }

  /** One name of a directory, as the loop treats it. */
  method WalkOne(fs: Fs, readDir: ReadDir, dir: Path, name: string, acc: seq<Path>, limit: nat)
    returns (entries: seq<Path>)
    requires |acc| < limit
    ensures entries == Filled(acc, FlattenOne(fs, readDir, dir, name), limit)
    decreases Under(fs, dir), 0
  {
    hide Flatten, Filled;
    var p := dir + [name];
    FilledSmall(acc, p, limit);
    entries := acc;
    if p in fs && !DotLed(name) {
      if fs[p] == Dir {
        UnderShrinks(fs, dir, name);
        entries := WalkFiles(fs, readDir, p, entries, limit);
      } else {
        entries := entries + [p];
      }
    }
  }

  /** The walk as the store does it: one accumulator through all directories, leaving early. */
  method WalkFiles(fs: Fs, readDir: ReadDir, dir: Path, acc: seq<Path>, limit: nat) returns (entries: seq<Path>)
    ensures entries == Filled(acc, Flatten(fs, readDir, dir), limit)
    decreases Under(fs, dir), 1
  {
    hide Filled, FlattenOne, FlattenAll, Under;
    FilledSmall(acc, dir, limit);
    entries := acc;
    if |entries| >= limit || dir !in fs || fs[dir] != Dir {
      return;
    }
    var names := readDir(dir);
    var i := 0;
    ghost var whole, seen: seq<Path> := FlattenAll(fs, readDir, dir, names), [];
    assert names[0..] == names;
    while i < |names| && |entries| < limit
      invariant 0 <= i <= |names|
      invariant seen + FlattenAll(fs, readDir, dir, names[i..]) == whole
      invariant entries == Filled(acc, seen, limit)
    {
      ghost var one := FlattenOne(fs, readDir, dir, names[i]);
      FlattenAllStep(fs, readDir, dir, names, i);
      FilledAppend(acc, seen, one, limit);
      entries := WalkOne(fs, readDir, dir, names[i], entries, limit);
      Regroup(seen, one, FlattenAll(fs, readDir, dir, names[i + 1..]));
      seen := seen + one;
      i := i + 1;
    }
    FilledAppend(acc, seen, FlattenAll(fs, readDir, dir, names[i..]), limit);
    if i == |names| {
      FlattenAllDone(fs, readDir, dir, names, seen);
    }
  }

  lemma FlattenAllStep(fs: Fs, readDir: ReadDir, dir: Path, names: seq<string>, i: nat)
    requires i < |names|
    ensures FlattenAll(fs, readDir, dir, names[i..])
            == FlattenOne(fs, readDir, dir, names[i]) + FlattenAll(fs, readDir, dir, names[i + 1..])
  {
    assert names[i..][0] == names[i] && names[i..][1..] == names[i + 1..];
  }

  lemma FlattenAllDone(fs: Fs, readDir: ReadDir, dir: Path, names: seq<string>, seen: seq<Path>)
    ensures seen + FlattenAll(fs, readDir, dir, names[|names|..]) == seen
  {
    assert names[|names|..] == [];
  }

  lemma Regroup(a: seq<Path>, b: seq<Path>, c: seq<Path>)
    ensures a + (b + c) == a + b + c
  {
  }

  // ---------- what the flattening holds ----------

  /** Files below a directory with no dot-led name on the way from it. */
  ghost predicate Visible(fs: Fs, dir: Path, p: Path) {
    p in fs && dir < p && fs[p] != Dir && forall i :: |dir| <= i < |p| ==> !DotLed(p[i])
  }

  /** A visible file is a child with an undotted name, or visible below such a child. */
  lemma VisibleStep(fs: Fs, dir: Path, name: string, p: Path)
    ensures var q := dir + [name];
            Visible(fs, dir, p) && p[|dir|] == name
            <==> !DotLed(name) && ((p == q && q in fs && fs[q] != Dir) || Visible(fs, q, p))
  {
    var q := dir + [name];
    assert q[|dir|] == name && dir < q;
    if Visible(fs, dir, p) && p[|dir|] == name {
      PrefixAt(dir, p);
      assert !DotLed(p[|dir|]);
      if p != q {
        assert |q| < |p|;
      }
    } else if Visible(fs, q, p) && !DotLed(name) {
      VisibleUp(fs, dir, name, p);
    }
  }

  lemma VisibleUp(fs: Fs, dir: Path, name: string, p: Path)
    requires Visible(fs, dir + [name], p) && !DotLed(name)
    ensures Visible(fs, dir, p) && p[|dir|] == name
  {
    var q := dir + [name];
    assert p[..|dir|] == q[..|dir|] == dir;
    assert p[|dir|] == q[|dir|];
    forall i | |dir| <= i < |p| ensures !DotLed(p[i]) {
      assert i == |dir| || |q| <= i;
    }
  }

  lemma NoneVisible(fs: Fs, dir: Path, p: Path)
    requires IsTree(fs) && Visible(fs, dir, p)
    ensures dir in fs && fs[dir] == Dir
  {
    PrefixIsDir(fs, dir, p);
  }

  lemma {:induction false} FlattenOneHolds(fs: Fs, readDir: ReadDir, dir: Path, name: string, p: Path)
    requires IsTree(fs) && Enumerates(fs, readDir)
    ensures p in FlattenOne(fs, readDir, dir, name) <==> Visible(fs, dir, p) && p[|dir|] == name
    decreases Under(fs, dir), 0, 0
  {
    hide Visible, IsTree, Enumerates, Flatten, Under, DotLed;
    var q := dir + [name];
    VisibleStep(fs, dir, name, p);
    if Visible(fs, q, p) {
      NoneVisible(fs, q, p);
    }
    if q in fs && fs[q] == Dir && !DotLed(name) {
      UnderShrinks(fs, dir, name);
      FlattenHolds(fs, readDir, q, p);
    }
  }

  lemma {:induction false} FlattenAllHolds(fs: Fs, readDir: ReadDir, dir: Path, names: seq<string>, p: Path)
    requires IsTree(fs) && Enumerates(fs, readDir)
    ensures p in FlattenAll(fs, readDir, dir, names) <==> Visible(fs, dir, p) && p[|dir|] in names
    decreases Under(fs, dir), 1, |names|
  {
    hide Visible, FlattenOne, IsTree, Enumerates;
    if names != [] {
      FlattenOneHolds(fs, readDir, dir, names[0], p);
      FlattenAllHolds(fs, readDir, dir, names[1..], p);
    }
  }

  /** The flattening of a directory is its visible files, no more and no fewer. */
  lemma {:induction false} FlattenHolds(fs: Fs, readDir: ReadDir, dir: Path, p: Path)
    requires IsTree(fs) && Enumerates(fs, readDir)
    ensures p in Flatten(fs, readDir, dir) <==> Visible(fs, dir, p)
    decreases Under(fs, dir), 2, 0
  {
    hide FlattenAll, Visible, IsTree, Enumerates, Under;
    if Visible(fs, dir, p) {
      NoneVisible(fs, dir, p);
      VisibleNamed(fs, readDir, dir, p);
    }
    if dir in fs && fs[dir] == Dir {
      FlattenAllHolds(fs, readDir, dir, readDir(dir), p);
    }
  }

  lemma VisibleNamed(fs: Fs, readDir: ReadDir, dir: Path, p: Path)
    requires IsTree(fs) && Enumerates(fs, readDir) && Visible(fs, dir, p)
    ensures dir < p && p[|dir|] in readDir(dir)
  {
    PrefixAt(dir, p);
    var name := p[|dir|];
    if dir + [name] != p {
      PrefixIsDir(fs, dir + [name], p);
    }
    assert name in readDir(dir) <==> dir + [name] in fs;
  }

  lemma PrefixAt(dir: Path, p: Path)
    requires dir < p
    ensures dir + [p[|dir|]] <= p
  {
    assert p[..|dir| + 1] == dir + [p[|dir|]];
  }

  ghost predicate Distinct(s: seq<Path>) {
    forall i, j :: 0 <= i < j < |s| ==> s[i] != s[j]
  }

  lemma {:induction false} FlattenAllDistinct(fs: Fs, readDir: ReadDir, dir: Path, names: seq<string>)
    requires IsTree(fs) && Enumerates(fs, readDir)
    requires forall i, j :: 0 <= i < j < |names| ==> names[i] != names[j]
    ensures Distinct(FlattenAll(fs, readDir, dir, names))
    decreases Under(fs, dir), 1, |names|
  {
    hide IsTree, Enumerates, Under, FlattenOne, Visible, Distinct;
    if names == [] {
      DistinctAppend([], []);
    } else {
      FlattenOneDistinct(fs, readDir, dir, names[0]);
      FlattenAllDistinct(fs, readDir, dir, names[1..]);
      var head, tail := FlattenOne(fs, readDir, dir, names[0]), FlattenAll(fs, readDir, dir, names[1..]);
      forall p | p in head ensures p !in tail {
        FlattenOneHolds(fs, readDir, dir, names[0], p);
        FlattenAllHolds(fs, readDir, dir, names[1..], p);
      }
      DistinctAppend(head, tail);
    }
  }

  lemma DistinctAppend(a: seq<Path>, b: seq<Path>)
    ensures Distinct([])
    ensures Distinct(a) && Distinct(b) && (forall p | p in a :: p !in b) ==> Distinct(a + b)
  {
    if Distinct(a) && Distinct(b) && forall p | p in a :: p !in b {
      var s := a + b;
      forall i, j | 0 <= i < j < |s| ensures s[i] != s[j] {
        if i < |a| <= j {
          assert a[i] in a && s[j] == b[j - |a|];
        }
      }
    }
  }

  lemma {:induction false} FlattenOneDistinct(fs: Fs, readDir: ReadDir, dir: Path, name: string)
    requires IsTree(fs) && Enumerates(fs, readDir)
    ensures Distinct(FlattenOne(fs, readDir, dir, name))
    decreases Under(fs, dir), 0, 0
  {
    if dir + [name] in fs && fs[dir + [name]] == Dir && !DotLed(name) {
      UnderShrinks(fs, dir, name);
      FlattenDistinct(fs, readDir, dir + [name]);
    }
  }

  /** No file is listed twice. */
  lemma {:induction false} FlattenDistinct(fs: Fs, readDir: ReadDir, dir: Path)
    requires IsTree(fs) && Enumerates(fs, readDir)
    ensures Distinct(Flatten(fs, readDir, dir))
    decreases Under(fs, dir), 2, 0
  {
    if dir in fs && fs[dir] == Dir {
      FlattenAllDistinct(fs, readDir, dir, readDir(dir));
    }
  }

  // ---------- the reply of list ----------

  datatype Entry = Entry(path: string, size: nat, sha: string)

  /** How files turn into entries: the hash, and the text of a staging file. */
  datatype Reader = Reader(hash: Hash, text: StagingMeta -> Bytes)

  function Content(reader: Reader, file: Node): Bytes {
    match file
    case Dir => []
    case Blob(data) => data
    case Meta(m) => reader.text(m)
  }

  /** The entry of a file: its path below the space, the size and the hash of its content. */
  function Shown(reader: Reader, fs: Fs, base: Path, p: Path): Entry {
    var content := if p in fs then Content(reader, fs[p]) else [];
    Entry(Join(if base <= p then p[|base|..] else p), |content|, reader.hash(content))
  }

  function ShownAll(reader: Reader, fs: Fs, base: Path, files: seq<Path>): (entries: seq<Entry>)
    ensures |entries| == |files| && forall i :: 0 <= i < |files| ==> entries[i] == Shown(reader, fs, base, files[i])
  {
    seq(|files|, i requires 0 <= i < |files| => Shown(reader, fs, base, files[i]))
  }

  const DEFAULT_LIMIT := 1000

  /** What list answers: the first `limit` entries of the whole flattening, 1000 when none is given. */
  function Listed(reader: Reader, fs: Fs, readDir: ReadDir, localId: string, space: string, device: string,
                  path: string, limit: int)
    : Result<seq<Entry>, OpError>
  {
    var base := Named([if device == "" then localId else device, space]);
    match ResolvePath(localId, space, device, path)
    case Err(e) => Err(e)
    case Ok(dir) => Ok(ShownAll(reader, fs, base,
                                Filled([], Flatten(fs, readDir, dir), if limit <= 0 then DEFAULT_LIMIT else limit)))
  }

  method List(reader: Reader, fs: Fs, readDir: ReadDir, localId: string, space: string, device: string, path: string,
              limit: int)
    returns (r: Result<seq<Entry>, OpError>)
    ensures r == Listed(reader, fs, readDir, localId, space, device, path, limit)
  {
    hide Flatten, Filled, Named;
    var base := Named([if device == "" then localId else device, space]);
    var dir := ResolvePath(localId, space, device, path);
    if dir.Err? {
      return Err(dir.error);
    }
    var files := WalkFiles(fs, readDir, dir.value, [], if limit <= 0 then DEFAULT_LIMIT else limit);
    r := Ok(ShownAll(reader, fs, base, files));
  }

  /** The reply holds the first entries of the flattening, as many as the limit lets in. */
  lemma ListedIsPrefix(reader: Reader, fs: Fs, readDir: ReadDir, localId: string, space: string, device: string,
                       path: string, limit: int)
    requires ResolvePath(localId, space, device, path).Ok?
    ensures var all := Flatten(fs, readDir, ResolvePath(localId, space, device, path).value);
            var most := if limit <= 0 then DEFAULT_LIMIT else limit;
            var r := Listed(reader, fs, readDir, localId, space, device, path, limit);
            && r.Ok? && |r.value| == (if |all| < most then |all| else most)
            && r.value == ShownAll(reader, fs, Named([if device == "" then localId else device, space]),
                                   all)[..|r.value|]
  {
    hide Flatten, Named, ResolvePath, Shown;
    FirstOf(Flatten(fs, readDir, ResolvePath(localId, space, device, path).value),
            if limit <= 0 then DEFAULT_LIMIT else limit);
    hide Filled;
  }

  // ---------- nothing missed, nothing invented ----------

  /** Names as a file system has them. */
  ghost predicate PosixNames(fs: Fs) {
    forall p <- fs, i | 0 <= i < |p| :: p[i] != "" && '/' !in p[i]
  }

  /** A committed file of a space, below a directory of it. */
  ghost predicate OfficialFile(fs: Fs, base: Path, rel: seq<string>, f: seq<string>) {
    Clean(f) && rel < f && base + f in fs && fs[base + f] != Dir
  }

  /** Without a limit, every committed file below the directory has its entry, under its own path
      and with its own size and hash; no entry is a staging file; and no path is listed twice. */
  lemma ListingComplete(reader: Reader, fs: Fs, readDir: ReadDir, device: string, space: string, rel: seq<string>)
    requires IsTree(fs) && Enumerates(fs, readDir) && PosixNames(fs)
    requires IsValidDeviceId(device) && IsValidSpace(space)
    requires forall i :: 0 <= i < |rel| ==> CleanSeg(rel[i])
    ensures var base := [device, space];
            var all := Flatten(fs, readDir, base + rel);
            && (forall i | 0 <= i < |all| :: all[i] in fs && base < all[i] && !Staged(all[i]) && !fs[all[i]].Dir?)
            && (forall f | OfficialFile(fs, base, rel, f) ::
                  exists i :: 0 <= i < |all| && Shown(reader, fs, base, all[i]).path == Join(f) && all[i] == base + f)
            && (forall i, j | 0 <= i < j < |all| ::
                  Shown(reader, fs, base, all[i]).path != Shown(reader, fs, base, all[j]).path)
  {
    hide Flatten, Visible, IsTree, Enumerates, Distinct, PosixNames;
    var base := [device, space];
    var all := Flatten(fs, readDir, base + rel);
    forall i | 0 <= i < |all| ensures all[i] in fs && base < all[i] && !Staged(all[i]) && !fs[all[i]].Dir? {
      FlattenHolds(fs, readDir, base + rel, all[i]);
      VisibleNotStaged(fs, base, rel, all[i]);
    }
    forall f | OfficialFile(fs, base, rel, f)
      ensures exists i :: 0 <= i < |all| && Shown(reader, fs, base, all[i]).path == Join(f) && all[i] == base + f
    {
      OfficialVisible(fs, base, rel, f);
      FlattenHolds(fs, readDir, base + rel, base + f);
      assert (base + f)[|base|..] == f;
    }
    FlattenDistinct(fs, readDir, base + rel);
    forall i, j | 0 <= i < j < |all|
      ensures Shown(reader, fs, base, all[i]).path != Shown(reader, fs, base, all[j]).path
    {
      DistinctAt(all, i, j);
      PathTextDiffers(fs, base, all[i], all[j]);
    }
  }

  lemma DistinctAt(s: seq<Path>, i: nat, j: nat)
    requires Distinct(s) && i < j < |s|
    ensures s[i] != s[j]
  {
  }

  lemma VisibleNotStaged(fs: Fs, base: Path, rel: seq<string>, p: Path)
    requires |base| == 2 && base[0] != RECYCLE && forall i :: 0 <= i < |rel| ==> CleanSeg(rel[i])
    requires Visible(fs, base + rel, p)
    ensures p in fs && base < p && !Staged(p) && !fs[p].Dir?
  {
    assert p[..2] == (base + rel)[..2];
    if rel == [] {
      assert !DotLed(p[2]);
    } else {
      assert p[2] == rel[0];
    }
  }

  lemma OfficialVisible(fs: Fs, base: Path, rel: seq<string>, f: seq<string>)
    requires OfficialFile(fs, base, rel, f)
    ensures Visible(fs, base + rel, base + f)
  {
    var p := base + f;
    assert p[..|base + rel|] == base + rel;
    forall i | |base + rel| <= i < |p| ensures !DotLed(p[i]) {
      assert p[i] == f[i - |base|];
    }
  }

  /** Different files of a space have different texts. */
  lemma PathTextDiffers(fs: Fs, base: Path, p: Path, q: Path)
    requires PosixNames(fs) && p in fs && q in fs && base < p && base < q && p != q
    ensures Join(p[|base|..]) != Join(q[|base|..])
  {
    SplitJoin(p[|base|..]);
    SplitJoin(q[|base|..]);
    assert p == base + p[|base|..] && q == base + q[|base|..];
  }
}
