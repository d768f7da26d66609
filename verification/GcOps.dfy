/** The collectors, purge and wipe, as the store carries them out: nested loops over directories
    read in any order, with running counts. */
module GcOps {
  import opened FileSystem
  import opened Layout
  import opened Staging
  import opened StagingLaws
  import opened Maintenance
  import opened Listing
  import opened Locals

  /** Reading directories as they are at the time. */
  type Lister = Fs -> ReadDir

  ghost predicate Faithful(ls: Lister) {
    forall fs | IsTree(fs) :: Enumerates(fs, ls(fs))
  }

  // ---------- sweeping staged uploads ----------

  predicate EndsWith(s: string, tail: string) {
    |s| >= |tail| && s[|s| - |tail|..] == tail
  }

  /** staging_session_id */
  function SessionId(name: string): string {
    if EndsWith(name, ".json") || EndsWith(name, ".part") then name[..|name| - 5] else ""
  }

  /** The meta files of uploads begun before the deadline. */
  ghost function Due(fs: Fs, deadline: int): set<Path> {
    set m <- fs | fs[m].Meta? && fs[m].meta.createdMs < deadline
  }

  function IdOf(meta: Path): string {
    if |meta| == 4 then SessionId(meta[3]) else ""
  }

  function PartOf(meta: Path): Path {
    if |meta| == 4 then PartPath(meta[0], meta[1], IdOf(meta)) else meta
  }

  /** The store without some uploads, each named by its meta file. */
  ghost function Sweep(s: Store, gone: set<Path>): Store {
    Store(map p | p in s.fs && p !in gone && !(exists m <- gone :: p == PartOf(m)) :: s.fs[p],
          map id | id in s.uploads && !(exists m <- gone :: id == IdOf(m)) :: s.uploads[id])
  }

  /** Every meta file has a creation time that staging_created takes as such. */
  ghost predicate Dated(fs: Fs) {
    forall m <- fs | fs[m].Meta? :: fs[m].meta.createdMs > 0
  }

  lemma SessionName(name: string, file: Node)
    requires IsSession(name, file) && file.Meta?
    ensures ValidUploadId(SessionId(name)) && name == SessionId(name) + ".json"
  {
    hide ValidUploadId;
    var id :| ValidUploadId(id) && ((name == id + ".part" && file.Blob?) || (name == id + ".json" && file.Meta?));
    SessionIdOf(id);
  }

  /** Meta files lie where write.begin puts them. */
  lemma MetaIsSession(fs: Fs, m: Path)
    requires StagingShape(fs) && m in fs && fs[m].Meta?
    ensures |m| == 4 && m[2] == STAGING && IsValidDeviceId(m[0]) && IsValidSpace(m[1])
    ensures ValidUploadId(IdOf(m)) && m == MetaPath(m[0], m[1], IdOf(m))
  {
    hide IsValidDeviceId, ValidUploadId, IsSession, SessionId, GoodMeta;
    assert Staged(m);
    assert IsSession(m[3], fs[m]);
    SessionName(m[3], fs[m]);
    assert m == [m[0], m[1], m[2], m[3]];
  }

  lemma SessionIdOf(id: string)
    ensures SessionId(id + ".json") == id && SessionId(id + ".part") == id
  {
    var json, part := id + ".json", id + ".part";
    assert json[|json| - 5..] == ".json" && part[|part| - 5..] == ".part";
    assert json[..|json| - 5] == id && part[..|part| - 5] == id;
  }

  lemma IdOfMeta(d: string, s: string, id: string)
    ensures IdOf(MetaPath(d, s, id)) == id && PartOf(MetaPath(d, s, id)) == PartPath(d, s, id)
  {
    SessionIdOf(id);
  }

  lemma SweepNone(s: Store)
    ensures Sweep(s, {}) == s
  {
  }

  lemma SweepTwice(s: Store, a: set<Path>, b: set<Path>)
    ensures Sweep(Sweep(s, a), b) == Sweep(s, a + b)
  {
    hide PartOf, IdOf;
  }

  ghost function SweepFiles(s: Store, m: Path, part: Path, id: string): Store {
    Store(map p | p in s.fs && p != m && p != part :: s.fs[p], Without(s.uploads, id))
  }

  lemma SweepSingle(s: Store, m: Path)
    ensures Sweep(s, {m}) == SweepFiles(s, m, PartOf(m), IdOf(m))
  {
    hide PartOf, IdOf;
    assert m in {m};
  }

  /** Removing the two files of one upload and its table entry is a sweep. */
  lemma SweepOne(s: Store, d: string, sp: string, id: string)
    requires IsValidDeviceId(d) && StagingShape(s.fs)
    ensures Store(RemoveFile(RemoveFile(s.fs, PartPath(d, sp, id)), MetaPath(d, sp, id)), Without(s.uploads, id))
            == Sweep(s, {MetaPath(d, sp, id)})
  {
    SessionNode(s.fs, d, sp, id);
    IdOfMeta(d, sp, id);
    SweepSingle(s, MetaPath(d, sp, id));
    RemoveBoth(s, PartPath(d, sp, id), MetaPath(d, sp, id), id);
    hide IdOf, PartOf, PartPath, MetaPath, StagingShape, Sweep, SweepFiles, RemoveFile, Without;
  }

  lemma RemoveBoth(s: Store, part: Path, m: Path, id: string)
    requires part in s.fs ==> s.fs[part].Blob?
    requires m in s.fs ==> s.fs[m].Meta?
    ensures Store(RemoveFile(RemoveFile(s.fs, part), m), Without(s.uploads, id)) == SweepFiles(s, m, part, id)
  {
    hide Without;
    var one := RemoveFile(s.fs, part);
    assert m != part ==> (m in one <==> m in s.fs);
  }

  /** A sweep of whole uploads keeps what holds of the disk. */
  lemma SweepKeeps(s: Store, gone: set<Path>)
    requires DiskInv(s.fs) && Dated(s.fs) && forall m <- gone :: m in s.fs && s.fs[m].Meta?
    ensures DiskInv(Sweep(s, gone).fs) && Dated(Sweep(s, gone).fs)
  {
    var g := Sweep(s, gone).fs;
    forall m <- gone ensures PartOf(m) in s.fs ==> s.fs[PartOf(m)].Blob? {
      MetaIsSession(s.fs, m);
      SessionNode(s.fs, m[0], m[1], IdOf(m));
    }
    assert IsTree(g) by {
      hide PartOf, StagingShape, PartHasMeta, Dated;
    }
    assert StagingShape(g) && Dated(g) by {
      hide PartOf, IsTree, PartHasMeta, IsSession, GoodMeta;
    }
    forall d, sp, id | IsValidDeviceId(d) && PartPath(d, sp, id) in g
      ensures MetaPath(d, sp, id) in g && g[MetaPath(d, sp, id)].Meta?
    {
      SweptPair(s, gone, d, sp, id);
    }
  }

  lemma SweptPair(s: Store, gone: set<Path>, d: string, sp: string, id: string)
    requires DiskInv(s.fs) && (forall m <- gone :: m in s.fs && s.fs[m].Meta?) && IsValidDeviceId(d)
    requires PartPath(d, sp, id) in Sweep(s, gone).fs
    ensures MetaPath(d, sp, id) in Sweep(s, gone).fs && Sweep(s, gone).fs[MetaPath(d, sp, id)].Meta?
  {
    var m := MetaPath(d, sp, id);
    IdOfMeta(d, sp, id);
    assert PartPath(d, sp, id) in s.fs;
    forall n <- gone ensures m != PartOf(n) {
      MetaIsSession(s.fs, n);
      PathsApart(n[0], n[1], IdOf(n), d, sp, id);
    }
  }

  // ---------- one space ----------

  ghost function DueAt(fs: Fs, d: string, sp: string, deadline: int): set<Path> {
    set m <- Due(fs, deadline) | |m| == 4 && m[0] == d && m[1] == sp
  }

  ghost function DueSeen(fs: Fs, d: string, sp: string, deadline: int, seen: set<string>): set<Path> {
    set m <- DueAt(fs, d, sp, deadline) | IdOf(m) in seen
  }

  /** staging_created: the meta file's time, else the age of the file at hand. */
  function Created(fs: Fs, meta: Path, mtime: int): int {
    if meta in fs && fs[meta].Meta? && fs[meta].meta.createdMs > 0 then fs[meta].meta.createdMs else mtime
  }

  /** The upload a directory entry belongs to is dated by its meta file, swept uploads aside. */
  lemma SessionDated(s: Store, gone: set<Path>, d: string, sp: string, name: string, mtime: int, deadline: int)
    requires DiskInv(s.fs) && Dated(s.fs) && IsValidDeviceId(d)
    requires forall m <- gone :: m in s.fs && s.fs[m].Meta? && IdOf(m) != SessionId(name)
    requires [d, sp, STAGING, name] in s.fs
    ensures SessionId(name) != ""
    ensures var m := MetaPath(d, sp, SessionId(name));
            m in s.fs && s.fs[m].Meta? && Created(Sweep(s, gone).fs, m, mtime) == s.fs[m].meta.createdMs
  {
    var p := [d, sp, STAGING, name];
    assert d[0] != '.' && Staged(p);
    var id :| ValidUploadId(id) && ((name == id + ".part" && s.fs[p].Blob?) || (name == id + ".json" && s.fs[p].Meta?));
    SessionIdOf(id);
    IdOfMeta(d, sp, id);
    var m := MetaPath(d, sp, id);
    assert p == PartPath(d, sp, id) || p == m;
    forall n <- gone ensures m != PartOf(n) {
      MetaIsSession(s.fs, n);
      PathsApart(n[0], n[1], IdOf(n), d, sp, id);
    }
  }

  lemma DueSeenGrows(fs: Fs, d: string, sp: string, deadline: int, seen: set<string>, id: string)
    requires StagingShape(fs) && IsValidDeviceId(d) && id !in seen && MetaPath(d, sp, id) in fs
             && fs[MetaPath(d, sp, id)].Meta?
    ensures var m := MetaPath(d, sp, id);
            && m !in DueSeen(fs, d, sp, deadline, seen)
            && DueSeen(fs, d, sp, deadline, seen + {id})
               == DueSeen(fs, d, sp, deadline, seen) + (if fs[m].meta.createdMs < deadline then {m} else {})
  {
    var m := MetaPath(d, sp, id);
    IdOfMeta(d, sp, id);
    forall n <- DueAt(fs, d, sp, deadline) | IdOf(n) == id ensures n == m {
      MetaIsSession(fs, n);
    }
    hide StagingShape, IdOf;
  }

  lemma AllSeen(fs: Fs, ls: ReadDir, d: string, sp: string, deadline: int, seen: set<string>)
    requires StagingShape(fs) && Enumerates(fs, ls)
    requires forall name <- ls([d, sp, STAGING]) :: SessionId(name) == "" || SessionId(name) in seen
    ensures DueSeen(fs, d, sp, deadline, seen) == DueAt(fs, d, sp, deadline)
  {
    forall m <- DueAt(fs, d, sp, deadline) ensures IdOf(m) in seen {
      MetaIsSession(fs, m);
      assert m == [d, sp, STAGING] + [m[3]];
      assert m[3] in ls([d, sp, STAGING]);
    }
  }

  lemma NoStaging(fs: Fs, d: string, sp: string, deadline: int)
    requires DiskInv(fs) && !([d, sp, STAGING] in fs && fs[[d, sp, STAGING]] == Dir)
    ensures DueAt(fs, d, sp, deadline) == {}
  {
    forall m | m in DueAt(fs, d, sp, deadline) ensures false {
      MetaIsSession(fs, m);
      PrefixIsDir(fs, [d, sp, STAGING], m);
    }
  }

  /** The inner loop: one staging directory, each upload looked at once however its files are listed. */
  method CollectSpace(local: Local, ls: Lister, d: string, sp: string, deadline: int, mtime: Path -> int)
    returns (removed: nat)
    requires DiskInv(local.fs) && Dated(local.fs) && Faithful(ls) && IsValidDeviceId(d)
    modifies local
    ensures local.Files() == Sweep(old(local.Files()), DueAt(old(local.fs), d, sp, deadline))
    ensures removed == |DueAt(old(local.fs), d, sp, deadline)|
  {
    hide StagingShape, PartHasMeta, IsTree, Sweep, DueAt, DueSeen, SessionId, IdOf, Dated, Created, RemoveFile,
      Without, MetaPath, PartPath;
    ghost var s := local.Files();
    removed := 0;
    SweepNone(s);
    var staging := [d, sp, STAGING];
    if !(staging in local.fs && local.fs[staging] == Dir) {
      NoStaging(s.fs, d, sp, deadline);
      return;
    }
    var names := ls(local.fs)(staging);
    ListedHere(s.fs, ls(s.fs), d, sp);
    var seen: set<string> := {};
    SeenNone(s.fs, d, sp, deadline);
    var i := 0;
    while i < |names|
      invariant 0 <= i <= |names|
      invariant forall k :: 0 <= k < i ==> SessionId(names[k]) == "" || SessionId(names[k]) in seen
      invariant local.Files() == Sweep(s, DueSeen(s.fs, d, sp, deadline, seen))
      invariant removed == |DueSeen(s.fs, d, sp, deadline, seen)|
    {
      var id := SessionId(names[i]);
      if id != "" && id !in seen {
        ghost var gone := DueSeen(s.fs, d, sp, deadline, seen);
        GoneAreMetas(s.fs, d, sp, deadline, seen);
        SessionDated(s, gone, d, sp, names[i], mtime(staging + [names[i]]), deadline);
        DueSeenGrows(s.fs, d, sp, deadline, seen, id);
        var created := Created(local.fs, MetaPath(d, sp, id), mtime(staging + [names[i]]));
        if created < deadline {
          SweepKeeps(s, gone);
          SweepOne(local.Files(), d, sp, id);
          SweepTwice(s, gone, {MetaPath(d, sp, id)});
          local.fs := RemoveFile(local.fs, PartPath(d, sp, id));
          local.fs := RemoveFile(local.fs, MetaPath(d, sp, id));
          removed := removed + 1;
          local.uploads := Without(local.uploads, id);
        }
        seen := seen + {id};
      }
      i := i + 1;
    }
    AllSeen(s.fs, ls(s.fs), d, sp, deadline, seen);
  }

  lemma ListedHere(fs: Fs, readDir: ReadDir, d: string, sp: string)
    requires Enumerates(fs, readDir)
    ensures forall name <- readDir([d, sp, STAGING]) :: [d, sp, STAGING, name] in fs
  {
    forall name <- readDir([d, sp, STAGING]) ensures [d, sp, STAGING, name] in fs {
      assert [d, sp, STAGING] + [name] == [d, sp, STAGING, name];
    }
  }

  lemma SeenNone(fs: Fs, d: string, sp: string, deadline: int)
    ensures DueSeen(fs, d, sp, deadline, {}) == {}
  {
  }

  lemma GoneAreMetas(fs: Fs, d: string, sp: string, deadline: int, seen: set<string>)
    ensures forall m <- DueSeen(fs, d, sp, deadline, seen) :: m in fs && fs[m].Meta? && IdOf(m) in seen
  {
  }

  // ---------- all spaces of all devices ----------

  /** A sweep takes nothing from what remains due. */
  lemma DueAfter(s: Store, gone: set<Path>, deadline: int)
    requires DiskInv(s.fs) && forall m <- gone :: m in s.fs && s.fs[m].Meta?
    ensures Due(Sweep(s, gone).fs, deadline) == Due(s.fs, deadline) - gone
  {
    forall m | m in s.fs && s.fs[m].Meta? ensures !(exists n <- gone :: m == PartOf(n)) {
      forall n <- gone ensures m != PartOf(n) {
        MetaIsSession(s.fs, n);
        SessionNode(s.fs, n[0], n[1], IdOf(n));
      }
    }
    hide DiskInv, PartOf, IdOf;
  }

  ghost function DueOf(fs: Fs, d: string, spaces: seq<string>, deadline: int): set<Path> {
    set m <- Due(fs, deadline) | |m| == 4 && m[0] == d && m[1] in spaces
  }

  ghost function DueIn(fs: Fs, devices: seq<string>, deadline: int): set<Path> {
    set m <- Due(fs, deadline) | |m| == 4 && m[0] in devices
  }

  lemma DueOfNext(s: Store, d: string, spaces: seq<string>, sp: string, deadline: int)
    requires DiskInv(s.fs) && Dated(s.fs) && sp !in spaces
    ensures var gone := DueOf(s.fs, d, spaces, deadline);
            var g := Sweep(s, gone);
            && DiskInv(g.fs) && Dated(g.fs)
            && DueAt(g.fs, d, sp, deadline) == DueAt(s.fs, d, sp, deadline)
            && DueAt(s.fs, d, sp, deadline) !! gone
            && gone + DueAt(s.fs, d, sp, deadline) == DueOf(s.fs, d, spaces + [sp], deadline)
  {
    hide DiskInv, Dated, Sweep;
    var gone := DueOf(s.fs, d, spaces, deadline);
    SweepKeeps(s, gone);
    DueAfter(s, gone, deadline);
    hide Due;
  }

  lemma DueOfAll(fs: Fs, d: string, deadline: int)
    requires DiskInv(fs)
    ensures DueOf(fs, d, SPACES[..0], deadline) == {}
    ensures DueOf(fs, d, SPACES[..|SPACES|], deadline) == DueIn(fs, [d], deadline)
  {
    forall m <- Due(fs, deadline) ensures |m| == 4 && m[1] in SPACES[..|SPACES|] {
      MetaIsSession(fs, m);
      assert SPACES[0] == "artifacts" && SPACES[1] == "files" && SPACES[2] == "attachments" && SPACES[3] == "backups";
    }
    hide DiskInv, Due;
  }

  method CollectDevice(local: Local, ls: Lister, d: string, deadline: int, mtime: Path -> int) returns (removed: nat)
    requires DiskInv(local.fs) && Dated(local.fs) && Faithful(ls) && IsValidDeviceId(d)
    modifies local
    ensures local.Files() == Sweep(old(local.Files()), DueIn(old(local.fs), [d], deadline))
    ensures removed == |DueIn(old(local.fs), [d], deadline)|
  {
    hide DiskInv, Dated, Faithful, Sweep, DueOf, DueIn, DueAt;
    ghost var s := local.Files();
    SweepNone(s);
    DueOfAll(s.fs, d, deadline);
    removed := 0;
    var i := 0;
    while i < |SPACES|
      invariant 0 <= i <= |SPACES|
      invariant local.Files() == Sweep(s, DueOf(s.fs, d, SPACES[..i], deadline))
      invariant removed == |DueOf(s.fs, d, SPACES[..i], deadline)|
    {
      assert SPACES[..i + 1] == SPACES[..i] + [SPACES[i]];
      SpacesApart(i);
      DueOfNext(s, d, SPACES[..i], SPACES[i], deadline);
      SweepTwice(s, DueOf(s.fs, d, SPACES[..i], deadline), DueAt(s.fs, d, SPACES[i], deadline));
      var n := CollectSpace(local, ls, d, SPACES[i], deadline, mtime);
      removed := removed + n;
      i := i + 1;
    }
  }

  lemma SpacesApart(i: nat)
    requires i < |SPACES|
    ensures SPACES[i] !in SPACES[..i]
  {
    assert SPACES[0] == "artifacts" && SPACES[1] == "files" && SPACES[2] == "attachments" && SPACES[3] == "backups";
    assert SPACES[0][0] != SPACES[1][0] && SPACES[1][0] != SPACES[2][0] && SPACES[0][1] != SPACES[2][1]
           && SPACES[3][0] == 'b';
  }

  lemma DueInNext(s: Store, devices: seq<string>, d: string, deadline: int)
    requires DiskInv(s.fs) && Dated(s.fs) && d !in devices
    ensures var gone := DueIn(s.fs, devices, deadline);
            var g := Sweep(s, gone);
            && DiskInv(g.fs) && Dated(g.fs)
            && DueIn(g.fs, [d], deadline) == DueIn(s.fs, [d], deadline)
            && DueIn(s.fs, [d], deadline) !! gone
            && gone + DueIn(s.fs, [d], deadline) == DueIn(s.fs, devices + [d], deadline)
  {
    hide DiskInv, Dated, Sweep;
    var gone := DueIn(s.fs, devices, deadline);
    SweepKeeps(s, gone);
    DueAfter(s, gone, deadline);
    hide Due;
  }

  lemma DueInNone(fs: Fs, d: string, deadline: int)
    requires DiskInv(fs) && !(IsValidDeviceId(d) && [d] in fs && fs[[d]] == Dir)
    ensures DueIn(fs, [d], deadline) == {}
  {
    forall m | m in DueIn(fs, [d], deadline) ensures false {
      MetaIsSession(fs, m);
      PrefixIsDir(fs, [d], m);
    }
  }

  lemma DueInAll(fs: Fs, readDir: ReadDir, deadline: int)
    requires DiskInv(fs) && Enumerates(fs, readDir)
    ensures DueIn(fs, readDir([])[..0], deadline) == {}
    ensures DueIn(fs, readDir([]), deadline) == Due(fs, deadline)
    ensures forall i :: 0 <= i < |readDir([])| ==> readDir([])[i] !in readDir([])[..i]
  {
    forall m <- Due(fs, deadline) ensures |m| == 4 && m[0] in readDir([]) {
      MetaIsSession(fs, m);
      PrefixIsDir(fs, [m[0]], m);
      assert [] + [m[0]] == [m[0]];
    }
  }

  /** Directories a sweep of uploads cannot touch. */
  lemma SweepKeepsDirs(s: Store, gone: set<Path>, d: string)
    requires DiskInv(s.fs) && forall m <- gone :: m in s.fs && s.fs[m].Meta?
    ensures [d] in Sweep(s, gone).fs <==> [d] in s.fs
    ensures [d] in s.fs ==> Sweep(s, gone).fs[[d]] == s.fs[[d]]
  {
    forall m <- gone ensures |m| == 4 && |PartOf(m)| == 4 {
      MetaIsSession(s.fs, m);
    }
  }

  lemma DueAreMetas(fs: Fs, devices: seq<string>, deadline: int)
    ensures forall m <- DueIn(fs, devices, deadline) :: m in fs && fs[m].Meta?
  {
  }

  /** gc_staging: whatever order the directories are read in, exactly the uploads begun before the
      deadline go, part, meta file and table entry, and each is counted once. */
  method CollectStaging(local: Local, ls: Lister, deadline: int, mtime: Path -> int) returns (removed: nat)
    requires DiskInv(local.fs) && Dated(local.fs) && Faithful(ls)
    modifies local
    ensures GcStagingDone(old(local.Files()), local.Files(), deadline)
    ensures removed == |Due(old(local.fs), deadline)|
  {
    hide DiskInv, Dated, Sweep, DueIn, Due, GcStagingDone, Enumerates;
    ghost var s := local.Files();
    var names := ls(local.fs)([]);
    assert Enumerates(s.fs, ls(s.fs)) by { assert IsTree(s.fs) by { DiskIsTree(s.fs); } }
    DueInAll(s.fs, ls(s.fs), deadline);
    SweepNone(s);
    removed := 0;
    var i := 0;
    while i < |names|
      invariant 0 <= i <= |names|
      invariant local.Files() == Sweep(s, DueIn(s.fs, names[..i], deadline))
      invariant removed == |DueIn(s.fs, names[..i], deadline)|
    {
      var d := names[i];
      ghost var gone := DueIn(s.fs, names[..i], deadline);
      assert names[..i + 1] == names[..i] + [d];
      DueInNext(s, names[..i], d, deadline);
      DueAreMetas(s.fs, names[..i], deadline);
      SweepKeepsDirs(s, gone, d);
      if [d] in local.fs && local.fs[[d]] == Dir && IsValidDeviceId(d) {
        SweepTwice(s, gone, DueIn(s.fs, [d], deadline));
        var n := CollectDevice(local, ls, d, deadline, mtime);
        removed := removed + n;
      } else {
        DueInNone(s.fs, d, deadline);
        assert gone + {} == gone;
      }
      i := i + 1;
    }
    assert names[..i] == names;
    SweepIsCollected(s, deadline);
  }

  lemma DiskIsTree(fs: Fs)
    requires DiskInv(fs)
    ensures IsTree(fs)
  {
  }

  /** Sweeping what is due is what gc_staging is to do. */
  lemma SweepIsCollected(s: Store, deadline: int)
    requires DiskInv(s.fs)
    ensures GcStagingDone(s, Sweep(s, Due(s.fs, deadline)), deadline)
  {
    hide StagingShape, PartHasMeta, IsTree, StaleFile, Stale;
    var due := Due(s.fs, deadline);
    forall p ensures StaleFile(s.fs, p, deadline) <==> p in due || exists m <- due :: p == PartOf(m) {
      StaleIsDue(s.fs, p, deadline);
    }
    forall id <- s.uploads
      ensures (exists d, sp :: Stale(s.fs, d, sp, id, deadline)) <==> exists m <- due :: id == IdOf(m)
    {
      StaleIdIsDue(s.fs, id, deadline);
    }
    hide Due, PartOf, IdOf;
  }

  lemma DueIsStale(fs: Fs, m: Path, deadline: int)
    requires DiskInv(fs) && m in Due(fs, deadline)
    ensures |m| == 4 && Stale(fs, m[0], m[1], IdOf(m), deadline) && m == MetaPath(m[0], m[1], IdOf(m))
  {
    MetaIsSession(fs, m);
  }

  lemma StaleMakesDue(fs: Fs, d: string, sp: string, id: string, deadline: int)
    requires Stale(fs, d, sp, id, deadline)
    ensures var m := MetaPath(d, sp, id); m in Due(fs, deadline) && IdOf(m) == id && PartOf(m) == PartPath(d, sp, id)
  {
    IdOfMeta(d, sp, id);
  }

  lemma StaleIsDue(fs: Fs, p: Path, deadline: int)
    requires DiskInv(fs)
    ensures StaleFile(fs, p, deadline) <==> p in Due(fs, deadline) || exists m <- Due(fs, deadline) :: p == PartOf(m)
  {
    hide DiskInv, Due, IdOf, PartPath, MetaPath, Stale;
    if StaleFile(fs, p, deadline) {
      var d, sp, id :| Stale(fs, d, sp, id, deadline) && (p == PartPath(d, sp, id) || p == MetaPath(d, sp, id));
      StaleMakesDue(fs, d, sp, id, deadline);
    }
    if p in Due(fs, deadline) {
      DueIsStale(fs, p, deadline);
    }
    if m :| m in Due(fs, deadline) && p == PartOf(m) {
      DueIsStale(fs, m, deadline);
    }
  }

  lemma StaleIdIsDue(fs: Fs, id: string, deadline: int)
    requires DiskInv(fs)
    ensures (exists d, sp :: Stale(fs, d, sp, id, deadline)) <==> exists m <- Due(fs, deadline) :: id == IdOf(m)
  {
    hide DiskInv, Due, IdOf, PartOf, Stale;
    if d, sp :| Stale(fs, d, sp, id, deadline) {
      StaleMakesDue(fs, d, sp, id, deadline);
    }
    if m :| m in Due(fs, deadline) && id == IdOf(m) {
      DueIsStale(fs, m, deadline);
    }
  }
}
