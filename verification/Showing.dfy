/** What stats, recycle.list and recycle.empty answer. */
module Showing {
  import opened Wrappers
  import opened Paths
  import opened Suffix
  import opened FileSystem
  import opened Layout
  import Recycle
  import opened Maintenance
  import opened Listing
  import opened DirSize
  import opened StoreStats
  import opened BinList
  import opened Host
  import opened Requests
  import P = Protocol

  /** The bytes a node takes on disk. */
  function Bulk(site: Site): Node -> nat {
    (file: Node) =>
      match file
      case Dir => 0
      case Blob(data) => |data|
      case Meta(m) => |site.reader.text(m)|
  }

  lemma BulkIs(site: Site)
    ensures Weighs(FileSize(site)) && forall n :: FileSize(site)(n) == Bulk(site)(n)
  {
  }

  /** Sums of sizes that agree are equal. */
  lemma {:induction false} SameTotal(fs: Fs, s: set<Path>, a: Node -> nat, b: Node -> nat)
    requires s <= fs.Keys && forall n :: a(n) == b(n)
    ensures Total(fs, s, a) == Total(fs, s, b)
  {
    if s != {} {
      var p :| p in s && Total(fs, s, a) == a(fs[p]) + Total(fs, s - {p}, a);
      TotalRemove(fs, s, b, p);
      SameTotal(fs, s - {p}, a, b);
    }
  }

  /** The files below a directory. */
  ghost function FilesBelow(fs: Fs, dir: Path): (files: set<Path>)
    ensures files <= fs.Keys
  {
    set q <- fs | dir < q && fs[q] != Dir
  }

  lemma BelowBulk(site: Site, fs: Fs, dir: Path)
    requires IsTree(fs)
    ensures SizeBelow(fs, dir, FileSize(site)) == Total(fs, FilesBelow(fs, dir), Bulk(site))
  {
    hide IsTree, Total, SizeBelow, Reached;
    BulkIs(site);
    MeasureIsSizeBelow(fs, dir, FileSize(site));
    assert Counted(fs, dir, dir, false) == FilesBelow(fs, dir);
    SameTotal(fs, FilesBelow(fs, dir), FileSize(site), Bulk(site));
  }

  // ---------- recycle.empty ----------

  /** recycle.empty, by the local user: the bin is an empty directory, nothing else has changed, and the answer is the
      bytes of what was below it. */
  lemma EmptyLaw(site: Site, s: State, f: P.Frame, caller: string, inp: Inputs)
    requires f.op == P.RecycleEmpty && IsTree(s.store.fs)
    ensures var (after, r) := Handle(site, s, f, caller, P.Trust.Owner, true, inp);
            var was, now := s.store.fs, after.store.fs;
            && after == s.(store := s.store.(fs := now))
            && r == Ok(Emptied(Total(was, FilesBelow(was, [".recycle"]), Bulk(site))))
            && [".recycle"] in now && (forall q <- now :: !([".recycle"] < q))
            && (forall q: Path | !([".recycle"] <= q) :: (q in now <==> q in was) && (q in was ==> now[q] == was[q]))
  {
    hide IsTree, TurnedAway, Total, EmptyBin, SizeBelow, FilesBelow, Bulk, FileSize;
    UserLetIn(site, s, f, caller, true, inp);
    BulkIs(site);
    EmptyBinLaw(s.store.fs, FileSize(site));
    BelowBulk(site, s.store.fs, [RECYCLE]);
    BinStands(s.store.fs);
    forall q: Path ensures [".recycle"] <= q <==> InRecycle(q) { BinPath(q); }
    hide Handle;
  }

  lemma BinStands(fs: Fs)
    ensures [RECYCLE] in EmptyBin(fs)
  {
  }

  // ---------- stats ----------

  /** What counts for a space: every file below it with no dot-led directory on the way but directly in the space. */
  ghost function SpaceFiles(fs: Fs, space: Path): (files: set<Path>)
    ensures files <= fs.Keys
  {
    set q <- fs | space < q && fs[q] != Dir && forall i :: |space| < i < |q| - 1 ==> q[i] == "" || q[i][0] != '.'
  }

  /** The staging files of all devices. */
  ghost function StagingFiles(fs: Fs): (files: set<Path>)
    ensures files <= fs.Keys
  {
    set q <- fs | |q| > 3 && fs[q] != Dir && HexId(q[0]) && SpaceName(q[1]) && q[2] == ".staging" && Root(fs, q[0])
  }

  predicate Root(fs: Fs, name: string) {
    [name] in fs && fs[[name]] == Dir
  }

  /** stats: one figure for each space of each device directory, the bytes of all staging directories and those of
      the bin, the master pointer and the cursors; nothing changes. */
  lemma StatsLaw(site: Site, s: State, f: P.Frame, caller: string, loopback: bool, inp: Inputs)
    requires f.op == P.Stats && IsTree(s.store.fs)
    ensures var (after, r) := Handle(site, s, f, caller, P.Trust.Owner, loopback, inp);
            var fs, names := s.store.fs, ["artifacts", "files", "attachments", "backups"];
            && after == s && r.Ok? && r.value.Measured?
            && r.value.master == s.pointer && r.value.positions == s.cursors
            && r.value.figures.staging == Total(fs, StagingFiles(fs), Bulk(site))
            && r.value.figures.bin == Total(fs, FilesBelow(fs, [".recycle"]), Bulk(site))
            && (forall d :: d in r.value.figures.devices <==> HexId(d) && Root(fs, d))
            && (forall d <- r.value.figures.devices ::
                  |r.value.figures.devices[d]| == 4
                  && forall i :: 0 <= i < 4 ==>
                       r.value.figures.devices[d][i] == Total(fs, SpaceFiles(fs, [d, names[i]]), Bulk(site)))
  {
    hide IsTree, TurnedAway, Total, FilesBelow, Bulk, FileSize, StagingFiles, SpaceFiles, HexId, SizeBelow, Root,
      Reported;
    OthersLetIn(site, s, f, caller, loopback, inp);
    var fs := s.store.fs;
    FiguresAre(site, fs);
    hide Handle;
  }

  lemma FiguresAre(site: Site, fs: Fs)
    requires IsTree(fs)
    ensures var names := ["artifacts", "files", "attachments", "backups"];
            var figures := Reported(fs, FileSize(site));
            && figures.staging == Total(fs, StagingFiles(fs), Bulk(site))
            && figures.bin == Total(fs, FilesBelow(fs, [".recycle"]), Bulk(site))
            && (forall d :: d in figures.devices <==> HexId(d) && Root(fs, d))
            && (forall d <- figures.devices ::
                  |figures.devices[d]| == 4
                  && forall i :: 0 <= i < 4 ==>
                       figures.devices[d][i] == Total(fs, SpaceFiles(fs, [d, names[i]]), Bulk(site)))
  {
    hide IsTree, Total, FilesBelow, Bulk, FileSize, StagingFiles, SpaceFiles, HexId, SizeBelow, StagingOf, Devices,
      SpaceBytes, Root;
    BulkIs(site);
    BelowBulk(site, fs, [".recycle"]);
    DevicesAre(fs);
    StagingIs(fs);
    SameTotal(fs, StagingFiles(fs), FileSize(site), Bulk(site));
    forall d, i | d in Devices(fs) && 0 <= i < 4
      ensures SpaceBytes(fs, FileSize(site), d, SPACES[i]) == Total(fs, SpaceFiles(fs, [d, SPACES[i]]), Bulk(site))
    {
      SpaceIs(site, fs, d, SPACES[i]);
    }
  }

  lemma DevicesAre(fs: Fs)
    ensures forall d :: d in Devices(fs) <==> HexId(d) && Root(fs, d)
  {
    hide HexId, IsValidDeviceId;
    forall d ensures d in Devices(fs) <==> HexId(d) && Root(fs, d) {
      HexIdIs(d);
      assert |[d]| == 1 && [d][0] == d;
      if d in Devices(fs) {
        var p :| p in fs && |p| == 1 && IsDevice(fs, p[0]) && p[0] == d;
        assert p == [d];
      }
    }
  }

  lemma StagingIs(fs: Fs)
    ensures StagingOf(fs, Devices(fs)) == StagingFiles(fs)
  {
    hide HexId, IsValidDeviceId, Root, Devices;
    DevicesAre(fs);
    forall q <- fs ensures q in StagingOf(fs, Devices(fs)) <==> q in StagingFiles(fs) {
      if |q| > 3 { DeviceIs(fs, q[0]); SpaceIn(q[1]); }
    }
  }

  lemma DeviceIs(fs: Fs, d: string)
    ensures IsDevice(fs, d) <==> HexId(d) && Root(fs, d)
  {
    hide HexId, IsValidDeviceId;
    HexIdIs(d);
  }

  lemma SpaceIn(space: string)
    ensures SpaceName(space) <==> space in SPACES
  {
    assert SPACES[0] == "artifacts" && SPACES[1] == "files" && SPACES[2] == "attachments" && SPACES[3] == "backups";
  }

  lemma SpaceIs(site: Site, fs: Fs, device: string, space: string)
    ensures SpaceBytes(fs, FileSize(site), device, space) == Total(fs, SpaceFiles(fs, [device, space]), Bulk(site))
  {
    hide Total, FileSize, Bulk;
    BulkIs(site);
    var base := [device, space];
    assert Counted(fs, base, base, true) == SpaceFiles(fs, base);
    SameTotal(fs, SpaceFiles(fs, base), FileSize(site), Bulk(site));
  }

  // ---------- recycle.list ----------

  /** What the list says of a recycled file: its path, the device, space and path it came from - the suffix taken
      off its name -, its size, and when it was deleted: the day it lies under, or its own time if that is no day. */
  ghost predicate Tells(site: Site, fs: Fs, dates: Dates, item: Item, p: Path)
    requires |p| >= 5 && p in fs
  {
    var n := |p| - 1;
    && item.path == Join(p) && item.device == p[2] && item.space == p[3]
    && item.origin == Join(p[4..n] + [Strip(p[n])])
    && item.size == Bulk(site)(fs[p])
    && item.deletedAt == match dates.dayMs(p[1]) case Some(day) => day case None => dates.mtime(p)
  }

  /** A file of the bin below a date, a device and a space, with no dot-led directory on the way. */
  ghost predicate Recycled(fs: Fs, p: Path) {
    && p in fs && |p| >= 5 && p[0] == ".recycle" && fs[p] != Dir
    && forall i :: 1 <= i < |p| - 1 ==> p[i] == "" || p[i][0] != '.'
  }

  lemma ItemTells(site: Site, fs: Fs, dates: Dates, p: Path)
    requires |p| >= 5 && p in fs
    ensures Tells(site, fs, dates, ItemOf(site.reader, fs, dates, p), p)
  {
    hide Join, Strip;
    var n := |p| - 1;
    assert p[4..][..n - 4] == p[4..n];
    assert Recycle.OriginParts(p) == p[4..n] + [Strip(p[n])];
  }

  lemma RecycledIs(fs: Fs, p: Path)
    ensures Recycled(fs, p) <==> Listable(fs, [RECYCLE], p)
  {
    if |p| >= 1 { assert p[0] == RECYCLE ==> p[..1] == [RECYCLE]; }
  }

  /** The list shows these files, one item for each, in some order. */
  ghost predicate ListsBin(site: Site, fs: Fs, dates: Dates, items: seq<Item>, files: seq<Path>) {
    && |items| == |files| && (forall p :: p in files <==> Recycled(fs, p))
    && (forall i, j :: 0 <= i < j < |files| ==> files[i] != files[j])
    && (forall p <- files :: |p| >= 5 && p in fs && exists item <- items :: Tells(site, fs, dates, item, p))
    && (forall item <- items :: exists p <- files :: |p| >= 5 && p in fs && Tells(site, fs, dates, item, p))
  }

  /** recycle.list: every recycled file once and nothing else, newest first; nothing changes. */
  lemma BinLaw(site: Site, s: State, f: P.Frame, caller: string, loopback: bool, inp: Inputs)
    requires f.op == P.RecycleList && IsTree(s.store.fs) && Enumerates(s.store.fs, inp.readDir)
    ensures var (after, r) := Handle(site, s, f, caller, P.Trust.Owner, loopback, inp);
            && after == s && r.Ok? && r.value.Recyclables?
            && (exists files :: ListsBin(site, s.store.fs, inp.dates, r.value.items, files))
            && (forall i, j :: 0 <= i < j < |r.value.items| ==>
                  r.value.items[i].deletedAt >= r.value.items[j].deletedAt)
  {
    hide IsTree, TurnedAway, Enumerates, BinListed, ListsBin;
    OthersLetIn(site, s, f, caller, loopback, inp);
    BinShown(site, s.store.fs, inp.readDir, inp.dates);
    hide Handle;
  }

  lemma BinShown(site: Site, fs: Fs, readDir: ReadDir, dates: Dates)
    requires IsTree(fs) && Enumerates(fs, readDir)
    ensures Descending(BinListed(site.reader, fs, readDir, dates))
    ensures exists files :: ListsBin(site, fs, dates, BinListed(site.reader, fs, readDir, dates), files)
  {
    hide IsTree, Enumerates, BinListed, Listable, Recycled, Descending, BinFiles, ItemsOf, ListsBin, Tells;
    var files := BinFiles(fs, readDir, [RECYCLE]);
    BinListComplete(site.reader, fs, readDir, dates);
    forall p ensures p in files <==> Recycled(fs, p) { RecycledIs(fs, p); }
    DistinctEach(files);
    Permuted(site, fs, dates, files, BinListed(site.reader, fs, readDir, dates));
  }

  lemma DistinctEach(files: seq<Path>)
    requires Distinct(files)
    ensures forall i, j :: 0 <= i < j < |files| ==> files[i] != files[j]
  {
  }

  lemma Permuted(site: Site, fs: Fs, dates: Dates, files: seq<Path>, items: seq<Item>)
    requires forall p <- files :: |p| >= 5 && p in fs
    requires multiset(items) == multiset(ItemsOf(site.reader, fs, dates, files))
    requires (forall p :: p in files <==> Recycled(fs, p)) && forall i, j ::
               0 <= i < j < |files| ==> files[i] != files[j]
    ensures ListsBin(site, fs, dates, items, files)
  {
    hide Recycled, Tells, ItemsOf, ItemOf;
    var all := ItemsOf(site.reader, fs, dates, files);
    assert |items| == |multiset(items)| == |multiset(all)| == |all|;
    forall p <- files ensures exists item <- items :: Tells(site, fs, dates, item, p) {
      var i :| 0 <= i < |files| && files[i] == p;
      ItemTells(site, fs, dates, p);
      assert all[i] in multiset(all) && all[i] in items;
    }
    forall item <- items ensures exists p <- files :: |p| >= 5 && p in fs && Tells(site, fs, dates, item, p) {
      assert item in multiset(items) && item in all;
      var i :| 0 <= i < |all| && all[i] == item;
      ItemTells(site, fs, dates, files[i]);
      assert files[i] in files;
    }
  }
}
