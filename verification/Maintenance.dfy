/** Steps that remove things: recycle.empty, the two collectors, purge and wipe. */
module Maintenance {
  import opened Wrappers
  import opened FileSystem
  import opened Layout
  import opened Staging
  import opened StagingLaws
  import opened Provenance

  const SPACES := ["artifacts", "files", "attachments", "backups"]

  // ---------- measuring ----------

  /** Everything strictly below a path. */
  ghost function Below(fs: Fs, p: Path): set<Path> {
    set q <- fs | p < q
  }

  /** What dir_size adds up: the bytes of all files below a path; 0 if there is no such directory. */
  ghost function SizeBelow(fs: Fs, p: Path, size: Node -> nat): nat {
    Total(fs, Below(fs, p), size)
  }

  ghost function Stored(fs: Fs, size: Node -> nat): nat {
    Total(fs, fs.Keys, size)
  }

  // ---------- recycle.empty ----------

  function EmptyBin(fs: Fs): Fs {
    Mkdirs(RemoveTree(fs, [RECYCLE]), [RECYCLE])
  }

  // ---------- gc_recycle ----------

  /** A date directory of the bin older than the cutoff; `parse` reads "%Y-%m-%d" as a day number. */
  predicate Expired(fs: Fs, p: Path, parse: string -> Option<int>, cutoff: int) {
    |p| >= 2 && p[0] == RECYCLE && p[..2] in fs && fs[p[..2]] == Dir && parse(p[1]).Some? && parse(p[1]).value < cutoff
  }

  const DEFAULT_RECYCLE_SECS := 30 * 24 * 3600

  function Cutoff(today: int, olderThanSecs: nat): int {
    today - (if olderThanSecs == 0 then DEFAULT_RECYCLE_SECS else olderThanSecs) / 86400
  }

  function GcRecycle(fs: Fs, parse: string -> Option<int>, cutoff: int): Fs {
    map p | p in fs && !Expired(fs, p, parse, cutoff) :: fs[p]
  }

  // ---------- gc_staging ----------

  /** Upload `id` of device and space was begun before the deadline. */
  predicate Stale(fs: Fs, device: string, space: string, id: string, deadline: int) {
    var meta := MetaPath(device, space, id);
    IsValidDeviceId(device) && IsValidSpace(space) && meta in fs && fs[meta].Meta? && fs[meta].meta.createdMs < deadline
  }

  ghost predicate StaleFile(fs: Fs, p: Path, deadline: int) {
    exists d, s, id :: Stale(fs, d, s, id, deadline) && (p == PartPath(d, s, id) || p == MetaPath(d, s, id))
  }

  /** The state gc_staging is to reach: the files of stale uploads gone, their ids forgotten. */
  ghost predicate GcStagingDone(s: Store, g: Store, deadline: int) {
    && (forall p :: p in g.fs <==> p in s.fs && !StaleFile(s.fs, p, deadline))
    && (forall p <- g.fs :: g.fs[p] == s.fs[p])
    && (forall id :: id in g.uploads <==> id in s.uploads && !(exists d, sp :: Stale(s.fs, d, sp, id, deadline)))
    && (forall id <- g.uploads :: g.uploads[id] == s.uploads[id])
  }

  ghost function GcStaging(s: Store, deadline: int): (g: Store)
    ensures GcStagingDone(s, g, deadline)
  {
    Store(map p | p in s.fs && !StaleFile(s.fs, p, deadline) :: s.fs[p],
          map id | id in s.uploads && !(exists d, sp :: Stale(s.fs, d, sp, id, deadline)) :: s.uploads[id])
  }

  const DEFAULT_STAGING_MS := 24 * 3600 * 1000

  /** Uploads begun before this go, in milliseconds. */
  function Deadline(now: int, olderThanMs: nat): int {
    now - (if olderThanMs == 0 then DEFAULT_STAGING_MS else olderThanMs)
  }

  // ---------- purge and wipe ----------

  /** purge_device: the device's tree removed; the error cases leave everything alone. */
  function Purge(fs: Fs, device: string, self: string): (Fs, Option<OpError>) {
    if !IsValidDeviceId(device) then (fs, Some(BadPath))
    else if device == self then (fs, Some(AclDenied))
    else if [device] !in fs || fs[[device]] != Dir then (fs, Some(NotFound))
    else (RemoveTree(fs, [device]), None)
  }

  function MkSpaces(fs: Fs, device: string, n: nat): Fs
    requires n <= |SPACES|
  {
    if n == 0 then Mkdirs(fs, [device]) else Mkdirs(MkSpaces(fs, device, n - 1), [device, SPACES[n - 1]])
  }

  /** wipe_self: the node's own tree removed and its four spaces made anew. */
  function Wipe(fs: Fs, device: string, self: string): (Fs, Option<OpError>) {
    if !IsValidDeviceId(device) then (fs, Some(BadPath))
    else if device != self then (fs, Some(AclDenied))
    else if [device] !in fs then (fs, None)
    else if fs[[device]] != Dir then (fs, Some(BadPath))
    else (MkSpaces(RemoveTree(fs, [device]), device, |SPACES|), None)
  }

  // ---------- what removal keeps ----------

  /** g is f without some nodes, but for directories made anew. */
  ghost predicate Trimmed(f: Fs, g: Fs) {
    && IsTree(g)
    && (forall p <- g | g[p] != Dir :: p in f && f[p] == g[p])
  }

  /** The files of f that g has lost. */
  ghost function Lost(f: Fs, g: Fs): set<Path> {
    set p <- f | f[p] != Dir && (p !in g || g[p] != f[p])
  }

  ghost function LostCopies(f: Fs, g: Fs, c: Bytes): nat {
    |set p <- Lost(f, g) | !Staged(p) && f[p] == Blob(c)|
  }

  lemma TrimmedCopies(f: Fs, g: Fs, c: Bytes)
    requires Trimmed(f, g)
    ensures Copies(f, c) == Copies(g, c) + LostCopies(f, g, c)
  {
    var gone := set p <- Lost(f, g) | !Staged(p) && f[p] == Blob(c);
    assert Holders(f, c) == Holders(g, c) + gone;
  }

  /** A file's size is a file's; directories weigh nothing. */
  ghost predicate Weighs(size: Node -> nat) {
    size(Dir) == 0
  }

  lemma {:induction false} DirsWeighNothing(f: Fs, s: set<Path>, size: Node -> nat)
    requires Weighs(size) && s <= f.Keys && forall p <- s :: f[p] == Dir
    ensures Total(f, s, size) == 0
  {
    if s != {} {
      var x :| x in s;
      TotalRemove(f, s, size, x);
      DirsWeighNothing(f, s - {x}, size);
    }
  }

  /** The drop in stored bytes is the size of the lost files. */
  lemma TrimmedBytes(f: Fs, g: Fs, size: Node -> nat)
    requires Trimmed(f, g) && Weighs(size)
    ensures Stored(f, size) == Stored(g, size) + Total(f, Lost(f, g), size)
  {
    var lost := Lost(f, g);
    var files := set p <- g | g[p] != Dir;
    var fdirs, gdirs := set p <- f | f[p] == Dir, set p <- g | g[p] == Dir;
    assert f.Keys == (files + lost) + fdirs && g.Keys == files + gdirs;
    TotalUnion(f, files + lost, fdirs, size);
    TotalUnion(f, files, lost, size);
    TotalUnion(g, files, gdirs, size);
    DirsWeighNothing(f, fdirs, size);
    DirsWeighNothing(g, gdirs, size);
    TotalFrame(f, g, files, size);
  }

  /** If what is lost is everything below a directory, the drop is what dir_size reports. */
  lemma LostBelow(f: Fs, g: Fs, p: Path, size: Node -> nat)
    requires Trimmed(f, g) && Weighs(size)
    requires forall q <- f | f[q] != Dir :: (p < q <==> q in Lost(f, g))
    ensures Stored(f, size) == Stored(g, size) + SizeBelow(f, p, size)
  {
    var lost := Lost(f, g);
    var rest := set q <- f | p < q && f[q] == Dir;
    assert Below(f, p) == lost + rest;
    TotalUnion(f, lost, rest, size);
    DirsWeighNothing(f, rest, size);
    TrimmedBytes(f, g, size);
  }

  lemma TrimKeepsKnown(hash: Hash, b: set<Begun>, s: Store, g: Store)
    requires Known(hash, b, s) && Trimmed(s.fs, g.fs)
    ensures Known(hash, b, g)
  {
  }

  /** Both staging files of an upload go or stay together, and no staging directory is new. */
  ghost predicate TrimsStaging(f: Fs, g: Fs) {
    && (forall p <- g | Staged(p) :: p in f && f[p] == g[p])
    && (forall d, s, id | IsValidDeviceId(d) && PartPath(d, s, id) in g && MetaPath(d, s, id) in f ::
          MetaPath(d, s, id) in g)
  }

  lemma TrimKeepsInv(s: Store, g: Store)
    requires Inv(s) && Trimmed(s.fs, g.fs) && TrimsStaging(s.fs, g.fs)
    requires forall id <- g.uploads :: id in s.uploads && g.uploads[id] == s.uploads[id]
    ensures Inv(g)
  {
    forall d, t, id | IsValidDeviceId(d)
      ensures Staged(PartPath(d, t, id)) && Staged(MetaPath(d, t, id))
    {
      assert d[0] != '.';
    }
    forall id <- g.uploads ensures EntryOk(g.fs, id, g.uploads[id]) {
      var u := s.uploads[id];
      assert EntryOk(s.fs, id, u);
    }
  }

  // ---------- each step ----------

  lemma BinPath(p: Path)
    ensures InRecycle(p) <==> [RECYCLE] <= p
    ensures p <= [RECYCLE] ==> p == [] || p == [RECYCLE]
  {
    assert InRecycle(p) ==> p[..1] == [RECYCLE];
  }

  lemma EmptyBinLaw(fs: Fs, size: Node -> nat)
    requires IsTree(fs) && Weighs(size)
    ensures var g := EmptyBin(fs);
            && Trimmed(fs, g) && TrimsStaging(fs, g)
            && (forall p <- g | InRecycle(p) :: p == [RECYCLE])
            && (forall p | !InRecycle(p) :: (p in g <==> p in fs) && (p in fs ==> g[p] == fs[p]))
            && ([RECYCLE] in fs && fs[[RECYCLE]] == Dir ==>
                  Stored(fs, size) == Stored(g, size) + SizeBelow(fs, [RECYCLE], size))
  {
    var cut := RemoveTree(fs, [RECYCLE]);
    RemoveTreeIsTree(fs, [RECYCLE]);
    forall k | 0 <= k <= 1 && [RECYCLE][..k] in cut ensures cut[[RECYCLE][..k]] == Dir { }
    MkdirsTree(cut, [RECYCLE]);
    var g := EmptyBin(fs);
    forall p <- g | InRecycle(p) ensures p == [RECYCLE] {
      BinPath(p);
      assert p !in cut && p <= [RECYCLE];
    }
    forall p | !InRecycle(p) ensures (p in g <==> p in fs) && (p in fs ==> g[p] == fs[p]) {
      BinPath(p);
    }
    if [RECYCLE] in fs && fs[[RECYCLE]] == Dir {
      forall q <- fs | fs[q] != Dir ensures [RECYCLE] < q <==> q in Lost(fs, g) {
        BinPath(q);
        assert InRecycle(q) ==> q in Lost(fs, g);
      }
      LostBelow(fs, g, [RECYCLE], size);
    }
  }

  lemma GcRecycleLaw(fs: Fs, parse: string -> Option<int>, cutoff: int)
    requires IsTree(fs)
    ensures var g := GcRecycle(fs, parse, cutoff);
            && Trimmed(fs, g) && TrimsStaging(fs, g)
            && (forall p | !InRecycle(p) :: (p in g <==> p in fs) && (p in fs ==> g[p] == fs[p]))
  {
    var g := GcRecycle(fs, parse, cutoff);
    forall p <- g | p != [] ensures Parent(p) in g && g[Parent(p)] == Dir {
      if |p| > 2 { assert Parent(p)[..2] == p[..2] && Parent(p)[1] == p[1]; }
    }
    forall d, s, id | IsValidDeviceId(d) ensures !InRecycle(MetaPath(d, s, id)) { assert d[0] != '.'; }
  }

  /** One run of a collector: the day or the time it runs, and the age it is to leave, 0 for the default. */
  datatype Round = Round(now: int, age: nat)

  /** The collector run on one day after another, each time with an age of its own in seconds. */
  function Collections(fs: Fs, parse: string -> Option<int>, rounds: seq<Round>): Fs
    decreases |rounds|
  {
    if rounds == [] then fs
    else Collections(GcRecycle(fs, parse, Cutoff(rounds[0].now, rounds[0].age)), parse, rounds[1..])
  }

  /** How many days a run leaves things in the bin. */
  function DaysLeft(age: nat): nat {
    if age == 0 then 30 else age / (24 * 60 * 60)
  }

  /** Below a directory of the bin that is named as a date. */
  predicate DatedItem(fs: Fs, parse: string -> Option<int>, p: Path) {
    |p| >= 2 && p[0] == ".recycle" && [".recycle", p[1]] in fs && fs[[".recycle", p[1]]] == Dir && parse(p[1]).Some?
  }

  /** Over any sequence of collections, in whatever order the clock gives their days: what was recycled on day D is
      still there at the end exactly when none of them ran later than D and the days it was to leave; everything else
      in the store is. */
  lemma {:induction false} RecycledSurvivesIff(fs: Fs, parse: string -> Option<int>, rounds: seq<Round>, p: Path)
    requires IsTree(fs) && p in fs
    ensures var g := Collections(fs, parse, rounds);
            && (p in g <==>
                  (DatedItem(fs, parse, p) ==>
                     forall r <- rounds :: r.now <= parse(p[1]).value + DaysLeft(r.age)))
            && (p in g ==> g[p] == fs[p])
    decreases |rounds|
  {
    hide IsTree, GcRecycle, Cutoff, DaysLeft, DatedItem;
    if rounds != [] {
      var first := rounds[0];
      var g := GcRecycle(fs, parse, Cutoff(first.now, first.age));
      GcRecycleLaw(fs, parse, Cutoff(first.now, first.age));
      KeptOnce(fs, parse, first, p);
      assert rounds == [first] + rounds[1..];
      if p in g {
        RecycledSurvivesIff(g, parse, rounds[1..], p);
      } else {
        StaysGone(g, parse, rounds[1..], p);
      }
    }
  }

  lemma KeptOnce(fs: Fs, parse: string -> Option<int>, round: Round, p: Path)
    requires p in fs
    ensures var g := GcRecycle(fs, parse, Cutoff(round.now, round.age));
            && (p in g <==> (DatedItem(fs, parse, p) ==> round.now <= parse(p[1]).value + DaysLeft(round.age)))
            && (p in g ==> g[p] == fs[p] && (DatedItem(g, parse, p) <==> DatedItem(fs, parse, p)))
    ensures DatedItem(fs, parse, p) ==> |p| >= 2 && parse(p[1]).Some?
  {
    if |p| >= 2 && p[0] == ".recycle" { assert p[..2] == [".recycle", p[1]]; }
  }

  lemma {:induction false} StaysGone(fs: Fs, parse: string -> Option<int>, rounds: seq<Round>, p: Path)
    requires p !in fs
    ensures p !in Collections(fs, parse, rounds)
    decreases |rounds|
  {
    if rounds != [] {
      StaysGone(GcRecycle(fs, parse, Cutoff(rounds[0].now, rounds[0].age)), parse, rounds[1..], p);
    }
  }

  lemma PurgeLaw(fs: Fs, device: string, self: string, size: Node -> nat)
    requires IsTree(fs) && Weighs(size)
    ensures var (g, e) := Purge(fs, device, self);
            && Trimmed(fs, g) && TrimsStaging(fs, g)
            && (e.Some? ==> g == fs)
            && (e.None? ==>
                  && device != self
                  && (forall p :: p in g <==> p in fs && !([device] <= p))
                  && Stored(fs, size) == Stored(g, size) + SizeBelow(fs, [device], size))
    ensures var e := Purge(fs, device, self).1;
            && (e.None? <==> IsValidDeviceId(device) && device != self && [device] in fs && fs[[device]] == Dir)
            && (e == Some(BadPath) <==> !IsValidDeviceId(device))
            && (e == Some(AclDenied) <==> IsValidDeviceId(device) && device == self)
            && (e.Some? ==> e.value == BadPath || e.value == AclDenied || e.value == NotFound)
  {
    var (g, e) := Purge(fs, device, self);
    if e.None? {
      RemoveTreeIsTree(fs, [device]);
      RemovedTogether(fs, [device]);
      forall q <- fs | fs[q] != Dir ensures [device] < q <==> q in Lost(fs, g) { assert q != [device]; }
      LostBelow(fs, g, [device], size);
    }
  }

  lemma RemovedTogether(fs: Fs, p: Path)
    requires |p| == 1
    ensures TrimsStaging(fs, RemoveTree(fs, p))
  {
    forall d, s, id ensures p <= PartPath(d, s, id) <==> p == [d]
      ensures p <= MetaPath(d, s, id) <==> p == [d]
    {
      assert PartPath(d, s, id)[..1] == [d] && MetaPath(d, s, id)[..1] == [d];
    }
  }

  lemma MkSpacesLaw(fs: Fs, device: string, n: nat)
    requires IsTree(fs) && n <= |SPACES| && IsValidDeviceId(device) && [device] !in fs
    ensures var g := MkSpaces(fs, device, n);
            && IsTree(g) && [device] in g && g[[device]] == Dir
            && (forall p <- fs :: p in g && g[p] == fs[p])
            && (forall i :: 0 <= i < n ==> [device, SPACES[i]] in g)
            && (forall p <- g | [device] <= p :: |p| <= 2 && g[p] == Dir)
  {
    if n == 0 {
      NothingBelowMissing(fs, [device]);
      assert CanMkdirs(fs, [device]);
      MkdirsTree(fs, [device]);
    } else {
      MkSpacesLaw(fs, device, n - 1);
      var f := MkSpaces(fs, device, n - 1);
      hide MkSpaces;
      SpaceDir(f, device, SPACES[n - 1]);
    }
  }

  lemma SpaceDir(f: Fs, device: string, space: string)
    requires IsTree(f) && [device] in f && f[[device]] == Dir
             && (forall p <- f | [device] <= p :: |p| <= 2 && f[p] == Dir)
    ensures CanMkdirs(f, [device, space])
    ensures var g := Mkdirs(f, [device, space]);
            IsTree(g) && [device, space] in g && (forall p <- g | p !in f :: p == [device, space])
  {
    var dir := [device, space];
    forall k | 0 <= k <= 2 && dir[..k] in f ensures f[dir[..k]] == Dir {
      assert dir[..0] == [] && dir[..1] == [device] && dir[..2] == dir;
      assert [device] <= dir;
    }
    MkdirsTree(f, dir);
    forall p | p <= dir && p !in f
      ensures p == dir
    {
      assert p == dir[..|p|] && dir[..0] == [] && dir[..1] == [device];
    }
  }

  lemma WipeLaw(fs: Fs, device: string, self: string, size: Node -> nat)
    requires IsTree(fs) && Weighs(size)
    ensures var (g, e) := Wipe(fs, device, self);
            && Trimmed(fs, g) && TrimsStaging(fs, g)
            && (e.Some? ==> g == fs)
            && (e.None? && [device] in fs ==>
                  && device == self
                  && (forall p <- g | [device] <= p :: g[p] == Dir)
                  && (forall space <- ["artifacts", "files", "attachments", "backups"] :: [device, space] in g)
                  && (forall p | !([device] <= p) :: (p in g <==> p in fs) && (p in fs ==> g[p] == fs[p]))
                  && Stored(fs, size) == Stored(g, size) + SizeBelow(fs, [device], size))
    ensures var (g, e) := Wipe(fs, device, self);
            && (e.None? <==>
                  IsValidDeviceId(device) && device == self && ([device] in fs ==> fs[[device]] == Dir))
            && (e.None? && [device] !in fs ==> g == fs)
            && (e == Some(AclDenied) <==> IsValidDeviceId(device) && device != self)
            && (e.Some? ==> e.value == BadPath || e.value == AclDenied)
  {
    var (g, e) := Wipe(fs, device, self);
    hide MkSpaces;
    if e.None? && [device] in fs {
      WipedTree(fs, device);
      forall q <- fs | fs[q] != Dir ensures [device] < q <==> q in Lost(fs, g) { assert q != [device]; }
      LostBelow(fs, g, [device], size);
    }
  }

  lemma WipedTree(fs: Fs, device: string)
    requires IsTree(fs) && IsValidDeviceId(device)
    ensures var g := MkSpaces(RemoveTree(fs, [device]), device, |SPACES|);
            && Trimmed(fs, g) && TrimsStaging(fs, g)
            && (forall p <- g | [device] <= p :: g[p] == Dir)
            && (forall space <- ["artifacts", "files", "attachments", "backups"] :: [device, space] in g)
            && (forall p | !([device] <= p) :: (p in g <==> p in fs) && (p in fs ==> g[p] == fs[p]))
  {
    hide MkSpaces;
    var cut := RemoveTree(fs, [device]);
    RemoveTreeIsTree(fs, [device]);
    RemovedTogether(fs, [device]);
    MkSpacesLaw(cut, device, |SPACES|);
    MadeBelow(cut, device, |SPACES|);
    hide MkSpaces;
    var g := MkSpaces(cut, device, |SPACES|);
    forall p <- g | Staged(p) ensures p in cut { assert |p| >= 3; }
    forall d, s, id | PartPath(d, s, id) in g ensures PartPath(d, s, id) in cut { assert |PartPath(d, s, id)| == 4; }
  }

  lemma MadeBelow(fs: Fs, device: string, n: nat)
    requires n <= |SPACES| && [] in fs
    ensures forall p <- MkSpaces(fs, device, n) | p !in fs :: [device] <= p
  {
    if n == 0 {
    } else {
      MadeBelow(fs, device, n - 1);
      var dir := [device, SPACES[n - 1]];
      var g := MkSpaces(fs, device, n);
      forall p <- g | p !in fs && p !in MkSpaces(fs, device, n - 1)
        ensures [device] <= p
      {
        assert p <= dir && p[0] == dir[0];
      }
    }
  }

  /** gc_staging removes exactly the uploads begun before the deadline, parts and meta files
      together, and no official or recycled file. */
  lemma GcStagingLaw(s: Store, g: Store, deadline: int)
    requires Inv(s) && GcStagingDone(s, g, deadline)
    ensures Inv(g) && Trimmed(s.fs, g.fs) && LiveSame(s.fs, g.fs)
    ensures forall d, t, id | IsValidDeviceId(d) && IsValidSpace(t) :: KeptIfRecent(s.fs, g.fs, d, t, id, deadline)
  {
    hide Inv;
    GcStagingTree(s, g, deadline);
    GcStagingPairs(s, g, deadline);
    TrimKeepsInv(s, g);
  }

  /** An upload's two files stay exactly when it was begun at or after the deadline. */
  ghost predicate KeptIfRecent(f: Fs, g: Fs, d: string, t: string, id: string, deadline: int) {
    var part, meta := PartPath(d, t, id), MetaPath(d, t, id);
    meta in f ==>
      && f[meta].Meta?
      && (meta in g <==> f[meta].meta.createdMs >= deadline)
      && (part in g <==> part in f && f[meta].meta.createdMs >= deadline)
  }

  lemma StaleFileIff(fs: Fs, d: string, t: string, id: string, deadline: int)
    ensures StaleFile(fs, MetaPath(d, t, id), deadline) <==> Stale(fs, d, t, id, deadline)
    ensures StaleFile(fs, PartPath(d, t, id), deadline) <==> Stale(fs, d, t, id, deadline)
  {
    forall d', t', i ensures PartPath(d', t', i) == PartPath(d, t, id) ==> d' == d && t' == t && i == id
      ensures MetaPath(d', t', i) == MetaPath(d, t, id) ==> d' == d && t' == t && i == id
      ensures PartPath(d', t', i) != MetaPath(d, t, id) && MetaPath(d', t', i) != PartPath(d, t, id)
    {
      PathsApart(d', t', i, d, t, id);
      PathsApart(d, t, id, d', t', i);
    }
  }

  lemma GcStagingTree(s: Store, g: Store, deadline: int)
    requires Inv(s) && GcStagingDone(s, g, deadline)
    ensures Trimmed(s.fs, g.fs) && LiveSame(s.fs, g.fs)
  {
    forall p | StaleFile(s.fs, p, deadline) ensures Staged(p) && (p in s.fs ==> s.fs[p] != Dir) {
      var d, t, id :| Stale(s.fs, d, t, id, deadline) && (p == PartPath(d, t, id) || p == MetaPath(d, t, id));
      SessionNode(s.fs, d, t, id);
    }
    forall p <- g.fs | p != [] ensures Parent(p) in g.fs && g.fs[Parent(p)] == Dir {
      assert s.fs[Parent(p)] == Dir;
    }
  }

  lemma GcStagingPairs(s: Store, g: Store, deadline: int)
    requires Inv(s) && GcStagingDone(s, g, deadline)
    ensures TrimsStaging(s.fs, g.fs)
    ensures forall d, t, id | IsValidDeviceId(d) && IsValidSpace(t) :: KeptIfRecent(s.fs, g.fs, d, t, id, deadline)
  {
    forall d, t, id ensures StaleFile(s.fs, MetaPath(d, t, id), deadline) <==> Stale(s.fs, d, t, id, deadline)
      ensures StaleFile(s.fs, PartPath(d, t, id), deadline) <==> Stale(s.fs, d, t, id, deadline)
      ensures IsValidDeviceId(d) && MetaPath(d, t, id) in s.fs ==> s.fs[MetaPath(d, t, id)].Meta?
    {
      StaleFileIff(s.fs, d, t, id, deadline);
      if IsValidDeviceId(d) { SessionNode(s.fs, d, t, id); }
    }
  }

  /** The staging collector run at one time after another, each time with an age of its own in milliseconds. */
  ghost function Sweeps(s: Store, rounds: seq<Round>): Store
    decreases |rounds|
  {
    if rounds == [] then s
    else Sweeps(GcStaging(s, Deadline(rounds[0].now, rounds[0].age)), rounds[1..])
  }

  /** How long a run leaves an upload, in milliseconds: a day unless it is told otherwise. */
  function TimeLeft(age: nat): nat {
    if age == 0 then 86_400_000 else age
  }

  /** Over any sequence of collections, in whatever order the clock gives their times: an upload begun at time T
      still has its files at the end exactly when none of them ran later than T and the time it was to leave. */
  lemma {:induction false} UploadSurvivesIff(s: Store, rounds: seq<Round>, d: string, t: string, id: string, begun: int)
    requires Inv(s) && IsValidDeviceId(d) && IsValidSpace(t) && MetaPath(d, t, id) in s.fs
             && s.fs[MetaPath(d, t, id)].Meta? && s.fs[MetaPath(d, t, id)].meta.createdMs == begun
    ensures var g := Sweeps(s, rounds);
            var part, meta := PartPath(d, t, id), MetaPath(d, t, id);
            var stays := forall r <- rounds :: r.now <= begun + TimeLeft(r.age);
            && (meta in g.fs <==> stays) && (part in g.fs <==> stays && part in s.fs)
            && (meta in g.fs ==> g.fs[meta] == s.fs[meta]) && (part in g.fs ==> g.fs[part] == s.fs[part])
    decreases |rounds|
  {
    hide Inv, PartPath, MetaPath, Deadline, TimeLeft;
    if rounds != [] {
      var first := rounds[0];
      var g := GcStaging(s, Deadline(first.now, first.age));
      SweptOnce(s, first, d, t, id, begun);
      assert rounds == [first] + rounds[1..];
      if first.now <= begun + TimeLeft(first.age) {
        UploadSurvivesIff(g, rounds[1..], d, t, id, begun);
      } else {
        StaysSwept(g, rounds[1..], MetaPath(d, t, id));
        StaysSwept(g, rounds[1..], PartPath(d, t, id));
      }
    }
  }

  lemma SweptOnce(s: Store, round: Round, d: string, t: string, id: string, begun: int)
    requires Inv(s) && IsValidDeviceId(d) && IsValidSpace(t) && MetaPath(d, t, id) in s.fs
             && s.fs[MetaPath(d, t, id)].Meta? && s.fs[MetaPath(d, t, id)].meta.createdMs == begun
    ensures var g := GcStaging(s, Deadline(round.now, round.age));
            var part, meta := PartPath(d, t, id), MetaPath(d, t, id);
            var stays := round.now <= begun + TimeLeft(round.age);
            && Inv(g) && (meta in g.fs <==> stays) && (part in g.fs <==> stays && part in s.fs)
            && (meta in g.fs ==> g.fs[meta] == s.fs[meta]) && (part in g.fs ==> g.fs[part] == s.fs[part])
  {
    hide Inv, PartPath, MetaPath, Trimmed, LiveSame, StaleFile, GcStaging;
    var g := GcStaging(s, Deadline(round.now, round.age));
    GcStagingLaw(s, g, Deadline(round.now, round.age));
    assert KeptIfRecent(s.fs, g.fs, d, t, id, Deadline(round.now, round.age));
  }

  lemma {:induction false} StaysSwept(s: Store, rounds: seq<Round>, p: Path)
    requires p !in s.fs
    ensures p !in Sweeps(s, rounds).fs
    decreases |rounds|
  {
    hide Deadline;
    if rounds != [] { StaysSwept(GcStaging(s, Deadline(rounds[0].now, rounds[0].age)), rounds[1..], p); }
  }
}
