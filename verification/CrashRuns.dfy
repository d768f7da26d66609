/** Crashes inside a whole commit or a whole gc_staging: what any prefix of their actions leaves. */
module CrashRuns {
  import opened Wrappers
  import opened Paths
  import opened FileSystem
  import opened Layout
  import opened Recycle
  import opened RecycleLaws
  import opened Tidiness
  import opened Staging
  import opened StagingLaws
  import opened CommitLaws
  import opened BatchLaws
  import opened Provenance
  import opened Maintenance
  import opened Crash

  /** As many of the actions as were done. */
  function Upto(acts: seq<Act>, k: nat): seq<Act> {
    if k <= |acts| then acts[..k] else acts
  }

  // ---------- write.begin ----------

  /** A begin cut off after k actions. */
  function BeginCut(s: Store, caller: string, space: string, path: string, size: int, sha: string, id: string,
                    now: int, k: nat): Store
  {
    if BeginError(path, size, sha, id).Some? || !CanMkdirs(s.fs, [caller, space, STAGING]) then s
    else DoAll(s, Upto(BeginActs(s, caller, space, StagingMeta(Normalize(path).value, size, sha, now), id), k))
  }

  /** A begin cut off after it wrote a new meta file. */
  predicate BeginNoted(s: Store, caller: string, space: string, path: string, size: int, sha: string, id: string,
                       k: nat)
  {
    && BeginError(path, size, sha, id).None? && CanMkdirs(s.fs, [caller, space, STAGING])
    && MetaPath(caller, space, id) !in s.fs && k >= 2
  }

  /** What a begin may add: directories down to its own, its meta file, and a part with nothing in it. */
  ghost predicate BeginAdds(f: Fs, g: Fs, caller: string, space: string, id: string) {
    forall p <- g ::
      || (p in f && g[p] == f[p])
      || (p <= [caller, space, STAGING] && g[p] == Dir)
      || (p == MetaPath(caller, space, id) && g[p].Meta?)
      || (p == PartPath(caller, space, id) && g[p] == Blob([]))
  }

  lemma BeginCutIs(s: Store, caller: string, space: string, path: string, size: int, sha: string, id: string, now: int,
                   k: nat)
    requires Inv(s) && IsValidDeviceId(caller) && IsValidSpace(space)
    ensures var declared := if Normalize(path).Ok? then StagingMeta(Normalize(path).value, size, sha, now)
              else StagingMeta([], size, sha, now);
            var n := |BeginActs(s, caller, space, declared, id)|;
            var g := BeginCut(s, caller, space, path, size, sha, id, now, k);
            if BeginError(path, size, sha, id).Some? || !CanMkdirs(s.fs, [caller, space, STAGING]) then g == s
            else g == BeginState(s, caller, space, declared, id, if k <= n then k else n)
    ensures k >= 4 ==>
              BeginCut(s, caller, space, path, size, sha, id, now, k)
              == Begin(s, caller, space, path, size, sha, id, now).0
  {
    hide Inv, CanMkdirs, DoAll, BeginState, Normalize;
    if BeginError(path, size, sha, id).None? && CanMkdirs(s.fs, [caller, space, STAGING]) {
      var declared := StagingMeta(Normalize(path).value, size, sha, now);
      var acts := BeginActs(s, caller, space, declared, id);
      assert |acts| <= 4 && acts[..|acts|] == acts;
      hide BeginActs, Begin;
      BeginActsStates(s, caller, space, declared, id, if k <= |acts| then k else |acts|);
      BeginActsRefine(s, caller, space, path, size, sha, id, now);
    }
  }

  /** At every point of a begin, cut off there: the invariant, what was added, and live files as
      they were. */
  lemma BeginCutKeeps(s: Store, caller: string, space: string, path: string, size: int, sha: string, id: string,
                      now: int, k: nat)
    requires Inv(s) && IsValidDeviceId(caller) && IsValidSpace(space)
    ensures var g := BeginCut(s, caller, space, path, size, sha, id, now, k);
            && Inv(Crashed(g)) && BeginAdds(s.fs, g.fs, caller, space, id) && LiveSame(s.fs, g.fs)
            && forall p <- g.fs | g.fs[p].Meta? ::
                 (p in s.fs && s.fs[p] == g.fs[p])
                 || (BeginNoted(s, caller, space, path, size, sha, id, k) && p == MetaPath(caller, space, id)
                     && g.fs[p].meta.size == size && g.fs[p].meta.sha == sha)
  {
    hide Inv, CanMkdirs, BeginState, LiveSame, BeginAdds;
    BeginCutIs(s, caller, space, path, size, sha, id, now, k);
    CrashedKeeps(s);
    LiveSameSelf(s.fs);
    AddsNothing(s.fs, caller, space, id);
    if BeginError(path, size, sha, id).None? && CanMkdirs(s.fs, [caller, space, STAGING]) {
      NormalizedIsClean(path);
      var declared := StagingMeta(Normalize(path).value, size, sha, now);
      var n := |BeginActs(s, caller, space, declared, id)|;
      var j := if k <= n then k else n;
      BeginStateDisk(s, caller, space, declared, id, j);
      CrashedHolds(BeginState(s, caller, space, declared, id, j));
      BeginStateAdds(s, caller, space, declared, id, j);
    }
  }

  lemma AddsNothing(fs: Fs, caller: string, space: string, id: string)
    ensures BeginAdds(fs, fs, caller, space, id)
  {
  }

  lemma BeginStateAdds(s: Store, caller: string, space: string, declared: StagingMeta, id: string, k: nat)
    requires Inv(s) && IsValidDeviceId(caller) && IsValidSpace(space) && CanMkdirs(s.fs, [caller, space, STAGING])
    requires k <= |BeginActs(s, caller, space, declared, id)|
    ensures var g := BeginState(s, caller, space, declared, id, k).fs;
            && BeginAdds(s.fs, g, caller, space, id) && LiveSame(s.fs, g)
            && forall p <- g | g[p].Meta? :: (p in s.fs && s.fs[p] == g[p])
                                             || (MetaPath(caller, space, id) !in s.fs && k >= 2
                                                 && p == MetaPath(caller, space, id) && g[p].meta == declared)
  {
    hide Inv, CanMkdirs, MetaPath, PartPath, Staged, BeginAdds, LiveSame;
    BeginFacts(s, caller, space, id);
    SessionStaged(Collected(caller, space, id));
    MkdirsAdds(s.fs, caller, space, id);
    LiveSameSelf(s.fs);
    AddsNothing(s.fs, caller, space, id);
    var made := Mkdirs(s.fs, [caller, space, STAGING]);
    BeginDisk(s, caller, space, declared, id, k);
    NotedAdds(s.fs, made, caller, space, declared, id);
  }

  lemma BeginDisk(s: Store, caller: string, space: string, declared: StagingMeta, id: string, k: nat)
    requires k <= |BeginActs(s, caller, space, declared, id)|
    ensures var made, meta := Mkdirs(s.fs, [caller, space, STAGING]), MetaPath(caller, space, id);
            var g := BeginState(s, caller, space, declared, id, k).fs;
            || g == s.fs || g == made
            || (meta !in s.fs && k >= 2
                && (g == made[meta := Meta(declared)]
                    || g == made[meta := Meta(declared)][PartPath(caller, space, id) := Blob([])]))
  {
  }

  /** Meta file and empty part, on top of the directories. */
  lemma NotedAdds(f: Fs, made: Fs, caller: string, space: string, declared: StagingMeta, id: string)
    requires BeginAdds(f, made, caller, space, id) && LiveSame(f, made)
             && (forall p <- made | made[p].Meta? :: p in f && f[p] == made[p])
    requires Staged(PartPath(caller, space, id)) && Staged(MetaPath(caller, space, id))
             && PartPath(caller, space, id) != MetaPath(caller, space, id)
    ensures var meta, part := MetaPath(caller, space, id), PartPath(caller, space, id);
            var noted := made[meta := Meta(declared)];
            var ready := noted[part := Blob([])];
            && BeginAdds(f, noted, caller, space, id) && LiveSame(f, noted)
            && BeginAdds(f, ready, caller, space, id) && LiveSame(f, ready)
            && (forall p <- noted | noted[p].Meta? ::
                  (p in f && f[p] == noted[p]) || (p == meta && noted[p].meta == declared))
            && (forall p <- ready | ready[p].Meta? ::
                  (p in f && f[p] == ready[p]) || (p == meta && ready[p].meta == declared))
  {
    hide PartPath, MetaPath, Staged;
  }

  lemma MkdirsAdds(fs: Fs, caller: string, space: string, id: string)
    ensures var made := Mkdirs(fs, [caller, space, STAGING]);
            LiveSame(fs, made) && BeginAdds(fs, made, caller, space, id) && forall p <- made | made[p].Meta? ::
                p in fs && fs[p] == made[p]
  {
    hide Staged, PartPath, MetaPath;
  }

  lemma BeginAddsTidy(f: Fs, g: Fs, caller: string, space: string, id: string)
    requires Tidy(f) && BeginAdds(f, g, caller, space, id) && IsValidDeviceId(caller) && IsValidSpace(space)
    ensures Tidy(g)
  {
    hide TidyPath;
    SessionStaged(Collected(caller, space, id));
    forall p <- g | !Staged(p) ensures TidyPath(p) {
      if p <= [caller, space, STAGING] { SpacePathTidy(caller, space, p); }
    }
  }

  lemma SpacePathTidy(caller: string, space: string, p: Path)
    requires IsValidDeviceId(caller) && IsValidSpace(space) && p <= [caller, space, STAGING] && !Staged(p)
    ensures TidyPath(p)
  {
    assert caller[0] != '.' && |p| <= 2;
  }

  // ---------- one member ----------

  /** A part has moved to its destination; its meta file may or may not be there still. */
  ghost predicate PartLeft(f: Fs, g: Fs, part: Path, meta: Path, dest: Path) {
    && part in f && f[part].Blob? && part !in g && dest !in f && dest in g && g[dest] == f[part]
    && (forall q <- f | q != part && q != meta :: q in g)
    && (forall q <- g | q != dest :: q in f && g[q] == f[q])
  }

  lemma DepositActsLeave(s: Store, u: Upload, id: string, k: nat)
    requires Inv(s) && GoodUpload(u, id) && PartPath(u.device, u.space, id) in s.fs && 1 <= k <= 3
    requires (forall q <- s.fs :: !(Destination(u) <= q)) && Parent(Destination(u)) in s.fs
             && s.fs[Parent(Destination(u))] == Dir
    ensures PartLeft(s.fs, DoAll(s, DepositActs(u, id)[..k]).fs, PartPath(u.device, u.space, id),
                     MetaPath(u.device, u.space, id), Destination(u))
  {
    hide DoAll, Inv, Rename, IsTree, GoodUpload, PartPath, MetaPath, Destination;
    var part, meta, dest := PartPath(u.device, u.space, id), MetaPath(u.device, u.space, id), Destination(u);
    OwnFacts(s, u, id);
    PartMoves(s.fs, part, dest);
    var moved := Rename(s.fs, part, dest).value;
    DepositDisks(s, u, id, k, moved);
    MetaUnlinked(moved, meta, dest);
  }

  lemma DepositDisks(s: Store, u: Upload, id: string, k: nat, moved: Fs)
    requires Rename(s.fs, PartPath(u.device, u.space, id), Destination(u)) == Ok(moved) && 1 <= k <= 3
    ensures DoAll(s, DepositActs(u, id)[..k]).fs == if k == 1 then moved
            else RemoveFile(moved, MetaPath(u.device, u.space, id))
  {
    hide DoAll, Rename, RemoveFile, PartPath, MetaPath, Destination;
    DoFirst(s, DepositActs(u, id), k);
  }

  lemma MetaUnlinked(fs: Fs, meta: Path, dest: Path)
    requires meta != dest
    ensures var g := RemoveFile(fs, meta);
            (forall q <- fs | q != meta :: q in g) && forall q <- g :: q in fs && g[q] == fs[q]
  {
  }

  /** Every state on the way to a clear destination is tidy. */
  lemma ClearActsTidy(s: Store, u: Upload, id: string, stamp: Stamp, k: nat)
    requires IsTree(s.fs) && Tidy(s.fs) && GoodUpload(u, id) && DateSeg(stamp.date) && k <= |ClearActs(s.fs, u, stamp)|
    ensures Tidy(DoAll(s, ClearActs(s.fs, u, stamp)[..k]).fs)
  {
    hide IsTree, Tidy, DateSeg, Do, DoAll, Shuffled, TidyPath, Transfer, CleanSeg;
    var dest, slot := Destination(u), ChosenSlot(s.fs, u.device, u.space, u.rel, stamp);
    var acts := ClearActs(s.fs, u, stamp);
    if k == 0 {
      assert acts[..0] == [];
      NoActs(s);
    } else {
      UploadPlaces(s.fs, u, id, stamp);
      DoFirst(s, acts, k);
      DirsMade(s, Parent(dest));
      TidyPrefix(Parent(dest), dest);
      MkdirsTidy(s.fs, Parent(dest));
      if |acts| == 3 {
        MadeSame(s.fs, u, id, stamp);
        TransferByActs(s, dest, slot);
        TidyPrefix(Parent(slot), slot);
        MkdirsTidy(s.fs, Parent(slot));
        NoneStagedBelow(s.fs, u, id);
        WentTidy(s.fs, dest, slot, Plain);
      }
    }
  }

  lemma UploadPlaces(fs: Fs, u: Upload, id: string, stamp: Stamp)
    requires GoodUpload(u, id) && DateSeg(stamp.date)
    ensures var dest, slot := Destination(u), ChosenSlot(fs, u.device, u.space, u.rel, stamp);
            && dest != [] && slot != [] && dest != slot && slot != [RECYCLE] && TidyPath(dest) && TidyPath(slot)
  {
    hide DateSeg, ValidUploadId;
    DeviceSpaceSegments(u.device, u.space);
    CleanTidy(u.device, u.space, u.rel);
    ChosenTidy(fs, u.device, u.space, u.rel, stamp);
  }

  lemma CleanTidy(device: string, space: string, rel: seq<string>)
    requires CleanSeg(device) && CleanSeg(space) && Clean(rel)
    ensures TidyPath([device, space] + rel)
  {
    var p := [device, space] + rel;
    forall i | 0 <= i < |p| ensures CleanSeg(p[i]) { if i >= 2 { assert p[i] == rel[i - 2]; } }
  }

  lemma NoneStagedBelow(fs: Fs, u: Upload, id: string)
    requires GoodUpload(u, id)
    ensures forall p <- fs | Destination(u) <= p :: !Staged(p)
  {
    forall p <- fs | Destination(u) <= p ensures !Staged(p) { assert p[2] == Destination(u)[2] == u.rel[0]; }
  }

  /** What a store keeps of another, with the parts of some members moved out of staging and some files
      of the bin overwritten. */
  ghost predicate Follows(hash: Hash, b: set<Begun>, s: Store, g: Store, moved: seq<Pending>, lost: multiset<Bytes>) {
    && Inv(g) && Known(hash, b, g) && Tidy(g.fs) && StagingShrinks(s.fs, g.fs)
    && forall c :: Copies(g.fs, c) + lost[c] == Copies(s.fs, c) + Tally(s.fs, moved, c)
  }

  /** The member whose commit is under way, once its part has been moved. */
  function MovedOne(fs: Fs, p: Pending, stamp: Stamp, k: nat): seq<Pending> {
    if p.u.rel != [] && k > |ClearActs(fs, p.u, stamp)| then [p] else []
  }

  lemma TallyOne(fs: Fs, p: Pending, c: Bytes)
    ensures Tally(fs, [], c) == 0
    ensures var part := PartPath(p.u.device, p.u.space, p.id);
            Tally(fs, [p], c) == if part in fs && fs[part] == Blob(c) then 1 else 0
  {
    assert [p][..0] == [];
  }

  lemma {:induction false} TallyAppend(fs: Fs, a: seq<Pending>, b: seq<Pending>, c: Bytes)
    ensures Tally(fs, a + b, c) == Tally(fs, a, c) + Tally(fs, b, c)
  {
    if b == [] {
      assert a + b == a;
    } else {
      TallyAppend(fs, a, b[..|b| - 1], c);
      assert (a + b)[..|a + b| - 1] == a + b[..|b| - 1];
    }
  }

  lemma RearrangedFollows(hash: Hash, b: set<Begun>, s: Store, g: Store, lost: multiset<Bytes>)
    requires Inv(s) && Known(hash, b, s) && Rearranged(s.fs, g.fs, lost) && Inv(g) && Tidy(g.fs)
    ensures Follows(hash, b, s, g, [], lost)
  {
    hide Known, Inv, Tidy, Resettled, Copies;
    ShuffleKeepsKnown(hash, b, s, g);
    ResettledShrinks(s.fs, g.fs);
  }

  /** What the moved part does to the account. */
  lemma PartLeftFollows(hash: Hash, b: set<Begun>, s: Store, cleared: Store, g: Store, p: Pending,
                        lost: multiset<Bytes>)
    requires Follows(hash, b, s, cleared, [], lost) && Inv(g) && GoodUpload(p.u, p.id) && PartKnown(hash, b, s.fs, p)
    requires PartLeft(cleared.fs, g.fs, PartPath(p.u.device, p.u.space, p.id), MetaPath(p.u.device, p.u.space, p.id),
                      Destination(p.u))
    ensures Follows(hash, b, s, g, [p], lost)
  {
    hide Inv, Tidy, Known, PartKnown, GoodUpload, PartPath, MetaPath, Destination, TidyPath, Staged;
    var part, meta, dest := PartPath(p.u.device, p.u.space, p.id), MetaPath(p.u.device, p.u.space, p.id),
      Destination(p.u);
    OwnFilesStaged(p);
    DestTidy(p);
    LeftKnown(hash, b, s, cleared, g, p);
    LeftTidy(cleared.fs, g.fs, part, meta, dest);
    assert part in s.fs && s.fs[part] == cleared.fs[part];
    forall c ensures Copies(g.fs, c) + lost[c] == Copies(s.fs, c) + Tally(s.fs, [p], c) {
      OneMoreHolder(cleared.fs, g.fs, part, meta, dest, cleared.fs[part].data, c);
      TallyOne(s.fs, p, c);
    }
  }

  lemma DestTidy(p: Pending)
    requires GoodUpload(p.u, p.id)
    ensures TidyPath(Destination(p.u)) && Owner(Destination(p.u)) == Some((p.u.device, p.u.space))
  {
    hide ValidUploadId;
    DeviceSpaceSegments(p.u.device, p.u.space);
    CleanTidy(p.u.device, p.u.space, p.u.rel);
    assert p.u.device[0] != '.';
  }

  lemma LeftTidy(f: Fs, g: Fs, part: Path, meta: Path, dest: Path)
    requires PartLeft(f, g, part, meta, dest) && Tidy(f) && TidyPath(dest)
    ensures Tidy(g)
  {
    hide TidyPath;
  }

  lemma LeftKnown(hash: Hash, b: set<Begun>, s: Store, cleared: Store, g: Store, p: Pending)
    requires Known(hash, b, cleared) && StagingShrinks(s.fs, cleared.fs) && PartKnown(hash, b, s.fs, p)
    requires Staged(PartPath(p.u.device, p.u.space, p.id)) && Owner(Destination(p.u)) == Some((p.u.device, p.u.space))
    requires PartLeft(cleared.fs, g.fs, PartPath(p.u.device, p.u.space, p.id), MetaPath(p.u.device, p.u.space, p.id),
                      Destination(p.u))
    requires !Staged(Destination(p.u))
    ensures Known(hash, b, g) && StagingShrinks(s.fs, g.fs)
  {
    hide Staged, Owner, PartPath, MetaPath, Destination;
  }

  /** At every point of committing one member: the invariant, provenance, tidiness, and every copy but
      what making room overwrote, plus the one deposited. */
  lemma OneCrashKeeps(hash: Hash, b: set<Begun>, s: Store, localId: string, p: Pending, stamp: Stamp, k: nat)
    requires Inv(s) && Known(hash, b, s) && Tidy(s.fs) && GoodUpload(p.u, p.id) && PartKnown(hash, b, s.fs, p)
    requires DateSeg(stamp.date) && k <= |CommitActs(s.fs, localId, p.u, p.id, stamp)|
    ensures Follows(hash, b, s, DoAll(s, CommitActs(s.fs, localId, p.u, p.id, stamp)[..k]), MovedOne(s.fs, p, stamp, k),
                    LossAt(s.fs, p.u, stamp, k))
  {
    hide DoAll, Inv, Known, Clear, ClearActs, IsTree, Rearranged, DateSeg, Tidy, Follows, PartKnown, PartLeft,
      DepositActs, ClearLoss;
    var a := ClearActs(s.fs, p.u, stamp);
    var acts := CommitActs(s.fs, localId, p.u, p.id, stamp);
    var d := acts[|a|..];
    assert acts == a + d;
    InvTree(s);
    CommitCrashSafe(s, localId, p, stamp, k);
    WithinAppend(s, a, d, k);
    var g := DoAll(s, acts[..k]);
    if k <= |a| {
      ClearActsSafe(s, localId, p.u, p.id, stamp, k);
      ClearActsTidy(s, p.u, p.id, stamp, k);
      RearrangedFollows(hash, b, s, g, LossAt(s.fs, p.u, stamp, k));
    } else {
      assert d == DepositActs(p.u, p.id);
      ClearActsSafe(s, localId, p.u, p.id, stamp, |a|);
      ClearActsTidy(s, p.u, p.id, stamp, |a|);
      ReadyToDeposit(s.fs, localId, p.u, p.id, stamp);
      var mid := DoAll(s, a[..|a|]);
      LossGrows(s.fs, p.u, stamp, k);
      RearrangedFollows(hash, b, s, mid, LossAt(s.fs, p.u, stamp, |a|));
      DepositLength(p.u, p.id);
      DepositActsLeave(mid, p.u, p.id, k - |a|);
      PartLeftFollows(hash, b, s, mid, g, p, LossAt(s.fs, p.u, stamp, |a|));
    }
  }

  /** After all of the clearing, nothing more is destroyed. */
  lemma LossGrows(fs: Fs, u: Upload, stamp: Stamp, k: nat)
    requires u.rel != [] && k >= |ClearActs(fs, u, stamp)|
    requires LossAt(fs, u, stamp, |ClearActs(fs, u, stamp)|) == ClearLoss(fs, u, stamp)
    ensures LossAt(fs, u, stamp, k) == ClearLoss(fs, u, stamp)
  {
    hide ClearLoss, ClearActs;
  }

  lemma DepositLength(u: Upload, id: string)
    ensures |DepositActs(u, id)| == 3
  {
  }

  // ---------- the whole commit ----------

  /** The outcome for all members but the last. */
  function Before(s: Store, localId: string, batch: seq<Pending>, clock: nat -> Stamp): Outcome
    requires batch != []
  {
    CommitAll(s, localId, batch[..|batch| - 1], clock)
  }

  /** The actions of the last member, decided on the state before it. */
  function LastActs(s: Store, localId: string, batch: seq<Pending>, clock: nat -> Stamp): seq<Act>
    requires batch != []
  {
    var p := batch[|batch| - 1];
    if p.u.rel == [] then []
      else CommitActs(Before(s, localId, batch, clock).store.fs, localId, p.u, p.id, clock(|batch| - 1))
  }

  /** The actions of the second phase, member by member. */
  function BatchActs(s: Store, localId: string, batch: seq<Pending>, clock: nat -> Stamp): seq<Act> {
    if batch == [] then [] else BatchActs(s, localId, batch[..|batch| - 1], clock) + LastActs(s, localId, batch, clock)
  }

  /** The members whose parts the first k actions have moved. */
  function Moved(s: Store, localId: string, batch: seq<Pending>, clock: nat -> Stamp, k: nat): seq<Pending> {
    if batch == [] then []
    else
      var n := |batch| - 1;
      var before := Before(s, localId, batch, clock);
      var done := |BatchActs(s, localId, batch[..n], clock)|;
      if k <= done || batch[n].u.rel == [] then Moved(s, localId, batch[..n], clock, k)
      else before.committed + MovedOne(before.store.fs, batch[n], clock(n), k - done)
  }

  /** What the first k actions have overwritten in the bin. */
  function Dropped(s: Store, localId: string, batch: seq<Pending>, clock: nat -> Stamp, k: nat): multiset<Bytes> {
    if batch == [] then multiset{}
    else
      var n := |batch| - 1;
      var before := Before(s, localId, batch, clock);
      var done := |BatchActs(s, localId, batch[..n], clock)|;
      if k <= done || batch[n].u.rel == [] then Dropped(s, localId, batch[..n], clock, k)
      else BatchLoss(s, localId, batch[..n], clock) + LossAt(before.store.fs, batch[n].u, clock(n), k - done)
  }

  lemma CommitDone(s: Store, localId: string, p: Pending, stamp: Stamp)
    requires Inv(s) && GoodUpload(p.u, p.id) && DateSeg(stamp.date)
    ensures CommitOne(s, localId, p, stamp).1
            <==> Clear(s.fs, localId, p.u, stamp).1 && PartPath(p.u.device, p.u.space, p.id) in s.fs
    ensures var acts := CommitActs(s.fs, localId, p.u, p.id, stamp);
            && MovedOne(s.fs, p, stamp, |acts|) == (if CommitOne(s, localId, p, stamp).1 then [p] else [])
            && LossAt(s.fs, p.u, stamp, |acts|) == MemberLoss(s.fs, p, stamp)
  {
    hide Clear, ClearActs, DepositActs, Deposit, DiskInv, ClearLoss, LossAt, CleanSeg, ValidUploadId, Rearranged,
      Emptied;
    InvTree(s);
    DepositLength(p.u, p.id);
    ClearedReady(s, localId, p, stamp);
    var a := ClearActs(s.fs, p.u, stamp);
    ClearActsSafe(s, localId, p.u, p.id, stamp, |a|);
    LossGrows(s.fs, p.u, stamp, |CommitActs(s.fs, localId, p.u, p.id, stamp)|);
  }

  lemma ClearedReady(s: Store, localId: string, p: Pending, stamp: Stamp)
    requires Inv(s) && GoodUpload(p.u, p.id) && DateSeg(stamp.date)
    ensures var (cleared, ok) := Clear(s.fs, localId, p.u, stamp);
            ok ==> (Deposit(cleared, p.u, p.id).Ok? <==> PartPath(p.u.device, p.u.space, p.id) in s.fs)
  {
    hide Clear, Deposit, DiskInv, ClearLoss, Copies, SameOwners, ChosenSlot, NothingOverwritten;
    InvTree(s);
    ClearLaw(s.fs, localId, p.u, p.id, stamp);
    ReadyToDeposit(s.fs, localId, p.u, p.id, stamp);
    var (cleared, ok) := Clear(s.fs, localId, p.u, stamp);
    ShuffleKeepsInv(s, cleared);
    if ok { DepositLaw(cleared, p.u, p.id); }
  }

  lemma NothingMoved(hash: Hash, b: set<Begun>, s: Store)
    requires Inv(s) && Known(hash, b, s) && Tidy(s.fs)
    ensures Follows(hash, b, s, s, [], multiset{})
  {
    hide Inv, Known, Tidy;
  }

  lemma PartStaysKnown(hash: Hash, b: set<Begun>, f: Fs, g: Fs, p: Pending)
    requires PartKnown(hash, b, f, p) && GoodUpload(p.u, p.id) && StagingShrinks(f, g)
    ensures PartKnown(hash, b, g, p)
    ensures var part := PartPath(p.u.device, p.u.space, p.id); part in g ==> part in f && g[part] == f[part]
  {
    OwnFilesStaged(p);
  }

  lemma FollowsMore(hash: Hash, b: set<Begun>, s: Store, mid: Store, g: Store, moved: seq<Pending>,
                    lost: multiset<Bytes>, more: seq<Pending>, also: multiset<Bytes>)
    requires Follows(hash, b, s, mid, moved, lost) && Follows(hash, b, mid, g, more, also)
    requires forall c :: Tally(mid.fs, more, c) == Tally(s.fs, more, c)
    ensures Follows(hash, b, s, g, moved + more, lost + also)
  {
    hide Inv, Known, Tidy, Copies;
    forall c { TallyAppend(s.fs, moved, more, c); }
  }

  /** The next member, after a whole number of others. */
  lemma MemberCrash(hash: Hash, b: set<Begun>, s: Store, localId: string, before: Store, moved: seq<Pending>,
                    lost: multiset<Bytes>, p: Pending, stamp: Stamp, k: nat)
    requires Follows(hash, b, s, before, moved, lost) && GoodUpload(p.u, p.id) && PartKnown(hash, b, s.fs, p)
    requires DateSeg(stamp.date) && k <= |CommitActs(before.fs, localId, p.u, p.id, stamp)|
    ensures Follows(hash, b, s, DoAll(before, CommitActs(before.fs, localId, p.u, p.id, stamp)[..k]),
                    moved + MovedOne(before.fs, p, stamp, k), lost + LossAt(before.fs, p.u, stamp, k))
  {
    var acts, more := CommitActs(before.fs, localId, p.u, p.id, stamp), MovedOne(before.fs, p, stamp, k);
    assert more == [] || (more == [p] && PartPath(p.u.device, p.u.space, p.id) in before.fs);
    hide DoAll, Inv, Known, Tidy, DateSeg, PartKnown, CommitActs, MovedOne, LossAt, Tally, StagingShrinks, Copies;
    PartStaysKnown(hash, b, s.fs, before.fs, p);
    OneCrashKeeps(hash, b, before, localId, p, stamp, k);
    forall c ensures Tally(before.fs, more, c) == Tally(s.fs, more, c) {
      TallyOne(before.fs, p, c);
      TallyOne(s.fs, p, c);
    }
    hide Follows;
    FollowsMore(hash, b, s, before, DoAll(before, acts[..k]), moved, lost, more, LossAt(before.fs, p.u, stamp, k));
  }

  lemma FollowsInv(hash: Hash, b: set<Begun>, s: Store, g: Store, moved: seq<Pending>, lost: multiset<Bytes>)
    requires Follows(hash, b, s, g, moved, lost)
    ensures Inv(g)
  {
  }

  /** The actions of a batch are those of all but its last member, and then its own. */
  lemma BatchSplits(s: Store, localId: string, batch: seq<Pending>, clock: nat -> Stamp, k: nat)
    requires batch != [] && batch[|batch| - 1].u.rel != [] && k <= |BatchActs(s, localId, batch, clock)|
    requires DoAll(s, BatchActs(s, localId, batch[..|batch| - 1], clock)) == Before(s, localId, batch, clock).store
    ensures var n := |batch| - 1;
            var front, before := batch[..n], Before(s, localId, batch, clock);
            var a, acts := BatchActs(s, localId, front, clock), BatchActs(s, localId, batch, clock);
            && |acts| == |a| + |LastActs(s, localId, batch, clock)|
            && (k <= |a| ==>
                  && DoAll(s, acts[..k]) == DoAll(s, a[..k])
                  && Moved(s, localId, batch, clock, k) == Moved(s, localId, front, clock, k)
                  && Dropped(s, localId, batch, clock, k) == Dropped(s, localId, front, clock, k))
            && (k > |a| ==>
                  && DoAll(s, acts[..k]) == DoAll(before.store, LastActs(s, localId, batch, clock)[..k - |a|])
                  && Moved(s, localId, batch, clock, k)
                     == before.committed + MovedOne(before.store.fs, batch[n], clock(n), k - |a|)
                  && Dropped(s, localId, batch, clock, k)
                     == BatchLoss(s, localId, front, clock) + LossAt(before.store.fs, batch[n].u, clock(n), k - |a|))
  {
    hide DoAll, Before, LastActs, MovedOne, LossAt, BatchLoss;
    var a := BatchActs(s, localId, batch[..|batch| - 1], clock);
    assert a[..|a|] == a;
    WithinAppend(s, a, LastActs(s, localId, batch, clock), k);
  }

  /** The last member's actions, run to the end, are its commit. */
  lemma LastEnds(s: Store, localId: string, batch: seq<Pending>, clock: nat -> Stamp)
    requires batch != [] && Inv(Before(s, localId, batch, clock).store)
    requires var p := batch[|batch| - 1]; GoodUpload(p.u, p.id) && DateSeg(clock(|batch| - 1).date)
    ensures var n := |batch| - 1;
            var before, c, o := Before(s, localId, batch, clock), LastActs(s, localId, batch, clock),
              CommitAll(s, localId, batch, clock);
            && o.store == DoAll(before.store, c)
            && o.committed == before.committed + MovedOne(before.store.fs, batch[n], clock(n), |c|)
            && BatchLoss(s, localId, batch, clock)
               == BatchLoss(s, localId, batch[..n], clock) + LossAt(before.store.fs, batch[n].u, clock(n), |c|)
  {
    hide DoAll, Inv, CommitOne, CommitActs, MovedOne, LossAt, MemberLoss, DateSeg, ValidUploadId, CleanSeg;
    var n := |batch| - 1;
    var before, c := Before(s, localId, batch, clock), LastActs(s, localId, batch, clock);
    CommitCrashSafe(before.store, localId, batch[n], clock(n), |c|);
    CommitDone(before.store, localId, batch[n], clock(n));
    assert c[..|c|] == c && before.committed + [] == before.committed;
  }

  lemma BatchEnds(s: Store, localId: string, batch: seq<Pending>, clock: nat -> Stamp)
    requires batch != [] && Inv(Before(s, localId, batch, clock).store)
    requires var p := batch[|batch| - 1]; GoodUpload(p.u, p.id) && DateSeg(clock(|batch| - 1).date)
    requires var front := batch[..|batch| - 1];
             var a := BatchActs(s, localId, front, clock);
             && DoAll(s, a) == Before(s, localId, batch, clock).store
             && Moved(s, localId, front, clock, |a|) == Before(s, localId, batch, clock).committed
             && Dropped(s, localId, front, clock, |a|) == BatchLoss(s, localId, front, clock)
    ensures var acts, o := BatchActs(s, localId, batch, clock), CommitAll(s, localId, batch, clock);
            && DoAll(s, acts) == o.store && Moved(s, localId, batch, clock, |acts|) == o.committed
            && Dropped(s, localId, batch, clock, |acts|) == BatchLoss(s, localId, batch, clock)
  {
    hide DoAll, Inv, CommitActs, MovedOne, LossAt, DateSeg, Moved, Dropped, BatchLoss, BatchActs, CommitAll,
      ValidUploadId, CleanSeg, LastActs, Before;
    var a, c, acts := BatchActs(s, localId, batch[..|batch| - 1], clock), LastActs(s, localId, batch, clock),
      BatchActs(s, localId, batch, clock);
    BatchSplits(s, localId, batch, clock, |acts|);
    LastEnds(s, localId, batch, clock);
    assert acts[..|acts|] == acts && c[..|c|] == c && a[..|a|] == a;
    if |c| == 0 {
      var before := Before(s, localId, batch, clock);
      assert c == [] && before.committed + [] == before.committed;
      NoActs(before.store);
      NoneMoved(before.store.fs, batch[|batch| - 1], clock(|batch| - 1));
    }
  }

  lemma NoneMoved(fs: Fs, p: Pending, stamp: Stamp)
    requires p.u.rel != []
    ensures MovedOne(fs, p, stamp, 0) == [] && LossAt(fs, p.u, stamp, 0) == multiset{}
  {
  }

  /** A crash anywhere in a commit, or a look at the state: the invariant, for the table too;
      provenance; and exactly the copies there were, plus those of the members whose parts had been
      moved, less the files of the bin overwritten by then. Run to the end, the actions are the commit,
      and those members the committed ones. */
  lemma {:induction false} BatchCrashSafe(hash: Hash, b: set<Begun>, s: Store, localId: string, batch: seq<Pending>,
                                          clock: nat -> Stamp, k: nat)
    requires Inv(s) && Known(hash, b, s) && Tidy(s.fs) && Dated(clock, |batch|)
    requires forall p <- batch :: GoodUpload(p.u, p.id) && PartKnown(hash, b, s.fs, p)
    requires k <= |BatchActs(s, localId, batch, clock)|
    ensures var g := DoAll(s, BatchActs(s, localId, batch, clock)[..k]);
            && Inv(Crashed(g))
            && Follows(hash, b, s, g, Moved(s, localId, batch, clock, k), Dropped(s, localId, batch, clock, k))
    ensures var acts, o := BatchActs(s, localId, batch, clock), CommitAll(s, localId, batch, clock);
            && DoAll(s, acts) == o.store && Moved(s, localId, batch, clock, |acts|) == o.committed
            && Dropped(s, localId, batch, clock, |acts|) == BatchLoss(s, localId, batch, clock)
    decreases |batch|
  {
    hide DoAll, Inv, Known, Tidy, DateSeg, GoodUpload, PartKnown, Follows, Crashed, BatchActs, Moved, Dropped,
      BatchLoss, CommitAll;
    var acts := BatchActs(s, localId, batch, clock);
    if batch == [] {
      EmptyBatch(hash, b, s, localId, batch, clock, k);
    } else {
      var front := batch[..|batch| - 1];
      var a := BatchActs(s, localId, front, clock);
      BatchCrashSafe(hash, b, s, localId, front, clock, |a|);
      assert a[..|a|] == a;
      FollowsInv(hash, b, s, DoAll(s, a), Moved(s, localId, front, clock, |a|), Dropped(s, localId, front, clock, |a|));
      if k < |a| { BatchCrashSafe(hash, b, s, localId, front, clock, k); }
      BatchCrashLast(hash, b, s, localId, batch, clock, k);
    }
    FollowsInv(hash, b, s, DoAll(s, acts[..k]), Moved(s, localId, batch, clock, k),
               Dropped(s, localId, batch, clock, k));
    CrashedKeeps(DoAll(s, acts[..k]));
  }

  lemma EmptyBatch(hash: Hash, b: set<Begun>, s: Store, localId: string, batch: seq<Pending>, clock: nat -> Stamp,
                   k: nat)
    requires batch == [] && Inv(s) && Known(hash, b, s) && Tidy(s.fs) && k <= |BatchActs(s, localId, batch, clock)|
    ensures var acts, o := BatchActs(s, localId, batch, clock), CommitAll(s, localId, batch, clock);
            && Follows(hash, b, s, DoAll(s, acts[..k]), Moved(s, localId, batch, clock, k),
                       Dropped(s, localId, batch, clock, k))
            && DoAll(s, acts) == o.store && Moved(s, localId, batch, clock, |acts|) == o.committed
            && Dropped(s, localId, batch, clock, |acts|) == BatchLoss(s, localId, batch, clock)
  {
    hide Inv, Known, Tidy, Follows;
    assert BatchActs(s, localId, batch, clock)[..k] == [];
    NothingMoved(hash, b, s);
  }

  /** The step from all but the last member to the whole batch. */
  lemma BatchCrashLast(hash: Hash, b: set<Begun>, s: Store, localId: string, batch: seq<Pending>, clock: nat -> Stamp,
                       k: nat)
    requires batch != [] && k <= |BatchActs(s, localId, batch, clock)|
    requires var p := batch[|batch| - 1];
             GoodUpload(p.u, p.id) && PartKnown(hash, b, s.fs, p) && DateSeg(clock(|batch| - 1).date)
    requires var front := batch[..|batch| - 1];
             var a := BatchActs(s, localId, front, clock);
             var j := if k <= |a| then k else |a|;
             && DoAll(s, a) == Before(s, localId, batch, clock).store
             && Moved(s, localId, front, clock, |a|) == Before(s, localId, batch, clock).committed
             && Dropped(s, localId, front, clock, |a|) == BatchLoss(s, localId, front, clock)
             && Follows(hash, b, s, DoAll(s, a[..j]), Moved(s, localId, front, clock, j),
                        Dropped(s, localId, front, clock, j))
             && Inv(Before(s, localId, batch, clock).store)
    ensures Follows(hash, b, s, DoAll(s, BatchActs(s, localId, batch, clock)[..k]), Moved(s, localId, batch, clock, k),
                    Dropped(s, localId, batch, clock, k))
    ensures var acts, o := BatchActs(s, localId, batch, clock), CommitAll(s, localId, batch, clock);
            && DoAll(s, acts) == o.store && Moved(s, localId, batch, clock, |acts|) == o.committed
            && Dropped(s, localId, batch, clock, |acts|) == BatchLoss(s, localId, batch, clock)
  {
    hide DoAll, Inv, CommitActs, MovedOne, LossAt, DateSeg, Moved, Dropped, BatchLoss, BatchActs, CommitAll,
      ValidUploadId, CleanSeg, Before, Follows, PartKnown;
    var n := |batch| - 1;
    var a, before := BatchActs(s, localId, batch[..n], clock), Before(s, localId, batch, clock);
    assert a[..|a|] == a;
    BatchSplits(s, localId, batch, clock, k);
    BatchEnds(s, localId, batch, clock);
    if k > |a| {
      MemberCrash(hash, b, s, localId, before.store, before.committed, BatchLoss(s, localId, batch[..n], clock),
                  batch[n], clock(n), k - |a|);
    }
  }

  /** A commit cut off after k actions of its second phase. */
  function CommitCut(hash: Hash, s: Store, localId: string, ids: seq<string>, clock: nat -> Stamp, k: nat): Store {
    match Verify(hash, s, ids)
    case Err(_) => s
    case Ok(batch) => DoAll(s, Upto(BatchActs(s, localId, batch, clock), k))
  }

  /** The members whose parts it had moved by then. */
  function CommitMoved(hash: Hash, s: Store, localId: string, ids: seq<string>, clock: nat -> Stamp, k: nat)
    : seq<Pending>
  {
    match Verify(hash, s, ids)
    case Err(_) => []
    case Ok(batch) =>
      var n := |BatchActs(s, localId, batch, clock)|;
      Moved(s, localId, batch, clock, if k <= n then k else n)
  }

  /** What it had overwritten in the bin by then. */
  function CommitDropped(hash: Hash, s: Store, localId: string, ids: seq<string>, clock: nat -> Stamp, k: nat)
    : multiset<Bytes>
  {
    match Verify(hash, s, ids)
    case Err(_) => multiset{}
    case Ok(batch) =>
      var n := |BatchActs(s, localId, batch, clock)|;
      Dropped(s, localId, batch, clock, if k <= n then k else n)
  }

  /** A commit of any ids at all, cut off anywhere or run to the end. */
  lemma CommitCutKeeps(hash: Hash, b: set<Begun>, s: Store, localId: string, ids: seq<string>, clock: nat -> Stamp,
                       k: nat)
    requires Inv(s) && Known(hash, b, s) && Tidy(s.fs) && Dated(clock, |ids|)
    ensures Follows(hash, b, s, CommitCut(hash, s, localId, ids, clock, k),
                    CommitMoved(hash, s, localId, ids, clock, k),
                    CommitDropped(hash, s, localId, ids, clock, k))
    ensures Inv(Crashed(CommitCut(hash, s, localId, ids, clock, k)))
    ensures Tidy(Commit(hash, s, localId, ids, clock).0.fs)
  {
    hide DateSeg, Known, Inv, Tidy, DoAll, BatchActs, Moved, Dropped, BatchLoss, Verify, Follows, Crashed, CommitAll;
    if Verify(hash, s, ids).Ok? {
      var batch := Verify(hash, s, ids).value;
      VerifyChecks(hash, s, ids);
      BatchKnown(hash, b, s, batch);
      var acts := BatchActs(s, localId, batch, clock);
      BatchCrashSafe(hash, b, s, localId, batch, clock, if k <= |acts| then k else |acts|);
      BatchCrashSafe(hash, b, s, localId, batch, clock, |acts|);
      assert acts[..|acts|] == acts;
      FollowsTidy(hash, b, s, DoAll(s, acts), Moved(s, localId, batch, clock, |acts|),
                  Dropped(s, localId, batch, clock, |acts|));
    } else {
      NothingMoved(hash, b, s);
      CrashedKeeps(s);
    }
  }

  lemma FollowsTidy(hash: Hash, b: set<Begun>, s: Store, g: Store, moved: seq<Pending>, lost: multiset<Bytes>)
    requires Follows(hash, b, s, g, moved, lost)
    ensures Tidy(g.fs)
  {
  }

  // ---------- the whole of gc_staging ----------

  /** One upload as the collector finds it. */
  datatype Collected = Collected(device: string, space: string, id: string)

  /** The collector's actions, for uploads in the order it comes upon them. */
  function SweepActs(order: seq<Collected>): seq<Act> {
    if order == [] then []
    else
      var c := order[|order| - 1];
      SweepActs(order[..|order| - 1]) + CollectActs(c.device, c.space, c.id)
  }

  /** g has lost staging files, and nothing else. */
  ghost predicate Swept(f: Fs, g: Fs) {
    LiveSame(f, g) && forall p <- g :: p in f && g[p] == f[p]
  }

  lemma SweptTrans(f: Fs, g: Fs, h: Fs)
    requires Swept(f, g) && Swept(g, h)
    ensures Swept(f, h)
  {
  }

  lemma SweptUnlink(f: Fs, g: Fs, p: Path)
    requires Swept(f, g) && Staged(p)
    ensures Swept(f, RemoveFile(g, p))
  {
  }

  lemma CollectLeaves(s: Store, c: Collected, k: nat)
    requires Inv(s) && IsValidDeviceId(c.device) && k <= 3
    ensures var g := DoAll(s, CollectActs(c.device, c.space, c.id)[..k]); Inv(g) && Swept(s.fs, g.fs)
  {
    hide DoAll, Inv, LiveSame, RemoveFile;
    CollectCrashSafe(s, c.device, c.space, c.id, k);
    SessionStaged(c);
    LiveSameSelf(s.fs);
    var acts := CollectActs(c.device, c.space, c.id);
    if k == 0 { assert acts[..0] == []; NoActs(s); } else { DoFirst(s, acts, k); }
    var part, meta := PartPath(c.device, c.space, c.id), MetaPath(c.device, c.space, c.id);
    SweptUnlink(s.fs, s.fs, part);
    SweptUnlink(s.fs, RemoveFile(s.fs, part), meta);
  }

  lemma SessionStaged(c: Collected)
    requires IsValidDeviceId(c.device)
    ensures Staged(PartPath(c.device, c.space, c.id)) && Staged(MetaPath(c.device, c.space, c.id))
  {
    assert c.device[0] != '.';
  }

  /** A crash anywhere in a collection, whatever it collects and in whatever order: the whole
      invariant holds, and staging files are all that has gone. */
  lemma {:induction false} SweepCrashSafe(s: Store, order: seq<Collected>, k: nat)
    requires Inv(s) && (forall c <- order :: IsValidDeviceId(c.device)) && k <= |SweepActs(order)|
    ensures var g := DoAll(s, SweepActs(order)[..k]); Inv(g) && Inv(Crashed(g)) && Swept(s.fs, g.fs)
    decreases |order|
  {
    hide DoAll, Inv, Crashed, Swept, CollectActs;
    var acts := SweepActs(order);
    if order == [] {
      assert acts[..k] == [];
      NoActs(s);
      SweptSelf(s.fs);
    } else {
      var c, a := order[|order| - 1], SweepActs(order[..|order| - 1]);
      WithinAppend(s, a, CollectActs(c.device, c.space, c.id), k);
      if k <= |a| {
        SweepCrashSafe(s, order[..|order| - 1], k);
      } else {
        SweepCrashSafe(s, order[..|order| - 1], |a|);
        CollectLength(c);
        CollectLeaves(DoAll(s, a[..|a|]), c, k - |a|);
        SweptTrans(s.fs, DoAll(s, a[..|a|]).fs, DoAll(s, acts[..k]).fs);
      }
    }
    CrashedKeeps(DoAll(s, acts[..k]));
  }

  lemma SweptSelf(f: Fs)
    ensures Swept(f, f)
  {
  }

  lemma CollectLength(c: Collected)
    ensures |CollectActs(c.device, c.space, c.id)| == 3
  {
  }

  /** A file of one of these uploads. */
  ghost predicate FileOf(order: seq<Collected>, p: Path) {
    exists c <- order :: p == PartPath(c.device, c.space, c.id) || p == MetaPath(c.device, c.space, c.id)
  }

  predicate IdAmong(order: seq<Collected>, id: string) {
    exists c <- order :: c.id == id
  }

  ghost predicate GoneFrom(order: seq<Collected>, s: Store, g: Store) {
    && (forall p :: p in g.fs <==> p in s.fs && !FileOf(order, p))
    && (forall p <- g.fs :: g.fs[p] == s.fs[p])
    && (forall id :: id in g.uploads <==> id in s.uploads && !IdAmong(order, id))
    && (forall id <- g.uploads :: g.uploads[id] == s.uploads[id])
  }

  lemma CollectAll(s: Store, c: Collected)
    requires StagingShape(s.fs) && IsValidDeviceId(c.device)
    ensures GoneFrom([c], s, DoAll(s, CollectActs(c.device, c.space, c.id)))
  {
    hide StagingShape, DoAll, PartPath, MetaPath;
    var acts := CollectActs(c.device, c.space, c.id);
    SessionNode(s.fs, c.device, c.space, c.id);
    PathsApart(c.device, c.space, c.id, c.device, c.space, c.id);
    assert acts[..3] == acts;
    DoFirst(s, acts, 3);
    OnlyFiles(c);
  }

  lemma OnlyFiles(c: Collected)
    ensures forall p ::
              FileOf([c], p) <==> p == PartPath(c.device, c.space, c.id) || p == MetaPath(c.device, c.space, c.id)
    ensures forall id :: IdAmong([c], id) <==> id == c.id
  {
    assert c in [c];
    hide PartPath, MetaPath;
  }

  lemma GoneMore(s: Store, f: Store, g: Store, a: seq<Collected>, b: seq<Collected>)
    requires GoneFrom(a, s, f) && GoneFrom(b, f, g)
    ensures GoneFrom(a + b, s, g)
  {
    hide PartPath, MetaPath;
    forall p ensures FileOf(a + b, p) <==> FileOf(a, p) || FileOf(b, p) {
      if FileOf(a, p) || FileOf(b, p) {
        var c :| (c in a || c in b)
          && (p == PartPath(c.device, c.space, c.id) || p == MetaPath(c.device, c.space, c.id));
        assert c in a + b;
      }
    }
    forall id ensures IdAmong(a + b, id) <==> IdAmong(a, id) || IdAmong(b, id) {
      if IdAmong(a, id) || IdAmong(b, id) {
        var c :| (c in a || c in b) && c.id == id;
        assert c in a + b;
      }
    }
  }

  lemma {:induction false} SweepGone(s: Store, order: seq<Collected>)
    requires Inv(s) && forall c <- order :: IsValidDeviceId(c.device)
    ensures GoneFrom(order, s, DoAll(s, SweepActs(order)))
  {
    hide DoAll, Inv, GoneFrom, CollectActs;
    if order == [] {
      NoActs(s);
      NoneGone(s);
    } else {
      var front, c := order[..|order| - 1], order[|order| - 1];
      var a := SweepActs(front);
      SweepGone(s, front);
      SweepCrashSafe(s, front, |a|);
      assert a[..|a|] == a && front + [c] == order;
      var mid := DoAll(s, a);
      DoAllAppend(s, a, CollectActs(c.device, c.space, c.id));
      InvShape(mid);
      CollectAll(mid, c);
      GoneMore(s, mid, DoAll(s, SweepActs(order)), front, [c]);
    }
  }

  lemma NoneGone(s: Store)
    ensures GoneFrom([], s, s)
  {
  }

  lemma InvShape(s: Store)
    requires Inv(s)
    ensures StagingShape(s.fs)
  {
  }

  /** Run to the end over the stale uploads, in any order, the actions are gc_staging. */
  lemma SweepActsRefine(s: Store, order: seq<Collected>, deadline: int)
    requires Inv(s) && forall d, t, id :: Stale(s.fs, d, t, id, deadline) <==> Collected(d, t, id) in order
    ensures GcStagingDone(s, DoAll(s, SweepActs(order)), deadline)
  {
    hide DoAll, Inv, GoneFrom, FileOf, StaleFile;
    forall c <- order ensures IsValidDeviceId(c.device) { assert Stale(s.fs, c.device, c.space, c.id, deadline); }
    hide Stale;
    SweepGone(s, order);
    forall p ensures FileOf(order, p) <==> StaleFile(s.fs, p, deadline) { FileIsStale(s.fs, order, deadline, p); }
    StaleGone(s, DoAll(s, SweepActs(order)), order, deadline);
  }

  lemma StaleGone(s: Store, g: Store, order: seq<Collected>, deadline: int)
    requires GoneFrom(order, s, g) && forall p :: FileOf(order, p) <==> StaleFile(s.fs, p, deadline)
    requires forall d, t, id :: Stale(s.fs, d, t, id, deadline) <==> Collected(d, t, id) in order
    ensures GcStagingDone(s, g, deadline)
  {
    hide FileOf, StaleFile, Stale;
    forall id ensures IdAmong(order, id) ==> exists d, t :: Stale(s.fs, d, t, id, deadline) {
      if IdAmong(order, id) {
        var c :| c in order && c.id == id;
        assert Stale(s.fs, c.device, c.space, id, deadline);
      }
    }
    forall d, t, id | Stale(s.fs, d, t, id, deadline)
      ensures IdAmong(order, id)
    {
      assert Collected(d, t, id) in order;
    }
  }

  lemma FileIsStale(fs: Fs, order: seq<Collected>, deadline: int, p: Path)
    requires forall d, t, id :: Stale(fs, d, t, id, deadline) <==> Collected(d, t, id) in order
    ensures FileOf(order, p) <==> StaleFile(fs, p, deadline)
  {
    hide Stale, PartPath, MetaPath;
    if FileOf(order, p) {
      var c :| c in order && (p == PartPath(c.device, c.space, c.id) || p == MetaPath(c.device, c.space, c.id));
      assert Stale(fs, c.device, c.space, c.id, deadline);
    }
    if StaleFile(fs, p, deadline) {
      var d, t, id :| Stale(fs, d, t, id, deadline) && (p == PartPath(d, t, id) || p == MetaPath(d, t, id));
      assert Collected(d, t, id) in order;
    }
  }
}
