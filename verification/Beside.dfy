/** What happens to a node beside requests that run to their end: deletes by its administrator, and requests cut off
    after their last action. */
module Beside {
  import opened Paths
  import opened FileSystem
  import opened Layout
  import opened Recycle
  import opened Staging
  import opened StagingLaws
  import opened CommitLaws
  import opened BatchLaws
  import opened Provenance
  import opened Tidiness
  import opened Crash
  import R = CrashRuns
  import opened Host
  import opened HostRun
  import opened Requests
  import opened Deleting
  import P = Protocol

  /** A delete by the administrator reaches every space of every device, and is otherwise a delete like any other. */
  lemma AdminDeleteLaw(site: Site, s: State, device: string, space: string, path: string, stamp: Stamp)
    requires IsTree(s.store.fs) && DateSeg(stamp.date)
    ensures var after := Next(site, s, AdminDelete(device, space, path, stamp));
            var was, now := s.store.fs, after.store.fs;
            && after == s.(store := s.store.(fs := now))
            && if !HexId(device) || !SpaceName(space) || Normalize(path).Err? then now == was
               else
                 var rel := Normalize(path).value;
                 var from, to := [device, space] + rel, BinPlace(was, stamp, device, space, rel);
                 if TildeOrDrive(rel[0]) || from !in was || !RoomAt(was, from, to) then now == was
                 else Moved(was, now, from, to) && OthersSame(was, now, device)
  {
    hide IsTree, IsValidDeviceId, IsValidSpace, DateSeg, CleanSeg, MoveToRecycle, Moved, OthersSame, RoomAt,
      TildeOrDrive, BinName, BinPlace, Normalize, HexId, SpaceName;
    HexIdIs(device);
    SpaceIsName(space);
    if IsValidDeviceId(device) && IsValidSpace(space) && Normalize(path).Ok? {
      NormalizedIsClean(path);
      Recycling(s.store.fs, site.localId, device, space, Normalize(path).value, stamp);
    }
  }

  lemma SpaceIsName(space: string)
    ensures SpaceName(space) <==> IsValidSpace(space)
  {
  }

  /** How many actions a commit takes. */
  function CommitLength(hash: Hash, s: Store, localId: string, ids: seq<string>, clock: nat -> Stamp): nat {
    match Verify(hash, s, ids)
    case Err(_) => 0
    case Ok(batch) => |R.BatchActs(s, localId, batch, clock)|
  }

  lemma CommitCutEnds(hash: Hash, b: set<Begun>, s: Store, localId: string, ids: seq<string>, clock: nat -> Stamp,
                      k: nat)
    requires Inv(s) && Known(hash, b, s) && Tidy(s.fs) && Dated(clock, |ids|)
    requires k >= CommitLength(hash, s, localId, ids, clock)
    ensures R.CommitCut(hash, s, localId, ids, clock, k) == Commit(hash, s, localId, ids, clock).0
  {
    hide DateSeg, Known, Inv, Tidy, DoAll, R.BatchActs, Verify, CommitAll, GoodUpload, PartKnown, Checked;
    if Verify(hash, s, ids).Ok? {
      var batch := Verify(hash, s, ids).value;
      VerifyChecks(hash, s, ids);
      BatchKnown(hash, b, s, batch);
      ActsEnd(hash, b, s, localId, batch, clock);
      var acts := R.BatchActs(s, localId, batch, clock);
      assert acts[..|acts|] == acts;
    }
  }

  lemma ActsEnd(hash: Hash, b: set<Begun>, s: Store, localId: string, batch: seq<Pending>, clock: nat -> Stamp)
    requires Inv(s) && Known(hash, b, s) && Tidy(s.fs) && Dated(clock, |batch|)
    requires forall p <- batch :: GoodUpload(p.u, p.id) && PartKnown(hash, b, s.fs, p)
    ensures DoAll(s, R.BatchActs(s, localId, batch, clock)) == CommitAll(s, localId, batch, clock).store
  {
    hide Dated, Known, Inv, Tidy, DoAll, R.BatchActs, CommitAll, GoodUpload, PartKnown, R.Follows, R.Moved, R.Dropped,
      BatchLoss, Crashed;
    R.BatchCrashSafe(hash, b, s, localId, batch, clock, |R.BatchActs(s, localId, batch, clock)|);
  }

  /** A begin cut off after its last action is that request followed by the end of the process. */
  lemma BeginCutAtEnd(site: Site, s: State, f: P.Frame, caller: string, loopback: bool, inp: Inputs, k: nat, at: int)
    requires Inv(s.store) && HexId(caller) && f.op == P.WriteBegin && k >= 4
    requires Permitted(f, caller, loopback) && s.pointer.master == site.localId
    ensures Next(site, s, Cut(f, caller, P.Trust.Owner, loopback, inp, k, at)).store
            == Store(Next(site, s, Call(f, caller, P.Trust.Owner, loopback, inp)).store.fs, map[])
  {
    hide HexId, Inv, R.BeginCut, Begin, IsValidDeviceId;
    HexIdIs(caller);
    R.BeginCutIs(s.store, caller, f.space, f.path, f.size, f.sha, UploadId(f, inp), inp.now, k);
  }

  /** A commit cut off after its last action is that request followed by the end of the process. */
  lemma CommitCutAtEnd(site: Site, b: set<Begun>, s: State, f: P.Frame, caller: string, loopback: bool, inp: Inputs,
                       ids: seq<string>, k: nat, at: int)
    requires Inv(s.store) && Known(site.reader.hash, b, s.store) && Tidy(s.store.fs) && f.op == P.Op.Commit
    requires Names(f, ids) && Dated(inp.clock, |ids|)
             && k >= CommitLength(site.reader.hash, s.store, site.localId, ids, inp.clock)
    requires Permitted(f, caller, loopback) && s.pointer.master == site.localId
    ensures Next(site, s, Cut(f, caller, P.Trust.Owner, loopback, inp, k, at)).store
            == Store(Next(site, s, Call(f, caller, P.Trust.Owner, loopback, inp)).store.fs, map[])
  {
    hide HexId, Known, Inv, Tidy, Dated, R.CommitCut, Commit, CommitLength, IsValidDeviceId;
    assert BatchIds(f) == ids;
    CommitCutEnds(site.reader.hash, b, s.store, site.localId, ids, inp.clock, k);
  }
}
