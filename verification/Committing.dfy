/** What a commit request answers: which uploads it is about, what became of each, and that they read back. */
module Committing {
  import opened Wrappers
  import opened Paths
  import opened FileSystem
  import opened Layout
  import opened Recycle
  import opened Staging
  import opened StagingLaws
  import opened CommitLaws
  import opened BatchLaws
  import opened Fidelity
  import opened Host
  import opened Requests
  import opened Uploading
  import opened Deleting
  import opened RecycleLaws
  import L = Looking
  import Runs = StoreRun
  import P = Protocol

  // ---------- the ids of a commit ----------

  /** Two lists put together, each in its order, give the whole. */
  predicate Interleaved(whole: seq<string>, a: seq<string>, b: seq<string>) {
    if whole == [] then a == [] && b == []
    else
      var n := |whole| - 1;
      || (a != [] && a[|a| - 1] == whole[n] && Interleaved(whole[..n], a[..|a| - 1], b))
      || (b != [] && b[|b| - 1] == whole[n] && Interleaved(whole[..n], a, b[..|b| - 1]))
  }

  function Ids(members: seq<Pending>): (ids: seq<string>)
    ensures |ids| == |members| && forall i :: 0 <= i < |ids| ==> ids[i] == members[i].id
  {
    seq(|members|, i requires 0 <= i < |members| => members[i].id)
  }

  lemma {:induction false} TurnsInterleave(s: Store, localId: string, batch: seq<Pending>, clock: nat -> Stamp)
    ensures var o := CommitAll(s, localId, batch, clock);
            Interleaved(Ids(batch), Ids(o.committed), o.failed) && forall p <- o.committed :: p in batch
  {
    hide CommitOne;
    if batch != [] {
      var n := |batch| - 1;
      TurnsInterleave(s, localId, batch[..n], clock);
      var before, o := CommitAll(s, localId, batch[..n], clock), CommitAll(s, localId, batch, clock);
      assert Ids(batch)[..n] == Ids(batch[..n]);
      if |o.committed| > |before.committed| {
        assert Ids(o.committed)[..|o.committed| - 1] == Ids(before.committed);
      } else {
        assert o.failed[..|o.failed| - 1] == before.failed;
      }
    }
  }

  // ---------- the first phase ----------

  /** Everything of this upload is there, as declared. */
  ghost predicate Complete(hash: Hash, s: Store, id: string) {
    && id in s.uploads
    && var u := s.uploads[id];
       var part := PartPath(u.device, u.space, id);
       part in s.fs && s.fs[part].Blob? && |s.fs[part].data| == u.size && hash(s.fs[part].data) == u.sha
  }

  /** What is wrong with one that is not complete. */
  function Fault(s: Store, id: string): OpError {
    if !UploadName(id) then BadOp
    else if id !in s.uploads then StagingState
    else if PartPath(s.uploads[id].device, s.uploads[id].space, id) !in s.fs then Internal
    else HashMismatch
  }

  lemma MemberFault(hash: Hash, s: Store, id: string)
    requires Inv(s)
    ensures VerifyOne(hash, s, id).Ok? <==> Complete(hash, s, id)
    ensures !Complete(hash, s, id) ==> VerifyOne(hash, s, id) == Err(Fault(s, id))
  {
    VerifiesIff(hash, s, id);
    UploadNameIs(id);
    hide IsHexSha256, ValidUploadId, IsValidDeviceId, IsValidSpace, Clean, IsTree, StagingShape, PartHasMeta,
      UploadName;
    if id in s.uploads {
      assert EntryOk(s.fs, id, s.uploads[id]);
    }
  }

  lemma {:induction false} VerifiesAll(hash: Hash, s: Store, ids: seq<string>)
    requires Inv(s) && forall id <- ids :: Complete(hash, s, id)
    ensures Verify(hash, s, ids).Ok?
  {
    hide VerifyOne, Complete, Inv;
    if ids != [] {
      MemberFault(hash, s, ids[0]);
      VerifiesAll(hash, s, ids[1..]);
    }
  }

  lemma {:induction false} VerifyStops(hash: Hash, s: Store, ids: seq<string>, k: nat)
    requires Inv(s) && k < |ids| && (forall j :: 0 <= j < k ==> Complete(hash, s, ids[j]))
    requires !Complete(hash, s, ids[k])
    ensures Verify(hash, s, ids) == Err(Fault(s, ids[k]))
  {
    hide VerifyOne, Complete, Inv, Fault;
    MemberFault(hash, s, ids[0]);
    if k > 0 {
      VerifyStops(hash, s, ids[1..], k - 1);
    }
  }

  // ---------- the reply ----------

  /** A member reported as committed is as the table had it, with the size and hash of its part. */
  ghost predicate Reported(hash: Hash, s: Store, p: Pending) {
    && p.id in s.uploads && p.u == s.uploads[p.id]
    && var part := PartPath(p.u.device, p.u.space, p.id);
       part in s.fs && s.fs[part].Blob? && p.size == |s.fs[part].data| == p.u.size
       && p.sum == hash(s.fs[part].data) == p.u.sha
  }

  lemma CommitBy(site: Site, s: State, f: P.Frame, caller: string, trust: P.Trust, loopback: bool, inp: Inputs,
                 ids: seq<string>)
    requires MayWrite(site, s, f, caller, trust) && f.op == P.Op.Commit && Names(f, ids)
    ensures var (store, r) := Commit(site.reader.hash, s.store, site.localId, ids, inp.clock);
            var (after, reply) := Handle(site, s, f, caller, trust, loopback, inp);
            match r
            case Err(e) => (after, reply) == (s.(store := store), Err(e))
            case Ok(o) =>
              && after == s.(store := store, cursors := after.cursors)
              && reply.Ok? && reply.value.Batch? && reply.value.committed == o.committed
                 && reply.value.failed == o.failed
              && Credits(s.cursors, after.cursors, caller, if o.failed == [] then f.upto else None, reply.value.applied)
  {
    hide Commit, HexId, TurnedAway;
    WritesLetIn(site, s, f, caller, loopback, inp);
    assert BatchIds(f) == ids;
    hide Handle;
  }

  lemma BatchReported(hash: Hash, s: Store, ids: seq<string>, p: Pending)
    requires Inv(s) && Verify(hash, s, ids).Ok? && p in Verify(hash, s, ids).value
    ensures Reported(hash, s, p)
  {
    hide Inv, Verify, GoodUpload;
    VerifyChecks(hash, s, ids);
    assert Checked(hash, s, p);
    EntryDeclares(s, p.id);
  }

  lemma EntryDeclares(s: Store, id: string)
    requires Inv(s) && id in s.uploads
    ensures var u := s.uploads[id];
            PartPath(u.device, u.space, id) in s.fs ==>
              var meta := MetaPath(u.device, u.space, id);
              meta in s.fs && s.fs[meta].Meta? && s.fs[meta].meta.size == u.size && s.fs[meta].meta.sha == u.sha
  {
    assert EntryOk(s.fs, id, s.uploads[id]);
  }

  lemma IdsOfBatch(hash: Hash, s: Store, ids: seq<string>)
    requires Inv(s) && Verify(hash, s, ids).Ok?
    ensures Ids(Verify(hash, s, ids).value) == ids
  {
    hide Inv, Verify, Checked;
    VerifyChecks(hash, s, ids);
  }

  /** What a commit that went through its first phase answers. */
  ghost predicate Answered(hash: Hash, s: Store, ids: seq<string>, a: Answer) {
    && a.Batch? && Interleaved(ids, Ids(a.committed), a.failed)
    && forall p <- a.committed :: Reported(hash, s, p)
  }

  /** commit: the first id named whose upload is not complete is the error, and then nothing has changed; if all
      are complete, committed and failed together are exactly the ids named, in order, and the caller is credited
      if none failed. The files are those of the batch commit of these ids. */
  lemma CommitLaw(site: Site, s: State, f: P.Frame, caller: string, trust: P.Trust, loopback: bool, inp: Inputs,
                  ids: seq<string>)
    requires MayWrite(site, s, f, caller, trust) && f.op == P.Op.Commit && Names(f, ids) && Inv(s.store)
    ensures var (after, r) := Handle(site, s, f, caller, trust, loopback, inp);
            && (forall k | 0 <= k < |ids| && !Complete(site.reader.hash, s.store, ids[k])
                           && (forall j :: 0 <= j < k ==> Complete(site.reader.hash, s.store, ids[j])) ::
                  after == s && r == Err(Fault(s.store, ids[k])))
            && ((forall id <- ids :: Complete(site.reader.hash, s.store, id)) ==>
                  && r.Ok? && Answered(site.reader.hash, s.store, ids, r.value)
                  && after == s.(store := Commit(site.reader.hash, s.store, site.localId, ids, inp.clock).0,
                                 cursors := after.cursors)
                  && Credits(s.cursors, after.cursors, caller, if r.value.failed == [] then f.upto else None,
                             r.value.applied))
  {
    hide Inv, Handle, MayWrite, Complete, Fault, Credits, Reported, Interleaved, CommitAll, Verify;
    CommitBy(site, s, f, caller, trust, loopback, inp, ids);
    forall k | 0 <= k < |ids| && !Complete(site.reader.hash, s.store, ids[k])
               && (forall j :: 0 <= j < k ==> Complete(site.reader.hash, s.store, ids[j]))
      ensures Verify(site.reader.hash, s.store, ids) == Err(Fault(s.store, ids[k]))
    {
      VerifyStops(site.reader.hash, s.store, ids, k);
    }
    if forall id <- ids :: Complete(site.reader.hash, s.store, id) {
      VerifiesAll(site.reader.hash, s.store, ids);
      CommitAnswers(site.reader.hash, s.store, site.localId, ids, inp.clock);
    }
  }

  lemma CommitAnswers(hash: Hash, s: Store, localId: string, ids: seq<string>, clock: nat -> Stamp)
    requires Inv(s) && Verify(hash, s, ids).Ok?
    ensures var r := Commit(hash, s, localId, ids, clock).1;
            r.Ok? && Interleaved(ids, Ids(r.value.committed), r.value.failed)
            && forall p <- r.value.committed :: Reported(hash, s, p)
  {
    hide Inv, Reported, Interleaved, CommitAll, Verify;
    var batch := Verify(hash, s, ids).value;
    TurnsInterleave(s, localId, batch, clock);
    IdsOfBatch(hash, s, ids);
    forall p | p in CommitAll(s, localId, batch, clock).committed ensures Reported(hash, s, p) {
      BatchReported(hash, s, ids, p);
    }
  }

  // ---------- one member's turn ----------

  /** There is room for the upload: its destination is free and can be reached, or what stands there can be moved to
      its place in the bin. */
  ghost predicate Room(fs: Fs, u: Upload, stamp: Stamp)
    requires u.rel != []
  {
    var dest := Destination(u);
    if dest in fs then !TildeOrDrive(u.rel[0]) && RoomAt(fs, dest, BinPlace(fs, stamp, u.device, u.space, u.rel))
    else CanMkdirs(fs, Parent(dest))
  }

  /** The part has become the file at its free destination; its meta file is gone; directories may be new. */
  ghost predicate Placed(was: Fs, now: Fs, part: Path, meta: Path, dest: Path) {
    && part in was && dest in now && now[dest] == was[part] && part !in now && meta !in now
    && (forall p <- was | p != part && p != meta :: p in now && now[p] == was[p])
    && (forall p <- now | p != dest && p !in was :: now[p] == Dir && p < dest)
  }

  /** The same with what stood at the destination moved to a place in the bin, node for node. */
  ghost predicate Replacing(was: Fs, now: Fs, part: Path, meta: Path, dest: Path, slot: Path) {
    && part in was && dest in now && now[dest] == was[part] && part !in now && meta !in now
    && (forall q <- now | dest <= q :: q == dest)
    && (forall q <- was | dest <= q :: Relocated(dest, slot, q) in now && now[Relocated(dest, slot, q)] == was[q])
    && (forall q <- now | slot <= q :: Relocated(slot, dest, q) in was)
    && (forall q <- was | !(dest <= q) && q != slot && q != part && q != meta :: q in now && now[q] == was[q])
    && (forall q <- now | q !in was && q != dest && !(slot <= q) :: now[q] == Dir && q < slot)
  }

  /** A turn succeeds exactly when the part is there and there is room, and then the upload has left the table for its
      destination. One without room changes nothing; one without a part only makes room. */
  ghost predicate Turn(f: Store, g: Store, p: Pending, stamp: Stamp, done: bool)
    requires p.u.rel != []
  {
    var part, meta, dest := PartPath(p.u.device, p.u.space, p.id), MetaPath(p.u.device, p.u.space, p.id),
                            Destination(p.u);
    var slot := BinPlace(f.fs, stamp, p.u.device, p.u.space, p.u.rel);
    && (done <==> part in f.fs && Room(f.fs, p.u, stamp))
    && (!Room(f.fs, p.u, stamp) ==> g == f)
    && (done ==> g.uploads == f.uploads - {p.id})
    && (done && dest !in f.fs ==> Placed(f.fs, g.fs, part, meta, dest))
    && (done && dest in f.fs ==> Replacing(f.fs, g.fs, part, meta, dest, slot))
    && (part !in f.fs ==> g.uploads == f.uploads)
    && (part !in f.fs && Room(f.fs, p.u, stamp) && dest in f.fs ==> Moved(f.fs, g.fs, dest, slot))
    && (part !in f.fs && Room(f.fs, p.u, stamp) && dest !in f.fs ==> g.fs == Mkdirs(f.fs, Parent(dest)))
  }

  lemma TurnToFree(s: Store, localId: string, p: Pending, stamp: Stamp)
    requires Inv(s) && GoodUpload(p.u, p.id) && Destination(p.u) !in s.fs
    ensures var (after, done) := CommitOne(s, localId, p, stamp); Turn(s, after, p, stamp, done)
  {
    hide Deposit, MoveToRecycle, Inv, Placed, GoodUpload, DiskInv, CanMkdirs, Mkdirs, PartMoved, PartPath, MetaPath,
      Replacing, Moved, RoomAt, BinPlace, TildeOrDrive;
    var part, meta, dest := PartPath(p.u.device, p.u.space, p.id), MetaPath(p.u.device, p.u.space, p.id),
                            Destination(p.u);
    StagedApart(p);
    assert s.(fs := s.fs) == s;
    if CanMkdirs(s.fs, Parent(dest)) {
      var made := Mkdirs(s.fs, Parent(dest));
      StillFree(s.fs, dest);
      assert Clear(s.fs, localId, p.u, stamp) == (made, true);
      MadeInv(s, dest);
      NothingAt(made, dest);
      DepositLaw(made, p.u, p.id);
      WayUnstaged(s.fs, dest);
      PartIn(s.fs, made, p.u.device, p.u.space, p.id);
      if part in s.fs { PlacedFrom(s.fs, Deposit(made, p.u, p.id).value, part, meta, dest); }
    }
  }

  lemma StillFree(fs: Fs, dest: Path)
    requires dest != [] && dest !in fs
    ensures dest !in Mkdirs(fs, Parent(dest))
  {
  }

  lemma PartIn(f: Fs, g: Fs, d: string, t: string, id: string)
    requires forall q <- f :: q in g
    requires forall d, t, id :: PartPath(d, t, id) in g ==> PartPath(d, t, id) in f
    ensures PartPath(d, t, id) in g <==> PartPath(d, t, id) in f
  {
  }

  lemma TurnOnto(s: Store, localId: string, p: Pending, stamp: Stamp)
    requires Inv(s) && GoodUpload(p.u, p.id) && DateSeg(stamp.date) && Destination(p.u) in s.fs
    ensures p.u.rel != []
    ensures var (after, done) := CommitOne(s, localId, p, stamp); Turn(s, after, p, stamp, done)
  {
    hide Deposit, Inv, DateSeg, Replacing, Moved, Clear, BinPlace, Room, GoodUpload, PartPath, MetaPath, Placed;
    GoodHasPath(p);
    InvTree(s);
    hide IsTree, DiskInv;
    ClearsInto(s.fs, localId, p, stamp);
    assert s.(fs := s.fs) == s;
    if Room(s.fs, p.u, stamp) {
      RoomyDeposit(s, localId, p, stamp);
    }
  }

  lemma RoomyDeposit(s: Store, localId: string, p: Pending, stamp: Stamp)
    requires Inv(s) && GoodUpload(p.u, p.id) && DateSeg(stamp.date) && Destination(p.u) in s.fs
    requires Clear(s.fs, localId, p.u, stamp).1
    ensures p.u.rel != []
    ensures var cleared := Clear(s.fs, localId, p.u, stamp).0;
            var part, meta := PartPath(p.u.device, p.u.space, p.id), MetaPath(p.u.device, p.u.space, p.id);
            && (Deposit(cleared, p.u, p.id).Ok? <==> part in s.fs)
            && (part in s.fs ==>
                  Replacing(s.fs, Deposit(cleared, p.u, p.id).value, part, meta, Destination(p.u),
                            BinPlace(s.fs, stamp, p.u.device, p.u.space, p.u.rel)))
  {
    hide Deposit, Inv, DateSeg, Replacing, Moved, Clear, Room, PartMoved, PartPath, MetaPath, BinPlace, DiskInv,
      IsTree, GoodUpload;
    GoodHasPath(p);
    InvTree(s);
    var dest, slot := Destination(p.u), BinPlace(s.fs, stamp, p.u.device, p.u.space, p.u.rel);
    var cleared := Clear(s.fs, localId, p.u, stamp).0;
    ClearsInto(s.fs, localId, p, stamp);
    StagedApart(p);
    ClearedForPart(s, localId, p, stamp);
    DepositLaw(cleared, p.u, p.id);
    SlotOfBin(s.fs, p, stamp);
    PartKept(s, cleared, p, slot);
    if PartPath(p.u.device, p.u.space, p.id) in s.fs {
      StagingAloof(p, slot);
      ReplacingFrom(s.fs, cleared, Deposit(cleared, p.u, p.id).value, PartPath(p.u.device, p.u.space, p.id),
                    MetaPath(p.u.device, p.u.space, p.id), dest, slot);
    }
  }

  /** Making room where something stands. */
  lemma ClearsInto(fs: Fs, localId: string, p: Pending, stamp: Stamp)
    requires IsTree(fs) && GoodUpload(p.u, p.id) && DateSeg(stamp.date) && Destination(p.u) in fs
    ensures var (cleared, ok) := Clear(fs, localId, p.u, stamp);
            var slot := BinPlace(fs, stamp, p.u.device, p.u.space, p.u.rel);
            && (ok <==> Room(fs, p.u, stamp)) && (!ok ==> cleared == fs)
            && (ok ==> Moved(fs, cleared, Destination(p.u), slot))
  {
    hide IsTree, MoveToRecycle, CanMkdirs, Mkdirs, DateSeg, Moved, RoomAt, BinPlace, TildeOrDrive, OthersSame, BinName,
      IsValidDeviceId, IsValidSpace, ValidUploadId, Clean;
    var dest := Destination(p.u);
    StandsInDir(fs, dest);
    Recycling(fs, localId, p.u.device, p.u.space, p.u.rel, stamp);
  }

  lemma StandsInDir(fs: Fs, dest: Path)
    requires IsTree(fs) && dest in fs && dest != []
    ensures CanMkdirs(fs, Parent(dest)) && Mkdirs(fs, Parent(dest)) == fs
  {
    MkdirsIdle(fs, Parent(dest));
  }

  lemma ClearedForPart(s: Store, localId: string, p: Pending, stamp: Stamp)
    requires Inv(s) && GoodUpload(p.u, p.id) && DateSeg(stamp.date) && Clear(s.fs, localId, p.u, stamp).1
    ensures var cleared, dest := Clear(s.fs, localId, p.u, stamp).0, Destination(p.u);
            && DiskInv(cleared) && dest != [] && (forall q <- cleared :: !(dest <= q))
            && Parent(dest) in cleared && cleared[Parent(dest)] == Dir
  {
    hide Clear, ClearLoss, ChosenSlot, Copies, DiskInv, DateSeg, Clean;
    InvTree(s);
    ClearLaw(s.fs, localId, p.u, p.id, stamp);
    ShuffleKeepsInv(s, Clear(s.fs, localId, p.u, stamp).0);
  }

  lemma SlotOfBin(fs: Fs, p: Pending, stamp: Stamp)
    requires GoodUpload(p.u, p.id)
    ensures var slot := BinPlace(fs, stamp, p.u.device, p.u.space, p.u.rel);
            slot != [] && slot[0] == ".recycle" && p.u.device != ".recycle"
  {
    assert p.u.device[0] != '.';
  }

  lemma PartKept(s: Store, cleared: Fs, p: Pending, slot: Path)
    requires GoodUpload(p.u, p.id) && slot != [] && slot[0] == ".recycle" && p.u.device != ".recycle"
    requires Moved(s.fs, cleared, Destination(p.u), slot) && Destination(p.u)[2] != STAGING
    ensures PartPath(p.u.device, p.u.space, p.id) in cleared <==> PartPath(p.u.device, p.u.space, p.id) in s.fs
  {
    var part, dest := PartPath(p.u.device, p.u.space, p.id), Destination(p.u);
    assert part[2] == STAGING && part[0] == p.u.device;
    assert !(dest <= part) && !(slot <= part) && part != slot && !(part < slot);
  }

  lemma ReplacingFrom(fs: Fs, cleared: Fs, g: Fs, part: Path, meta: Path, dest: Path, slot: Path)
    requires part in fs && dest in fs && Moved(fs, cleared, dest, slot) && PartMoved(cleared, g, part, meta, dest)
    requires Aloof(part, dest, slot) && Aloof(meta, dest, slot) && !(slot <= dest) && !(dest <= slot)
    ensures Replacing(fs, g, part, meta, dest, slot)
  {
    hide Aloof, Moved, PartMoved;
    AloofIs(part, dest, slot);
    AloofIs(meta, dest, slot);
    PartLeaves(fs, cleared, g, part, meta, dest, slot);
    TreeStays(fs, cleared, g, part, meta, dest, slot);
    OthersStay(fs, cleared, g, part, meta, dest, slot);
  }

  lemma PartLeaves(fs: Fs, cleared: Fs, g: Fs, part: Path, meta: Path, dest: Path, slot: Path)
    requires part in fs && Moved(fs, cleared, dest, slot) && PartMoved(cleared, g, part, meta, dest)
    requires !(dest <= part) && !(slot <= part) && part != slot && part != dest && meta != dest
    ensures dest in g && g[dest] == fs[part] && part !in g && meta !in g && forall q <- g | dest <= q :: q == dest
  {
  }

  lemma TreeStays(fs: Fs, cleared: Fs, g: Fs, part: Path, meta: Path, dest: Path, slot: Path)
    requires Moved(fs, cleared, dest, slot) && PartMoved(cleared, g, part, meta, dest)
    requires !(slot <= part) && !(slot <= meta) && !(slot <= dest)
    ensures forall q <- fs | dest <= q :: Relocated(dest, slot, q) in g && g[Relocated(dest, slot, q)] == fs[q]
    ensures forall q <- g | slot <= q :: Relocated(slot, dest, q) in fs
  {
    forall q <- fs | dest <= q
      ensures Relocated(dest, slot, q) in g && g[Relocated(dest, slot, q)] == fs[q]
    {
      var r := Relocated(dest, slot, q);
      assert slot <= r && r != part && r != meta && r != dest && r in cleared;
    }
  }

  lemma OthersStay(fs: Fs, cleared: Fs, g: Fs, part: Path, meta: Path, dest: Path, slot: Path)
    requires Moved(fs, cleared, dest, slot) && PartMoved(cleared, g, part, meta, dest)
    ensures forall q <- fs | !(dest <= q) && q != slot && q != part && q != meta :: q in g && g[q] == fs[q]
    ensures forall q <- g | q !in fs && q != dest && !(slot <= q) :: g[q] == Dir && q < slot
  {
    forall q <- fs | !(dest <= q) && q != slot && q != part && q != meta ensures q in g && g[q] == fs[q] {
      assert q in cleared && cleared[q] == fs[q] && q != dest;
    }
  }

  /** Neither below the one place nor below the other. */
  predicate Aloof(q: Path, dest: Path, slot: Path) {
    !(dest <= q) && !(slot <= q)
  }

  lemma AloofIs(q: Path, dest: Path, slot: Path)
    requires Aloof(q, dest, slot)
    ensures !(dest <= q) && !(slot <= q) && q != dest && q != slot
  {
  }

  lemma StagingAloof(p: Pending, slot: Path)
    requires GoodUpload(p.u, p.id) && slot != [] && slot[0] == ".recycle" && p.u.device != ".recycle"
    ensures Aloof(PartPath(p.u.device, p.u.space, p.id), Destination(p.u), slot)
    ensures Aloof(MetaPath(p.u.device, p.u.space, p.id), Destination(p.u), slot)
    ensures !(slot <= Destination(p.u)) && !(Destination(p.u) <= slot)
  {
    StagedApart(p);
    var part, meta := PartPath(p.u.device, p.u.space, p.id), MetaPath(p.u.device, p.u.space, p.id);
    assert part[2] == STAGING && part[0] == p.u.device && meta[2] == STAGING && meta[0] == p.u.device;
    assert Destination(p.u)[0] == p.u.device;
  }

  /** The second phase is one turn after the other, in the order named, each at its own reading of the clock. */
  ghost predicate Turns(s: Store, batch: seq<Pending>, clock: nat -> Stamp, o: Outcome)
    decreases |batch|
  {
    if batch == [] then o == Outcome(s, [], [])
    else
      var n := |batch| - 1;
      exists mid: Outcome ::
        Turns(s, batch[..n], clock, mid) && NextTurn(mid, o, batch[n], clock(n))
  }

  ghost predicate NextTurn(before: Outcome, o: Outcome, p: Pending, stamp: Stamp) {
    p.u.rel != [] && exists done ::
      && Turn(before.store, o.store, p, stamp, done)
      && o.committed == (if done then before.committed + [p] else before.committed)
      && o.failed == (if done then before.failed else before.failed + [p.id])
  }

  lemma TurnLaw(s: Store, localId: string, p: Pending, stamp: Stamp)
    requires Inv(s) && GoodUpload(p.u, p.id) && DateSeg(stamp.date)
    ensures var (after, done) := CommitOne(s, localId, p, stamp); Turn(s, after, p, stamp, done) && Inv(after)
  {
    hide Inv, CommitOne, Turn, DateSeg;
    CommitOneKeeps(s, localId, p, stamp);
    if Destination(p.u) in s.fs {
      TurnOnto(s, localId, p, stamp);
    } else {
      TurnToFree(s, localId, p, stamp);
    }
  }

  lemma {:induction false} TakesTurns(s: Store, localId: string, batch: seq<Pending>, clock: nat -> Stamp)
    requires Inv(s) && Dated(clock, |batch|) && forall p <- batch :: GoodUpload(p.u, p.id)
    ensures var o := CommitAll(s, localId, batch, clock); Turns(s, batch, clock, o) && Inv(o.store)
  {
    hide Inv, CommitOne, Turn, DateSeg, GoodUpload;
    if batch != [] {
      var n := |batch| - 1;
      TakesTurns(s, localId, batch[..n], clock);
      var mid := CommitAll(s, localId, batch[..n], clock);
      assert batch[n] in batch;
      TurnLaw(mid.store, localId, batch[n], clock(n));
      GoodHasPath(batch[n]);
      var (after, done) := CommitOne(mid.store, localId, batch[n], clock(n));
      assert Turn(mid.store, after, batch[n], clock(n), done);
      assert NextTurn(mid, CommitAll(s, localId, batch, clock), batch[n], clock(n));
    }
  }

  lemma GoodHasPath(p: Pending)
    requires GoodUpload(p.u, p.id)
    ensures p.u.rel != []
  {
  }

  lemma StagedApart(p: Pending)
    requires GoodUpload(p.u, p.id)
    ensures Clean(p.u.rel) && !Staged(Destination(p.u)) && |Destination(p.u)| >= 3 && Destination(p.u)[2] != STAGING
    ensures PartPath(p.u.device, p.u.space, p.id) != Destination(p.u)
            && MetaPath(p.u.device, p.u.space, p.id) != Destination(p.u)
  {
    DestOutside(p.u);
  }

  lemma PlacedFrom(fs: Fs, g: Fs, part: Path, meta: Path, dest: Path)
    requires dest != [] && part in fs && dest !in fs && dest != part && dest != meta
    requires PartMoved(Mkdirs(fs, Parent(dest)), g, part, meta, dest)
    ensures Placed(fs, g, part, meta, dest)
  {
    var made := Mkdirs(fs, Parent(dest));
    forall p <- g | p != dest && p !in fs ensures g[p] == Dir && p < dest {
      assert p in made && p <= Parent(dest);
    }
  }

  lemma MadeInv(s: Store, dest: Path)
    requires Inv(s) && dest != [] && CanMkdirs(s.fs, Parent(dest)) && !Staged(dest) && |dest| >= 3 && dest[2] != STAGING
    ensures DiskInv(Mkdirs(s.fs, Parent(dest)))
    ensures var made := Mkdirs(s.fs, Parent(dest)); Parent(dest) in made && made[Parent(dest)] == Dir
  {
    hide IsSession, GoodMeta, IsValidDeviceId, IsValidSpace, CanMkdirs, IsTree;
    MkdirsTree(s.fs, Parent(dest));
    WayUnstaged(s.fs, dest);
  }

  lemma WayUnstaged(fs: Fs, dest: Path)
    requires dest != [] && !Staged(dest) && |dest| >= 3 && dest[2] != STAGING
    ensures forall p <- Mkdirs(fs, Parent(dest)) | p !in fs :: !Staged(p)
    ensures forall d, t, id :: PartPath(d, t, id) in Mkdirs(fs, Parent(dest)) ==> PartPath(d, t, id) in fs
  {
    var made := Mkdirs(fs, Parent(dest));
    forall p <- made | p !in fs ensures !Staged(p) {
      assert p <= Parent(dest);
      if |p| >= 3 { assert p[2] == dest[2]; }
    }
    forall d, t, id ensures !(PartPath(d, t, id) <= Parent(dest)) {
      assert PartPath(d, t, id)[2] == STAGING;
    }
  }

  lemma NothingAt(fs: Fs, dest: Path)
    requires DiskInv(fs) && dest !in fs
    ensures forall q <- fs :: !(dest <= q)
  {
    NothingBelowMissing(fs, dest);
  }

  /** So a commit whose uploads are all complete takes the turns of the uploads it names. */
  lemma CommitTakesTurns(site: Site, s: State, f: P.Frame, caller: string, trust: P.Trust, loopback: bool, inp: Inputs,
                         ids: seq<string>)
    requires MayWrite(site, s, f, caller, trust) && f.op == P.Op.Commit && Names(f, ids) && Inv(s.store)
    requires Dated(inp.clock, |ids|) && forall id <- ids :: Complete(site.reader.hash, s.store, id)
    ensures var (after, r) := Handle(site, s, f, caller, trust, loopback, inp);
            && r.Ok? && r.value.Batch?
            && exists batch :: Ids(batch) == ids && (forall p <- batch :: Reported(site.reader.hash, s.store, p))
                 && Turns(s.store, batch, inp.clock, Outcome(after.store, r.value.committed, r.value.failed))
  {
    hide Inv, Handle, MayWrite, Complete, Credits, Reported, Turns, Names, Verify, CommitAll, Dated, GoodUpload,
      Checked;
    CommitBy(site, s, f, caller, trust, loopback, inp, ids);
    VerifiesAll(site.reader.hash, s.store, ids);
    VerifyChecks(site.reader.hash, s.store, ids);
    IdsOfBatch(site.reader.hash, s.store, ids);
    var batch := Verify(site.reader.hash, s.store, ids).value;
    forall p <- batch ensures GoodUpload(p.u, p.id) && Reported(site.reader.hash, s.store, p) {
      BatchReported(site.reader.hash, s.store, ids, p);
      CheckedIsGood(site.reader.hash, s.store, batch, p);
    }
    TakesTurns(s.store, site.localId, batch, inp.clock);
    OutcomeParts(s.store, site.localId, batch, inp.clock);
  }

  lemma CheckedIsGood(hash: Hash, s: Store, batch: seq<Pending>, p: Pending)
    requires p in batch && forall i :: 0 <= i < |batch| ==> Checked(hash, s, batch[i])
    ensures GoodUpload(p.u, p.id)
  {
    hide GoodUpload;
    var i :| 0 <= i < |batch| && batch[i] == p;
    assert Checked(hash, s, batch[i]);
  }

  lemma OutcomeParts(s: Store, localId: string, batch: seq<Pending>, clock: nat -> Stamp)
    ensures var o := CommitAll(s, localId, batch, clock); o == Outcome(o.store, o.committed, o.failed)
  {
    hide CommitAll;
  }

  /** A commit that names one complete upload: with room for it, it is reported as committed and the caller credited,
      its bytes stand at the destination, and its staging files and table entry are gone; without, it is reported as
      failed and nothing has changed. */
  lemma SingleCommit(site: Site, s: State, f: P.Frame, caller: string, trust: P.Trust, loopback: bool, inp: Inputs,
                     id: string)
    requires MayWrite(site, s, f, caller, trust) && f.op == P.Op.Commit && Names(f, [id]) && Inv(s.store)
    requires Complete(site.reader.hash, s.store, id) && DateSeg(inp.clock(0).date)
    ensures s.store.uploads[id].rel != []
    ensures var (after, r) := Handle(site, s, f, caller, trust, loopback, inp);
            var u := s.store.uploads[id];
            var part, meta, dest := PartPath(u.device, u.space, id), MetaPath(u.device, u.space, id), Destination(u);
            && r.Ok? && r.value.Batch?
            && (!Room(s.store.fs, u, inp.clock(0)) ==> r == Ok(Batch([], [id], None)) && after == s)
            && (Room(s.store.fs, u, inp.clock(0)) ==>
                  && Ids(r.value.committed) == [id] && r.value.failed == []
                  && Reported(site.reader.hash, s.store, r.value.committed[0])
                  && Credits(s.cursors, after.cursors, caller, f.upto, r.value.applied)
                  && after.store.uploads == s.store.uploads - {id}
                  && if dest !in s.store.fs then Placed(s.store.fs, after.store.fs, part, meta, dest)
                     else Replacing(s.store.fs, after.store.fs, part, meta, dest,
                                    BinPlace(s.store.fs, inp.clock(0), u.device, u.space, u.rel)))
  {
    hide Inv, Handle, MayWrite, Reported, Placed, Replacing, Room, PartPath, MetaPath, Names, BinPlace, DateSeg;
    HasPath(s.store, id);
    CommitBy(site, s, f, caller, trust, loopback, inp, [id]);
    OneMember(site.reader.hash, s.store, site.localId, id, inp.clock);
  }

  lemma HasPath(s: Store, id: string)
    requires Inv(s) && id in s.uploads
    ensures s.uploads[id].rel != []
  {
    assert EntryOk(s.fs, id, s.uploads[id]);
  }

  lemma OneMember(hash: Hash, s: Store, localId: string, id: string, clock: nat -> Stamp)
    requires Inv(s) && Complete(hash, s, id) && DateSeg(clock(0).date)
    ensures s.uploads[id].rel != []
    ensures var (after, r) := Commit(hash, s, localId, [id], clock);
            var u := s.uploads[id];
            var part, meta, dest := PartPath(u.device, u.space, id), MetaPath(u.device, u.space, id), Destination(u);
            && r.Ok?
            && (!Room(s.fs, u, clock(0)) ==> after == s && r.value.committed == [] && r.value.failed == [id])
            && (Room(s.fs, u, clock(0)) ==>
                  && Ids(r.value.committed) == [id] && r.value.failed == []
                  && Reported(hash, s, r.value.committed[0])
                  && after.uploads == s.uploads - {id}
                  && if dest !in s.fs then Placed(s.fs, after.fs, part, meta, dest)
                     else Replacing(s.fs, after.fs, part, meta, dest,
                                    BinPlace(s.fs, clock(0), u.device, u.space, u.rel)))
  {
    hide Inv, Placed, Replacing, Room, CommitOne, VerifyOne, Reported, GoodUpload, BinPlace, DateSeg, Moved, PartPath,
      MetaPath;
    HasPath(s, id);
    MemberFault(hash, s, id);
    VerifyOneChecks(hash, s, id);
    var p := VerifyOne(hash, s, id).value;
    TurnLaw(s, localId, p, clock(0));
    OnlyMember(hash, s, localId, id, clock);
    assert p in [p];
    BatchReported(hash, s, [id], p);
  }

  lemma OnlyMember(hash: Hash, s: Store, localId: string, id: string, clock: nat -> Stamp)
    requires VerifyOne(hash, s, id).Ok?
    ensures var p := VerifyOne(hash, s, id).value;
            var (after, done) := CommitOne(s, localId, p, clock(0));
            && Verify(hash, s, [id]) == Ok([p])
            && Commit(hash, s, localId, [id], clock)
               == (after, Ok(if done then Outcome(after, [p], []) else Outcome(after, [], [p.id])))
  {
    hide VerifyOne, CommitOne;
    var p := VerifyOne(hash, s, id).value;
    assert [id][1..] == [] && [p] + [] == [p];
    assert Verify(hash, s, [id]) == Ok([p]);
    assert [p][..0] == [] && [] + [p] == [p] && [] + [p.id] == [p.id];
    assert CommitAll(s, localId, [], clock) == Outcome(s, [], []);
    var (after, done) := CommitOne(s, localId, p, clock(0));
    assert CommitAll(s, localId, [p], clock)
        == if done then Outcome(after, [p], []) else Outcome(after, [], [p.id]);
  }

  // ---------- what is committed reads back ----------

  /** Once every byte of an upload has been received, and a commit that names it, alone or with others, answers
      that it is committed, a client that reads on from the start with read requests of its own, under any spelling
      of the path, gets the content. */
  lemma CommittedIsRead(site: Site, s: State, f: P.Frame, caller: string, trust: P.Trust, loopback: bool, inp: Inputs,
                        ids: seq<string>, id: string, content: Bytes, g: P.Frame, client: string, bond: P.Trust,
                        near: bool, world: nat -> Inputs, lengths: nat -> int, fuel: nat)
    requires MayWrite(site, s, f, caller, trust) && f.op == P.Op.Commit && Names(f, ids) && Inv(s.store)
    requires Dated(inp.clock, |ids|)
             && (Verify(site.reader.hash, s.store, ids).Ok? ==>
                   Independent(Verify(site.reader.hash, s.store, ids).value))
    requires id in s.store.uploads && s.store.uploads[id].received == |content| < fuel
             && PartIsPrefix(s.store.fs, s.store.uploads[id].device, s.store.uploads[id].space, id, content)
    requires L.MayAsk(g, client, bond) && g.op == P.Read && Normalize(g.path) == Ok(s.store.uploads[id].rel)
             && L.Whose(g, client) == s.store.uploads[id].device && g.space == s.store.uploads[id].space
    requires forall k: nat :: L.MayLook(s.auth, g, client, world(k).now)
    ensures var (after, r) := Handle(site, s, f, caller, trust, loopback, inp);
            r.Ok? ==>
              r.value.Batch?
              && (id in Ids(r.value.committed) ==>
                    L.ReadOn(site, after, g, client, bond, near, world, lengths, 0, 0, fuel) == Some(content))
  {
    hide Inv, Handle, MayWrite, Dated, Independent, Commit, Verify, PartIsPrefix, Names, Credits, L.MayAsk, L.MayLook,
      L.Whose, L.ReadOn, Normalize;
    CommitBy(site, s, f, caller, trust, loopback, inp, ids);
    var (after, r) := Handle(site, s, f, caller, trust, loopback, inp);
    if r.Ok? && id in Ids(r.value.committed) {
      CommittedStands(Cfg(site), s.store, ids, id, inp.clock, content);
      PlaceOf(g.path, s.store.uploads[id]);
      L.ReadOnReturnsAll(site, after, g, client, bond, near, world, lengths, 0, 0, fuel, content);
      assert content[0..] == content;
    }
  }

  lemma PlaceOf(path: string, u: Upload)
    requires Normalize(path) == Ok(u.rel)
    ensures L.Spelt(path) && L.Place(u.device, u.space, path) == Destination(u)
  {
    hide Normalize;
    NoEmptyNormal();
  }

  lemma CommittedStands(cfg: Runs.Config, s: Store, ids: seq<string>, id: string, clock: nat -> Stamp, content: Bytes)
    requires Inv(s) && id in s.uploads
    requires PartIsPrefix(s.fs, s.uploads[id].device, s.uploads[id].space, id, content)
             && s.uploads[id].received == |content|
    requires Dated(clock, |ids|) && (Verify(cfg.hash, s, ids).Ok? ==> Independent(Verify(cfg.hash, s, ids).value))
    requires var r := Commit(cfg.hash, s, cfg.localId, ids, clock).1; r.Ok? && id in Ids(r.value.committed)
    ensures var fs := Commit(cfg.hash, s, cfg.localId, ids, clock).0.fs;
            Destination(s.uploads[id]) in fs && fs[Destination(s.uploads[id])] == Blob(content)
  {
    hide Inv, Dated, Independent, Commit, Verify, PartIsPrefix, HoldsReceived;
    var r := Commit(cfg.hash, s, cfg.localId, ids, clock).1;
    var i :| 0 <= i < |r.value.committed| && Ids(r.value.committed)[i] == id;
    assert r.value.committed[i] in r.value.committed && ReportedCommitted(r, id);
    PrefixHoldsReceived(s, s.uploads[id].device, s.uploads[id].space, id, content);
    CommittedLands(cfg, s, ids, id, clock);
    WholeContent(s, id, content);
  }
}
