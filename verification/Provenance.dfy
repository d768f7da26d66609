/** Where stored content comes from, and how much of it there is, through whole commits. */
module Provenance {
  import opened Wrappers
  import opened FileSystem
  import opened Layout
  import opened Recycle
  import opened Staging
  import opened StagingLaws
  import opened CommitLaws
  import opened BatchLaws

  /** One successful write.begin: the caller, the space, the declared size and hash. */
  datatype Begun = Begun(device: string, space: string, size: int, sha: string)

  ghost predicate KnownMeta(b: set<Begun>, fs: Fs) {
    forall p <- fs | fs[p].Meta? :: |p| >= 2 && Begun(p[0], p[1], fs[p].meta.size, fs[p].meta.sha) in b
  }

  /** Every official or recycled file belongs to a device and space which once began an upload of
      just that size and hash. */
  ghost predicate KnownFiles(hash: Hash, b: set<Begun>, fs: Fs) {
    forall p <- fs | !Staged(p) && fs[p].Blob? ::
      Owner(p).Some? && Begun(Owner(p).value.0, Owner(p).value.1, |fs[p].data|, hash(fs[p].data)) in b
  }

  ghost predicate Known(hash: Hash, b: set<Begun>, s: Store) {
    KnownMeta(b, s.fs) && KnownFiles(hash, b, s.fs)
  }

  /** The member's part, if still there, holds bytes its device and space announced. */
  ghost predicate PartKnown(hash: Hash, b: set<Begun>, fs: Fs, p: Pending) {
    var part := PartPath(p.u.device, p.u.space, p.id);
    part in fs && fs[part].Blob? ==> Begun(p.u.device, p.u.space, |fs[part].data|, hash(fs[part].data)) in b
  }

  ghost predicate StagingShrinks(f: Fs, g: Fs) {
    forall q <- g | Staged(q) :: q in f && g[q] == f[q]
  }

  lemma CheckedIsKnown(hash: Hash, b: set<Begun>, s: Store, p: Pending)
    requires Checked(hash, s, p) && KnownMeta(b, s.fs)
    ensures PartKnown(hash, b, s.fs, p)
  {
    var meta := MetaPath(p.u.device, p.u.space, p.id);
    assert meta[0] == p.u.device && meta[1] == p.u.space;
  }

  lemma ShuffleKeepsKnown(hash: Hash, b: set<Begun>, s: Store, g: Store)
    requires Inv(s) && Known(hash, b, s) && Resettled(s.fs, g.fs)
    ensures Known(hash, b, g)
  {
    forall p <- g.fs | g.fs[p].Meta? ensures Begun(p[0], p[1], g.fs[p].meta.size, g.fs[p].meta.sha) in b && |p| >= 2 {
      assert Staged(p);
    }
  }

  lemma DepositKeepsKnown(hash: Hash, b: set<Begun>, f: Store, g: Store, p: Pending, data: Bytes, lost: multiset<Bytes>)
    requires Inv(f) && Known(hash, b, f) && GoodUpload(p.u, p.id) && Deposited(f, g, p.u, p.id, data, lost)
    requires PartKnown(hash, b, f.fs, p)
    ensures Known(hash, b, g) && StagingShrinks(f.fs, g.fs)
  {
    hide Copies;
    var dest := Destination(p.u);
    OwnFilesStaged(p);
    assert Owner(dest) == Some((p.u.device, p.u.space));
    forall q <- g.fs | g.fs[q].Meta? ensures |q| >= 2 && Begun(q[0], q[1], g.fs[q].meta.size, g.fs[q].meta.sha) in b {
      assert Staged(q);
    }
  }

  /** How many of the members in `done` had content c in their part. */
  ghost function Tally(fs: Fs, done: seq<Pending>, c: Bytes): nat {
    if done == [] then 0
    else
      var p := done[|done| - 1];
      var part := PartPath(p.u.device, p.u.space, p.id);
      Tally(fs, done[..|done| - 1], c) + (if part in fs && fs[part] == Blob(c) then 1 else 0)
  }

  // ---------- what is overwritten ----------

  /** What making room for one member destroys. */
  function MemberLoss(fs: Fs, p: Pending, stamp: Stamp): multiset<Bytes> {
    if p.u.rel == [] then multiset{} else ClearLoss(fs, p.u, stamp)
  }

  /** What the whole batch destroys, each member in the state it finds. */
  function BatchLoss(s: Store, localId: string, batch: seq<Pending>, clock: nat -> Stamp): multiset<Bytes> {
    if batch == [] then multiset{}
    else
      var n := |batch| - 1;
      BatchLoss(s, localId, batch[..n], clock)
        + MemberLoss(CommitAll(s, localId, batch[..n], clock).store.fs, batch[n], clock(n))
  }

  function CommitLoss(hash: Hash, s: Store, localId: string, ids: seq<string>, clock: nat -> Stamp): multiset<Bytes> {
    match Verify(hash, s, ids)
    case Err(_) => multiset{}
    case Ok(batch) => BatchLoss(s, localId, batch, clock)
  }

  /** Nothing is destroyed where no displaced item replaces a file in the bin. */
  lemma {:induction false} NoBatchLoss(s: Store, localId: string, batch: seq<Pending>, clock: nat -> Stamp)
    requires NoneOverwritten(s, localId, batch, clock)
    ensures BatchLoss(s, localId, batch, clock) == multiset{}
  {
    hide CommitAll, NoneOverwritten, NothingOverwritten, ClearLoss;
    if batch != [] {
      var n := |batch| - 1;
      NoneOverwrittenPrefix(s, localId, batch, clock);
      LastOverwritesNothing(s, localId, batch, clock);
      NoBatchLoss(s, localId, batch[..n], clock);
      LossIff(CommitAll(s, localId, batch[..n], clock).store.fs, batch[n].u, clock(n));
    }
  }

  // ---------- whole commits ----------

  /** What the second phase keeps, whatever the batch: what is gained is exactly the reported uploads,
      what is lost is exactly what was overwritten, and every file is still accounted for by a begin of
      its owner. */
  ghost predicate CommitKeeps(hash: Hash, b: set<Begun>, s: Store, o: Outcome, lost: multiset<Bytes>) {
    && Inv(o.store) && Known(hash, b, o.store) && StagingShrinks(s.fs, o.store.fs)
    && forall c :: Copies(o.store.fs, c) + lost[c] == Copies(s.fs, c) + Tally(s.fs, o.committed, c)
  }

  lemma MemberKeeps(hash: Hash, b: set<Begun>, s: Store, localId: string, o: Outcome, lost: multiset<Bytes>,
                    p: Pending, stamp: Stamp)
    requires CommitKeeps(hash, b, s, o, lost) && GoodUpload(p.u, p.id) && PartKnown(hash, b, s.fs, p)
             && DateSeg(stamp.date)
    ensures var (after, done) := CommitOne(o.store, localId, p, stamp);
            var next := if done then Outcome(after, o.committed + [p], o.failed)
              else Outcome(after, o.committed, o.failed + [p.id]);
            CommitKeeps(hash, b, s, next, lost + MemberLoss(o.store.fs, p, stamp))
  {
    hide CommitOne, ClearLoss, DateSeg, Resettled, Copies, Inv, Known, Tally, Deposited;
    CommitOneKeeps(o.store, localId, p, stamp);
    var (after, done) := CommitOne(o.store, localId, p, stamp);
    var more := ClearLoss(o.store.fs, p.u, stamp);
    assert MemberLoss(o.store.fs, p, stamp) == more;
    if done {
      var data :| Deposited(o.store, after, p.u, p.id, data, more);
      MemberDeposited(hash, b, s, o, lost, after, p, data, more);
    } else {
      ShuffleKeepsKnown(hash, b, o.store, after);
      ResettledShrinks(o.store.fs, after.fs);
    }
  }

  lemma ResettledShrinks(f: Fs, g: Fs)
    requires Resettled(f, g)
    ensures StagingShrinks(f, g)
  {
  }

  lemma MemberDeposited(hash: Hash, b: set<Begun>, s: Store, o: Outcome, lost: multiset<Bytes>, after: Store,
                        p: Pending, data: Bytes, more: multiset<Bytes>)
    requires CommitKeeps(hash, b, s, o, lost) && GoodUpload(p.u, p.id) && PartKnown(hash, b, s.fs, p)
    requires Deposited(o.store, after, p.u, p.id, data, more) && Inv(after)
    ensures CommitKeeps(hash, b, s, Outcome(after, o.committed + [p], o.failed), lost + more)
  {
    hide Copies;
    OwnFilesStaged(p);
    DepositKeepsKnown(hash, b, o.store, after, p, data, more);
    hide PartKnown, GoodUpload, Inv, Known, PartPath;
    var done := o.committed + [p];
    assert done[..|done| - 1] == o.committed;
    assert s.fs[PartPath(p.u.device, p.u.space, p.id)] == Blob(data);
  }

  lemma {:induction false} CommitAllKeeps(hash: Hash, b: set<Begun>, s: Store, localId: string, batch: seq<Pending>,
                                          clock: nat -> Stamp)
    requires Inv(s) && Known(hash, b, s) && Dated(clock, |batch|)
    requires forall p <- batch :: GoodUpload(p.u, p.id) && PartKnown(hash, b, s.fs, p)
    ensures CommitKeeps(hash, b, s, CommitAll(s, localId, batch, clock), BatchLoss(s, localId, batch, clock))
  {
    hide CommitOne, GoodUpload, PartKnown, Inv, Known, MemberLoss, DateSeg, Copies;
    if batch != [] {
      var n := |batch| - 1;
      CommitAllKeeps(hash, b, s, localId, batch[..n], clock);
      MemberKeeps(hash, b, s, localId, CommitAll(s, localId, batch[..n], clock),
                  BatchLoss(s, localId, batch[..n], clock), batch[n], clock(n));
    }
  }

  /** Every commit, with any ids at all, conserves content: what is stored afterwards, and what was
      overwritten in the bin, is what was stored before plus exactly the uploads reported as committed. */
  lemma CommitConserves(hash: Hash, b: set<Begun>, s: Store, localId: string, ids: seq<string>, clock: nat -> Stamp)
    requires Inv(s) && Known(hash, b, s) && Dated(clock, |ids|)
    ensures var (after, r) := Commit(hash, s, localId, ids, clock);
            && Inv(after) && Known(hash, b, after) && StagingShrinks(s.fs, after.fs)
            && forall c :: Copies(after.fs, c) + CommitLoss(hash, s, localId, ids, clock)[c]
                           == Copies(s.fs, c) + (if r.Ok? then Tally(s.fs, r.value.committed, c) else 0)
  {
    hide Known, Inv, BatchLoss, Copies, DateSeg;
    if Verify(hash, s, ids).Ok? {
      var batch := Verify(hash, s, ids).value;
      VerifyChecks(hash, s, ids);
      BatchKnown(hash, b, s, batch);
      CommitAllKeeps(hash, b, s, localId, batch, clock);
    }
  }

  lemma BatchKnown(hash: Hash, b: set<Begun>, s: Store, batch: seq<Pending>)
    requires Known(hash, b, s) && forall i :: 0 <= i < |batch| ==> Checked(hash, s, batch[i])
    ensures forall p <- batch :: GoodUpload(p.u, p.id) && PartKnown(hash, b, s.fs, p)
  {
    forall p <- batch ensures GoodUpload(p.u, p.id) && PartKnown(hash, b, s.fs, p) {
      var i :| 0 <= i < |batch| && batch[i] == p;
      CheckedIsKnown(hash, b, s, p);
    }
  }
}
