/** Local::handle on the object: the check, the fence, and one method for each group of operations. */
module Service {
  import opened Wrappers
  import opened FileSystem
  import opened Layout
  import opened Recycle
  import opened Staging
  import opened Fidelity
  import opened Listing
  import opened BinList
  import opened StoreStats
  import opened Locals
  import opened Host
  import opened GcOps
  import P = Protocol
  import A = ImportAuth
  import M = Master
  import W = WriteOps
  import B = BrowseOps
  import X = MaintOps
  import T = Trees

  method MetaOf(local: Local, space: string, device: string, path: string) returns (r: Reply)
    ensures r == Describe(local.Site(), local.fs, space, device, path)
  {
    hide ResolvePath;
    var full := ResolvePath(local.deviceId, space, device, path);
    if full.Err? { return Err(full.error); }
    if full.value !in local.fs { return Err(NotFound); }
    if local.fs[full.value] == Dir { return Ok(IsDir); }
    var content := Content(local.reader, local.fs[full.value]);
    return Ok(IsFile(|content|, local.reader.hash(content)));
  }

  method ReadBytes(local: Local, space: string, device: string, path: string, offset: int, length: int)
    returns (r: Reply)
    ensures r == ReadAt(local.Site(), local.fs, space, device, path, offset, length)
  {
    hide ResolvePath;
    var full := ResolvePath(local.deviceId, space, device, path);
    if full.Err? { return Err(full.error); }
    if full.value !in local.fs { return Err(NotFound); }
    var data := if local.fs[full.value].Blob? then local.fs[full.value].data else [];
    var at := if offset < 0 then 0 else offset;
    var n := ReadLength(length);
    if at > |data| { return Ok(Data([], true)); }
    var got := if at + n <= |data| then data[at..at + n] else data[at..];
    return Ok(Data(got, |got| < n));
  }

  method Read(local: Local, f: P.Frame, caller: string, inp: Inputs) returns (r: Reply)
    requires f.op == P.List || f.op == P.Op.Meta || f.op == P.Read
    modifies local.imports
    ensures (local.State(), r) == OnRead(local.Site(), old(local.State()), f, caller, inp)
  {
    hide A.RequireImportGrant, Listed, Describe, ReadAt;
    var ok := local.imports.Require(f, caller, inp.now);
    if !ok { return Err(AclDenied); }
    var device := if f.device == "" then caller else f.device;
    match f.op {
      case List =>
        var listed := List(local.reader, local.fs, inp.readDir, local.deviceId, f.space, device, f.path, f.limit);
        if listed.Err? { return Err(listed.error); }
        return Ok(Entries(listed.value));
      case Meta =>
        r := MetaOf(local, f.space, device, f.path);
      case Read =>
        r := ReadBytes(local, f.space, device, f.path, f.offset, f.length);
    }
  }

  method BeginUpload(local: Local, f: P.Frame, caller: string, inp: Inputs) returns (r: Reply)
    modifies local
    ensures (local.State(), r) == OnBegin(old(local.State()), f, caller, inp)
  {
    hide Begin;
    var id := UploadId(f, inp);
    var begun := W.WriteBegin(local, caller, f.space, f.path, f.size, f.sha, id, inp.now);
    if begun.Err? { return Err(begun.error); }
    return Ok(UploadAt(id, begun.value));
  }

  method TakeChunk(local: Local, f: P.Frame) returns (r: Reply)
    modifies local
    ensures (local.State(), r) == OnChunk(old(local.State()), f)
  {
    hide Chunk;
    var taken := W.WriteChunk(local, ChunkId(f), f.data, f.offset);
    if taken.Err? { return Err(taken.error); }
    return Ok(Accepted(taken.value, if f.data.Some? then |f.data.value| else 0));
  }

  method CommitUploads(local: Local, f: P.Frame, caller: string, inp: Inputs) returns (r: Reply)
    modifies local, local.cursors
    ensures (local.State(), r) == OnCommit(local.Site(), old(local.State()), f, caller, inp)
  {
    hide Commit;
    var outcome := W.CommitBatch(local, BatchIds(f), inp.clock);
    if outcome.Err? { return Err(outcome.error); }
    var (committed, failed) := outcome.value;
    var applied: Option<int> := None;
    if f.upto.Some? && failed == [] {
      var next := local.cursors.AdvanceTo(caller, f.upto.value);
      applied := Some(next);
    }
    return Ok(Batch(committed, failed, applied));
  }

  method DeletePath(local: Local, f: P.Frame, caller: string, inp: Inputs) returns (r: Reply)
    requires f.op == P.Op.Delete
    modifies local`fs, local.cursors
    ensures (local.State(), r) == OnDelete(local.Site(), old(local.State()), f, caller, inp)
  {
    hide Delete;
    var device := if f.device == "" then caller else f.device;
    var deleted := B.DeleteItem(local, device, f.space, f.path, inp.stamp);
    if deleted.Err? { return Err(deleted.error); }
    var applied: Option<int> := None;
    if f.upto.Some? {
      var next := local.cursors.AdvanceTo(caller, f.upto.value);
      applied := Some(next);
    }
    return Ok(Gone(deleted.value, applied));
  }

  method RestorePath(local: Local, f: P.Frame, inp: Inputs) returns (r: Reply)
    requires IsTree(local.fs)
    modifies local`fs
    ensures (local.State(), r) == OnRestore(local.Site(), old(local.State()), f, inp)
  {
    hide Restore, IsTree;
    var restored := B.RestoreItem(local, f.recyclePath, inp.stamp);
    if restored.Err? { return Err(restored.error); }
    return Ok(Restored(restored.value));
  }

  method StatsOf(local: Local, ls: Lister) returns (r: Reply)
    requires IsTree(local.fs) && Faithful(ls)
    ensures (local.State(), r) == OnStats(local.Site(), local.State())
  {
    hide IsTree, Reported;
    var figures := MeasureStore(local.fs, ls(local.fs), FileSize(Site(local.deviceId, local.reader)));
    var p := local.pointer.Query();
    return Ok(Measured(figures, p, local.cursors.seqs));
  }

  method BinOf(local: Local, inp: Inputs) returns (r: Reply)
    ensures (local.State(), r) == OnBin(local.Site(), local.State(), inp)
  {
    hide BinListed;
    var items := RecycleList(local.reader, local.fs, inp.readDir, inp.dates);
    return Ok(Recyclables(items));
  }

  /** The requests about grants, seeding, cursors and the master pointer. */
  predicate Steers(op: P.Op) {
    op == P.ImportRequest || op == P.ImportPending || op == P.ImportGrant || op == P.ImportReject
      || op == P.ImportGrants
    || op == P.SyncHello || op == P.SyncCursors || op == P.PointerQuery || op == P.PointerApply || op == P.Migrate
  }

  method Steer(local: Local, f: P.Frame, caller: string, inp: Inputs) returns (r: Reply)
    requires local.Valid() && Steers(f.op)
    modifies local.imports, local.pointer
    ensures (local.State(), r) == Dispatch(local.Site(), old(local.State()), f, caller, inp)
  {
    hide A.CreateRequest, A.GrantRequest, A.RejectRequest, A.Waiting, A.Live, M.Apply, M.ApplyReply, M.Migrated;
    match f.op {
      case ImportRequest =>
        var request := local.imports.Create(f.oldDevice, caller, inp.nonce, inp.now);
        r := Ok(Asked(request));
      case ImportPending =>
        var waiting := local.imports.PendingRequests();
        r := Ok(Requests(waiting));
      case ImportGrant =>
        if f.requestId == "" { return Err(BadOp); }
        var granted := local.imports.Issue(f.requestId, inp.nonce, inp.now);
        if granted.Err? { return Err(granted.error); }
        r := Ok(Granting(granted.value));
      case ImportReject =>
        if f.requestId == "" { return Err(BadOp); }
        local.imports.Reject(f.requestId);
        r := Ok(Refused);
      case ImportGrants =>
        var live := local.imports.LiveGrants(f.role == "issued", inp.now);
        r := Ok(Grants(live));
      case SyncHello =>
        if !IsValidDeviceId(caller) { return Err(BadPath); }
        var n := local.cursors.Applied(caller);
        r := Ok(Position(n));
      case SyncCursors =>
        local.imports.Authorize(caller, inp.now);
        r := Ok(AllCursors(local.cursors.seqs));
      case PointerQuery =>
        var p := local.pointer.Query();
        r := Ok(PointerIs(p));
      case PointerApply =>
        var applied := local.pointer.ApplyPointer(f.master, f.epoch);
        if applied.Err? { return Err(applied.error); }
        r := Ok(PointerReply(applied.value));
      case Migrate =>
        var p := local.pointer.Migrate();
        r := Ok(NowMaster(p, local.cursors.seqs));
    }
  }

  /** The match on the operation. */
  method Perform(local: Local, f: P.Frame, caller: string, inp: Inputs, ls: Lister) returns (r: Reply)
    requires local.Valid() && IsTree(local.fs) && Faithful(ls)
    modifies local, local.imports, local.cursors, local.pointer
    ensures (local.State(), r) == Dispatch(local.Site(), old(local.State()), f, caller, inp)
  {
    hide IsTree, OnRead, OnBegin, OnChunk, OnCommit, OnDelete, OnRestore, OnStats, OnBin,
      OnRequest, OnGrant, OnReject, OnGrants, OnHello, OnCursors, OnPointer, OnMigrate;
    match f.op {
      case List | Meta | Read => r := Read(local, f, caller, inp);
      case WriteBegin => r := BeginUpload(local, f, caller, inp);
      case WriteChunk => r := TakeChunk(local, f);
      case Commit => r := CommitUploads(local, f, caller, inp);
      case Delete => r := DeletePath(local, f, caller, inp);
      case Stats => r := StatsOf(local, ls);
      case RecycleList => r := BinOf(local, inp);
      case RecycleRestore => r := RestorePath(local, f, inp);
      case RecycleEmpty =>
        var purged := X.EmptyRecycle(local, ls);
        r := Ok(Emptied(purged));
      case Unknown => r := Err(BadOp);
      case _ => r := Steer(local, f, caller, inp);
    }
  }

  /** Local::handle. */
  method HandleFrame(local: Local, f: P.Frame, caller: string, trust: P.Trust, loopback: bool, inp: Inputs, ls: Lister)
    returns (r: Reply)
    requires local.Valid() && IsTree(local.fs) && Faithful(ls)
    modifies local, local.imports, local.cursors, local.pointer
    ensures local.Valid() && IsTree(local.fs)
    ensures (local.State(), r) == Handle(local.Site(), old(local.State()), f, caller, trust, loopback, inp)
  {
    hide P.CheckAcl, P.AclCode, IsTree, Faithful, Dispatch;
    T.HandleTree(local.Site(), local.State(), f, caller, trust, loopback, inp);
    var verdict := P.CheckAcl(f, caller, trust, loopback);
    if verdict != P.Allow { return Err(P.AclCode(verdict)); }
    if NeedsMasterFence(f.op) {
      var master := local.pointer.RequireMaster();
      if !master { return Err(NotMaster); }
    }
    r := Perform(local, f, caller, inp, ls);
  }
}
