/** A node as a whole: Local::handle over staged uploads, files, import authorisations, cursors and
    the master pointer. */
module Host {
  import opened Wrappers
  import opened FileSystem
  import opened Layout
  import opened Recycle
  import opened Staging
  import opened Maintenance
  import Runs = StoreRun
  import opened Fidelity
  import opened Listing
  import opened BinList
  import opened StoreStats
  import P = Protocol
  import A = ImportAuth
  import opened Cursors
  import M = Master

  datatype State = State(store: Store, auth: A.Auth, cursors: Table, pointer: M.Pointer)

  /** What does not change while the node runs. */
  datatype Site = Site(localId: string, reader: Reader)

  function Cfg(site: Site): Runs.Config {
    Runs.Config(site.reader.hash, site.localId)
  }

  /** The bytes a file takes on disk. */
  function FileSize(site: Site): Node -> nat {
    (file: Node) => |Content(site.reader, file)|
  }

  /** What a call takes from the outside: a random id, the name given to an upload without one, the
      clock (one reading per member of a batch), the order in which directories are read and how the dates of
      the bin are read. */
  datatype Inputs = Inputs(nonce: string, unnamed: string, now: int, stamp: Stamp, clock: nat -> Stamp,
                           readDir: ReadDir, dates: Dates)

  datatype Answer =
    | Entries(entries: seq<Entry>) | IsDir | IsFile(size: nat, sha: string) | Data(data: Bytes, eof: bool)
    | UploadAt(id: string, received: int) | Accepted(received: int, accepted: nat)
    | Batch(committed: seq<Pending>, failed: seq<string>, applied: Option<int>)
    | Gone(item: Deleted, applied: Option<int>)
    | Restored(path: string) | Emptied(bytes: nat)
    | Asked(request: A.Request) | Granting(grant: A.Grant) | Refused
    | Requests(requests: seq<A.Request>) | Grants(grants: seq<A.Grant>)
    | Position(seqNo: int) | AllCursors(table: Table)
    | PointerIs(p: M.Pointer) | PointerReply(reply: M.Reply) | NowMaster(p: M.Pointer, table: Table)
    | Measured(figures: Figures, master: M.Pointer, positions: Table) | Recyclables(items: seq<Item>)

  type Reply = Result<Answer, OpError>

  /** needs_master_fence */
  predicate NeedsMasterFence(op: P.Op) {
    op == P.WriteBegin || op == P.WriteChunk || op == P.Op.Commit || op == P.Op.Delete || op == P.SyncHello
  }

  function UploadId(f: P.Frame, inp: Inputs): string {
    if f.uploadId.Some? then f.uploadId.value else inp.unnamed
  }

  function BatchIds(f: P.Frame): seq<string> {
    if f.uploadIds.Some? then f.uploadIds.value
    else if f.uploadId.Some? then [f.uploadId.value]
    else []
  }

  /** The ids a frame names: its list if it brings one, else its single id, else none. */
  predicate Names(f: P.Frame, ids: seq<string>) {
    && (f.uploadIds.Some? ==> ids == f.uploadIds.value)
    && (f.uploadIds.None? && f.uploadId.Some? ==> ids == [f.uploadId.value])
    && (f.uploadIds.None? && f.uploadId.None? ==> ids == [])
  }

  // ---------- reading ----------

  function Describe(site: Site, fs: Fs, space: string, device: string, path: string): Reply {
    match ResolvePath(site.localId, space, device, path)
    case Err(e) => Err(e)
    case Ok(full) =>
      if full !in fs then Err(NotFound)
      else if fs[full] == Dir then Ok(IsDir)
      else var content := Content(site.reader, fs[full]); Ok(IsFile(|content|, site.reader.hash(content)))
  }

  function ReadAt(site: Site, fs: Fs, space: string, device: string, path: string, offset: int, length: int): Reply {
    match OpenForRead(fs, site.localId, space, device, path)
    case Err(e) => Err(e)
    case Ok(data) =>
      var (got, eof) := ReadChunk(data, if offset < 0 then 0 else offset, length);
      Ok(Data(got, eof))
  }

  function Look(site: Site, s: State, f: P.Frame, caller: string, inp: Inputs): Reply {
    var device := P.TargetDevice(f, caller);
    match f.op
    case List =>
      (match Listed(site.reader, s.store.fs, inp.readDir, site.localId, f.space, device, f.path, f.limit)
       case Err(e) => Err(e)
       case Ok(entries) => Ok(Entries(entries)))
    case Meta => Describe(site, s.store.fs, f.space, device, f.path)
    case _ => ReadAt(site, s.store.fs, f.space, device, f.path, f.offset, f.length)
  }

  function OnRead(site: Site, s: State, f: P.Frame, caller: string, inp: Inputs): (State, Reply) {
    var (auth, ok) := A.RequireImportGrant(s.auth, f, caller, inp.now);
    (s.(auth := auth), if ok then Look(site, s, f, caller, inp) else Err(AclDenied))
  }

  // ---------- writing ----------

  function OnBegin(s: State, f: P.Frame, caller: string, inp: Inputs): (State, Reply) {
    var id := UploadId(f, inp);
    var (store, r) := Begin(s.store, caller, f.space, f.path, f.size, f.sha, id, inp.now);
    (s.(store := store), match r case Err(e) => Err(e) case Ok(received) => Ok(UploadAt(id, received)))
  }

  function ChunkId(f: P.Frame): string {
    if f.uploadId.Some? then f.uploadId.value else ""
  }

  function OnChunk(s: State, f: P.Frame): (State, Reply) {
    var (store, r) := Chunk(s.store, ChunkId(f), f.data, f.offset);
    (s.(store := store),
     match r
     case Err(e) => Err(e)
     case Ok(received) => Ok(Accepted(received, if f.data.Some? then |f.data.value| else 0)))
  }

  /** The caller's cursor moves on when the frame says how far its journal got. */
  function Credit(m: Table, caller: string, upto: Option<int>): (Table, Option<int>) {
    if upto.None? then (m, None)
    else var next := Advance(m, caller, upto.value); (next, Some(AppliedSeq(next, caller)))
  }

  function OnCommit(site: Site, s: State, f: P.Frame, caller: string, inp: Inputs): (State, Reply) {
    var (store, r) := Commit(site.reader.hash, s.store, site.localId, BatchIds(f), inp.clock);
    match r
    case Err(e) => (s.(store := store), Err(e))
    case Ok(o) =>
      var (cursors, applied) := if o.failed == [] then Credit(s.cursors, caller, f.upto) else (s.cursors, None);
      (s.(store := store, cursors := cursors), Ok(Batch(o.committed, o.failed, applied)))
  }

  function OnDelete(site: Site, s: State, f: P.Frame, caller: string, inp: Inputs): (State, Reply) {
    var (fs, r) := Delete(s.store.fs, site.localId, P.TargetDevice(f, caller), f.space, f.path, inp.stamp);
    match r
    case Err(e) => (s.(store := s.store.(fs := fs)), Err(e))
    case Ok(item) =>
      var (cursors, applied) := Credit(s.cursors, caller, f.upto);
      (s.(store := s.store.(fs := fs), cursors := cursors), Ok(Gone(item, applied)))
  }

  function OnRestore(site: Site, s: State, f: P.Frame, inp: Inputs): (State, Reply) {
    var (fs, r) := Restore(s.store.fs, site.localId, f.recyclePath, inp.stamp);
    (s.(store := s.store.(fs := fs)), match r case Err(e) => Err(e) case Ok(rel) => Ok(Restored(rel)))
  }

  ghost function OnEmpty(site: Site, s: State): (State, Reply) {
    (s.(store := s.store.(fs := EmptyBin(s.store.fs))), Ok(Emptied(SizeBelow(s.store.fs, [RECYCLE], FileSize(site)))))
  }

  // ---------- measuring and listing the bin ----------

  ghost function OnStats(site: Site, s: State): (State, Reply) {
    (s, Ok(Measured(Reported(s.store.fs, FileSize(site)), s.pointer, s.cursors)))
  }

  function OnBin(site: Site, s: State, inp: Inputs): (State, Reply) {
    (s, Ok(Recyclables(BinListed(site.reader, s.store.fs, inp.readDir, inp.dates))))
  }

  // ---------- authorising and steering ----------

  function OnRequest(s: State, f: P.Frame, caller: string, inp: Inputs): (State, Reply) {
    var (auth, r) := A.CreateRequest(s.auth, f.oldDevice, caller, inp.nonce, inp.now);
    (s.(auth := auth), Ok(Asked(r)))
  }

  function OnGrant(s: State, f: P.Frame, inp: Inputs): (State, Reply) {
    if f.requestId == "" then (s, Err(BadOp))
    else
      var (auth, r) := A.GrantRequest(s.auth, f.requestId, inp.nonce, inp.now);
      (s.(auth := auth), match r case Err(e) => Err(e) case Ok(g) => Ok(Granting(g)))
  }

  function OnReject(s: State, f: P.Frame): (State, Reply) {
    if f.requestId == "" then (s, Err(BadOp))
    else (s.(auth := A.RejectRequest(s.auth, f.requestId)), Ok(Refused))
  }

  function OnHello(s: State, caller: string): (State, Reply) {
    (s, if IsValidDeviceId(caller) then Ok(Position(AppliedSeq(s.cursors, caller))) else Err(BadPath))
  }

  function OnCursors(s: State, caller: string, inp: Inputs): (State, Reply) {
    (s.(auth := A.AuthorizeSeed(s.auth, caller, inp.now)), Ok(AllCursors(s.cursors)))
  }

  function OnPointer(s: State, f: P.Frame): (State, Reply) {
    var msg := M.Pointer(f.master, f.epoch);
    (s.(pointer := M.Apply(s.pointer, msg)),
     match M.ApplyReply(s.pointer, msg) case Err(e) => Err(e) case Ok(r) => Ok(PointerReply(r)))
  }

  function OnMigrate(site: Site, s: State): (State, Reply) {
    var p := M.Migrated(s.pointer, site.localId);
    (s.(pointer := p), Ok(NowMaster(p, s.cursors)))
  }

  function OnGrants(s: State, f: P.Frame, inp: Inputs): (State, Reply) {
    (s, Ok(Grants(A.Live(if f.role == "issued" then s.auth.grants else s.auth.received, inp.now))))
  }

  // ---------- the dispatch ----------

  ghost function Dispatch(site: Site, s: State, f: P.Frame, caller: string, inp: Inputs): (State, Reply) {
    match f.op
    case List | Meta | Read => OnRead(site, s, f, caller, inp)
    case WriteBegin => OnBegin(s, f, caller, inp)
    case WriteChunk => OnChunk(s, f)
    case Commit => OnCommit(site, s, f, caller, inp)
    case Delete => OnDelete(site, s, f, caller, inp)
    case Stats => OnStats(site, s)
    case RecycleList => OnBin(site, s, inp)
    case RecycleRestore => OnRestore(site, s, f, inp)
    case RecycleEmpty => OnEmpty(site, s)
    case ImportRequest => OnRequest(s, f, caller, inp)
    case ImportPending => (s, Ok(Requests(A.Waiting(s.auth.requests))))
    case ImportGrant => OnGrant(s, f, inp)
    case ImportReject => OnReject(s, f)
    case ImportGrants => OnGrants(s, f, inp)
    case SyncHello => OnHello(s, caller)
    case SyncCursors => OnCursors(s, caller, inp)
    case PointerQuery => (s, Ok(PointerIs(s.pointer)))
    case PointerApply => OnPointer(s, f)
    case Migrate => OnMigrate(site, s)
    case Unknown => (s, Err(BadOp))
  }

  /** Local::handle: the access check, the write fence, then the operation. */
  ghost function Handle(site: Site, s: State, f: P.Frame, caller: string, trust: P.Trust, loopback: bool, inp: Inputs)
    : (State, Reply)
  {
    var verdict := P.CheckAcl(f, caller, trust, loopback);
    if verdict != P.Allow then (s, Err(P.AclCode(verdict)))
    else if NeedsMasterFence(f.op) && s.pointer.master != site.localId then (s, Err(NotMaster))
    else Dispatch(site, s, f, caller, inp)
  }
}
