/** Staged uploads: write.begin, write.chunk and the two-phase batch commit. */
module Staging {
  import opened Wrappers
  import opened Paths
  import opened FileSystem
  import opened Layout
  import opened Recycle

  const MAX_CHUNK := 65536

  /** An entry of the in-memory upload table; the files it names follow from its key. */
  datatype Upload = Upload(device: string, space: string, rel: seq<string>, size: int, sha: string, received: int)

  datatype Store = Store(fs: Fs, uploads: map<string, Upload>)

  /** SHA-256 as lower-case hex, left uninterpreted. */
  type Hash = Bytes -> string

  function PartPath(device: string, space: string, id: string): Path {
    [device, space, STAGING, id + ".part"]
  }

  function MetaPath(device: string, space: string, id: string): Path {
    [device, space, STAGING, id + ".json"]
  }

  predicate IsHexSha256(s: string) {
    |s| == 64 && forall i :: 0 <= i < 64 ==> '0' <= s[i] <= '9' || 'a' <= s[i] <= 'f'
  }

  predicate ValidUploadId(id: string) {
    1 <= |id| <= 64 && forall i :: 0 <= i < |id| ==> IsAsciiAlphabetic(id[i]) || '0' <= id[i] <= '9' || id[i] == '-'
  }

  // ---------- write.begin ----------

  function PartLength(fs: Fs, part: Path): int {
    if part in fs && fs[part].Blob? then |fs[part].data| else 0
  }

  /** The checks write.begin makes before it touches the disk. */
  function BeginError(path: string, size: int, sha: string, id: string): Option<OpError> {
    if Normalize(path).Err? then Some(BadPath)
    else if size < 0 || !IsHexSha256(sha) || !ValidUploadId(id) then Some(BadOp)
    else None
  }

  /** A begin whose meta file exists: refuse on a conflict, else take up what is there. */
  function Resume(s: Store, caller: string, space: string, m: StagingMeta, declared: StagingMeta, id: string)
    : (Store, Result<int, OpError>)
  {
    if m.rel != declared.rel || m.size != declared.size || (m.sha != "" && m.sha != declared.sha) then
        (s, Err(StagingState))
    else
      var received := PartLength(s.fs, PartPath(caller, space, id));
      (s.(uploads := s.uploads[id := Upload(caller, space, m.rel, m.size, m.sha, received)]), Ok(received))
  }

  /** A begin without a meta file: write it, then open the part, then enter the table. The part is
      opened without truncation, so one that is already there would keep its bytes. */
  function Fresh(s: Store, caller: string, space: string, declared: StagingMeta, id: string)
    : (Store, Result<int, OpError>)
  {
    var part, meta := PartPath(caller, space, id), MetaPath(caller, space, id);
    if meta in s.fs && s.fs[meta].Dir? then (s, Err(Internal))
    else
      var noted := s.fs[meta := Meta(declared)];
      if part in noted && noted[part].Dir? then (s.(fs := noted), Err(Internal))
      else
        var ready := if part in noted then noted else noted[part := Blob([])];
        (Store(ready, s.uploads[id := Upload(caller, space, declared.rel, declared.size, declared.sha, 0)]), Ok(0))
  }

  function BeginAt(s: Store, caller: string, space: string, declared: StagingMeta, id: string)
    : (Store, Result<int, OpError>)
  {
    var meta := MetaPath(caller, space, id);
    if meta in s.fs && s.fs[meta].Meta? then Resume(s, caller, space, s.fs[meta].meta, declared, id)
    else Fresh(s, caller, space, declared, id)
  }

  function Begin(s: Store, caller: string, space: string, path: string, size: int, sha: string, id: string, now: int)
    : (Store, Result<int, OpError>)
  {
    var dir := [caller, space, STAGING];
    if BeginError(path, size, sha, id).Some? then (s, Err(BeginError(path, size, sha, id).value))
    else if !CanMkdirs(s.fs, dir) then (s, Err(Internal))
    else BeginAt(s.(fs := Mkdirs(s.fs, dir)), caller, space, StagingMeta(Normalize(path).value, size, sha, now), id)
  }

  // ---------- write.chunk ----------

  function Zeros(n: nat): Bytes {
    seq(n, _ => 0)
  }

  /** Seeking to `at` and writing `raw` there. */
  function Splice(was: Bytes, at: nat, raw: Bytes): Bytes {
    if raw == [] then was
    else if at > |was| then was + Zeros(at - |was|) + raw
    else was[..at] + raw + (if at + |raw| < |was| then was[at + |raw|..] else [])
  }

  /** `raw` is None when the payload is not valid base64. */
  function Chunk(s: Store, id: string, raw: Option<Bytes>, offset: int): (Store, Result<int, OpError>) {
    if !ValidUploadId(id) || raw.None? || |raw.value| > MAX_CHUNK then (s, Err(BadOp))
    else if id !in s.uploads then (s, Err(StagingState))
    else
      var u := s.uploads[id];
      var part := PartPath(u.device, u.space, id);
      if offset > u.received then (s, Err(StagingState))
      else if u.size > 0 && offset + |raw.value| > u.size then (s, Err(BadOp))
      else if part !in s.fs || !s.fs[part].Blob? || offset < 0 then (s, Err(Internal))
      else
        var received := if offset + |raw.value| > u.received then offset + |raw.value| else u.received;
        (WriteAt(s, id, raw.value, offset, received), Ok(received))
  }

  function WriteAt(s: Store, id: string, raw: Bytes, at: nat, received: int): Store
    requires id in s.uploads
    requires var part := PartPath(s.uploads[id].device, s.uploads[id].space, id); part in s.fs && s.fs[part].Blob?
  {
    var u := s.uploads[id];
    var part := PartPath(u.device, u.space, id);
    Store(s.fs[part := Blob(Splice(s.fs[part].data, at, raw))], s.uploads[id := u.(received := received)])
  }

  // ---------- commit ----------

  /** A verified member of a batch. */
  datatype Pending = Pending(id: string, u: Upload, size: int, sum: string)

  /** The declared values commit checks against: the staging file's, else the table's. */
  function Declared(fs: Fs, u: Upload, id: string): StagingMeta {
    var meta := MetaPath(u.device, u.space, id);
    if meta in fs && fs[meta].Meta? then fs[meta].meta else StagingMeta(u.rel, u.size, u.sha, 0)
  }

  function VerifyOne(hash: Hash, s: Store, id: string): Result<Pending, OpError> {
    if !ValidUploadId(id) then Err(BadOp)
    else if id !in s.uploads then Err(StagingState)
    else
      var u := s.uploads[id];
      var part := PartPath(u.device, u.space, id);
      if part !in s.fs || !s.fs[part].Blob? then Err(Internal)
      else
        var data := s.fs[part].data;
        var m := Declared(s.fs, u, id);
        if m.size >= 0 && |data| != m.size then Err(HashMismatch)
        else if m.sha != "" && hash(data) != m.sha then Err(HashMismatch)
        else Ok(Pending(id, u, |data|, hash(data)))
  }

  /** First phase: every id is verified, in order, before anything moves. */
  function Verify(hash: Hash, s: Store, ids: seq<string>): Result<seq<Pending>, OpError> {
    if ids == [] then Ok([])
    else
      var first := VerifyOne(hash, s, ids[0]);
      if first.Err? then Err(first.error)
      else
        var rest := Verify(hash, s, ids[1..]);
        if rest.Err? then rest else Ok([first.value] + rest.value)
  }

  function RemoveFile(fs: Fs, p: Path): Fs {
    if p in fs && !fs[p].Dir? then map q | q in fs && q != p :: fs[q] else fs
  }

  function Without<V>(m: map<string, V>, key: string): map<string, V> {
    map k | k in m && k != key :: m[k]
  }

  function Destination(u: Upload): Path {
    [u.device, u.space] + u.rel
  }

  /** Room at the destination: its directories made, what stood there moved to the recycle bin. */
  function Clear(fs: Fs, localId: string, u: Upload, stamp: Stamp): (Fs, bool) {
    var dest := Destination(u);
    if !CanMkdirs(fs, Parent(dest)) then (fs, false)
    else
      var made := Mkdirs(fs, Parent(dest));
      if dest in made then
        var (cleared, displaced) := MoveToRecycle(made, localId, u.device, u.space, Join(u.rel), stamp);
        (cleared, displaced.Ok?)
      else (made, true)
  }

  /** The part renamed to the destination, the meta file removed. */
  function Deposit(fs: Fs, u: Upload, id: string): Result<Fs, OpError> {
    match Rename(fs, PartPath(u.device, u.space, id), Destination(u))
    case Err(e) => Err(e)
    case Ok(moved) => Ok(RemoveFile(moved, MetaPath(u.device, u.space, id)))
  }

  /** Second phase for one member. */
  function CommitOne(s: Store, localId: string, p: Pending, stamp: Stamp): (Store, bool) {
    var (cleared, ok) := Clear(s.fs, localId, p.u, stamp);
    if !ok then (s.(fs := cleared), false)
    else
      match Deposit(cleared, p.u, p.id)
      case Err(_) => (s.(fs := cleared), false)
      case Ok(fs) => (Store(fs, Without(s.uploads, p.id)), true)
  }

  datatype Outcome = Outcome(store: Store, committed: seq<Pending>, failed: seq<string>)

  /** Second phase: each member on its own; a failure leaves the others to go on. */
  function CommitAll(s: Store, localId: string, batch: seq<Pending>, clock: nat -> Stamp): Outcome {
    if batch == [] then Outcome(s, [], [])
    else
      var n := |batch| - 1;
      var before := CommitAll(s, localId, batch[..n], clock);
      var (after, done) := CommitOne(before.store, localId, batch[n], clock(n));
      if done then Outcome(after, before.committed + [batch[n]], before.failed)
      else Outcome(after, before.committed, before.failed + [batch[n].id])
  }

  function Commit(hash: Hash, s: Store, localId: string, ids: seq<string>, clock: nat -> Stamp)
    : (Store, Result<Outcome, OpError>)
  {
    match Verify(hash, s, ids)
    case Err(e) => (s, Err(e))
    case Ok(batch) =>
      var o := CommitAll(s, localId, batch, clock);
      (o.store, Ok(o))
  }
}
