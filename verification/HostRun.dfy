/** Whole runs of a node: requests through handle, and what happens beside them. */
module HostRun {
  import opened Wrappers
  import opened Paths
  import opened FileSystem
  import opened Layout
  import opened Recycle
  import opened Staging
  import opened Provenance
  import opened Maintenance
  import opened RestoreAnywhere
  import opened Crash
  import opened CrashRuns
  import Runs = StoreRun
  import P = Protocol
  import A = ImportAuth
  import Trace = AuthTrace
  import M = Master
  import L = Listing
  import opened Cursors
  import opened Host

  /** A call, what happens beside calls, and crashes: in between, in the middle of a call, in the
      middle of a staging collection. */
  datatype Event =
    | Call(f: P.Frame, caller: string, trust: P.Trust, loopback: bool, inp: Inputs)
    | PushedGrant(from: string, pushed: A.Pushed, now: int)
    | AdminDelete(device: string, space: string, path: string, stamp: Stamp)
    | CollectStaging(deadline: int)
    | CollectRecycle(parse: string -> Option<int>, cutoff: int)
    | PurgeDevice(device: string)
    | WipeSelf
    | Restart(at: int)
    | Cut(f: P.Frame, caller: string, trust: P.Trust, loopback: bool, inp: Inputs, k: nat, at: int)
    | CutCollection(deadline: int, order: seq<Collected>, k: nat, at: int)

  /** The request passes the access check and the write fence. */
  predicate Enters(site: Site, s: State, ev: Event) {
    && ev.Call?
    && P.CheckAcl(ev.f, ev.caller, ev.trust, ev.loopback) == P.Allow
    && !(NeedsMasterFence(ev.f.op) && s.pointer.master != site.localId)
  }

  /** purge_device: files and cursor go together, or nothing does. */
  function Purged(site: Site, s: State, device: string): State {
    var (fs, e) := Purge(s.store.fs, device, site.localId);
    s.(store := s.store.(fs := fs), cursors := if e.None? then Remove(s.cursors, device) else s.cursors)
  }

  ghost function Next(site: Site, s: State, ev: Event): State {
    match ev
    case Call(f, caller, trust, loopback, inp) => Handle(site, s, f, caller, trust, loopback, inp).0
    case PushedGrant(from, pushed, now) => s.(auth := A.ReceivePushed(s.auth, site.localId, from, pushed, now).0)
    case AdminDelete(device, space, path, stamp) =>
      if !IsValidDeviceId(device) || !IsValidSpace(space) then s
      else s.(store := s.store.(fs := Delete(s.store.fs, site.localId, device, space, path, stamp).0))
    case CollectStaging(deadline) => s.(store := GcStaging(s.store, deadline))
    case CollectRecycle(parse, cutoff) => s.(store := s.store.(fs := GcRecycle(s.store.fs, parse, cutoff)))
    case PurgeDevice(device) => Purged(site, s, device)
    case WipeSelf => s.(store := s.store.(fs := Wipe(s.store.fs, site.localId, site.localId).0))
    case Restart(_) => Died(s, s.store)
    case Cut(f, caller, trust, loopback, inp, k, _) =>
      Died(s, if Enters(site, s, Call(f, caller, trust, loopback, inp)) then CutStore(site, s.store, f, caller, inp, k)
           else s.store)
    case CutCollection(_, order, k, _) => Died(s, DoAll(s.store, Upto(SweepActs(order), k)))
  }

  /** The process ends with the disk as in `store`; its tables are gone. */
  function Died(s: State, store: Store): State {
    s.(store := Crashed(store), auth := s.auth.(seed := map[]))
  }

  /** A begin or a commit cut off after k actions; other operations happen as a whole or not at all. */
  function CutStore(site: Site, s: Store, f: P.Frame, caller: string, inp: Inputs, k: nat): Store {
    match f.op
    case WriteBegin => BeginCut(s, caller, f.space, f.path, f.size, f.sha, UploadId(f, inp), inp.now, k)
    case Commit => CommitCut(site.reader.hash, s, site.localId, BatchIds(f), inp.clock, k)
    case _ => s
  }

  ghost function Run(site: Site, s: State, evs: seq<Event>): State
    decreases |evs|
  {
    if evs == [] then s else Run(site, Next(site, s, evs[0]), evs[1..])
  }

  // ---------- files: every call is one step of the store ----------

  function CallStep(f: P.Frame, caller: string, inp: Inputs): Option<Runs.Event> {
    match f.op
    case WriteBegin => Some(Runs.BeginEv(caller, f.space, f.path, f.size, f.sha, UploadId(f, inp), inp.now))
    case WriteChunk => Some(Runs.ChunkEv(ChunkId(f), f.data, f.offset))
    case Commit => Some(Runs.CommitEv(BatchIds(f), inp.clock))
    case Delete => Some(Runs.DeleteEv(P.TargetDevice(f, caller), f.space, f.path, inp.stamp))
    case RecycleRestore => Some(Runs.RestoreEv(f.recyclePath, inp.stamp))
    case RecycleEmpty => Some(Runs.EmptyEv)
    case _ => None
  }

  function CutStep(f: P.Frame, caller: string, inp: Inputs, k: nat): Runs.Event {
    match f.op
    case WriteBegin => Runs.BeginCrashEv(caller, f.space, f.path, f.size, f.sha, UploadId(f, inp), inp.now, k)
    case Commit => Runs.CommitCrashEv(BatchIds(f), inp.clock, k)
    case _ => Runs.RestartEv
  }

  /** The step of the store an event amounts to, if any. */
  function FileStep(site: Site, s: State, ev: Event): Option<Runs.Event> {
    match ev
    case Call(f, caller, _, _, inp) => if Enters(site, s, ev) then CallStep(f, caller, inp) else None
    case PushedGrant(_, _, _) => None
    case AdminDelete(device, space, path, stamp) =>
      if !IsValidDeviceId(device) || !IsValidSpace(space) then None else Some(Runs.DeleteEv(device, space, path, stamp))
    case CollectStaging(deadline) => Some(Runs.GcStagingEv(deadline))
    case CollectRecycle(parse, cutoff) => Some(Runs.GcRecycleEv(parse, cutoff))
    case PurgeDevice(device) => Some(Runs.PurgeEv(device))
    case WipeSelf => Some(Runs.WipeEv)
    case Restart(_) => Some(Runs.RestartEv)
    case Cut(f, caller, trust, loopback, inp, k, _) =>
      Some(if Enters(site, s, Call(f, caller, trust, loopback, inp)) then CutStep(f, caller, inp, k)
           else Runs.RestartEv)
    case CutCollection(deadline, order, k, _) => Some(Runs.GcCrashEv(deadline, order, k))
  }

  lemma CallIsStep(site: Site, s: State, f: P.Frame, caller: string, inp: Inputs)
    ensures Dispatch(site, s, f, caller, inp).0.store ==
            match CallStep(f, caller, inp)
            case None => s.store
            case Some(e) => Runs.Step(Cfg(site), s.store, e)
  {
    hide Begin, Chunk, Commit, Delete, Restore, EmptyBin, Look, A.RequireImportGrant, A.CreateRequest, A.GrantRequest,
      A.RejectRequest;
  }

  /** The step is about what the frame names: its own uploads, its own device or the one it names, its own path. */
  predicate AsNamed(f: P.Frame, caller: string, inp: Inputs, step: Runs.Event) {
    match step
    case BeginEv(who, space, path, _, _, id, _) =>
      who == caller && space == f.space && path == f.path && id == (if f.uploadId.Some? then f.uploadId.value
                                                                   else inp.unnamed)
    case BeginCrashEv(who, space, path, _, _, id, _, _) =>
      who == caller && space == f.space && path == f.path && id == (if f.uploadId.Some? then f.uploadId.value
                                                                   else inp.unnamed)
    case ChunkEv(id, raw, offset) =>
      (f.uploadId.Some? ==> id == f.uploadId.value) && raw == f.data && offset == f.offset
    case CommitEv(ids, _) => Names(f, ids)
    case CommitCrashEv(ids, _, _) => Names(f, ids)
    case DeleteEv(device, space, path, _) =>
      device == (if f.device == "" then caller else f.device) && space == f.space && path == f.path
    case RestoreEv(path, _) => path == f.recyclePath
    case _ => true
  }

  /** What an event does to the store is exactly its step, or nothing; and a request's step is about what it names. */
  lemma EventIsStep(site: Site, s: State, ev: Event)
    ensures (ev.Call? || ev.Cut?) && FileStep(site, s, ev).Some? ==>
              AsNamed(ev.f, ev.caller, ev.inp, FileStep(site, s, ev).value)
    ensures Next(site, s, ev).store ==
            match FileStep(site, s, ev)
            case None => s.store
            case Some(e) => Runs.Step(Cfg(site), s.store, e)
  {
    hide Dispatch, CallStep, Delete, GcStaging, GcRecycle, Purge, Wipe, P.CheckAcl, CutStore, CutStep, Crashed, DoAll,
      SweepActs, AsNamed;
    if ev.Call? {
      CallIsStep(site, s, ev.f, ev.caller, ev.inp);
      StepAsNamed(ev.f, ev.caller, ev.inp, 0);
    } else if ev.Cut? {
      CutIsStep(site, s.store, ev.f, ev.caller, ev.inp, ev.k);
      StepAsNamed(ev.f, ev.caller, ev.inp, ev.k);
    }
    RestartIsCrash(site, s.store);
  }

  lemma StepAsNamed(f: P.Frame, caller: string, inp: Inputs, k: nat)
    ensures CallStep(f, caller, inp).Some? ==> AsNamed(f, caller, inp, CallStep(f, caller, inp).value)
    ensures AsNamed(f, caller, inp, CutStep(f, caller, inp, k)) && AsNamed(f, caller, inp, Runs.RestartEv)
  {
  }

  lemma CutIsStep(site: Site, s: Store, f: P.Frame, caller: string, inp: Inputs, k: nat)
    ensures Crashed(CutStore(site, s, f, caller, inp, k)) == Runs.Step(Cfg(site), s, CutStep(f, caller, inp, k))
  {
    hide BeginCut, CommitCut, Crashed;
  }

  lemma RestartIsCrash(site: Site, s: Store)
    ensures Crashed(s) == Runs.Step(Cfg(site), s, Runs.RestartEv)
  {
    hide Crashed;
  }

  /** What an event assumes of the world: callers are device fingerprints, dates are dates, and after a
      restore every file still belongs to its device and space. */
  ghost predicate Sound(site: Site, s: State, ev: Event) {
    && (ev.Call? || ev.Cut? ==> IsValidDeviceId(ev.caller))
    && match FileStep(site, s, ev)
       case Some(DeleteEv(_, _, _, stamp)) => DateSeg(stamp.date)
       case Some(CommitEv(ids, clock)) => Dated(clock, |ids|)
       case Some(CommitCrashEv(ids, clock, _)) => Dated(clock, |ids|)
       case Some(GcCrashEv(deadline, order, _)) => forall c <- order ::
           Stale(s.store.fs, c.device, c.space, c.id, deadline)
       case Some(RestoreEv(path, stamp)) =>
         IsValidDeviceId(site.localId) && DateSeg(stamp.date) && RestoreSound(s.store.fs, site.localId, path, stamp)
       case _ => true
  }

  /** The access check supplies the rest of what a step of the store asks for. */
  lemma SoundIsLegal(site: Site, s: State, ev: Event)
    requires Sound(site, s, ev) && FileStep(site, s, ev).Some?
    ensures Runs.Legal(Cfg(site), s.store, FileStep(site, s, ev).value)
  {
    hide Dated, DateSeg, RestoreSound, Stale;
  }

  /** The steps of a run on the store. */
  ghost function FileTrace(site: Site, s: State, evs: seq<Event>): seq<Runs.Event>
    decreases |evs|
  {
    if evs == [] then []
    else
      var rest := FileTrace(site, Next(site, s, evs[0]), evs[1..]);
      match FileStep(site, s, evs[0])
      case None => rest
      case Some(e) => [e] + rest
  }

  ghost predicate SoundRun(site: Site, s: State, evs: seq<Event>)
    decreases |evs|
  {
    evs != [] ==> Sound(site, s, evs[0]) && SoundRun(site, Next(site, s, evs[0]), evs[1..])
  }

  /** A run of the node is, on the store, a legal run of the store. */
  lemma {:induction false} RunIsStoreRun(site: Site, s: State, evs: seq<Event>)
    requires SoundRun(site, s, evs)
    ensures Run(site, s, evs).store == Runs.Run(Cfg(site), s.store, FileTrace(site, s, evs))
    ensures Runs.LegalRun(Cfg(site), s.store, FileTrace(site, s, evs))
    decreases |evs|
  {
    hide Next, Sound, FileStep, Runs.Step, Runs.Legal;
    if evs != [] {
      EventIsStep(site, s, evs[0]);
      RunIsStoreRun(site, Next(site, s, evs[0]), evs[1..]);
      if FileStep(site, s, evs[0]).Some? {
        var e, rest := FileStep(site, s, evs[0]).value, FileTrace(site, Next(site, s, evs[0]), evs[1..]);
        SoundIsLegal(site, s, evs[0]);
        assert ([e] + rest)[1..] == rest;
      }
    }
  }

  /** Conservation for a whole node, from any state that satisfies the staging invariant: for every
      content, stored copies at the end plus those the removing events removed and those overwritten in
      the bin equal those at the start plus those the commits reported. */
  lemma NodeConserves(site: Site, b: set<Begun>, s: State, evs: seq<Event>, c: Bytes)
    requires Runs.Accounted(site.reader.hash, b, s.store) && SoundRun(site, s, evs)
    ensures Copies(Run(site, s, evs).store.fs, c)
            + Runs.TotalLoss(Cfg(site), s.store, FileTrace(site, s, evs), c)
            + Runs.TotalOverwritten(Cfg(site), s.store, FileTrace(site, s, evs))[c]
            == Copies(s.store.fs, c) + Runs.TotalGain(Cfg(site), s.store, FileTrace(site, s, evs), c)
  {
    hide Runs.Accounted, Copies, SoundRun, Run, Runs.Run, Runs.LegalRun, FileTrace;
    RunIsStoreRun(site, s, evs);
    Runs.RunConserves(Cfg(site), b, s.store, FileTrace(site, s, evs), c);
  }

  /** Provenance for a whole node: starting empty, every file it ever holds, official or recycled,
      has the size and hash of an upload its own device began in its own space. */
  lemma NodeKnowsItsFiles(site: Site, s: State, evs: seq<Event>)
    requires IsValidDeviceId(site.localId) && s.store == Runs.Opened(site.localId) && SoundRun(site, s, evs)
    ensures Runs.Accounted(site.reader.hash, Runs.BegunDuring(Cfg(site), {}, s.store, FileTrace(site, s, evs)),
                           Run(site, s, evs).store)
  {
    hide Runs.Accounted, SoundRun, Run, Runs.Run, Runs.LegalRun, FileTrace, Runs.Opened;
    Runs.OpenedHolds(Cfg(site));
    RunIsStoreRun(site, s, evs);
    Runs.RunKeeps(Cfg(site), {}, s.store, FileTrace(site, s, evs));
  }

  // ---------- authorisation: private reads traced through the whole run ----------

  function AuthStep(ev: Event): seq<Trace.Event> {
    match ev
    case Call(f, caller, trust, loopback, inp) => [Trace.Call(f, caller, trust, loopback, inp.nonce, inp.now)]
    case PushedGrant(from, pushed, now) => [Trace.Push(from, pushed, now)]
    case Restart(at) => [Trace.Restart(at)]
    case Cut(_, _, _, _, _, _, at) => [Trace.Restart(at)]
    case CutCollection(_, _, _, at) => [Trace.Restart(at)]
    case _ => []
  }

  /** The part of a run that has to do with authorisation. */
  function AuthTrace(evs: seq<Event>): seq<Trace.Event> {
    if evs == [] then [] else AuthTrace(evs[..|evs| - 1]) + AuthStep(evs[|evs| - 1])
  }

  lemma {:induction false} RunEnd(site: Site, s: State, evs: seq<Event>)
    requires evs != []
    ensures Run(site, s, evs) == Next(site, Run(site, s, evs[..|evs| - 1]), evs[|evs| - 1])
    decreases |evs|
  {
    hide Next;
    if |evs| > 1 {
      RunEnd(site, Next(site, s, evs[0]), evs[1..]);
      assert evs[1..][..|evs| - 2] == evs[..|evs| - 1][1..];
    } else {
      assert evs[..0] == [] && evs[1..] == [];
    }
  }

  lemma CallAuth(site: Site, s: State, f: P.Frame, caller: string, trust: P.Trust, loopback: bool, inp: Inputs)
    ensures Handle(site, s, f, caller, trust, loopback, inp).0.auth
            == Trace.Step(site.localId, s.auth, Trace.Call(f, caller, trust, loopback, inp.nonce, inp.now))
  {
    hide Begin, Chunk, Commit, Delete, Restore, EmptyBin, Look, A.RequireImportGrant, A.CreateRequest, A.GrantRequest,
      A.RejectRequest, P.CheckAcl, A.AuthorizeSeed;
  }

  lemma AuthFollows(site: Site, s: State, ev: Event)
    ensures AuthStep(ev) == [] ==> Next(site, s, ev).auth == s.auth
    ensures AuthStep(ev) != [] ==> Next(site, s, ev).auth == Trace.Step(site.localId, s.auth, AuthStep(ev)[0])
  {
    hide Handle, Delete, GcStaging, GcRecycle, Purge, Wipe;
    if ev.Call? {
      CallAuth(site, s, ev.f, ev.caller, ev.trust, ev.loopback, ev.inp);
    }
  }

  lemma {:induction false} RunAuth(site: Site, s: State, evs: seq<Event>)
    requires s.auth == A.Auth([], [], [], map[])
    ensures Run(site, s, evs).auth == Trace.Run(site.localId, AuthTrace(evs))
  {
    hide Next, Trace.Step, AuthStep;
    if evs != [] {
      var n := |evs| - 1;
      RunEnd(site, s, evs);
      RunAuth(site, s, evs[..n]);
      AuthFollows(site, Run(site, s, evs[..n]), evs[n]);
      AuthStepSize(evs[n]);
      hide Run;
      if AuthStep(evs[n]) != [] {
        Trace.PrefixOf(site.localId, AuthTrace(evs[..n]), AuthStep(evs[n])[0]);
      } else {
        assert AuthTrace(evs) == AuthTrace(evs[..n]);
      }
    }
  }

  lemma AuthStepSize(ev: Event)
    ensures AuthStep(ev) == [] || AuthStep(ev) == [AuthStep(ev)[0]]
  {
  }

  /** The request was not turned away; it may still name no file or no valid path. */
  predicate Admitted(r: Reply) {
    r.Ok? || r.error == BadPath || r.error == NotFound
  }

  lemma LookAdmits(site: Site, s: State, f: P.Frame, caller: string, inp: Inputs)
    ensures Admitted(Look(site, s, f, caller, inp))
  {
    hide Named, Normalize, L.Flatten, L.Filled;
  }

  /** After any run of the node, a list, meta or read of another device's attachments or backups is
      admitted exactly when the run itself justifies it: a sync.cursors call by this caller in the
      last 15 minutes of this process for a seeding peer, else a grant the local user issued in the
      last 24 hours on this caller's own request for that device. */
  lemma PrivateReadsTraced(site: Site, s: State, evs: seq<Event>, f: P.Frame, c: string, trust: P.Trust,
                           loopback: bool, inp: Inputs)
    requires s.auth == A.Auth([], [], [], map[])
    requires f.op == P.List || f.op == P.Op.Meta || f.op == P.Read
    requires A.IsPrivateRead(f, c) && IsValidSpace(f.space) && Trace.Ordered(AuthTrace(evs), inp.now)
    ensures Admitted(Handle(site, Run(site, s, evs), f, c, trust, loopback, inp).1)
            <==>
            && trust == P.Trust.Owner && IsValidDeviceId(f.device)
            && (if f.seed then Trace.SeededBy(AuthTrace(evs), c, inp.now)
                else f.grant != "" && Trace.GrantedTo(site.localId, AuthTrace(evs), f.grant, f.device, c, inp.now))
  {
    hide Run, Trace.Run, Trace.SeededBy, Trace.GrantedTo, Trace.Ordered, A.RequireImportGrant, P.CheckAcl, Look,
      AuthTrace, IsValidDeviceId, IsValidSpace;
    RunAuth(site, s, evs);
    Trace.PrivateReadIff(site.localId, AuthTrace(evs), f, c, trust, loopback, inp.now);
    LookAdmits(site, Run(site, s, evs), f, c, inp);
    ReadReply(site, Run(site, s, evs), f, c, trust, loopback, inp);
  }

  lemma ReadReply(site: Site, s: State, f: P.Frame, c: string, trust: P.Trust, loopback: bool, inp: Inputs)
    requires f.op == P.List || f.op == P.Op.Meta || f.op == P.Read
    requires Admitted(Look(site, s, f, c, inp))
    ensures Admitted(Handle(site, s, f, c, trust, loopback, inp).1)
            <==> P.CheckAcl(f, c, trust, loopback) == P.Allow && A.RequireImportGrant(s.auth, f, c, inp.now).1
  {
    hide Look, P.CheckAcl, A.RequireImportGrant;
  }

  // ---------- cursors ----------

  /** What a call credits to device d: the upto_seq of its own delete that succeeded, or of its own
      commit that returned with no member failed. */
  ghost function Credited(site: Site, s: State, ev: Event, d: string): seq<int> {
    if !ev.Call? || ev.caller != d || ev.f.upto.None? then []
    else
      var r := Handle(site, s, ev.f, ev.caller, ev.trust, ev.loopback, ev.inp).1;
      if r.Ok? && (r.value.Gone? || (r.value.Batch? && r.value.failed == [])) then [ev.f.upto.value] else []
  }

  ghost function Credits(site: Site, s: State, evs: seq<Event>, d: string): seq<int>
    decreases |evs|
  {
    if evs == [] then [] else Credited(site, s, evs[0], d) + Credits(site, Next(site, s, evs[0]), evs[1..], d)
  }

  /** m is the greatest of a starting value and some credits. */
  predicate IsGreatest(m: int, start: int, credits: seq<int>) {
    m >= start && (m == start || m in credits) && forall c <- credits :: c <= m
  }

  lemma CreditIsGreatest(m: Table, caller: string, upto: Option<int>, d: string)
    ensures IsGreatest(AppliedSeq(Credit(m, caller, upto).0, d), AppliedSeq(m, d),
                       if caller == d && upto.Some? then [upto.value] else [])
  {
    if caller == d && upto.Some? {
      assert upto.value in [upto.value];
    }
  }

  lemma CallCursors(site: Site, s: State, f: P.Frame, caller: string, trust: P.Trust, loopback: bool, inp: Inputs)
    ensures var (g, r) := Handle(site, s, f, caller, trust, loopback, inp);
            g.cursors ==
              if r.Ok? && (r.value.Gone? || (r.value.Batch? && r.value.failed == []))
              then Credit(s.cursors, caller, f.upto).0
              else s.cursors
  {
    hide Begin, Chunk, Commit, Delete, Restore, EmptyBin, Look, A.RequireImportGrant, A.CreateRequest, A.GrantRequest,
      A.RejectRequest, P.CheckAcl, A.AuthorizeSeed, M.Apply, M.ApplyReply, M.Migrated, Credit;
    LookIsNoWrite(site, s, f, caller, inp);
  }

  lemma LookIsNoWrite(site: Site, s: State, f: P.Frame, caller: string, inp: Inputs)
    ensures var r := Look(site, s, f, caller, inp); r.Ok? ==> !r.value.Gone? && !r.value.Batch?
  {
    hide Named, Normalize, L.Flatten, L.Filled;
  }

  lemma CursorStep(site: Site, s: State, ev: Event, d: string)
    requires ev != PurgeDevice(d)
    ensures IsGreatest(AppliedSeq(Next(site, s, ev).cursors, d), AppliedSeq(s.cursors, d), Credited(site, s, ev, d))
  {
    hide Handle, Delete, GcStaging, GcRecycle, Purge, Wipe, IsGreatest, Credit;
    NothingCredited(AppliedSeq(s.cursors, d));
    if ev.Call? {
      CallCursors(site, s, ev.f, ev.caller, ev.trust, ev.loopback, ev.inp);
      CreditIsGreatest(s.cursors, ev.caller, ev.f.upto, d);
    }
  }

  lemma NothingCredited(m: int)
    ensures IsGreatest(m, m, [])
  {
  }

  /** Between purges of d, the cursor of d is the greatest of where it stood and every upto_seq of
      d's own successful deletes and fully committed batches; so it never falls. */
  lemma {:induction false} CursorIsGreatest(site: Site, s: State, evs: seq<Event>, d: string)
    requires PurgeDevice(d) !in evs
    ensures IsGreatest(AppliedSeq(Run(site, s, evs).cursors, d), AppliedSeq(s.cursors, d), Credits(site, s, evs, d))
    decreases |evs|
  {
    hide Next, Credited;
    if evs != [] {
      CursorStep(site, s, evs[0], d);
      CursorIsGreatest(site, Next(site, s, evs[0]), evs[1..], d);
    }
  }

  /** A purge that succeeds starts the device's cursor over. */
  lemma PurgeForgets(site: Site, s: State, d: string)
    ensures Purge(s.store.fs, d, site.localId).1.None? ==> AppliedSeq(Next(site, s, PurgeDevice(d)).cursors, d) == 0
    ensures Purge(s.store.fs, d, site.localId).1.Some? ==> Next(site, s, PurgeDevice(d)).cursors == s.cursors
  {
    hide Purge;
  }

  // ---------- the write fence ----------

  /** While another node is master, no call moves a cursor, and none touches uploads or
      files but those on the recycle bin, which the fence does not cover. */
  lemma FenceHolds(site: Site, s: State, ev: Event)
    requires ev.Call? && s.pointer.master != site.localId
    ensures Next(site, s, ev).cursors == s.cursors
    ensures ev.f.op != P.RecycleRestore && ev.f.op != P.RecycleEmpty ==> Next(site, s, ev).store == s.store
    ensures Next(site, s, ev).store.uploads == s.store.uploads
    ensures NeedsMasterFence(ev.f.op) ==>
              Next(site, s, ev) == s && Handle(site, s, ev.f, ev.caller, ev.trust, ev.loopback, ev.inp).1.Err?
  {
    hide Handle, NeedsMasterFence;
    CallFenced(site, s, ev.f, ev.caller, ev.trust, ev.loopback, ev.inp);
  }

  lemma CallFenced(site: Site, s: State, f: P.Frame, caller: string, trust: P.Trust, loopback: bool, inp: Inputs)
    requires s.pointer.master != site.localId
    ensures var (after, r) := Handle(site, s, f, caller, trust, loopback, inp);
            && after.cursors == s.cursors && after.store.uploads == s.store.uploads
            && (f.op != P.RecycleRestore && f.op != P.RecycleEmpty ==> after.store == s.store)
            && (NeedsMasterFence(f.op) ==> after == s && r.Err?)
  {
    hide Begin, Chunk, Commit, Delete, Restore, EmptyBin, Look, A.RequireImportGrant, A.CreateRequest, A.GrantRequest,
      A.RejectRequest, P.CheckAcl, A.AuthorizeSeed, M.Apply, M.ApplyReply, M.Migrated;
  }

  /** The master pointer moves only as in the protocol between nodes: by a valid newer message or a migration. */
  lemma PointerStep(site: Site, s: State, ev: Event)
    ensures var p := Next(site, s, ev).pointer;
            || p == s.pointer
            || (ev.Call? && ev.f.op == P.PointerApply && p == M.Apply(s.pointer, M.Pointer(ev.f.master, ev.f.epoch))
                && p.epoch > s.pointer.epoch)
            || (ev.Call? && ev.f.op == P.Migrate && p == M.Migrated(s.pointer, site.localId))
  {
    hide Handle, Delete, GcStaging, GcRecycle, Purge, Wipe, CutStore, DoAll, SweepActs, M.Apply, M.Migrated;
    if ev.Call? {
      CallPointer(site, s, ev.f, ev.caller, ev.trust, ev.loopback, ev.inp);
    }
  }

  lemma CallPointer(site: Site, s: State, f: P.Frame, caller: string, trust: P.Trust, loopback: bool, inp: Inputs)
    ensures var p := Handle(site, s, f, caller, trust, loopback, inp).0.pointer;
            || p == s.pointer
            || (f.op == P.PointerApply && p == M.Apply(s.pointer, M.Pointer(f.master, f.epoch))
                && p.epoch > s.pointer.epoch)
            || (f.op == P.Migrate && p == M.Migrated(s.pointer, site.localId))
  {
    hide Begin, Chunk, Commit, Delete, Restore, EmptyBin, Look, A.RequireImportGrant, A.CreateRequest, A.GrantRequest,
      A.RejectRequest, P.CheckAcl, A.AuthorizeSeed, M.ApplyReply, M.Migrated;
  }
}
