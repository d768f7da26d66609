/** What the requests about imports, cursors and the master pointer answer and leave behind. */
module Steering {
  import opened Wrappers
  import opened Layout
  import opened Host
  import opened Requests
  import P = Protocol
  import A = ImportAuth
  import M = Master

  /** Only the import lists have changed. */
  predicate OnlyAuth(s: State, after: State) {
    after == s.(auth := after.auth)
  }

  predicate PendingFor(r: A.Request, oldDevice: string, newDevice: string) {
    r.oldDevice == oldDevice && r.newDevice == newDevice && r.status == A.Pending
  }

  // ---------- imports ----------

  /** import.request: a request of this pair that is pending is handed out again, the oldest of them; otherwise a
      new one, under the id drawn for it, is noted and handed out. */
  lemma RequestLaw(site: Site, s: State, f: P.Frame, caller: string, loopback: bool, inp: Inputs)
    requires f.op == P.ImportRequest && HexId(f.oldDevice) && f.oldDevice != caller
    ensures var (after, r) := Handle(site, s, f, caller, P.Trust.Owner, loopback, inp);
            var asked := s.auth.requests;
            if exists q <- asked :: PendingFor(q, f.oldDevice, caller) then
              && after == s
              && (exists k :: 0 <= k < |asked| && r == Ok(Asked(asked[k])) && PendingFor(asked[k], f.oldDevice, caller)
                              && forall j :: 0 <= j < k ==> !PendingFor(asked[j], f.oldDevice, caller))
            else
              var noted := A.Request(inp.nonce, f.oldDevice, caller, inp.now, A.Pending);
              r == Ok(Asked(noted)) && after == s.(auth := s.auth.(requests := asked + [noted]))
  {
    hide HexId, TurnedAway;
    NamedLetIn(site, s, f, caller, loopback, inp);
    hide Handle;
    var asked := s.auth.requests;
    var k := A.FirstPending(asked, f.oldDevice, caller);
    if k < |asked| {
      assert asked[k] in asked && PendingFor(asked[k], f.oldDevice, caller);
    }
  }

  /** A list holds just those of another that pass, in their order. */
  ghost predicate Sifted<T(!new)>(all: seq<T>, some: seq<T>, pass: T -> bool) {
    if all == [] then some == []
    else if pass(all[0]) then some != [] && some[0] == all[0] && Sifted(all[1..], some[1..], pass)
    else Sifted(all[1..], some, pass)
  }

  ghost function IsPending(): A.Request -> bool {
    (r: A.Request) => r.status == A.Pending
  }

  ghost function IsLive(now: int): A.Grant -> bool {
    (g: A.Grant) => !g.revoked && now <= g.expires
  }

  ghost function IsNot(id: string): A.Grant -> bool {
    (g: A.Grant) => g.id != id
  }

  lemma {:induction false} WaitingSifts(rs: seq<A.Request>)
    ensures Sifted(rs, A.Waiting(rs), IsPending())
  {
    if rs != [] {
      WaitingSifts(rs[1..]);
      assert ([rs[0]] + A.Waiting(rs[1..]))[1..] == [] + A.Waiting(rs[1..]) == A.Waiting(rs[1..]);
    }
  }

  lemma {:induction false} LiveSifts(gs: seq<A.Grant>, now: int)
    ensures Sifted(gs, A.Live(gs, now), IsLive(now))
  {
    if gs != [] {
      LiveSifts(gs[1..], now);
      assert ([gs[0]] + A.Live(gs[1..], now))[1..] == [] + A.Live(gs[1..], now) == A.Live(gs[1..], now);
    }
  }

  /** import.pending: the requests that are pending, in order. */
  lemma PendingLaw(site: Site, s: State, f: P.Frame, caller: string, loopback: bool, inp: Inputs)
    requires f.op == P.ImportPending
    ensures var (after, r) := Handle(site, s, f, caller, P.Trust.Owner, loopback, inp);
            after == s && r.Ok? && r.value.Requests?
            && Sifted(s.auth.requests, r.value.requests, IsPending())
  {
    hide TurnedAway, A.Waiting, Sifted;
    OthersLetIn(site, s, f, caller, loopback, inp);
    WaitingSifts(s.auth.requests);
    hide Handle;
  }

  /** import.grants: the grants of this node in their role - those it issued, or those it received - that are
      neither revoked nor past their time, in order. */
  lemma GrantsLaw(site: Site, s: State, f: P.Frame, caller: string, inp: Inputs)
    requires f.op == P.ImportGrants
    ensures var (after, r) := Handle(site, s, f, caller, P.Trust.Owner, true, inp);
            && after == s && r.Ok? && r.value.Grants?
            && (f.role == "issued" ==> Sifted(s.auth.grants, r.value.grants, IsLive(inp.now)))
            && (f.role != "issued" ==> Sifted(s.auth.received, r.value.grants, IsLive(inp.now)))
  {
    hide TurnedAway, A.Live, Sifted;
    UserLetIn(site, s, f, caller, true, inp);
    LiveSifts(s.auth.grants, inp.now);
    LiveSifts(s.auth.received, inp.now);
    hide Handle;
  }

  /** import.grant: the first request of that id, if it is pending, is granted: a grant for its two devices, for
      backups and attachments, for the next 24 hours. */
  lemma GrantLaw(site: Site, s: State, f: P.Frame, caller: string, inp: Inputs)
    requires f.op == P.ImportGrant
    ensures var (after, r) := Handle(site, s, f, caller, P.Trust.Owner, true, inp);
            var asked := s.auth.requests;
            if f.requestId == "" then after == s && r == Err(BadOp)
            else if forall q <- asked :: q.id != f.requestId then after == s && r == Err(NotFound)
            else exists k ::
              && 0 <= k < |asked| && asked[k].id == f.requestId
                 && (forall j :: 0 <= j < k ==> asked[j].id != f.requestId)
              && if asked[k].status != A.Pending then after == s && r == Err(BadOp)
                 else
                   var g := A.Grant(inp.nonce, asked[k].oldDevice, asked[k].newDevice, ["backups", "attachments"],
                                    inp.now, inp.now + 86_400_000, false);
                   && r == Ok(Granting(g))
                   && after == s.(auth := s.auth.(grants := s.auth.grants + [g],
                                                  requests := asked[k := asked[k].(status := A.Granted)]))
  {
    hide TurnedAway;
    UserLetIn(site, s, f, caller, true, inp);
    hide Handle;
    var k := A.Position(s.auth.requests, f.requestId);
    if k < |s.auth.requests| { assert s.auth.requests[k] in s.auth.requests; }
  }

  /** import.reject: every request of that id becomes rejected, and nothing else changes. */
  lemma RejectLaw(site: Site, s: State, f: P.Frame, caller: string, inp: Inputs)
    requires f.op == P.ImportReject
    ensures var (after, r) := Handle(site, s, f, caller, P.Trust.Owner, true, inp);
            var asked := s.auth.requests;
            if f.requestId == "" then after == s && r == Err(BadOp)
            else
              && r == Ok(Refused) && |after.auth.requests| == |asked|
              && after == s.(auth := s.auth.(requests := after.auth.requests))
              && forall i :: 0 <= i < |asked| ==>
                   after.auth.requests[i]
                   == if asked[i].id == f.requestId then asked[i].(status := A.Rejected) else asked[i]
  {
    hide TurnedAway;
    UserLetIn(site, s, f, caller, true, inp);
    hide Handle;
  }

  /** A grant pushed by another node is kept as a received one, in place of any of its id; what it leaves open is
      filled in: the sender as the device, both private spaces, the next 24 hours. */
  lemma PushedLaw(a: A.Auth, localId: string, from: string, p: A.Pushed, now: int)
    ensures var (after, e) := A.ReceivePushed(a, localId, from, p, now);
            if p.grantId == "" || (!HexId(p.oldDevice) && !HexId(from)) then after == a && e == Some(BadOp)
            else
              && e == None && after.received != []
              && var g := after.received[|after.received| - 1];
                 && after == a.(received := after.received)
                 && g == A.Grant(p.grantId, if HexId(p.oldDevice) then p.oldDevice else from, localId,
                                 if p.spaces == [] then ["backups", "attachments"] else p.spaces, p.issued,
                                 if p.expires > 0 then p.expires else now + 86_400_000, false)
                 && Sifted(a.received, after.received[..|after.received| - 1], IsNot(p.grantId))
  {
    hide HexId, Sifted;
    HexIdIs(p.oldDevice);
    HexIdIs(from);
    OtherGrants(a.received, p.grantId);
  }

  lemma {:induction false} OtherGrants(gs: seq<A.Grant>, id: string)
    ensures Sifted(gs, A.WithoutGrant(gs, id), IsNot(id))
  {
    if gs != [] {
      OtherGrants(gs[1..], id);
      var rest := A.WithoutGrant(gs[1..], id);
      assert ([gs[0]] + rest)[1..] == [] + rest == rest;
    }
  }

  // ---------- cursors ----------

  /** sync.hello: how far the caller's own journal has been applied; 0 for one never heard of. */
  lemma HelloLaw(site: Site, s: State, f: P.Frame, caller: string, loopback: bool, inp: Inputs)
    requires f.op == P.SyncHello && HexId(f.device) && f.device == caller && s.pointer.master == site.localId
    ensures Handle(site, s, f, caller, P.Trust.Owner, loopback, inp)
            == (s, Ok(Position(Applied(s.cursors, caller))))
  {
    hide HexId, TurnedAway;
    HexIdIs(caller);
    NamedLetIn(site, s, f, caller, loopback, inp);
    hide Handle;
  }

  /** sync.cursors: all cursors; and a caller that has a name may seed for the next 15 minutes. */
  lemma CursorsLaw(site: Site, s: State, f: P.Frame, caller: string, loopback: bool, inp: Inputs)
    requires f.op == P.SyncCursors
    ensures var (after, r) := Handle(site, s, f, caller, P.Trust.Owner, loopback, inp);
            && r == Ok(AllCursors(s.cursors))
            && (caller != "" ==> after == s.(auth := s.auth.(seed := s.auth.seed[caller := inp.now + 900_000])))
            && (caller == "" ==> after == s)
  {
    hide TurnedAway;
    OthersLetIn(site, s, f, caller, loopback, inp);
    hide Handle;
  }

  // ---------- the master pointer ----------

  /** master.pointer.query: the pointer as it stands. */
  lemma QueryLaw(site: Site, s: State, f: P.Frame, caller: string, loopback: bool, inp: Inputs)
    requires f.op == P.PointerQuery
    ensures Handle(site, s, f, caller, P.Trust.Owner, loopback, inp) == (s, Ok(PointerIs(s.pointer)))
  {
    hide TurnedAway;
    OthersLetIn(site, s, f, caller, loopback, inp);
    hide Handle;
  }

  /** master.pointer: a message names a device and a positive epoch; only one of a later epoch is taken over, and
      the answer says what became of it. */
  lemma PointerLaw(site: Site, s: State, f: P.Frame, caller: string, loopback: bool, inp: Inputs)
    requires f.op == P.PointerApply
    ensures var (after, r) := Handle(site, s, f, caller, P.Trust.Owner, loopback, inp);
            var p := s.pointer;
            if !HexId(f.master) || f.epoch < 1 then after == s && r == Err(BadOp)
            else if f.epoch < p.epoch then after == s && r == Ok(PointerReply(M.Stale))
            else if f.epoch == p.epoch && f.master == p.master then after == s && r == Ok(PointerReply(M.Unchanged))
            else if f.epoch == p.epoch then after == s && r == Ok(PointerReply(M.SameEpochConflict))
            else
              var taken := M.Pointer(f.master, f.epoch);
              after == s.(pointer := taken) && r == Ok(PointerReply(M.Applied(taken)))
  {
    hide HexId, TurnedAway;
    HexIdIs(f.master);
    OthersLetIn(site, s, f, caller, loopback, inp);
    hide Handle;
  }

  /** master.migrate, which no fence holds back: this node is master at the next epoch - epoch 1 after a negative or
      the largest one - and answers with that and with all cursors. */
  lemma MigrateLaw(site: Site, s: State, f: P.Frame, caller: string, loopback: bool, inp: Inputs)
    requires f.op == P.Migrate
    ensures var e := s.pointer.epoch;
            var next := M.Pointer(site.localId, if e < 0 || e == 0x7fff_ffff_ffff_ffff then 1 else e + 1);
            Handle(site, s, f, caller, P.Trust.Owner, loopback, inp)
            == (s.(pointer := next), Ok(NowMaster(next, s.cursors)))
  {
    hide TurnedAway;
    OthersLetIn(site, s, f, caller, loopback, inp);
    hide Handle;
  }

  /** The pointer a node starts with: what its file says, but never a master that is no device; without a file, this
      node at epoch 0, which any first message or migration replaces. */
  lemma StartLaw(file: Option<M.Pointer>, self: string)
    requires HexId(self)
    ensures var p := M.Load(file, self);
            && HexId(p.master)
            && (file.None? ==> p == M.Pointer(self, 0))
            && (file.Some? ==> p.epoch == file.value.epoch)
            && (file.Some? && HexId(file.value.master) ==> p == file.value)
            && (file.Some? && !HexId(file.value.master) ==> p.master == self)
            && (file.None? ==> forall m: M.Pointer | HexId(m.master) && m.epoch >= 1 :: M.Apply(p, m) == m)
            && (file.None? ==> M.Migrated(p, self) == M.Pointer(self, 1))
  {
    hide HexId;
    HexIdIs(self);
    if file.Some? { HexIdIs(file.value.master); }
    forall m: M.Pointer ensures HexId(m.master) <==> IsValidDeviceId(m.master) { HexIdIs(m.master); }
  }
}
