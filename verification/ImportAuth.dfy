/** Import requests and grants, seed authorisations, and who may read private spaces. */
module ImportAuth {
  import opened Wrappers
  import opened Layout
  import opened Protocol

  datatype Status = Pending | Granted | Rejected

  datatype Request = Request(id: string, oldDevice: string, newDevice: string, at: int, status: Status)

  datatype Grant = Grant(id: string, oldDevice: string, newDevice: string, spaces: seq<string>, issued: int,
                         expires: int, revoked: bool)

  /** The three JSON lists, and the in-memory table of seed authorisations with their deadlines. */
  datatype Auth = Auth(requests: seq<Request>, grants: seq<Grant>, received: seq<Grant>, seed: map<string, int>)

  const TTL := 24 * 3600 * 1000
  const SEED_TTL := 15 * 60 * 1000
  const GRANT_SPACES := ["backups", "attachments"]

  // ---------- the operations, as functions ----------

  predicate IsPendingFor(r: Request, oldDevice: string, newDevice: string) {
    r.oldDevice == oldDevice && r.newDevice == newDevice && r.status == Pending
  }

  /** Index of the first element that passes, or the length. */
  function FirstPending(rs: seq<Request>, oldDevice: string, newDevice: string): (k: nat)
    ensures k <= |rs| && (k < |rs| ==> IsPendingFor(rs[k], oldDevice, newDevice))
    ensures forall i :: 0 <= i < k ==> !IsPendingFor(rs[i], oldDevice, newDevice)
  {
    if rs == [] then 0
    else if IsPendingFor(rs[0], oldDevice, newDevice) then 0
    else 1 + FirstPending(rs[1..], oldDevice, newDevice)
  }

  function Position(rs: seq<Request>, id: string): (k: nat)
    ensures k <= |rs| && (k < |rs| ==> rs[k].id == id)
    ensures forall i :: 0 <= i < k ==> rs[i].id != id
  {
    if rs == [] then 0 else if rs[0].id == id then 0 else 1 + Position(rs[1..], id)
  }

  /** create_request: an already pending request for the pair is handed out again. */
  function CreateRequest(a: Auth, oldDevice: string, newDevice: string, freshId: string, now: int): (Auth, Request) {
    var k := FirstPending(a.requests, oldDevice, newDevice);
    if k < |a.requests| then (a, a.requests[k])
    else
      var r := Request(freshId, oldDevice, newDevice, now, Pending);
      (a.(requests := a.requests + [r]), r)
  }

  function GrantRequest(a: Auth, requestId: string, freshId: string, now: int): (Auth, Result<Grant, OpError>) {
    var k := Position(a.requests, requestId);
    if k == |a.requests| then (a, Err(NotFound))
    else if a.requests[k].status != Pending then (a, Err(BadOp))
    else
      var g := Grant(freshId, a.requests[k].oldDevice, a.requests[k].newDevice, GRANT_SPACES, now, now + TTL, false);
      (a.(grants := a.grants + [g], requests := a.requests[k := a.requests[k].(status := Granted)]), Ok(g))
  }

  /** reject: every request of that id becomes rejected, whatever it was; grants stay. */
  function RejectRequest(a: Auth, requestId: string): Auth {
    a.(requests := seq(|a.requests|, i requires 0 <= i < |a.requests| =>
      if a.requests[i].id == requestId then a.requests[i].(status := Rejected) else a.requests[i]))
  }

  predicate Opens(g: Grant, grantId: string, oldDevice: string, newDevice: string, space: string, now: int) {
    && g.id == grantId && g.oldDevice == oldDevice && g.newDevice == newDevice
    && !g.revoked && now <= g.expires
    && space in g.spaces
  }

  predicate Validate(a: Auth, grantId: string, oldDevice: string, newDevice: string, space: string, now: int) {
    exists i :: 0 <= i < |a.grants| && Opens(a.grants[i], grantId, oldDevice, newDevice, space, now)
  }

  function WithoutGrant(gs: seq<Grant>, id: string): seq<Grant> {
    if gs == [] then [] else (if gs[0].id == id then [] else [gs[0]]) + WithoutGrant(gs[1..], id)
  }

  /** save_received: kept apart from issued grants, one per grant id. */
  function SaveReceived(a: Auth, g: Grant): Auth {
    a.(received := WithoutGrant(a.received, g.id) + [g])
  }

  /** The payload of a pushed grant; absent numbers read as 0, an absent list as []. */
  datatype Pushed = Pushed(grantId: string, oldDevice: string, spaces: seq<string>, issued: int, expires: int)

  /** receive_pushed_grant: a grant some other node issued to this one, kept as received. */
  function ReceivePushed(a: Auth, localId: string, from: string, p: Pushed, now: int): (Auth, Option<OpError>) {
    var oldDevice := if IsValidDeviceId(p.oldDevice) then p.oldDevice else from;
    if p.grantId == "" || !IsValidDeviceId(oldDevice) then (a, Some(BadOp))
    else
      var g := Grant(p.grantId, oldDevice, localId, if p.spaces == [] then GRANT_SPACES else p.spaces,
                     p.issued, if p.expires <= 0 then now + TTL else p.expires, false);
      (SaveReceived(a, g), None)
  }

  function AuthorizeSeed(a: Auth, caller: string, now: int): Auth {
    if caller == "" then a else a.(seed := a.seed[caller := now + SEED_TTL])
  }

  predicate SeedAuthorized(a: Auth, caller: string, now: int) {
    caller in a.seed && now < a.seed[caller]
  }

  /** is_seed_authorized drops an expired entry as it looks. */
  function DropExpired(a: Auth, caller: string, now: int): Auth {
    if caller in a.seed && now >= a.seed[caller] then a.(seed := map c | c in a.seed && c != caller :: a.seed[c]) else a
  }

  predicate IsPrivateRead(f: Frame, caller: string) {
    f.device != "" && f.device != caller && !SharedReadable(f.space)
  }

  /** require_import_grant */
  function RequireImportGrant(a: Auth, f: Frame, caller: string, now: int): (Auth, bool) {
    if !IsPrivateRead(f, caller) then (a, true)
    else if f.seed then (DropExpired(a, caller, now), SeedAuthorized(a, caller, now))
    else (a, f.grant != "" && Validate(a, f.grant, f.device, caller, f.space, now))
  }

  /** pending_requests */
  function Waiting(rs: seq<Request>): seq<Request> {
    if rs == [] then [] else (if rs[0].status == Pending then [rs[0]] else []) + Waiting(rs[1..])
  }

  /** issued_grants and received_grants: those neither revoked nor past their time. */
  function Live(gs: seq<Grant>, now: int): seq<Grant> {
    if gs == [] then [] else (if !gs[0].revoked && now <= gs[0].expires then [gs[0]] else []) + Live(gs[1..], now)
  }

  // ---------- the class ----------

  /** ImportAuth with its three files as fields. */
  class ImportAuthority {
    var requests: seq<Request>
    var grants: seq<Grant>
    var received: seq<Grant>
    var seed: map<string, int>

    ghost function State(): Auth
      reads this
    {
      Auth(requests, grants, received, seed)
    }

    /** The three files as they are on disk; nobody is authorised to seed in a new process. */
    constructor (requests: seq<Request>, grants: seq<Grant>, received: seq<Grant>)
      ensures State() == Auth(requests, grants, received, map[])
    {
      this.requests, this.grants, this.received, seed := requests, grants, received, map[];
    }

    method Create(oldDevice: string, newDevice: string, freshId: string, now: int) returns (r: Request)
      modifies this
      ensures (State(), r) == CreateRequest(old(State()), oldDevice, newDevice, freshId, now)
    {
      var i := 0;
      while i < |requests|
        invariant 0 <= i <= |requests| && State() == old(State())
        invariant forall j :: 0 <= j < i ==> !IsPendingFor(requests[j], oldDevice, newDevice)
      {
        if requests[i].oldDevice == oldDevice && requests[i].newDevice == newDevice && requests[i].status == Pending {
          return requests[i];
        }
        i := i + 1;
      }
      r := Request(freshId, oldDevice, newDevice, now, Pending);
      requests := requests + [r];
    }

    method Issue(requestId: string, freshId: string, now: int) returns (r: Result<Grant, OpError>)
      modifies this
      ensures (State(), r) == GrantRequest(old(State()), requestId, freshId, now)
    {
      var k := 0;
      while k < |requests| && requests[k].id != requestId
        invariant 0 <= k <= |requests| && State() == old(State())
        invariant forall j :: 0 <= j < k ==> requests[j].id != requestId
      {
        k := k + 1;
      }
      if k == |requests| { return Err(NotFound); }
      if requests[k].status != Pending { return Err(BadOp); }
      var g := Grant(freshId, requests[k].oldDevice, requests[k].newDevice, GRANT_SPACES, now, now + TTL, false);
      grants := grants + [g];
      requests := requests[k := requests[k].(status := Granted)];
      return Ok(g);
    }

    method Reject(requestId: string)
      modifies this
      ensures State() == RejectRequest(old(State()), requestId)
    {
      var i := 0;
      while i < |requests|
        invariant 0 <= i <= |requests| == |old(requests)|
        invariant grants == old(grants) && received == old(received) && seed == old(seed)
        invariant forall j :: 0 <= j < |requests| ==>
          requests[j] == if j < i && old(requests)[j].id == requestId then old(requests)[j].(status := Rejected)
            else old(requests)[j]
      {
        if requests[i].id == requestId {
          requests := requests[i := requests[i].(status := Rejected)];
        }
        i := i + 1;
      }
    }

    method Check(grantId: string, oldDevice: string, newDevice: string, space: string, now: int) returns (ok: bool)
      ensures ok == Validate(State(), grantId, oldDevice, newDevice, space, now)
    {
      var i := 0;
      while i < |grants|
        invariant 0 <= i <= |grants|
        invariant forall j :: 0 <= j < i ==> !Opens(grants[j], grantId, oldDevice, newDevice, space, now)
      {
        var g := grants[i];
        i := i + 1;
        if g.id != grantId || g.oldDevice != oldDevice || g.newDevice != newDevice { continue; }
        if g.revoked || now > g.expires { continue; }
        if space in g.spaces { return true; }
      }
      return false;
    }

    /** pending_requests */
    method PendingRequests() returns (rs: seq<Request>)
      ensures rs == Waiting(requests)
    {
      rs := [];
      var i := 0;
      while i < |requests|
        invariant 0 <= i <= |requests| && rs == Waiting(requests[..i])
      {
        WaitingAppend(requests[..i], requests[i]);
        assert requests[..i + 1] == requests[..i] + [requests[i]];
        if requests[i].status == Pending { rs := rs + [requests[i]]; }
        i := i + 1;
      }
      assert requests[..i] == requests;
    }

    /** issued_grants and received_grants */
    method LiveGrants(issued: bool, now: int) returns (gs: seq<Grant>)
      ensures gs == Live(if issued then grants else received, now)
    {
      var all := if issued then grants else received;
      gs := [];
      var i := 0;
      while i < |all|
        invariant 0 <= i <= |all| && gs == Live(all[..i], now)
      {
        LiveAppend(all[..i], all[i], now);
        assert all[..i + 1] == all[..i] + [all[i]];
        if !all[i].revoked && now <= all[i].expires { gs := gs + [all[i]]; }
        i := i + 1;
      }
      assert all[..i] == all;
    }

    method Receive(g: Grant)
      modifies this
      ensures State() == SaveReceived(old(State()), g)
    {
      var kept: seq<Grant> := [];
      var i := 0;
      while i < |received|
        invariant 0 <= i <= |received| && State() == old(State())
        invariant kept == WithoutGrant(received[..i], g.id)
      {
        WithoutGrantAppend(received[..i], received[i], g.id);
        assert received[..i + 1] == received[..i] + [received[i]];
        if received[i].id != g.id { kept := kept + [received[i]]; }
        i := i + 1;
      }
      assert received[..i] == received;
      received := kept + [g];
    }

    method ReceivePush(localId: string, from: string, p: Pushed, now: int) returns (e: Option<OpError>)
      modifies this
      ensures (State(), e) == ReceivePushed(old(State()), localId, from, p, now)
    {
      if p.grantId == "" { return Some(BadOp); }
      var oldDevice := from;
      if IsValidDeviceId(p.oldDevice) { oldDevice := p.oldDevice; }
      if !IsValidDeviceId(oldDevice) { return Some(BadOp); }
      var g := Grant(p.grantId, oldDevice, localId, if p.spaces == [] then GRANT_SPACES else p.spaces,
                     p.issued, p.expires, false);
      if g.expires <= 0 { g := g.(expires := now + TTL); }
      Receive(g);
      return None;
    }

    method Authorize(caller: string, now: int)
      modifies this
      ensures State() == AuthorizeSeed(old(State()), caller, now)
    {
      if caller == "" { return; }
      seed := seed[caller := now + SEED_TTL];
    }

    /** require_import_grant, on the frame of a list, meta or read. */
    method Require(f: Frame, caller: string, now: int) returns (ok: bool)
      modifies this
      ensures (State(), ok) == RequireImportGrant(old(State()), f, caller, now)
    {
      if f.device == "" || f.device == caller { return true; }
      if SharedReadable(f.space) { return true; }
      if f.seed {
        if caller in seed {
          if now < seed[caller] { return true; }
          seed := map c | c in seed && c != caller :: seed[c];
        }
        return false;
      }
      if f.grant == "" { return false; }
      ok := Check(f.grant, f.device, caller, f.space, now);
    }
  }

  lemma {:induction false} WithoutGrantAppend(gs: seq<Grant>, g: Grant, id: string)
    ensures WithoutGrant(gs + [g], id) == WithoutGrant(gs, id) + (if g.id == id then [] else [g])
  {
    if gs != [] {
      WithoutGrantAppend(gs[1..], g, id);
      assert (gs + [g])[1..] == gs[1..] + [g];
    }
  }

  lemma {:induction false} WaitingAppend(rs: seq<Request>, r: Request)
    ensures Waiting(rs + [r]) == Waiting(rs) + (if r.status == Pending then [r] else [])
  {
    if rs != [] {
      WaitingAppend(rs[1..], r);
      assert (rs + [r])[1..] == rs[1..] + [r];
    }
  }

  lemma {:induction false} LiveAppend(gs: seq<Grant>, g: Grant, now: int)
    ensures Live(gs + [g], now) == Live(gs, now) + (if !g.revoked && now <= g.expires then [g] else [])
  {
    if gs != [] {
      LiveAppend(gs[1..], g, now);
      assert (gs + [g])[1..] == gs[1..] + [g];
    }
  }
}
