/** Private reads and import requests over whole histories of calls. */
module AuthTrace {
  import opened Layout
  import opened Protocol
  import opened ImportAuth

  /** One thing that happened: a call to handle, a grant pushed by another node, a new process.
      `nonce` is the id drawn at random, should the call need one. */
  datatype Event =
    | Call(frame: Frame, caller: string, trust: Trust, loopback: bool, nonce: string, at: int)
    | Push(from: string, pushed: Pushed, at: int)
    | Restart(at: int)

  predicate Passes(e: Event) {
    e.Call? && CheckAcl(e.frame, e.caller, e.trust, e.loopback) == Allow
  }

  /** What an event does to the authorisation state. */
  function Step(localId: string, a: Auth, e: Event): Auth {
    match e
    case Push(from, pushed, at) => ReceivePushed(a, localId, from, pushed, at).0
    case Restart(_) => a.(seed := map[])
    case Call(f, caller, trust, loopback, nonce, at) =>
      if CheckAcl(f, caller, trust, loopback) != Allow then a
      else
        match f.op
        case ImportRequest => CreateRequest(a, f.oldDevice, caller, nonce, at).0
        case ImportGrant => if f.requestId == "" then a else GrantRequest(a, f.requestId, nonce, at).0
        case ImportReject => if f.requestId == "" then a else RejectRequest(a, f.requestId)
        case SyncCursors => AuthorizeSeed(a, caller, at)
        case List | Meta | Read => RequireImportGrant(a, f, caller, at).0
        case _ => a
  }

  function Run(localId: string, tr: seq<Event>): Auth {
    if tr == [] then Auth([], [], [], map[])
    else Step(localId, Run(localId, tr[..|tr| - 1]), tr[|tr| - 1])
  }

  // ---------- what the history says ----------

  /** Event i was an import.request by c, for the data of d, and answered with request id `id`. */
  predicate Requested(localId: string, tr: seq<Event>, i: nat, c: string, d: string, id: string) {
    && i < |tr| && Passes(tr[i]) && tr[i].frame.op == ImportRequest
    && tr[i].caller == c && tr[i].frame.oldDevice == d
    && CreateRequest(Run(localId, tr[..i]), d, c, tr[i].nonce, tr[i].at).1.id == id
  }

  /** Event j was an import.grant that succeeded. */
  predicate Issued(localId: string, tr: seq<Event>, j: nat) {
    && j < |tr| && Passes(tr[j]) && tr[j].frame.op == Op.ImportGrant && tr[j].frame.requestId != ""
    && GrantRequest(Run(localId, tr[..j]), tr[j].frame.requestId, tr[j].nonce, tr[j].at).1.Ok?
  }

  function IssuedGrant(localId: string, tr: seq<Event>, j: nat): Grant
    requires Issued(localId, tr, j)
  {
    GrantRequest(Run(localId, tr[..j]), tr[j].frame.requestId, tr[j].nonce, tr[j].at).1.value
  }

  /** The history justifies reading d's private data with this grant: c asked for d, and later the
      local user, over loopback, granted just that request, no more than 24 hours ago. */
  ghost predicate GrantedTo(localId: string, tr: seq<Event>, grantId: string, d: string, c: string, now: int) {
    exists i, j :: GrantedBy(localId, tr, i, j, grantId, d, c, now)
  }

  ghost predicate GrantedBy(localId: string, tr: seq<Event>, i: nat, j: nat, grantId: string, d: string, c: string,
                            now: int)
  {
    && i < j && Issued(localId, tr, j) && tr[j].loopback
    && Requested(localId, tr, i, c, d, tr[j].frame.requestId)
    && IssuedGrant(localId, tr, j).id == grantId
    && IssuedGrant(localId, tr, j).oldDevice == d && IssuedGrant(localId, tr, j).newDevice == c
    && now <= tr[j].at + TTL
  }

  /** c ran sync.cursors in this process, less than 15 minutes ago. */
  ghost predicate SeededBy(tr: seq<Event>, c: string, now: int) {
    exists i :: SeedCall(tr, i, c, now)
  }

  ghost predicate SeedCall(tr: seq<Event>, i: nat, c: string, now: int) {
    && i < |tr| && Passes(tr[i]) && tr[i].frame.op == SyncCursors && tr[i].caller == c && c != ""
    && now < tr[i].at + SEED_TTL
    && forall j :: i < j < |tr| ==> !tr[j].Restart?
  }

  // ---------- grants ----------

  lemma PrefixOf(localId: string, tr: seq<Event>, e: Event)
    ensures (tr + [e])[..|tr|] == tr
    ensures forall i :: 0 <= i <= |tr| ==> (tr + [e])[..i] == tr[..i]
    ensures Run(localId, tr + [e]) == Step(localId, Run(localId, tr), e)
  {
  }

  /** The issued grants are exactly those of the successful import.grant calls; pushed grants are
      not among them. */
  lemma {:induction false} GrantsAreIssued(localId: string, tr: seq<Event>)
    ensures forall g :: g in Run(localId, tr).grants <==> exists j ::
              Issued(localId, tr, j) && IssuedGrant(localId, tr, j) == g
  {
    if tr != [] {
      var n := |tr| - 1;
      var before, e := tr[..n], tr[n];
      assert tr == before + [e];
      PrefixOf(localId, before, e);
      GrantsAreIssued(localId, before);
      GrantsStep(localId, Run(localId, before), e);
      forall g
        ensures g in Run(localId, tr).grants <==> exists j :: Issued(localId, tr, j) && IssuedGrant(localId, tr, j) == g
      {
        GrantWitness(localId, before, e, g);
      }
    }
  }

  /** A step either issues one grant, at the end of the list, or leaves the list alone. */
  lemma GrantsStep(localId: string, a: Auth, e: Event)
    ensures Step(localId, a, e).grants ==
            if Passes(e) && e.frame.op == Op.ImportGrant && e.frame.requestId != ""
              && GrantRequest(a, e.frame.requestId, e.nonce, e.at).1.Ok?
            then a.grants + [GrantRequest(a, e.frame.requestId, e.nonce, e.at).1.value] else a.grants
  {
  }

  lemma GrantWitness(localId: string, before: seq<Event>, e: Event, g: Grant)
    requires forall h :: h in Run(localId, before).grants <==> exists j ::
               Issued(localId, before, j) && IssuedGrant(localId, before, j) == h
    ensures g in Run(localId, before + [e]).grants <==> exists j ::
              Issued(localId, before + [e], j) && IssuedGrant(localId, before + [e], j) == g
  {
    var tr := before + [e];
    var n := |before|;
    PrefixOf(localId, before, e);
    GrantsStep(localId, Run(localId, before), e);
    forall j: nat | j < n ensures Issued(localId, tr, j) <==> Issued(localId, before, j)
      ensures Issued(localId, before, j) ==> IssuedGrant(localId, tr, j) == IssuedGrant(localId, before, j)
    {
      assert tr[..j] == before[..j] && tr[j] == before[j];
    }
    if g in Run(localId, tr).grants {
      if g in Run(localId, before).grants {
        var j: nat :| Issued(localId, before, j) && IssuedGrant(localId, before, j) == g;
        assert Issued(localId, tr, j) && IssuedGrant(localId, tr, j) == g;
      } else {
        assert Issued(localId, tr, n) && IssuedGrant(localId, tr, n) == g;
      }
    }
    if j: nat :| Issued(localId, tr, j) && IssuedGrant(localId, tr, j) == g {
      if j < n {
        assert Issued(localId, before, j) && IssuedGrant(localId, before, j) == g;
      }
    }
  }

  // ---------- requests ----------

  /** A step keeps every request's id and devices and appends at most one, its own. */
  lemma RequestsStep(localId: string, a: Auth, e: Event)
    ensures var b := Step(localId, a, e);
            && |a.requests| <= |b.requests|
            && (forall k :: 0 <= k < |a.requests| ==>
                  var (r, q) := (a.requests[k], b.requests[k]);
                  q.id == r.id && q.oldDevice == r.oldDevice && q.newDevice == r.newDevice)
            && (|b.requests| > |a.requests| ==>
                  && |b.requests| == |a.requests| + 1 && Passes(e) && e.frame.op == Op.ImportRequest
                  && b.requests[|a.requests|] == CreateRequest(a, e.frame.oldDevice, e.caller, e.nonce, e.at).1
                  && b.requests[|a.requests|].status == Pending)
  {
  }

  ghost predicate WasRequested(localId: string, tr: seq<Event>, r: Request) {
    exists i :: Requested(localId, tr, i, r.newDevice, r.oldDevice, r.id)
  }

  lemma {:induction false} RequestsAreRequested(localId: string, tr: seq<Event>)
    ensures forall r <- Run(localId, tr).requests :: WasRequested(localId, tr, r)
  {
    if tr != [] {
      var n := |tr| - 1;
      var before, e := tr[..n], tr[n];
      assert tr == before + [e];
      PrefixOf(localId, before, e);
      RequestsAreRequested(localId, before);
      var a, b := Run(localId, before), Run(localId, tr);
      RequestsStep(localId, a, e);
      hide Run, Step, CheckAcl, CreateRequest, GrantRequest;
      forall r <- b.requests ensures WasRequested(localId, tr, r) {
        var k :| 0 <= k < |b.requests| && b.requests[k] == r;
        if k < |a.requests| {
          assert a.requests[k] in a.requests && WasRequested(localId, before, a.requests[k]);
          var i: nat :| Requested(localId, before, i, r.newDevice, r.oldDevice, r.id);
          assert tr[..i] == before[..i];
          assert Requested(localId, tr, i, r.newDevice, r.oldDevice, r.id);
        } else {
          assert tr[..n] == before;
          assert Requested(localId, tr, n, r.newDevice, r.oldDevice, r.id);
        }
      }
    }
  }

  /** Behind every issued grant there is an earlier request for the same pair of devices. */
  lemma IssuedAfterRequest(localId: string, tr: seq<Event>, j: nat) returns (i: nat)
    requires Issued(localId, tr, j)
    ensures i < j && tr[j].loopback
    ensures Requested(localId, tr, i, IssuedGrant(localId, tr, j).newDevice, IssuedGrant(localId, tr, j).oldDevice,
                      tr[j].frame.requestId)
    ensures IssuedGrant(localId, tr, j).expires == tr[j].at + TTL && IssuedGrant(localId, tr, j).spaces == GRANT_SPACES
    ensures !IssuedGrant(localId, tr, j).revoked
  {
    var a := Run(localId, tr[..j]);
    var r := a.requests[Position(a.requests, tr[j].frame.requestId)];
    RequestsAreRequested(localId, tr[..j]);
    assert r in a.requests;
    hide Run;
    i :| Requested(localId, tr[..j], i, r.newDevice, r.oldDevice, r.id);
    assert tr[..j][..i] == tr[..i] && tr[..j][i] == tr[i];
  }

  // ---------- seeds ----------

  ghost predicate Ordered(tr: seq<Event>, now: int) {
    && (forall i, j :: 0 <= i < j < |tr| ==> tr[i].at <= tr[j].at)
    && (forall i :: 0 <= i < |tr| ==> tr[i].at <= now)
  }

  /** What a step does to one caller's seed authorisation, seen at a later time. */
  lemma SeedStep(localId: string, a: Auth, e: Event, c: string, now: int)
    requires e.at <= now
    ensures SeedAuthorized(Step(localId, a, e), c, now) <==>
            if e.Restart? then false
            else if Passes(e) && e.frame.op == SyncCursors && e.caller == c && c != "" then now < e.at + SEED_TTL
            else SeedAuthorized(a, c, now)
  {
  }

  lemma {:induction false} SeedsAreCalls(localId: string, tr: seq<Event>, c: string, now: int)
    requires Ordered(tr, now)
    ensures SeedAuthorized(Run(localId, tr), c, now) <==> SeededBy(tr, c, now)
  {
    if tr != [] {
      var n := |tr| - 1;
      var before, e := tr[..n], tr[n];
      SeedsAreCalls(localId, before, c, now);
      SeedStep(localId, Run(localId, before), e, c, now);
      SeedWitness(before, e, c, now);
      assert tr == before + [e];
    }
  }

  lemma SeedWitness(before: seq<Event>, e: Event, c: string, now: int)
    requires Ordered(before + [e], now)
    ensures SeededBy(before + [e], c, now) <==>
            if e.Restart? then false
            else if Passes(e) && e.frame.op == SyncCursors && e.caller == c && c != "" then now < e.at + SEED_TTL
            else SeededBy(before, c, now)
  {
    var tr := before + [e];
    var n := |before|;
    if SeededBy(before, c, now) && !e.Restart? {
      var i: nat :| SeedCall(before, i, c, now);
      assert SeedCall(tr, i, c, now);
    }
    if Passes(e) && e.frame.op == SyncCursors && e.caller == c && c != "" && now < e.at + SEED_TTL {
      assert SeedCall(tr, n, c, now);
    }
    if SeededBy(tr, c, now) {
      var i: nat :| SeedCall(tr, i, c, now);
      if i < n {
        assert !tr[n].Restart? && tr[i].at <= tr[n].at;
        assert tr[i] == before[i] && forall j :: i < j < n ==> before[j] == tr[j];
        assert SeedCall(before, i, c, now);
      }
    }
  }

  // ---------- the theorem ----------

  /** A list, meta or read by caller c on another device's attachments or backups is let through
      exactly when c is trusted and either asks as a seeding peer that ran sync.cursors in this
      process within 15 minutes, or presents a grant the local user issued within 24 hours on c's
      own request for that device. Pushed grants and rejections make no difference. */
  lemma PrivateReadIff(localId: string, tr: seq<Event>, f: Frame, c: string, trust: Trust, loopback: bool, now: int)
    requires f.op == List || f.op == Op.Meta || f.op == Read
    requires IsPrivateRead(f, c) && IsValidSpace(f.space) && Ordered(tr, now)
    ensures CheckAcl(f, c, trust, loopback) == Allow && RequireImportGrant(Run(localId, tr), f, c, now).1
            <==>
            && trust == Trust.Owner && IsValidDeviceId(f.device)
            && (if f.seed then SeededBy(tr, c, now)
                else f.grant != "" && GrantedTo(localId, tr, f.grant, f.device, c, now))
  {
    if f.seed {
      SeedsAreCalls(localId, tr, c, now);
    } else {
      ValidIff(localId, tr, f.grant, f.device, c, f.space, now);
    }
    hide Run, SeededBy, GrantedTo, Validate;
  }

  lemma ValidIff(localId: string, tr: seq<Event>, grantId: string, d: string, c: string, space: string, now: int)
    requires IsValidSpace(space) && !SharedReadable(space)
    ensures Validate(Run(localId, tr), grantId, d, c, space, now) <==> GrantedTo(localId, tr, grantId, d, c, now)
  {
    hide Run, Issued, IssuedGrant, Requested;
    var grants := Run(localId, tr).grants;
    GrantsAreIssued(localId, tr);
    assert space in GRANT_SPACES by { assert GRANT_SPACES[0] == "backups" && GRANT_SPACES[1] == "attachments"; }
    if Validate(Run(localId, tr), grantId, d, c, space, now) {
      var k :| 0 <= k < |grants| && Opens(grants[k], grantId, d, c, space, now);
      assert grants[k] in grants;
      var j: nat :| Issued(localId, tr, j) && IssuedGrant(localId, tr, j) == grants[k];
      var i := IssuedAfterRequest(localId, tr, j);
      assert GrantedBy(localId, tr, i, j, grantId, d, c, now);
    }
    if GrantedTo(localId, tr, grantId, d, c, now) {
      var i: nat, j: nat :| GrantedBy(localId, tr, i, j, grantId, d, c, now);
      var _ := IssuedAfterRequest(localId, tr, j);
      var g := IssuedGrant(localId, tr, j);
      assert g in grants;
      var k :| 0 <= k < |grants| && grants[k] == g;
      assert Opens(grants[k], grantId, d, c, space, now);
    }
  }

  // ---------- the life of a request ----------

  /** At most one pending request per pair of devices. */
  ghost predicate OnePending(rs: seq<Request>) {
    forall i, j :: 0 <= i < j < |rs| && rs[i].status == Pending && rs[j].status == Pending ==>
      rs[i].oldDevice != rs[j].oldDevice || rs[i].newDevice != rs[j].newDevice
  }

  /** How the status of a request may move. */
  predicate StatusMoves(s: Status, t: Status) {
    s == t || s == Pending || (s == Granted && t == Rejected)
  }

  lemma StatusStep(localId: string, a: Auth, e: Event)
    ensures var b := Step(localId, a, e);
            |a.requests| <= |b.requests|
            && forall k :: 0 <= k < |a.requests| ==> StatusMoves(a.requests[k].status, b.requests[k].status)
  {
  }

  lemma OnePendingStep(localId: string, a: Auth, e: Event)
    requires OnePending(a.requests)
    ensures OnePending(Step(localId, a, e).requests)
  {
    RequestsStep(localId, a, e);
    StatusStep(localId, a, e);
    var b := Step(localId, a, e);
    if |b.requests| > |a.requests| {
      var k := FirstPending(a.requests, e.frame.oldDevice, e.caller);
      assert k == |a.requests|;
    }
  }

  /** For each issued grant, in order, the index of the request it was issued on. */
  function Sources(localId: string, tr: seq<Event>): seq<nat> {
    if tr == [] then []
    else
      var n := |tr| - 1;
      Sources(localId, tr[..n])
      + (if Issued(localId, tr, n) then [Position(Run(localId, tr[..n]).requests, tr[n].frame.requestId)] else [])
  }

  /** Each issued grant has a request of its own, for the same devices, which is pending no more. */
  ghost predicate OwnRequests(a: Auth, sources: seq<nat>) {
    && |sources| == |a.grants|
    && (forall i, j :: 0 <= i < j < |sources| ==> sources[i] != sources[j])
    && (forall k :: 0 <= k < |sources| ==>
          && sources[k] < |a.requests| && a.requests[sources[k]].status != Pending
          && a.requests[sources[k]].oldDevice == a.grants[k].oldDevice
          && a.requests[sources[k]].newDevice == a.grants[k].newDevice)
  }

  lemma OwnRequestsStep(localId: string, a: Auth, e: Event, sources: seq<nat>)
    requires OwnRequests(a, sources)
    ensures var issued := Passes(e) && e.frame.op == Op.ImportGrant && e.frame.requestId != ""
              && GrantRequest(a, e.frame.requestId, e.nonce, e.at).1.Ok?;
            OwnRequests(Step(localId, a, e),
                        sources + (if issued then [Position(a.requests, e.frame.requestId)] else []))
  {
    GrantsStep(localId, a, e);
    RequestsStep(localId, a, e);
    StatusStep(localId, a, e);
  }

  /** In every history: at most one request per pair is pending, and the issued grants belong to
      distinct requests, each for its own request's devices. */
  lemma {:induction false} RequestLife(localId: string, tr: seq<Event>)
    ensures OnePending(Run(localId, tr).requests)
    ensures OwnRequests(Run(localId, tr), Sources(localId, tr))
  {
    if tr != [] {
      var n := |tr| - 1;
      RequestLife(localId, tr[..n]);
      OnePendingStep(localId, Run(localId, tr[..n]), tr[n]);
      OwnRequestsStep(localId, Run(localId, tr[..n]), tr[n], Sources(localId, tr[..n]));
    }
  }

  /** A request that has left pending never returns to it, and if it had yielded no grant by then,
      it never yields one. */
  lemma {:induction false} SettledStaysSettled(localId: string, tr: seq<Event>, more: seq<Event>, k: nat)
    requires k < |Run(localId, tr).requests| && Run(localId, tr).requests[k].status != Pending
    ensures k < |Run(localId, tr + more).requests| && Run(localId, tr + more).requests[k].status != Pending
    ensures k in Sources(localId, tr + more) <==> k in Sources(localId, tr)
  {
    if more == [] {
      assert tr + more == tr;
    } else {
      var n := |more| - 1;
      SettledStaysSettled(localId, tr, more[..n], k);
      var before, e := tr + more[..n], more[n];
      assert tr + more == before + [e];
      assert (before + [e])[..|before|] == before;
      StatusStep(localId, Run(localId, before), e);
    }
  }
}
