/** Who gets in: what the access check and the write fence of handle let through, operation by operation. */
module Requests {
  import opened Wrappers
  import opened Layout
  import opened Cursors
  import opened Host
  import P = Protocol

  // ---------- the words of the protocol ----------

  predicate HexDigit(c: char) {
    c in "0123456789abcdef"
  }

  /** A device fingerprint: sixteen lower-case hexadecimal digits. */
  predicate HexId(d: string) {
    |d| == 16 && forall i :: 0 <= i < 16 ==> HexDigit(d[i])
  }

  predicate SpaceName(s: string) {
    s == "artifacts" || s == "files" || s == "attachments" || s == "backups"
  }

  /** Spaces every owner may look into and delete from. */
  predicate Shared(s: string) {
    s == "artifacts" || s == "files"
  }

  /** The frame names the caller's own device, or none. */
  predicate Own(f: P.Frame, caller: string) {
    f.device == "" || f.device == caller
  }

  predicate NamedDevice(f: P.Frame) {
    f.device == "" || HexId(f.device)
  }

  /** Turned away: the reply is an error and nothing has changed. */
  ghost predicate TurnedAway(site: Site, s: State, f: P.Frame, caller: string, trust: P.Trust, loopback: bool,
                             inp: Inputs, e: OpError)
  {
    Handle(site, s, f, caller, trust, loopback, inp) == (s, Err(e))
  }

  /** Let in to the operation itself; the five that write are refused first on a node that is not master. */
  ghost predicate LetIn(site: Site, s: State, f: P.Frame, caller: string, trust: P.Trust, loopback: bool, inp: Inputs) {
    var writes := match f.op
      case WriteBegin | WriteChunk | Commit | Delete | SyncHello => true
      case _ => false;
    Handle(site, s, f, caller, trust, loopback, inp)
    == if writes && s.pointer.master != site.localId then (s, Err(NotMaster)) else Dispatch(site, s, f, caller, inp)
  }

  // ---------- what a journal's progress is credited with ----------

  function Most(a: int, b: int): int {
    if a > b then a else b
  }

  /** How far the caller's journal has been applied, as the table has it. */
  function Applied(m: Table, caller: string): int {
    if caller in m then m[caller] else 0
  }

  /** A call that says how far the caller's journal got moves the caller's cursor there, and never back. */
  ghost predicate Credits(m: Table, after: Table, caller: string, upto: Option<int>, applied: Option<int>) {
    match upto
    case None => after == m && applied == None
    case Some(n) => var reached := Most(Applied(m, caller), n);
    after == m[caller := reached] && applied == Some(reached)
  }

  // ---------- the law ----------

  lemma HexDigitIs(c: char)
    ensures HexDigit(c) <==> '0' <= c <= '9' || 'a' <= c <= 'f'
  {
    var digits := "0123456789abcdef";
    if '0' <= c <= '9' {
      assert digits[c as int - '0' as int] == c;
    } else if 'a' <= c <= 'f' {
      assert digits[c as int - 'a' as int + 10] == c;
    }
  }

  lemma HexIdIs(d: string)
    ensures HexId(d) <==> IsValidDeviceId(d)
  {
    hide HexDigit;
    forall c ensures HexDigit(c) <==> '0' <= c <= '9' || 'a' <= c <= 'f' { HexDigitIs(c); }
  }

  /** Peers that are no owners are turned away whatever they ask. */
  lemma OwnersOnly(site: Site, s: State, f: P.Frame, caller: string, trust: P.Trust, loopback: bool, inp: Inputs)
    requires trust != P.Trust.Owner
    ensures TurnedAway(site, s, f, caller, trust, loopback, inp, Untrusted)
  {
    hide Dispatch;
  }

  /** Uploads: write.begin needs a space, chunks and commits may name one; none may name another device. */
  lemma WritesLetIn(site: Site, s: State, f: P.Frame, caller: string, loopback: bool, inp: Inputs)
    requires f.op == P.WriteBegin || f.op == P.WriteChunk || f.op == P.Op.Commit
    ensures var named := SpaceName(f.space) || (f.space == "" && f.op != P.WriteBegin);
            && (!named ==> TurnedAway(site, s, f, caller, P.Trust.Owner, loopback, inp, BadOp))
            && (named && !Own(f, caller) ==> TurnedAway(site, s, f, caller, P.Trust.Owner, loopback, inp, AclDenied))
            && (named && Own(f, caller) ==> LetIn(site, s, f, caller, P.Trust.Owner, loopback, inp))
  {
    hide Dispatch;
  }

  /** Deletes: in the caller's own spaces, and in the shared spaces of every device. */
  lemma DeletesLetIn(site: Site, s: State, f: P.Frame, caller: string, loopback: bool, inp: Inputs)
    requires f.op == P.Op.Delete
    ensures !SpaceName(f.space) ==> TurnedAway(site, s, f, caller, P.Trust.Owner, loopback, inp, BadOp)
    ensures SpaceName(f.space) && !Own(f, caller) && !Shared(f.space) ==>
              TurnedAway(site, s, f, caller, P.Trust.Owner, loopback, inp, AclDenied)
    ensures SpaceName(f.space) && (Own(f, caller) || Shared(f.space)) && !NamedDevice(f) ==>
              TurnedAway(site, s, f, caller, P.Trust.Owner, loopback, inp, BadOp)
    ensures SpaceName(f.space) && (Own(f, caller) || Shared(f.space)) && NamedDevice(f) ==>
              LetIn(site, s, f, caller, P.Trust.Owner, loopback, inp)
  {
    HexIdIs(f.device);
    hide Dispatch, IsValidDeviceId, HexId;
  }

  /** Looking: the caller's own spaces, the shared ones, and the private ones of other devices to those
      who say that they seed or show a grant - which is then tested. */
  lemma LooksLetIn(site: Site, s: State, f: P.Frame, caller: string, loopback: bool, inp: Inputs)
    requires f.op == P.List || f.op == P.Op.Meta || f.op == P.Read
    ensures var open := Own(f, caller) || Shared(f.space) || f.seed || f.grant != "";
            && (!SpaceName(f.space) ==> TurnedAway(site, s, f, caller, P.Trust.Owner, loopback, inp, BadOp))
            && (SpaceName(f.space) && !open ==>
                  TurnedAway(site, s, f, caller, P.Trust.Owner, loopback, inp, AclDenied))
            && (SpaceName(f.space) && open && !NamedDevice(f) ==>
                  TurnedAway(site, s, f, caller, P.Trust.Owner, loopback, inp, BadOp))
            && (SpaceName(f.space) && open && NamedDevice(f) ==>
                  LetIn(site, s, f, caller, P.Trust.Owner, loopback, inp))
  {
    HexIdIs(f.device);
    hide Dispatch, IsValidDeviceId, HexId;
  }

  predicate UserOnly(op: P.Op) {
    op == P.RecycleEmpty || op == P.ImportGrant || op == P.ImportReject || op == P.ImportGrants
  }

  /** Emptying the bin and deciding about imports is for the local user alone: over the network even an
      owner is told acl_denied, and nothing changes. */
  lemma UserLetIn(site: Site, s: State, f: P.Frame, caller: string, loopback: bool, inp: Inputs)
    requires UserOnly(f.op)
    ensures loopback ==> LetIn(site, s, f, caller, P.Trust.Owner, loopback, inp)
    ensures !loopback ==> TurnedAway(site, s, f, caller, P.Trust.Owner, loopback, inp, AclDenied)
  {
    hide Dispatch;
  }

  /** An import may be asked for from another device, and a greeting is for one's own cursor. */
  lemma NamedLetIn(site: Site, s: State, f: P.Frame, caller: string, loopback: bool, inp: Inputs)
    ensures f.op == P.ImportRequest ==>
              if HexId(f.oldDevice) && f.oldDevice != caller
              then LetIn(site, s, f, caller, P.Trust.Owner, loopback, inp)
              else TurnedAway(site, s, f, caller, P.Trust.Owner, loopback, inp, BadOp)
    ensures f.op == P.SyncHello ==>
              if HexId(f.device) && f.device == caller
              then LetIn(site, s, f, caller, P.Trust.Owner, loopback, inp)
              else TurnedAway(site, s, f, caller, P.Trust.Owner, loopback, inp, AclDenied)
  {
    HexIdIs(f.oldDevice);
    HexIdIs(f.device);
    hide Dispatch, IsValidDeviceId, HexId, IsValidSpace;
  }

  predicate OpenToOwners(op: P.Op) {
    op == P.Stats || op == P.RecycleList || op == P.RecycleRestore || op == P.ImportPending
    || op == P.SyncCursors || op == P.PointerQuery || op == P.PointerApply || op == P.Migrate
  }

  /** The rest is open to every owner, and there is nothing else to ask for. */
  lemma OthersLetIn(site: Site, s: State, f: P.Frame, caller: string, loopback: bool, inp: Inputs)
    ensures OpenToOwners(f.op) ==> LetIn(site, s, f, caller, P.Trust.Owner, loopback, inp)
    ensures f.op == P.Unknown ==> TurnedAway(site, s, f, caller, P.Trust.Owner, loopback, inp, BadOp)
  {
    hide Dispatch, IsValidDeviceId, IsValidSpace;
    if OpenToOwners(f.op) {
      assert P.CheckAcl(f, caller, P.Trust.Owner, loopback) == P.Allow;
    }
  }

  // ---------- all together ----------

  /** What an owner may ask for. */
  predicate Permitted(f: P.Frame, caller: string, loopback: bool) {
    match f.op
    case WriteBegin => SpaceName(f.space) && Own(f, caller)
    case WriteChunk | Commit => (f.space == "" || SpaceName(f.space)) && Own(f, caller)
    case Delete => SpaceName(f.space) && (Own(f, caller) || Shared(f.space)) && NamedDevice(f)
    case List | Meta | Read =>
      SpaceName(f.space) && (Own(f, caller) || Shared(f.space) || f.seed || f.grant != "") && NamedDevice(f)
    case RecycleEmpty | ImportGrant | ImportReject | ImportGrants => loopback
    case ImportRequest => HexId(f.oldDevice) && f.oldDevice != caller
    case SyncHello => HexId(f.device) && f.device == caller
    case Unknown => false
    case _ => true
  }

  /** Every request by an owner that is permitted is let in; every other one is turned away, with nothing changed. */
  lemma LetInIffPermitted(site: Site, s: State, f: P.Frame, caller: string, trust: P.Trust, loopback: bool, inp: Inputs)
    ensures if trust == P.Trust.Owner && Permitted(f, caller, loopback)
            then LetIn(site, s, f, caller, trust, loopback, inp)
            else exists e <- {Untrusted, AclDenied, BadOp} ::
                   TurnedAway(site, s, f, caller, trust, loopback, inp, e)
  {
    hide LetIn, TurnedAway, HexId;
    if trust != P.Trust.Owner {
      OwnersOnly(site, s, f, caller, trust, loopback, inp);
    } else {
      match f.op {
        case WriteBegin | WriteChunk | Commit => WritesLetIn(site, s, f, caller, loopback, inp);
        case Delete => DeletesLetIn(site, s, f, caller, loopback, inp);
        case List | Meta | Read => LooksLetIn(site, s, f, caller, loopback, inp);
        case RecycleEmpty | ImportGrant | ImportReject | ImportGrants => UserLetIn(site, s, f, caller, loopback, inp);
        case ImportRequest | SyncHello => NamedLetIn(site, s, f, caller, loopback, inp);
        case _ => OthersLetIn(site, s, f, caller, loopback, inp);
      }
    }
  }
}
