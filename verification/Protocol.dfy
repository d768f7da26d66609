/** Request frames and the access check every request passes first. */
module Protocol {
  import opened Wrappers
  import opened Paths
  import opened FileSystem
  import opened Layout
  import opened Recycle
  import opened RecycleLaws

  datatype Op =
    | List | Meta | Read
    | WriteBegin | WriteChunk | Commit | Delete
    | Stats | RecycleList | RecycleRestore | RecycleEmpty
    | ImportRequest | ImportPending | ImportGrant | ImportReject | ImportGrants
    | SyncHello | SyncCursors | PointerQuery | PointerApply | Migrate
    | Unknown

  /** A parsed request; absent string fields read as "", absent flags as false. */
  datatype Frame = Frame(
    op: Op, space: string, device: string, path: string,
    seed: bool, grant: string,
    oldDevice: string, requestId: string, role: string,
    uploadId: Option<string>, uploadIds: Option<seq<string>>,
    size: int, sha: string, offset: int, length: int, limit: int, data: Option<Bytes>,
    upto: Option<int>, recyclePath: string,
    master: string, epoch: int)

  datatype Verdict = Allow | DenyUntrusted | DenyAcl | DenyBadOp

  datatype Trust = Owner | Friend

  /** check_acl */
  function CheckAcl(f: Frame, caller: string, trust: Trust, loopback: bool): Verdict {
    if trust != Trust.Owner then DenyUntrusted
    else
      var own := f.device == "" || f.device == caller;
      match f.op
      case WriteBegin | WriteChunk | Commit =>
        if f.space != "" && !IsValidSpace(f.space) then DenyBadOp
        else if f.op == WriteBegin && f.space == "" then DenyBadOp
        else if f.device != "" && f.device != caller then DenyAcl
        else Allow
      case Delete =>
        if f.space == "" || !IsValidSpace(f.space) then DenyBadOp
        else if !own && !SharedReadable(f.space) then DenyAcl
        else if f.device != "" && !IsValidDeviceId(f.device) then DenyBadOp
        else Allow
      case List | Meta | Read =>
        if f.space == "" || !IsValidSpace(f.space) then DenyBadOp
        else if !own && !SharedReadable(f.space) && f.seed then
          (if f.device != "" && !IsValidDeviceId(f.device) then DenyBadOp else Allow)
        else if !own && !SharedReadable(f.space) && f.grant == "" then DenyAcl
        else if f.device != "" && !IsValidDeviceId(f.device) then DenyBadOp
        else Allow
      case RecycleList | RecycleRestore | ImportPending | Stats => Allow
      case RecycleEmpty | ImportGrant | ImportReject | ImportGrants => if loopback then Allow else DenyAcl
      case ImportRequest => if !IsValidDeviceId(f.oldDevice) || f.oldDevice == caller then DenyBadOp else Allow
      case SyncHello => if !IsValidDeviceId(f.device) || f.device != caller then DenyAcl else Allow
      case SyncCursors | PointerQuery | PointerApply | Migrate => Allow
      case Unknown => DenyBadOp
  }

  /** acl_code */
  function AclCode(v: Verdict): OpError
    requires v != Allow
  {
    match v
    case DenyUntrusted => Untrusted
    case DenyAcl => AclDenied
    case DenyBadOp => BadOp
  }

  /** The device directory an operation works in: writes go to the caller's own, the others to the
      named device or, by default, the caller's. */
  function TargetDevice(f: Frame, caller: string): string {
    if f.op == WriteBegin || f.device == "" then caller else f.device
  }

  predicate OnFiles(op: Op) {
    op == List || op == Op.Meta || op == Read || op == WriteBegin || op == Delete
  }

  /** With an allowing verdict and a valid caller id, a list, meta, read, write.begin or delete
      can only reach below one of the four spaces of a valid device, by clean segments; that device is the
      caller's for write.begin, and for the others the one the frame names, if it names one. */
  lemma TargetContained(f: Frame, caller: string, trust: Trust, loopback: bool, localId: string, rel: string)
    requires CheckAcl(f, caller, trust, loopback) == Allow && OnFiles(f.op) && IsValidDeviceId(caller)
    requires ResolvePath(localId, f.space, TargetDevice(f, caller), rel).Ok?
    ensures IsValidDeviceId(TargetDevice(f, caller)) && IsValidSpace(f.space)
    ensures f.op == WriteBegin || f.device == "" ==> TargetDevice(f, caller) == caller
    ensures f.op != WriteBegin && f.device != "" ==> TargetDevice(f, caller) == f.device
    ensures f.op == WriteBegin || f.op == Delete ==> TargetDevice(f, caller) == caller || SharedReadable(f.space)
    ensures var full := ResolvePath(localId, f.space, TargetDevice(f, caller), rel).value;
            full == [TargetDevice(f, caller), f.space]
            || (Normalize(rel).Ok? && Clean(Normalize(rel).value)
                && full == Official(TargetDevice(f, caller), f.space, Normalize(rel).value))
  {
    hide Resolve, Normalize, IsValidDeviceId, IsValidSpace;
    var device := TargetDevice(f, caller);
    AllowedTarget(f, caller, trust, loopback);
    EscapeIff(localId, f.space, device, rel);
    DeviceSpaceSegments(device, f.space);
    KeptNontrivial([device, f.space]);
    if Normalize(rel).Ok? {
      NormalizedIsClean(rel);
      OfficialText(device, f.space, Normalize(rel).value);
    }
  }

  lemma AllowedTarget(f: Frame, caller: string, trust: Trust, loopback: bool)
    requires CheckAcl(f, caller, trust, loopback) == Allow && OnFiles(f.op) && IsValidDeviceId(caller)
    ensures IsValidDeviceId(TargetDevice(f, caller)) && IsValidSpace(f.space)
    ensures TargetDevice(f, caller) != ""
  {
  }
}
