/** What removes whole trees, with the bytes it reports: recycle.empty, gc_recycle, purge and wipe. */
module MaintOps {
  import opened Wrappers
  import opened FileSystem
  import opened Layout
  import opened Maintenance
  import opened Listing
  import opened DirSize
  import opened Locals
  import opened GcOps
  import H = Host
  import R = HostRun

  ghost function Bytes(local: Local): nat
    reads local
  {
    Stored(local.fs, H.FileSize(local.Site()))
  }

  /** dir_size without the rule for dots. */
  method SizeOf(local: Local, ls: Lister, dir: Path) returns (sum: nat)
    requires IsTree(local.fs) && Faithful(ls)
    ensures sum == SizeBelow(local.fs, dir, H.FileSize(local.Site()))
  {
    hide IsTree, SizeBelow;
    MeasureIsSizeBelow(local.fs, dir, H.FileSize(local.Site()));
    sum := Measure(local.fs, ls(local.fs), H.FileSize(H.Site(local.deviceId, local.reader)), dir, false);
  }

  lemma RemovedBytes(fs: Fs, d: Path, size: Size)
    requires IsTree(fs) && Weighs(size) && d != [] && d in fs && fs[d] == Dir
    ensures IsTree(RemoveTree(fs, d)) && Stored(fs, size) == Stored(RemoveTree(fs, d), size) + SizeBelow(fs, d, size)
  {
    var g := RemoveTree(fs, d);
    RemoveTreeIsTree(fs, d);
    forall q <- fs | fs[q] != Dir ensures d < q <==> q in Lost(fs, g) {
      assert d <= q && q != d ==> q[..|d|] + q[|d|..] == q;
    }
    LostBelow(fs, g, d, size);
  }

  // ---------- recycle.empty ----------

  method EmptyRecycle(local: Local, ls: Lister) returns (purged: nat)
    requires IsTree(local.fs) && Faithful(ls)
    modifies local`fs
    ensures local.fs == EmptyBin(old(local.fs))
    ensures purged == SizeBelow(old(local.fs), [RECYCLE], H.FileSize(local.Site()))
  {
    purged := SizeOf(local, ls, [RECYCLE]);
    hide SizeBelow;
    local.fs := RemoveTree(local.fs, [RECYCLE]);
    local.fs := Mkdirs(local.fs, [RECYCLE]);
  }

  // ---------- gc_recycle ----------

  /** The bin with the expired directories among the first names gone. */
  ghost function Expelled(fs: Fs, parse: string -> Option<int>, cutoff: int, names: seq<string>): Fs {
    map p | p in fs && !(Expired(fs, p, parse, cutoff) && p[1] in names) :: fs[p]
  }

  /** The test the loop makes on one date directory. */
  ghost predicate Goes(fs: Fs, name: string, parse: string -> Option<int>, cutoff: int) {
    [RECYCLE, name] in fs && fs[[RECYCLE, name]] == Dir && parse(name).Some? && parse(name).value < cutoff
  }

  lemma ExpiredIff(fs: Fs, p: Path, name: string, parse: string -> Option<int>, cutoff: int)
    requires |p| >= 2 && p[1] == name
    ensures Expired(fs, p, parse, cutoff) <==> Goes(fs, name, parse, cutoff) && [RECYCLE, name] <= p
  {
    assert p[..2] == [p[0], p[1]];
  }

  lemma ExpelNext(fs: Fs, parse: string -> Option<int>, cutoff: int, names: seq<string>, name: string)
    requires name !in names
    ensures var now := Expelled(fs, parse, cutoff, names);
            var d := [RECYCLE, name];
            && (d in now <==> d in fs) && (d in fs ==> now[d] == fs[d])
            && Expelled(fs, parse, cutoff, names + [name])
               == (if Goes(fs, name, parse, cutoff) then RemoveTree(now, d) else now)
  {
    var now, next := Expelled(fs, parse, cutoff, names), Expelled(fs, parse, cutoff, names + [name]);
    var d := [RECYCLE, name];
    forall p <- fs ensures p in next <==> p in now && !(Goes(fs, name, parse, cutoff) && d <= p) {
      if |p| >= 2 && p[1] == name {
        ExpiredIff(fs, p, name, parse, cutoff);
      }
    }
  }

  lemma ExpelledAll(fs: Fs, readDir: ReadDir, parse: string -> Option<int>, cutoff: int)
    requires IsTree(fs) && Enumerates(fs, readDir)
    ensures Expelled(fs, parse, cutoff, []) == fs
    ensures Expelled(fs, parse, cutoff, readDir([RECYCLE])) == GcRecycle(fs, parse, cutoff)
    ensures forall i :: 0 <= i < |readDir([RECYCLE])| ==> readDir([RECYCLE])[i] !in readDir([RECYCLE])[..i]
  {
    forall p <- fs | Expired(fs, p, parse, cutoff) ensures p[1] in readDir([RECYCLE]) {
      assert p[..2] == [RECYCLE] + [p[1]];
    }
  }

  /** gc_recycle: the date directories before the cutoff go, nothing else does, and the bytes
      reported are those by which the store shrank. */
  method CollectRecycle(local: Local, ls: Lister, parse: string -> Option<int>, cutoff: int) returns (purged: nat)
    requires IsTree(local.fs) && Faithful(ls)
    modifies local`fs
    ensures local.fs == GcRecycle(old(local.fs), parse, cutoff)
    ensures purged + Bytes(local) == old(Bytes(local))
  {
    hide IsTree, Expelled, Stored, SizeBelow, GcRecycle, Enumerates;
    ghost var fs := local.fs;
    var names := ls(local.fs)([RECYCLE]);
    ExpelledAll(fs, ls(fs), parse, cutoff);
    purged := 0;
    var i := 0;
    assert names[..0] == [];
    while i < |names|
      invariant 0 <= i <= |names|
      invariant local.fs == Expelled(fs, parse, cutoff, names[..i]) && IsTree(local.fs)
      invariant purged + Bytes(local) == old(Bytes(local))
    {
      var d := [RECYCLE, names[i]];
      assert names[..i + 1] == names[..i] + [names[i]];
      ExpelNext(fs, parse, cutoff, names[..i], names[i]);
      var parsed := parse(names[i]);
      if d in local.fs && local.fs[d] == Dir && parsed.Some? && parsed.value < cutoff {
        RemovedBytes(local.fs, d, H.FileSize(local.Site()));
        var size := SizeOf(local, ls, d);
        purged := purged + size;
        local.fs := RemoveTree(local.fs, d);
      }
      i := i + 1;
    }
    assert names[..i] == names;
  }

  // ---------- purge and wipe ----------

  /** purge_device: the device's tree and its cursor go, and the bytes reported are those freed. */
  method PurgeDevice(local: Local, ls: Lister, device: string) returns (r: Result<nat, OpError>)
    requires IsTree(local.fs) && Faithful(ls)
    modifies local`fs, local.cursors
    ensures local.State() == R.Purged(local.Site(), old(local.State()), device)
    ensures r.Ok? ==> r.value + Bytes(local) == old(Bytes(local))
    ensures r.Err? <==> Purge(old(local.fs), device, local.deviceId).1.Some?
    ensures r.Err? ==> Purge(old(local.fs), device, local.deviceId).1 == Some(r.error)
  {
    hide IsTree, SizeBelow, Stored;
    if !IsValidDeviceId(device) { return Err(BadPath); }
    if device == local.deviceId { return Err(AclDenied); }
    if [device] !in local.fs { return Err(NotFound); }
    if local.fs[[device]] != Dir { return Err(NotFound); }
    var freed := SizeOf(local, ls, [device]);
    RemovedBytes(local.fs, [device], H.FileSize(local.Site()));
    local.fs := RemoveTree(local.fs, [device]);
    local.cursors.Forget(device);
    return Ok(freed);
  }

  /** wipe_self: the node's own tree is replaced by its four empty spaces. */
  method WipeSelf(local: Local, ls: Lister, device: string) returns (r: Result<nat, OpError>)
    requires IsTree(local.fs) && Faithful(ls)
    modifies local`fs
    ensures local.fs == Wipe(old(local.fs), device, local.deviceId).0
    ensures r.Ok? ==> r.value + Bytes(local) == old(Bytes(local))
    ensures r.Err? <==> Wipe(old(local.fs), device, local.deviceId).1.Some?
  {
    hide IsTree, SizeBelow, Stored, MkSpaces;
    if !IsValidDeviceId(device) { return Err(BadPath); }
    if device != local.deviceId { return Err(AclDenied); }
    if [device] !in local.fs { return Ok(0); }
    if local.fs[[device]] != Dir { return Err(BadPath); }
    var freed := SizeOf(local, ls, [device]);
    ghost var size := H.FileSize(local.Site());
    WipeLaw(local.fs, device, local.deviceId, size);
    var made := MakeSpaces(RemoveTree(local.fs, [device]), device);
    local.fs := made;
    return Ok(freed);
  }
}
