/** The store of one node as an object: files and upload table, and the parts with state of their own. */
module Locals {
  import opened Wrappers
  import opened FileSystem
  import opened Layout
  import opened Staging
  import opened Listing
  import opened Cursors
  import opened Maintenance
  import A = ImportAuth
  import M = Master
  import H = Host
  import opened Opening

  /** A device directory and its four spaces. */
  method MakeSpaces(fs: Fs, device: string) returns (made: Fs)
    ensures made == MkSpaces(fs, device, |SPACES|)
  {
    hide Mkdirs;
    made := Mkdirs(fs, [device]);
    for i := 0 to |SPACES|
      invariant made == MkSpaces(fs, device, i)
    {
      made := Mkdirs(made, [device, SPACES[i]]);
    }
  }

  /** Everything a node keeps on disk: its files and the tables under `.system`. */
  datatype Disk = Disk(fs: Fs, requests: seq<A.Request>, grants: seq<A.Grant>, received: seq<A.Grant>, cursors: Table,
                       pointer: Option<M.Pointer>)

  class Local {
    const deviceId: string
    const reader: Reader
    var fs: Fs
    var uploads: map<string, Upload>
    const imports: A.ImportAuthority
    const cursors: DeviceCursors
    const pointer: M.PointerFile

    ghost predicate Valid()
      reads this
    {
      IsValidDeviceId(deviceId) && pointer.self == deviceId
    }

    ghost function Files(): Store
      reads this
    {
      Store(fs, uploads)
    }

    ghost function State(): H.State
      reads this, imports, cursors, pointer
    {
      H.State(Files(), imports.State(), cursors.seqs, pointer.Current())
    }

    ghost function Site(): H.Site {
      H.Site(deviceId, reader)
    }

    /** The object over a root whose directories are there. */
    constructor (deviceId: string, reader: Reader, disk: Disk)
      requires IsValidDeviceId(deviceId)
      ensures Valid() && this.deviceId == deviceId && this.reader == reader
      ensures fresh(imports) && fresh(cursors) && fresh(pointer)
      ensures State() == H.State(Store(disk.fs, map[]), A.Auth(disk.requests, disk.grants, disk.received, map[]),
                                 disk.cursors, M.Load(disk.pointer, deviceId))
    {
      this.deviceId := deviceId;
      this.reader := reader;
      fs := disk.fs;
      uploads := map[];
      imports := new A.ImportAuthority(disk.requests, disk.grants, disk.received);
      cursors := new DeviceCursors(disk.cursors);
      pointer := new M.PointerFile(deviceId, disk.pointer);
    }
  }

  /** Local::open: the directories one after the other, then the object. It fails, with the
      directories made so far, for what is no device id and where a file is in the way. */
  method Open(disk: Disk, deviceId: string, reader: Reader) returns (root: Fs, local: Local?)
    ensures root == if IsValidDeviceId(deviceId) then OpenRoot(disk.fs, deviceId).0 else disk.fs
    ensures local != null <==> IsValidDeviceId(deviceId) && OpenRoot(disk.fs, deviceId).1
    ensures local != null ==>
              && fresh(local) && fresh(local.imports) && fresh(local.cursors) && fresh(local.pointer)
              && local.Valid() && local.deviceId == deviceId && local.reader == reader
              && local.State() == H.State(Store(root, map[]), A.Auth(disk.requests, disk.grants, disk.received, map[]),
                                          disk.cursors, M.Load(disk.pointer, deviceId))
  {
    hide CanMkdirs, Mkdirs, IsValidDeviceId;
    root, local := disk.fs, null;
    if !IsValidDeviceId(deviceId) { return; }
    for i := 0 to |SPACES|
      invariant MakeFirst(disk.fs, deviceId, i) == (root, true)
    {
      var dir := [deviceId, SPACES[i]];
      if !CanMkdirs(root, dir) {
        StopsAt(disk.fs, deviceId, i + 1, |SPACES|);
        return;
      }
      root := Mkdirs(root, dir);
    }
    if !CanMkdirs(root, [RECYCLE]) { return; }
    root := Mkdirs(root, [RECYCLE]);
    local := new Local(deviceId, reader, disk.(fs := root));
  }
}
