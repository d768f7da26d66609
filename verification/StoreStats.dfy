/** stats: the figures of every device and space, of all staging directories and of the bin. */
module StoreStats {
  import opened FileSystem
  import opened Layout
  import opened StagingLaws
  import opened Maintenance
  import opened Listing
  import opened DirSize

  /** The bytes stats reports; per device, one figure for each space in the order of SPACES. */
  datatype Figures = Figures(devices: map<string, seq<nat>>, staging: nat, bin: nat)

  /** A device directory. */
  predicate IsDevice(fs: Fs, name: string) {
    IsValidDeviceId(name) && [name] in fs && fs[[name]] == Dir
  }

  ghost function Devices(fs: Fs): set<string> {
    set p <- fs | |p| == 1 && IsDevice(fs, p[0]) :: p[0]
  }

  /** A space's figure, staging included. */
  ghost function SpaceBytes(fs: Fs, size: Size, device: string, space: string): nat {
    Total(fs, Counted(fs, [device, space], [device, space], true), size)
  }

  ghost function SpaceFigures(fs: Fs, size: Size, device: string): (figures: seq<nat>)
    ensures |figures| == |SPACES|
  {
    seq(|SPACES|, i requires 0 <= i < |SPACES| => SpaceBytes(fs, size, device, SPACES[i]))
  }

  /** The files below a staging directory of a device. */
  ghost predicate BelowStaging(fs: Fs, q: Path) {
    |q| > 3 && IsDevice(fs, q[0]) && q[1] in SPACES && q[2] == STAGING && q in fs && fs[q] != Dir
  }

  ghost function StagingOf(fs: Fs, devices: set<string>): (r: set<Path>)
    ensures r <= fs.Keys
  {
    set q <- fs | BelowStaging(fs, q) && q[0] in devices
  }

  /** What stats reports. */
  ghost function Reported(fs: Fs, size: Size): Figures {
    Figures(map d | d in Devices(fs) :: SpaceFigures(fs, size, d),
            Total(fs, StagingOf(fs, Devices(fs)), size),
            SizeBelow(fs, [RECYCLE], size))
  }

  // ---------- the loops ----------

  /** The four figures of one device. */
  method MeasureSpaces(fs: Fs, readDir: ReadDir, size: Size, device: string) returns (figures: seq<nat>)
    requires IsTree(fs) && Enumerates(fs, readDir)
    ensures figures == SpaceFigures(fs, size, device)
  {
    hide IsTree, Enumerates, Counted, Total;
    figures := [];
    for i := 0 to |SPACES|
      invariant |figures| == i && forall j :: 0 <= j < i ==> figures[j] == SpaceBytes(fs, size, device, SPACES[j])
    {
      var n := Measure(fs, readDir, size, [device, SPACES[i]], true);
      figures := figures + [n];
    }
  }

  /** Every device directory of the root, with its figures. */
  method MeasureDevices(fs: Fs, readDir: ReadDir, size: Size) returns (devices: map<string, seq<nat>>)
    requires IsTree(fs) && Enumerates(fs, readDir)
    ensures devices == map d | d in Devices(fs) :: SpaceFigures(fs, size, d)
  {
    hide IsTree, SpaceFigures, IsValidDeviceId;
    var names := readDir([]);
    devices := map[];
    for i := 0 to |names|
      invariant forall d :: d in devices <==> d in names[..i] && IsDevice(fs, d)
      invariant forall d <- devices :: devices[d] == SpaceFigures(fs, size, d)
    {
      if IsDevice(fs, names[i]) {
        var figures := MeasureSpaces(fs, readDir, size, names[i]);
        devices := devices[names[i] := figures];
      }
    }
    RootNames(fs, readDir);
    assert names[..|names|] == names;
  }

  lemma RootNames(fs: Fs, readDir: ReadDir)
    requires Enumerates(fs, readDir)
    ensures forall d :: d in Devices(fs) <==> d in readDir([]) && IsDevice(fs, d)
  {
    forall d ensures d in Devices(fs) <==> d in readDir([]) && IsDevice(fs, d) {
      assert [] + [d] == [d] && |[d]| == 1 && [d][0] == d;
      if d in Devices(fs) {
        var p :| p in fs && |p| == 1 && IsDevice(fs, p[0]) && p[0] == d;
        assert p == [d];
      }
    }
  }

  /** The staging files of one device, in its first so many spaces. */
  ghost function StagingIn(fs: Fs, device: string, spaces: seq<string>): (r: set<Path>)
    ensures r <= fs.Keys
  {
    set q <- fs | BelowStaging(fs, q) && q[0] == device && q[1] in spaces
  }

  lemma OneStaging(fs: Fs, device: string, space: string)
    requires IsTree(fs) && IsDevice(fs, device) && space in SPACES
    ensures StagingIn(fs, device, [space]) == Counted(fs, [device, space, STAGING], [device, space, STAGING], false)
  {
    var dir := [device, space, STAGING];
    forall q <- fs ensures dir < q <==> |q| > 3 && q[0] == device && q[1] == space && q[2] == STAGING {
      if |q| > 3 && q[0] == device && q[1] == space && q[2] == STAGING { assert q[..3] == dir; }
    }
  }

  lemma NextSpace(fs: Fs, size: Size, device: string, i: nat)
    requires IsTree(fs) && IsDevice(fs, device) && i < |SPACES|
    ensures Total(fs, StagingIn(fs, device, SPACES[..i + 1]), size)
            == Total(fs, StagingIn(fs, device, SPACES[..i]), size)
               + Total(fs, Counted(fs, [device, SPACES[i], STAGING], [device, SPACES[i], STAGING], false), size)
  {
    hide IsTree, Counted, Total, BelowStaging;
    OneStaging(fs, device, SPACES[i]);
    SpacesDiffer(i);
    var a, b := StagingIn(fs, device, SPACES[..i]), StagingIn(fs, device, [SPACES[i]]);
    assert SPACES[..i + 1] == SPACES[..i] + [SPACES[i]];
    assert StagingIn(fs, device, SPACES[..i + 1]) == a + b;
    TotalUnion(fs, a, b, size);
  }

  lemma SpacesDiffer(i: nat)
    requires i < |SPACES|
    ensures SPACES[i] !in SPACES[..i]
  {
    assert SPACES[0][0] != SPACES[1][0] && SPACES[1][0] != SPACES[2][0];
    assert SPACES[0][1] != SPACES[2][1] && SPACES[3][0] == 'b';
  }

  /** All staging directories of the devices found. */
  method MeasureStaging(fs: Fs, readDir: ReadDir, size: Size, devices: set<string>) returns (bytes: nat)
    requires IsTree(fs) && Enumerates(fs, readDir) && forall d <- devices :: IsDevice(fs, d)
    ensures bytes == Total(fs, StagingOf(fs, devices), size)
  {
    hide IsTree, Enumerates, Counted, Total, BelowStaging, IsDevice;
    var rest := devices;
    bytes := 0;
    NoDevices(fs, size);
    assert devices - rest == {};
    while rest != {}
      invariant rest <= devices
      invariant bytes == Total(fs, StagingOf(fs, devices - rest), size)
      decreases |rest|
    {
      var device :| device in rest;
      ghost var before := bytes;
      NoSpaces(fs, size, device);
      for i := 0 to |SPACES|
        invariant bytes == before + Total(fs, StagingIn(fs, device, SPACES[..i]), size)
      {
        NextSpace(fs, size, device, i);
        var n := Measure(fs, readDir, size, [device, SPACES[i], STAGING], false);
        bytes := bytes + n;
      }
      NextDevice(fs, size, devices - rest, device);
      assert devices - (rest - {device}) == devices - rest + {device};
      rest := rest - {device};
    }
    assert devices - rest == devices;
  }

  lemma NoDevices(fs: Fs, size: Size)
    ensures Total(fs, StagingOf(fs, {}), size) == 0
  {
    hide BelowStaging;
    assert StagingOf(fs, {}) == {};
  }

  lemma NoSpaces(fs: Fs, size: Size, device: string)
    ensures Total(fs, StagingIn(fs, device, SPACES[..0]), size) == 0
  {
    hide BelowStaging;
    assert StagingIn(fs, device, SPACES[..0]) == {};
  }

  lemma NextDevice(fs: Fs, size: Size, devices: set<string>, device: string)
    requires device !in devices
    ensures Total(fs, StagingOf(fs, devices + {device}), size)
            == Total(fs, StagingOf(fs, devices), size) + Total(fs, StagingIn(fs, device, SPACES[..|SPACES|]), size)
  {
    hide Total;
    assert SPACES[..|SPACES|] == SPACES;
    var a, b := StagingOf(fs, devices), StagingIn(fs, device, SPACES);
    assert StagingOf(fs, devices + {device}) == a + b;
    TotalUnion(fs, a, b, size);
  }

  /** All of it. */
  method MeasureStore(fs: Fs, readDir: ReadDir, size: Size) returns (figures: Figures)
    requires IsTree(fs) && Enumerates(fs, readDir) && Weighs(size)
    ensures figures == Reported(fs, size)
  {
    hide IsTree, Enumerates, Counted, Total, SizeBelow, SpaceFigures, IsDevice, StagingOf, Devices;
    DevicesAre(fs);
    var devices := MeasureDevices(fs, readDir, size);
    assert devices.Keys == Devices(fs);
    var staging := MeasureStaging(fs, readDir, size, devices.Keys);
    var bin := Measure(fs, readDir, size, [RECYCLE], false);
    MeasureIsSizeBelow(fs, [RECYCLE], size);
    figures := Figures(devices, staging, bin);
  }

  lemma DevicesAre(fs: Fs)
    ensures forall d <- Devices(fs) :: IsDevice(fs, d)
  {
  }

  /** In a store that keeps its staging invariant, the staging figure is every staged byte there is. */
  lemma StagingFigure(fs: Fs, size: Size)
    requires IsTree(fs) && StagingShape(fs)
    ensures Reported(fs, size).staging == Total(fs, (set q <- fs | Staged(q) && fs[q] != Dir), size)
  {
    hide Total, IsSession, GoodMeta, IsValidDeviceId;
    var staged := set q <- fs | Staged(q) && fs[q] != Dir;
    forall q ensures q in StagingOf(fs, Devices(fs)) <==> q in staged {
      if q in staged { StagedBelow(fs, q); }
      if q in StagingOf(fs, Devices(fs)) { DeviceName(q[0]); }
    }
    assert StagingOf(fs, Devices(fs)) == staged;
  }

  lemma DeviceName(device: string)
    requires IsValidDeviceId(device)
    ensures device != RECYCLE
  {
    assert device[0] != '.';
  }

  lemma StagedBelow(fs: Fs, q: Path)
    requires IsTree(fs) && StagingShape(fs) && q in fs && Staged(q) && fs[q] != Dir
    ensures BelowStaging(fs, q) && q[0] in Devices(fs)
  {
    hide IsSession, GoodMeta;
    AncestorIsDir(fs, q, 1);
    assert q[..1] == [q[0]];
    assert SPACES[0] == "artifacts" && SPACES[1] == "files" && SPACES[2] == "attachments" && SPACES[3] == "backups";
  }
}
