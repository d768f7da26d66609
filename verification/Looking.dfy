/** What list, meta and read answer, request by request, and what a client that reads on gets. */
module Looking {
  import opened Wrappers
  import opened Paths
  import opened FileSystem
  import opened Layout
  import opened Recycle
  import opened RecycleLaws
  import opened Fidelity
  import opened Listing
  import opened Host
  import opened Requests
  import P = Protocol
  import A = ImportAuth

  // ---------- whose files, and where ----------

  predicate Looks(op: P.Op) {
    op == P.List || op == P.Op.Meta || op == P.Read
  }

  /** The device a frame is about: the one it names, or the caller. */
  function Whose(f: P.Frame, caller: string): string {
    if f.device == "" then caller else f.device
  }

  /** The frame is an owner's and passes the access check. */
  predicate MayAsk(f: P.Frame, caller: string, trust: P.Trust) {
    && trust == P.Trust.Owner && HexId(caller) && Looks(f.op)
    && SpaceName(f.space) && NamedDevice(f) && (Own(f, caller) || Shared(f.space) || f.seed || f.grant != "")
  }

  /** A grant issued here opens this device's space to the caller. */
  ghost predicate Granted(grants: seq<A.Grant>, f: P.Frame, caller: string, now: int) {
    exists g <- grants ::
      && g.id == f.grant && g.oldDevice == f.device && g.newDevice == caller
      && !g.revoked && now <= g.expires && f.space in g.spaces
  }

  /** What a look needs beyond the access check, private spaces of other devices being closed. */
  ghost predicate MayLook(auth: A.Auth, f: P.Frame, caller: string, now: int) {
    || Own(f, caller) || Shared(f.space)
    || (f.seed && caller in auth.seed && now < auth.seed[caller])
    || (!f.seed && Granted(auth.grants, f, caller, now))
  }

  /** Looking changes nothing, but that an expired authorisation to seed is forgotten. */
  ghost predicate OnlyLooked(s: State, after: State, f: P.Frame, caller: string, now: int) {
    var expired := !Own(f, caller) && !Shared(f.space) && f.seed && caller in s.auth.seed && s.auth.seed[caller] <= now;
    && after == s.(auth := s.auth.(seed := after.auth.seed))
    && (!expired ==> after == s)
    && (expired ==> after.auth.seed == s.auth.seed - {caller})
  }

  predicate Spelt(path: string) {
    path == "" || path == "/" || Normalize(path).Ok?
  }

  /** The place a path of a space names. */
  function Place(device: string, space: string, path: string): Path
    requires Spelt(path)
  {
    [device, space] + if path == "" || path == "/" then [] else Normalize(path).value
  }

  lemma WhoseIsId(f: P.Frame, caller: string)
    requires HexId(caller) && NamedDevice(f)
    ensures IsValidDeviceId(Whose(f, caller))
  {
    HexIdIs(caller);
    HexIdIs(f.device);
  }

  lemma Resolves(localId: string, space: string, device: string, path: string)
    requires IsValidDeviceId(device) && SpaceName(space)
    ensures ResolvePath(localId, space, device, path) ==
            if Spelt(path) then Ok(Place(device, space, path)) else Err(BadPath)
  {
    hide Normalize, Kept, IsValidDeviceId, BaseText, Push, IsValidSpace;
    assert IsValidSpace(space) by { SpaceIsValid(space); }
    assert device != "" by { IdNotEmpty(device); }
    DeviceSpaceSegments(device, space);
    EscapeUnreachable(localId, space, device, path);
    KeptNontrivial([device, space]);
    if path != "" && path != "/" && Normalize(path).Ok? {
      NormalizedIsClean(path);
      OfficialText(device, space, Normalize(path).value);
    }
    assert [device, space] + [] == [device, space];
  }

  lemma SpaceIsValid(space: string)
    ensures SpaceName(space) <==> IsValidSpace(space)
  {
  }

  lemma IdNotEmpty(device: string)
    requires IsValidDeviceId(device)
    ensures device != ""
  {
  }

  // ---------- the gate ----------

  lemma GrantedIs(auth: A.Auth, f: P.Frame, caller: string, now: int)
    ensures Granted(auth.grants, f, caller, now) <==> A.Validate(auth, f.grant, f.device, caller, f.space, now)
  {
    if A.Validate(auth, f.grant, f.device, caller, f.space, now) {
      var i :| 0 <= i < |auth.grants| && A.Opens(auth.grants[i], f.grant, f.device, caller, f.space, now);
      assert auth.grants[i] in auth.grants;
    }
    if Granted(auth.grants, f, caller, now) {
      var g :| g in auth.grants && g.id == f.grant && g.oldDevice == f.device && g.newDevice == caller
        && !g.revoked && now <= g.expires && f.space in g.spaces;
      var i :| 0 <= i < |auth.grants| && auth.grants[i] == g;
      assert A.Opens(auth.grants[i], f.grant, f.device, caller, f.space, now);
    }
  }

  lemma GateIs(s: State, f: P.Frame, caller: string, now: int)
    requires Own(f, caller) || Shared(f.space) || f.seed || f.grant != ""
    ensures var (auth, ok) := A.RequireImportGrant(s.auth, f, caller, now);
            (ok <==> MayLook(s.auth, f, caller, now)) && OnlyLooked(s, s.(auth := auth), f, caller, now)
  {
    hide A.Validate, Granted;
    GrantedIs(s.auth, f, caller, now);
    if f.seed && caller in s.auth.seed && now >= s.auth.seed[caller] {
      assert A.DropExpired(s.auth, caller, now).seed == s.auth.seed - {caller};
    }
  }

  /** Every look: refused with acl_denied if the gate is closed, else answered from the named device's place. */
  lemma LookIs(site: Site, s: State, f: P.Frame, caller: string, trust: P.Trust, loopback: bool, inp: Inputs)
    requires MayAsk(f, caller, trust)
    ensures var (after, r) := Handle(site, s, f, caller, trust, loopback, inp);
            && OnlyLooked(s, after, f, caller, inp.now)
            && r == if MayLook(s.auth, f, caller, inp.now) then Look(site, s, f, caller, inp) else Err(AclDenied)
  {
    hide MayLook, OnlyLooked, Look, A.RequireImportGrant, HexId, TurnedAway;
    LooksLetIn(site, s, f, caller, loopback, inp);
    GateIs(s, f, caller, inp.now);
    hide Handle;
  }

  // ---------- read ----------

  function Least(a: int, b: int): int {
    if a < b then a else b
  }

  /** What a read of `length` bytes from `offset` gives: no more than 65536 bytes, and eof when fewer than asked. */
  ghost predicate IsPiece(data: Bytes, offset: int, length: int, got: Bytes, eof: bool) {
    var from := if offset < 0 then 0 else offset;
    var n := if 1 <= length <= 65536 then length else 65536;
    got == data[Least(from, |data|)..Least(from + n, |data|)] && (eof <==> |got| < n)
  }

  lemma PieceIs(data: Bytes, offset: int, length: int)
    ensures var (got, eof) := ReadChunk(data, if offset < 0 then 0 else offset, length);
            IsPiece(data, offset, length, got, eof)
  {
  }

  /** read: the bytes of the named device's file from the offset on. */
  lemma ReadLaw(site: Site, s: State, f: P.Frame, caller: string, trust: P.Trust, loopback: bool, inp: Inputs)
    requires MayAsk(f, caller, trust) && f.op == P.Read
    ensures var (after, r) := Handle(site, s, f, caller, trust, loopback, inp);
            && OnlyLooked(s, after, f, caller, inp.now)
            && (!MayLook(s.auth, f, caller, inp.now) ==> r == Err(AclDenied))
            && (MayLook(s.auth, f, caller, inp.now) && !Spelt(f.path) ==> r == Err(BadPath))
            && (MayLook(s.auth, f, caller, inp.now) && Spelt(f.path) ==>
                  var p := Place(Whose(f, caller), f.space, f.path);
                  if p !in s.store.fs then r == Err(NotFound)
                  else
                    && r.Ok? && r.value.Data?
                    && (s.store.fs[p].Blob? ==>
                          IsPiece(s.store.fs[p].data, f.offset, f.length, r.value.data, r.value.eof))
                    && (s.store.fs[p] == Dir ==> r == Ok(Data([], true))))
  {
    hide MayLook, OnlyLooked, IsPiece, Handle, Spelt, Place, HexId, ResolvePath, ReadChunk;
    LookIs(site, s, f, caller, trust, loopback, inp);
    WhoseIsId(f, caller);
    Resolves(site.localId, f.space, Whose(f, caller), f.path);
    DirReads(f.offset, f.length);
    if Spelt(f.path) {
      var p := Place(Whose(f, caller), f.space, f.path);
      if p in s.store.fs && s.store.fs[p].Blob? {
        PieceIs(s.store.fs[p].data, f.offset, f.length);
      }
    }
  }

  lemma DirReads(offset: int, length: int)
    ensures ReadChunk([], if offset < 0 then 0 else offset, length) == ([], true)
  {
  }

  // ---------- meta ----------

  /** meta: whether it is a directory, else the size and the hash of what the file holds. */
  lemma MetaLaw(site: Site, s: State, f: P.Frame, caller: string, trust: P.Trust, loopback: bool, inp: Inputs)
    requires MayAsk(f, caller, trust) && f.op == P.Op.Meta
    ensures var (after, r) := Handle(site, s, f, caller, trust, loopback, inp);
            && OnlyLooked(s, after, f, caller, inp.now)
            && (!MayLook(s.auth, f, caller, inp.now) ==> r == Err(AclDenied))
            && (MayLook(s.auth, f, caller, inp.now) && !Spelt(f.path) ==> r == Err(BadPath))
            && (MayLook(s.auth, f, caller, inp.now) && Spelt(f.path) ==>
                  var p := Place(Whose(f, caller), f.space, f.path);
                  if p !in s.store.fs then r == Err(NotFound)
                  else match s.store.fs[p]
                    case Dir => r == Ok(IsDir)
                    case Blob(data) => r == Ok(IsFile(|data|, site.reader.hash(data)))
                    case Meta(m) =>
                      r == Ok(IsFile(|site.reader.text(m)|, site.reader.hash(site.reader.text(m)))))
  {
    hide MayLook, OnlyLooked, Handle, Spelt, Place, HexId, ResolvePath;
    LookIs(site, s, f, caller, trust, loopback, inp);
    WhoseIsId(f, caller);
    Resolves(site.localId, f.space, Whose(f, caller), f.path);
  }

  // ---------- list ----------

  /** An entry shows a file: its path below the space, the size and the hash of what it holds. */
  ghost predicate Shows(site: Site, fs: Fs, e: Entry, p: Path) {
    && p in fs && |p| >= 2 && e.path == Join(p[2..])
    && match fs[p]
       case Dir => false
       case Blob(data) => e.size == |data| && e.sha == site.reader.hash(data)
       case Meta(m) => e.size == |site.reader.text(m)| && e.sha == site.reader.hash(site.reader.text(m))
  }

  /** The entries show different files below a place, none with a dot-led name below it; if the limit leaves
      room, they show all of these. */
  ghost predicate ListsBelow(site: Site, fs: Fs, place: Path, limit: int, entries: seq<Entry>, files: seq<Path>) {
    && |entries| == |files| <= (if limit <= 0 then 1000 else limit)
    && (forall i :: 0 <= i < |files| ==> Shows(site, fs, entries[i], files[i]))
    && (forall i :: 0 <= i < |files| ==> Visible(fs, place, files[i]))
    && (forall i, j :: 0 <= i < j < |files| ==> files[i] != files[j])
    && (|files| < (if limit <= 0 then 1000 else limit) ==> forall p :: Visible(fs, place, p) ==> p in files)
  }

  /** list: a file itself has no entries; a directory has those of the files below it. */
  lemma ListLaw(site: Site, s: State, f: P.Frame, caller: string, trust: P.Trust, loopback: bool, inp: Inputs)
    requires MayAsk(f, caller, trust) && f.op == P.List
    requires IsTree(s.store.fs) && Enumerates(s.store.fs, inp.readDir)
    ensures var (after, r) := Handle(site, s, f, caller, trust, loopback, inp);
            && OnlyLooked(s, after, f, caller, inp.now)
            && (!MayLook(s.auth, f, caller, inp.now) ==> r == Err(AclDenied))
            && (MayLook(s.auth, f, caller, inp.now) && !Spelt(f.path) ==> r == Err(BadPath))
            && (MayLook(s.auth, f, caller, inp.now) && Spelt(f.path) ==>
                  && r.Ok? && r.value.Entries?
                  && exists files :: ListsBelow(site, s.store.fs, Place(Whose(f, caller), f.space, f.path), f.limit,
                                                r.value.entries, files))
  {
    hide MayLook, OnlyLooked, Handle, Spelt, Place, HexId, Named, ResolvePath, ListsBelow, IsTree, Enumerates,
      Listed;
    LookIs(site, s, f, caller, trust, loopback, inp);
    WhoseIsId(f, caller);
    Resolves(site.localId, f.space, Whose(f, caller), f.path);
    if Spelt(f.path) {
      ListedBelow(site, s.store.fs, inp.readDir, f.space, Whose(f, caller), f.path, f.limit);
    } else {
      ListedRefuses(site, s.store.fs, inp.readDir, f.space, Whose(f, caller), f.path, f.limit);
    }
  }

  lemma ListedRefuses(site: Site, fs: Fs, readDir: ReadDir, space: string, device: string, path: string, limit: int)
    requires ResolvePath(site.localId, space, device, path) == Err(BadPath)
    ensures Listed(site.reader, fs, readDir, site.localId, space, device, path, limit) == Err(BadPath)
  {
    hide ResolvePath, Named, Flatten;
  }

  lemma ListedBelow(site: Site, fs: Fs, readDir: ReadDir, space: string, device: string, path: string, limit: int)
    requires IsTree(fs) && Enumerates(fs, readDir) && IsValidDeviceId(device) && SpaceName(space) && Spelt(path)
    ensures var r := Listed(site.reader, fs, readDir, site.localId, space, device, path, limit);
            r.Ok? && exists files :: ListsBelow(site, fs, Place(device, space, path), limit, r.value, files)
  {
    hide Spelt, Place, Named, ResolvePath, IsTree, Enumerates, ListsBelow, Flatten, Listed, IsValidDeviceId,
      SpaceName, Shown, ShownAll;
    var place := Place(device, space, path);
    Resolves(site.localId, space, device, path);
    ListedIsPrefix(site.reader, fs, readDir, site.localId, space, device, path, limit);
    BaseIs(site.localId, device, space);
    PlaceBelow(device, space, path);
    var all := Flatten(fs, readDir, place);
    var r := Listed(site.reader, fs, readDir, site.localId, space, device, path, limit).value;
    FlattenedBelow(fs, readDir, place, all);
    PrefixLists(site, fs, [device, space], place, limit, r, all);
  }

  lemma BaseIs(localId: string, device: string, space: string)
    requires IsValidDeviceId(device) && SpaceName(space)
    ensures Named([if device == "" then localId else device, space]) == [device, space]
  {
    hide Kept, IsValidDeviceId;
    SpaceIsValid(space);
    IdNotEmpty(device);
    DeviceSpaceSegments(device, space);
    KeptNontrivial([device, space]);
  }

  lemma PlaceBelow(device: string, space: string, path: string)
    requires Spelt(path)
    ensures [device, space] <= Place(device, space, path)
  {
    hide Normalize;
  }

  lemma FlattenedBelow(fs: Fs, readDir: ReadDir, place: Path, all: seq<Path>)
    requires IsTree(fs) && Enumerates(fs, readDir) && all == Flatten(fs, readDir, place)
    ensures forall p :: p in all <==> Visible(fs, place, p)
    ensures forall i, j :: 0 <= i < j < |all| ==> all[i] != all[j]
  {
    hide IsTree, Enumerates, Flatten, Visible;
    FlattenDistinct(fs, readDir, place);
    forall p ensures p in all <==> Visible(fs, place, p) {
      FlattenHolds(fs, readDir, place, p);
    }
  }

  lemma PrefixLists(site: Site, fs: Fs, base: Path, place: Path, limit: int, entries: seq<Entry>, all: seq<Path>)
    requires |base| == 2 && base <= place
    requires (forall p :: p in all <==> Visible(fs, place, p)) && forall i, j :: 0 <= i < j < |all| ==> all[i] != all[j]
    requires var most := if limit <= 0 then 1000 else limit;
             |entries| == (if |all| < most then |all| else most)
             && entries == ShownAll(site.reader, fs, base, all)[..|entries|]
    ensures ListsBelow(site, fs, place, limit, entries, all[..|entries|])
  {
    hide Visible, ShownAll, Shown, Shows;
    var files := all[..|entries|];
    forall i | 0 <= i < |files|
      ensures Visible(fs, place, files[i]) && Shows(site, fs, entries[i], files[i])
    {
      assert files[i] == all[i] && all[i] in all;
      assert entries[i] == Shown(site.reader, fs, base, all[i]);
      ShownShows(site, fs, base, place, all[i]);
    }
  }

  lemma ShownShows(site: Site, fs: Fs, base: Path, place: Path, p: Path)
    requires |base| == 2 && base <= place && Visible(fs, place, p)
    ensures Shows(site, fs, Shown(site.reader, fs, base, p), p)
  {
    assert base <= p;
  }

  // ---------- reading on until eof ----------

  /** A client reading on from `offset` with one read request after the other, each in its own circumstances
      and for as many bytes as it likes, until eof; None if one is refused or `fuel` of them do not suffice. */
  ghost function ReadOn(site: Site, s: State, f: P.Frame, caller: string, trust: P.Trust, loopback: bool,
                        world: nat -> Inputs, lengths: nat -> int, offset: nat, i: nat, fuel: nat): Option<Bytes>
    decreases fuel
  {
    if fuel == 0 then None
    else
      var (after, r) := Handle(site, s, f.(offset := offset, length := lengths(i)), caller, trust, loopback, world(i));
      match r
      case Ok(Data(got, true)) => Some(got)
      case Ok(Data(got, false)) =>
        (match ReadOn(site, after, f, caller, trust, loopback, world, lengths, offset + |got|, i + 1, fuel - 1)
         case None => None
         case Some(rest) => Some(got + rest))
      case _ => None
  }

  /** Whatever lengths are asked for, a client that may look gets the rest of the file, by as many requests as
      there are bytes left, and one. */
  lemma {:induction false} ReadOnReturnsAll(site: Site, s: State, f: P.Frame, caller: string, trust: P.Trust,
                                            loopback: bool, world: nat -> Inputs, lengths: nat -> int, offset: nat,
                                            i: nat, fuel: nat, data: Bytes)
    requires MayAsk(f, caller, trust) && f.op == P.Read && Spelt(f.path)
    requires forall k: nat :: MayLook(s.auth, f, caller, world(k).now)
    requires var p := Place(Whose(f, caller), f.space, f.path); p in s.store.fs && s.store.fs[p] == Blob(data)
    requires offset <= |data| < offset + fuel
    ensures ReadOn(site, s, f, caller, trust, loopback, world, lengths, offset, i, fuel) == Some(data[offset..])
    decreases fuel
  {
    hide MayAsk, MayLook, Spelt, Place, Handle;
    var g := f.(offset := offset, length := lengths(i));
    SameQuestion(s.auth, f, caller, trust, world(i).now, offset, lengths(i));
    ReadLaw(site, s, g, caller, trust, loopback, world(i));
    LookedIn(s, Handle(site, s, g, caller, trust, loopback, world(i)).0, g, caller, world(i).now);
    var r := Handle(site, s, g, caller, trust, loopback, world(i)).1;
    PieceEnds(data, offset, lengths(i), r.value.data, r.value.eof);
    if !r.value.eof {
      ReadOnReturnsAll(site, s, f, caller, trust, loopback, world, lengths, offset + |r.value.data|, i + 1, fuel - 1,
                       data);
    }
  }

  lemma SameQuestion(auth: A.Auth, f: P.Frame, caller: string, trust: P.Trust, now: int, offset: int, length: int)
    ensures var g := f.(offset := offset, length := length);
            && (MayAsk(g, caller, trust) <==> MayAsk(f, caller, trust))
            && (MayLook(auth, g, caller, now) <==> MayLook(auth, f, caller, now))
            && Whose(g, caller) == Whose(f, caller)
  {
    hide Granted, HexId;
    assert Granted(auth.grants, f.(offset := offset, length := length), caller, now)
      <==> Granted(auth.grants, f, caller, now) by {
      GrantedIs(auth, f, caller, now);
      GrantedIs(auth, f.(offset := offset, length := length), caller, now);
    }
  }

  lemma LookedIn(s: State, after: State, f: P.Frame, caller: string, now: int)
    requires OnlyLooked(s, after, f, caller, now) && MayLook(s.auth, f, caller, now)
    ensures after == s
  {
    hide Granted;
  }

  /** A piece is the rest of the file, with eof, or has at least one byte more. */
  lemma PieceEnds(data: Bytes, offset: nat, length: int, got: Bytes, eof: bool)
    requires offset <= |data| && IsPiece(data, offset, length, got, eof)
    ensures eof ==> got == data[offset..]
    ensures !eof ==> |got| > 0 && offset + |got| <= |data| && data[offset..] == got + data[offset + |got|..]
  {
  }
}
