/** Moving things into the recycle bin and back: move_to_recycle, recycle.restore, resolve_path. */
module Recycle {
  import opened Wrappers
  import opened Paths
  import opened Suffix
  import opened FileSystem
  import opened Layout

  /** One reading of the clock: the local date as "%Y-%m-%d" and the time in milliseconds. */
  datatype Stamp = Stamp(date: string, ms: nat)

  /** What is used of a date: it is one path segment without '~', and neither a device id nor a space. */
  predicate DateSeg(date: string) {
    CleanSeg(date) && '~' !in date && !HasDotDot(date) && !IsValidDeviceId(date) && !IsValidSpace(date)
  }

  /** The first n readings of the clock give real dates. */
  predicate Dated(clock: nat -> Stamp, n: nat) {
    forall i :: 0 <= i < n ==> DateSeg(clock(i).date)
  }

  // ---------- strings as the kernel reads them ----------

  /** The node a path string names: empty and "." components do not count. */
  function Named(parts: seq<string>): Path {
    Kept(parts)
  }

  /** `exists()` on a path string; a trailing slash or dot asks for a directory. */
  predicate ExistsAt(fs: Fs, parts: seq<string>)
    requires parts != []
  {
    Named(parts) in fs && (EndingOf(parts) != Plain ==> fs[Named(parts)] == Dir)
  }

  /** How a path string ends: in a name, in slashes, or in a "." component with or without slashes. */
  datatype Ending = Plain | Slash | Dot

  function EndingOf(parts: seq<string>): Ending
    requires parts != []
  {
    if Last(parts) == "." then Dot
    else if Last(parts) != "" then Plain
    else if |parts| > 1 && EndingOf(parts[..|parts| - 1]) == Dot then Dot
    else Slash
  }

  /** What two names of one rename come to. */
  function Stricter(a: Ending, b: Ending): Ending {
    if a == Dot || b == Dot then Dot else if a == Slash || b == Slash then Slash else Plain
  }

  /** rename(2) on names as spelt: one that ends in slashes asks for a directory, one whose last
      component is "." is always refused. */
  predicate SpellingAllows(fs: Fs, src: Path, e: Ending)
    requires src in fs
  {
    e != Dot && (e == Slash ==> fs[src] == Dir)
  }

  /** Path::join on text below the store root: a separator goes in unless there is one. */
  function Push(text: string, more: string): string {
    if text != "" && text[|text| - 1] == '/' then text + more else text + "/" + more
  }

  /** The base directory of a device and space, as spelt. */
  function BaseText(head: string, space: string): string {
    Push(Push("", head), space)
  }

  /** resolve_path, as the components of the path it spells, with the test that the result did not
      leave its base: the base's text and one more separator. */
  function Resolve(localId: string, space: string, device: string, rel: string): (r: Result<seq<string>, OpError>)
    ensures r.Ok? ==> |r.value| >= 2
  {
    var head := if device == "" then localId else device;
    var base := [head, space];
    if rel == "" || rel == "/" then Ok(base)
    else
      match Normalize(rel)
      case Err(_) => Err(BadPath)
      case Ok(segs) =>
        var text := BaseText(head, space);
        if Named(base + segs) != Named(base) && !(text + "/" <= Push(text, Join(segs))) then Err(BadPath)
          else Ok(base + segs)
  }

  /** The node resolve_path leads to. */
  function ResolvePath(localId: string, space: string, device: string, rel: string): Result<Path, OpError> {
    match Resolve(localId, space, device, rel)
    case Err(e) => Err(e)
    case Ok(parts) => Ok(Named(parts))
  }

  // ---------- move_to_recycle ----------

  /** create_dir_all(parent) and rename, the shared tail of every move. */
  function Transfer(fs: Fs, src: Path, dst: Path, e: Ending): (Fs, bool) {
    if dst == [] || !CanMkdirs(fs, Parent(dst)) then (fs, false)
    else
      var made := Mkdirs(fs, Parent(dst));
      if src !in made || !SpellingAllows(made, src, e) then (made, false)
      else
        match Rename(made, src, dst)
        case Err(_) => (made, false)
        case Ok(moved) => (moved, true)
  }

  function RecycleName(fs: Fs, device: string, space: string, rel: string, stamp: Stamp): string {
    var plain := RECYCLE + "/" + stamp.date + "/" + device + "/" + space + "/" + rel;
    if ExistsAt(fs, Split(plain)) then plain + "~" + Decimal(stamp.ms) else plain
  }

  function MoveToRecycle(fs: Fs, localId: string, device: string, space: string, rel: string, stamp: Stamp)
    : (Fs, Result<string, OpError>)
  {
    match Resolve(localId, space, device, rel)
    case Err(e) => (fs, Err(e))
    case Ok(full) =>
      if !ExistsAt(fs, full) then (fs, Err(NotFound))
      else
        var name := RecycleName(fs, device, space, rel, stamp);
        var parts := Split(name);
        var (after, done) := Transfer(fs, Named(full), Named(parts), Stricter(EndingOf(full), EndingOf(parts)));
        (after, if done then Ok(name) else Err(Internal))
  }

  datatype Deleted = Recycled(name: string) | AlreadyGone

  /** delete, on the device it resolved to; a missing item is reported, not an error. */
  function Delete(fs: Fs, localId: string, device: string, space: string, path: string, stamp: Stamp)
    : (Fs, Result<Deleted, OpError>)
  {
    match Normalize(path)
    case Err(_) => (fs, Err(BadPath))
    case Ok(rel) =>
      var (after, r) := MoveToRecycle(fs, localId, device, space, Join(rel), stamp);
      (after,
       match r
       case Ok(name) => Ok(Recycled(name))
       case Err(e) => if e == NotFound then Ok(AlreadyGone) else Err(e))
  }

  // ---------- recycle.restore ----------

  /** Directories of the bin that hold no file go away (prune_empty_recycle_dirs). */
  predicate HoldsFile(fs: Fs, p: Path) {
    exists q <- fs :: p <= q && fs[q] != Dir
  }

  function Prune(fs: Fs): Fs {
    map p | p in fs && ([RECYCLE] < p ==> HoldsFile(fs, p)) :: fs[p]
  }

  /** The path a recycled item came from, read off its recycle path. */
  function OriginParts(parts: seq<string>): seq<string>
    requires |parts| >= 5
  {
    var origin := parts[4..];
    origin[..|origin| - 1] + [Strip(Last(origin))]
  }

  function Restore(fs: Fs, localId: string, recyclePath: string, stamp: Stamp): (Fs, Result<string, OpError>) {
    var name := Slashed(recyclePath);
    var parts := Split(name);
    if !(RECYCLE + "/" <= name) || HasDotDot(name) then (fs, Err(BadPath))
    else if !ExistsAt(fs, parts) then (fs, Err(NotFound))
    else if |parts| < 5 then (fs, Err(BadPath))
    else
      var rel := Join(OriginParts(parts));
      match Resolve(localId, parts[3], parts[2], rel)
      case Err(e) => (fs, Err(e))
      case Ok(dest) =>
        var (cleared, displaced) :=
          if ExistsAt(fs, dest) then MoveToRecycle(fs, localId, parts[2], parts[3], rel, stamp) else (fs, Ok(""));
        if displaced.Err? then (cleared, Err(displaced.error))
        else
          var (after, done) := Transfer(cleared, Named(parts), Named(dest), Stricter(EndingOf(parts), EndingOf(dest)));
          if done then (Prune(after), Ok(rel)) else (after, Err(Internal))
  }
}
