/** Where things live under the store root, and what is counted as stored content. */
module Layout {
  import opened Wrappers
  import opened FileSystem

  const RECYCLE := ".recycle"
  const STAGING := ".staging"

  predicate IsValidDeviceId(device: string) {
    |device| == 16 && forall i :: 0 <= i < 16 ==> '0' <= device[i] <= '9' || 'a' <= device[i] <= 'f'
  }

  predicate IsValidSpace(s: string) {
    s == "artifacts" || s == "files" || s == "attachments" || s == "backups"
  }

  predicate SharedReadable(s: string) {
    s == "artifacts" || s == "files"
  }

  /** Inside some `<device>/<space>/.staging`. */
  predicate Staged(p: Path) {
    |p| >= 3 && p[0] != RECYCLE && p[2] == STAGING
  }

  predicate InRecycle(p: Path) {
    |p| >= 1 && p[0] == RECYCLE
  }

  /** The device and space a file belongs to: `<device>/<space>/..` in the official tree,
      `.recycle/<date>/<device>/<space>/..` in the recycle bin. */
  function Owner(p: Path): Option<(string, string)> {
    if InRecycle(p) then (if |p| >= 5 then Some((p[2], p[3])) else None)
    else if |p| >= 3 then Some((p[0], p[1]))
    else None
  }

  /** Official and recycled files holding content c. */
  ghost function Holders(fs: Fs, c: Bytes): set<Path> {
    set p <- fs | !Staged(p) && fs[p] == Blob(c)
  }

  ghost function Copies(fs: Fs, c: Bytes): nat {
    |Holders(fs, c)|
  }

  /** Every official or recycled file of g was one of f's, under the same device and space. */
  ghost predicate SameOwners(f: Fs, g: Fs) {
    forall p <- g | !Staged(p) && !g[p].Dir? ::
      exists q <- f :: !Staged(q) && f[q] == g[p] && Owner(q) == Owner(p)
  }

  ghost predicate SameStaging(f: Fs, g: Fs) {
    forall p | Staged(p) :: (p in g <==> p in f) && (p in f ==> g[p] == f[p])
  }

  /** Official and recycled files may have moved about or gone, but none changed owner, and the
      staging area is as it was. */
  ghost predicate Resettled(f: Fs, g: Fs) {
    IsTree(g) && SameOwners(f, g) && SameStaging(f, g)
  }

  /** g is f with official and recycled files moved about: none lost, none copied, none changing
      owner, and the staging area as it was. */
  ghost predicate Shuffled(f: Fs, g: Fs) {
    Resettled(f, g) && forall c :: Copies(g, c) == Copies(f, c)
  }

  /** The same, but for some files that were lost, each by its content. */
  ghost predicate Rearranged(f: Fs, g: Fs, lost: multiset<Bytes>) {
    Resettled(f, g) && forall c :: Copies(g, c) + lost[c] == Copies(f, c)
  }

  lemma NothingLost(f: Fs, g: Fs)
    ensures Shuffled(f, g) <==> Rearranged(f, g, multiset{})
  {
    hide Resettled, Copies;
  }

  lemma RearrangedTrans(f: Fs, g: Fs, h: Fs, a: multiset<Bytes>, b: multiset<Bytes>)
    requires Rearranged(f, g, a) && Rearranged(g, h, b)
    ensures Rearranged(f, h, a + b)
  {
    hide Copies;
    ResettledTrans(f, g, h);
    hide Resettled;
  }

  lemma ShuffledSelf(f: Fs)
    requires IsTree(f)
    ensures Shuffled(f, f)
  {
  }

  lemma ShuffledTrans(f: Fs, g: Fs, h: Fs)
    requires Shuffled(f, g) && Shuffled(g, h)
    ensures Shuffled(f, h)
  {
    ResettledTrans(f, g, h);
    hide Resettled;
  }

  lemma ResettledTrans(f: Fs, g: Fs, h: Fs)
    requires Resettled(f, g) && Resettled(g, h)
    ensures Resettled(f, h)
  {
    forall p <- h | !Staged(p) && !h[p].Dir?
      ensures exists q <- f :: !Staged(q) && f[q] == h[p] && Owner(q) == Owner(p)
    {
      var q :| q in g && !Staged(q) && g[q] == h[p] && Owner(q) == Owner(p);
      var o :| o in f && !Staged(o) && f[o] == g[q] && Owner(o) == Owner(q);
    }
  }

  /** Adding or dropping directories outside staging moves no file. */
  lemma DirsOnly(f: Fs, g: Fs)
    requires IsTree(g) && SameStaging(f, g)
    requires forall p <- g | !g[p].Dir? :: p in f && f[p] == g[p]
    requires forall p <- f | !f[p].Dir? :: p in g && f[p] == g[p]
    ensures Shuffled(f, g)
  {
    forall c ensures Holders(g, c) == Holders(f, c) { }
    forall p <- g | !Staged(p) && !g[p].Dir?
      ensures exists q <- f :: !Staged(q) && f[q] == g[p] && Owner(q) == Owner(p)
    {
      assert p in f && f[p] == g[p];
    }
  }

  /** A whole subtree that keeps its owner and stays out of staging. */
  ghost predicate KeepsOwner(src: Path, dst: Path, fs: Fs) {
    forall p <- fs | src <= p ::
      var q := Relocated(src, dst, p);
      !Staged(p) && !Staged(q) && (!fs[p].Dir? ==> Owner(q) == Owner(p))
  }

  /** Moving a subtree that neither is nor becomes staged, to a free place: no copy is lost or made,
      and the staging area stays as it was. */
  lemma MoveKeepsCopies(fs: Fs, src: Path, dst: Path)
    requires IsTree(fs) && src in fs && src != [] && dst != [] && dst !in fs && !(src <= dst)
    requires Parent(dst) in fs && fs[Parent(dst)] == Dir && forall q <- fs :: !(dst <= q)
    requires forall p <- fs | src <= p :: !Staged(p) && !Staged(Relocated(src, dst, p))
    ensures var g := MoveTree(fs, src, dst);
            IsTree(g) && SameStaging(fs, g) && forall c :: Copies(g, c) == Copies(fs, c)
  {
    var g := MoveTree(fs, src, dst);
    PrefixParent(src, dst);
    MoveTreeIsTree(fs, src, dst);
    MovedFrom(fs, src, dst);
    forall c ensures Copies(g, c) == Copies(fs, c) {
      var image := set p <- Holders(fs, c) :: Relocated(src, dst, p);
      RelocatedCount(Holders(fs, c), src, dst);
      forall p <- Holders(fs, c) ensures Relocated(src, dst, p) in Holders(g, c) {
        if src <= p { RelocatedBack(src, dst, p); }
      }
      forall p <- Holders(g, c) ensures p in image {
        var o := if dst <= p then Relocated(dst, src, p) else p;
        assert o in Holders(fs, c) && Relocated(src, dst, o) == p;
      }
      assert image == Holders(g, c);
    }
  }

  lemma MovedFrom(fs: Fs, src: Path, dst: Path)
    requires forall q <- fs :: !(dst <= q)
    ensures var g := MoveTree(fs, src, dst);
            forall p <- g | dst <= p ::
              var o := Relocated(dst, src, p);
              o in fs && src <= o && Relocated(src, dst, o) == p && g[p] == fs[o]
  {
    forall p <- MoveTree(fs, src, dst) | dst <= p
      ensures src <= Relocated(dst, src, p) && Relocated(src, dst, Relocated(dst, src, p)) == p
    {
      RelocatedBack(dst, src, p);
    }
  }

  /** If the subtree keeps its owners too, files are shuffled and nothing else. */
  lemma MoveShuffles(fs: Fs, src: Path, dst: Path)
    requires IsTree(fs) && src in fs && src != [] && dst != [] && dst !in fs && !(src <= dst)
    requires Parent(dst) in fs && fs[Parent(dst)] == Dir && forall q <- fs :: !(dst <= q)
    requires KeepsOwner(src, dst, fs)
    ensures Shuffled(fs, MoveTree(fs, src, dst))
  {
    var g := MoveTree(fs, src, dst);
    MoveKeepsCopies(fs, src, dst);
    MovedFrom(fs, src, dst);
    forall p <- g | !Staged(p) && !g[p].Dir?
      ensures exists q <- fs :: !Staged(q) && fs[q] == g[p] && Owner(q) == Owner(p)
    {
      var o := if dst <= p then Relocated(dst, src, p) else p;
      assert o in fs && fs[o] == g[p] && !Staged(o) && Owner(o) == Owner(p);
    }
  }
}
