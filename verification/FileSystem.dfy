/** An abstract file system: a map from paths to nodes, with the few calls the store makes. */
module FileSystem {
  import opened Wrappers

  type Byte = x: int | 0 <= x < 256
  type Bytes = seq<Byte>

  /** Segments below the store root; the root itself is []. */
  type Path = seq<string>

  /** The typed content of a staging `.json` file. */
  datatype StagingMeta = StagingMeta(rel: Path, size: int, sha: string, createdMs: int)

  datatype Node = Dir | Blob(data: Bytes) | Meta(meta: StagingMeta)

  type Fs = map<Path, Node>

  function Parent(p: Path): Path
    requires p != []
  {
    p[..|p| - 1]
  }

  function Last(p: Path): string
    requires p != []
  {
    p[|p| - 1]
  }

  /** Every node but the root sits in a directory. */
  ghost predicate IsTree(fs: Fs) {
    && [] in fs
    && fs[[]] == Dir
    && forall p <- fs :: p != [] ==> Parent(p) in fs && fs[Parent(p)] == Dir
  }

  lemma {:induction false} AncestorIsDir(fs: Fs, p: Path, k: nat)
    requires IsTree(fs) && p in fs && k < |p|
    ensures p[..k] in fs && fs[p[..k]] == Dir
  {
    if k < |p| - 1 {
      AncestorIsDir(fs, Parent(p), k);
      assert Parent(p)[..k] == p[..k];
    }
  }

  lemma PrefixIsDir(fs: Fs, a: Path, p: Path)
    requires IsTree(fs) && p in fs && a < p
    ensures a in fs && fs[a] == Dir
  {
    AncestorIsDir(fs, p, |a|);
    assert p[..|a|] == a;
  }

  // ---------- creating directories ----------

  /** create_dir_all succeeds: nothing on the way is a file. */
  predicate CanMkdirs(fs: Fs, p: Path) {
    forall k :: 0 <= k <= |p| && p[..k] in fs ==> fs[p[..k]] == Dir
  }

  function Prefixes(p: Path): (r: set<Path>)
    ensures forall q :: q in r <==> q <= p
  {
    var r := set k | 0 <= k <= |p| :: p[..k];
    assert forall q :: q <= p ==> q == p[..|q|];
    r
  }

  function Mkdirs(fs: Fs, p: Path): (r: Fs)
    ensures r.Keys == fs.Keys + Prefixes(p)
    ensures forall q <- fs :: r[q] == fs[q]
    ensures forall q <- r :: q !in fs ==> r[q] == Dir
  {
    map q | q in fs.Keys + Prefixes(p) :: if q in fs then fs[q] else Dir
  }

  lemma MkdirsTree(fs: Fs, p: Path)
    requires IsTree(fs) && CanMkdirs(fs, p)
    ensures IsTree(Mkdirs(fs, p))
    ensures p in Mkdirs(fs, p) && Mkdirs(fs, p)[p] == Dir
  {
    var r := Mkdirs(fs, p);
    assert p[..|p|] == p;
    forall q <- r | q != [] ensures Parent(q) in r && r[Parent(q)] == Dir {
      if q !in fs {
        assert Parent(q) <= p;
        assert p[..|q| - 1] == Parent(q);
      }
    }
    assert [] in r;
  }

  // ---------- renaming ----------

  /** Where a path goes when the subtree at src moves to dst. */
  function Relocated(src: Path, dst: Path, p: Path): Path {
    if src <= p then dst + p[|src|..] else p
  }

  lemma RelocatedBack(src: Path, dst: Path, p: Path)
    requires src <= p
    ensures dst <= Relocated(src, dst, p)
    ensures Relocated(dst, src, Relocated(src, dst, p)) == p
  {
    assert (dst + p[|src|..])[|dst|..] == p[|src|..];
    assert src + p[|src|..] == p;
  }

  lemma Comparable(a: Path, b: Path, q: Path)
    ensures a <= q && b <= q ==> a <= b || b <= a
  {
  }

  function RemoveTree(fs: Fs, p: Path): (r: Fs)
    ensures forall q :: q in r <==> q in fs && !(p <= q)
    ensures forall q <- r :: r[q] == fs[q]
  {
    map q | q in fs && !(p <= q) :: fs[q]
  }

  /** The subtree at src hung up at dst, which must be free. */
  function MoveTree(fs: Fs, src: Path, dst: Path): (r: Fs)
    requires forall q <- fs :: !(dst <= q)
    ensures forall p :: p in r <==> (dst <= p && Relocated(dst, src, p) in fs) || (!(src <= p) && p in fs)
    ensures forall p <- r :: r[p] == if dst <= p then fs[Relocated(dst, src, p)] else fs[p]
  {
    var kept := set p | p in fs && !(src <= p);
    var moved := set p | p in fs && src <= p :: Relocated(src, dst, p);
    forall p | p in fs && src <= p
      ensures Relocated(src, dst, p) in moved && Relocated(dst, src, Relocated(src, dst, p)) == p
    {
      RelocatedBack(src, dst, p);
    }
    forall p | dst <= p && Relocated(dst, src, p) in fs ensures p in moved {
      RelocatedBack(dst, src, p);
    }
    map p | p in kept + moved :: if dst <= p then fs[Relocated(dst, src, p)] else fs[p]
  }

  predicate HasChildren(fs: Fs, p: Path) {
    exists q <- fs :: p < q
  }

  /** rename(2): replaces a file by a file and an empty directory by a directory, and refuses a
      missing source, a missing parent, a move into itself and any other occupied target. */
  function Rename(fs: Fs, src: Path, dst: Path): Result<Fs, OpError> {
    if src == [] || dst == [] || src !in fs || Parent(dst) !in fs || fs[Parent(dst)] != Dir then Err(Internal)
    else if src == dst then Ok(fs)
    else if src <= dst then Err(Internal)
    else if dst in fs && (fs[src].Dir? != fs[dst].Dir? || HasChildren(fs, dst)) then Err(Internal)
    else Ok(MoveTree(RemoveTree(fs, dst), src, dst))
  }

  /** A rename of an existing node to a free place whose directory exists goes through. */
  lemma RenameSucceeds(fs: Fs, src: Path, dst: Path)
    requires IsTree(fs) && src in fs && src != [] && dst != [] && dst !in fs && !(src <= dst)
    requires Parent(dst) in fs && fs[Parent(dst)] == Dir
    ensures Rename(fs, src, dst).Ok?
    ensures forall q <- fs :: !(dst <= q)
    ensures Rename(fs, src, dst).value == MoveTree(fs, src, dst)
  {
    NothingBelowMissing(fs, dst);
    assert RemoveTree(fs, dst) == fs;
  }

  lemma NothingBelowMissing(fs: Fs, p: Path)
    requires IsTree(fs) && p !in fs
    ensures forall q <- fs :: !(p <= q)
  {
    forall q <- fs | p <= q ensures false {
      if p != q { PrefixIsDir(fs, p, q); }
    }
  }

  lemma RemoveTreeIsTree(fs: Fs, p: Path)
    requires IsTree(fs) && p != []
    ensures IsTree(RemoveTree(fs, p))
  {
    forall q <- RemoveTree(fs, p) | q != [] ensures !(p <= Parent(q)) {
      PrefixParent(p, q);
    }
  }

  lemma PrefixParent(a: Path, p: Path)
    requires p != []
    ensures a <= Parent(p) ==> a <= p
    ensures a <= p && a != p ==> a <= Parent(p)
  {
  }

  lemma RelocatedParent(src: Path, dst: Path, q: Path)
    requires dst < q
    ensures dst <= Parent(q) && Relocated(dst, src, q) != []
    ensures Parent(Relocated(dst, src, q)) == Relocated(dst, src, Parent(q))
  {
    PrefixParent(dst, q);
    assert Parent(q)[|dst|..] == q[|dst|..][..|q| - |dst| - 1];
  }

  lemma MoveTreeIsTree(fs: Fs, src: Path, dst: Path)
    requires IsTree(fs) && dst != [] && src != [] && src in fs && !(src <= Parent(dst))
    requires Parent(dst) in fs && fs[Parent(dst)] == Dir && forall q <- fs :: !(dst <= q)
    ensures IsTree(MoveTree(fs, src, dst))
  {
    var r := MoveTree(fs, src, dst);
    forall q <- r | q != [] ensures Parent(q) in r && r[Parent(q)] == Dir {
      if q == dst {
        PrefixParent(dst, q);
      } else if dst <= q {
        RelocatedParent(src, dst, q);
        assert Relocated(dst, src, q) in fs;
      } else {
        PrefixParent(src, q);
        PrefixParent(dst, q);
        assert !(src <= Parent(q)) && Parent(q) in fs;
      }
    }
  }

  lemma MoveTreeBack(fs: Fs, a: Path, b: Path)
    requires (forall q <- fs :: !(b <= q)) && !(a <= b) && !(b <= a)
    ensures forall q <- MoveTree(fs, a, b) :: !(a <= q)
    ensures MoveTree(MoveTree(fs, a, b), b, a) == fs
  {
    var g := MoveTree(fs, a, b);
    MoveTreeLeaves(fs, a, b);
    var h := MoveTree(g, b, a);
    forall p ensures p in h <==> p in fs {
      if a <= p { RelocatedBack(a, b, p); }
      Comparable(a, b, p);
    }
    forall p <- h ensures h[p] == fs[p] {
      if a <= p { RelocatedBack(a, b, p); }
    }
  }

  /** Nothing stays where a subtree was moved from. */
  lemma MoveTreeLeaves(fs: Fs, a: Path, b: Path)
    requires (forall q <- fs :: !(b <= q)) && !(a <= b) && !(b <= a)
    ensures forall q <- MoveTree(fs, a, b) :: !(a <= q)
  {
  }

  lemma RenameIsTree(fs: Fs, src: Path, dst: Path)
    requires IsTree(fs) && Rename(fs, src, dst).Ok?
    ensures IsTree(Rename(fs, src, dst).value)
  {
    if src != dst {
      RemoveTreeIsTree(fs, dst);
      PrefixParent(src, dst);
      PrefixParent(dst, dst);
      if dst <= src {
        PrefixIsDir(fs, dst, src);
      }
      MoveTreeIsTree(RemoveTree(fs, dst), src, dst);
    }
  }

  // ---------- counting and measuring ----------

  lemma {:induction false} RelocatedCount(s: set<Path>, src: Path, dst: Path)
    requires forall p <- s :: !(dst <= p)
    ensures |set p <- s :: Relocated(src, dst, p)| == |s|
  {
    var image := set p <- s :: Relocated(src, dst, p);
    if s == {} {
      assert image == {};
    } else {
      var x :| x in s;
      var rest := s - {x};
      var smaller := set p <- rest :: Relocated(src, dst, p);
      RelocatedCount(rest, src, dst);
      assert image == smaller + {Relocated(src, dst, x)};
      forall p <- rest ensures Relocated(src, dst, p) != Relocated(src, dst, x) {
        if src <= p { RelocatedBack(src, dst, p); }
        if src <= x { RelocatedBack(src, dst, x); }
      }
    }
  }

  /** Bytes stored in a set of nodes; `size` gives the length of one node on disk. */
  ghost function Total(fs: Fs, s: set<Path>, size: Node -> nat): nat
    requires s <= fs.Keys
  {
    if s == {} then 0
    else
      var p :| p in s;
      size(fs[p]) + Total(fs, s - {p}, size)
  }

  lemma {:induction false} TotalRemove(fs: Fs, s: set<Path>, size: Node -> nat, x: Path)
    requires s <= fs.Keys && x in s
    ensures Total(fs, s, size) == size(fs[x]) + Total(fs, s - {x}, size)
  {
    var p :| p in s && Total(fs, s, size) == size(fs[p]) + Total(fs, s - {p}, size);
    if p != x {
      TotalRemove(fs, s - {p}, size, x);
      TotalRemove(fs, s - {x}, size, p);
      assert s - {p} - {x} == s - {x} - {p};
    }
  }

  lemma {:induction false} TotalUnion(fs: Fs, s: set<Path>, t: set<Path>, size: Node -> nat)
    requires s <= fs.Keys && t <= fs.Keys && s !! t
    ensures Total(fs, s + t, size) == Total(fs, s, size) + Total(fs, t, size)
  {
    if s == {} {
      assert s + t == t;
    } else {
      var x :| x in s;
      TotalRemove(fs, s, size, x);
      TotalRemove(fs, s + t, size, x);
      TotalUnion(fs, s - {x}, t, size);
      assert s + t - {x} == (s - {x}) + t;
    }
  }

  /** The total depends only on the nodes it sums. */
  lemma {:induction false} TotalFrame(fs: Fs, g: Fs, s: set<Path>, size: Node -> nat)
    requires s <= fs.Keys && s <= g.Keys && forall p <- s :: fs[p] == g[p]
    ensures Total(fs, s, size) == Total(g, s, size)
  {
    if s != {} {
      var x :| x in s;
      TotalRemove(fs, s, size, x);
      TotalRemove(g, s, size, x);
      TotalFrame(fs, g, s - {x}, size);
    }
  }
}
