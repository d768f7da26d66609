/** recycle.list: every file of the bin below a dated device and space, newest first. */
module BinList {
  import opened Wrappers
  import opened Paths
  import opened FileSystem
  import opened Layout
  import opened Recycle
  import opened Listing

  /** What the list says of one recycled file. */
  datatype Item = Item(path: string, device: string, space: string, origin: string, size: nat, deletedAt: int)

  /** Midnight of a day in milliseconds, for what is a date, and the files' own times. */
  datatype Dates = Dates(dayMs: string -> Option<int>, mtime: Path -> int)

  function DeletedAt(dates: Dates, p: Path): int
    requires |p| >= 2
  {
    match dates.dayMs(p[1])
    case Some(ms) => ms
    case None => dates.mtime(p)
  }

  function ItemOf(reader: Reader, fs: Fs, dates: Dates, p: Path): Item
    requires |p| >= 5 && p in fs
  {
    Item(Join(p), p[2], p[3], Join(OriginParts(p)), |Content(reader, fs[p])|, DeletedAt(dates, p))
  }

  // ---------- the simple form ----------

  /** The files of the bin below a directory, depth first. Directories led by a dot are passed over, and
      what is not below a date, a device and a space is not shown. */
  function BinFiles(fs: Fs, readDir: ReadDir, dir: Path): (files: seq<Path>)
    ensures forall p <- files :: |p| >= 5 && p in fs
    decreases Under(fs, dir), 2, 0
  {
    if dir in fs && fs[dir] == Dir then BinFilesAll(fs, readDir, dir, readDir(dir)) else []
  }

  function BinFilesAll(fs: Fs, readDir: ReadDir, dir: Path, names: seq<string>): (files: seq<Path>)
    ensures forall p <- files :: |p| >= 5 && p in fs
    decreases Under(fs, dir), 1, |names|
  {
    if names == [] then []
    else BinFilesOne(fs, readDir, dir, names[0]) + BinFilesAll(fs, readDir, dir, names[1..])
  }

  function BinFilesOne(fs: Fs, readDir: ReadDir, dir: Path, name: string): (files: seq<Path>)
    ensures forall p <- files :: |p| >= 5 && p in fs
    decreases Under(fs, dir), 0, 0
  {
    var p := dir + [name];
    if p !in fs then []
    else if fs[p] == Dir then
      if DotLed(name) then []
      else
        UnderShrinks(fs, dir, name);
        BinFiles(fs, readDir, p)
    else if |p| < 5 then []
    else [p]
  }

  function ItemsOf(reader: Reader, fs: Fs, dates: Dates, files: seq<Path>): (items: seq<Item>)
    requires forall p <- files :: |p| >= 5 && p in fs
    ensures |items| == |files| && forall i :: 0 <= i < |files| ==> items[i] == ItemOf(reader, fs, dates, files[i])
  {
    seq(|files|, i requires 0 <= i < |files| => ItemOf(reader, fs, dates, files[i]))
  }

  lemma ItemsAppend(reader: Reader, fs: Fs, dates: Dates, a: seq<Path>, b: seq<Path>)
    requires forall p <- a + b :: |p| >= 5 && p in fs
    ensures (forall p <- a :: |p| >= 5 && p in fs) && (forall p <- b :: |p| >= 5 && p in fs)
    ensures ItemsOf(reader, fs, dates, a + b) == ItemsOf(reader, fs, dates, a) + ItemsOf(reader, fs, dates, b)
  {
    forall p <- a ensures p in a + b { }
    forall p <- b ensures p in a + b { }
    hide ItemOf;
  }

  // ---------- the walk ----------

  /** walk_recycle, adding to what has been found so far. */
  method WalkRecycle(reader: Reader, fs: Fs, readDir: ReadDir, dates: Dates, dir: Path, found: seq<Item>)
    returns (items: seq<Item>)
    ensures items == found + ItemsOf(reader, fs, dates, BinFiles(fs, readDir, dir))
    decreases Under(fs, dir), 1
  {
    hide ItemsOf, ItemOf, BinFilesOne, Under;
    items := found;
    if dir !in fs || fs[dir] != Dir {
      NoItems(reader, fs, dates, found);
      return;
    }
    var names := readDir(dir);
    var i := 0;
    assert names[0..] == names;
    while i < |names|
      invariant 0 <= i <= |names|
      invariant items + ItemsOf(reader, fs, dates, BinFilesAll(fs, readDir, dir, names[i..]))
                == found + ItemsOf(reader, fs, dates, BinFiles(fs, readDir, dir))
    {
      NextName(reader, fs, readDir, dates, dir, names, i, items);
      items := WalkOneItem(reader, fs, readDir, dates, dir, names[i], items);
      i := i + 1;
    }
    assert names[i..] == [];
    NoItems(reader, fs, dates, items);
  }

  lemma NoItems(reader: Reader, fs: Fs, dates: Dates, items: seq<Item>)
    ensures items + ItemsOf(reader, fs, dates, []) == items
  {
  }

  lemma NextName(reader: Reader, fs: Fs, readDir: ReadDir, dates: Dates, dir: Path, names: seq<string>, i: nat,
                 items: seq<Item>)
    requires i < |names|
    ensures items + ItemsOf(reader, fs, dates, BinFilesAll(fs, readDir, dir, names[i..]))
            == items + ItemsOf(reader, fs, dates, BinFilesOne(fs, readDir, dir, names[i]))
               + ItemsOf(reader, fs, dates, BinFilesAll(fs, readDir, dir, names[i + 1..]))
  {
    hide ItemsOf, BinFilesOne;
    assert names[i..][0] == names[i] && names[i..][1..] == names[i + 1..];
    var one, rest := BinFilesOne(fs, readDir, dir, names[i]), BinFilesAll(fs, readDir, dir, names[i + 1..]);
    assert BinFilesAll(fs, readDir, dir, names[i..]) == one + rest;
    ItemsAppend(reader, fs, dates, one, rest);
  }

  method WalkOneItem(reader: Reader, fs: Fs, readDir: ReadDir, dates: Dates, dir: Path, name: string,
                     found: seq<Item>)
    returns (items: seq<Item>)
    ensures items == found + ItemsOf(reader, fs, dates, BinFilesOne(fs, readDir, dir, name))
    decreases Under(fs, dir), 0
  {
    hide ItemOf, BinFiles;
    var p := dir + [name];
    items := found;
    if p in fs {
      if fs[p] == Dir {
        if !DotLed(name) {
          UnderShrinks(fs, dir, name);
          items := WalkRecycle(reader, fs, readDir, dates, p, items);
        }
      } else if |p| >= 5 {
        items := items + [ItemOf(reader, fs, dates, p)];
      }
    }
  }

  // ---------- what the walk finds ----------

  /** A file of the bin that the list is to show, below a directory of it. */
  ghost predicate Listable(fs: Fs, dir: Path, p: Path) {
    p in fs && dir < p && fs[p] != Dir && |p| >= 5 && forall i :: |dir| <= i < |p| - 1 ==> !DotLed(p[i])
  }

  lemma ListableStep(fs: Fs, dir: Path, name: string, p: Path)
    ensures var q := dir + [name];
            Listable(fs, dir, p) && p[|dir|] == name
            <==> (p == q && q in fs && fs[q] != Dir && |q| >= 5) || (!DotLed(name) && Listable(fs, q, p))
  {
    var q := dir + [name];
    assert q[|dir|] == name && dir < q;
    if Listable(fs, dir, p) && p[|dir|] == name {
      PrefixAt(dir, p);
      if p != q { assert |q| < |p|; }
    } else if Listable(fs, q, p) && !DotLed(name) {
      assert p[..|dir|] == q[..|dir|] == dir && p[|dir|] == q[|dir|];
      forall i | |dir| <= i < |p| - 1 ensures !DotLed(p[i]) { assert i == |dir| || |q| <= i; }
    }
  }

  lemma {:induction false} OneHolds(fs: Fs, readDir: ReadDir, dir: Path, name: string, p: Path)
    requires IsTree(fs) && Enumerates(fs, readDir)
    ensures p in BinFilesOne(fs, readDir, dir, name) <==> Listable(fs, dir, p) && p[|dir|] == name
    decreases Under(fs, dir), 0, 0
  {
    hide Listable, IsTree, Enumerates, BinFiles, Under, DotLed;
    var q := dir + [name];
    ListableStep(fs, dir, name, p);
    NotBelowFile(fs, q, p);
    if q in fs && fs[q] == Dir && !DotLed(name) {
      UnderShrinks(fs, dir, name);
      BinFilesHold(fs, readDir, q, p);
    }
  }

  lemma NotBelowFile(fs: Fs, dir: Path, p: Path)
    requires IsTree(fs)
    ensures Listable(fs, dir, p) ==> dir in fs && fs[dir] == Dir
  {
    if Listable(fs, dir, p) { PrefixIsDir(fs, dir, p); }
  }

  lemma {:induction false} AllHold(fs: Fs, readDir: ReadDir, dir: Path, names: seq<string>, p: Path)
    requires IsTree(fs) && Enumerates(fs, readDir)
    ensures p in BinFilesAll(fs, readDir, dir, names) <==> Listable(fs, dir, p) && p[|dir|] in names
    decreases Under(fs, dir), 1, |names|
  {
    hide Listable, BinFilesOne, IsTree, Enumerates;
    if names != [] {
      OneHolds(fs, readDir, dir, names[0], p);
      AllHold(fs, readDir, dir, names[1..], p);
    }
  }

  /** The walk finds the files the list is to show, no more and no fewer. */
  lemma {:induction false} BinFilesHold(fs: Fs, readDir: ReadDir, dir: Path, p: Path)
    requires IsTree(fs) && Enumerates(fs, readDir)
    ensures p in BinFiles(fs, readDir, dir) <==> Listable(fs, dir, p)
    decreases Under(fs, dir), 2, 0
  {
    hide BinFilesAll, Listable, IsTree, Enumerates, Under;
    NotBelowFile(fs, dir, p);
    if dir in fs && fs[dir] == Dir {
      AllHold(fs, readDir, dir, readDir(dir), p);
      ListableNamed(fs, readDir, dir, p);
    }
  }

  lemma ListableNamed(fs: Fs, readDir: ReadDir, dir: Path, p: Path)
    requires IsTree(fs) && Enumerates(fs, readDir)
    ensures Listable(fs, dir, p) ==> dir < p && p[|dir|] in readDir(dir)
  {
    if Listable(fs, dir, p) {
      PrefixAt(dir, p);
      var name := p[|dir|];
      if dir + [name] != p { PrefixIsDir(fs, dir + [name], p); }
      assert name in readDir(dir) <==> dir + [name] in fs;
    }
  }

  lemma {:induction false} AllDistinct(fs: Fs, readDir: ReadDir, dir: Path, names: seq<string>)
    requires IsTree(fs) && Enumerates(fs, readDir)
    requires forall i, j :: 0 <= i < j < |names| ==> names[i] != names[j]
    ensures Distinct(BinFilesAll(fs, readDir, dir, names))
    decreases Under(fs, dir), 1, |names|
  {
    hide IsTree, Enumerates, Under, BinFilesOne, Listable, Distinct;
    if names == [] {
      DistinctAppend([], []);
    } else {
      OneDistinct(fs, readDir, dir, names[0]);
      AllDistinct(fs, readDir, dir, names[1..]);
      var head, tail := BinFilesOne(fs, readDir, dir, names[0]), BinFilesAll(fs, readDir, dir, names[1..]);
      forall p | p in head ensures p !in tail {
        OneHolds(fs, readDir, dir, names[0], p);
        AllHold(fs, readDir, dir, names[1..], p);
      }
      DistinctAppend(head, tail);
    }
  }

  lemma {:induction false} OneDistinct(fs: Fs, readDir: ReadDir, dir: Path, name: string)
    requires IsTree(fs) && Enumerates(fs, readDir)
    ensures Distinct(BinFilesOne(fs, readDir, dir, name))
    decreases Under(fs, dir), 0, 0
  {
    if dir + [name] in fs && fs[dir + [name]] == Dir && !DotLed(name) {
      UnderShrinks(fs, dir, name);
      BinFilesDistinct(fs, readDir, dir + [name]);
    }
  }

  lemma {:induction false} BinFilesDistinct(fs: Fs, readDir: ReadDir, dir: Path)
    requires IsTree(fs) && Enumerates(fs, readDir)
    ensures Distinct(BinFiles(fs, readDir, dir))
    decreases Under(fs, dir), 2, 0
  {
    if dir in fs && fs[dir] == Dir {
      AllDistinct(fs, readDir, dir, readDir(dir));
    }
  }

  // ---------- newest first ----------

  /** A new item goes behind all that are not older. */
  function Insert(item: Item, items: seq<Item>): seq<Item> {
    if items == [] || items[0].deletedAt < item.deletedAt then [item] + items
    else [items[0]] + Insert(item, items[1..])
  }

  /** The stable sort by descending time. */
  function NewestFirst(items: seq<Item>): seq<Item> {
    if items == [] then [] else Insert(items[|items| - 1], NewestFirst(items[..|items| - 1]))
  }

  ghost predicate Descending(items: seq<Item>) {
    forall i, j :: 0 <= i < j < |items| ==> items[i].deletedAt >= items[j].deletedAt
  }

  /** The items of one time, in their order. */
  ghost function At(items: seq<Item>, time: int): seq<Item> {
    if items == [] then [] else (if items[0].deletedAt == time then [items[0]] else []) + At(items[1..], time)
  }

  lemma {:induction false} InsertBag(item: Item, items: seq<Item>)
    ensures multiset(Insert(item, items)) == multiset(items) + multiset{item}
  {
    if items != [] && items[0].deletedAt >= item.deletedAt {
      InsertBag(item, items[1..]);
      assert items == [items[0]] + items[1..];
    }
  }

  lemma {:induction false} InsertDescends(item: Item, items: seq<Item>)
    requires Descending(items)
    ensures Descending(Insert(item, items))
  {
    if items != [] && items[0].deletedAt >= item.deletedAt {
      var rest := items[1..];
      InsertDescends(item, rest);
      InsertBag(item, rest);
      forall x | x in Insert(item, rest) ensures x.deletedAt <= items[0].deletedAt {
        assert x in multiset(Insert(item, rest));
        assert x in rest || x == item;
      }
    }
  }

  lemma {:induction false} InsertAt(item: Item, items: seq<Item>, time: int)
    requires Descending(items)
    ensures At(Insert(item, items), time) == At(items, time) + (if item.deletedAt == time then [item] else [])
  {
    if items == [] || items[0].deletedAt < item.deletedAt {
      assert ([item] + items)[1..] == items;
      OlderOnly(items, item.deletedAt);
    } else {
      InsertAt(item, items[1..], time);
      assert ([items[0]] + Insert(item, items[1..]))[1..] == Insert(item, items[1..]);
    }
  }

  lemma {:induction false} OlderOnly(items: seq<Item>, time: int)
    requires Descending(items) && (items != [] ==> items[0].deletedAt < time)
    ensures At(items, time) == []
  {
    if items != [] {
      OlderOnly(items[1..], time);
    }
  }

  lemma {:induction false} AtAppend(a: seq<Item>, item: Item, time: int)
    ensures At(a + [item], time) == At(a, time) + (if item.deletedAt == time then [item] else [])
  {
    if a == [] {
      assert [] + [item] == [item] && [item][1..] == [];
    } else {
      AtAppend(a[1..], item, time);
      assert (a + [item])[1..] == a[1..] + [item];
    }
  }

  /** It is the items again, descending in time, those of one time in the order they came in. */
  lemma {:induction false} NewestFirstLaw(items: seq<Item>)
    ensures Descending(NewestFirst(items)) && multiset(NewestFirst(items)) == multiset(items)
    ensures forall t :: At(NewestFirst(items), t) == At(items, t)
  {
    if items != [] {
      var front, last := items[..|items| - 1], items[|items| - 1];
      assert items == front + [last];
      NewestFirstLaw(front);
      InsertBag(last, NewestFirst(front));
      InsertDescends(last, NewestFirst(front));
      forall t ensures At(NewestFirst(items), t) == At(items, t) {
        InsertAt(last, NewestFirst(front), t);
        AtAppend(front, last, t);
      }
    }
  }

  // ---------- the reply ----------

  function BinListed(reader: Reader, fs: Fs, readDir: ReadDir, dates: Dates): seq<Item> {
    NewestFirst(ItemsOf(reader, fs, dates, BinFiles(fs, readDir, [RECYCLE])))
  }

  method RecycleList(reader: Reader, fs: Fs, readDir: ReadDir, dates: Dates) returns (items: seq<Item>)
    ensures items == BinListed(reader, fs, readDir, dates)
  {
    var found := WalkRecycle(reader, fs, readDir, dates, [RECYCLE], []);
    assert [] + ItemsOf(reader, fs, dates, BinFiles(fs, readDir, [RECYCLE]))
        == ItemsOf(reader, fs, dates, BinFiles(fs, readDir, [RECYCLE]));
    items := NewestFirst(found);
  }

  /** The list shows every file of the bin below a dated device and space, once, and nothing else; the
      newest come first. */
  lemma BinListComplete(reader: Reader, fs: Fs, readDir: ReadDir, dates: Dates)
    requires IsTree(fs) && Enumerates(fs, readDir)
    ensures var files := BinFiles(fs, readDir, [RECYCLE]);
            && Distinct(files) && (forall p :: p in files <==> Listable(fs, [RECYCLE], p))
            && multiset(BinListed(reader, fs, readDir, dates)) == multiset(ItemsOf(reader, fs, dates, files))
            && Descending(BinListed(reader, fs, readDir, dates))
  {
    hide BinFiles, ItemsOf, Listable, IsTree, Enumerates, Distinct, NewestFirst, Descending;
    BinFilesDistinct(fs, readDir, [RECYCLE]);
    forall p ensures p in BinFiles(fs, readDir, [RECYCLE]) <==> Listable(fs, [RECYCLE], p) {
      BinFilesHold(fs, readDir, [RECYCLE], p);
    }
    NewestFirstLaw(ItemsOf(reader, fs, dates, BinFiles(fs, readDir, [RECYCLE])));
  }
}
