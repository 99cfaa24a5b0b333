/**
 Reading down a tree of directories: `resolve` and `read_file` of kernel/src/drivers/fat32.rs on
 directories laid out entry by entry, with short and long names at every level.
 */
module FatTree {
  import opened Options
  import opened FatNames
  import opened FatDirectory
  import opened FatVolume
  import opened FatFiles
  import opened FatListing
  import opened FatReader

  /** A directory on the volume: its chain, and its slots as items and what follows them. */
  datatype Folder = Folder(chain: seq<nat>, items: seq<Item>, rest: seq<Slot>)

  ghost predicate IsFolder(v: Vol, cluster: nat, d: Folder) {
    && cluster >= 2 && Readable(v, cluster, d.chain)
    && AllItems(d.items) && AllSlots(d.rest) && (d.rest != [] ==> AtEnd(d.rest[0]))
    && Slots(Flat(v.data, d.chain)) == Layout(d.items) + d.rest
  }

  /** The item shows an entry with this name, in any case of its letters. */
  ghost predicate OwnNamed(it: Item, q: seq<Byte>)
    requires IsItem(it)
  {
    it.Named? && SameName(OwnName(it.units, it.short), q)
  }

  /** Item `k` is the first entry of the directory with this name. */
  ghost predicate Picks(items: seq<Item>, q: seq<Byte>, k: nat)
    requires AllItems(items)
  {
    k < |items| && OwnNamed(items[k], q) && NoneNamed(items[..k], q)
  }

  ghost predicate NoneNamed(items: seq<Item>, q: seq<Byte>)
    requires AllItems(items)
  {
    forall j :: 0 <= j < |items| ==> !OwnNamed(items[j], q)
  }

  /** One level of a path: the directory, and the item that the component picks. */
  datatype Level = Level(folder: Folder, pick: nat)

  /** The entry that a level leads to. */
  ghost function Chosen(l: Level): DirEntry
    requires AllItems(l.folder.items) && l.pick < |l.folder.items| && l.folder.items[l.pick].Named?
  {
    ItemParts(l.folder.items[l.pick]);
    OwnEntry(l.folder.items[l.pick])[0]
  }

  // ---------------------------------------------------------------------------
  // One directory
  // ---------------------------------------------------------------------------

  /** The search looks at the first item, then at the others. */
  lemma FirstItem(items: seq<Item>, q: seq<Byte>)
    requires AllItems(items) && items != []
    ensures AllItems(items[1..]) && (OwnNamed(items[0], q) ==> |OwnEntry(items[0])| == 1)
    ensures FirstNamed(OwnEntries(items), q) ==
            if OwnNamed(items[0], q) then Some(OwnEntry(items[0])[0]) else FirstNamed(OwnEntries(items[1..]), q)
  {
    hide SameName, OwnName;
    ItemParts(items[0]);
    var rest := OwnEntries(items[1..]);
    if items[0].Named? {
      assert OwnEntries(items) == OwnEntry(items[0]) + rest;
      assert OwnEntries(items)[1..] == rest;
    } else {
      assert OwnEntries(items) == rest;
    }
  }

  lemma {:induction false} NoneFound(items: seq<Item>, q: seq<Byte>)
    requires AllItems(items) && NoneNamed(items, q)
    ensures FirstNamed(OwnEntries(items), q) == None
  {
    hide OwnNamed, OwnEntry, IsItem, FirstNamed, OwnEntries;
    if items == [] {
      NoEntries(q);
    } else {
      FirstItem(items, q);
      NoneFound(items[1..], q);
    }
  }

  lemma NoEntries(q: seq<Byte>)
    ensures OwnEntries([]) == [] && FirstNamed([], q) == None
  {
  }

  lemma {:induction false} PickFound(items: seq<Item>, q: seq<Byte>, k: nat)
    requires AllItems(items) && Picks(items, q, k)
    ensures |OwnEntry(items[k])| == 1 && FirstNamed(OwnEntries(items), q) == Some(OwnEntry(items[k])[0])
    decreases k
  {
    hide OwnNamed, OwnEntry, IsItem, FirstNamed, OwnEntries;
    FirstItem(items, q);
    if k > 0 {
      assert items[..k][0] == items[0] && items[1..][k - 1] == items[k];
      NoneBehind(items, q, k);
      PickFound(items[1..], q, k - 1);
    }
  }

  lemma NoneBehind(items: seq<Item>, q: seq<Byte>, k: nat)
    requires AllItems(items) && 0 < k <= |items| && NoneNamed(items[..k], q)
    ensures NoneNamed(items[1..][..k - 1], q)
  {
    hide OwnNamed, IsItem;
    var all, rest := items[..k], items[1..][..k - 1];
    assert forall j :: 0 <= j < |rest| ==> rest[j] == all[j + 1];
  }

  lemma FolderListed(v: Vol, cluster: nat, d: Folder)
    requires IsFolder(v, cluster, d)
    ensures DirAt(v, cluster) == Some(OwnEntries(d.items))
  {
    hide Listing, Layout, OwnEntries, Fetched, Flat, Slots, AllItems;
    ReadableIs(v, cluster, d.chain);
    DirectoryListed(d.items, d.rest);
    NothingAfter(d.rest);
    assert OwnEntries(d.items) + [] == OwnEntries(d.items);
  }

  lemma NothingAfter(rest: seq<Slot>)
    requires AllSlots(rest) && (rest != [] ==> AtEnd(rest[0]))
    ensures Listing(rest, 0, []) == []
  {
  }

  lemma FolderMisses(v: Vol, cluster: nat, d: Folder, q: seq<Byte>)
    requires IsFolder(v, cluster, d) && NoneNamed(d.items, q)
    ensures cluster >= 2 && DirAt(v, cluster) != None && Found(v, cluster, q) == None
  {
    hide IsFolder, DirAt, NoneNamed, OwnEntries, FirstNamed;
    FolderItems(v, cluster, d);
    FolderListed(v, cluster, d);
    NoneFound(d.items, q);
  }

  lemma FolderFinds(v: Vol, cluster: nat, l: Level, q: seq<Byte>)
    requires IsFolder(v, cluster, l.folder) && Picks(l.folder.items, q, l.pick)
    ensures cluster >= 2 && DirAt(v, cluster) != None
    ensures AllItems(l.folder.items) && l.pick < |l.folder.items| && l.folder.items[l.pick].Named?
    ensures Found(v, cluster, q) == Some(Chosen(l))
  {
    hide IsFolder, DirAt, NoneNamed, OwnEntries, FirstNamed;
    FolderItems(v, cluster, l.folder);
    FolderListed(v, cluster, l.folder);
    PickFound(l.folder.items, q, l.pick);
  }

  lemma FolderItems(v: Vol, cluster: nat, d: Folder)
    requires IsFolder(v, cluster, d)
    ensures cluster >= 2 && AllItems(d.items)
  {
  }

  // ---------------------------------------------------------------------------
  // Any depth
  // ---------------------------------------------------------------------------

  /** From a cluster the components lead down these directories, each picked entry but the last one being the next. */
  ghost predicate LeadsDown(v: Vol, cluster: nat, levels: seq<Level>, parts: seq<seq<Byte>>)
    decreases |levels|
  {
    && |levels| == |parts| > 0
    && IsFolder(v, cluster, levels[0].folder) && Picks(levels[0].folder.items, parts[0], levels[0].pick)
    && (|levels| > 1 ==> Chosen(levels[0]).isDir && LeadsDown(v, Chosen(levels[0]).cluster, levels[1..], parts[1..]))
  }

  /** The entry at the end. */
  ghost function Leaf(v: Vol, cluster: nat, levels: seq<Level>, parts: seq<seq<Byte>>): DirEntry
    requires LeadsDown(v, cluster, levels, parts)
    decreases |levels|
  {
    if |levels| == 1 then Chosen(levels[0]) else Leaf(v, Chosen(levels[0]).cluster, levels[1..], parts[1..])
  }

  lemma {:induction false} ReadsLeaf(v: Vol, cluster: nat, levels: seq<Level>, parts: seq<seq<Byte>>)
    requires LeadsDown(v, cluster, levels, parts)
    ensures ReadFrom(v, cluster, parts) == ReadEntry(v, Leaf(v, cluster, levels, parts))
    decreases |levels|
  {
    hide IsFolder, Picks, Found, DirAt, ReadEntry, Chosen, AllItems;
    FolderFinds(v, cluster, levels[0], parts[0]);
    if |levels| > 1 {
      ReadsLeaf(v, Chosen(levels[0]).cluster, levels[1..], parts[1..]);
    }
  }

  /**
   A file at any depth: the path of its components reads as the bytes of its chain up to its size,
   whatever the names on the way look like in upper and lower case.
   */
  lemma PathReadsFile(v: Vol, levels: seq<Level>, parts: seq<seq<Byte>>, w: seq<nat>)
    requires (forall i :: 0 <= i < |parts| ==> IsComponent(parts[i])) && LeadsDown(v, v.root, levels, parts)
    requires var e := Leaf(v, v.root, levels, parts); !e.isDir && e.cluster >= 2 && Readable(v, e.cluster, w)
    ensures var b, size := Flat(v.data, w), Leaf(v, v.root, levels, parts).size;
            ReadPath(v, PathOf(parts)) == Ok(if size < |b| then b[..size] else b)
  {
    hide LeadsDown, Leaf, ReadFrom, Flat, Components, PathOf, Fetched;
    DownNonempty(v, v.root, levels, parts);
    PathSplits(parts);
    ReadsLeaf(v, v.root, levels, parts);
    ReadableIs(v, Leaf(v, v.root, levels, parts).cluster, w);
  }

  lemma DownNonempty(v: Vol, cluster: nat, levels: seq<Level>, parts: seq<seq<Byte>>)
    requires LeadsDown(v, cluster, levels, parts)
    ensures parts != []
  {
  }

  /** The errors: a directory at the end, a name that is in no entry, and a file on the way. */
  lemma {:induction false} WrongTurn(v: Vol, cluster: nat, levels: seq<Level>, parts: seq<seq<Byte>>, d: Folder, more: seq<seq<Byte>>)
    requires LeadsDown(v, cluster, levels, parts) && more != []
    requires var e := Leaf(v, cluster, levels, parts);
             e.isDir ==> IsFolder(v, e.cluster, d) && NoneNamed(d.items, more[0])
    ensures ReadFrom(v, cluster, parts + more) == if Leaf(v, cluster, levels, parts).isDir then NotFound else NotADirectory
    decreases |levels|
  {
    hide IsFolder, Picks, Found, DirAt, ReadEntry, Chosen, AllItems, NoneNamed;
    FolderFinds(v, cluster, levels[0], parts[0]);
    var all := parts + more;
    assert all[0] == parts[0] && all[1..] == parts[1..] + more;
    if |levels| > 1 {
      WrongTurn(v, Chosen(levels[0]).cluster, levels[1..], parts[1..], d, more);
    } else if Chosen(levels[0]).isDir {
      assert all[1..] == more;
      FolderMisses(v, Chosen(levels[0]).cluster, d, more[0]);
    }
  }
}
