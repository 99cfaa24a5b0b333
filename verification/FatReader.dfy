/**
 The read path of kernel/src/drivers/fat32.rs: `resolve` and `read_file` for any path, through
 directories of any kind, and what they come to for a name in the root of a well-formed volume.
 */
module FatReader {
  import opened Options
  import opened FatChains
  import opened FatNames
  import opened FatDirectory
  import opened FatLayout
  import opened FatVolume
  import opened FatFiles
  import opened FatListing
  import opened FatDisk
  import opened FatDriver

  // ---------------------------------------------------------------------------
  // Paths
  // ---------------------------------------------------------------------------

  const SLASH: Byte := 0x2F

  /** The position of the first slash, or the length. */
  function SlashAt(path: seq<Byte>): (k: nat)
    ensures k <= |path| && (k < |path| ==> path[k] == SLASH) && forall i :: 0 <= i < k ==> path[i] != SLASH
  {
    if path == [] || path[0] == SLASH then 0 else 1 + SlashAt(path[1..])
  }

  /** The parts of a path between its slashes that are not empty. */
  function Components(path: seq<Byte>): (parts: seq<seq<Byte>>)
    decreases |path|
  {
    var k := SlashAt(path);
    var rest := if k < |path| then Components(path[k + 1..]) else [];
    if k == 0 then rest else [path[..k]] + rest
  }

  /** A name that can stand between slashes. */
  ghost predicate IsComponent(q: seq<Byte>) {
    q != [] && SLASH !in q
  }

  function PathOf(parts: seq<seq<Byte>>): seq<Byte> {
    if parts == [] then [] else [SLASH] + parts[0] + PathOf(parts[1..])
  }

  lemma FirstComponent(q: seq<Byte>, rest: seq<Byte>)
    requires IsComponent(q) && (rest == [] || rest[0] == SLASH)
    ensures Components(q + rest) == [q] + Components(rest)
  {
    var path := q + rest;
    var k := SlashAt(path);
    assert path[0] == q[0];
    assert forall i :: 0 <= i < |q| ==> path[i] == q[i] && q[i] in q;
    assert rest != [] ==> path[|q|] == SLASH;
    assert k == |q| && path[..k] == q;
    if rest != [] {
      assert path[k + 1..] == rest[1..];
    }
  }

  lemma SlashFirst(path: seq<Byte>)
    ensures Components([SLASH] + path) == Components(path)
  {
    assert SlashAt([SLASH] + path) == 0 && ([SLASH] + path)[1..] == path;
  }

  lemma NoComponents()
    ensures Components([]) == []
  {
  }

  /** Splitting a path gives back the components it was put together from. */
  lemma {:induction false} PathSplits(parts: seq<seq<Byte>>)
    requires forall i :: 0 <= i < |parts| ==> IsComponent(parts[i])
    ensures Components(PathOf(parts)) == parts
  {
    hide Components;
    if parts == [] {
      NoComponents();
    } else {
      var rest := PathOf(parts[1..]);
      PathSplits(parts[1..]);
      FirstComponent(parts[0], rest);
      SlashFirst(parts[0] + rest);
      assert [SLASH] + parts[0] + rest == [SLASH] + (parts[0] + rest);
      assert parts == [parts[0]] + parts[1..];
    }
  }

  lemma NoSlash(name: seq<Byte>)
    requires Pack(name).Some?
    ensures IsComponent(name)
  {
    hide Padded;
    var upper := UpperAll(name);
    var k := DotAt(upper);
    forall i | 0 <= i < |name| ensures name[i] != SLASH {
      if i < k {
        assert ValidByte(BaseOf(upper)[i]);
      } else if i > k {
        assert ValidByte(ExtOf(upper)[i - k - 1]);
      }
      assert upper[i] == Upper(name[i]);
    }
  }

  /** A name that can be created is a path with one component, with or without a slash in front. */
  lemma NameIsPath(name: seq<Byte>)
    requires Pack(name).Some?
    ensures Components(name) == [name] && Components([SLASH] + name) == [name]
  {
    hide Components, Pack;
    NoSlash(name);
    assert name + [] == name;
    FirstComponent(name, []);
    SlashFirst(name);
    NoComponents();
  }

  // ---------------------------------------------------------------------------
  // Reading along a path
  // ---------------------------------------------------------------------------

  ghost predicate Readable(v: Vol, start: nat, w: seq<nat>) {
    Ends(v.fat, w) && w[0] == start && |w| <= MAX_CLUSTERS && Within(v.data, w)
  }

  ghost function ReadableChain(v: Vol, start: nat): (w: seq<nat>)
    requires exists w :: Readable(v, start, w)
    ensures Readable(v, start, w)
  {
    var w :| Readable(v, start, w);
    w
  }

  /** The bytes of the chain at a cluster, unless it is too long. */
  ghost function Fetched(v: Vol, start: nat): Option<seq<Byte>> {
    if exists w :: Readable(v, start, w) then Some(Flat(v.data, ReadableChain(v, start))) else None
  }

  lemma FetchedIs(v: Vol, start: nat, r: Option<seq<Byte>>)
    requires ReadsAs(v, start, r)
    ensures r == Fetched(v, start)
  {
    hide Flat;
    match r {
      case Some(b) =>
        var w :| Ends(v.fat, w) && w[0] == start && |w| <= MAX_CLUSTERS && Within(v.data, w) && b == Flat(v.data, w);
        ReadableIs(v, start, w);
      case None =>
    }
  }

  lemma ReadableIs(v: Vol, start: nat, w: seq<nat>)
    requires Ends(v.fat, w) && w[0] == start && |w| <= MAX_CLUSTERS && Within(v.data, w)
    ensures Fetched(v, start) == Some(Flat(v.data, w))
  {
    hide Flat;
    assert Readable(v, start, w);
    ChainUnique(v.fat, w, ReadableChain(v, start));
  }

  /** The entries of the directory at a cluster. */
  ghost function DirAt(v: Vol, cluster: nat): Option<seq<DirEntry>> {
    match Fetched(v, cluster)
    case None => None
    case Some(raw) => Some(Listing(Slots(raw), 0, []))
  }

  ghost function Found(v: Vol, cluster: nat, q: seq<Byte>): Option<DirEntry> {
    match DirAt(v, cluster)
    case None => None
    case Some(entries) => FirstNamed(entries, q)
  }

  ghost function ReadEntry(v: Vol, e: DirEntry): ReadResult {
    if e.isDir then NotAFile
    else if e.cluster < 2 then Fault
    else match Fetched(v, e.cluster) case None => TooLong case Some(b) => Ok(Truncate(b, e.size))
  }

  /** The file at the end of a path, from the directory at a cluster. */
  ghost function ReadFrom(v: Vol, cluster: nat, parts: seq<seq<Byte>>): ReadResult
    requires parts != []
    decreases |parts|
  {
    if cluster < 2 then Fault
    else if DirAt(v, cluster) == None then TooLong
    else
      match Found(v, cluster, parts[0])
      case None => NotFound
      case Some(e) =>
        if |parts| == 1 then ReadEntry(v, e)
        else if !e.isDir then NotADirectory
        else ReadFrom(v, e.cluster, parts[1..])
  }

  ghost function ReadPath(v: Vol, path: seq<Byte>): ReadResult {
    if Components(path) == [] then NotAFile else ReadFrom(v, v.root, Components(path))
  }

  /** No chain on the way leads outside the table. */
  ghost predicate Inside(v: Vol, cluster: nat, parts: seq<seq<Byte>>)
    requires parts != []
    decreases |parts|
  {
    || cluster < 2
    || (Contained(v.fat, cluster)
        && match Found(v, cluster, parts[0])
           case None => true
           case Some(e) =>
             if |parts| == 1 then e.isDir || e.cluster < 2 || Contained(v.fat, e.cluster)
             else !e.isDir || Inside(v, e.cluster, parts[1..]))
  }

  ghost predicate PathInside(v: Vol, path: seq<Byte>) {
    Components(path) == [] || Inside(v, v.root, Components(path))
  }

  /** `ls_cluster` */
  method LsCluster(fs: Fat32, cluster: nat) returns (r: Option<seq<DirEntry>>)
    requires fs.Valid() && Contained(fs.Abs().fat, cluster)
    ensures r == DirAt(fs.Abs(), cluster)
  {
    hide Sectors, Mirrored, FatOf, DataOf, Contained, ReadsAs, Listing, Fetched, Slots;
    var raw := ReadChain(fs, cluster);
    FetchedIs(fs.Abs(), cluster, raw);
    match raw {
      case None => return None;
      case Some(b) =>
        var entries := ParseDirEntries(b);
        return Some(entries);
    }
  }

  /** `read_file` with the loop of `resolve` */
  method ReadFile(fs: Fat32, path: seq<Byte>) returns (r: ReadResult)
    requires fs.Valid() && PathInside(fs.Abs(), path)
    ensures r == ReadPath(fs.Abs(), path)
  {
    hide Sectors, Mirrored, FatOf, DataOf, Contained, DirAt, Fetched, Components;
    ghost var v := fs.Abs();
    var parts := Components(path);
    if parts == [] {
      return NotAFile;
    }
    var current, idx := fs.g.root, 0;
    assert parts[0..] == parts;
    while true
      invariant idx < |parts|
      invariant Inside(v, current, parts[idx..]) && ReadPath(v, path) == ReadFrom(v, current, parts[idx..])
      decreases |parts| - idx
    {
      assert parts[idx..][0] == parts[idx];
      if current < 2 {
        return Fault;
      }
      var entries := LsCluster(fs, current);
      if entries == None {
        return TooLong;
      }
      var found := FindEntry(entries.value, parts[idx]);
      if found == None {
        return NotFound;
      }
      if idx == |parts| - 1 {
        r := ReadFound(fs, found.value);
        return;
      }
      if !found.value.isDir {
        return NotADirectory;
      }
      assert parts[idx..][1..] == parts[idx + 1..];
      current, idx := found.value.cluster, idx + 1;
    }
  }

  /** The end of `read_file`, once the path is resolved. */
  method ReadFound(fs: Fat32, e: DirEntry) returns (r: ReadResult)
    requires fs.Valid() && (e.isDir || e.cluster < 2 || Contained(fs.Abs().fat, e.cluster))
    ensures r == ReadEntry(fs.Abs(), e)
  {
    hide Sectors, Mirrored, FatOf, DataOf, Contained, Fetched, ReadsAs;
    if e.isDir {
      return NotAFile;
    }
    if e.cluster < 2 {
      return Fault;
    }
    var data := ReadChain(fs, e.cluster);
    FetchedIs(fs.Abs(), e.cluster, data);
    if data == None {
      return TooLong;
    }
    return Ok(Truncate(data.value, e.size));
  }

  // ---------------------------------------------------------------------------
  // A name in the root of a well-formed volume
  // ---------------------------------------------------------------------------

  function EntryFor(s: Slot): DirEntry
    requires |s| == SLOT
  {
    DirEntry(Display(NameOf(s)), IsDir(s), SizeOf(s), ClusterOf(s))
  }

  /** Slots of a directory without long names, with short names as the driver writes them. */
  ghost predicate Plain(slots: seq<Slot>)
    requires AllSlots(slots)
  {
    forall t :: 0 <= t < |slots| && Live(slots[t]) ==>
      !IsLongName(slots[t]) && (IsLabel(slots[t]) || Canonical(NameOf(slots[t])))
  }

  lemma PlainSlot(s: Slot, q: seq<Byte>)
    requires |s| == SLOT && !AtEnd(s)
    requires Live(s) ==> !IsLongName(s) && (IsLabel(s) || Canonical(NameOf(s)))
    ensures Waiting(s, []) == []
    ensures SlotEntry(s, []) == [] ==> !Shows(s, q)
    ensures SlotEntry(s, []) != [] ==> SlotEntry(s, []) == [EntryFor(s)] && (Shows(s, q) <==> SameName(EntryFor(s).name, q))
  {
    hide Display, ShortName, SameName, Canonical;
    if Live(s) && !IsLabel(s) {
      CanonicalShown(NameOf(s));
    }
  }

  /** Searching the listing of a plain directory finds the slot that the lookup finds. */
  lemma {:induction false} ListingFinds(slots: seq<Slot>, q: seq<Byte>, from: nat)
    requires AllSlots(slots) && Plain(slots) && from <= |slots|
    ensures FirstNamed(Listing(slots, from, []), q) ==
            match Lookup(slots, q, from)
            case None => None
            case Some(t) => Some(EntryFor(slots[t]))
    decreases |slots| - from
  {
    hide SlotEntry, Waiting, Shows, EntryFor, SameName, Canonical, Live;
    if from < |slots| && !AtEnd(slots[from]) {
      var s := slots[from];
      ListingFinds(slots, q, from + 1);
      PlainSlot(s, q);
      var rest := Listing(slots, from + 1, []);
      if SlotEntry(s, []) == [] {
        assert Listing(slots, from, []) == rest;
      } else {
        assert Listing(slots, from, []) == [EntryFor(s)] + rest;
        assert ([EntryFor(s)] + rest)[1..] == rest;
      }
    }
  }

  lemma RootPlain(v: Vol)
    requires WF(v)
    ensures Plain(RootSlots(v))
  {
    hide RootSlots, RootChain, Separate, Canonical;
    forall t | 0 <= t < |RootSlots(v)| && Live(RootSlots(v)[t])
      ensures !IsLongName(RootSlots(v)[t]) && (IsLabel(RootSlots(v)[t]) || Canonical(NameOf(RootSlots(v)[t])))
    {
      assert SlotOk(v.fat, LayoutOf(v).slots[t]);
    }
  }

  /** A live slot with a cluster owns a chain that starts there. */
  lemma SlotStarts(v: Vol, t: nat)
    requires WF(v) && t < |RootSlots(v)| && Live(RootSlots(v)[t]) && ClusterOf(RootSlots(v)[t]) >= 2
    ensures var w := SlotChain(v.fat, RootSlots(v)[t]);
            w != [] && IsChain(v.fat, w) && w[0] == ClusterOf(RootSlots(v)[t])
  {
    hide RootSlots, RootChain, Separate, Canonical;
    assert SlotOk(v.fat, LayoutOf(v).slots[t]);
  }

  lemma FetchedChain(v: Vol, ch: seq<nat>)
    requires Shape(v) && IsChain(v.fat, ch)
    ensures Within(v.data, ch)
    ensures Fetched(v, ch[0]) == if |ch| <= MAX_CLUSTERS then Some(Flat(v.data, ch)) else None
    ensures Contained(v.fat, ch[0])
  {
    hide Flat, Shape, Contained;
    PathWithin(v, ch);
    ChainContained(v.fat, ch);
    if |ch| <= MAX_CLUSTERS {
      ReadableIs(v, ch[0], ch);
    } else if w :| Readable(v, ch[0], w) {
      ChainUnique(v.fat, w, ch);
    }
  }

  /** What the root of a well-formed volume shows under a name. */
  lemma RootFound(v: Vol, q: seq<Byte>)
    requires WF(v)
    ensures Contained(v.fat, v.root) && v.root >= 2
    ensures DirAt(v, v.root) == None <==> |RootChain(v)| > MAX_CLUSTERS
    ensures |RootChain(v)| <= MAX_CLUSTERS ==>
              Found(v, v.root, q) == match Lookup(RootSlots(v), q, 0)
                                     case None => None
                                     case Some(t) => Some(EntryFor(RootSlots(v)[t]))
  {
    hide Flat, Slots, Sound, Shape, Contained, Fetched, Listing, Lookup, FirstNamed, EntryFor, Plain;
    FetchedChain(v, RootChain(v));
    RootPlain(v);
    ListingFinds(RootSlots(v), q, 0);
  }

  /** In the root of a well-formed volume a name reads as the lookup of its slot says. */
  lemma OneComponent(v: Vol, q: seq<Byte>)
    requires WF(v)
    ensures Inside(v, v.root, [q]) && ReadFrom(v, v.root, [q]) == ReadRoot(v, q)
  {
    hide Flat, Slots, Sound, Shape, Contained, Fetched, DirAt, RootSlots, RootChain, SlotChain, SizeOf, ClusterOf, Display;
    RootFound(v, q);
    if |RootChain(v)| <= MAX_CLUSTERS && Lookup(RootSlots(v), q, 0).Some? {
      var t := Lookup(RootSlots(v), q, 0).value;
      ShowsLive(RootSlots(v)[t], q);
      if ClusterOf(RootSlots(v)[t]) >= 2 {
        SlotStarts(v, t);
        FetchedChain(v, SlotChain(v.fat, RootSlots(v)[t]));
      }
    }
  }

  /** `read_file` of a name that the driver can create, with or without a slash in front. */
  lemma ReadsName(v: Vol, name: seq<Byte>)
    requires WF(v) && Pack(name).Some?
    ensures PathInside(v, name) && ReadPath(v, name) == ReadRoot(v, name)
    ensures PathInside(v, [SLASH] + name) && ReadPath(v, [SLASH] + name) == ReadRoot(v, name)
  {
    hide Components, Inside, ReadFrom, ReadRoot, Pack, Sound;
    NameIsPath(name);
    OneComponent(v, name);
  }
}
