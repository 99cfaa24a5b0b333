/**
 Runs of the driver of kernel/src/drivers/fat32.rs on disks of every geometry in which a promise is
 not kept: a create that leaves a name twice, and a file that is not found under its own name.
 */
module FatCases {
  import opened Options
  import opened Arithmetic
  import opened FatChains
  import opened FatNames
  import opened FatDirectory
  import opened FatLayout
  import opened FatVolume
  import opened FatFiles
  import opened FatTheorems
  import opened FatUnique
  import opened FatPaths
  import opened FatDisk
  import opened FatImage
  import opened FatWriter

  // ---------------------------------------------------------------------------
  // A root with a gap in front of a file
  // ---------------------------------------------------------------------------

  /** The name "A", packed. */
  function SomeName(): (n: seq<Byte>)
    ensures |n| == 11
  {
    [0x41] + seq(10, _ => SPACE)
  }

  function SomeGap(): (s: Slot)
    ensures |s| == SLOT && s[0] == 0xE5 && s[11] == 0
  {
    [0xE5] + Zeros(31)
  }

  /** A file with that name, of one byte. */
  function SomeFile(first: nat): Slot { Entry(SomeName(), first, 1) }

  /** A second cluster for the root, and one for the file. */
  function Second(root: nat): nat { if root == 2 then 3 else 2 }

  function Third(root: nat): nat { if root <= 3 then 4 else 3 }

  /** A cluster of deleted slots. */
  function Gaps(size: nat): (r: seq<Byte>)
    ensures |r| == size
  {
    seq(size, i requires 0 <= i < size => if i % SLOT == 0 then 0xE5 else 0)
  }

  function GapData(c: nat, root: nat, size: nat): seq<Byte>
    requires SLOT <= size
  {
    if c < 2 then []
    else if c == root then Gaps(size)
    else if c == Second(root) then SomeFile(Third(root)) + Zeros(size - SLOT)
    else Zeros(size)
  }

  function GapEntry(c: int, root: nat): nat {
    if c == root then Second(root) else if c == Second(root) || c == Third(root) then LAST else 0
  }

  /** The first cluster of the root holds deleted slots, the second one a file; all else is free. */
  function GapVol(clusters: nat, root: nat, size: nat): Vol
    requires SLOT <= size
  {
    Vol(seq(clusters, c => GapEntry(c, root)),
        seq(clusters, c requires 0 <= c => GapData(c, root, size)), root, size)
  }

  ghost predicate Mountable(clusters: nat, root: nat, size: nat) {
    5 <= clusters <= BAD_CLUSTER && 2 <= root < clusters && SLOT <= size && size % SLOT == 0
  }

  lemma SomePacked()
    ensures Pack([0x41]) == Some(SomeName())
  {
    var upper := UpperAll([0x41]);
    assert upper == [0x41];
    assert DotAt(upper[1..]) == 0;
    assert BaseOf(upper) == [0x41] && ExtOf(upper) == [];
    assert Padded([0x41], 8) + Padded([], 3) == SomeName();
  }

  lemma SomeSlots(first: nat)
    requires first < 0x1000_0000
    ensures Reusable(SomeGap()) && !Live(SomeGap()) && !AtEnd(SomeGap())
    ensures |SomeFile(first)| == SLOT && Matches(SomeFile(first), SomeName()) && ClusterOf(SomeFile(first)) == first
    ensures !IsLabel(SomeFile(first)) && Canonical(SomeName())
    ensures NameOf(SomeFile(first)) == SomeName() && Live(SomeFile(first)) && !IsLongName(SomeFile(first))
  {
    hide Entry, Canonical, Padded, Pack;
    var file := SomeFile(first);
    EntryFields(SomeName(), first, 1);
    assert file[0] == NameOf(file)[0] == 0x41;
    SomePacked();
    PackCanonical([0x41]);
  }

  lemma GapSlot(size: nat, k: nat)
    requires SLOT * k + SLOT <= size
    ensures Slots(Gaps(size))[k] == SomeGap()
  {
    var s, r := Slots(Gaps(size))[k], SomeGap();
    forall i | 0 <= i < SLOT ensures s[i] == r[i] {
      assert s[i] == Gaps(size)[SLOT * k + i];
      assert (SLOT * k + i) % SLOT == i;
    }
    assert s == r;
  }

  lemma FileSlots(first: nat, size: nat, k: nat)
    requires SLOT * k + SLOT <= size && |SomeFile(first)| == SLOT
    ensures Slots(SomeFile(first) + Zeros(size - SLOT))[k] == if k == 0 then SomeFile(first) else Zeros(SLOT)
  {
    hide Entry;
    var b := SomeFile(first) + Zeros(size - SLOT);
    if k == 0 {
      assert b[0..SLOT] == SomeFile(first);
    } else {
      assert b[SLOT * k..SLOT * k + SLOT] == Zeros(SLOT);
    }
  }

  ghost predicate GapList(slots: seq<Slot>, n: nat, file: Slot) {
    && |slots| == 2 * n && n > 0
    && (forall t :: 0 <= t < n ==> slots[t] == SomeGap())
    && slots[n] == file
    && (forall t :: n < t < 2 * n ==> slots[t] == Zeros(SLOT))
  }

  lemma GapShape(clusters: nat, root: nat, size: nat)
    requires Mountable(clusters, root, size)
    ensures Shape(GapVol(clusters, root, size))
  {
    hide Entry;
    SomeSlots(Third(root));
  }

  lemma GapRoot(clusters: nat, root: nat, size: nat)
    requires Mountable(clusters, root, size)
    ensures var v := GapVol(clusters, root, size);
            && Rooted(v) && RootChain(v) == [root, Second(root)]
            && GapList(RootSlots(v), size / SLOT, SomeFile(Third(root)))
  {
    hide Flat, Slots, Entry, Shape, Gaps, GapList, Matches, Reusable, Canonical;
    var v := GapVol(clusters, root, size);
    var a := Second(root);
    GapShape(clusters, root, size);
    SomeSlots(Third(root));
    ChainIs(v.fat, [root, a]);
    EmptyFlat(v.data);
    FlatTail(v.data, [], root);
    FlatTail(v.data, [root], a);
    assert [] + [root] == [root] && [root] + [a] == [root, a];
    assert [] + v.data[root] == v.data[root];
    GapSlots(Third(root), size);
  }

  /** The slots of the two clusters, one behind the other. */
  lemma GapSlots(first: nat, size: nat)
    requires SLOT <= size && size % SLOT == 0 && |SomeFile(first)| == SLOT
    ensures GapList(Slots(Gaps(size) + (SomeFile(first) + Zeros(size - SLOT))), size / SLOT, SomeFile(first))
  {
    hide Slots, Entry, Gaps, SomeGap;
    var x, y, n := Gaps(size), SomeFile(first) + Zeros(size - SLOT), size / SLOT;
    SlotsConcat(x, y);
    forall k | 0 <= k < n ensures Slots(x)[k] == SomeGap() {
      GapSlot(size, k);
    }
    forall k | 0 <= k < n ensures Slots(y)[k] == if k == 0 then SomeFile(first) else Zeros(SLOT) {
      FileSlots(first, size, k);
    }
  }

  lemma EmptyFlat(data: seq<seq<Byte>>)
    ensures Flat(data, []) == []
  {
  }

  /** Only the file owns a chain, and it is not in the root. */
  lemma ListSound(fat: Fat, root: seq<nat>, slots: seq<Slot>, n: nat, first: nat)
    requires |fat| <= BAD_CLUSTER && IsChain(fat, root) && IsChain(fat, [first]) && first !in root && first >= 2
    requires GapList(slots, n, SomeFile(first))
    ensures Sound(Layout(fat, root, slots)) && UniqueNames(slots)
  {
    hide Entry, Canonical, ClusterOf, IsLabel, Matches;
    SomeSlots(first);
    ChainIs(fat, [first]);
    assert Zeros(SLOT)[0] == 0;
    forall t | 0 <= t < |slots|
      ensures |slots[t]| == SLOT && SlotOk(fat, slots[t]) && SlotChain(fat, slots[t]) == if t == n then [first] else []
      ensures Live(slots[t]) <==> t == n
      ensures AtEnd(slots[t]) <==> t > n
    {
    }
    hide SlotChain, SlotOk, Live, AtEnd;
    var l := Layout(fat, root, slots);
    forall t, u | 0 <= t < u < |slots| && Live(slots[t]) ensures !Matches(slots[u], NameOf(slots[t])) {
      MatchLives(slots[u], NameOf(slots[t]));
    }
  }

  lemma MatchLives(s: Slot, n: seq<Byte>)
    requires |s| == SLOT
    ensures Matches(s, n) ==> Live(s)
  {
  }

  lemma GapSound(clusters: nat, root: nat, size: nat)
    requires Mountable(clusters, root, size)
    ensures WF(GapVol(clusters, root, size)) && UniqueNames(RootSlots(GapVol(clusters, root, size)))
  {
    hide Sound, RootSlots, RootChain, Entry, GapList, UniqueNames, Shape;
    var v := GapVol(clusters, root, size);
    GapRoot(clusters, root, size);
    ChainIs(v.fat, [Third(root)]);
    ListSound(v.fat, [root, Second(root)], RootSlots(v), size / SLOT, Third(root));
  }

  /** The first cluster has a gap, the second one the name. */
  lemma GapInFront(clusters: nat, root: nat, size: nat)
    requires Mountable(clusters, root, size)
    ensures Rooted(GapVol(clusters, root, size)) && !NoGapBefore(GapVol(clusters, root, size), SomeName())
  {
    hide Flat, Slots, Entry, Shape, Gaps, RootChain, Canonical;
    var v := GapVol(clusters, root, size);
    GapRoot(clusters, root, size);
    SomeSlots(Third(root));
    GapSlot(size, 0);
    FileSlots(Third(root), size, 0);
    assert IsAt(v, 1, 0) && At(v, 1, 0) == SomeFile(Third(root));
    assert IsAt(v, 0, 0) && At(v, 0, 0) == SomeGap();
  }

  // ---------------------------------------------------------------------------
  // The runs
  // ---------------------------------------------------------------------------

  lemma GapSized(g: Geometry, sectors: nat)
    requires g.Fits(sectors)
    ensures Mountable(g.Clusters(), g.root, g.ClusterBytes())
    ensures Sized(g, GapVol(g.Clusters(), g.root, g.ClusterBytes()))
  {
    hide Entry;
    SomeSlots(Third(g.root));
  }

  lemma GapRoom(clusters: nat, root: nat, size: nat)
    requires Mountable(clusters, root, size) && 6 <= clusters
    ensures Rooted(GapVol(clusters, root, size)) && !NoRoom(GapVol(clusters, root, size), SomeName(), 1)
  {
    hide Entry, RootChain, RootSlots, Slots, Flat, Shape, Matches;
    var v := GapVol(clusters, root, size);
    GapRoot(clusters, root, size);
    SomeSlots(Third(root));
    var c := if root == 5 then 4 else 5;
    assert c in FreeSet(v.fat);
    assert RootSlots(v)[0] == SomeGap();
  }

  /**
   On a disk of any geometry, with deleted slots in the first cluster of the root and "A" in the
   second, creating "A" succeeds and leaves the name in two slots.
   */
  method DuplicateName(g: Geometry, sectors: nat) returns (fs: Fat32, ghost was: Vol)
    requires g.Fits(sectors)
    ensures fresh(fs) && fs.g == g && |fs.disk| == sectors && fs.Valid() && WF(fs.Abs())
    ensures WF(was) && UniqueNames(RootSlots(was)) && Sized(g, was)
    ensures exists tr :: Created(was, SomeName(), [7], tr, fs.Abs())
    ensures !UniqueNames(RootSlots(fs.Abs()))
  {
    hide Sound, Shape, Sectors, Mirrored, FatOf, DataOf, RootSlots, RootChain, UniqueNames, NoGapBefore, Sized, GapVol, NoRoom, Created, DiskOf;
    GapSized(g, sectors);
    var v := GapVol(g.Clusters(), g.root, g.ClusterBytes());
    was := v;
    GapSound(g.Clusters(), g.root, g.ClusterBytes());
    GapInFront(g.Clusters(), g.root, g.ClusterBytes());
    GapRoom(g.Clusters(), g.root, g.ClusterBytes());
    ImageIs(g, v, sectors);
    fs := new Fat32(g, DiskOf(g, v, sectors));
    SomePacked();
    ghost var tr;
    var r;
    r, tr := CreateRootFile(fs, [0x41], [7]);
    CreateUnique(was, [0x41], [7], tr, fs.Abs());
  }

  // ---------------------------------------------------------------------------
  // A name that ends in a dot
  // ---------------------------------------------------------------------------

  /** "A." packs like "A". */
  lemma DotPacked()
    ensures Pack([0x41, DOT]) == Some(SomeName())
  {
    var upper := UpperAll([0x41, DOT]);
    assert upper == [0x41, DOT];
    assert upper[1..] == [DOT] && DotAt(upper) == 1;
    assert BaseOf(upper) == [0x41] && ExtOf(upper) == [];
    assert Padded([0x41], 8) + Padded([], 3) == SomeName();
  }

  lemma BlankSized(g: Geometry, sectors: nat)
    requires g.Fits(sectors)
    ensures Sized(g, Formatted(g.Clusters(), g.root, g.ClusterBytes()))
  {
  }

  lemma BlankRoom(clusters: nat, root: nat, size: nat, n: seq<Byte>)
    requires Mountable(clusters, root, size) && 6 <= clusters
    requires Rooted(Formatted(clusters, root, size))
    ensures !NoRoom(Formatted(clusters, root, size), n, 1)
  {
    hide RootSlots, Shape;
    var fat := Formatted(clusters, root, size).fat;
    var a, b := Second(root), Third(root);
    SubsetSize({a, b}, FreeSet(fat));
    assert ClustersFor(1, size) == 1 by { DivOne(size, size); }
  }

  /** A create has one cluster more in the root at most. */
  lemma SmallRoot(v: Vol, name: seq<Byte>, b: seq<Byte>, tr: Trace, v3: Vol)
    requires WF(v) && Pack(name).Some? && Created(v, Pack(name).value, b, tr, v3) && WF(v3) && |RootChain(v)| == 1
    ensures |RootChain(v3)| <= MAX_CLUSTERS
  {
    hide Created, Pack, RootChain, Sound;
    CreatedSizes(v, name, b, tr, v3);
  }

  /**
   On a freshly formatted disk of any geometry, creating "A." succeeds, and reading "A." finds
   nothing.
   */
  method DotNameLost(g: Geometry, sectors: nat) returns (fs: Fat32, r: CreateResult)
    requires g.Fits(sectors)
    ensures fresh(fs) && fs.g == g && |fs.disk| == sectors && fs.Valid() && WF(fs.Abs())
    ensures r == Done && ReadRoot(fs.Abs(), [0x41, DOT]) == NotFound
  {
    hide Sound, Shape, Sectors, Mirrored, FatOf, DataOf, RootSlots, RootChain, Sized, Formatted, NoRoom, Created, DiskOf, ReadRoot, ReadBack;
    BlankSized(g, sectors);
    var clusters, size := g.Clusters(), g.ClusterBytes();
    var v := Formatted(clusters, g.root, size);
    FormattedSound(clusters, g.root, size, []);
    DotPacked();
    BlankRoom(clusters, g.root, size, SomeName());
    ImageIs(g, v, sectors);
    fs := new Fat32(g, DiskOf(g, v, sectors));
    ghost var tr;
    r, tr := CreateRootFile(fs, [0x41, DOT], [7]);
    SmallRoot(v, [0x41, DOT], [7], tr, fs.Abs());
    ReadsBackExactly(v, [0x41, DOT], [7], tr, fs.Abs());
  }

  /** A file of four gibibytes and a byte reads back as one byte. */
  lemma BigFileCut()
    ensures ReadBack(Zeros(0x1_0000_0001), 0x1_0000) == Ok([0])
  {
    var b := Zeros(0x1_0000_0001);
    assert b[..1] == [0];
  }
}
