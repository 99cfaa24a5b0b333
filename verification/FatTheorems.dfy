/**
 The laws of the FAT32 write path: what a successful `create_root_file` or `unlink_root` leaves
 behind on a well-formed volume.
 */
module FatTheorems {
  import opened Options
  import opened Arithmetic
  import opened FatChains
  import opened FatNames
  import opened FatDirectory
  import opened FatLayout
  import opened FatVolume
  import opened FatFiles

  // ---------------------------------------------------------------------------
  // The operations
  // ---------------------------------------------------------------------------

  /** The slot that `upsert_root_dir_entry` takes: the choice in the first root cluster that offers one. */
  ghost predicate Choice(v: Vol, n: seq<Byte>, j: nat, k: nat) {
    && Rooted(v) && j < |RootChain(v)| && SLOT * k + SLOT <= v.size
    && NoChoice(Slots(Flat(v.data, RootChain(v)[..j])), n)
    && IsChoice(Slots(v.data[RootChain(v)[j]]), n, k)
  }

  /** The record of one run of `create_root_file`: the clusters it took, and where the entry went. */
  datatype Trace = Trace(w: seq<nat>, v1: Vol, grown: Option<nat>, v2: Vol, j: nat, k: nat)

  /** The root has a free slot, or gets a fresh cluster of them. */
  ghost predicate MadeRoom(v1: Vol, n: seq<Byte>, grown: Option<nat>, v2: Vol) {
    match grown
    case None => v2 == v1
    case Some(g) =>
      Rooted(v1) && FirstFree(v1.fat, g) && NoChoice(RootSlots(v1), n) && v2 == GrownVol(v1, g)
  }

  ghost predicate Upserted(v1: Vol, n: seq<Byte>, x: Slot, grown: Option<nat>, v2: Vol, j: nat, k: nat, v3: Vol) {
    MadeRoom(v1, n, grown, v2) && Choice(v2, n, j, k) && PutAt(v2, j, k, x, v3)
  }

  function FirstOf(w: seq<nat>): nat { if w == [] then 0 else w[0] }

  /** A successful `create_root_file`. */
  ghost predicate Created(v: Vol, n: seq<Byte>, b: seq<Byte>, tr: Trace, v3: Vol)
    requires |n| == 11
  {
    && Stored(v, tr.w, b, tr.v1)
    && Upserted(tr.v1, n, Entry(n, FirstOf(tr.w), |b| % 0x1_0000_0000), tr.grown, tr.v2, tr.j, tr.k, v3)
  }

  /** A successful `unlink_root`: the first match in front of the end mark is marked deleted. */
  ghost predicate Removed(v: Vol, n: seq<Byte>, j: nat, k: nat, v2: Vol) {
    && Rooted(v) && j < |RootChain(v)| && SLOT * k + SLOT <= v.size
    && SlotIndex(v, j, k) < |RootSlots(v)| && Matches(RootSlots(v)[SlotIndex(v, j, k)], n)
    && (forall t :: 0 <= t < SlotIndex(v, j, k) ==> !Stops(RootSlots(v)[t], n))
    && PutAt(v, j, k, [0xE5] + RootSlots(v)[SlotIndex(v, j, k)][1..], v2)
  }

  // ---------------------------------------------------------------------------
  // Facts about the chosen slot and the new entry
  // ---------------------------------------------------------------------------

  lemma ChoiceFacts(v: Vol, n: seq<Byte>, j: nat, k: nat)
    requires Choice(v, n, j, k)
    ensures SlotIndex(v, j, k) < |RootSlots(v)|
    ensures forall t :: 0 <= t < SlotIndex(v, j, k) ==> !Stops(RootSlots(v)[t], n)
    ensures var s := RootSlots(v)[SlotIndex(v, j, k)]; Stops(s, n) || Reusable(s)
  {
    hide Flat, Stops, Reusable;
    SlotsSplit(v, RootChain(v), j);
  }

  lemma EntryPuttable(v: Vol, name: seq<Byte>, w: seq<nat>, size: nat)
    requires WF(v) && Pack(name).Some? && size < 0x1_0000_0000
    requires OwnedApart(LayoutOf(v), w) && (w == [] || IsChain(v.fat, w))
    ensures var x := Entry(Pack(name).value, FirstOf(w), size);
            Puttable(LayoutOf(v), x, w) && Live(x) && !IsDir(x) && !IsLabel(x)
            && NameOf(x) == Pack(name).value && ClusterOf(x) == FirstOf(w) && SizeOf(x) == size
  {
    hide Sound, Entry, Canonical, RootSlots, RootChain;
    var n := Pack(name).value;
    ShapeFacts(v);
    EntryFields(n, FirstOf(w), size);
    PackCanonical(name);
    var x := Entry(n, FirstOf(w), size);
    assert x[0] == NameOf(x)[0];
    if w != [] {
      ChainIs(v.fat, w);
    }
  }

  lemma EntryShows(name: seq<Byte>, x: Slot, q: seq<Byte>)
    requires Pack(name).Some? && |x| == SLOT && Live(x) && !IsLabel(x) && NameOf(x) == Pack(name).value
    ensures Shows(x, q) <==> SameName(Display(Pack(name).value), q)
  {
    hide Display, Pack, WordThenSpaces;
    PackParts(name);
    NoDots(name);
  }

  lemma NoDots(name: seq<Byte>)
    requires Pack(name).Some?
    ensures Display(Pack(name).value) != [DOT] && Display(Pack(name).value) != [DOT, DOT]
  {
    hide Display, WordThenSpaces;
    PackParts(name);
    var base := BaseOf(UpperAll(name));
    assert base[0] != DOT;
    assert Display(Pack(name).value)[0] == base[0];
  }

  /** In front of the chosen slot nothing shows the name. */
  lemma NotShownBefore(v: Vol, name: seq<Byte>, q: seq<Byte>, t: nat)
    requires WF(v) && Pack(name).Some? && SameName(Display(Pack(name).value), q)
    requires t < |RootSlots(v)| && !Stops(RootSlots(v)[t], Pack(name).value)
    ensures !Shows(RootSlots(v)[t], q)
  {
    hide Display, Pack, SameName, RootSlots, RootChain, Separate, SlotChain, Canonical;
    var s := RootSlots(v)[t];
    assert SlotOk(v.fat, LayoutOf(v).slots[t]);
    if Shows(s, q) {
      PackShown(name, q);
      ShownOnce(NameOf(s), q);
    }
  }

  /** The slot that gives way shows no other name. */
  lemma NotShownThere(s: Slot, name: seq<Byte>, q: seq<Byte>)
    requires |s| == SLOT && Pack(name).Some? && !SameName(Display(Pack(name).value), q)
    requires Stops(s, Pack(name).value) || Reusable(s)
    ensures !Shows(s, q)
  {
    hide Display, Pack, SameName;
  }

  // ---------------------------------------------------------------------------
  // Steps
  // ---------------------------------------------------------------------------

  /** A chain on the side: nobody owns its clusters yet. */
  ghost predicate Aside(v: Vol, w: seq<nat>) {
    WF(v) && OwnedApart(LayoutOf(v), w) && (w == [] || IsChain(v.fat, w))
  }

  lemma StoredAside(v: Vol, w: seq<nat>, b: seq<Byte>, v1: Vol)
    requires WF(v) && Stored(v, w, b, v1)
    ensures Aside(v1, w)
  {
    hide Sound, IsLost, SlotChain, RootSlots, RootChain, OwnedApart, Written;
    StoredSound(v, w, b, v1);
    ShapeFacts(v);
    if w != [] {
      LinkedChain(v.fat, w, v1.fat);
    }
  }

  lemma NoEndsYet(slots: seq<Slot>, n: seq<Byte>)
    requires AllSlots(slots) && NoChoice(slots, n)
    ensures forall t :: 0 <= t < |slots| ==> !AtEnd(slots[t])
  {
  }

  lemma GrownAside(v: Vol, w: seq<nat>, n: seq<Byte>, g: nat)
    requires Aside(v, w) && IsFree(v.fat, g) && NoChoice(RootSlots(v), n)
    ensures Aside(GrownVol(v, g), w)
  {
    hide Sound, IsLost, SlotChain, RootSlots, RootChain, Shape, Slots;
    NoEndsYet(RootSlots(v), n);
    GrownSound(v, g);
    GrownDirectory(v, g);
    SoundFacts(LayoutOf(v), []);
    ShapeFacts(v);
    ZeroSlots(v.size);
    var v2 := GrownVol(v, g);
    var l, m := LayoutOf(v), LayoutOf(v2);
    forall i | 0 <= i < |w| ensures w[i] != g {
      ChainNotFree(v.fat, w, i);
    }
    assert Apart(w, m.root);
    forall t | 0 <= t < |m.slots| ensures Apart(w, SlotChain(m.fat, m.slots[t])) {
      if t < |l.slots| {
        assert Apart(w, SlotChain(l.fat, l.slots[t]));
      } else {
        assert AtEnd(Slots(Zeros(v.size))[t - |l.slots|]);
        DeadOwnsNothing(m.fat, m.slots[t]);
      }
    }
    if w != [] {
      assert Apart([g], w);
      GrowAgree(l, g, w);
      ChainFrame(v.fat, v2.fat, w);
    }
  }

  lemma RoomSound(v1: Vol, w: seq<nat>, n: seq<Byte>, grown: Option<nat>, v2: Vol)
    requires Aside(v1, w) && MadeRoom(v1, n, grown, v2)
    ensures Aside(v2, w)
    ensures |RootChain(v2)| == |RootChain(v1)| + (if grown.Some? then 1 else 0)
    ensures forall c: nat :: IsLost(LayoutOf(v2), c) <==> IsLost(LayoutOf(v1), c)
  {
    hide Sound, IsLost, SlotChain, RootSlots, RootChain, OwnedApart;
    if grown.Some? {
      NoEndsYet(RootSlots(v1), n);
      GrownAside(v1, w, n, grown.value);
      GrownSound(v1, grown.value);
      GrownDirectory(v1, grown.value);
    }
  }

  lemma RoomInvisible(v1: Vol, w: seq<nat>, n: seq<Byte>, grown: Option<nat>, v2: Vol, q: seq<Byte>)
    requires Aside(v1, w) && MadeRoom(v1, n, grown, v2) && Aside(v2, w) && |RootChain(v2)| <= MAX_CLUSTERS
    ensures ReadRoot(v2, q) == ReadRoot(v1, q) && FoundSlot(v2, q) == FoundSlot(v1, q)
  {
    hide FoundSlot, Sound, SlotChain, RootSlots, RootChain, OwnedApart, ReadRoot;
    if grown.Some? {
      NoEndsYet(RootSlots(v1), n);
      GrownDirectory(v1, grown.value);
      GrowInvisible(v1, grown.value, q);
    }
  }

  /** The last step of a create, as a slot that may be put. */
  lemma EntryStep(v2: Vol, name: seq<Byte>, w: seq<nat>, size: nat, j: nat, k: nat, v3: Vol)
    requires Aside(v2, w) && Pack(name).Some? && size < 0x1_0000_0000
    requires Choice(v2, Pack(name).value, j, k)
    requires PutAt(v2, j, k, Entry(Pack(name).value, FirstOf(w), size), v3)
    ensures var x := Entry(Pack(name).value, FirstOf(w), size);
            && Puttable(LayoutOf(v2), x, w) && !AtEnd(x)
            && SlotIndex(v2, j, k) < |RootSlots(v2)|
            && (forall u :: 0 <= u < SlotIndex(v2, j, k) ==> !AtEnd(RootSlots(v2)[u]))
  {
    hide Sound, SlotChain, RootSlots, RootChain, Puttable, SlotIndex, Entry;
    EntryPuttable(v2, name, w, size);
    ChoiceFacts(v2, Pack(name).value, j, k);
  }

  // ---------------------------------------------------------------------------
  // create_root_file
  // ---------------------------------------------------------------------------

  /**
   A create leaves a well-formed volume: every chain still stops, and no two share a cluster.
   Whatever was allocated and unowned before is so after, so nothing leaks.
   */
  lemma CreateSound(v: Vol, name: seq<Byte>, b: seq<Byte>, tr: Trace, v3: Vol)
    requires WF(v) && Pack(name).Some? && Created(v, Pack(name).value, b, tr, v3)
    ensures WF(v3)
    ensures forall c: nat :: IsLost(LayoutOf(v3), c) <==> IsLost(LayoutOf(v), c)
    ensures |RootChain(v3)| == |RootChain(v)| + (if tr.grown.Some? then 1 else 0)
  {
    hide Sound, IsLost, SlotChain, RootSlots, RootChain, OwnedApart, Puttable, Entry, SlotIndex, PutAt, Choice, Stored, Display;
    var n := Pack(name).value;
    StoredSound(v, tr.w, b, tr.v1);
    StoredAside(v, tr.w, b, tr.v1);
    RoomSound(tr.v1, tr.w, n, tr.grown, tr.v2);
    var size := |b| % 0x1_0000_0000;
    EntryStep(tr.v2, name, tr.w, size, tr.j, tr.k, v3);
    PutSoundVol(tr.v2, tr.j, tr.k, Entry(n, FirstOf(tr.w), size), tr.w, v3);
    forall c: nat ensures IsLost(LayoutOf(v3), c) <==> IsLost(LayoutOf(v), c) {
      if c in tr.w {
        NotLostBefore(v, tr.w, b, tr.v1, c);
      }
    }
    assert RootChain(tr.v1) == LayoutOf(tr.v1).root == RootChain(v);
    assert RootChain(v3) == LayoutOf(v3).root == RootChain(tr.v2);
  }

  lemma NotLostBefore(v: Vol, w: seq<nat>, b: seq<Byte>, v1: Vol, c: nat)
    requires WF(v) && Stored(v, w, b, v1) && c in w
    ensures !IsLost(LayoutOf(v), c)
  {
    hide Sound, SlotChain, RootSlots, RootChain, Written;
    var i :| 0 <= i < |w| && w[i] == c;
    assert IsFree(v.fat, w[i]);
  }

  /** Names other than the new one read as before, also when a file was replaced or the root grew. */
  lemma OthersReadTheSame(v: Vol, name: seq<Byte>, b: seq<Byte>, tr: Trace, v3: Vol, q: seq<Byte>)
    requires WF(v) && Pack(name).Some? && Created(v, Pack(name).value, b, tr, v3)
    requires !SameName(Display(Pack(name).value), q) && WF(v3) && |RootChain(v3)| <= MAX_CLUSTERS
    ensures ReadRoot(v3, q) == ReadRoot(v, q) && FoundSlot(v3, q) == FoundSlot(v, q)
  {
    hide FoundSlot, Sound, IsLost, SlotChain, RootSlots, RootChain, OwnedApart, Puttable, Entry, SlotIndex, PutAt, Stored, Display, ReadRoot, SameName, Pack, Shows, Slots, Flat;
    var n := Pack(name).value;
    CreateSound(v, name, b, tr, v3);
    StoredSound(v, tr.w, b, tr.v1);
    StoredAside(v, tr.w, b, tr.v1);
    RoomSound(tr.v1, tr.w, n, tr.grown, tr.v2);
    assert RootChain(tr.v1) == LayoutOf(tr.v1).root == RootChain(v);
    StoreInvisible(v, tr.w, b, tr.v1, q);
    RoomInvisible(tr.v1, tr.w, n, tr.grown, tr.v2, q);
    var size := |b| % 0x1_0000_0000;
    var x := Entry(n, FirstOf(tr.w), size);
    EntryStep(tr.v2, name, tr.w, size, tr.j, tr.k, v3);
    EntryPuttable(tr.v2, name, tr.w, size);
    EntryShows(name, x, q);
    ChoiceFacts(tr.v2, n, tr.j, tr.k);
    NotShownThere(RootSlots(tr.v2)[SlotIndex(tr.v2, tr.j, tr.k)], name, q);
    PutInvisible(tr.v2, tr.j, tr.k, x, tr.w, v3, q);
  }

  /** `n_clusters` in `create_root_file` */
  function ClustersFor(len: nat, size: nat): nat
    requires size > 0
  {
    (len + size - 1) / size
  }

  /** What a read of a stored file returns: its size field has 32 bits, and a read is bounded. */
  function ReadBack(b: seq<Byte>, size: nat): ReadResult
    requires size > 0
  {
    if b == [] then Fault
    else if ClustersFor(|b|, size) > MAX_CLUSTERS then TooLong
    else Ok(b[..|b| % 0x1_0000_0000])
  }

  /** The whole file comes back if and only if it is not empty, below 4 GiB and within the read bound. */
  lemma ReadBackWhole(b: seq<Byte>, size: nat)
    requires size > 0
    ensures ReadBack(b, size) == Ok(b) <==> 0 < |b| < 0x1_0000_0000 && ClustersFor(|b|, size) <= MAX_CLUSTERS
  {
    hide ClustersFor;
    if |b| < 0x1_0000_0000 {
      assert b[..|b|] == b;
    }
  }

  /**
   Round trip: a created file reads back as exactly the bytes written, up to the limits of
   `ReadBack`, under every spelling of the name that the directory shows.
   */
  lemma CreateReadsBack(v: Vol, name: seq<Byte>, b: seq<Byte>, tr: Trace, v3: Vol, q: seq<Byte>)
    requires WF(v) && Pack(name).Some? && Created(v, Pack(name).value, b, tr, v3)
    requires SameName(Display(Pack(name).value), q) && WF(v3) && |RootChain(v3)| <= MAX_CLUSTERS
    ensures v.size > 0 && ReadRoot(v3, q) == ReadBack(b, v.size)
  {
    hide Sound, IsLost, SlotChain, RootSlots, RootChain, OwnedApart, Puttable, Entry, SlotIndex, PutAt, Stored, Display, ReadRoot, SameName, Pack, Shows, Slots, Flat, ReadSlot;
    var n := Pack(name).value;
    CreateSound(v, name, b, tr, v3);
    StoredSound(v, tr.w, b, tr.v1);
    StoredAside(v, tr.w, b, tr.v1);
    RoomSound(tr.v1, tr.w, n, tr.grown, tr.v2);
    assert RootChain(tr.v1) == LayoutOf(tr.v1).root == RootChain(v);
    var size := |b| % 0x1_0000_0000;
    var x := Entry(n, FirstOf(tr.w), size);
    EntryStep(tr.v2, name, tr.w, size, tr.j, tr.k, v3);
    EntryPuttable(tr.v2, name, tr.w, size);
    EntryShows(name, x, q);
    ChoiceFacts(tr.v2, n, tr.j, tr.k);
    forall u | 0 <= u < SlotIndex(tr.v2, tr.j, tr.k) ensures !Shows(RootSlots(tr.v2)[u], q) {
      NotShownBefore(tr.v2, name, q, u);
    }
    PutVisible(tr.v2, tr.j, tr.k, x, tr.w, v3, q);
    NewFileReads(v, name, b, tr, v3);
  }

  /** What the new slot holds. */
  lemma NewFileReads(v: Vol, name: seq<Byte>, b: seq<Byte>, tr: Trace, v3: Vol)
    requires WF(v) && Pack(name).Some? && Created(v, Pack(name).value, b, tr, v3) && WF(v3)
    ensures v.size > 0
    ensures ReadSlot(v3, Entry(Pack(name).value, FirstOf(tr.w), |b| % 0x1_0000_0000)) == ReadBack(b, v.size)
  {
    hide Sound, IsLost, RootSlots, RootChain, OwnedApart, Puttable, Entry, SlotIndex, Display, Slots, Flat, SlotChain, Choice, Chunks, Stored, PutAt, Pack, MadeRoom, Shape;
    var n := Pack(name).value;
    StoredSound(v, tr.w, b, tr.v1);
    StoredAside(v, tr.w, b, tr.v1);
    RoomSound(tr.v1, tr.w, n, tr.grown, tr.v2);
    var size := |b| % 0x1_0000_0000;
    var x := Entry(n, FirstOf(tr.w), size);
    EntryStep(tr.v2, name, tr.w, size, tr.j, tr.k, v3);
    EntryPuttable(tr.v2, name, tr.w, size);
    PutSoundVol(tr.v2, tr.j, tr.k, x, tr.w, v3);
    ShapeFacts(v);
    NewFileBytes(v, name, b, tr, v3);
    ChunksCount(b, v.size);
    if b != [] {
      FlatChunks(v3.data, tr.w, b, v.size);
      assert IsCluster(tr.v2.fat, tr.w[0]);
      assert Flat(v3.data, tr.w)[..|b|][..size] == Flat(v3.data, tr.w)[..size];
    }
  }

  /** The clusters of the new file still hold its bytes at the end. */
  lemma NewFileBytes(v: Vol, name: seq<Byte>, b: seq<Byte>, tr: Trace, v3: Vol)
    requires WF(v) && Pack(name).Some? && Created(v, Pack(name).value, b, tr, v3)
    ensures |tr.w| == |Chunks(b, v.size)|
    ensures forall i :: 0 <= i < |tr.w| ==> tr.w[i] < |v3.data| && v3.data[tr.w[i]] == Chunks(b, v.size)[i]
  {
    hide Sound, IsLost, RootSlots, SlotChain, Puttable, Entry, SlotIndex, Display, Slots, Flat, Choice, Chunks, Pack, Linked, Zeroed, WithSlot;
    StoredAside(v, tr.w, b, tr.v1);
    RoomSound(tr.v1, tr.w, Pack(name).value, tr.grown, tr.v2);
    forall i | 0 <= i < |tr.w| ensures tr.w[i] < |v3.data| && v3.data[tr.w[i]] == Chunks(b, v.size)[i] {
      assert LayoutOf(tr.v2).root[tr.j] != tr.w[i];
      if tr.grown.Some? {
        ChainNotFree(tr.v1.fat, tr.w, i);
      }
    }
  }

  /** No canonical name is shown with a dot at its end. */
  lemma NoDotAtEnd(v: Vol, q: seq<Byte>, t: nat)
    requires WF(v) && q != [] && q[|q| - 1] == DOT && t < |RootSlots(v)|
    ensures !Shows(RootSlots(v)[t], q)
  {
    hide RootSlots, RootChain, Separate, SlotChain, Canonical, Display;
    var s := RootSlots(v)[t];
    assert SlotOk(v.fat, LayoutOf(v).slots[t]);
    if Shows(s, q) {
      var base, ext := StoredParts(NameOf(s));
      var shown := Display(NameOf(s));
      assert |UpperAll(shown)| == |UpperAll(q)|;
      assert UpperAll(shown)[|q| - 1] == UpperAll(q)[|q| - 1] == DOT;
      LastNotDot(NameOf(s));
      assert false;
    }
  }

  lemma LastNotDot(n: seq<Byte>)
    requires Canonical(n)
    ensures Display(n) != [] && Display(n)[|Display(n)| - 1] != DOT
  {
    hide Trim, WordThenSpaces;
    var a: nat :| 0 < a && WordThenSpaces(n[..8], a);
    var b: nat :| WordThenSpaces(n[8..], b);
    WordFacts(n[..8], a);
    WordFacts(n[8..], b);
    var base, ext := n[..8][..a], n[8..][..b];
    assert base[a - 1] != DOT;
    if ext != [] {
      assert ext[b - 1] != DOT;
      assert Display(n)[|Display(n)| - 1] == ext[b - 1];
    }
  }

  /** A file is found again under the name it was created with exactly when that name does not end in a dot. */
  lemma ReadsBackExactly(v: Vol, name: seq<Byte>, b: seq<Byte>, tr: Trace, v3: Vol)
    requires WF(v) && Pack(name).Some? && Created(v, Pack(name).value, b, tr, v3)
    requires WF(v3) && |RootChain(v3)| <= MAX_CLUSTERS
    ensures name != [] && v.size > 0
    ensures ReadRoot(v3, name) == if name[|name| - 1] != DOT then ReadBack(b, v.size) else NotFound
    ensures ReadRoot(v3, name) == Ok(b) <==>
            name[|name| - 1] != DOT && 0 < |b| < 0x1_0000_0000 && ClustersFor(|b|, v.size) <= MAX_CLUSTERS
  {
    hide Sound, RootSlots, RootChain, Created, Display, SameName, Pack, Shows, ClustersFor;
    ShownExactly(name);
    ShapeFacts(v);
    ReadBackWhole(b, v.size);
    if name[|name| - 1] != DOT {
      CreateReadsBack(v, name, b, tr, v3, name);
    } else {
      forall t | 0 <= t < |RootSlots(v3)| ensures !Shows(RootSlots(v3)[t], name) {
        NoDotAtEnd(v3, name, t);
      }
      LookupNone(RootSlots(v3), name, 0);
    }
  }

  lemma StoredFrame(v: Vol, w: seq<nat>, b: seq<Byte>, v1: Vol, c: nat)
    requires Shape(v) && Stored(v, w, b, v1) && IsCluster(v.fat, c) && v.fat[c] != 0
    ensures |v1.fat| == |v.fat| && |v1.data| == |v.data| && c < |v.data|
    ensures v1.fat[c] == v.fat[c] && v1.data[c] == v.data[c]
  {
    hide Chunks;
    assert forall i :: 0 <= i < |w| ==> v.fat[w[i]] == 0;
    assert c !in w;
  }

  lemma RoomFrame(v1: Vol, n: seq<Byte>, grown: Option<nat>, v2: Vol, c: nat)
    requires Rooted(v1) && MadeRoom(v1, n, grown, v2)
    requires IsCluster(v1.fat, c) && v1.fat[c] != 0 && c !in RootChain(v1)
    ensures |v2.fat| == |v1.fat| && |v2.data| == |v1.data| == |v1.fat|
    ensures v2.fat[c] == v1.fat[c] && v2.data[c] == v1.data[c]
    ensures Rooted(v2) && c !in RootChain(v2)
  {
    hide NoChoice, RootSlots, RootChain;
    ShapeFacts(v1);
    if grown.Some? {
      GrownDirectory(v1, grown.value);
      assert RootChain(v1)[|RootChain(v1)| - 1] in RootChain(v1);
    }
  }

  lemma PutFrame(v: Vol, j: nat, k: nat, x: Slot, v2: Vol, c: nat)
    requires PutAt(v, j, k, x, v2) && IsCluster(v.fat, c) && c !in RootChain(v)
    ensures |v2.fat| == |v.fat| && |v2.data| == |v.data| == |v.fat|
    ensures SlotIndex(v, j, k) < |RootSlots(v)|
    ensures c !in SlotChain(v.fat, RootSlots(v)[SlotIndex(v, j, k)]) ==> v2.fat[c] == v.fat[c] && v2.data[c] == v.data[c]
  {
    hide RootSlots, RootChain, SlotChain, SlotIndex, Slots, WithSlot, Shape;
    ShapeFacts(v);
    PutZeroed(v, j, k, x, v2);
    assert RootChain(v)[j] in RootChain(v);
  }

  /**
   A create changes no allocated cluster outside the root and the replaced file, such as those of
   subdirectories and of the files in them.
   */
  lemma CreateFrame(v: Vol, name: seq<Byte>, b: seq<Byte>, tr: Trace, v3: Vol, c: nat)
    requires WF(v) && Pack(name).Some? && Created(v, Pack(name).value, b, tr, v3)
    requires IsCluster(v.fat, c) && v.fat[c] != 0 && c !in RootChain(v)
    ensures Rooted(tr.v2) && SlotIndex(tr.v2, tr.j, tr.k) < |RootSlots(tr.v2)|
    ensures |v3.fat| == |v.fat| && |v3.data| == |v.data| && c < |v.data|
    ensures c !in SlotChain(tr.v2.fat, RootSlots(tr.v2)[SlotIndex(tr.v2, tr.j, tr.k)]) ==>
              v3.fat[c] == v.fat[c] && v3.data[c] == v.data[c]
  {
    hide Sound, IsLost, RootSlots, SlotChain, OwnedApart, Stored, MadeRoom, Entry, SlotIndex, Choice, PutAt, Pack, RootChain, Shape;
    StoredSound(v, tr.w, b, tr.v1);
    assert RootChain(tr.v1) == LayoutOf(tr.v1).root == RootChain(v);
    StoredFrame(v, tr.w, b, tr.v1, c);
    RoomFrame(tr.v1, Pack(name).value, tr.grown, tr.v2, c);
    PutFrame(tr.v2, tr.j, tr.k, Entry(Pack(name).value, FirstOf(tr.w), |b| % 0x1_0000_0000), v3, c);
  }

  // ---------------------------------------------------------------------------
  // A fresh volume
  // ---------------------------------------------------------------------------

  /** A volume with one cluster of end marks as its root and nothing else. */
  function Formatted(clusters: nat, root: nat, size: nat): Vol {
    Vol(seq(clusters, c => if c == root then LAST else 0), seq(clusters, c => BlankData(c, size)), root, size)
  }

  /** The numbers below 2 stand for no cluster. */
  function BlankData(c: int, size: nat): (b: seq<Byte>)
    ensures |b| == if c < 2 then 0 else size
  {
    if c < 2 then [] else Zeros(size)
  }

  /** Runs have somewhere to start: a freshly formatted volume is well formed and shows no name. */
  lemma FormattedSound(clusters: nat, root: nat, size: nat, q: seq<Byte>)
    requires 2 <= root < clusters <= BAD_CLUSTER && 0 < size && size % SLOT == 0
    ensures WF(Formatted(clusters, root, size))
    ensures RootChain(Formatted(clusters, root, size)) == [root]
    ensures ReadRoot(Formatted(clusters, root, size), q) == NotFound
  {
    hide Slots, Flat, SlotOk, SlotChain, Shows;
    var v := Formatted(clusters, root, size);
    ChainIs(v.fat, [root]);
    FormattedSlots(clusters, root, size);
    ZeroSlots(size);
    var slots := RootSlots(v);
    forall t | 0 <= t < |slots|
      ensures AtEnd(slots[t]) && SlotOk(v.fat, slots[t]) && SlotChain(v.fat, slots[t]) == [] && !Shows(slots[t], q)
    {
      DeadOwnsNothing(v.fat, slots[t]);
      DeadShowsNothing(slots[t], q);
    }
    LookupNone(slots, q, 0);
  }

  lemma FormattedSlots(clusters: nat, root: nat, size: nat)
    requires 2 <= root < clusters <= BAD_CLUSTER && 0 < size && size % SLOT == 0
    requires Rooted(Formatted(clusters, root, size)) && RootChain(Formatted(clusters, root, size)) == [root]
    ensures RootSlots(Formatted(clusters, root, size)) == Slots(Zeros(size))
  {
    hide Slots, RootChain;
    var v := Formatted(clusters, root, size);
    assert [root][..0] == [];
    FlatTail(v.data, [], root);
    assert [] + [root] == [root];
    assert [] + Zeros(size) == Zeros(size);
  }

  // ---------------------------------------------------------------------------
  // Free clusters
  // ---------------------------------------------------------------------------

  ghost function FreeSet(fat: Fat): set<nat> {
    set c: nat | 2 <= c < |fat| && fat[c] == 0
  }

  ghost function Members(w: seq<nat>): set<nat> {
    set c | c in w
  }

  lemma {:induction false} MembersSize(w: seq<nat>)
    requires Distinct(w)
    ensures |Members(w)| == |w|
  {
    if w != [] {
      var last := w[|w| - 1];
      MembersSize(w[..|w| - 1]);
      assert Members(w) == Members(w[..|w| - 1]) + {last};
    } else {
      assert Members(w) == {};
    }
  }

  lemma StoreFree(v: Vol, w: seq<nat>, b: seq<Byte>, v1: Vol)
    requires Shape(v) && Stored(v, w, b, v1)
    ensures |FreeSet(v1.fat)| == |FreeSet(v.fat)| - |w|
  {
    hide Written;
    forall i | 0 <= i < |w| ensures v1.fat[w[i]] != 0 {
      assert v1.fat[w[i]] == LinkAt(w, i);
      if i + 1 < |w| {
        assert IsFree(v.fat, w[i + 1]);
      }
    }
    assert FreeSet(v1.fat) == FreeSet(v.fat) - Members(w);
    assert Members(w) <= FreeSet(v.fat);
    MembersSize(w);
  }

  lemma RoomFree(v1: Vol, n: seq<Byte>, grown: Option<nat>, v2: Vol)
    requires WF(v1) && MadeRoom(v1, n, grown, v2)
    ensures |FreeSet(v2.fat)| == |FreeSet(v1.fat)| - (if grown.Some? then 1 else 0)
  {
    hide Sound, RootSlots;
    if grown.Some? {
      var g := grown.value;
      var rc := RootChain(v1);
      ChainNotFree(v1.fat, rc, |rc| - 1);
      assert FreeSet(v2.fat) == FreeSet(v1.fat) - {g};
    }
  }

  lemma PutFree(fat: Fat, gone: seq<nat>, now: Fat)
    requires Zeroed(fat, gone, now) && (gone == [] || IsChain(fat, gone))
    ensures |FreeSet(now)| == |FreeSet(fat)| + |gone|
  {
    forall i | 0 <= i < |gone| ensures gone[i] !in FreeSet(fat) && IsCluster(fat, gone[i]) {
      ChainNotFree(fat, gone, i);
    }
    if gone != [] {
      EndsDistinct(fat, gone);
    }
    assert FreeSet(now) == FreeSet(fat) + Members(gone);
    MembersSize(gone);
  }

  /**
   The free clusters change by exactly the old chain minus the clusters of the new file minus the
   cluster by which the root grew.
   */
  lemma CreateFreeCount(v: Vol, name: seq<Byte>, b: seq<Byte>, tr: Trace, v3: Vol)
    requires WF(v) && Pack(name).Some? && Created(v, Pack(name).value, b, tr, v3)
    ensures Rooted(tr.v2) && SlotIndex(tr.v2, tr.j, tr.k) < |RootSlots(tr.v2)|
    ensures |FreeSet(v3.fat)| ==
            |FreeSet(v.fat)| + |SlotChain(tr.v2.fat, RootSlots(tr.v2)[SlotIndex(tr.v2, tr.j, tr.k)])|
            - ClustersFor(|b|, v.size) - (if tr.grown.Some? then 1 else 0)
  {
    hide Sound, IsLost, SlotChain, RootSlots, RootChain, OwnedApart, Entry, SlotIndex, Display, NoChoice, IsChoice, Slots, Flat, Chunks, Pack, FreeSet, Shape, PutAt, Stored, ClustersFor;
    ShapeFacts(v);
    StoreFree(v, tr.w, b, tr.v1);
    StoredAside(v, tr.w, b, tr.v1);
    RoomFree(tr.v1, Pack(name).value, tr.grown, tr.v2);
    StoredCount(v, tr.w, b, tr.v1);
    PutZeroed(tr.v2, tr.j, tr.k, Entry(Pack(name).value, FirstOf(tr.w), |b| % 0x1_0000_0000), v3);
    PutFree(tr.v2.fat, SlotChain(tr.v2.fat, RootSlots(tr.v2)[SlotIndex(tr.v2, tr.j, tr.k)]), v3.fat);
  }

  lemma StoredCount(v: Vol, w: seq<nat>, b: seq<Byte>, v1: Vol)
    requires Stored(v, w, b, v1)
    ensures v.size > 0 && |w| == ClustersFor(|b|, v.size)
  {
    hide Chunks;
    ChunksCount(b, v.size);
  }

  lemma PutZeroed(v: Vol, j: nat, k: nat, x: Slot, v2: Vol)
    requires PutAt(v, j, k, x, v2)
    ensures SlotIndex(v, j, k) < |RootSlots(v)|
    ensures Zeroed(v.fat, SlotChain(v.fat, RootSlots(v)[SlotIndex(v, j, k)]), v2.fat)
  {
    hide SlotChain, RootSlots, RootChain, SlotIndex;
    SlotAt(v, j, k);
  }

  /** The number of clusters is the length divided by the cluster size, rounded up. */
  lemma {:induction false} ChunksCount(b: seq<Byte>, size: nat)
    requires size > 0
    ensures |Chunks(b, size)| == ClustersFor(|b|, size)
    decreases |b|
  {
    if |b| > size {
      ChunksCount(b[size..], size);
      DivStep(|b| - 1, size);
    } else if |b| > 0 {
      DivOne(|b| + size - 1, size);
    } else {
      DivZero(size - 1, size);
    }
  }

  // ---------------------------------------------------------------------------
  // unlink_root
  // ---------------------------------------------------------------------------

  lemma RemovedSlot(v: Vol, n: seq<Byte>, j: nat, k: nat, v2: Vol)
    requires WF(v) && Removed(v, n, j, k, v2)
    ensures var x: Slot := [0xE5] + RootSlots(v)[SlotIndex(v, j, k)][1..];
            && Puttable(LayoutOf(v), x, []) && !AtEnd(x) && !Live(x) && PutAt(v, j, k, x, v2)
            && forall u :: 0 <= u < SlotIndex(v, j, k) && u < |RootSlots(v)| ==> !AtEnd(RootSlots(v)[u])
  {
    hide Sound, SlotIndex, RootChain;
    var x: Slot := [0xE5] + RootSlots(v)[SlotIndex(v, j, k)][1..];
    assert |RootSlots(v)[SlotIndex(v, j, k)]| == SLOT;
    assert x[0] == 0xE5;
    DeadOwnsNothing(v.fat, x);
  }

  /** An unlink leaves a well-formed volume, frees the chain of the file, and leaks nothing. */
  lemma UnlinkSound(v: Vol, n: seq<Byte>, j: nat, k: nat, v2: Vol)
    requires WF(v) && Removed(v, n, j, k, v2)
    ensures WF(v2) && RootChain(v2) == RootChain(v)
    ensures forall c: nat :: IsLost(LayoutOf(v2), c) <==> IsLost(LayoutOf(v), c)
    ensures |FreeSet(v2.fat)| == |FreeSet(v.fat)| + |SlotChain(v.fat, RootSlots(v)[SlotIndex(v, j, k)])|
  {
    hide Sound, IsLost, SlotChain, RootSlots, RootChain, Puttable, SlotIndex, PutAt, FreeSet, Shape;
    RemovedSlot(v, n, j, k, v2);
    var x: Slot := [0xE5] + RootSlots(v)[SlotIndex(v, j, k)][1..];
    PutSoundVol(v, j, k, x, [], v2);
    assert RootChain(v2) == LayoutOf(v2).root == RootChain(v);
    PutZeroed(v, j, k, x, v2);
    PutFree(v.fat, SlotChain(v.fat, RootSlots(v)[SlotIndex(v, j, k)]), v2.fat);
  }

  /** After an unlink every other name reads as before. */
  lemma UnlinkOthers(v: Vol, name: seq<Byte>, j: nat, k: nat, v2: Vol, q: seq<Byte>)
    requires WF(v) && Pack(name).Some? && Removed(v, Pack(name).value, j, k, v2) && WF(v2)
    requires !SameName(Display(Pack(name).value), q)
    ensures ReadRoot(v2, q) == ReadRoot(v, q) && FoundSlot(v2, q) == FoundSlot(v, q)
  {
    hide FoundSlot, Sound, SlotChain, RootSlots, RootChain, Puttable, SlotIndex, PutAt, Shape, ReadRoot, Display, SameName, Pack, Shows;
    RemovedSlot(v, Pack(name).value, j, k, v2);
    var x: Slot := [0xE5] + RootSlots(v)[SlotIndex(v, j, k)][1..];
    NotShownThere(RootSlots(v)[SlotIndex(v, j, k)], name, q);
    DeadShowsNothing(x, q);
    PutInvisible(v, j, k, x, [], v2, q);
  }

  /** An unlink changes no cluster outside the root and the removed file. */
  lemma UnlinkFrame(v: Vol, n: seq<Byte>, j: nat, k: nat, v2: Vol, c: nat)
    requires WF(v) && Removed(v, n, j, k, v2) && IsCluster(v.fat, c) && c !in RootChain(v)
    ensures |v2.fat| == |v.fat| && |v2.data| == |v.data| && c < |v.data|
    ensures c !in SlotChain(v.fat, RootSlots(v)[SlotIndex(v, j, k)]) ==>
              v2.fat[c] == v.fat[c] && v2.data[c] == v.data[c]
  {
    hide Sound, SlotChain, RootSlots, RootChain, SlotIndex, Slots;
    PutFrame(v, j, k, [0xE5] + RootSlots(v)[SlotIndex(v, j, k)][1..], v2, c);
  }

  lemma DeadShowsNothing(x: Slot, q: seq<Byte>)
    requires |x| == SLOT && !Live(x)
    ensures !Shows(x, q)
  {
  }

  /** After an unlink the name is gone, unless another slot showed it too. */
  lemma UnlinkGone(v: Vol, name: seq<Byte>, j: nat, k: nat, v2: Vol, q: seq<Byte>)
    requires WF(v) && Pack(name).Some? && Removed(v, Pack(name).value, j, k, v2) && WF(v2)
    requires |RootChain(v)| <= MAX_CLUSTERS && SameName(Display(Pack(name).value), q)
    ensures ReadRoot(v2, q) == NotFound <==>
            forall t :: 0 <= t < |RootSlots(v)| && t != SlotIndex(v, j, k) ==> !Shows(RootSlots(v)[t], q)
  {
    hide Sound, SlotChain, RootSlots, RootChain, Puttable, SlotIndex, PutAt, Shape, Display, SameName, Pack, Shows, ReadSlot, IsLost;
    RemovedSlot(v, Pack(name).value, j, k, v2);
    var s := SlotIndex(v, j, k);
    var x: Slot := [0xE5] + RootSlots(v)[s][1..];
    DeadShowsNothing(x, q);
    PutSoundVol(v, j, k, x, [], v2);
    assert RootChain(v2) == LayoutOf(v2).root == RootChain(v);
    assert RootSlots(v2) == LayoutOf(v2).slots == RootSlots(v)[s := x];
    if forall t :: 0 <= t < |RootSlots(v)| && t != s ==> !Shows(RootSlots(v)[t], q) {
      LookupNone(RootSlots(v2), q, 0);
    } else {
      var t :| 0 <= t < |RootSlots(v)| && t != s && Shows(RootSlots(v)[t], q);
      assert RootSlots(v2)[t] == RootSlots(v)[t];
      ShowsFound(v2, q, t);
      ReadSlotFinds(v2, RootSlots(v2)[Lookup(RootSlots(v2), q, 0).value]);
    }
  }

  lemma ReadSlotFinds(v: Vol, s: Slot)
    requires Shape(v) && |s| == SLOT
    ensures ReadSlot(v, s) != NotFound
  {
  }

  /** A slot that shows a name on a well-formed volume makes the lookup succeed. */
  lemma ShowsFound(v: Vol, q: seq<Byte>, t: nat)
    requires WF(v) && t < |RootSlots(v)| && Shows(RootSlots(v)[t], q)
    ensures Lookup(RootSlots(v), q, 0).Some?
  {
    hide RootSlots, RootChain, Shows, SlotOk, Separate;
    assert ZeroTail(LayoutOf(v).slots);
    LookupSome(RootSlots(v), q, 0, t);
  }
}
