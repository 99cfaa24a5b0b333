/**
 Creating, replacing, removing and reading files in the root of a FAT32 volume: what each
 operation of kernel/src/drivers/fat32.rs does to a well-formed volume, and the theorems about it.
 */
module FatFiles {
  import opened Options
  import opened FatChains
  import opened FatNames
  import opened FatDirectory
  import opened FatLayout
  import opened FatVolume

  /** `read_chain` gives up behind this many clusters. */
  const MAX_CLUSTERS: nat := 1_000_001

  // ---------------------------------------------------------------------------
  // Reading
  // ---------------------------------------------------------------------------

  /** `Fault` stands for a read at a cluster number below 2, as of an empty file. */
  datatype ReadResult = Ok(bytes: seq<Byte>) | NotFound | NotAFile | NotADirectory | TooLong | Fault

  function Truncate(b: seq<Byte>, n: nat): seq<Byte> { if n < |b| then b[..n] else b }

  ghost function ReadSlot(v: Vol, s: Slot): ReadResult
    requires Shape(v) && |s| == SLOT
  {
    if IsDir(s) then NotAFile
    else if ClusterOf(s) < 2 then Fault
    else
      var w := SlotChain(v.fat, s);
      if |w| > MAX_CLUSTERS then TooLong else Ok(Truncate(Flat(v.data, w), SizeOf(s)))
  }

  /** `read_file` for a path with one component. */
  ghost function ReadRoot(v: Vol, q: seq<Byte>): ReadResult
    requires WF(v)
  {
    if |RootChain(v)| > MAX_CLUSTERS then TooLong
    else
      match Lookup(RootSlots(v), q, 0)
      case None => NotFound
      case Some(t) => ReadSlot(v, RootSlots(v)[t])
  }

  /** The slot that shows a name in the root. */
  ghost function FoundSlot(v: Vol, q: seq<Byte>): Option<Slot>
    requires Rooted(v)
  {
    match Lookup(RootSlots(v), q, 0)
    case None => None
    case Some(t) => Some(RootSlots(v)[t])
  }

  // ---------------------------------------------------------------------------
  // Storing the bytes of a file in fresh clusters
  // ---------------------------------------------------------------------------

  function Pad(b: seq<Byte>, size: nat): (r: seq<Byte>)
    requires |b| <= size
    ensures |r| == size && r[..|b|] == b
  {
    b + Zeros(size - |b|)
  }

  /** The bytes cut into clusters, the last one filled up with zeros. */
  function Chunks(b: seq<Byte>, size: nat): (r: seq<seq<Byte>>)
    requires size > 0
    ensures b == [] <==> r == []
    ensures forall i :: 0 <= i < |r| ==> |r[i]| == size
  {
    if |b| == 0 then [] else if |b| <= size then [Pad(b, size)] else [b[..size]] + Chunks(b[size..], size)
  }

  ghost predicate Written(v: Vol, w: seq<nat>, chunks: seq<seq<Byte>>, now: seq<seq<Byte>>) {
    && |now| == |v.data| && |w| == |chunks|
    && (forall i :: 0 <= i < |w| ==> w[i] < |now| && now[w[i]] == chunks[i])
    && (forall c :: 0 <= c < |v.data| && c !in w ==> now[c] == v.data[c])
  }

  /** The clusters `w` are taken, linked and filled. */
  ghost predicate Stored(v: Vol, w: seq<nat>, b: seq<Byte>, v1: Vol) {
    && v.size > 0 && v1.root == v.root && v1.size == v.size
    && Fresh(v.fat, w) && Linked(v.fat, w, v1.fat) && Written(v, w, Chunks(b, v.size), v1.data)
  }

  lemma {:induction false} FlatChunks(data: seq<seq<Byte>>, w: seq<nat>, b: seq<Byte>, size: nat)
    requires size > 0 && |w| == |Chunks(b, size)|
    requires forall i :: 0 <= i < |w| ==> w[i] < |data| && data[w[i]] == Chunks(b, size)[i]
    ensures |b| <= |Flat(data, w)| && Flat(data, w)[..|b|] == b
    decreases |b|
  {
    if |b| > size {
      FlatHead(data, w);
      assert forall i :: 0 <= i < |w| - 1 ==> w[1..][i] == w[i + 1] && Chunks(b[size..], size)[i] == Chunks(b, size)[i + 1];
      FlatChunks(data, w[1..], b[size..], size);
      assert b == b[..size] + b[size..];
    } else if |b| > 0 {
      assert w == [w[0]];
      FlatHead(data, w);
    }
  }

  lemma FlatHead(data: seq<seq<Byte>>, w: seq<nat>)
    requires w != [] && Within(data, w)
    ensures Within(data, w[1..]) && Flat(data, w) == data[w[0]] + Flat(data, w[1..])
  {
    var a := [w[0]];
    assert w == a + w[1..];
    assert Flat(data, a) == data[w[0]] by {
      assert a[..0] == [];
      assert Flat(data, []) == [];
    }
    FlatConcat(data, a, w[1..]);
  }

  /** Fresh clusters are filled without disturbing the directory or any file. */
  lemma StoredSound(v: Vol, w: seq<nat>, b: seq<Byte>, v1: Vol)
    requires WF(v) && Stored(v, w, b, v1)
    ensures WF(v1) && LayoutOf(v1) == LayoutOf(v).(fat := v1.fat)
    ensures OwnedApart(LayoutOf(v1), w)
    ensures forall t :: 0 <= t < |RootSlots(v)| ==>
              SlotChain(v1.fat, RootSlots(v)[t]) == SlotChain(v.fat, RootSlots(v)[t])
    ensures forall c: nat :: IsLost(LayoutOf(v1), c) <==> IsLost(LayoutOf(v), c) || c in w
  {
    hide Sound, IsLost, SlotChain, Shape, RootSlots, RootChain, Written, Linked, Fresh, OwnedApart;
    var l := LayoutOf(v);
    AllocSound(l, w, v1.fat);
    SoundFacts(l.(fat := v1.fat), w);
    StoredShape(v, w, b, v1);
    StoredRoot(v, w, b, v1);
    SameDirectory(v, v1);
  }

  lemma StoredRoot(v: Vol, w: seq<nat>, b: seq<Byte>, v1: Vol)
    requires WF(v) && Stored(v, w, b, v1)
    ensures |v1.data| == |v.data|
    ensures forall i :: 0 <= i < |RootChain(v)| ==> v1.data[RootChain(v)[i]] == v.data[RootChain(v)[i]]
  {
    hide Sound, Chunks;
    SoundFacts(LayoutOf(v), w);
  }

  lemma StoredShape(v: Vol, w: seq<nat>, b: seq<Byte>, v1: Vol)
    requires Shape(v) && Stored(v, w, b, v1)
    ensures Shape(v1)
  {
    hide Chunks;
  }

  /** A volume whose root chain and its bytes are left alone has the same directory. */
  lemma SameDirectory(v: Vol, v1: Vol)
    requires Rooted(v) && Shape(v1) && v1.root == v.root && |v1.data| == |v.data| && IsChain(v1.fat, RootChain(v))
    requires forall i :: 0 <= i < |RootChain(v)| ==> v1.data[RootChain(v)[i]] == v.data[RootChain(v)[i]]
    ensures Rooted(v1) && RootChain(v1) == RootChain(v) && RootSlots(v1) == RootSlots(v)
  {
    hide Flat, Slots;
    ChainIs(v1.fat, RootChain(v));
    FlatSame(v.data, v1.data, RootChain(v));
  }

  lemma SoundFacts(l: Layout, w: seq<nat>)
    requires Sound(l)
    ensures IsChain(l.fat, l.root)
    ensures (forall i :: 0 <= i < |w| ==> IsFree(l.fat, w[i])) ==> forall i :: 0 <= i < |l.root| ==> l.root[i] !in w
  {
    hide SlotOk, SlotChain;
    if forall i :: 0 <= i < |w| ==> IsFree(l.fat, w[i]) {
      FreshApart(l, w);
    }
  }

  // ---------------------------------------------------------------------------
  // Growing the root by a cluster of zeros
  // ---------------------------------------------------------------------------

  ghost predicate FirstFree(fat: Fat, g: nat) {
    IsFree(fat, g) && forall c :: 2 <= c < g ==> fat[c] != 0
  }

  ghost function GrownVol(v: Vol, g: nat): Vol
    requires Rooted(v) && IsFree(v.fat, g)
  {
    Vol(Grown(v.fat, RootChain(v), g), v.data[g := Zeros(v.size)], v.root, v.size)
  }

  lemma ZeroSlots(size: nat)
    requires size % SLOT == 0
    ensures AllEnds(Slots(Zeros(size)))
  {
    forall t | 0 <= t < |Slots(Zeros(size))|
      ensures |Slots(Zeros(size))[t]| == SLOT && AtEnd(Slots(Zeros(size))[t])
    {
      assert Slots(Zeros(size))[t] == Zeros(size)[SLOT * t..SLOT * t + SLOT];
    }
  }

  lemma GrownDirectory(v: Vol, g: nat)
    requires Rooted(v) && IsFree(v.fat, g)
    ensures Rooted(GrownVol(v, g)) && RootChain(GrownVol(v, g)) == RootChain(v) + [g]
    ensures RootSlots(GrownVol(v, g)) == RootSlots(v) + Slots(Zeros(v.size))
  {
    hide Flat, Slots;
    var v2 := GrownVol(v, g);
    var rc := RootChain(v);
    GrownChain(v.fat, rc, g);
    ChainIs(v2.fat, rc + [g]);
    assert forall i :: 0 <= i < |rc| ==> rc[i] != g by {
      forall i | 0 <= i < |rc| ensures rc[i] != g {
        ChainNotFree(v.fat, rc, i);
      }
    }
    FlatSame(v.data, v2.data, rc);
    FlatTail(v2.data, rc, g);
    FlatAligned(v, rc);
    SlotsConcat(Flat(v.data, rc), Zeros(v.size));
  }

  lemma FlatTail(data: seq<seq<Byte>>, w: seq<nat>, g: nat)
    requires Within(data, w) && g < |data|
    ensures Within(data, w + [g]) && Flat(data, w + [g]) == Flat(data, w) + data[g]
  {
    assert (w + [g])[..|w|] == w;
  }

  lemma GrownSound(v: Vol, g: nat)
    requires WF(v) && IsFree(v.fat, g) && forall t :: 0 <= t < |RootSlots(v)| ==> !AtEnd(RootSlots(v)[t])
    ensures WF(GrownVol(v, g))
    ensures LayoutOf(GrownVol(v, g)) == GrownLayout(LayoutOf(v), g, Slots(Zeros(v.size)))
    ensures forall t :: 0 <= t < |RootSlots(v)| ==>
              SlotChain(GrownVol(v, g).fat, RootSlots(v)[t]) == SlotChain(v.fat, RootSlots(v)[t])
    ensures forall c: nat :: IsLost(LayoutOf(GrownVol(v, g)), c) <==> IsLost(LayoutOf(v), c)
  {
    hide Sound, IsLost, SlotChain, Shape, RootSlots, RootChain, Slots;
    ShapeFacts(v);
    ZeroSlots(v.size);
    GrownDirectory(v, g);
    SoundFacts(LayoutOf(v), []);
    GrowSound(LayoutOf(v), g, Slots(Zeros(v.size)));
    forall c: nat ensures IsLost(LayoutOf(GrownVol(v, g)), c) <==> IsLost(LayoutOf(v), c) {
      GrowLost(LayoutOf(v), g, Slots(Zeros(v.size)), c);
    }
  }

  lemma ShapeFacts(v: Vol)
    requires Shape(v)
    ensures v.size > 0 && v.size % SLOT == 0 && |v.data| == |v.fat| <= BAD_CLUSTER
  {
  }

  // ---------------------------------------------------------------------------
  // Writing a slot
  // ---------------------------------------------------------------------------

  /** Slot `k` of root cluster `j` becomes `x`, and the chain it owned is freed. */
  ghost predicate PutAt(v: Vol, j: nat, k: nat, x: Slot, v2: Vol) {
    && Rooted(v) && |x| == SLOT
    && j < |RootChain(v)| && SLOT * k + SLOT <= v.size
    && (var c := RootChain(v)[j];
        && v2.data == v.data[c := WithSlot(v.data[c], k, x)]
        && Zeroed(v.fat, SlotChain(v.fat, Slots(v.data[c])[k]), v2.fat)
        && v2.root == v.root && v2.size == v.size)
  }

  /** The index of that slot in the whole directory. */
  ghost function SlotIndex(v: Vol, j: nat, k: nat): nat
    requires Rooted(v) && j < |RootChain(v)|
  {
    Before(v, RootChain(v), j) + k
  }

  lemma PutDirectory(v: Vol, j: nat, k: nat, x: Slot, v2: Vol)
    requires PutAt(v, j, k, x, v2) && IsChain(v2.fat, RootChain(v))
    ensures SlotIndex(v, j, k) < |RootSlots(v)|
    ensures RootSlots(v)[SlotIndex(v, j, k)] == Slots(v.data[RootChain(v)[j]])[k]
    ensures Rooted(v2) && RootChain(v2) == RootChain(v)
    ensures RootSlots(v2) == RootSlots(v)[SlotIndex(v, j, k) := x]
  {
    hide Flat, Slots;
    var rc := RootChain(v);
    EndsDistinct(v.fat, rc);
    PutSlots(v, rc, j, k, x);
    ChainIs(v2.fat, rc);
    PutShape(v, j, k, x, v2);
  }

  lemma PutShape(v: Vol, j: nat, k: nat, x: Slot, v2: Vol)
    requires PutAt(v, j, k, x, v2)
    ensures Shape(v2)
  {
    hide Slots;
  }

  lemma PutSoundVol(v: Vol, j: nat, k: nat, x: Slot, w: seq<nat>, v2: Vol)
    requires WF(v) && PutAt(v, j, k, x, v2) && Puttable(LayoutOf(v), x, w) && !AtEnd(x)
    requires forall t :: 0 <= t < SlotIndex(v, j, k) && t < |RootSlots(v)| ==> !AtEnd(RootSlots(v)[t])
    ensures SlotIndex(v, j, k) < |RootSlots(v)|
    ensures RootSlots(v)[SlotIndex(v, j, k)] == Slots(v.data[RootChain(v)[j]])[k]
    ensures WF(v2) && LayoutOf(v2) == PutLayout(LayoutOf(v), SlotIndex(v, j, k), x, v2.fat)
    ensures SlotChain(v2.fat, x) == w
    ensures forall t :: 0 <= t < |RootSlots(v)| && t != SlotIndex(v, j, k) ==>
              SlotChain(v2.fat, RootSlots(v)[t]) == SlotChain(v.fat, RootSlots(v)[t])
    ensures forall c: nat :: IsLost(LayoutOf(v2), c) <==> IsLost(LayoutOf(v), c) && c !in w
  {
    hide Sound, IsLost, SlotChain, Shape, RootSlots, RootChain, Puttable, SlotIndex, Slots, WithSlot;
    var l := LayoutOf(v);
    var s := SlotIndex(v, j, k);
    SlotAt(v, j, k);
    PutChains(l, s, x, w, v2.fat);
    PutDirectory(v, j, k, x, v2);
    PutSound(l, s, x, w, v2.fat);
    forall c: nat ensures IsLost(LayoutOf(v2), c) <==> IsLost(l, c) && c !in w {
      PutLost(l, s, x, w, v2.fat, c);
    }
  }

  lemma SlotAt(v: Vol, j: nat, k: nat)
    requires Rooted(v) && j < |RootChain(v)| && SLOT * k + SLOT <= v.size
    ensures SlotIndex(v, j, k) < |RootSlots(v)|
    ensures RootChain(v)[j] < |v.data| && k < |Slots(v.data[RootChain(v)[j]])|
    ensures RootSlots(v)[SlotIndex(v, j, k)] == Slots(v.data[RootChain(v)[j]])[k]
  {
    hide Flat;
    SlotsSplit(v, RootChain(v), j);
  }

  // ---------------------------------------------------------------------------
  // What readers see of each step
  // ---------------------------------------------------------------------------

  lemma SameRead(v: Vol, now: Vol, s: Slot)
    requires Shape(v) && Shape(now) && |s| == SLOT && |now.data| == |v.data|
    requires SlotChain(now.fat, s) == SlotChain(v.fat, s)
    requires forall i :: 0 <= i < |SlotChain(v.fat, s)| ==>
               now.data[SlotChain(v.fat, s)[i]] == v.data[SlotChain(v.fat, s)[i]]
    ensures ReadSlot(now, s) == ReadSlot(v, s)
  {
    hide Flat;
    FlatSame(v.data, now.data, SlotChain(v.fat, s));
  }

  lemma StoreReads(v: Vol, w: seq<nat>, b: seq<Byte>, v1: Vol, t: nat)
    requires WF(v) && Stored(v, w, b, v1) && t < |RootSlots(v)|
    ensures Shape(v1) && ReadSlot(v1, RootSlots(v)[t]) == ReadSlot(v, RootSlots(v)[t])
  {
    hide Sound, SlotChain, RootSlots, RootChain, ReadSlot, Chunks, IsLost;
    StoredSound(v, w, b, v1);
    FreshApart(LayoutOf(v), w);
    assert Apart(w, SlotChain(v.fat, RootSlots(v)[t]));
    SameRead(v, v1, RootSlots(v)[t]);
  }

  /** Nobody sees that clusters are being filled. */
  lemma StoreInvisible(v: Vol, w: seq<nat>, b: seq<Byte>, v1: Vol, q: seq<Byte>)
    requires WF(v) && Stored(v, w, b, v1)
    ensures WF(v1) && ReadRoot(v1, q) == ReadRoot(v, q) && FoundSlot(v1, q) == FoundSlot(v, q)
  {
    hide Sound, SlotChain, RootSlots, RootChain, ReadSlot, Stored, IsLost, OwnedApart;
    StoredSound(v, w, b, v1);
    assert RootSlots(v1) == LayoutOf(v1).slots == RootSlots(v);
    assert RootChain(v1) == LayoutOf(v1).root == RootChain(v);
    match Lookup(RootSlots(v), q, 0) {
      case None =>
      case Some(t) => StoreReads(v, w, b, v1, t);
    }
  }

  /** Nobody sees that clusters are taken and not used. */
  lemma TakeInvisible(v: Vol, w: seq<nat>, now: Fat, q: seq<Byte>)
    requires WF(v) && |now| == |v.fat| && forall i :: 0 <= i < |w| ==> IsFree(v.fat, w[i])
    requires forall c :: 0 <= c < |v.fat| && c !in w ==> now[c] == v.fat[c]
    ensures WF(v.(fat := now)) && RootChain(v.(fat := now)) == RootChain(v)
    ensures ReadRoot(v.(fat := now), q) == ReadRoot(v, q)
  {
    hide Sound, SlotChain, RootSlots, RootChain, ReadSlot, OwnedApart;
    var v1 := v.(fat := now);
    TakenSound(LayoutOf(v), w, now);
    SoundFacts(LayoutOf(v).(fat := now), []);
    SameDirectory(v, v1);
    match Lookup(RootSlots(v), q, 0) {
      case None =>
      case Some(t) => SameRead(v, v1, RootSlots(v)[t]);
    }
  }

  lemma GrowReads(v: Vol, g: nat, t: nat)
    requires WF(v) && IsFree(v.fat, g) && forall u :: 0 <= u < |RootSlots(v)| ==> !AtEnd(RootSlots(v)[u])
    requires t < |RootSlots(v)|
    ensures Shape(GrownVol(v, g)) && ReadSlot(GrownVol(v, g), RootSlots(v)[t]) == ReadSlot(v, RootSlots(v)[t])
  {
    hide Sound, SlotChain, RootSlots, RootChain, ReadSlot, IsLost;
    GrownSound(v, g);
    FreshApart(LayoutOf(v), [g]);
    assert Apart([g], SlotChain(v.fat, RootSlots(v)[t]));
    assert [g][0] == g;
    SameRead(v, GrownVol(v, g), RootSlots(v)[t]);
  }

  /** Nobody sees that the root has grown. */
  lemma GrowInvisible(v: Vol, g: nat, q: seq<Byte>)
    requires WF(v) && IsFree(v.fat, g) && forall t :: 0 <= t < |RootSlots(v)| ==> !AtEnd(RootSlots(v)[t])
    requires |RootChain(v)| + 1 <= MAX_CLUSTERS
    ensures WF(GrownVol(v, g)) && ReadRoot(GrownVol(v, g), q) == ReadRoot(v, q)
    ensures FoundSlot(GrownVol(v, g), q) == FoundSlot(v, q)
  {
    hide Sound, SlotChain, RootSlots, RootChain, ReadSlot, IsLost, Slots;
    GrownSound(v, g);
    GrownDirectory(v, g);
    ShapeFacts(v);
    ZeroSlots(v.size);
    var more := Slots(Zeros(v.size));
    LookupGrown(RootSlots(v), more, q, 0);
    match Lookup(RootSlots(v), q, 0) {
      case None =>
      case Some(t) => GrowReads(v, g, t);
    }
  }

  lemma PutReads(v: Vol, j: nat, k: nat, x: Slot, w: seq<nat>, v2: Vol, t: nat)
    requires WF(v) && PutAt(v, j, k, x, v2) && Puttable(LayoutOf(v), x, w) && !AtEnd(x)
    requires forall u :: 0 <= u < SlotIndex(v, j, k) && u < |RootSlots(v)| ==> !AtEnd(RootSlots(v)[u])
    requires t < |RootSlots(v)| && t != SlotIndex(v, j, k)
    ensures Shape(v2) && ReadSlot(v2, RootSlots(v)[t]) == ReadSlot(v, RootSlots(v)[t])
  {
    hide SlotOk, SlotChain, RootSlots, RootChain, ReadSlot, IsLost, WithSlot, SlotIndex, Puttable, Slots;
    PutSoundVol(v, j, k, x, w, v2);
    assert Apart(SlotChain(v.fat, LayoutOf(v).slots[t]), LayoutOf(v).root);
    SameRead(v, v2, RootSlots(v)[t]);
  }

  /** A slot in place of another, where neither of them shows a name, leaves that name alone. */
  lemma PutInvisible(v: Vol, j: nat, k: nat, x: Slot, w: seq<nat>, v2: Vol, q: seq<Byte>)
    requires WF(v) && PutAt(v, j, k, x, v2) && Puttable(LayoutOf(v), x, w) && !AtEnd(x)
    requires forall u :: 0 <= u < SlotIndex(v, j, k) && u < |RootSlots(v)| ==> !AtEnd(RootSlots(v)[u])
    requires !Shows(x, q)
    requires SlotIndex(v, j, k) < |RootSlots(v)| ==> !Shows(RootSlots(v)[SlotIndex(v, j, k)], q)
    ensures WF(v2) && ReadRoot(v2, q) == ReadRoot(v, q) && FoundSlot(v2, q) == FoundSlot(v, q)
  {
    hide SlotChain, RootSlots, RootChain, ReadSlot, IsLost, WithSlot, SlotIndex, Puttable, Slots, Shows, Separate, SlotOk, Zeroed;
    PutSoundVol(v, j, k, x, w, v2);
    var s := SlotIndex(v, j, k);
    assert RootSlots(v2) == LayoutOf(v2).slots == RootSlots(v)[s := x];
    assert RootChain(v2) == LayoutOf(v2).root == RootChain(v);
    LookupSame(RootSlots(v), RootSlots(v2), q, 0);
    match Lookup(RootSlots(v), q, 0) {
      case None =>
      case Some(t) => PutReads(v, j, k, x, w, v2, t);
    }
  }

  /** The slot just written is the one that a reader finds, if nothing in front of it shows the name. */
  lemma PutVisible(v: Vol, j: nat, k: nat, x: Slot, w: seq<nat>, v2: Vol, q: seq<Byte>)
    requires WF(v) && PutAt(v, j, k, x, v2) && Puttable(LayoutOf(v), x, w) && !AtEnd(x)
    requires forall u :: 0 <= u < SlotIndex(v, j, k) && u < |RootSlots(v)| ==>
               !AtEnd(RootSlots(v)[u]) && !Shows(RootSlots(v)[u], q)
    requires Shows(x, q) && |RootChain(v)| <= MAX_CLUSTERS
    ensures WF(v2) && ReadRoot(v2, q) == ReadSlot(v2, x)
  {
    hide SlotChain, RootSlots, RootChain, ReadSlot, IsLost, WithSlot, SlotIndex, Puttable, Slots, Shows, Separate, SlotOk, Zeroed;
    PutSoundVol(v, j, k, x, w, v2);
    var s := SlotIndex(v, j, k);
    assert RootSlots(v2) == LayoutOf(v2).slots == RootSlots(v)[s := x];
    assert RootChain(v2) == LayoutOf(v2).root == RootChain(v);
    LookupIs(RootSlots(v2), q, 0, s);
  }
}
