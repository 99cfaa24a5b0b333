/**
 The volume as a table and clusters of bytes: how the bytes of the root chain make the directory,
 and what reading a file returns.
 */
module FatVolume {
  import opened FatChains
  import opened FatNames
  import opened FatDirectory
  import opened FatLayout

  /** `size` is the number of bytes in a cluster. */
  datatype Vol = Vol(fat: Fat, data: seq<seq<Byte>>, root: nat, size: nat)

  ghost predicate Shape(v: Vol) {
    && |v.data| == |v.fat| && |v.fat| <= BAD_CLUSTER
    && 0 < v.size && v.size % SLOT == 0
    && (forall c: nat :: IsCluster(v.fat, c) ==> |v.data[c]| == v.size)
  }

  ghost predicate Within(data: seq<seq<Byte>>, w: seq<nat>) {
    forall i :: 0 <= i < |w| ==> w[i] < |data|
  }

  /** The bytes of clusters, one after the other. */
  function Flat(data: seq<seq<Byte>>, w: seq<nat>): seq<Byte>
    requires Within(data, w)
  {
    if w == [] then [] else Flat(data, w[..|w| - 1]) + data[w[|w| - 1]]
  }

  ghost function RootChain(v: Vol): (w: seq<nat>)
    requires HasChain(v.fat, v.root)
    ensures IsChain(v.fat, w) && w[0] == v.root
  {
    ChainOf(v.fat, v.root)
  }

  ghost predicate Rooted(v: Vol) {
    Shape(v) && HasChain(v.fat, v.root)
  }

  ghost function RootSlots(v: Vol): (r: seq<Slot>)
    requires Rooted(v)
    ensures AllSlots(r)
  {
    Slots(Flat(v.data, RootChain(v)))
  }

  ghost function LayoutOf(v: Vol): Layout
    requires Rooted(v)
  {
    Layout(v.fat, RootChain(v), RootSlots(v))
  }

  /**
   A well-formed volume: the root and the live slots own chains that stop and share no cluster,
   short names are upper case and padded, and nothing lies behind the end mark.
   */
  ghost predicate WF(v: Vol) {
    Rooted(v) && Sound(LayoutOf(v))
  }

  // ---------------------------------------------------------------------------
  // Bytes of chains
  // ---------------------------------------------------------------------------

  lemma {:induction false} FlatSame(data: seq<seq<Byte>>, now: seq<seq<Byte>>, w: seq<nat>)
    requires Within(data, w) && |now| == |data| && forall i :: 0 <= i < |w| ==> now[w[i]] == data[w[i]]
    ensures Flat(now, w) == Flat(data, w)
  {
    if w != [] {
      FlatSame(data, now, w[..|w| - 1]);
    }
  }

  lemma {:induction false} FlatConcat(data: seq<seq<Byte>>, a: seq<nat>, b: seq<nat>)
    requires Within(data, a) && Within(data, b)
    ensures Within(data, a + b) && Flat(data, a + b) == Flat(data, a) + Flat(data, b)
  {
    assert Within(data, a + b);
    if b == [] {
      assert a + b == a;
    } else {
      var c := b[..|b| - 1];
      FlatConcat(data, a, c);
      assert (a + b)[..|a + b| - 1] == a + c;
    }
  }

  lemma {:induction false} FlatAligned(v: Vol, w: seq<nat>)
    requires Shape(v) && forall i :: 0 <= i < |w| ==> IsCluster(v.fat, w[i])
    ensures Within(v.data, w) && |Flat(v.data, w)| % SLOT == 0
  {
    if w != [] {
      FlatAligned(v, w[..|w| - 1]);
      assert IsCluster(v.fat, w[|w| - 1]);
    }
  }

  /** A run of bytes with the slot at index `k` overwritten. */
  function WithSlot(b: seq<Byte>, k: nat, x: Slot): (r: seq<Byte>)
    requires |x| == SLOT && SLOT * k + SLOT <= |b|
    ensures |r| == |b|
  {
    b[..SLOT * k] + x + b[SLOT * k + SLOT..]
  }

  lemma WithSlotSlots(b: seq<Byte>, k: nat, x: Slot)
    requires |x| == SLOT && |b| % SLOT == 0 && SLOT * k + SLOT <= |b|
    ensures Slots(WithSlot(b, k, x)) == Slots(b)[k := x]
  {
    var r := WithSlot(b, k, x);
    forall t | 0 <= t < |b| / SLOT ensures Slots(r)[t] == Slots(b)[k := x][t] {
      if t < k {
        assert r[SLOT * t..SLOT * t + SLOT] == b[SLOT * t..SLOT * t + SLOT];
      } else if t > k {
        assert r[SLOT * t..SLOT * t + SLOT] == b[SLOT * t..SLOT * t + SLOT];
      } else {
        assert r[SLOT * t..SLOT * t + SLOT] == x;
      }
    }
  }

  /** The number of root slots in front of the `j`th root cluster. */
  ghost function Before(v: Vol, w: seq<nat>, j: nat): nat
    requires Within(v.data, w) && j <= |w|
  {
    |Slots(Flat(v.data, w[..j]))|
  }

  lemma FlatSplit(data: seq<seq<Byte>>, w: seq<nat>, j: nat)
    requires Within(data, w) && j < |w|
    ensures Flat(data, w) == Flat(data, w[..j]) + data[w[j]] + Flat(data, w[j + 1..])
  {
    var a := w[..j + 1];
    assert w == a + w[j + 1..];
    assert a[..j] == w[..j];
    FlatConcat(data, a, w[j + 1..]);
  }

  /** The slots of a chain, split at one of its clusters. */
  lemma SlotsSplit(v: Vol, w: seq<nat>, j: nat)
    requires Shape(v) && j < |w| && forall i :: 0 <= i < |w| ==> IsCluster(v.fat, w[i])
    ensures Within(v.data, w)
    ensures Slots(Flat(v.data, w)) ==
            Slots(Flat(v.data, w[..j])) + Slots(v.data[w[j]]) + Slots(Flat(v.data, w[j + 1..]))
  {
    hide Flat;
    FlatAligned(v, w);
    FlatAligned(v, w[..j]);
    FlatSplit(v.data, w, j);
    assert IsCluster(v.fat, w[j]);
    var a, b, c := Flat(v.data, w[..j]), v.data[w[j]], Flat(v.data, w[j + 1..]);
    SlotsThree(a, b, c);
  }

  lemma SlotsThree(a: seq<Byte>, b: seq<Byte>, c: seq<Byte>)
    requires |a| % SLOT == 0 && |b| % SLOT == 0
    ensures Slots(a + b + c) == Slots(a) + Slots(b) + Slots(c)
  {
    SlotsConcat(a, b);
    SlotsConcat(a + b, c);
  }

  /** Overwriting a slot of one cluster overwrites one slot of the directory. */
  lemma PutSlots(v: Vol, w: seq<nat>, j: nat, k: nat, x: Slot)
    requires Shape(v) && Distinct(w) && j < |w| && forall i :: 0 <= i < |w| ==> IsCluster(v.fat, w[i])
    requires |x| == SLOT && SLOT * k + SLOT <= v.size
    ensures Within(v.data, w)
    ensures var now := v.data[w[j] := WithSlot(v.data[w[j]], k, x)];
            && Before(v, w, j) + k < |Slots(Flat(v.data, w))|
            && Slots(Flat(now, w)) == Slots(Flat(v.data, w))[Before(v, w, j) + k := x]
            && Slots(Flat(v.data, w))[Before(v, w, j) + k] == Slots(v.data[w[j]])[k]
  {
    hide Flat;
    assert IsCluster(v.fat, w[j]);
    var now := v.data[w[j] := WithSlot(v.data[w[j]], k, x)];
    var v' := v.(data := now);
    SlotsSplit(v, w, j);
    SlotsSplit(v', w, j);
    FlatSame(v.data, now, w[..j]);
    FlatSame(v.data, now, w[j + 1..]);
    WithSlotSlots(v.data[w[j]], k, x);
  }
}
