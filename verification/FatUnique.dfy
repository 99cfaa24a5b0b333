/**
 One slot per name in the root directory: when a create of kernel/src/drivers/fat32.rs keeps it so,
 and when not.
 */
module FatUnique {
  import opened Options
  import opened FatChains
  import opened FatNames
  import opened FatDirectory
  import opened FatLayout
  import opened FatVolume
  import opened FatFiles
  import opened FatTheorems

  ghost predicate UniqueNames(slots: seq<Slot>)
    requires AllSlots(slots)
  {
    forall t, u :: 0 <= t < u < |slots| && Live(slots[t]) && Matches(slots[u], NameOf(slots[t])) ==> IsLongName(slots[t])
  }

  lemma PutUnique(slots: seq<Slot>, s: nat, x: Slot, n: seq<Byte>)
    requires AllSlots(slots) && s < |slots| && |x| == SLOT && Matches(x, n) && UniqueNames(slots)
    requires AllSlots(slots[s := x])
    ensures UniqueNames(slots[s := x]) <==> Matches(slots[s], n) || forall t :: 0 <= t < |slots| ==> !Matches(slots[t], n)
  {
    var now := slots[s := x];
    if t :| 0 <= t < |slots| && Matches(slots[t], n) && !Matches(slots[s], n) {
      assert now[t] == slots[t] && now[s] == x;
    } else if Matches(slots[s], n) {
      forall t, u | 0 <= t < u < |now| && Live(now[t]) && Matches(now[u], NameOf(now[t])) ensures IsLongName(now[t]) {
        assert Matches(slots[u], NameOf(slots[t]));
      }
    }
  }

  /** Slot `k` of root cluster `j`. */
  ghost predicate IsAt(v: Vol, j: nat, k: nat)
    requires Rooted(v)
  {
    j < |RootChain(v)| && SLOT * k + SLOT <= v.size
  }

  ghost function At(v: Vol, j: nat, k: nat): (s: Slot)
    requires Rooted(v) && IsAt(v, j, k)
    ensures |s| == SLOT
  {
    SlotAt(v, j, k);
    Slots(v.data[RootChain(v)[j]])[k]
  }

  /**
   No root cluster in front of one that holds the name has a deleted slot to offer; a caller can
   tell before the call.
   */
  ghost predicate NoGapBefore(v: Vol, n: seq<Byte>)
    requires Rooted(v)
  {
    forall j: nat, k: nat, i: nat, t: nat ::
      IsAt(v, j, k) && Matches(At(v, j, k), n) && i < j && IsAt(v, i, t) ==> !Reusable(At(v, i, t))
  }

  /** The slots of later clusters come later. */
  lemma {:induction false} Later(v: Vol, i: nat, j: nat)
    requires Rooted(v) && i < j <= |RootChain(v)|
    ensures Within(v.data, RootChain(v))
    ensures Before(v, RootChain(v), i) + v.size / SLOT <= Before(v, RootChain(v), j)
    decreases j
  {
    hide Flat, Slots;
    var rc := RootChain(v);
    FlatAligned(v, rc);
    FlatAligned(v, rc[..j - 1]);
    assert rc[..j] == rc[..j - 1] + [rc[j - 1]];
    FlatTail(v.data, rc[..j - 1], rc[j - 1]);
    SlotsConcat(Flat(v.data, rc[..j - 1]), v.data[rc[j - 1]]);
    assert IsCluster(v.fat, rc[j - 1]);
    if i < j - 1 {
      Later(v, i, j - 1);
    }
  }

  lemma SlotFits(v: Vol, j: nat, k: nat)
    requires Rooted(v) && IsAt(v, j, k)
    ensures k < v.size / SLOT && SlotIndex(v, j, k) < |RootSlots(v)| && RootSlots(v)[SlotIndex(v, j, k)] == At(v, j, k)
  {
    hide Flat;
    SlotAt(v, j, k);
  }

  /** Different places are different slots of the directory. */
  lemma OnePlace(v: Vol, j: nat, k: nat, j': nat, k': nat)
    requires Rooted(v) && IsAt(v, j, k) && IsAt(v, j', k')
    ensures SlotIndex(v, j, k) == SlotIndex(v, j', k') ==> j == j' && k == k'
    ensures SlotIndex(v, j, k) < SlotIndex(v, j', k') ==> j <= j'
    ensures j < j' ==> SlotIndex(v, j, k) < SlotIndex(v, j', k')
  {
    hide Flat, Slots;
    SlotFits(v, j, k);
    SlotFits(v, j', k');
    if j < j' {
      Later(v, j, j');
    } else if j' < j {
      Later(v, j', j);
    }
  }

  /** Every slot of the directory has its place. */
  lemma Place(v: Vol, t: nat) returns (j: nat, k: nat)
    requires Rooted(v) && t < |RootSlots(v)|
    ensures IsAt(v, j, k) && SlotIndex(v, j, k) == t
  {
    var rc := RootChain(v);
    assert rc[..|rc|] == rc;
    j, k := PlaceIn(v, |rc|, t);
  }

  lemma {:induction false} PlaceIn(v: Vol, n: nat, t: nat) returns (j: nat, k: nat)
    requires Rooted(v) && n <= |RootChain(v)| && Within(v.data, RootChain(v)) && t < Before(v, RootChain(v), n)
    ensures IsAt(v, j, k) && SlotIndex(v, j, k) == t
    decreases n
  {
    hide Flat, Slots;
    var rc := RootChain(v);
    assert n > 0 by { EmptySlots(v); assert rc[..0] == []; }
    FlatAligned(v, rc[..n - 1]);
    assert rc[..n] == rc[..n - 1] + [rc[n - 1]];
    FlatTail(v.data, rc[..n - 1], rc[n - 1]);
    SlotsConcat(Flat(v.data, rc[..n - 1]), v.data[rc[n - 1]]);
    assert IsCluster(v.fat, rc[n - 1]);
    if t < Before(v, rc, n - 1) {
      j, k := PlaceIn(v, n - 1, t);
    } else {
      j, k := n - 1, t - Before(v, rc, n - 1);
    }
  }

  /** The clusters in front of the chosen one offer nothing. */
  lemma NothingBefore(v: Vol, n: seq<Byte>, j: nat, k: nat, i: nat, t: nat)
    requires Choice(v, n, j, k) && i < j && IsAt(v, i, t)
    ensures !Stops(At(v, i, t), n) && !Reusable(At(v, i, t))
  {
    hide Flat, Stops, Reusable;
    var rc := RootChain(v);
    var w := rc[..j];
    SlotAt(v, i, t);
    SlotsSplit(v, w, i);
    assert w[..i] == rc[..i] && w[i] == rc[i];
    var pre := Slots(Flat(v.data, rc[..i]));
    assert Slots(Flat(v.data, w))[|pre| + t] == At(v, i, t);
  }

  /** The slot taken is the match, or there is none, if and only if no gap lies in front of the match. */
  lemma ChoiceGap(v: Vol, n: seq<Byte>, j: nat, k: nat)
    requires WF(v) && UniqueNames(RootSlots(v)) && Choice(v, n, j, k)
    ensures IsAt(v, j, k)
    ensures NoGapBefore(v, n) <==>
            Matches(At(v, j, k), n) || forall t :: 0 <= t < |RootSlots(v)| ==> !Matches(RootSlots(v)[t], n)
  {
    hide Sound, RootSlots, RootChain, Flat, Slots, Matches, Reusable, UniqueNames, SlotIndex, NoChoice, At;
    if Matches(At(v, j, k), n) {
      forall j': nat, k': nat, i: nat, t: nat
        | IsAt(v, j', k') && Matches(At(v, j', k'), n) && i < j' && IsAt(v, i, t)
        ensures !Reusable(At(v, i, t))
      {
        SlotFits(v, j, k);
        SlotFits(v, j', k');
        UniqueMatch(RootSlots(v), n, SlotIndex(v, j, k), SlotIndex(v, j', k'));
        OnePlace(v, j, k, j', k');
        NothingBefore(v, n, j, k, i, t);
      }
    } else if forall t :: 0 <= t < |RootSlots(v)| ==> !Matches(RootSlots(v)[t], n) {
      forall j': nat, k': nat | IsAt(v, j', k') ensures !Matches(At(v, j', k'), n) {
        SlotFits(v, j', k');
      }
    } else {
      var t :| 0 <= t < |RootSlots(v)| && Matches(RootSlots(v)[t], n);
      var j', k' := Place(v, t);
      SlotFits(v, j', k');
      GapTaken(v, n, j, k, j', k');
      assert Reusable(At(v, j, k));
    }
  }

  lemma UniqueMatch(slots: seq<Slot>, n: seq<Byte>, t: nat, u: nat)
    requires AllSlots(slots) && UniqueNames(slots) && t < |slots| && u < |slots|
    requires Matches(slots[t], n) && Matches(slots[u], n)
    ensures t == u
  {
    assert Matches(slots[u], NameOf(slots[t])) && Matches(slots[t], NameOf(slots[u]));
  }

  /** A choice that passes over a match is a deleted slot in an earlier cluster. */
  lemma GapTaken(v: Vol, n: seq<Byte>, j: nat, k: nat, j': nat, k': nat)
    requires WF(v) && Choice(v, n, j, k) && IsAt(v, j', k')
    requires Matches(At(v, j', k'), n) && !Matches(At(v, j, k), n)
    ensures j < j' && Reusable(At(v, j, k))
  {
    hide Sound, RootSlots, RootChain, Flat, SlotIndex;
    ChoiceFacts(v, n, j, k);
    SlotFits(v, j, k);
    SlotFits(v, j', k');
    OnePlace(v, j, k, j', k');
    OnePlace(v, j', k', j, k);
    SoundTail(v);
    assert !(SlotIndex(v, j', k') < SlotIndex(v, j, k));
    assert SlotIndex(v, j, k) < SlotIndex(v, j', k');
    assert !AtEnd(At(v, j, k));
    assert j' == j ==> !Stops(Slots(v.data[RootChain(v)[j]])[k'], n);
  }

  /**
   A create leaves at most one slot per name if and only if no root cluster in front of the one
   that holds the name has a deleted slot: such a slot is taken in preference to the match.
   */
  lemma CreateUnique(v: Vol, name: seq<Byte>, b: seq<Byte>, tr: Trace, v3: Vol)
    requires WF(v) && Pack(name).Some? && Created(v, Pack(name).value, b, tr, v3) && UniqueNames(RootSlots(v))
    ensures WF(v3) && (UniqueNames(RootSlots(v3)) <==> NoGapBefore(v, Pack(name).value))
  {
    hide Sound, IsLost, SlotChain, RootSlots, RootChain, OwnedApart, Stored, Display, Slots, Matches, Pack, UniqueNames, NoChoice, NoGapBefore, Shape, PutAt, Choice, SlotIndex;
    var n := Pack(name).value;
    CreateSound(v, name, b, tr, v3);
    TakenUnique(v, name, b, tr, v3);
    StoredSound(v, tr.w, b, tr.v1);
    SameGaps(v, tr.w, b, tr.v1, n);
    assert RootSlots(tr.v1) == LayoutOf(tr.v1).slots == RootSlots(v);
    if tr.grown.Some? {
      NoMatchNoGap(tr.v1, n);
    } else {
      ChoiceGap(tr.v1, n, tr.j, tr.k);
      SlotFits(tr.v1, tr.j, tr.k);
    }
  }

  lemma NoMatchNoGap(v: Vol, n: seq<Byte>)
    requires Rooted(v) && NoChoice(RootSlots(v), n)
    ensures NoGapBefore(v, n) && forall t :: 0 <= t < |RootSlots(v)| ==> !Matches(RootSlots(v)[t], n)
  {
    hide RootSlots, RootChain, Matches, At, SlotIndex;
    forall t | 0 <= t < |RootSlots(v)| ensures !Matches(RootSlots(v)[t], n) {
      assert !Stops(RootSlots(v)[t], n);
    }
    forall j: nat, k: nat | IsAt(v, j, k) ensures !Matches(At(v, j, k), n) {
      SlotFits(v, j, k);
    }
  }

  lemma SameGaps(v: Vol, w: seq<nat>, b: seq<Byte>, v1: Vol, n: seq<Byte>)
    requires WF(v) && Stored(v, w, b, v1) && WF(v1)
    ensures NoGapBefore(v1, n) <==> NoGapBefore(v, n)
  {
    hide Sound, IsLost, SlotChain, RootSlots, RootChain, OwnedApart, Slots, Matches, Reusable, Written, Linked, Fresh, Chunks;
    StoredSound(v, w, b, v1);
    StoredRoot(v, w, b, v1);
    assert RootChain(v1) == LayoutOf(v1).root == RootChain(v);
    forall j: nat, k: nat ensures IsAt(v1, j, k) <==> IsAt(v, j, k) {
    }
    forall j: nat, k: nat | IsAt(v, j, k) ensures At(v1, j, k) == At(v, j, k) {
    }
  }

  /** In terms of the slot taken. */
  lemma TakenUnique(v: Vol, name: seq<Byte>, b: seq<Byte>, tr: Trace, v3: Vol)
    requires WF(v) && Pack(name).Some? && Created(v, Pack(name).value, b, tr, v3) && UniqueNames(RootSlots(v))
    ensures WF(tr.v2) && SlotIndex(tr.v2, tr.j, tr.k) < |RootSlots(tr.v2)| && WF(v3)
    ensures UniqueNames(RootSlots(v3)) <==>
            Matches(RootSlots(tr.v2)[SlotIndex(tr.v2, tr.j, tr.k)], Pack(name).value)
            || forall t :: 0 <= t < |RootSlots(v)| ==> !Matches(RootSlots(v)[t], Pack(name).value)
  {
    hide Sound, IsLost, SlotChain, RootSlots, RootChain, OwnedApart, Puttable, Entry, SlotIndex, PutAt, Stored, Display, Slots, Matches, Pack, UniqueNames, MadeRoom, NoChoice, IsChoice, Flat, Shape;
    var n := Pack(name).value;
    StoredSound(v, tr.w, b, tr.v1);
    StoredAside(v, tr.w, b, tr.v1);
    RoomSound(tr.v1, tr.w, n, tr.grown, tr.v2);
    assert RootSlots(tr.v1) == LayoutOf(tr.v1).slots == RootSlots(v);
    RoomUnique(tr.v1, n, tr.grown, tr.v2);
    var size := |b| % 0x1_0000_0000;
    var x := Entry(n, FirstOf(tr.w), size);
    EntryStep(tr.v2, name, tr.w, size, tr.j, tr.k, v3);
    EntryPuttable(tr.v2, name, tr.w, size);
    PutSoundVol(tr.v2, tr.j, tr.k, x, tr.w, v3);
    var s := SlotIndex(tr.v2, tr.j, tr.k);
    assert RootSlots(v3) == LayoutOf(v3).slots == RootSlots(tr.v2)[s := x];
    EntryMatches(n, FirstOf(tr.w), size);
    PutUnique(RootSlots(tr.v2), s, x, n);
  }

  lemma EntryMatches(n: seq<Byte>, first: nat, size: nat)
    requires |n| == 11 && size < 0x1_0000_0000
    ensures Live(Entry(n, first, size)) ==> Matches(Entry(n, first, size), n)
  {
    var x := Entry(n, first, size);
    assert x[..11] == n;
    assert x[11] == 0x20;
  }

  /** Room is made without a match, and without a duplicate. */
  lemma RoomUnique(v1: Vol, n: seq<Byte>, grown: Option<nat>, v2: Vol)
    requires WF(v1) && MadeRoom(v1, n, grown, v2) && WF(v2) && UniqueNames(RootSlots(v1))
    ensures UniqueNames(RootSlots(v2))
    ensures (forall t :: 0 <= t < |RootSlots(v2)| ==> !Matches(RootSlots(v2)[t], n)) <==>
            (forall t :: 0 <= t < |RootSlots(v1)| ==> !Matches(RootSlots(v1)[t], n))
  {
    hide Sound, RootSlots, RootChain, Slots;
    if grown.Some? {
      GrownDirectory(v1, grown.value);
      ShapeFacts(v1);
      ZeroSlots(v1.size);
      var more := Slots(Zeros(v1.size));
      forall t | |RootSlots(v1)| <= t < |RootSlots(v2)| ensures !Live(RootSlots(v2)[t]) {
        assert RootSlots(v2)[t] == more[t - |RootSlots(v1)|];
      }
      forall t | 0 <= t < |RootSlots(v1)| ensures RootSlots(v2)[t] == RootSlots(v1)[t] {
      }
    }
  }

  /** In a root of one cluster a create never makes a duplicate. */
  lemma OneClusterUnique(v: Vol, n: seq<Byte>, k: nat)
    requires WF(v) && |RootChain(v)| == 1 && Choice(v, n, 0, k)
    ensures var slots := RootSlots(v);
            SlotIndex(v, 0, k) < |slots|
            && (Matches(slots[SlotIndex(v, 0, k)], n) || forall t :: 0 <= t < |slots| ==> !Matches(slots[t], n))
  {
    hide Sound, RootSlots, NoChoice, IsChoice, Matches, ZeroTail;
    OneCluster(v, k);
    SoundTail(v);
    ChoiceClean(RootSlots(v), n, k);
  }

  lemma SoundTail(v: Vol)
    requires WF(v)
    ensures ZeroTail(RootSlots(v))
  {
    hide RootSlots, SlotOk, Separate;
    assert ZeroTail(LayoutOf(v).slots);
  }

  lemma OneCluster(v: Vol, k: nat)
    requires Rooted(v) && |RootChain(v)| == 1
    ensures RootChain(v)[0] < |v.data| && RootSlots(v) == Slots(v.data[RootChain(v)[0]]) && SlotIndex(v, 0, k) == k
  {
    hide Flat, Slots, RootChain;
    var rc := RootChain(v);
    SlotsSplit(v, rc, 0);
    assert rc[..0] == [] && rc[1..] == [];
    EmptySlots(v);
  }

  lemma ChoiceClean(slots: seq<Slot>, n: seq<Byte>, k: nat)
    requires AllSlots(slots) && ZeroTail(slots) && IsChoice(slots, n, k)
    ensures Matches(slots[k], n) || forall t :: 0 <= t < |slots| ==> !Matches(slots[t], n)
  {
    if !Matches(slots[k], n) {
      forall t | 0 <= t < |slots| ensures !Matches(slots[t], n) {
        if AtEnd(slots[k]) && t > k {
          assert AtEnd(slots[t]);
        } else {
          assert !Stops(slots[t], n) || t == k;
        }
      }
    }
  }

  lemma EmptySlots(v: Vol)
    ensures Slots(Flat(v.data, [])) == []
  {
  }
}
