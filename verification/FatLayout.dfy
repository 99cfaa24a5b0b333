/**
 A well-formed root directory over a file allocation table: the root chain and the chains of the
 live slots share no cluster.  Each change that kernel/src/drivers/fat32.rs makes keeps it so, and
 accounts for every cluster.
 */
module FatLayout {
  import opened FatChains
  import opened FatNames
  import opened FatDirectory

  /** The chain that a slot owns; a slot that is not live, or an empty file, owns none. */
  ghost function SlotChain(fat: Fat, s: Slot): (w: seq<nat>)
    requires |s| == SLOT
    ensures w != [] ==> IsChain(fat, w) && w[0] == ClusterOf(s)
  {
    if Live(s) && ClusterOf(s) >= 2 && HasChain(fat, ClusterOf(s)) then ChainOf(fat, ClusterOf(s)) else []
  }

  ghost predicate SlotOk(fat: Fat, s: Slot)
    requires |s| == SLOT
  {
    Live(s) ==>
      && !IsLongName(s)
      && (IsLabel(s) || Canonical(NameOf(s)))
      && (ClusterOf(s) < 2 || HasChain(fat, ClusterOf(s)))
  }

  datatype Layout = Layout(fat: Fat, root: seq<nat>, slots: seq<Slot>)

  ghost predicate Separate(l: Layout)
    requires AllSlots(l.slots)
  {
    && (forall t :: 0 <= t < |l.slots| ==> Apart(SlotChain(l.fat, l.slots[t]), l.root))
    && (forall t, u :: 0 <= t < u < |l.slots| ==> Apart(SlotChain(l.fat, l.slots[t]), SlotChain(l.fat, l.slots[u])))
  }

  ghost predicate Sound(l: Layout) {
    && |l.fat| <= BAD_CLUSTER
    && IsChain(l.fat, l.root)
    && AllSlots(l.slots) && ZeroTail(l.slots)
    && (forall t :: 0 <= t < |l.slots| ==> SlotOk(l.fat, l.slots[t]))
    && Separate(l)
  }

  /** Clusters in use that belong neither to the root nor to a live slot. */
  ghost predicate IsLost(l: Layout, c: nat)
    requires AllSlots(l.slots)
  {
    && IsCluster(l.fat, c) && l.fat[c] != 0 && c !in l.root
    && forall t :: 0 <= t < |l.slots| ==> c !in SlotChain(l.fat, l.slots[t])
  }

  // ---------------------------------------------------------------------------
  // Frames
  // ---------------------------------------------------------------------------

  lemma SlotFrame(fat: Fat, now: Fat, s: Slot)
    requires |s| == SLOT && SlotOk(fat, s) && Agree(fat, now, SlotChain(fat, s))
    ensures SlotOk(now, s) && SlotChain(now, s) == SlotChain(fat, s)
  {
    hide Canonical, Live, IsLabel, IsLongName, ClusterOf;
    var w := SlotChain(fat, s);
    if w != [] {
      ChainFrame(fat, now, w);
      ChainIs(now, w);
    }
  }

  ghost predicate OwnedApart(l: Layout, w: seq<nat>)
    requires AllSlots(l.slots)
  {
    Apart(w, l.root) && forall t :: 0 <= t < |l.slots| ==> Apart(w, SlotChain(l.fat, l.slots[t]))
  }

  /** The chains whose entries are left alone are all still there. */
  lemma AllSlotsFrame(l: Layout, now: Fat)
    requires Sound(l) && |now| == |l.fat|
    requires forall t :: 0 <= t < |l.slots| ==> Agree(l.fat, now, SlotChain(l.fat, l.slots[t]))
    ensures forall t :: 0 <= t < |l.slots| ==> SlotOk(now, l.slots[t])
    ensures forall t :: 0 <= t < |l.slots| ==> SlotChain(now, l.slots[t]) == SlotChain(l.fat, l.slots[t])
  {
    hide SlotOk, SlotChain;
    forall t | 0 <= t < |l.slots|
      ensures SlotOk(now, l.slots[t]) && SlotChain(now, l.slots[t]) == SlotChain(l.fat, l.slots[t])
    {
      SlotFrame(l.fat, now, l.slots[t]);
    }
  }

  /** Free clusters are in no chain. */
  lemma FreshApart(l: Layout, w: seq<nat>)
    requires Sound(l) && forall i :: 0 <= i < |w| ==> IsFree(l.fat, w[i])
    ensures OwnedApart(l, w)
  {
    hide SlotOk;
    forall i, j | 0 <= i < |w| && 0 <= j < |l.root| ensures w[i] != l.root[j] {
      ChainNotFree(l.fat, l.root, j);
      assert IsFree(l.fat, w[i]);
    }
    forall t | 0 <= t < |l.slots| ensures Apart(w, SlotChain(l.fat, l.slots[t])) {
      var ch := SlotChain(l.fat, l.slots[t]);
      forall i, j | 0 <= i < |w| && 0 <= j < |ch| ensures w[i] != ch[j] {
        ChainNotFree(l.fat, ch, j);
        assert IsFree(l.fat, w[i]);
      }
    }
  }

  // ---------------------------------------------------------------------------
  // A chain is allocated
  // ---------------------------------------------------------------------------

  /** Entries that change only on free clusters disturb no chain. */
  lemma TakenSound(l: Layout, w: seq<nat>, now: Fat)
    requires Sound(l) && |now| == |l.fat| && forall i :: 0 <= i < |w| ==> IsFree(l.fat, w[i])
    requires forall c :: 0 <= c < |l.fat| && c !in w ==> now[c] == l.fat[c]
    ensures Sound(l.(fat := now)) && OwnedApart(l.(fat := now), w)
    ensures forall t :: 0 <= t < |l.slots| ==> SlotChain(now, l.slots[t]) == SlotChain(l.fat, l.slots[t])
  {
    hide SlotOk, SlotChain;
    FreshApart(l, w);
    assert Agree(l.fat, now, l.root);
    ChainFrame(l.fat, now, l.root);
    AllSlotsFrame(l, now);
  }

  /** Linking a fresh chain disturbs no other; its clusters are in use and not yet owned. */
  lemma AllocSound(l: Layout, w: seq<nat>, now: Fat)
    requires Sound(l) && Fresh(l.fat, w) && Linked(l.fat, w, now)
    ensures Sound(l.(fat := now)) && OwnedApart(l.(fat := now), w)
    ensures forall t :: 0 <= t < |l.slots| ==> SlotChain(now, l.slots[t]) == SlotChain(l.fat, l.slots[t])
    ensures forall c: nat :: IsLost(l.(fat := now), c) <==> IsLost(l, c) || c in w
  {
    hide SlotOk, SlotChain;
    FreshApart(l, w);
    TakenSound(l, w, now);
    var m := l.(fat := now);
    forall c: nat ensures IsLost(m, c) <==> IsLost(l, c) || c in w {
      AllocLost(l, w, now, c);
    }
  }

  lemma AllocLost(l: Layout, w: seq<nat>, now: Fat, c: nat)
    requires Sound(l) && Fresh(l.fat, w) && Linked(l.fat, w, now) && OwnedApart(l, w)
    requires forall t :: 0 <= t < |l.slots| ==> SlotChain(now, l.slots[t]) == SlotChain(l.fat, l.slots[t])
    ensures IsLost(l.(fat := now), c) <==> IsLost(l, c) || c in w
  {
    hide SlotOk, SlotChain;
    if c in w {
      var i :| 0 <= i < |w| && w[i] == c;
      assert IsFree(l.fat, w[i]) && now[w[i]] == LinkAt(w, i);
      if i + 1 < |w| {
        assert IsFree(l.fat, w[i + 1]);
      }
      forall t | 0 <= t < |l.slots| ensures c !in SlotChain(now, l.slots[t]) {
        assert Apart(w, SlotChain(l.fat, l.slots[t]));
      }
    }
  }

  // ---------------------------------------------------------------------------
  // The root grows
  // ---------------------------------------------------------------------------

  ghost function GrownLayout(l: Layout, g: nat, more: seq<Slot>): Layout
    requires IsChain(l.fat, l.root) && IsFree(l.fat, g)
  {
    Layout(Grown(l.fat, l.root, g), l.root + [g], l.slots + more)
  }

  ghost predicate AllEnds(slots: seq<Slot>) {
    forall t :: 0 <= t < |slots| ==> |slots[t]| == SLOT && AtEnd(slots[t])
  }

  lemma DeadOwnsNothing(fat: Fat, s: Slot)
    requires |s| == SLOT && !Live(s)
    ensures SlotChain(fat, s) == [] && SlotOk(fat, s)
  {
  }

  /** A directory without an end mark, grown by a cluster of end marks. */
  lemma GrowSound(l: Layout, g: nat, more: seq<Slot>)
    requires Sound(l) && IsFree(l.fat, g) && AllEnds(more)
    requires forall t :: 0 <= t < |l.slots| ==> !AtEnd(l.slots[t])
    ensures Sound(GrownLayout(l, g, more))
    ensures forall t :: 0 <= t < |l.slots| ==>
              SlotChain(GrownLayout(l, g, more).fat, l.slots[t]) == SlotChain(l.fat, l.slots[t])
  {
    hide SlotOk, SlotChain;
    var m := GrownLayout(l, g, more);
    GrownChain(l.fat, l.root, g);
    FreshApart(l, [g]);
    forall t | 0 <= t < |l.slots| ensures Agree(l.fat, m.fat, SlotChain(l.fat, l.slots[t])) {
      GrowAgree(l, g, SlotChain(l.fat, l.slots[t]));
    }
    AllSlotsFrame(l, m.fat);
    forall t | 0 <= t < |m.slots|
      ensures IsSlot(m.slots[t]) && SlotOk(m.fat, m.slots[t])
      ensures SlotChain(m.fat, m.slots[t]) == if t < |l.slots| then SlotChain(l.fat, l.slots[t]) else []
      ensures t >= |l.slots| ==> AtEnd(m.slots[t])
    {
      if t >= |l.slots| {
        DeadOwnsNothing(m.fat, m.slots[t]);
      }
    }
    GrowSeparate(l, g, more);
  }

  lemma GrowAgree(l: Layout, g: nat, w: seq<nat>)
    requires IsChain(l.fat, l.root) && IsFree(l.fat, g) && Apart(w, l.root) && Apart([g], w)
    ensures Agree(l.fat, Grown(l.fat, l.root, g), w)
  {
    forall i | 0 <= i < |w| && w[i] < |l.fat| ensures Grown(l.fat, l.root, g)[w[i]] == l.fat[w[i]] {
      assert w[i] != l.root[|l.root| - 1];
      assert [g][0] != w[i];
    }
  }

  lemma GrowSeparate(l: Layout, g: nat, more: seq<Slot>)
    requires Sound(l) && IsFree(l.fat, g) && AllSlots(l.slots + more) && OwnedApart(l, [g])
    requires forall t :: 0 <= t < |l.slots + more| ==>
               SlotChain(Grown(l.fat, l.root, g), (l.slots + more)[t]) ==
               if t < |l.slots| then SlotChain(l.fat, l.slots[t]) else []
    ensures Separate(GrownLayout(l, g, more))
  {
    hide SlotOk, SlotChain;
    var m := GrownLayout(l, g, more);
    forall t | 0 <= t < |m.slots| ensures Apart(SlotChain(m.fat, m.slots[t]), m.root) {
      if t < |l.slots| {
        assert Apart([g], SlotChain(l.fat, l.slots[t]));
        assert [g][0] == g;
      }
    }
  }

  lemma GrowLost(l: Layout, g: nat, more: seq<Slot>, c: nat)
    requires Sound(l) && IsFree(l.fat, g) && AllEnds(more)
    requires forall t :: 0 <= t < |l.slots| ==> !AtEnd(l.slots[t])
    ensures Sound(GrownLayout(l, g, more)) && (IsLost(GrownLayout(l, g, more), c) <==> IsLost(l, c))
  {
    hide SlotOk, SlotChain;
    GrowSound(l, g, more);
    var m := GrownLayout(l, g, more);
    forall t | |l.slots| <= t < |m.slots| ensures SlotChain(m.fat, m.slots[t]) == [] {
      assert AtEnd(more[t - |l.slots|]);
      DeadOwnsNothing(m.fat, m.slots[t]);
    }
    forall t | 0 <= t < |l.slots| ensures m.slots[t] == l.slots[t] {
    }
    if c == l.root[|l.root| - 1] {
      assert c in l.root && c in m.root;
    } else if c == g {
      assert m.root[|l.root|] == g;
    } else {
      assert IsCluster(l.fat, c) ==> m.fat[c] == l.fat[c];
    }
  }

  // ---------------------------------------------------------------------------
  // A slot is written
  // ---------------------------------------------------------------------------

  /** A slot that may be put into the directory: dead, or with a chain that nobody owns. */
  ghost predicate Puttable(l: Layout, x: Slot, w: seq<nat>)
    requires AllSlots(l.slots)
  {
    && |x| == SLOT && SlotOk(l.fat, x) && SlotChain(l.fat, x) == w && OwnedApart(l, w)
  }

  /** Slot `s` is overwritten by `x` and its own chain is freed. */
  ghost function PutLayout(l: Layout, s: nat, x: Slot, now: Fat): Layout
    requires s < |l.slots|
  {
    Layout(now, l.root, l.slots[s := x])
  }

  /** The end marks are still behind everything. */
  ghost predicate TailKept(l: Layout, s: nat, x: Slot)
    requires AllSlots(l.slots) && s < |l.slots| && |x| == SLOT
  {
    !AtEnd(x) && forall t :: 0 <= t < s ==> !AtEnd(l.slots[t])
  }

  lemma PutChains(l: Layout, s: nat, x: Slot, w: seq<nat>, now: Fat)
    requires Sound(l) && s < |l.slots| && Puttable(l, x, w) && Zeroed(l.fat, SlotChain(l.fat, l.slots[s]), now)
    ensures IsChain(now, l.root)
    ensures SlotOk(now, x) && SlotChain(now, x) == w
    ensures forall t :: 0 <= t < |l.slots| && t != s ==> SlotOk(now, l.slots[t])
    ensures forall t :: 0 <= t < |l.slots| && t != s ==> SlotChain(now, l.slots[t]) == SlotChain(l.fat, l.slots[t])
  {
    hide SlotOk, SlotChain;
    var old_ := SlotChain(l.fat, l.slots[s]);
    ZeroAgree(l.fat, old_, now, l.root);
    ChainFrame(l.fat, now, l.root);
    assert Apart(w, old_);
    ZeroAgree(l.fat, old_, now, w);
    SlotFrame(l.fat, now, x);
    forall t | 0 <= t < |l.slots| && t != s
      ensures SlotOk(now, l.slots[t]) && SlotChain(now, l.slots[t]) == SlotChain(l.fat, l.slots[t])
    {
      var w' := SlotChain(l.fat, l.slots[t]);
      assert Apart(w', old_) by {
        if t < s {
          assert Apart(SlotChain(l.fat, l.slots[t]), SlotChain(l.fat, l.slots[s]));
        } else {
          assert Apart(SlotChain(l.fat, l.slots[s]), SlotChain(l.fat, l.slots[t]));
        }
      }
      ZeroAgree(l.fat, old_, now, w');
      SlotFrame(l.fat, now, l.slots[t]);
    }
  }

  lemma ZeroAgree(fat: Fat, gone: seq<nat>, now: Fat, w: seq<nat>)
    requires Zeroed(fat, gone, now) && (Apart(w, gone) || Apart(gone, w))
    ensures Agree(fat, now, w)
  {
  }

  /** The directory stays sound when a slot is replaced, inserted or removed. */
  lemma PutSound(l: Layout, s: nat, x: Slot, w: seq<nat>, now: Fat)
    requires Sound(l) && s < |l.slots| && Puttable(l, x, w) && Zeroed(l.fat, SlotChain(l.fat, l.slots[s]), now)
    requires TailKept(l, s, x)
    ensures Sound(PutLayout(l, s, x, now))
    ensures SlotChain(now, x) == w
    ensures forall t :: 0 <= t < |l.slots| && t != s ==> SlotChain(now, l.slots[t]) == SlotChain(l.fat, l.slots[t])
  {
    hide SlotOk, SlotChain;
    PutChains(l, s, x, w, now);
    var m := PutLayout(l, s, x, now);
    forall t | 0 <= t < |m.slots| ensures IsSlot(m.slots[t]) && SlotOk(m.fat, m.slots[t]) {
    }
    forall t | 0 <= t < |m.slots| ensures Apart(SlotChain(m.fat, m.slots[t]), m.root) {
    }
    forall t, u | 0 <= t < u < |m.slots| ensures Apart(SlotChain(m.fat, m.slots[t]), SlotChain(m.fat, m.slots[u])) {
      if t == s {
        assert Apart(w, SlotChain(l.fat, l.slots[u]));
      } else if u == s {
        assert Apart(w, SlotChain(l.fat, l.slots[t]));
      } else {
        assert Apart(SlotChain(l.fat, l.slots[t]), SlotChain(l.fat, l.slots[u]));
      }
    }
  }

  /** The old chain is free, the new one is owned, and no other cluster changes hands. */
  lemma PutLost(l: Layout, s: nat, x: Slot, w: seq<nat>, now: Fat, c: nat)
    requires Sound(l) && s < |l.slots| && Puttable(l, x, w) && Zeroed(l.fat, SlotChain(l.fat, l.slots[s]), now)
    requires TailKept(l, s, x)
    ensures Sound(PutLayout(l, s, x, now))
    ensures IsLost(PutLayout(l, s, x, now), c) <==> IsLost(l, c) && c !in w
  {
    hide SlotOk, SlotChain;
    PutSound(l, s, x, w, now);
    var m := PutLayout(l, s, x, now);
    assert m.slots[s] == x;
    if IsLost(m, c) {
      forall t | 0 <= t < |l.slots| ensures c !in SlotChain(l.fat, l.slots[t]) {
        if t != s {
          assert m.slots[t] == l.slots[t];
        }
      }
    }
    if IsLost(l, c) && c !in w {
      forall t | 0 <= t < |m.slots| ensures c !in SlotChain(m.fat, m.slots[t]) {
        assert c !in SlotChain(l.fat, l.slots[t]);
      }
      assert c !in SlotChain(l.fat, l.slots[s]);
    }
  }
}
