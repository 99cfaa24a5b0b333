/**
 Files below the root: creating or removing a name in the root leaves every path through another
 name alone, as long as the directories and the file on the way share no cluster with the root or
 with the file that is replaced or removed.
 */
module FatPaths {
  import opened Options
  import opened FatChains
  import opened FatNames
  import opened FatDirectory
  import opened FatLayout
  import opened FatVolume
  import opened FatFiles
  import opened FatTheorems
  import opened FatListing
  import opened FatDriver
  import opened FatReader

  // ---------------------------------------------------------------------------
  // Two volumes that agree along a path
  // ---------------------------------------------------------------------------

  /** Everything that can be reached from a cluster is the same in both volumes. */
  ghost predicate Kept(v: Vol, now: Vol, first: nat) {
    && |now.fat| == |v.fat| == |now.data| == |v.data|
    && forall c: nat :: Reachable(v.fat, first, c) && c < |v.fat| ==> now.fat[c] == v.fat[c] && now.data[c] == v.data[c]
  }

  lemma KeptAt(v: Vol, now: Vol, w: seq<nat>, i: nat)
    requires Path(v.fat, w) && i < |w| && Kept(v, now, w[0])
    ensures IsCluster(v.fat, w[i]) && now.fat[w[i]] == v.fat[w[i]] && now.data[w[i]] == v.data[w[i]]
  {
    PrefixReaches(v.fat, w, i);
  }

  lemma KeptPath(v: Vol, now: Vol, w: seq<nat>)
    requires Path(v.fat, w) && Kept(v, now, w[0])
    ensures Path(now.fat, w)
  {
    hide Kept;
    KeptSizes(v, now, w[0]);
    forall i | 0 <= i < |w| ensures IsCluster(now.fat, w[i]) {
      KeptAt(v, now, w, i);
    }
    forall i | 0 < i < |w| ensures Next(now.fat, w[i - 1]) == Some(w[i]) {
      KeptAt(v, now, w, i - 1);
    }
  }

  lemma {:induction false} KeptBack(v: Vol, now: Vol, w: seq<nat>)
    requires Path(now.fat, w) && Kept(v, now, w[0])
    ensures Path(v.fat, w)
  {
    if |w| > 1 {
      var u := w[..|w| - 1];
      KeptBack(v, now, u);
      KeptAt(v, now, u, |u| - 1);
      forall i | 0 < i < |w| ensures Next(v.fat, w[i - 1]) == Some(w[i]) {
        assert Next(now.fat, w[i - 1]) == Some(w[i]);
        assert i < |u| ==> Next(v.fat, u[i - 1]) == Some(u[i]);
      }
    }
  }

  lemma KeptReadable(v: Vol, now: Vol, first: nat, w: seq<nat>)
    requires Kept(v, now, first)
    ensures Readable(now, first, w) <==> Readable(v, first, w)
    ensures Readable(v, first, w) ==> Within(now.data, w) && Flat(now.data, w) == Flat(v.data, w)
  {
    hide Flat, Kept;
    if Readable(v, first, w) {
      KeptPath(v, now, w);
      KeptAt(v, now, w, |w| - 1);
      forall i | 0 <= i < |w| ensures w[i] < |now.data| == |v.data| && now.data[w[i]] == v.data[w[i]] {
        KeptSizes(v, now, first);
        KeptAt(v, now, w, i);
      }
      FlatSame(v.data, now.data, w);
    }
    if Readable(now, first, w) {
      KeptBack(v, now, w);
      KeptAt(v, now, w, |w| - 1);
      KeptSizes(v, now, first);
    }
  }

  lemma KeptSizes(v: Vol, now: Vol, first: nat)
    requires Kept(v, now, first)
    ensures |now.fat| == |v.fat| == |now.data| == |v.data|
  {
  }

  lemma KeptFetched(v: Vol, now: Vol, first: nat)
    requires Kept(v, now, first)
    ensures Fetched(now, first) == Fetched(v, first)
  {
    hide Readable, Kept, Flat;
    if w :| Readable(v, first, w) {
      KeptReadable(v, now, first, w);
      FetchedAt(v, first, w);
      FetchedAt(now, first, w);
    } else {
      forall w ensures !Readable(now, first, w) {
        KeptReadable(v, now, first, w);
      }
    }
  }

  lemma FetchedAt(v: Vol, first: nat, w: seq<nat>)
    requires Readable(v, first, w)
    ensures Within(v.data, w) && Fetched(v, first) == Some(Flat(v.data, w))
  {
    hide Flat;
    ReadableIs(v, first, w);
  }

  lemma KeptContained(v: Vol, now: Vol, first: nat)
    requires Kept(v, now, first) && Contained(v.fat, first)
    ensures Contained(now.fat, first)
  {
    forall c: nat | Reachable(now.fat, first, c) && c < |now.fat| && Next(now.fat, c).Some?
      ensures Next(now.fat, c).value < |now.fat|
    {
      var w :| Path(now.fat, w) && w[0] == first && w[|w| - 1] == c;
      KeptBack(v, now, w);
      KeptAt(v, now, w, |w| - 1);
      assert Reachable(v.fat, first, c);
    }
  }

  /** All chains on the way are kept. */
  ghost predicate AllKept(v: Vol, now: Vol, cluster: nat, parts: seq<seq<Byte>>)
    requires parts != []
    decreases |parts|
  {
    || cluster < 2
    || (Kept(v, now, cluster)
        && match Found(v, cluster, parts[0])
           case None => true
           case Some(e) =>
             if |parts| == 1 then e.isDir || e.cluster < 2 || Kept(v, now, e.cluster)
             else !e.isDir || AllKept(v, now, e.cluster, parts[1..]))
  }

  lemma {:induction false} KeptReads(v: Vol, now: Vol, cluster: nat, parts: seq<seq<Byte>>)
    requires parts != [] && AllKept(v, now, cluster, parts)
    ensures ReadFrom(now, cluster, parts) == ReadFrom(v, cluster, parts)
    ensures Inside(v, cluster, parts) ==> Inside(now, cluster, parts)
    decreases |parts|
  {
    hide Fetched, Kept, Contained, Listing, FirstNamed;
    if cluster >= 2 {
      KeptFetched(v, now, cluster);
      if Contained(v.fat, cluster) {
        KeptContained(v, now, cluster);
      }
      var found := Found(v, cluster, parts[0]);
      if found.Some? {
        var e := found.value;
        if |parts| > 1 {
          if e.isDir {
            KeptReads(v, now, e.cluster, parts[1..]);
          }
        } else if !e.isDir && e.cluster >= 2 {
          KeptFetched(v, now, e.cluster);
          if Contained(v.fat, e.cluster) {
            KeptContained(v, now, e.cluster);
          }
        }
      }
    }
  }

  // ---------------------------------------------------------------------------
  // Paths that stay clear of the root and of a file
  // ---------------------------------------------------------------------------

  /** A cluster in use that belongs neither to the root nor to a file stored under a name. */
  ghost predicate Clear(v: Vol, n: seq<Byte>, c: nat)
    requires Rooted(v)
  {
    && IsCluster(v.fat, c) && v.fat[c] != 0 && c !in RootChain(v)
    && forall t :: 0 <= t < |RootSlots(v)| && Matches(RootSlots(v)[t], n) ==> c !in SlotChain(v.fat, RootSlots(v)[t])
  }

  ghost predicate ClearFrom(v: Vol, n: seq<Byte>, first: nat)
    requires Rooted(v)
  {
    forall c: nat :: Reachable(v.fat, first, c) ==> Clear(v, n, c)
  }

  /** Every chain on the way is clear. */
  ghost predicate ClearPath(v: Vol, n: seq<Byte>, cluster: nat, parts: seq<seq<Byte>>)
    requires Rooted(v) && parts != []
    decreases |parts|
  {
    || cluster < 2
    || (ClearFrom(v, n, cluster)
        && match Found(v, cluster, parts[0])
           case None => true
           case Some(e) =>
             if |parts| == 1 then e.isDir || e.cluster < 2 || ClearFrom(v, n, e.cluster)
             else !e.isDir || ClearPath(v, n, e.cluster, parts[1..]))
  }

  /** A volume that agrees with another on the clear clusters. */
  ghost predicate Agrees(v: Vol, n: seq<Byte>, now: Vol)
    requires Rooted(v)
  {
    && |now.fat| == |v.fat| == |now.data| == |v.data|
    && forall c: nat :: Clear(v, n, c) && c < |v.fat| ==> now.fat[c] == v.fat[c] && now.data[c] == v.data[c]
  }

  lemma ClearKept(v: Vol, n: seq<Byte>, now: Vol, first: nat)
    requires Rooted(v) && Agrees(v, n, now) && ClearFrom(v, n, first)
    ensures Kept(v, now, first)
  {
    hide Clear, Reachable;
  }

  lemma {:induction false} ClearPathKept(v: Vol, n: seq<Byte>, now: Vol, cluster: nat, parts: seq<seq<Byte>>)
    requires Rooted(v) && Agrees(v, n, now) && parts != [] && ClearPath(v, n, cluster, parts)
    ensures AllKept(v, now, cluster, parts)
    decreases |parts|
  {
    hide Agrees, ClearFrom, Kept, Found;
    if cluster >= 2 {
      ClearKept(v, n, now, cluster);
      var found := Found(v, cluster, parts[0]);
      if found.Some? {
        var e := found.value;
        if |parts| > 1 {
          if e.isDir {
            ClearPathKept(v, n, now, e.cluster, parts[1..]);
          }
        } else if !e.isDir && e.cluster >= 2 {
          ClearKept(v, n, now, e.cluster);
        }
      }
    }
  }

  /** The first step of a path, in the roots of two well-formed volumes that show the same slot. */
  lemma SameFirst(v: Vol, now: Vol, q: seq<Byte>)
    requires WF(v) && WF(now) && now.root == v.root && FoundSlot(now, q) == FoundSlot(v, q)
    requires |RootChain(v)| <= MAX_CLUSTERS && |RootChain(now)| <= MAX_CLUSTERS
    ensures DirAt(v, v.root).Some? && DirAt(now, v.root).Some? && Found(now, v.root, q) == Found(v, v.root, q)
    ensures Contained(v.fat, v.root) && Contained(now.fat, v.root)
  {
    hide Sound, RootSlots, RootChain, Found, DirAt, Lookup, Contained, EntryFor;
    RootFound(v, q);
    RootFound(now, q);
  }

  /** What the rest of a path must stay clear of, seen from the root. */
  ghost predicate ClearBelow(v: Vol, n: seq<Byte>, q: seq<Byte>, rest: seq<seq<Byte>>)
    requires Rooted(v) && rest != []
  {
    match Found(v, v.root, q)
    case None => true
    case Some(e) => !e.isDir || ClearPath(v, n, e.cluster, rest)
  }

  lemma BelowReads(v: Vol, n: seq<Byte>, now: Vol, q: seq<Byte>, rest: seq<seq<Byte>>)
    requires WF(v) && WF(now) && now.root == v.root && FoundSlot(now, q) == FoundSlot(v, q)
    requires |RootChain(v)| <= MAX_CLUSTERS && |RootChain(now)| <= MAX_CLUSTERS
    requires Agrees(v, n, now) && rest != [] && ClearBelow(v, n, q, rest)
    ensures ReadFrom(now, v.root, [q] + rest) == ReadFrom(v, v.root, [q] + rest)
    ensures Inside(v, v.root, [q] + rest) ==> Inside(now, v.root, [q] + rest)
  {
    hide Sound, RootSlots, RootChain, Found, DirAt, Agrees, ClearPath, Contained, FoundSlot, AllKept;
    SameFirst(v, now, q);
    var parts := [q] + rest;
    assert parts[0] == q && parts[1..] == rest;
    var found := Found(v, v.root, q);
    if found.Some? && found.value.isDir {
      ClearPathKept(v, n, now, found.value.cluster, rest);
      KeptReads(v, now, found.value.cluster, rest);
    }
  }

  // ---------------------------------------------------------------------------
  // Creating and removing
  // ---------------------------------------------------------------------------

  /** The file that a create replaces was stored under its name. */
  lemma ReplacedIs(v: Vol, name: seq<Byte>, b: seq<Byte>, tr: Trace, v3: Vol, c: nat)
    requires WF(v) && Pack(name).Some? && Created(v, Pack(name).value, b, tr, v3)
    requires Clear(v, Pack(name).value, c)
    ensures Rooted(tr.v2) && SlotIndex(tr.v2, tr.j, tr.k) < |RootSlots(tr.v2)|
    ensures c !in SlotChain(tr.v2.fat, RootSlots(tr.v2)[SlotIndex(tr.v2, tr.j, tr.k)])
  {
    hide Sound, IsLost, RootSlots, RootChain, OwnedApart, Puttable, Entry, SlotIndex, PutAt, Stored, Display, Slots, Flat, IsChoice, Pack, Shape, Matches;
    var n := Pack(name).value;
    CreateFrame(v, name, b, tr, v3, c);
    StoredSound(v, tr.w, b, tr.v1);
    assert RootSlots(tr.v1) == LayoutOf(tr.v1).slots == RootSlots(v);
    var s := SlotIndex(tr.v2, tr.j, tr.k);
    ChoiceFacts(tr.v2, n, tr.j, tr.k);
    if Live(RootSlots(tr.v2)[s]) {
      ChosenMatches(tr.v1, n, tr.grown, tr.v2, s);
    }
  }

  lemma ChosenMatches(v1: Vol, n: seq<Byte>, grown: Option<nat>, v2: Vol, s: nat)
    requires WF(v1) && MadeRoom(v1, n, grown, v2) && Rooted(v2) && s < |RootSlots(v2)| && Live(RootSlots(v2)[s])
    requires Stops(RootSlots(v2)[s], n) || Reusable(RootSlots(v2)[s])
    ensures v2 == v1 && Matches(RootSlots(v2)[s], n)
  {
    hide Sound, RootSlots, RootChain, Slots;
    if grown.Some? {
      GrownSlot(v1, grown.value, s);
    }
  }

  lemma GrownSlot(v1: Vol, g: nat, s: nat)
    requires WF(v1) && IsFree(v1.fat, g) && Rooted(GrownVol(v1, g)) && s < |RootSlots(GrownVol(v1, g))|
    ensures if s < |RootSlots(v1)| then RootSlots(GrownVol(v1, g))[s] == RootSlots(v1)[s]
            else !Live(RootSlots(GrownVol(v1, g))[s])
  {
    hide Sound, RootSlots, RootChain, Slots;
    GrownDirectory(v1, g);
    ShapeFacts(v1);
    ZeroSlots(v1.size);
    if s >= |RootSlots(v1)| {
      assert RootSlots(GrownVol(v1, g))[s] == Slots(Zeros(v1.size))[s - |RootSlots(v1)|];
    }
  }

  lemma CreateAgrees(v: Vol, name: seq<Byte>, b: seq<Byte>, tr: Trace, v3: Vol)
    requires WF(v) && Pack(name).Some? && Created(v, Pack(name).value, b, tr, v3) && WF(v3)
    requires |v3.fat| == |v.fat|
    ensures Agrees(v, Pack(name).value, v3)
  {
    hide Sound, RootSlots, RootChain, Clear, Created, Pack, SlotChain, SlotIndex;
    var n := Pack(name).value;
    ShapeFacts(v);
    ShapeFacts(v3);
    forall c: nat | Clear(v, n, c) && c < |v.fat| ensures v3.fat[c] == v.fat[c] && v3.data[c] == v.data[c] {
      ClearIs(v, n, c);
      ReplacedIs(v, name, b, tr, v3, c);
      CreateFrame(v, name, b, tr, v3, c);
    }
  }

  lemma ClearIs(v: Vol, n: seq<Byte>, c: nat)
    requires Rooted(v) && Clear(v, n, c)
    ensures IsCluster(v.fat, c) && v.fat[c] != 0 && c !in RootChain(v)
  {
  }

  /**
   A create leaves every path through another name of the root alone, if no chain on the way uses
   a cluster of the root or of the file that the name had.
   */
  lemma CreateKeepsPaths(v: Vol, name: seq<Byte>, b: seq<Byte>, tr: Trace, v3: Vol, q: seq<Byte>, rest: seq<seq<Byte>>)
    requires WF(v) && Pack(name).Some? && Created(v, Pack(name).value, b, tr, v3)
    requires !SameName(Display(Pack(name).value), q) && WF(v3) && |RootChain(v3)| <= MAX_CLUSTERS
    requires rest != [] && ClearBelow(v, Pack(name).value, q, rest)
    ensures ReadFrom(v3, v.root, [q] + rest) == ReadFrom(v, v.root, [q] + rest)
    ensures Inside(v, v.root, [q] + rest) ==> Inside(v3, v.root, [q] + rest)
  {
    hide Sound, RootSlots, RootChain, Created, Pack, FoundSlot, ReadRoot, Display, SameName, ClearBelow, Agrees, ReadFrom, Inside;
    CreatedSizes(v, name, b, tr, v3);
    OthersReadTheSame(v, name, b, tr, v3, q);
    CreateAgrees(v, name, b, tr, v3);
    BelowReads(v, Pack(name).value, v3, q, rest);
  }

  lemma CreatedSizes(v: Vol, name: seq<Byte>, b: seq<Byte>, tr: Trace, v3: Vol)
    requires WF(v) && Pack(name).Some? && Created(v, Pack(name).value, b, tr, v3) && WF(v3)
    ensures |v3.fat| == |v.fat| && v3.root == v.root && |RootChain(v)| <= |RootChain(v3)| <= |RootChain(v)| + 1
  {
    hide Sound, IsLost, SlotChain, RootSlots, RootChain, OwnedApart, Puttable, Entry, SlotIndex, Display, Slots, Flat, Pack, Choice, WithSlot, Shape;
    var n, size := Pack(name).value, |b| % 0x1_0000_0000;
    StoredSound(v, tr.w, b, tr.v1);
    StoredAside(v, tr.w, b, tr.v1);
    RoomSound(tr.v1, tr.w, n, tr.grown, tr.v2);
    assert RootChain(tr.v1) == LayoutOf(tr.v1).root == RootChain(v);
    EntryStep(tr.v2, name, tr.w, size, tr.j, tr.k, v3);
    PutSoundVol(tr.v2, tr.j, tr.k, Entry(n, FirstOf(tr.w), size), tr.w, v3);
    assert RootChain(v3) == LayoutOf(v3).root == RootChain(tr.v2);
  }

  /** And so does an unlink. */
  lemma UnlinkKeepsPaths(v: Vol, name: seq<Byte>, j: nat, k: nat, v2: Vol, q: seq<Byte>, rest: seq<seq<Byte>>)
    requires WF(v) && Pack(name).Some? && Removed(v, Pack(name).value, j, k, v2) && WF(v2)
    requires !SameName(Display(Pack(name).value), q) && |RootChain(v)| <= MAX_CLUSTERS && |RootChain(v2)| <= MAX_CLUSTERS
    requires rest != [] && ClearBelow(v, Pack(name).value, q, rest)
    ensures ReadFrom(v2, v.root, [q] + rest) == ReadFrom(v, v.root, [q] + rest)
    ensures Inside(v, v.root, [q] + rest) ==> Inside(v2, v.root, [q] + rest)
  {
    hide Sound, RootSlots, RootChain, Pack, FoundSlot, ReadRoot, Display, SameName, ClearBelow, Agrees, ReadFrom, Inside, Matches, SlotIndex, Stops;
    UnlinkOthers(v, name, j, k, v2, q);
    UnlinkAgrees(v, Pack(name).value, j, k, v2);
    BelowReads(v, Pack(name).value, v2, q, rest);
  }

  lemma UnlinkAgrees(v: Vol, n: seq<Byte>, j: nat, k: nat, v2: Vol)
    requires WF(v) && Removed(v, n, j, k, v2) && WF(v2)
    ensures v2.root == v.root && Agrees(v, n, v2)
  {
    hide Sound, RootSlots, RootChain, SlotChain, SlotIndex, Matches, Stops, WithSlot;
    ShapeFacts(v);
    ShapeFacts(v2);
    forall c: nat | Clear(v, n, c) && c < |v.fat| ensures v2.fat[c] == v.fat[c] && v2.data[c] == v.data[c] {
      UnlinkFrame(v, n, j, k, v2, c);
    }
  }
}
