/**
 The write path of kernel/src/drivers/fat32.rs: `create_root_file`, `upsert_root_dir_entry` and
 `unlink_root` on a mounted volume.
 */
module FatWriter {
  import opened Options
  import opened FatChains
  import opened FatNames
  import opened FatDirectory
  import opened FatLayout
  import opened FatVolume
  import opened FatFiles
  import opened FatTheorems
  import opened FatDisk
  import opened FatDriver

  // ---------------------------------------------------------------------------
  // Clusters for the data
  // ---------------------------------------------------------------------------

  /** `now` is `fat` with an end mark on each cluster of `w`. */
  ghost predicate Marked(fat: Fat, w: seq<nat>, now: Fat) {
    |now| == |fat| && forall c :: 0 <= c < |fat| ==> now[c] == if c in w then LAST else fat[c]
  }

  /** First fit: a free cluster that was passed over is higher than all that were taken. */
  ghost predicate Smallest(fat: Fat, w: seq<nat>) {
    forall i, c: nat :: 0 <= i < |w| && IsFree(fat, c) && c !in w ==> w[i] < c
  }

  lemma MarkOne(fat: Fat, w: seq<nat>, mid: Fat, c: nat)
    requires Fresh(fat, w) && Marked(fat, w, mid) && Smallest(fat, w) && FirstFree(mid, c)
    ensures Fresh(fat, w + [c]) && Marked(fat, w + [c], mid[c := LAST]) && Smallest(fat, w + [c])
  {
    assert c !in w;
    assert IsFree(fat, c);
    var x := w + [c];
    forall i | 0 <= i < |x| ensures IsFree(fat, x[i]) {
    }
    forall i, e: nat | 0 <= i < |x| && IsFree(fat, e) && e !in x ensures x[i] < e {
      assert e !in w && mid[e] == 0;
    }
  }

  /** The allocation loop of `create_root_file`; on failure the clusters it took stay marked. */
  method AllocChain(fs: Fat32, n: nat) returns (ok: bool, w: seq<nat>)
    requires fs.Valid()
    modifies fs
    ensures fs.Valid() && SameTops(fs.g, old(fs.disk), fs.disk)
    ensures fs.Abs() == old(fs.Abs()).(fat := fs.Abs().fat)
    ensures Fresh(old(fs.Abs()).fat, w) && Marked(old(fs.Abs()).fat, w, fs.Abs().fat) && Smallest(old(fs.Abs()).fat, w)
    ensures ok ==> |w| == n
    ensures !ok ==> |w| < n && forall c: nat :: IsFree(old(fs.Abs()).fat, c) ==> c in w
  {
    hide Sectors, Mirrored, SameTops, FatOf, DataOf;
    ghost var v := fs.Abs();
    ghost var start := fs.disk;
    NoChange(fs.g, start);
    w := [];
    while |w| < n
      invariant |w| <= n
      invariant fs.Valid() && SameTops(fs.g, start, fs.disk)
      invariant fs.Abs() == v.(fat := fs.Abs().fat)
      invariant Fresh(v.fat, w) && Marked(v.fat, w, fs.Abs().fat) && Smallest(v.fat, w)
    {
      ghost var before := fs.disk;
      ghost var mid := fs.Abs().fat;
      var c := fs.AllocCluster();
      SameTopsTrans(fs.g, start, before, fs.disk);
      match c {
        case None =>
          assert fs.Abs().fat == mid;
          forall e: nat | IsFree(v.fat, e) ensures e in w {
            assert !IsFree(mid, e);
          }
          return false, w;
        case Some(e) =>
          MarkOne(v.fat, w, mid, e);
          w := w + [e];
      }
    }
    ok := true;
  }

  /** The clusters of `w` before `n` point to their successors. */
  ghost predicate LinkedUpTo(fat: Fat, w: seq<nat>, n: nat, now: Fat) {
    && |now| == |fat|
    && (forall c :: 0 <= c < |fat| && c !in w ==> now[c] == fat[c])
    && (forall i :: 0 <= i < |w| ==> w[i] < |now| && now[w[i]] == if i < n then LinkAt(w, i) else LAST)
  }

  lemma LinkOne(fat: Fat, w: seq<nat>, i: nat, mid: Fat)
    requires |fat| <= BAD_CLUSTER && Fresh(fat, w) && i + 1 < |w| && LinkedUpTo(fat, w, i, mid)
    ensures w[i] < |mid| && w[i + 1] % LOW == w[i + 1]
    ensures LinkedUpTo(fat, w, i + 1, mid[w[i] := w[i + 1]])
  {
    assert IsFree(fat, w[i]) && IsFree(fat, w[i + 1]);
    var now := mid[w[i] := w[i + 1]];
    forall k | 0 <= k < |w| ensures w[k] < |now| && now[w[k]] == if k < i + 1 then LinkAt(w, k) else LAST {
      assert mid[w[k]] == if k < i then LinkAt(w, k) else LAST;
    }
  }

  lemma SameLength(fat: Fat, w: seq<nat>, now: Fat)
    requires Marked(fat, w, now)
    ensures |fat| == |now|
  {
  }

  lemma LinkStart(fat: Fat, w: seq<nat>, mid: Fat)
    requires Fresh(fat, w) && Marked(fat, w, mid)
    ensures LinkedUpTo(fat, w, 0, mid)
  {
    forall i | 0 <= i < |w| ensures w[i] < |mid| && mid[w[i]] == LAST {
      assert IsFree(fat, w[i]);
    }
  }

  lemma LinkDone(fat: Fat, w: seq<nat>, i: nat, now: Fat)
    requires LinkedUpTo(fat, w, i, now) && i <= |w| <= i + 1
    ensures Linked(fat, w, now)
  {
    forall k | 0 <= k < |w| ensures w[k] < |now| && now[w[k]] == LinkAt(w, k) {
      assert now[w[k]] == if k < i then LinkAt(w, k) else LAST;
    }
  }

  /** The linking loop of `create_root_file`. */
  method LinkChain(fs: Fat32, ghost fat: Fat, w: seq<nat>)
    requires fs.Valid() && Fresh(fat, w) && Marked(fat, w, fs.Abs().fat)
    modifies fs
    ensures fs.Valid() && SameTops(fs.g, old(fs.disk), fs.disk)
    ensures fs.Abs() == old(fs.Abs()).(fat := fs.Abs().fat)
    ensures Linked(fat, w, fs.Abs().fat)
  {
    hide CopiesWritten, EntryLba, Sectors, Mirrored, SameTops, FatOf, DataOf, LinkedUpTo, Linked, Fresh, Marked;
    ghost var v := fs.Abs();
    ghost var start := fs.disk;
    NoChange(fs.g, start);
    VolShape(fs.g, start);
    ShapeFacts(v);
    LinkStart(fat, w, v.fat);
    var i := 0;
    while i + 1 < |w|
      invariant i <= |w|
      invariant fs.Valid() && SameTops(fs.g, start, fs.disk)
      invariant fs.Abs() == v.(fat := fs.Abs().fat) && LinkedUpTo(fat, w, i, fs.Abs().fat)
    {
      ghost var before := fs.disk;
      assert |fat| == |v.fat| by { SameLength(fat, w, v.fat); }
      LinkOne(fat, w, i, fs.Abs().fat);
      fs.InTable(w[i]);
      var written := fs.SetFatEntry(w[i], w[i + 1]);
      SameTopsTrans(fs.g, start, before, fs.disk);
      i := i + 1;
    }
    LinkDone(fat, w, i, fs.Abs().fat);
  }

  lemma ChunkFirst(b: seq<Byte>, size: nat)
    requires size > 0 && b != []
    ensures Chunks(b, size)[0] == Pad(if |b| < size then b else b[..size], size)
    ensures Chunks(b, size)[1..] == Chunks(if |b| < size then [] else b[size..], size)
  {
    if |b| == size {
      assert b[..size] == b;
    }
  }

  /** The data loop of `create_root_file`. */
  method FillChain(fs: Fat32, w: seq<nat>, b: seq<Byte>)
    requires fs.Valid() && Distinct(w) && forall i :: 0 <= i < |w| ==> IsCluster(fs.Abs().fat, w[i])
    requires fs.g.ClusterBytes() > 0 && |w| == |Chunks(b, fs.g.ClusterBytes())|
    modifies fs
    ensures fs.Valid() && SameTops(fs.g, old(fs.disk), fs.disk)
    ensures fs.Abs() == old(fs.Abs()).(data := fs.Abs().data)
    ensures Written(old(fs.Abs()), w, Chunks(b, fs.g.ClusterBytes()), fs.Abs().data)
  {
    hide Sectors, Mirrored, SameTops, FatOf, DataOf, Chunks, WrittenUpTo, Pad;
    ghost var v := fs.Abs();
    ghost var start := fs.disk;
    NoChange(fs.g, start);
    VolShape(fs.g, start);
    ShapeFacts(v);
    var size := fs.g.ClusterBytes();
    ghost var chunks := Chunks(b, size);
    var off := 0;
    assert b[0..] == b;
    WriteStart(v, w, chunks);
    for i := 0 to |w|
      invariant off <= |b| && chunks[i..] == Chunks(b[off..], size)
      invariant fs.Valid() && SameTops(fs.g, start, fs.disk)
      invariant fs.Abs() == v.(data := fs.Abs().data) && WrittenUpTo(v, w, chunks, i, fs.Abs().data)
    {
      ghost var before := fs.disk;
      var end := if off + size < |b| then off + size else |b|;
      NextChunk(b, off, end, size, chunks, i);
      assert IsCluster(v.fat, w[i]);
      WriteOne(v, w, chunks, i, fs.Abs().data);
      var ok := fs.WriteCluster(w[i], b[off..end]);
      SameTopsTrans(fs.g, start, before, fs.disk);
      off := end;
    }
    WriteEnd(v, w, chunks, fs.Abs().data);
  }

  /** The clusters of `w` before `n` hold their chunks. */
  ghost predicate WrittenUpTo(v: Vol, w: seq<nat>, chunks: seq<seq<Byte>>, n: nat, now: seq<seq<Byte>>) {
    && |now| == |v.data| && n <= |w| == |chunks|
    && (forall i :: 0 <= i < |w| ==> w[i] < |now|)
    && (forall i :: 0 <= i < n ==> now[w[i]] == chunks[i])
    && (forall c :: 0 <= c < |v.data| && c !in w[..n] ==> now[c] == v.data[c])
  }

  lemma WriteStart(v: Vol, w: seq<nat>, chunks: seq<seq<Byte>>)
    requires |w| == |chunks| && forall i :: 0 <= i < |w| ==> w[i] < |v.data|
    ensures WrittenUpTo(v, w, chunks, 0, v.data)
  {
  }

  lemma WriteOne(v: Vol, w: seq<nat>, chunks: seq<seq<Byte>>, i: nat, mid: seq<seq<Byte>>)
    requires Distinct(w) && i < |w| && WrittenUpTo(v, w, chunks, i, mid)
    ensures WrittenUpTo(v, w, chunks, i + 1, mid[w[i] := chunks[i]])
  {
    assert w[..i + 1] == w[..i] + [w[i]];
  }

  lemma WriteEnd(v: Vol, w: seq<nat>, chunks: seq<seq<Byte>>, now: seq<seq<Byte>>)
    requires WrittenUpTo(v, w, chunks, |w|, now)
    ensures Written(v, w, chunks, now)
  {
    assert w[..|w|] == w;
  }

  /** The slice of the data that goes into the next cluster. */
  lemma NextChunk(b: seq<Byte>, off: nat, end: nat, size: nat, chunks: seq<seq<Byte>>, i: nat)
    requires size > 0 && off <= |b| && i < |chunks| && chunks[i..] == Chunks(b[off..], size)
    requires end == if off + size < |b| then off + size else |b|
    ensures off <= end && end - off <= size && chunks[i] == Pad(b[off..end], size)
    ensures chunks[i + 1..] == Chunks(b[end..], size)
  {
    var rest := b[off..];
    assert chunks[i..][0] == chunks[i] && chunks[i..][1..] == chunks[i + 1..];
    ChunkFirst(rest, size);
    assert b[off..end] == if |rest| < size then rest else rest[..size];
    assert b[end..] == if |rest| < size then [] else rest[size..];
  }

  /** The part of `create_root_file` before the directory is touched. */
  method StoreFile(fs: Fat32, b: seq<Byte>) returns (ok: bool, w: seq<nat>)
    requires fs.Valid()
    modifies fs
    ensures fs.Valid() && SameTops(fs.g, old(fs.disk), fs.disk)
    ensures ok ==> Stored(old(fs.Abs()), w, b, fs.Abs()) && Smallest(old(fs.Abs()).fat, w)
    ensures !ok ==> fs.Abs() == old(fs.Abs()).(fat := fs.Abs().fat)
                    && Fresh(old(fs.Abs()).fat, w) && Marked(old(fs.Abs()).fat, w, fs.Abs().fat)
                    && |FreeSet(old(fs.Abs()).fat)| < ClustersFor(|b|, old(fs.Abs()).size)
  {
    hide Sectors, Mirrored, SameTops, FatOf, DataOf, Chunks, ClustersFor;
    ghost var v := fs.Abs();
    ghost var start := fs.disk;
    VolShape(fs.g, start);
    ShapeFacts(v);
    var size := fs.g.ClusterBytes();
    ChunksCount(b, size);
    var n := if |b| == 0 then 0 else ClustersFor(|b|, size);
    ok, w := AllocChain(fs, n);
    if !ok {
      AllTaken(v.fat, w);
      return;
    }
    ghost var d1 := fs.disk;
    LinkChain(fs, v.fat, w);
    SameTopsTrans(fs.g, start, d1, fs.disk);
    ghost var d2 := fs.disk;
    ghost var mid := fs.Abs();
    assert forall i :: 0 <= i < |w| ==> IsCluster(mid.fat, w[i]) by {
      forall i | 0 <= i < |w| ensures IsCluster(mid.fat, w[i]) {
        assert IsFree(v.fat, w[i]);
      }
    }
    FillChain(fs, w, b);
    SameTopsTrans(fs.g, start, d2, fs.disk);
  }

  /** A failed allocation took every free cluster, and they were too few. */
  lemma AllTaken(fat: Fat, w: seq<nat>)
    requires Fresh(fat, w) && forall c: nat :: IsFree(fat, c) ==> c in w
    ensures |FreeSet(fat)| == |w|
  {
    forall i | 0 <= i < |w| ensures w[i] in FreeSet(fat) {
      assert IsFree(fat, w[i]);
    }
    assert FreeSet(fat) == Members(w) by {
      forall c: nat | c in FreeSet(fat) ensures c in w {
        assert IsFree(fat, c);
      }
    }
    MembersSize(w);
  }

  // ---------------------------------------------------------------------------
  // The root directory
  // ---------------------------------------------------------------------------

  lemma RootAt(v: Vol, j: nat)
    requires Rooted(v) && j < |RootChain(v)|
    ensures IsCluster(v.fat, RootChain(v)[j]) && RootChain(v)[j] < |v.data| && |v.data[RootChain(v)[j]]| == v.size
    ensures Next(v.fat, RootChain(v)[j]) == if j + 1 < |RootChain(v)| then Some(RootChain(v)[j + 1]) else None
  {
    var rc := RootChain(v);
    if j + 1 < |rc| {
      assert Next(v.fat, rc[j + 1 - 1]) == Some(rc[j + 1]);
    }
  }

  /** The slots of the first `j` root clusters. */
  ghost function FirstSlots(v: Vol, j: nat): (r: seq<Slot>)
    requires Rooted(v) && j <= |RootChain(v)|
    ensures AllSlots(r)
  {
    Slots(Flat(v.data, RootChain(v)[..j]))
  }

  lemma FirstSlotsNext(v: Vol, j: nat)
    requires Rooted(v) && j < |RootChain(v)|
    ensures RootChain(v)[j] < |v.data| && FirstSlots(v, j + 1) == FirstSlots(v, j) + Slots(v.data[RootChain(v)[j]])
  {
    hide Flat, Slots;
    var rc := RootChain(v);
    FlatAligned(v, rc[..j]);
    assert rc[..j + 1] == rc[..j] + [rc[j]];
    FlatTail(v.data, rc[..j], rc[j]);
    SlotsConcat(Flat(v.data, rc[..j]), v.data[rc[j]]);
  }

  lemma FirstSlotsEnds(v: Vol)
    requires Rooted(v)
    ensures FirstSlots(v, 0) == [] && FirstSlots(v, |RootChain(v)|) == RootSlots(v)
  {
    assert RootChain(v)[..0] == [];
    assert RootChain(v)[..|RootChain(v)|] == RootChain(v);
  }

  lemma NoChoiceConcat(a: seq<Slot>, b: seq<Slot>, n: seq<Byte>)
    requires AllSlots(a) && AllSlots(b) && NoChoice(a, n) && NoChoice(b, n)
    ensures AllSlots(a + b) && NoChoice(a + b, n)
  {
    hide Stops, Reusable;
  }

  /** The search of `upsert_root_dir_entry` through the root clusters. */
  method ScanRoot(fs: Fat32, n: seq<Byte>) returns (chosen: Option<nat>, replace: bool, cur: nat, ghost j: nat)
    requires fs.Valid() && Rooted(fs.Abs())
    ensures j < |RootChain(fs.Abs())| && cur == RootChain(fs.Abs())[j] && cur < |fs.Abs().data|
    ensures chosen.Some? ==> Choice(fs.Abs(), n, j, chosen.value)
                             && (replace <==> Matches(Slots(fs.Abs().data[cur])[chosen.value], n))
    ensures chosen == None ==> NoChoice(RootSlots(fs.Abs()), n) && j == |RootChain(fs.Abs())| - 1
  {
    hide EntryLba, EntryRead, Sectors, Mirrored, FatOf, DataOf, RootChain, RootSlots, FirstSlots, NoChoice, IsChoice, Matches, Flat, Slots;
    ghost var v := fs.Abs();
    cur, j := fs.g.root, 0;
    FirstSlotsEnds(v);
    EmptyNoChoice(n);
    while true
      invariant j < |RootChain(v)| && cur == RootChain(v)[j] && NoChoice(FirstSlots(v, j), n)
      decreases |RootChain(v)| - j
    {
      RootAt(v, j);
      var buf := fs.ReadCluster(cur);
      chosen, replace := Choose(Slots(buf), n);
      if chosen.Some? {
        ChoiceHere(v, n, j, chosen.value);
        return;
      }
      FirstSlotsNext(v, j);
      NoChoiceConcat(FirstSlots(v, j), Slots(buf), n);
      fs.InTable(cur);
      var next := fs.NextCluster(cur);
      match next {
        case Some(c) => cur, j := c, j + 1;
        case None => return;
      }
    }
  }

  lemma EmptyNoChoice(n: seq<Byte>)
    ensures NoChoice([], n)
  {
  }

  lemma ChoiceHere(v: Vol, n: seq<Byte>, j: nat, k: nat)
    requires Rooted(v) && j < |RootChain(v)| && NoChoice(FirstSlots(v, j), n)
    requires RootChain(v)[j] < |v.data| && IsChoice(Slots(v.data[RootChain(v)[j]]), n, k)
    ensures Choice(v, n, j, k)
  {
    hide NoChoice, Stops, Reusable, Flat;
    RootAt(v, j);
  }

  /** The root gets one more cluster, filled with zeros. */
  method GrowRoot(fs: Fat32, cur: nat) returns (g: Option<nat>)
    requires fs.Valid() && Rooted(fs.Abs()) && cur == RootChain(fs.Abs())[|RootChain(fs.Abs())| - 1]
    modifies fs
    ensures fs.Valid() && SameTops(fs.g, old(fs.disk), fs.disk)
    ensures g == None ==> fs.disk == old(fs.disk) && forall c: nat :: !IsFree(fs.Abs().fat, c)
    ensures g.Some? ==> FirstFree(old(fs.Abs()).fat, g.value) && fs.Abs() == GrownVol(old(fs.Abs()), g.value)
  {
    hide CopiesWritten, EntryLba, Sectors, Mirrored, SameTops, FatOf, DataOf, RootChain, Shape, Pad, GrownVol;
    ghost var v := fs.Abs();
    ghost var d0 := fs.disk;
    RootAt(v, |RootChain(v)| - 1);
    ShapeFacts(v);
    g := fs.AllocCluster();
    if g.Some? {
      ghost var d1 := fs.disk;
      fs.InTable(cur);
      var written := fs.SetFatEntry(cur, g.value);
      SameTopsTrans(fs.g, d0, d1, fs.disk);
      ghost var d2 := fs.disk;
      var ok := fs.WriteCluster(g.value, []);
      SameTopsTrans(fs.g, d0, d2, fs.disk);
      GrownIs(v, g.value, cur);
    }
  }

  lemma GrownIs(v: Vol, g: nat, cur: nat)
    requires Rooted(v) && IsFree(v.fat, g) && cur == RootChain(v)[|RootChain(v)| - 1]
    ensures cur < |v.fat| && g < |v.data|
    ensures GrownVol(v, g) ==
            Vol(v.fat[g := LAST][cur := g % LOW], v.data[g := Pad([], v.size)], v.root, v.size)
  {
    assert [] + Zeros(v.size) == Zeros(v.size);
  }

  /** A slot of a root cluster is overwritten; the chain of a live slot is freed first. */
  method PutSlot(fs: Fat32, cur: nat, k: nat, replace: bool, x: Slot, ghost j: nat)
    requires fs.Valid() && WF(fs.Abs()) && j < |RootChain(fs.Abs())| && cur == RootChain(fs.Abs())[j]
    requires |x| == SLOT && SLOT * k + SLOT <= fs.g.ClusterBytes()
    requires cur < |fs.Abs().data| && k < |Slots(fs.Abs().data[cur])| && (replace <==> Live(Slots(fs.Abs().data[cur])[k]))
    modifies fs
    ensures fs.Valid() && SameTops(fs.g, old(fs.disk), fs.disk)
    ensures PutAt(old(fs.Abs()), j, k, x, fs.Abs())
  {
    hide Sectors, Mirrored, SameTops, FatOf, DataOf, RootChain, RootSlots, Sound, SlotChain, WithSlot, Shape, Swept;
    ghost var v := fs.Abs();
    ghost var d0 := fs.disk;
    RootAt(v, j);
    SlotAt(v, j, k);
    var buf := fs.ReadCluster(cur);
    ghost var s := Slots(buf)[k];
    if replace {
      var first := ClusterOf(Slots(buf)[k]);
      LiveChain(v, j, k);
      FreeChain(fs, first);
      if first >= 2 {
        LiveSwept(v, j, k, fs.Abs().fat);
      } else {
        SmallOwnsNothing(v.fat, s);
        ZeroNothing(v.fat);
      }
    } else {
      DeadOwnsNothing(v.fat, s);
      ZeroNothing(v.fat);
      NoChange(fs.g, fs.disk);
    }
    ghost var d1 := fs.disk;
    var ok := fs.WriteCluster(cur, WithSlot(buf, k, x));
    SameTopsTrans(fs.g, d0, d1, fs.disk);
    PadFull(WithSlot(buf, k, x));
  }

  lemma PadFull(b: seq<Byte>)
    ensures Pad(b, |b|) == b
  {
  }

  lemma ZeroNothing(fat: Fat)
    ensures Zeroed(fat, [], fat)
  {
  }

  lemma SmallOwnsNothing(fat: Fat, s: Slot)
    requires |s| == SLOT && ClusterOf(s) < 2
    ensures SlotChain(fat, s) == []
  {
  }

  lemma LiveChain(v: Vol, j: nat, k: nat)
    requires WF(v) && j < |RootChain(v)| && SLOT * k + SLOT <= v.size && RootChain(v)[j] < |v.data|
    requires k < |Slots(v.data[RootChain(v)[j]])| && Live(Slots(v.data[RootChain(v)[j]])[k])
    ensures var s := Slots(v.data[RootChain(v)[j]])[k];
            ClusterOf(s) < 2 ||
            (Contained(v.fat, ClusterOf(s)) && SlotChain(v.fat, s) != [] && SlotChain(v.fat, s)[0] == ClusterOf(s))
  {
    hide RootChain, RootSlots, Separate, Canonical, Slots, Contained;
    SlotAt(v, j, k);
    var s := Slots(v.data[RootChain(v)[j]])[k];
    assert SlotOk(v.fat, LayoutOf(v).slots[SlotIndex(v, j, k)]);
    if ClusterOf(s) >= 2 {
      ChainContained(v.fat, SlotChain(v.fat, s));
    }
  }

  lemma LiveSwept(v: Vol, j: nat, k: nat, now: Fat)
    requires WF(v) && j < |RootChain(v)| && SLOT * k + SLOT <= v.size && RootChain(v)[j] < |v.data|
    requires k < |Slots(v.data[RootChain(v)[j]])| && Live(Slots(v.data[RootChain(v)[j]])[k])
    requires var s := Slots(v.data[RootChain(v)[j]])[k]; ClusterOf(s) >= 2 && Swept(v.fat, ClusterOf(s), now)
    ensures Zeroed(v.fat, SlotChain(v.fat, Slots(v.data[RootChain(v)[j]])[k]), now)
  {
    hide RootChain, RootSlots, Sound, Slots, Contained, Swept;
    LiveChain(v, j, k);
    SweptChain(v.fat, SlotChain(v.fat, Slots(v.data[RootChain(v)[j]])[k]), now);
  }

  lemma ChosenLive(v: Vol, n: seq<Byte>, j: nat, k: nat)
    requires Choice(v, n, j, k)
    ensures RootChain(v)[j] < |v.data| && k < |Slots(v.data[RootChain(v)[j]])|
    ensures Matches(Slots(v.data[RootChain(v)[j]])[k], n) <==> Live(Slots(v.data[RootChain(v)[j]])[k])
  {
    hide Flat;
    RootAt(v, j);
  }

  /** In a fresh root cluster the first slot is taken. */
  lemma GrownChoice(v: Vol, n: seq<Byte>, g: nat, k: nat)
    requires Rooted(v) && IsFree(v.fat, g) && NoChoice(RootSlots(v), n) && IsChoice(Slots(Zeros(v.size)), n, k)
    ensures Rooted(GrownVol(v, g)) && Choice(GrownVol(v, g), n, |RootChain(v)|, k)
    ensures RootChain(GrownVol(v, g)) == RootChain(v) + [g]
  {
    hide NoChoice, IsChoice, Flat, Slots, RootSlots;
    var v2 := GrownVol(v, g);
    var rc := RootChain(v);
    GrownDirectory(v, g);
    assert RootChain(v2)[..|rc|] == rc;
    forall i | 0 <= i < |rc| ensures rc[i] != g {
      ChainNotFree(v.fat, rc, i);
    }
    FlatSame(v.data, v2.data, rc);
    assert FirstSlots(v2, |rc|) == RootSlots(v) by { SlotsOfRoot(v); }
    ChoiceHere(v2, n, |rc|, k);
  }

  lemma SlotsOfRoot(v: Vol)
    requires Rooted(v)
    ensures RootSlots(v) == Slots(Flat(v.data, RootChain(v)))
  {
  }

  lemma ZeroChoice(size: nat, n: seq<Byte>)
    requires size > 0 && size % SLOT == 0
    ensures !NoChoice(Slots(Zeros(size)), n)
  {
    hide Slots;
    ZeroSlots(size);
    assert AtEnd(Slots(Zeros(size))[0]);
  }

  /** `upsert_root_dir_entry` */
  method UpsertRootDirEntry(fs: Fat32, n: seq<Byte>, first: nat, size: nat)
    returns (ok: bool, ghost grown: Option<nat>, ghost v2: Vol, ghost j: nat, ghost k: nat)
    requires fs.Valid() && WF(fs.Abs()) && |n| == 11
    modifies fs
    ensures fs.Valid() && SameTops(fs.g, old(fs.disk), fs.disk)
    ensures ok ==> Upserted(old(fs.Abs()), n, Entry(n, first, size), grown, v2, j, k, fs.Abs())
    ensures !ok ==> fs.disk == old(fs.disk)
                    && NoChoice(RootSlots(fs.Abs()), n) && forall c: nat :: !IsFree(fs.Abs().fat, c)
  {
    hide Sectors, Mirrored, SameTops, FatOf, DataOf, RootChain, RootSlots, Sound, NoChoice, IsChoice, Matches, Entry, Slots, Shape, GrownVol, Choice, PutAt, FirstFree;
    ghost var v := fs.Abs();
    ghost var d0 := fs.disk;
    NoChange(fs.g, d0);
    grown, v2, k := None, v, 0;
    var chosen, replace, cur;
    chosen, replace, cur, j := ScanRoot(fs, n);
    if chosen == None {
      var g := GrowRoot(fs, cur);
      if g == None {
        return false, grown, v2, j, k;
      }
      grown, v2 := g, fs.Abs();
      FirstIsFree(v.fat, g.value);
      NoEndsYet(RootSlots(v), n);
      GrownSound(v, g.value);
      GrownDirectory(v, g.value);
      cur, j := g.value, |RootChain(v)|;
      GrownCluster(v, g.value);
      var buf := fs.ReadCluster(cur);
      ShapeFacts(v);
      ZeroChoice(v.size, n);
      chosen, replace := Choose(Slots(buf), n);
      GrownChoice(v, n, g.value, chosen.value);
    }
    k := chosen.value;
    ChosenLive(v2, n, j, k);
    ghost var d1 := fs.disk;
    ChoiceFits(v2, n, j, k);
    PutSlot(fs, cur, chosen.value, replace, Entry(n, first, size), j);
    SameTopsTrans(fs.g, d0, d1, fs.disk);
    ok := true;
  }

  lemma ChoiceFits(v: Vol, n: seq<Byte>, j: nat, k: nat)
    requires Choice(v, n, j, k)
    ensures Rooted(v) && j < |RootChain(v)| && SLOT * k + SLOT <= v.size
  {
  }

  lemma FirstIsFree(fat: Fat, g: nat)
    requires FirstFree(fat, g)
    ensures IsFree(fat, g)
  {
  }

  lemma GrownCluster(v: Vol, g: nat)
    requires Rooted(v) && IsFree(v.fat, g)
    ensures g < |v.data| && GrownVol(v, g).size == v.size && GrownVol(v, g).data == v.data[g := Zeros(v.size)]
  {
  }

  // ---------------------------------------------------------------------------
  // create_root_file
  // ---------------------------------------------------------------------------

  datatype CreateResult = Done | BadName | Full

  /** Too few free clusters for the data, or none left for a root that has no slot to offer. */
  ghost predicate NoRoom(v: Vol, n: seq<Byte>, len: nat)
    requires Rooted(v)
  {
    || |FreeSet(v.fat)| < ClustersFor(len, v.size)
    || (|FreeSet(v.fat)| == ClustersFor(len, v.size) && NoChoice(RootSlots(v), n))
  }

  lemma NoneFree(fat: Fat)
    requires forall c: nat :: !IsFree(fat, c)
    ensures |FreeSet(fat)| == 0
  {
    forall c | c in FreeSet(fat) ensures false {
      assert IsFree(fat, c);
    }
    assert FreeSet(fat) == {};
  }

  lemma SomeFree(fat: Fat, c: nat)
    requires IsFree(fat, c)
    ensures |FreeSet(fat)| > 0
  {
    assert c in FreeSet(fat);
  }

  /** A create whose data was stored and whose entry found no place. */
  lemma RootFull(v: Vol, n: seq<Byte>, w: seq<nat>, b: seq<Byte>, v1: Vol)
    requires WF(v) && Stored(v, w, b, v1) && WF(v1) && NoChoice(RootSlots(v1), n)
    requires forall c: nat :: !IsFree(v1.fat, c)
    ensures NoRoom(v, n, |b|)
  {
    hide Sound, IsLost, SlotChain, RootSlots, RootChain, OwnedApart, Stored, NoChoice, FreeSet, ClustersFor;
    StoredSound(v, w, b, v1);
    StoreFree(v, w, b, v1);
    StoredCount(v, w, b, v1);
    NoneFree(v1.fat);
    assert RootSlots(v1) == LayoutOf(v1).slots == RootSlots(v);
  }

  lemma HadRoom(v: Vol, n: seq<Byte>, b: seq<Byte>, tr: Trace, v3: Vol)
    requires WF(v) && |n| == 11 && Created(v, n, b, tr, v3)
    ensures !NoRoom(v, n, |b|)
  {
    hide Sound, IsLost, SlotChain, RootSlots, RootChain, OwnedApart, Stored, NoChoice, FreeSet, ClustersFor, Entry, PutAt, Choice, Shape;
    StoredSound(v, tr.w, b, tr.v1);
    StoreFree(v, tr.w, b, tr.v1);
    StoredCount(v, tr.w, b, tr.v1);
    assert RootSlots(tr.v1) == LayoutOf(tr.v1).slots == RootSlots(v);
    if tr.grown.Some? {
      SomeFree(tr.v1.fat, tr.grown.value);
    } else {
      ChosenNotNone(tr.v1, n, tr.j, tr.k);
    }
  }

  lemma ChosenNotNone(v: Vol, n: seq<Byte>, j: nat, k: nat)
    requires Choice(v, n, j, k)
    ensures Rooted(v) && !NoChoice(RootSlots(v), n)
  {
    hide RootSlots, RootChain, SlotIndex, Stops, Reusable;
    ChoiceFacts(v, n, j, k);
  }

  /** `create_root_file`, with what it means for every later read. */
  method CreateRootFile(fs: Fat32, name: seq<Byte>, b: seq<Byte>) returns (r: CreateResult, ghost tr: Trace)
    requires fs.Valid() && WF(fs.Abs())
    modifies fs
    ensures fs.Valid() && SameTops(fs.g, old(fs.disk), fs.disk) && WF(fs.Abs())
    ensures r == BadName <==> !Is83(name)
    ensures r == BadName <==> Pack(name) == None
    ensures r == BadName ==> fs.disk == old(fs.disk)
    ensures Pack(name).Some? ==> (r == Full <==> NoRoom(old(fs.Abs()), Pack(name).value, |b|))
    ensures r == Full ==> RootChain(fs.Abs()) == RootChain(old(fs.Abs()))
                          && forall q :: ReadRoot(fs.Abs(), q) == ReadRoot(old(fs.Abs()), q)
    ensures r == Done ==> Created(old(fs.Abs()), Pack(name).value, b, tr, fs.Abs())
    ensures r == Done && |RootChain(fs.Abs())| <= MAX_CLUSTERS ==>
              forall q :: !SameName(Display(Pack(name).value), q) ==>
                            ReadRoot(fs.Abs(), q) == ReadRoot(old(fs.Abs()), q)
    ensures r == Done && |RootChain(fs.Abs())| <= MAX_CLUSTERS ==>
              0 < fs.g.ClusterBytes() && forall q ::
                SameName(Display(Pack(name).value), q) ==> ReadRoot(fs.Abs(), q) == ReadBack(b, fs.g.ClusterBytes())
  {
    hide Is83, Sectors, Mirrored, SameTops, FatOf, DataOf, RootChain, RootSlots, Sound, Display, Pack, Stored, Upserted, ReadRoot, Entry, Shape, ClustersFor, ReadBack, Fresh, Marked, Smallest, NoChoice, FreeSet;
    ghost var v := fs.Abs();
    ghost var d0 := fs.disk;
    NoChange(fs.g, d0);
    ShapeFacts(v);
    tr := Trace([], v, None, v, 0, 0);
    var packed := PackShortName(name);
    if packed == None {
      return BadName, tr;
    }
    var n := packed.value;
    var ok, w := StoreFile(fs, b);
    if !ok {
      forall q ensures WF(fs.Abs()) && ReadRoot(fs.Abs(), q) == ReadRoot(v, q) {
        MarkedReads(v, w, fs.Abs().fat, q);
      }
      MarkedReads(v, w, fs.Abs().fat, []);
      return Full, tr;
    }
    ghost var v1 := fs.Abs();
    ghost var d1 := fs.disk;
    StoredSound(v, w, b, v1);
    assert RootChain(v1) == LayoutOf(v1).root == RootChain(v);
    ghost var grown, v2, j, k;
    ok, grown, v2, j, k := UpsertRootDirEntry(fs, n, FirstOf(w), |b| % 0x1_0000_0000);
    SameTopsTrans(fs.g, d0, d1, fs.disk);
    if !ok {
      forall q ensures ReadRoot(fs.Abs(), q) == ReadRoot(v, q) {
        StoreInvisible(v, w, b, v1, q);
      }
      RootFull(v, n, w, b, v1);
      return Full, tr;
    }
    tr := Trace(w, v1, grown, v2, j, k);
    assert Created(v, n, b, tr, fs.Abs());
    CreateSound(v, name, b, tr, fs.Abs());
    HadRoom(v, n, b, tr, fs.Abs());
    AfterCreate(v, name, b, tr, fs.Abs());
    r := Done;
  }

  lemma MarkedReads(v: Vol, w: seq<nat>, now: Fat, q: seq<Byte>)
    requires WF(v) && Fresh(v.fat, w) && Marked(v.fat, w, now)
    ensures WF(v.(fat := now)) && RootChain(v.(fat := now)) == RootChain(v)
    ensures ReadRoot(v.(fat := now), q) == ReadRoot(v, q)
  {
    hide Sound, ReadRoot, RootChain;
    TakeInvisible(v, w, now, q);
  }

  /** The laws of `create_root_file` for all names at once. */
  lemma AfterCreate(v: Vol, name: seq<Byte>, b: seq<Byte>, tr: Trace, v3: Vol)
    requires WF(v) && Pack(name).Some? && Created(v, Pack(name).value, b, tr, v3) && WF(v3) && v.size > 0
    ensures |RootChain(v3)| <= MAX_CLUSTERS ==>
              forall q :: !SameName(Display(Pack(name).value), q) ==> ReadRoot(v3, q) == ReadRoot(v, q)
    ensures |RootChain(v3)| <= MAX_CLUSTERS ==>
              forall q :: SameName(Display(Pack(name).value), q) ==> ReadRoot(v3, q) == ReadBack(b, v.size)
  {
    hide RootChain, RootSlots, Sound, Display, Pack, Stored, Upserted, ReadRoot, Entry, ReadBack, SameName;
    if |RootChain(v3)| <= MAX_CLUSTERS {
      forall q | !SameName(Display(Pack(name).value), q) ensures ReadRoot(v3, q) == ReadRoot(v, q) {
        OthersReadTheSame(v, name, b, tr, v3, q);
      }
      forall q | SameName(Display(Pack(name).value), q) ensures ReadRoot(v3, q) == ReadBack(b, v.size) {
        CreateReadsBack(v, name, b, tr, v3, q);
      }
    }
  }

  /** `pack_short_name` */
  method PackShortName(name: seq<Byte>) returns (r: Option<seq<Byte>>)
    ensures r == Pack(name) && (r.Some? <==> Is83(name))
  {
    hide Is83;
    PacksExactly(name);
    var upper := UpperAll(name);
    var base, ext := BaseOf(upper), ExtOf(upper);
    if base == [] || |base| > 8 || |ext| > 3 {
      return None;
    }
    var ok, left := FillPart(base, 8);
    if !ok {
      return None;
    }
    var right;
    ok, right := FillPart(ext, 3);
    if !ok {
      return None;
    }
    r := Some(left + right);
  }

  /** One of the two loops of `pack_short_name`. */
  method FillPart(s: seq<Byte>, n: nat) returns (ok: bool, buf: seq<Byte>)
    requires |s| <= n
    ensures ok <==> AllValid(s)
    ensures ok ==> buf == Padded(s, n)
  {
    buf := seq(n, _ => SPACE);
    for i := 0 to |s|
      invariant |buf| == n && AllValid(s[..i])
      invariant forall k :: 0 <= k < n ==> buf[k] == if k < i then s[k] else SPACE
    {
      if !ValidByte(s[i]) {
        return false, buf;
      }
      assert s[..i + 1] == s[..i] + [s[i]];
      buf := buf[i := s[i]];
    }
    assert s[..|s|] == s;
    ok := true;
  }

  // ---------------------------------------------------------------------------
  // unlink_root
  // ---------------------------------------------------------------------------

  /** The scan of one cluster in `unlink_root`: the first slot that ends the search, if any. */
  method FindStop(slots: seq<Slot>, n: seq<Byte>) returns (r: Option<nat>)
    requires AllSlots(slots) && |n| == 11 && n[0] != 0x00 && n[0] != 0xE5
    ensures r == None ==> forall t :: 0 <= t < |slots| ==> !Stops(slots[t], n)
    ensures r.Some? ==> r.value < |slots| && Stops(slots[r.value], n) && forall t :: 0 <= t < r.value ==> !Stops(slots[t], n)
  {
    var k := 0;
    while k < |slots|
      invariant k <= |slots| && forall t :: 0 <= t < k ==> !Stops(slots[t], n)
    {
      if AtEnd(slots[k]) {
        return Some(k);
      }
      if !IsLongName(slots[k]) && NameOf(slots[k]) == n {
        assert slots[k][0] == n[0];
        return Some(k);
      }
      k := k + 1;
    }
    r := None;
  }

  /** `unlink_root`; it fails when no slot in front of the end mark has the name. */
  method UnlinkRoot(fs: Fat32, name: seq<Byte>) returns (ok: bool, ghost j: nat, ghost k: nat)
    requires fs.Valid() && WF(fs.Abs())
    modifies fs
    ensures fs.Valid() && SameTops(fs.g, old(fs.disk), fs.disk) && WF(fs.Abs())
    ensures ok ==> Is83(name)
    ensures ok ==> Pack(name).Some? && Removed(old(fs.Abs()), Pack(name).value, j, k, fs.Abs())
    ensures !ok ==> fs.disk == old(fs.disk)
    ensures !ok && Pack(name).Some? ==>
              forall t :: 0 <= t < |RootSlots(fs.Abs())| ==> !Matches(RootSlots(fs.Abs())[t], Pack(name).value)
  {
    hide Is83, EntryLba, EntryRead, Sectors, Mirrored, SameTops, FatOf, DataOf, RootChain, RootSlots, Sound, Matches, Slots, Shape, PutAt, Pack, FirstSlots, Stops, SlotIndex;
    ghost var v := fs.Abs();
    NoChange(fs.g, fs.disk);
    j, k := 0, 0;
    var packed := PackShortName(name);
    if packed == None {
      return false, j, k;
    }
    var n := packed.value;
    PackCanonical(name);
    var cur := fs.g.root;
    FirstSlotsEnds(v);
    while true
      invariant fs.disk == old(fs.disk) && j < |RootChain(v)| && cur == RootChain(v)[j]
      invariant forall t :: 0 <= t < |FirstSlots(v, j)| ==> !Stops(FirstSlots(v, j)[t], n)
      decreases |RootChain(v)| - j
    {
      RootAt(v, j);
      var buf := fs.ReadCluster(cur);
      var stop := FindStop(Slots(buf), n);
      FirstSlotsNext(v, j);
      if stop.Some? {
        k := stop.value;
        StopHere(v, n, j, k);
        if AtEnd(Slots(buf)[stop.value]) {
          NoMatchBehind(v, n, SlotIndex(v, j, k));
          return false, j, k;
        }
        MatchHere(Slots(buf)[stop.value], n);
        var x: Slot := [0xE5] + Slots(buf)[stop.value][1..];
        PutSlot(fs, cur, stop.value, true, x, j);
        UnlinkSound(v, n, j, k, fs.Abs());
        return true, j, k;
      }
      fs.InTable(cur);
      var next := fs.NextCluster(cur);
      match next {
        case Some(c) => cur, j := c, j + 1;
        case None =>
          NoStopNoMatch(RootSlots(v), n);
          return false, j, k;
      }
    }
  }

  lemma NoStopNoMatch(slots: seq<Slot>, n: seq<Byte>)
    requires AllSlots(slots) && forall t :: 0 <= t < |slots| ==> !Stops(slots[t], n)
    ensures forall t :: 0 <= t < |slots| ==> !Matches(slots[t], n)
  {
    forall t | 0 <= t < |slots| ensures !Matches(slots[t], n) {
      assert !Stops(slots[t], n);
    }
  }

  lemma MatchHere(s: Slot, n: seq<Byte>)
    requires |s| == SLOT && Stops(s, n) && !AtEnd(s)
    ensures Matches(s, n) && Live(s)
  {
  }

  lemma StopHere(v: Vol, n: seq<Byte>, j: nat, k: nat)
    requires Rooted(v) && j < |RootChain(v)| && RootChain(v)[j] < |v.data| && k < |Slots(v.data[RootChain(v)[j]])|
    requires forall t :: 0 <= t < |FirstSlots(v, j)| ==> !Stops(FirstSlots(v, j)[t], n)
    requires forall t :: 0 <= t < k ==> !Stops(Slots(v.data[RootChain(v)[j]])[t], n)
    ensures SLOT * k + SLOT <= v.size && SlotIndex(v, j, k) < |RootSlots(v)|
    ensures RootSlots(v)[SlotIndex(v, j, k)] == Slots(v.data[RootChain(v)[j]])[k]
    ensures forall t :: 0 <= t < SlotIndex(v, j, k) ==> !Stops(RootSlots(v)[t], n)
  {
    hide Stops, Flat;
    RootAt(v, j);
    SlotAt(v, j, k);
    SlotsSplit(v, RootChain(v), j);
    var a, mid := FirstSlots(v, j), Slots(v.data[RootChain(v)[j]]);
    forall t | 0 <= t < SlotIndex(v, j, k) ensures !Stops(RootSlots(v)[t], n) {
      if t < |a| {
        assert RootSlots(v)[t] == a[t];
      } else {
        assert RootSlots(v)[t] == mid[t - |a|];
      }
    }
  }

  lemma NoMatchBehind(v: Vol, n: seq<Byte>, s: nat)
    requires WF(v) && s < |RootSlots(v)| && AtEnd(RootSlots(v)[s])
    requires forall t :: 0 <= t < s ==> !Stops(RootSlots(v)[t], n)
    ensures forall t :: 0 <= t < |RootSlots(v)| ==> !Matches(RootSlots(v)[t], n)
  {
    hide RootSlots, RootChain, SlotOk, Separate;
    assert ZeroTail(LayoutOf(v).slots);
    forall t | 0 <= t < |RootSlots(v)| ensures !Matches(RootSlots(v)[t], n) {
      if t < s {
        assert !Stops(RootSlots(v)[t], n);
      }
    }
  }
}
