/**
 The loops of kernel/src/drivers/fat32.rs that follow, free, allocate and fill chains and that
 scan the root directory, each proved against its description on the volume.
 */
module FatDriver {
  import opened Options
  import opened FatChains
  import opened FatNames
  import opened FatVolume
  import opened FatFiles
  import opened FatTheorems
  import opened FatDisk

  // ---------------------------------------------------------------------------
  // Chains of any shape
  // ---------------------------------------------------------------------------

  /** Following entries from `first` never leads outside the table. */
  ghost predicate Contained(fat: Fat, first: nat) {
    && IsCluster(fat, first)
    && forall c: nat :: Reachable(fat, first, c) && c < |fat| && Next(fat, c).Some? ==> Next(fat, c).value < |fat|
  }

  lemma {:induction false} InRangePath(fat: Fat, w: seq<nat>)
    requires InRange(fat) && Path(fat, w) && fat[w[0]] != BAD_CLUSTER
    ensures fat[w[|w| - 1]] != BAD_CLUSTER
  {
    if |w| > 1 {
      InRangePath(fat, w[..|w| - 1]);
      assert Next(fat, w[|w| - 2]) == Some(w[|w| - 1]);
    }
  }

  /** A table in range, cyclic or not, keeps every walk inside. */
  lemma InRangeContained(fat: Fat, first: nat)
    requires InRange(fat) && IsCluster(fat, first) && fat[first] != BAD_CLUSTER
    ensures Contained(fat, first)
  {
    forall c: nat | Reachable(fat, first, c) && c < |fat| && Next(fat, c).Some? ensures Next(fat, c).value < |fat| {
      var w :| Path(fat, w) && w[0] == first && w[|w| - 1] == c;
      InRangePath(fat, w);
    }
  }

  lemma InChain(fat: Fat, ch: seq<nat>, c: nat)
    requires Ends(fat, ch)
    ensures Reachable(fat, ch[0], c) <==> c in ch
  {
    if Reachable(fat, ch[0], c) {
      var w :| Path(fat, w) && w[0] == ch[0] && w[|w| - 1] == c;
      PathPrefix(fat, w, ch);
      assert ch[|w| - 1] == c;
    }
    if c in ch {
      var i :| 0 <= i < |ch| && ch[i] == c;
      var w := ch[..i + 1];
      assert Path(fat, w) && w[0] == ch[0] && w[|w| - 1] == c;
    }
  }

  lemma ChainContained(fat: Fat, ch: seq<nat>)
    requires Ends(fat, ch)
    ensures Contained(fat, ch[0])
  {
    forall c: nat | Reachable(fat, ch[0], c) && c < |fat| && Next(fat, c).Some? ensures Next(fat, c).value < |fat| {
      InChain(fat, ch, c);
      var i :| 0 <= i < |ch| && ch[i] == c;
      assert i + 1 < |ch|;
      assert Next(fat, ch[i + 1 - 1]) == Some(ch[i + 1]);
    }
  }

  /** The table with everything reachable from `first` freed. */
  ghost predicate Swept(fat: Fat, first: nat, now: Fat) {
    |now| == |fat| && forall c: nat :: c < |fat| ==> now[c] == if Reachable(fat, first, c) then 0 else fat[c]
  }

  lemma SweptChain(fat: Fat, ch: seq<nat>, now: Fat)
    requires Ends(fat, ch) && Swept(fat, ch[0], now)
    ensures Zeroed(fat, ch, now)
  {
    hide Reachable;
    forall c: nat | c < |fat| ensures Reachable(fat, ch[0], c) <==> c in ch {
      InChain(fat, ch, c);
    }
  }

  /** The clusters visited so far, in order, and the one to visit now. */
  ghost predicate Walked(fat: Fat, first: nat, w: seq<nat>, cur: nat) {
    && Path(fat, w + [cur]) && (w + [cur])[0] == first && Distinct(w)
  }

  lemma WalkReaches(fat: Fat, first: nat, w: seq<nat>, cur: nat)
    requires Walked(fat, first, w, cur)
    ensures Reachable(fat, first, cur) && forall i :: 0 <= i < |w| ==> Reachable(fat, first, w[i])
  {
    var p := w + [cur];
    assert p[|p| - 1] == cur;
    forall i | 0 <= i < |w| ensures Reachable(fat, first, w[i]) {
      var r := p[..i + 1];
      assert Path(fat, r) && r[0] == first && r[|r| - 1] == w[i];
    }
  }

  /** When the walk stops or returns to a visited cluster, everything reachable has been visited. */
  lemma WalkComplete(fat: Fat, first: nat, w: seq<nat>, c: nat)
    requires Path(fat, w) && w[0] == first
    requires var n := Next(fat, w[|w| - 1]); n == None || n.value in w
    ensures Reachable(fat, first, c) ==> c in w
  {
    if Reachable(fat, first, c) {
      var p :| Path(fat, p) && p[0] == first && p[|p| - 1] == c;
      var inside := Members(w);
      forall x | x in inside && x < |fat| && Next(fat, x).Some? ensures Next(fat, x).value in inside {
        var i :| 0 <= i < |w| && w[i] == x;
        if i + 1 < |w| {
          assert Next(fat, w[i + 1 - 1]) == Some(w[i + 1]);
        }
      }
      Confined(fat, p, inside);
    }
  }

  lemma DistinctBound(w: seq<nat>, n: nat)
    requires Distinct(w) && forall i :: 0 <= i < |w| ==> w[i] < n
    ensures |w| <= n
  {
    MembersSize(w);
    BelowSize(Members(w), n);
  }

  lemma {:induction false} BelowSize(s: set<nat>, n: nat)
    requires forall x :: x in s ==> x < n
    ensures |s| <= n
  {
    if n == 0 {
      assert s == {};
    } else {
      BelowSize(s - {n - 1}, n - 1);
    }
  }

  lemma WalkStep(fat: Fat, first: nat, w: seq<nat>, cur: nat, next: nat)
    requires Contained(fat, first) && Walked(fat, first, w, cur) && cur !in w
    requires cur < |fat| && Next(fat, cur) == Some(next)
    ensures Walked(fat, first, w + [cur], next)
  {
    WalkReaches(fat, first, w, cur);
    var p := w + [cur] + [next];
    forall i | 0 < i < |p| ensures Next(fat, p[i - 1]) == Some(p[i]) {
      if i < |w + [cur]| {
        assert Next(fat, (w + [cur])[i - 1]) == Some((w + [cur])[i]);
      }
    }
  }

  lemma SweepDone(fat: Fat, first: nat, w: seq<nat>, now: Fat)
    requires Path(fat, w) && w[0] == first && Zeroed(fat, w, now)
    requires var n := Next(fat, w[|w| - 1]); n == None || n.value in w
    ensures Swept(fat, first, now)
  {
    hide Reachable;
    forall c: nat | c < |fat| ensures Reachable(fat, first, c) <==> c in w {
      WalkComplete(fat, first, w, c);
      if c in w {
        var i :| 0 <= i < |w| && w[i] == c;
        PrefixReaches(fat, w, i);
      }
    }
  }

  lemma PrefixReaches(fat: Fat, w: seq<nat>, i: nat)
    requires Path(fat, w) && i < |w|
    ensures Reachable(fat, w[0], w[i])
  {
    var r := w[..i + 1];
    assert Path(fat, r) && r[0] == w[0] && r[|r| - 1] == w[i];
  }

  /**
   `free_chain`: it stops on every table that keeps the walk inside, also on a cyclic one, and
   frees exactly what can be reached.
   */
  method FreeChain(fs: Fat32, first: nat)
    requires fs.Valid() && (first < 2 || Contained(fs.Abs().fat, first))
    modifies fs
    ensures fs.Valid() && SameTops(fs.g, old(fs.disk), fs.disk)
    ensures fs.Abs() == old(fs.Abs()).(fat := fs.Abs().fat)
    ensures first < 2 ==> fs.Abs() == old(fs.Abs())
    ensures first >= 2 ==> Swept(old(fs.Abs()).fat, first, fs.Abs().fat)
  {
    hide CopiesWritten, EntryLba, EntryRead, Sectors, Mirrored, SameTops, FatOf, DataOf, Reachable, Contained, Path;
    NoChange(fs.g, fs.disk);
    if first < 2 {
      return;
    }
    ghost var v := fs.Abs();
    ghost var start := fs.disk;
    var cur := first;
    ghost var w: seq<nat> := [];
    WalkStart(v.fat, first);
    while true
      invariant fs.Valid() && SameTops(fs.g, start, fs.disk)
      invariant fs.Abs() == v.(fat := fs.Abs().fat) && Zeroed(v.fat, w, fs.Abs().fat)
      invariant Walked(v.fat, first, w, cur)
      decreases |v.fat| - |w|
    {
      WalkBound(v.fat, first, w, cur);
      fs.InTable(cur);
      var next := fs.NextCluster(cur);
      ghost var before := fs.disk;
      var written := fs.SetFatEntry(cur, 0);
      SameTopsTrans(fs.g, start, before, fs.disk);
      match next
      case None =>
        if cur in w {
          assert Zeroed(v.fat, w, fs.Abs().fat);
          WalkClosed(v.fat, first, w, cur);
          SweepDone(v.fat, first, w, fs.Abs().fat);
        } else {
          assert Zeroed(v.fat, w + [cur], fs.Abs().fat);
          WalkPath(v.fat, first, w, cur);
          SweepDone(v.fat, first, w + [cur], fs.Abs().fat);
        }
        return;
      case Some(n) =>
        assert cur !in w;
        WalkStep(v.fat, first, w, cur, n);
        w := w + [cur];
        cur := n;
    }
  }

  lemma WalkStart(fat: Fat, first: nat)
    requires Contained(fat, first)
    ensures Walked(fat, first, [], first) && Zeroed(fat, [], fat)
  {
  }

  lemma WalkBound(fat: Fat, first: nat, w: seq<nat>, cur: nat)
    requires Walked(fat, first, w, cur)
    ensures IsCluster(fat, cur) && |w| <= |fat| && (cur !in w ==> |w| < |fat|)
  {
    var p := w + [cur];
    assert forall i :: 0 <= i < |p| ==> IsCluster(fat, p[i]);
    assert forall i :: 0 <= i < |w| ==> w[i] == p[i];
    assert p[|w|] == cur;
    DistinctBound(w, |fat|);
    if cur !in w {
      DistinctBound(p, |fat|);
    }
  }

  lemma WalkPath(fat: Fat, first: nat, w: seq<nat>, cur: nat)
    requires Walked(fat, first, w, cur)
    ensures Path(fat, w + [cur]) && (w + [cur])[0] == first
  {
  }

  /** The walk came back to a cluster it had visited. */
  lemma WalkClosed(fat: Fat, first: nat, w: seq<nat>, cur: nat)
    requires Walked(fat, first, w, cur) && cur in w
    ensures Path(fat, w) && w[0] == first && Next(fat, w[|w| - 1]) == Some(cur)
  {
    var p := w + [cur];
    assert w == p[..|w|];
    assert Next(fat, p[|w| - 1]) == Some(p[|w|]);
    forall i | 0 < i < |w| ensures Next(fat, w[i - 1]) == Some(w[i]) {
      assert Next(fat, p[i - 1]) == Some(p[i]);
    }
  }

  // ---------------------------------------------------------------------------
  // Reading a chain
  // ---------------------------------------------------------------------------

  lemma PathStep(fat: Fat, start: nat, w: seq<nat>, cur: nat, next: nat)
    requires Contained(fat, start) && Path(fat, w + [cur]) && (w + [cur])[0] == start
    requires cur < |fat| && Next(fat, cur) == Some(next)
    ensures Path(fat, w + [cur] + [next]) && (w + [cur] + [next])[0] == start
  {
    var p := w + [cur];
    assert p[|p| - 1] == cur;
    assert Reachable(fat, start, cur);
    forall i | 0 < i < |p + [next]| ensures Next(fat, (p + [next])[i - 1]) == Some((p + [next])[i]) {
      if i < |p| {
        assert Next(fat, p[i - 1]) == Some(p[i]);
      }
    }
  }

  lemma PathWithin(v: Vol, w: seq<nat>)
    requires Shape(v) && Path(v.fat, w)
    ensures Within(v.data, w) && IsCluster(v.fat, w[|w| - 1])
  {
  }

  /** What `read_chain` returns from a start cluster. */
  ghost predicate ReadsAs(v: Vol, start: nat, r: Option<seq<Byte>>) {
    match r
    case Some(b) => exists w :: Ends(v.fat, w) && w[0] == start && |w| <= MAX_CLUSTERS
                                && Within(v.data, w) && b == Flat(v.data, w)
    case None => forall w :: Ends(v.fat, w) && w[0] == start ==> |w| > MAX_CLUSTERS
  }

  lemma ReadsSome(v: Vol, w: seq<nat>)
    requires Ends(v.fat, w) && |w| <= MAX_CLUSTERS && Within(v.data, w)
    ensures ReadsAs(v, w[0], Some(Flat(v.data, w)))
  {
  }

  lemma ReadsNone(v: Vol, p: seq<nat>)
    requires Path(v.fat, p) && |p| > MAX_CLUSTERS
    ensures ReadsAs(v, p[0], None)
  {
    forall ch | Ends(v.fat, ch) && ch[0] == p[0] ensures |ch| > MAX_CLUSTERS {
      PathPrefix(v.fat, p, ch);
    }
  }

  /**
   `read_chain`: the bytes of a chain that stops within the bound, and an error for a longer one
   and for a cycle.
   */
  method ReadChain(fs: Fat32, start: nat) returns (r: Option<seq<Byte>>)
    requires fs.Valid() && Contained(fs.Abs().fat, start)
    ensures ReadsAs(fs.Abs(), start, r)
  {
    hide EntryLba, EntryRead, Sectors, Mirrored, SameTops, FatOf, DataOf, Reachable, Contained, Path, Flat, ReadsAs;
    ghost var v := fs.Abs();
    VolShape(fs.g, fs.disk);
    var data: seq<Byte> := [];
    var cluster, safety := start, 0;
    ghost var w: seq<nat> := [];
    StartPath(v, start);
    while true
      invariant safety == |w| <= 1_000_000
      invariant Path(v.fat, w + [cluster]) && (w + [cluster])[0] == start
      invariant Within(v.data, w) && data == Flat(v.data, w)
      decreases 1_000_000 - safety
    {
      PathWithin(v, w + [cluster]);
      var buf := fs.ReadCluster(cluster);
      FlatTail(v.data, w, cluster);
      data := data + buf;
      fs.InTable(cluster);
      var next := fs.NextCluster(cluster);
      match next {
        case None =>
          ReadsSome(v, w + [cluster]);
          return Some(data);
        case Some(n) =>
          PathStep(v.fat, start, w, cluster, n);
          w := w + [cluster];
          cluster := n;
      }
      safety := safety + 1;
      if safety > 1_000_000 {
        ReadsNone(v, w + [cluster]);
        return None;
      }
    }
  }

  lemma StartPath(v: Vol, start: nat)
    requires Shape(v) && Contained(v.fat, start)
    ensures Path(v.fat, [] + [start]) && Flat(v.data, []) == []
  {
    assert [] + [start] == [start];
  }
}
