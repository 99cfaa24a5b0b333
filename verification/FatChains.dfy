/**
 Cluster chains in a file allocation table: what kernel/src/drivers/fat32.rs follows, links and
 frees.  The table holds 28-bit values; cluster numbers start at 2.
 */
module FatChains {
  import opened Options

  const END_OF_CHAIN: nat := 0x0FFF_FFF8
  const BAD_CLUSTER: nat := 0x0FFF_FFF7
  const LAST: nat := 0x0FFF_FFFF

  type Fat = seq<nat>

  /** `next_cluster` */
  function Next(fat: Fat, c: nat): Option<nat>
    requires c < |fat|
  {
    if fat[c] >= END_OF_CHAIN || fat[c] < 2 then None else Some(fat[c])
  }

  predicate IsCluster(fat: Fat, c: nat) { 2 <= c < |fat| }

  /** Clusters met one after the other from the first one. */
  ghost predicate Path(fat: Fat, w: seq<nat>) {
    && |w| > 0
    && (forall i :: 0 <= i < |w| ==> IsCluster(fat, w[i]))
    && (forall i :: 0 < i < |w| ==> Next(fat, w[i - 1]) == Some(w[i]))
  }

  /** A path that stops: the last cluster has no successor. */
  ghost predicate Ends(fat: Fat, w: seq<nat>) {
    Path(fat, w) && Next(fat, w[|w| - 1]) == None
  }

  /** A well-formed chain stops at an end-of-chain mark. */
  ghost predicate IsChain(fat: Fat, w: seq<nat>) {
    Path(fat, w) && fat[w[|w| - 1]] >= END_OF_CHAIN
  }

  ghost predicate Distinct(w: seq<nat>) {
    forall i, j :: 0 <= i < j < |w| ==> w[i] != w[j]
  }

  ghost predicate Apart(a: seq<nat>, b: seq<nat>) {
    forall i, j :: 0 <= i < |a| && 0 <= j < |b| ==> a[i] != b[j]
  }

  /** From a cluster there is only one way to go. */
  lemma {:induction false} PathPrefix(fat: Fat, w: seq<nat>, ch: seq<nat>)
    requires Path(fat, w) && Ends(fat, ch) && w[0] == ch[0]
    ensures |w| <= |ch| && w == ch[..|w|]
  {
    if |w| > 1 {
      var p := w[..|w| - 1];
      PathPrefix(fat, p, ch);
      var last := |p| - 1;
      assert Next(fat, w[last]) == Some(w[last + 1]);
      assert p[last] == ch[last];
      assert Next(fat, ch[last]) == Some(ch[last + 1]);
      assert w == p + [w[last + 1]];
    }
  }

  lemma ChainUnique(fat: Fat, a: seq<nat>, b: seq<nat>)
    requires Ends(fat, a) && Ends(fat, b) && a[0] == b[0]
    ensures a == b
  {
    PathPrefix(fat, a, b);
    PathPrefix(fat, b, a);
  }

  lemma Suffix(fat: Fat, w: seq<nat>, i: nat)
    requires Ends(fat, w) && i < |w|
    ensures Ends(fat, w[i..])
    ensures IsChain(fat, w) ==> IsChain(fat, w[i..])
  {
    var s := w[i..];
    forall k | 0 < k < |s| ensures Next(fat, s[k - 1]) == Some(s[k]) {
      assert s[k] == w[i + k] && s[k - 1] == w[i + k - 1];
    }
  }

  /** A path that stops never meets a cluster twice. */
  lemma EndsDistinct(fat: Fat, w: seq<nat>)
    requires Ends(fat, w)
    ensures Distinct(w)
  {
    forall i, j | 0 <= i < j < |w| ensures w[i] != w[j] {
      if w[i] == w[j] {
        Suffix(fat, w, i);
        Suffix(fat, w, j);
        ChainUnique(fat, w[i..], w[j..]);
        assert false;
      }
    }
  }

  ghost predicate HasChain(fat: Fat, c: nat) {
    exists w :: IsChain(fat, w) && w[0] == c
  }

  ghost function ChainOf(fat: Fat, c: nat): (w: seq<nat>)
    requires HasChain(fat, c)
    ensures IsChain(fat, w) && w[0] == c
  {
    var w :| IsChain(fat, w) && w[0] == c;
    w
  }

  lemma ChainIs(fat: Fat, w: seq<nat>)
    requires IsChain(fat, w)
    ensures HasChain(fat, w[0]) && ChainOf(fat, w[0]) == w
  {
    assert HasChain(fat, w[0]);
    ChainUnique(fat, ChainOf(fat, w[0]), w);
  }

  ghost predicate Agree(fat: Fat, now: Fat, w: seq<nat>) {
    |now| == |fat| && forall i :: 0 <= i < |w| && w[i] < |fat| ==> now[w[i]] == fat[w[i]]
  }

  /** A chain whose entries do not change stays what it was. */
  lemma ChainFrame(fat: Fat, now: Fat, w: seq<nat>)
    requires IsChain(fat, w) && Agree(fat, now, w)
    ensures IsChain(now, w)
  {
    forall i | 0 < i < |w| ensures Next(now, w[i - 1]) == Some(w[i]) {
      assert Next(fat, w[i - 1]) == Some(w[i]);
      assert now[w[i - 1]] == fat[w[i - 1]];
    }
  }

  // ---------------------------------------------------------------------------
  // Changing the table
  // ---------------------------------------------------------------------------

  ghost predicate IsFree(fat: Fat, c: nat) { IsCluster(fat, c) && fat[c] == 0 }

  /** What a fresh chain puts at its `i`th cluster. */
  function LinkAt(w: seq<nat>, i: nat): nat
    requires i < |w|
  {
    if i + 1 < |w| then w[i + 1] else LAST
  }

  /** `now` is `fat` with the clusters of `w` linked into a chain. */
  ghost predicate Linked(fat: Fat, w: seq<nat>, now: Fat) {
    && |now| == |fat|
    && (forall c :: 0 <= c < |fat| && c !in w ==> now[c] == fat[c])
    && (forall i :: 0 <= i < |w| ==> w[i] < |now| && now[w[i]] == LinkAt(w, i))
  }

  ghost predicate Fresh(fat: Fat, w: seq<nat>) {
    Distinct(w) && forall i :: 0 <= i < |w| ==> IsFree(fat, w[i])
  }

  lemma LinkedChain(fat: Fat, w: seq<nat>, now: Fat)
    requires |fat| <= BAD_CLUSTER && Fresh(fat, w) && Linked(fat, w, now) && |w| > 0
    ensures IsChain(now, w)
  {
    forall i | 0 < i < |w| ensures Next(now, w[i - 1]) == Some(w[i]) {
      assert now[w[i - 1]] == LinkAt(w, i - 1);
      assert IsFree(fat, w[i]);
    }
    assert now[w[|w| - 1]] == LinkAt(w, |w| - 1);
  }

  /** No cluster of a chain is free. */
  lemma ChainNotFree(fat: Fat, w: seq<nat>, i: nat)
    requires IsChain(fat, w) && i < |w|
    ensures fat[w[i]] != 0
    ensures |fat| <= BAD_CLUSTER ==> fat[w[i]] != BAD_CLUSTER
  {
    if i + 1 < |w| {
      assert Next(fat, w[i + 1 - 1]) == Some(w[i + 1]);
    }
  }

  /** `now` is `fat` with the clusters of `w` freed. */
  ghost predicate Zeroed(fat: Fat, w: seq<nat>, now: Fat) {
    |now| == |fat| && forall c :: 0 <= c < |fat| ==> now[c] == if c in w then 0 else fat[c]
  }

  /** A chain grown by one cluster at its end. */
  ghost function Grown(fat: Fat, w: seq<nat>, g: nat): Fat
    requires IsChain(fat, w) && IsFree(fat, g)
  {
    fat[g := LAST][w[|w| - 1] := g]
  }

  lemma GrownChain(fat: Fat, w: seq<nat>, g: nat)
    requires |fat| <= BAD_CLUSTER && IsChain(fat, w) && IsFree(fat, g)
    ensures IsChain(Grown(fat, w, g), w + [g])
  {
    EndsDistinct(fat, w);
    var now := Grown(fat, w, g);
    var x := w + [g];
    forall i | 0 < i < |x| ensures Next(now, x[i - 1]) == Some(x[i]) {
      if i < |w| {
        assert Next(fat, w[i - 1]) == Some(w[i]);
        ChainNotFree(fat, w, i - 1);
      }
    }
    forall i | 0 <= i < |w| ensures w[i] != g {
      ChainNotFree(fat, w, i);
    }
  }

  // ---------------------------------------------------------------------------
  // Reachability, for tables with any shape
  // ---------------------------------------------------------------------------

  /** Entries are free, marks, or existing clusters, and no entry leads to a bad cluster. */
  ghost predicate InRange(fat: Fat) {
    forall c :: 2 <= c < |fat| && fat[c] != BAD_CLUSTER && Next(fat, c).Some? ==>
      fat[c] < |fat| && fat[fat[c]] != BAD_CLUSTER
  }

  ghost predicate Reachable(fat: Fat, first: nat, c: nat) {
    exists w :: Path(fat, w) && w[0] == first && w[|w| - 1] == c
  }

  /** A path cannot leave a set of clusters that is closed under `Next`. */
  lemma {:induction false} Confined(fat: Fat, w: seq<nat>, inside: set<nat>)
    requires Path(fat, w) && w[0] in inside
    requires forall c :: c in inside && c < |fat| && Next(fat, c).Some? ==> Next(fat, c).value in inside
    ensures w[|w| - 1] in inside
  {
    if |w| > 1 {
      Confined(fat, w[..|w| - 1], inside);
      assert Next(fat, w[|w| - 2]) == Some(w[|w| - 1]);
    }
  }
}
