/**
 Runs of operations on a mounted FAT32 volume: whatever is created, replaced and removed in
 between, a file reads back as it was last written.
 */
module FatSession {
  import opened Options
  import opened FatNames
  import opened FatDirectory
  import opened FatLayout
  import opened FatVolume
  import opened FatFiles
  import opened FatTheorems
  import opened FatDisk
  import opened FatWriter

  datatype Op = Create(name: seq<Byte>, bytes: seq<Byte>) | Unlink(name: seq<Byte>)

  ghost predicate Touches(op: Op, n: seq<Byte>) { Pack(op.name) == Some(n) }

  /** A successful create, not overwritten or removed before step `i`. */
  ghost predicate Stands(ops: seq<Op>, done: seq<bool>, k: nat, i: nat)
    requires |done| == i <= |ops|
  {
    && k < i && done[k] && ops[k].Create? && Pack(ops[k].name).Some?
    && forall m :: k < m < i ==> !Touches(ops[m], Pack(ops[k].name).value)
  }

  /** Every spelling of the name reads the bytes. */
  ghost predicate ReadsBack(v: Vol, op: Op, size: nat)
    requires WF(v)
  {
    Pack(op.name).Some? && op.Create? && size > 0 &&
    forall q :: SameName(Display(Pack(op.name).value), q) ==> ReadRoot(v, q) == ReadBack(op.bytes, size)
  }

  /** Two packed names that are shown alike are the same. */
  lemma NamesApart(a: seq<Byte>, b: seq<Byte>, q: seq<Byte>)
    requires Pack(a).Some? && Pack(b).Some?
    requires SameName(Display(Pack(a).value), q) && SameName(Display(Pack(b).value), q)
    ensures Pack(a) == Pack(b)
  {
    PackShown(a, q);
    PackShown(b, q);
  }

  /** Names that are not shown like `n` read as before. */
  ghost predicate OthersSame(v: Vol, n: seq<Byte>, now: Vol)
    requires WF(v) && WF(now) && |n| == 11
  {
    forall q :: !SameName(Display(n), q) ==> ReadRoot(now, q) == ReadRoot(v, q)
  }

  /** A file survives every step that leaves the other names alone. */
  lemma Survives(v: Vol, now: Vol, op: Op, name: seq<Byte>, size: nat)
    requires WF(v) && WF(now) && ReadsBack(v, op, size) && Pack(name) != Pack(op.name)
    requires Pack(name).Some? ==> OthersSame(v, Pack(name).value, now)
    requires Pack(name) == None ==> now == v
    ensures ReadsBack(now, op, size)
  {
    hide Sound, RootChain, RootSlots, ReadRoot, ReadBack, Display, SameName, Pack;
    forall q | SameName(Display(Pack(op.name).value), q) ensures ReadRoot(now, q) == ReadBack(op.bytes, size) {
      if Pack(name).Some? && SameName(Display(Pack(name).value), q) {
        NamesApart(name, op.name, q);
      }
    }
  }

  /** All files that stand read back, unless the root has grown past the read bound. */
  ghost predicate AllStand(v: Vol, ops: seq<Op>, done: seq<bool>, size: nat)
    requires WF(v) && |done| <= |ops|
  {
    |RootChain(v)| <= MAX_CLUSTERS ==>
      forall k: nat :: k < |done| && Stands(ops, done, k, |done|) ==> ReadsBack(v, ops[k], size)
  }

  lemma StillStand(v: Vol, now: Vol, ops: seq<Op>, done: seq<bool>, ok: bool, size: nat)
    requires WF(v) && WF(now) && |done| < |ops| && AllStand(v, ops, done, size)
    requires Executed(v, ops[|done|], ok, now, size)
    ensures AllStand(now, ops, done + [ok], size)
  {
    hide Sound, RootChain, RootSlots, ReadRoot, Display, SameName, Pack, ReadsBack, OthersSame, SameLost, Stepped;
    if |RootChain(now)| <= MAX_CLUSTERS {
      var i := |done|;
      forall k: nat | k < i + 1 && Stands(ops, done + [ok], k, i + 1) ensures ReadsBack(now, ops[k], size) {
        if k < i {
          assert Stands(ops, done, k, i);
          assert !Touches(ops[i], Pack(ops[k].name).value);
          Survives(v, now, ops[k], ops[i].name, size);
        }
      }
    }
  }

  ghost predicate SameLost(a: Vol, b: Vol)
    requires WF(a) && WF(b)
  {
    forall c: nat :: IsLost(LayoutOf(a), c) <==> IsLost(LayoutOf(b), c)
  }

  /** When an operation succeeds: a name in 8.3 form and room for a create, a slot with the name for an unlink. */
  ghost predicate Succeeds(v: Vol, op: Op)
    requires Rooted(v)
  {
    Is83(op.name) && Pack(op.name).Some? &&
    match op
    case Create(name, b) => !NoRoom(v, Pack(name).value, |b|)
    case Unlink(name) => exists t :: 0 <= t < |RootSlots(v)| && Matches(RootSlots(v)[t], Pack(name).value)
  }

  /** What one operation makes of a volume. */
  ghost predicate Stepped(v: Vol, op: Op, ok: bool, now: Vol) {
    && WF(v) && WF(now)
    && (ok <==> Succeeds(v, op))
    && (ok && op.Create? ==> exists tr :: Created(v, Pack(op.name).value, op.bytes, tr, now))
    && (ok && op.Unlink? ==> exists j: nat, k: nat :: Removed(v, Pack(op.name).value, j, k, now))
    && (!ok ==> RootChain(now) == RootChain(v) && forall q :: ReadRoot(now, q) == ReadRoot(v, q))
  }

  lemma RemovedMatch(v: Vol, n: seq<Byte>, j: nat, k: nat, now: Vol)
    requires Removed(v, n, j, k, now)
    ensures exists t :: 0 <= t < |RootSlots(v)| && Matches(RootSlots(v)[t], n)
  {
    hide RootSlots, RootChain, SlotIndex, PutAt, Matches;
    assert Matches(RootSlots(v)[SlotIndex(v, j, k)], n);
  }

  /** What one operation does, also to every name it does not touch. */
  ghost predicate Executed(v: Vol, op: Op, ok: bool, now: Vol, size: nat)
    requires WF(v) && WF(now)
  {
    && Stepped(v, op, ok, now)
    && |RootChain(v)| <= |RootChain(now)|
    && (Pack(op.name) == None ==> now == v && !ok)
    && (|RootChain(now)| <= MAX_CLUSTERS && Pack(op.name).Some? ==> OthersSame(v, Pack(op.name).value, now))
    && (ok && op.Create? && |RootChain(now)| <= MAX_CLUSTERS ==> ReadsBack(now, op, size))
    && (ok ==> SameLost(v, now))
  }

  lemma CreateExecuted(v: Vol, op: Op, tr: Trace, now: Vol)
    requires WF(v) && op.Create? && Pack(op.name).Some? && Created(v, Pack(op.name).value, op.bytes, tr, now)
    ensures WF(now) && Executed(v, op, true, now, v.size)
  {
    hide RootChain, RootSlots, Sound, ReadRoot, Display, SameName, Pack, Is83, Created, IsLost, ReadBack, Shape, NoRoom;
    PacksExactly(op.name);
    CreateSound(v, op.name, op.bytes, tr, now);
    HadRoom(v, Pack(op.name).value, op.bytes, tr, now);
    ShapeFacts(v);
    AfterCreate(v, op.name, op.bytes, tr, now);
  }

  lemma UnlinkExecuted(v: Vol, op: Op, j: nat, k: nat, now: Vol)
    requires WF(v) && op.Unlink? && Pack(op.name).Some? && Removed(v, Pack(op.name).value, j, k, now)
    ensures WF(now) && Executed(v, op, true, now, v.size)
  {
    hide RootChain, RootSlots, Sound, ReadRoot, Display, SameName, Pack, Is83, Removed, IsLost, Shape, Matches, FreeSet, SlotChain;
    PacksExactly(op.name);
    RemovedMatch(v, Pack(op.name).value, j, k, now);
    UnlinkSound(v, Pack(op.name).value, j, k, now);
    forall q | !SameName(Display(Pack(op.name).value), q) ensures ReadRoot(now, q) == ReadRoot(v, q) {
      UnlinkOthers(v, op.name, j, k, now, q);
    }
  }

  lemma FailedExecuted(v: Vol, op: Op, now: Vol)
    requires WF(v) && WF(now) && !Succeeds(v, op) && RootChain(now) == RootChain(v)
    requires forall q :: ReadRoot(now, q) == ReadRoot(v, q)
    requires Pack(op.name) == None ==> now == v
    ensures Executed(v, op, false, now, v.size)
  {
    hide RootChain, RootSlots, Sound, ReadRoot, Display, SameName, Pack, Succeeds, Shape;
  }

  lemma NoSuchSlot(v: Vol, op: Op)
    requires Rooted(v) && op.Unlink?
    requires Pack(op.name).Some? ==>
               forall t :: 0 <= t < |RootSlots(v)| ==> !Matches(RootSlots(v)[t], Pack(op.name).value)
    ensures !Succeeds(v, op)
  {
    hide RootSlots, Matches, Pack;
  }

  /** One operation. */
  method Execute(fs: Fat32, op: Op) returns (ok: bool)
    requires fs.Valid() && WF(fs.Abs())
    modifies fs
    ensures fs.Valid() && SameTops(fs.g, old(fs.disk), fs.disk) && WF(fs.Abs())
    ensures Executed(old(fs.Abs()), op, ok, fs.Abs(), fs.g.ClusterBytes())
  {
    hide Sectors, Mirrored, SameTops, FatOf, DataOf, RootChain, RootSlots, Sound, ReadRoot, Display, SameName, Pack, Created, Removed, Matches, NoRoom, Executed, ReadBack;
    ghost var v := fs.Abs();
    match op {
      case Create(name, b) =>
        var r;
        ghost var tr;
        r, tr := CreateRootFile(fs, name, b);
        ok := r == Done;
        if ok {
          CreateExecuted(v, op, tr, fs.Abs());
        } else {
          FailedExecuted(v, op, fs.Abs());
        }
      case Unlink(name) =>
        ghost var j, k;
        ok, j, k := UnlinkRoot(fs, name);
        if ok {
          UnlinkExecuted(v, op, j, k, fs.Abs());
        } else {
          NoSuchSlot(v, op);
          FailedExecuted(v, op, fs.Abs());
        }
    }
  }

  /** The volumes of a run, from one operation to the next. */
  ghost predicate History(vols: seq<Vol>, ops: seq<Op>, done: seq<bool>) {
    && |vols| == |done| + 1 && |done| <= |ops|
    && (forall k :: 0 <= k < |done| ==> Stepped(vols[k], ops[k], done[k], vols[k + 1]))
  }

  lemma ExecutedFacts(v: Vol, op: Op, ok: bool, now: Vol, size: nat)
    requires WF(v) && WF(now) && Executed(v, op, ok, now, size)
    ensures Stepped(v, op, ok, now) && (ok ==> SameLost(v, now))
  {
  }

  lemma HistoryStart(v: Vol, ops: seq<Op>)
    ensures History([v], ops, [])
  {
  }

  lemma HistorySnoc(vols: seq<Vol>, ops: seq<Op>, done: seq<bool>, ok: bool, now: Vol)
    requires History(vols, ops, done) && |done| < |ops| && Stepped(vols[|done|], ops[|done|], ok, now)
    ensures History(vols + [now], ops, done + [ok])
  {
    hide Stepped;
  }

  /**
   A run: every operation succeeds exactly when it can, all the files that still stand read back
   exactly, and a run in which nothing failed leaks nothing.
   */
  method Run(fs: Fat32, ops: seq<Op>) returns (done: seq<bool>, ghost vols: seq<Vol>)
    requires fs.Valid() && WF(fs.Abs())
    modifies fs
    ensures fs.Valid() && SameTops(fs.g, old(fs.disk), fs.disk) && WF(fs.Abs()) && |done| == |ops|
    ensures History(vols, ops, done) && vols[0] == old(fs.Abs()) && vols[|ops|] == fs.Abs()
    ensures AllStand(fs.Abs(), ops, done, fs.g.ClusterBytes())
    ensures false !in done ==> SameLost(old(fs.Abs()), fs.Abs())
  {
    hide Sectors, Mirrored, SameTops, FatOf, DataOf, RootChain, Sound, ReadRoot, Display, SameName, Pack, ReadsBack, AllStand, LayoutOf, IsLost, History, Stepped, Executed;
    ghost var v := fs.Abs();
    ghost var d0 := fs.disk;
    NoChange(fs.g, d0);
    done, vols := [], [v];
    HistoryStart(v, ops);
    NothingStands(v, ops, fs.g.ClusterBytes());
    for i := 0 to |ops|
      invariant fs.Valid() && SameTops(fs.g, d0, fs.disk) && WF(fs.Abs()) && |done| == i
      invariant |vols| == i + 1 && vols[0] == v && vols[i] == fs.Abs() && History(vols, ops, done)
      invariant AllStand(fs.Abs(), ops, done, fs.g.ClusterBytes())
      invariant false !in done ==> SameLost(v, fs.Abs())
    {
      ghost var before, d1 := fs.Abs(), fs.disk;
      var ok := Execute(fs, ops[i]);
      SameTopsTrans(fs.g, d0, d1, fs.disk);
      StillStand(before, fs.Abs(), ops, done, ok, fs.g.ClusterBytes());
      ExecutedFacts(before, ops[i], ok, fs.Abs(), fs.g.ClusterBytes());
      HistorySnoc(vols, ops, done, ok, fs.Abs());
      done, vols := done + [ok], vols + [fs.Abs()];
    }
  }

  lemma NothingStands(v: Vol, ops: seq<Op>, size: nat)
    requires WF(v)
    ensures AllStand(v, ops, [], size)
  {
  }
}
