/**
 The imperative form of the memory operations: the reference-count table and the address spaces
 are updated in place, page by page, and every method is proved against the function of module
 Memory that describes it.
 */
module AddressSpaces {
  import opened Options
  import opened Memory

  /** The count of a frame; a frame beyond the table has none. */
  function At(counts: seq<nat>, f: nat): nat { if f < |counts| then counts[f] else 0 }

  /** `FrameRefcount`: a dense table that grows on demand. */
  class FrameRefcount {
    var counts: seq<nat>

    constructor ()
      ensures Valid() && counts == []
    {
      counts := [];
    }

    ghost predicate Valid()
      reads this
    {
      forall i :: 0 <= i < |counts| ==> counts[i] <= MAX_COUNT
    }

    function Get(f: nat): nat
      reads this
    {
      At(counts, f)
    }

    method EnsureIndex(f: nat)
      requires Valid()
      modifies this
      ensures Valid() && f < |counts|
      ensures forall g: nat :: At(counts, g) == At(old(counts), g)
    {
      if |counts| <= f {
        counts := counts + seq(f + 1 - |counts|, _ => 0);
      }
    }

    method Set(f: nat, n: nat)
      requires Valid() && n <= MAX_COUNT
      modifies this
      ensures Valid()
      ensures forall g: nat :: At(counts, g) == if g == f then n else At(old(counts), g)
    {
      EnsureIndex(f);
      counts := counts[f := n];
    }

    method Inc(f: nat) returns (now: nat)
      requires Valid()
      modifies this
      ensures Valid() && now == Saturated(At(old(counts), f) + 1)
      ensures forall g: nat :: At(counts, g) == if g == f then now else At(old(counts), g)
    {
      EnsureIndex(f);
      if counts[f] < MAX_COUNT {
        counts := counts[f := counts[f] + 1];
      }
      now := counts[f];
    }

    method Dec(f: nat) returns (now: nat)
      requires Valid()
      modifies this
      ensures Valid() && now == Minus(At(old(counts), f), 1)
      ensures forall g: nat :: At(counts, g) == if g == f then now else At(old(counts), g)
    {
      if f >= |counts| {
        return 0;
      }
      if counts[f] > 0 {
        counts := counts[f := counts[f] - 1];
      }
      now := counts[f];
    }
  }

  /** Every frame counted once more for each page that maps it. */
  ghost predicate Raised(base: seq<nat>, mapped: map<nat, nat>, now: seq<nat>) {
    forall f: nat :: At(now, f) == Saturated(At(base, f) + |PagesOf(mapped, f)|)
  }

  lemma RaiseOne(base: seq<nat>, mapped: map<nat, nat>, was: seq<nat>, p: nat, g: nat, now: seq<nat>)
    requires Raised(base, mapped, was) && p !in mapped
    requires forall f: nat :: At(now, f) == if f == g then Saturated(At(was, f) + 1) else At(was, f)
    ensures Raised(base, mapped[p := g], now)
  {
    hide PagesOf, At;
    forall f: nat ensures At(now, f) == Saturated(At(base, f) + |PagesOf(mapped[p := g], f)|) {
      PagesOfAdd(mapped, p, g, f);
    }
  }

  /** Every frame counted once less for each page that mapped it, and released at zero. */
  ghost predicate Lowered(base: seq<nat>, free: set<nat>, mapped: map<nat, nat>, now: seq<nat>, left: set<nat>) {
    forall f: nat ::
      && At(now, f) == Minus(At(base, f), |PagesOf(mapped, f)|)
      && (f in left <==> (f in free || (|PagesOf(mapped, f)| > 0 && At(base, f) <= |PagesOf(mapped, f)|)))
  }

  lemma LowerOne(base: seq<nat>, free: set<nat>, mapped: map<nat, nat>, was: seq<nat>, left: set<nat>, p: nat, g: nat,
                 now: seq<nat>)
    requires Lowered(base, free, mapped, was, left) && p !in mapped
    requires forall f: nat :: At(now, f) == if f == g then Minus(At(was, f), 1) else At(was, f)
    ensures Lowered(base, free, mapped[p := g], now, if At(now, g) == 0 then left + {g} else left)
  {
    hide PagesOf, At;
    var end := if At(now, g) == 0 then left + {g} else left;
    forall f: nat
      ensures At(now, f) == Minus(At(base, f), |PagesOf(mapped[p := g], f)|)
      ensures f in end <==>
              (f in free || (|PagesOf(mapped[p := g], f)| > 0 && At(base, f) <= |PagesOf(mapped[p := g], f)|))
    {
      PagesOfAdd(mapped, p, g, f);
    }
  }

  /** A map copied so far, but for the keys still to do. */
  ghost predicate Copied<V>(from: map<nat, V>, todo: set<nat>, copy: map<nat, V>) {
    copy.Keys == from.Keys - todo && forall p :: p in copy ==> copy[p] == from[p]
  }

  lemma CopyOne<V>(from: map<nat, V>, todo: set<nat>, copy: map<nat, V>, p: nat)
    requires Copied(from, todo, copy) && p in todo && p in from
    ensures Copied(from, todo - {p}, copy[p := from[p]]) && p !in copy
  {
  }

  lemma NoneCopied<V>(from: map<nat, V>)
    ensures Copied(from, from.Keys, map[])
  {
  }

  lemma CopiedAll<V>(from: map<nat, V>, copy: map<nat, V>)
    requires Copied(from, {}, copy)
    ensures copy == from
  {
  }

  lemma PagesOfAdd(mapped: map<nat, nat>, p: nat, f: nat, g: nat)
    requires p !in mapped
    ensures PagesOf(mapped[p := f], g) == PagesOf(mapped, g) + (if g == f then {p} else {})
    ensures |PagesOf(mapped[p := f], g)| == |PagesOf(mapped, g)| + (if g == f then 1 else 0)
  {
    assert PagesOf(mapped[p := f], g) == PagesOf(mapped, g) + (if g == f then {p} else {});
  }

  class Kernel {
    var frames: map<nat, Contents>
    var free: set<nat>
    var spaces: map<nat, Space>
    const refcount: FrameRefcount
    ghost var other: set<nat>

    constructor (available: set<nat>)
      ensures Valid() && Inv(Abs()) && fresh(refcount)
      ensures frames.Keys == free == available && spaces == map[] && other == {}
    {
      frames := map f | f in available :: Zeros();
      free := available;
      spaces := map[];
      refcount := new FrameRefcount();
      other := {};
    }

    ghost function Abs(): State
      reads this, refcount
    {
      State(frames, free, other, map f | f in frames :: At(refcount.counts, f), spaces)
    }

    ghost predicate Valid()
      reads this, refcount
    {
      Shape(Abs()) && free <= frames.Keys && refcount.Valid()
    }

    /** `alloc_zeroed_frame`: some free frame, cleared. */
    method AllocZeroed() returns (got: Option<nat>)
      requires Valid()
      modifies this`free, this`frames
      ensures got == None ==> old(free) == {} && free == old(free) && frames == old(frames)
      ensures got.Some? ==> got.value in old(free) && free == old(free) - {got.value}
                            && frames == old(frames)[got.value := Zeros()]
    {
      if free == {} {
        return None;
      }
      var f: nat :| f in free;
      free := free - {f};
      frames := frames[f := Zeros()];
      return Some(f);
    }

    /** `map_alloc` and `map_to` */
    method MapAlloc(pid: nat, page: nat, writable: bool, user: bool) returns (ok: bool, ghost got: Option<nat>)
      requires Valid() && pid in spaces
      modifies this, refcount
      ensures Valid()
      ensures Given(old(Abs()), got) && (got == None ==> old(free) == {})
      ensures (Abs(), ok) == Allocated(old(Abs()), pid, page, writable, user, got)
    {
      ghost var m := Abs();
      SpaceAt(m, pid);
      var a := AllocZeroed();
      got := a;
      if a == None {
        return false, got;
      }
      var f := a.value;
      refcount.Set(f, 1);
      assert Abs().counts == m.counts[f := 1];
      var s := spaces[pid];
      if page in s.table {
        LeakShape(m, f);
        return false, got;
      }
      spaces := spaces[pid := Space(s.mapped[page := f], s.table[page := Pte(f, writable, false, user)])];
      MapShape(m, pid, page, writable, user, got);
      return true, got;
    }

    /** Step 1 of `clone_cow`: the parent's writable pages become read-only and copy-on-write. */
    method DowngradeAll(s: Space) returns (t: map<nat, Pte>)
      requires s.mapped.Keys == s.table.Keys
      ensures t == ReadOnly(s.table)
    {
      t := s.table;
      var todo := s.mapped.Keys;
      while todo != {}
        invariant todo <= s.table.Keys && t.Keys == s.table.Keys
        invariant forall p :: p in t ==> t[p] == if p in todo then s.table[p] else Downgrade(s.table[p])
        decreases |todo|
      {
        var p: nat :| p in todo;
        if t[p].user && t[p].writable {
          t := t[p := t[p].(writable := false, cow := true)];
        }
        todo := todo - {p};
      }
    }

    /** `clone_cow` */
    method CloneCow(parent: nat, child: nat)
      requires Valid() && parent in spaces && child !in spaces
      modifies this, refcount
      ensures Valid()
      ensures Abs() == Forked(old(Abs()), parent, child)
    {
      hide Shape, PagesOf, ReadOnly, Raised, At, Saturated;
      ghost var m := Abs();
      var s := spaces[parent];
      SpaceAt(m, parent);
      var t := DowngradeAll(s);
      spaces := spaces[parent := Space(s.mapped, t)];
      var copy := ShareAll(s.mapped, t) by { ReadOnlyFrames(s.table); }
      spaces := spaces[child := copy];
      ForkShape(m, parent, child);
      RaisedCounts(m, parent, child, old(refcount.counts), refcount.counts, Abs().counts);
    }

    /** Step 2 of `clone_cow`: the same frames in the child, each counted once more. */
    method ShareAll(from: map<nat, nat>, flags: map<nat, Pte>) returns (child: Space)
      requires refcount.Valid() && from.Keys == flags.Keys
      requires forall p :: p in from ==> flags[p].frame == from[p]
      modifies refcount
      ensures refcount.Valid() && child == Space(from, flags)
      ensures Raised(old(refcount.counts), from, refcount.counts)
    {
      hide Raised, At, Saturated, Copied;
      var mapped: map<nat, nat>, table: map<nat, Pte> := map[], map[];
      var todo := from.Keys;
      ghost var base := refcount.counts;
      NothingRaised(base);
      NoneCopied(from);
      NoneCopied(flags);
      while todo != {}
        invariant refcount.Valid() && todo <= from.Keys
        invariant Copied(from, todo, mapped) && Copied(flags, todo, table)
        invariant Raised(base, mapped, refcount.counts)
        decreases |todo|
      {
        var p: nat :| p in todo;
        ghost var was := refcount.counts;
        var now := refcount.Inc(from[p]);
        var entry := flags[p].(frame := from[p]);
        CopyOne(from, todo, mapped, p);
        CopyOne(flags, todo, table, p);
        RaiseOne(base, mapped, was, p, from[p], refcount.counts);
        mapped := mapped[p := from[p]];
        table := table[p := entry];
        todo := todo - {p};
      }
      CopiedAll(from, mapped);
      CopiedAll(flags, table);
      child := Space(mapped, table);
    }

    /** `destroy` */
    method Destroy(pid: nat)
      requires Valid() && pid in spaces
      modifies this, refcount
      ensures Valid()
      ensures Abs() == Destroyed(old(Abs()), pid)
    {
      hide Shape, PagesOf, Lowered, At, Minus, Destroyed, SpaceOk;
      ghost var m := Abs();
      var s := spaces[pid];
      SpaceAt(m, pid);
      ReleaseAll(s.mapped);
      spaces := spaces - {pid};
      DestroyShape(m, pid);
      ReleasedFree(m, pid, old(refcount.counts), refcount.counts, free);
      LoweredCounts(m, pid, old(refcount.counts), refcount.counts, free, Abs().counts);
    }

    method ReleaseAll(mapped: map<nat, nat>)
      requires refcount.Valid()
      modifies this`free, refcount
      ensures refcount.Valid()
      ensures Lowered(old(refcount.counts), old(free), mapped, refcount.counts, free)
    {
      hide Lowered, At;
      var gone: map<nat, nat> := map[];
      var todo := mapped.Keys;
      NothingLowered(refcount.counts, free);
      while todo != {}
        invariant refcount.Valid() && todo <= mapped.Keys
        invariant gone.Keys == mapped.Keys - todo && forall p :: p in gone ==> gone[p] == mapped[p]
        invariant Lowered(old(refcount.counts), old(free), gone, refcount.counts, free)
        decreases |todo|
      {
        var p: nat :| p in todo;
        ghost var was := refcount.counts;
        var remaining := refcount.Dec(mapped[p]);
        LowerOne(old(refcount.counts), old(free), gone, was, free, p, mapped[p], refcount.counts);
        if remaining == 0 {
          free := free + {mapped[p]};
        }
        gone := gone[p := mapped[p]];
        todo := todo - {p};
      }
      assert gone == mapped;
    }

    /** `try_resolve_cow` and `replace_mapping` */
    method TryResolveCow(pid: nat, page: nat) returns (ok: bool, ghost got: Option<nat>)
      requires Valid() && Inv(Abs()) && pid in spaces
      modifies this, refcount
      ensures Valid()
      ensures Given(old(Abs()), got)
      ensures (Abs(), ok) == Resolved(old(Abs()), pid, page, got)
    {
      hide Owners, Exact, Accounted, WritersAlone, Shape, OnePageEach;
      ghost var m := Abs();
      got := None;
      SpaceAt(m, pid);
      var s := spaces[pid];
      if page !in s.table || !s.table[page].cow || !s.table[page].user {
        return false, got;
      }
      var e := s.table[page];
      if refcount.Get(e.frame) <= 1 {
        assert m.counts[e.frame] <= 1;
        ResolveKeeps(m, pid, page, got);
        var now := e.(writable := true, cow := false);
        spaces := spaces[pid := Space(s.mapped[page := e.frame], s.table[page := now])];
        return true, got;
      }
      var a := AllocZeroed();
      got := a;
      if a == None {
        return false, got;
      }
      CopyPage(m, pid, page, a.value);
      ok := true;
    }

    /** The copy in `try_resolve_cow`, once it has its frame. */
    method CopyPage(ghost m: State, pid: nat, page: nat, f: nat)
      requires Inv(m) && pid in spaces && spaces == m.spaces && f in m.free && refcount.Valid()
      requires page in m.spaces[pid].table && Shared(m, pid, page)
      requires frames == m.frames[f := Zeros()] && free == m.free - {f} && other == m.other
      requires forall g :: g in m.frames ==> At(refcount.counts, g) == m.counts[g]
      modifies this, refcount
      ensures Valid()
      ensures Abs() == Resolved(m, pid, page, Some(f)).0
    {
      hide Owners, Exact, Accounted, WritersAlone, Shape, OnePageEach, Resolved;
      ResolveKeeps(m, pid, page, Some(f));
      FreeUnmapped(m, pid, page, f);
      CopiedIs(m, pid, page, f);
      var s := spaces[pid];
      var e := s.table[page];
      frames := frames[f := frames[e.frame]];
      var left := refcount.Dec(e.frame);
      refcount.Set(f, 1);
      var now := Pte(f, true, false, e.user);
      spaces := spaces[pid := Space(s.mapped[page := f], s.table[page := now])];
      ghost var n := Resolved(m, pid, page, Some(f)).0;
      assert frames == n.frames;
      assert Abs().counts == n.counts;
    }

    /** `ensure_mapped`: the pages of [vaddr, vaddr + len) that have no record get a zeroed frame. */
    method EnsureMapped(pid: nat, vaddr: nat, len: nat, writable: bool) returns (ok: bool)
      requires Valid() && Inv(Abs()) && pid in spaces
      modifies this, refcount
      ensures Valid() && Inv(Abs()) && pid in spaces && Beside(old(Abs()), Abs(), pid)
      ensures ok ==> forall a: nat :: Seen(Abs(), pid, a) == WithZeros(old(Abs()), pid, vaddr, len, a)
      ensures ok ==>
                forall p: nat :: RightsAt(Abs(), pid, p) ==
                                 if RightsAt(old(Abs()), pid, p) == None && TouchesPage(vaddr, len, p)
                                 then Some(Rights(true, writable)) else RightsAt(old(Abs()), pid, p)
      ensures !ok ==> free == {}
    {
      hide Inv, Shape, Mapped, Allocated, Seen, Beside, RightsAt;
      ghost var m := Abs();
      var start, end := vaddr / PAGE_SIZE, (vaddr + len + PAGE_SIZE - 1) / PAGE_SIZE;
      var cur := start;
      InvShape(m);
      BesideSelf(m, pid);
      while cur < end
        invariant start <= cur
        invariant Valid() && Inv(Abs()) && pid in spaces && Beside(m, Abs(), pid)
        invariant forall a: nat :: Seen(Abs(), pid, a) ==
                    if Seen(m, pid, a) == None && start <= a / PAGE_SIZE < cur && a / PAGE_SIZE < end then Some(0)
                    else Seen(m, pid, a)
        invariant forall p: nat :: RightsAt(Abs(), pid, p) ==
                    if RightsAt(m, pid, p) == None && start <= p < cur && p < end then Some(Rights(true, writable))
                    else RightsAt(m, pid, p)
        decreases end - cur
      {
        ghost var now := Abs();
        InvShape(now);
        if cur !in spaces[pid].mapped {
          ghost var got;
          ok, got := MapAlloc(pid, cur, writable, true);
          FreshPage(now, pid, cur, writable, true, got);
          FreshRights(now, pid, cur, writable, true, got);
          BesideThen(m, now, Abs(), pid);
          if !ok {
            return;
          }
        } else {
          PageSeen(now, pid, cur);
          HasRights(now, pid, cur);
        }
        cur := cur + 1;
      }
      ok := true;
    }

    /** `write_data`: chunk by chunk, one page at a time, mapping the pages that are missing. */
    method WriteData(pid: nat, vaddr: nat, data: seq<nat>, writable: bool) returns (ok: bool)
      requires Valid() && Inv(Abs()) && pid in spaces
      modifies this, refcount
      ensures Valid() && Inv(Abs()) && pid in spaces && Beside(old(Abs()), Abs(), pid)
      ensures ok ==> forall a: nat :: Seen(Abs(), pid, a) == Overwritten(old(Abs()), pid, vaddr, data, a)
      ensures ok ==>
                forall p: nat :: RightsAt(Abs(), pid, p) ==
                                 if RightsAt(old(Abs()), pid, p) == None && SpansPage(vaddr, |data|, p)
                                 then Some(Rights(true, writable)) else RightsAt(old(Abs()), pid, p)
      ensures !ok ==> free == {}
    {
      hide Inv, Shape, Seen, Beside, Poked, Overwritten, RightsAt, SpansPage;
      ghost var m := Abs();
      InvShape(m);
      var done := 0;
      assert data[..0] == [];
      NothingWritten(m, pid, vaddr);
      NoPageSpanned(vaddr);
      BesideSelf(m, pid);
      while done < |data|
        invariant done <= |data|
        invariant Valid() && Inv(Abs()) && pid in spaces && Beside(m, Abs(), pid)
        invariant forall a: nat :: Seen(Abs(), pid, a) == Overwritten(m, pid, vaddr, data[..done], a)
        invariant done < |data| && 0 < done ==> (vaddr + done) % PAGE_SIZE == 0
        invariant forall p: nat :: RightsAt(Abs(), pid, p) ==
                    if RightsAt(m, pid, p) == None && SpansPage(vaddr, done, p) then Some(Rights(true, writable))
                    else RightsAt(m, pid, p)
      {
        var cur := vaddr + done;
        var page, off := cur / PAGE_SIZE, cur % PAGE_SIZE;
        var n := if PAGE_SIZE - off < |data| - done then PAGE_SIZE - off else |data| - done;
        ghost var now := Abs();
        ok := HavePage(pid, page, writable);
        BesideThen(m, now, Abs(), pid);
        if !ok {
          return;
        }
        ghost var mid := Abs();
        PokePage(pid, page, off, data[done..done + n]);
        BesideThen(m, mid, Abs(), pid);
        Chunk(m, mid, Abs(), pid, vaddr, data, done, n);
        SameRights(mid, Abs(), pid);
        ChunkPages(vaddr, done, n);
        done := done + n;
      }
      assert data[..done] == data;
      ok := true;
    }

    /** The copy in the loop of `write_data`. */
    method PokePage(pid: nat, page: nat, off: nat, data: seq<nat>)
      requires Valid() && Inv(Abs()) && pid in spaces
      requires page in spaces[pid].mapped && off + |data| <= PAGE_SIZE
      modifies this`frames
      ensures Valid() && Inv(Abs()) && pid in spaces && Beside(old(Abs()), Abs(), pid)
      ensures spaces == old(spaces)
      ensures forall a: nat :: Seen(Abs(), pid, a) ==
                if a / PAGE_SIZE == page && off <= a % PAGE_SIZE < off + |data| then Some(data[a % PAGE_SIZE - off])
                else Seen(old(Abs()), pid, a)
    {
      hide Inv, Shape, Seen, Beside;
      ghost var m := Abs();
      SpaceAt(m, pid);
      var f := spaces[pid].mapped[page];
      PageLength(m, f);
      frames := frames[f := Patch(frames[f], off, data)];
      PokeKeeps(m, pid, page, off, data);
      ghost var n := Poked(m, pid, page, off, data);
      assert Abs().counts == n.counts;
      InvShape(n);
    }

    /** The lookup in the loop of `write_data`. */
    method HavePage(pid: nat, page: nat, writable: bool) returns (ok: bool)
      requires Valid() && Inv(Abs()) && pid in spaces
      modifies this, refcount
      ensures Valid() && Inv(Abs()) && pid in spaces && Beside(old(Abs()), Abs(), pid)
      ensures ok ==> page in spaces[pid].mapped && forall a: nat ::
                Seen(Abs(), pid, a) ==
                if a / PAGE_SIZE == page && Seen(old(Abs()), pid, a) == None then Some(0) else Seen(old(Abs()), pid, a)
      ensures ok ==>
                forall p: nat :: RightsAt(Abs(), pid, p) ==
                                 if p == page && RightsAt(old(Abs()), pid, p) == None
                                 then Some(Rights(true, writable)) else RightsAt(old(Abs()), pid, p)
      ensures !ok ==> free == {}
    {
      hide Inv, Shape, Mapped, Allocated, Seen, Beside, RightsAt;
      ghost var m := Abs();
      InvShape(m);
      BesideSelf(m, pid);
      if page !in spaces[pid].mapped {
        ghost var got;
        ok, got := MapAlloc(pid, page, writable, true);
        FreshPage(m, pid, page, writable, true, got);
        FreshRights(m, pid, page, writable, true, got);
      } else {
        PageSeen(m, pid, page);
        HasRights(m, pid, page);
        ok := true;
      }
    }
  }

  // ---------------------------------------------------------------------------
  // Page rights
  // ---------------------------------------------------------------------------

  /** Whether user code may reach a page, and write it. */
  datatype Rights = Rights(user: bool, writable: bool)

  ghost function RightsAt(m: State, pid: nat, page: nat): Option<Rights>
    requires pid in m.spaces
  {
    var t := m.spaces[pid].table;
    if page in t then Some(Rights(t[page].user, t[page].writable)) else None
  }

  /** The pages that `ensure_mapped` maps for `len` bytes at an address. */
  predicate TouchesPage(vaddr: nat, len: nat, page: nat) {
    vaddr / PAGE_SIZE <= page < (vaddr + len + PAGE_SIZE - 1) / PAGE_SIZE
  }

  /** The pages on which some of these bytes lie. */
  predicate SpansPage(vaddr: nat, len: nat, page: nat) { len > 0 && TouchesPage(vaddr, len, page) }

  lemma FreshRights(m: State, pid: nat, page: nat, writable: bool, user: bool, got: Option<nat>)
    requires Shape(m) && pid in m.spaces && page !in m.spaces[pid].mapped
    ensures pid in Mapped(m, pid, page, writable, user, got).0.spaces && RightsAt(m, pid, page) == None
    ensures forall p: nat :: RightsAt(Mapped(m, pid, page, writable, user, got).0, pid, p) ==
              if p == page && got.Some? then Some(Rights(user, writable)) else RightsAt(m, pid, p)
  {
    SpaceAt(m, pid);
  }

  lemma HasRights(m: State, pid: nat, page: nat)
    requires Shape(m) && pid in m.spaces && page in m.spaces[pid].mapped
    ensures RightsAt(m, pid, page) != None
  {
    SpaceAt(m, pid);
  }

  lemma SameRights(m: State, n: State, pid: nat)
    requires n.spaces == m.spaces && pid in m.spaces
    ensures forall p: nat :: RightsAt(n, pid, p) == RightsAt(m, pid, p)
  {
  }

  lemma NoPageSpanned(vaddr: nat)
    ensures forall p: nat :: !SpansPage(vaddr, 0, p)
  {
  }

  /** A chunk ends with its page, or lies in one. */
  lemma ChunkPages(vaddr: nat, done: nat, n: nat)
    requires 0 < n && (vaddr + done) % PAGE_SIZE + n <= PAGE_SIZE && (done > 0 ==> (vaddr + done) % PAGE_SIZE == 0)
    ensures forall p: nat :: SpansPage(vaddr, done + n, p) <==>
              SpansPage(vaddr, done, p) || p == (vaddr + done) / PAGE_SIZE
  {
    var page := (vaddr + done) / PAGE_SIZE;
    forall p: nat ensures SpansPage(vaddr, done + n, p) <==> SpansPage(vaddr, done, p) || p == page {
      assert (vaddr + (done + n) + PAGE_SIZE - 1) / PAGE_SIZE == page + 1;
      if done > 0 {
        assert (vaddr + done + PAGE_SIZE - 1) / PAGE_SIZE == page;
      }
    }
  }

  /** The copying branch of `try_resolve_cow`, field by field. */
  lemma CopiedIs(m: State, pid: nat, page: nat, f: nat)
    requires Shape(m) && pid in m.spaces && page in m.spaces[pid].table && Shared(m, pid, page)
    ensures var s, e := m.spaces[pid], m.spaces[pid].table[page];
            var n := Resolved(m, pid, page, Some(f)).0;
            && e.frame in m.frames && e.frame in m.counts
            && n.frames == m.frames[f := m.frames[e.frame]] && n.free == m.free - {f} && n.other == m.other
            && n.counts == m.counts[e.frame := m.counts[e.frame] - 1][f := 1]
            && n.spaces == m.spaces[pid := Space(s.mapped[page := f], s.table[page := Pte(f, true, false, e.user)])]
  {
    SpaceAt(m, pid);
  }

  /** Every frame of the space has the space as its only owner, as in a process that never forked. */
  ghost predicate Private(m: State, pid: nat)
    requires Shape(m) && pid in m.spaces
  {
    forall p :: p in m.spaces[pid].mapped ==> m.counts[m.spaces[pid].mapped[p]] == 1
  }

  ghost predicate Maps(s: Space, f: nat) {
    exists p :: p in s.mapped && s.mapped[p] == f
  }

  /**
   A process keeps its records and adds frames that no other process maps; the other processes
   keep their page tables, and the frames that they do not share with it.
   */
  ghost predicate Beside(m: State, n: State, pid: nat)
    requires pid in m.spaces && pid in n.spaces
  {
    var was, now := m.spaces[pid], n.spaces[pid];
    && n.spaces.Keys == m.spaces.Keys && m.frames.Keys <= n.frames.Keys
    && (forall p :: p in was.mapped ==> p in now.mapped && now.mapped[p] == was.mapped[p])
    && (forall q :: q in m.spaces && q != pid ==> n.spaces[q] == m.spaces[q])
    && (forall q, p :: q in m.spaces && q != pid && p in m.spaces[q].mapped && !Maps(was, m.spaces[q].mapped[p]) ==>
          Kept(m, n, pid, m.spaces[q].mapped[p]))
  }

  /** A frame that the process does not map either, with its contents. */
  ghost predicate Kept(m: State, n: State, pid: nat, f: nat)
    requires pid in n.spaces
  {
    !Maps(n.spaces[pid], f) && f in m.frames && f in n.frames && n.frames[f] == m.frames[f]
  }

  lemma BesideSelf(m: State, pid: nat)
    requires Shape(m) && pid in m.spaces
    ensures Beside(m, m, pid)
  {
    forall q | q in m.spaces ensures SpaceOk(m.frames, m.spaces[q]) {
      SpaceAt(m, q);
    }
  }

  lemma BesideThen(l: State, m: State, n: State, pid: nat)
    requires pid in l.spaces && pid in m.spaces && pid in n.spaces && Beside(l, m, pid) && Beside(m, n, pid)
    ensures Beside(l, n, pid)
  {
    hide Maps;
  }

  /**
   After writes of a process, another one sees at a frame they share what the process sees there,
   and everywhere else what it saw before.
   */
  lemma SharersSee(m: State, n: State, pid: nat, q: nat, a: nat)
    requires Shape(m) && Shape(n) && pid in m.spaces && pid in n.spaces && Beside(m, n, pid)
    requires q in m.spaces && q != pid
    ensures q in n.spaces
    ensures a / PAGE_SIZE in m.spaces[q].mapped && Maps(m.spaces[pid], m.spaces[q].mapped[a / PAGE_SIZE]) ==>
              exists p: nat :: p in m.spaces[pid].mapped && m.spaces[pid].mapped[p] == m.spaces[q].mapped[a / PAGE_SIZE]
                          && Seen(n, q, a) == Seen(n, pid, p * PAGE_SIZE + a % PAGE_SIZE)
    ensures !(a / PAGE_SIZE in m.spaces[q].mapped && Maps(m.spaces[pid], m.spaces[q].mapped[a / PAGE_SIZE])) ==>
              Seen(n, q, a) == Seen(m, q, a)
  {
    hide Shape;
    var page, i := a / PAGE_SIZE, a % PAGE_SIZE;
    if page in m.spaces[q].mapped {
      var f := m.spaces[q].mapped[page];
      if Maps(m.spaces[pid], f) {
        var p: nat :| p in m.spaces[pid].mapped && m.spaces[pid].mapped[p] == f;
        assert (p * PAGE_SIZE + i) / PAGE_SIZE == p && (p * PAGE_SIZE + i) % PAGE_SIZE == i;
      } else {
        assert Kept(m, n, pid, f);
      }
    }
  }

  /** If the process shares no frame, nobody else sees a change. */
  lemma PrivateUnseen(m: State, n: State, pid: nat, q: nat, a: nat)
    requires Inv(m) && Shape(n) && pid in m.spaces && pid in n.spaces && Beside(m, n, pid)
    requires Private(m, pid) && q in m.spaces && q != pid
    ensures q in n.spaces && Seen(n, q, a) == Seen(m, q, a)
  {
    hide Owners, Accounted, WritersAlone, OnePageEach, Beside, Seen;
    SharersSee(m, n, pid, q, a);
    var page := a / PAGE_SIZE;
    if page in m.spaces[q].mapped && Maps(m.spaces[pid], m.spaces[q].mapped[page]) {
      var f := m.spaces[q].mapped[page];
      var p: nat :| p in m.spaces[pid].mapped && m.spaces[pid].mapped[p] == f;
      SpaceAt(m, pid);
      assert CountExact(m, f);
      InOwners(m.spaces, f, pid, p);
      InOwners(m.spaces, f, q, page);
      OneOwner(Owners(m.spaces, f), (pid, p));
      assert false;
    }
  }

  /** The byte at an address of a process, if its page is mapped. */
  ghost function Seen(m: State, pid: nat, a: nat): Option<nat>
    requires Shape(m) && pid in m.spaces
  {
    SpaceAt(m, pid);
    var s := m.spaces[pid];
    if a / PAGE_SIZE in s.mapped then Some(m.frames[s.mapped[a / PAGE_SIZE]][a % PAGE_SIZE]) else None
  }

  ghost predicate Touched(vaddr: nat, len: nat, a: nat) {
    vaddr / PAGE_SIZE <= a / PAGE_SIZE < (vaddr + len + PAGE_SIZE - 1) / PAGE_SIZE
  }

  ghost function WithZeros(m: State, pid: nat, vaddr: nat, len: nat, a: nat): Option<nat>
    requires Shape(m) && pid in m.spaces
  {
    if Seen(m, pid, a) == None && Touched(vaddr, len, a) then Some(0) else Seen(m, pid, a)
  }

  /** Bytes laid over a page from an offset on. */
  function Patch(c: Contents, off: nat, data: seq<nat>): (r: Contents)
    requires off + |data| <= |c|
    ensures |r| == |c|
    ensures forall i :: 0 <= i < |c| ==> r[i] == if off <= i < off + |data| then data[i - off] else c[i]
  {
    c[..off] + data + c[off + |data|..]
  }

  function Poked(m: State, pid: nat, page: nat, off: nat, data: seq<nat>): State
    requires Shape(m) && pid in m.spaces && page in m.spaces[pid].mapped && off + |data| <= PAGE_SIZE
  {
    SpaceAt(m, pid);
    var f := m.spaces[pid].mapped[page];
    m.(frames := m.frames[f := Patch(m.frames[f], off, data)])
  }

  /** What a process sees after bytes are written at an address. */
  ghost function Overwritten(m: State, pid: nat, vaddr: nat, data: seq<nat>, a: nat): Option<nat>
    requires Shape(m) && pid in m.spaces
  {
    if vaddr <= a < vaddr + |data| then Some(data[a - vaddr])
    else if Seen(m, pid, a) == None && Spans(vaddr, |data|, a) then Some(0)
    else Seen(m, pid, a)
  }

  /** An address in a page that holds one of the bytes. */
  ghost predicate Spans(vaddr: nat, len: nat, a: nat) {
    0 < len && vaddr / PAGE_SIZE <= a / PAGE_SIZE <= (vaddr + len - 1) / PAGE_SIZE
  }

  lemma NothingWritten(m: State, pid: nat, vaddr: nat)
    requires Shape(m) && pid in m.spaces
    ensures forall a: nat :: Overwritten(m, pid, vaddr, [], a) == Seen(m, pid, a)
  {
  }

  lemma PageLength(m: State, f: nat)
    requires Shape(m) && f in m.frames
    ensures |m.frames[f]| == PAGE_SIZE
  {
  }

  /** A page of a process written in place is seen at that page, and by the processes that share its frame. */
  lemma PokeKeeps(m: State, pid: nat, page: nat, off: nat, data: seq<nat>)
    requires Inv(m) && pid in m.spaces
    requires page in m.spaces[pid].mapped && off + |data| <= PAGE_SIZE
    ensures Inv(Poked(m, pid, page, off, data)) && pid in Poked(m, pid, page, off, data).spaces
    ensures Beside(m, Poked(m, pid, page, off, data), pid)
    ensures forall a: nat :: Seen(Poked(m, pid, page, off, data), pid, a) ==
              if a / PAGE_SIZE == page && off <= a % PAGE_SIZE < off + |data| then Some(data[a % PAGE_SIZE - off])
              else Seen(m, pid, a)
  {
    hide Owners, Injective, Beside;
    var n := Poked(m, pid, page, off, data);
    forall g | g in n.frames ensures CountExact(n, g) && Placed(n, g) {
      assert Placed(m, g) && CountExact(m, g);
    }
    forall q, p ensures Alone(n, q, p) {
      assert Alone(m, q, p);
    }
    forall q | q in n.spaces ensures SpaceOk(n.frames, n.spaces[q]) {
      SpaceAt(m, q);
    }
    PokeBeside(m, pid, page, off, data);
    OnePage(m, pid, page);
  }

  lemma OnePage(m: State, pid: nat, page: nat)
    requires OnePageEach(m) && pid in m.spaces && page in m.spaces[pid].mapped
    ensures forall p :: p in m.spaces[pid].mapped && m.spaces[pid].mapped[p] == m.spaces[pid].mapped[page] ==> p == page
  {
    assert Injective(m.spaces[pid].mapped);
  }

  lemma PokeBeside(m: State, pid: nat, page: nat, off: nat, data: seq<nat>)
    requires Shape(m) && pid in m.spaces && page in m.spaces[pid].mapped && off + |data| <= PAGE_SIZE
    ensures Beside(m, Poked(m, pid, page, off, data), pid)
  {
    BesideSelf(m, pid);
  }

  /** One round of the loop of `write_data`. */
  lemma Chunk(m: State, mid: State, now: State, pid: nat, vaddr: nat, data: seq<nat>, done: nat, n: nat)
    requires Shape(m) && Shape(mid) && Shape(now) && pid in m.spaces && pid in mid.spaces && pid in now.spaces
    requires done + n <= |data| && 0 < n
    requires 0 < done ==> (vaddr + done) % PAGE_SIZE == 0
    requires n + (vaddr + done) % PAGE_SIZE <= PAGE_SIZE
    requires forall a: nat :: Seen(mid, pid, a) ==
               var was := Overwritten(m, pid, vaddr, data[..done], a);
               if a / PAGE_SIZE == (vaddr + done) / PAGE_SIZE && was == None then Some(0) else was
    requires forall a: nat :: Seen(now, pid, a) ==
               var off := (vaddr + done) % PAGE_SIZE;
               if a / PAGE_SIZE == (vaddr + done) / PAGE_SIZE && off <= a % PAGE_SIZE < off + n
               then Some(data[done + a % PAGE_SIZE - off])
               else Seen(mid, pid, a)
    ensures forall a: nat :: Seen(now, pid, a) == Overwritten(m, pid, vaddr, data[..done + n], a)
  {
    hide Seen, Shape;
    forall a: nat ensures Seen(now, pid, a) == Overwritten(m, pid, vaddr, data[..done + n], a) {
      ChunkAt(vaddr, done, n, a);
      assert data[..done + n][..done] == data[..done];
    }
  }

  lemma ChunkAt(vaddr: nat, done: nat, n: nat, a: nat)
    requires 0 < n && (0 < done ==> (vaddr + done) % PAGE_SIZE == 0)
    requires n + (vaddr + done) % PAGE_SIZE <= PAGE_SIZE
    ensures a / PAGE_SIZE == (vaddr + done) / PAGE_SIZE
            && (vaddr + done) % PAGE_SIZE <= a % PAGE_SIZE < (vaddr + done) % PAGE_SIZE + n
            <==> vaddr + done <= a < vaddr + done + n
    ensures vaddr + done <= a < vaddr + done + n ==> a % PAGE_SIZE - (vaddr + done) % PAGE_SIZE == a - vaddr - done
    ensures Spans(vaddr, done + n, a) <==> Spans(vaddr, done, a) || a / PAGE_SIZE == (vaddr + done) / PAGE_SIZE
  {
  }

  lemma InvShape(m: State)
    requires Inv(m)
    ensures Shape(m) && m.free <= m.frames.Keys
  {
  }

  lemma PageSeen(m: State, pid: nat, page: nat)
    requires Shape(m) && pid in m.spaces && page in m.spaces[pid].mapped
    ensures forall a: nat :: a / PAGE_SIZE == page ==> Seen(m, pid, a).Some?
  {
  }

  /** A page mapped on a fresh frame reads as zeros, and nothing else changes. */
  lemma FreshPage(m: State, pid: nat, page: nat, writable: bool, user: bool, got: Option<nat>)
    requires Inv(m) && pid in m.spaces && page !in m.spaces[pid].mapped && Given(m, got)
    ensures Inv(Mapped(m, pid, page, writable, user, got).0)
    ensures pid in Mapped(m, pid, page, writable, user, got).0.spaces
    ensures Beside(m, Mapped(m, pid, page, writable, user, got).0, pid)
    ensures got.Some? ==> forall a: nat ::
              Seen(Mapped(m, pid, page, writable, user, got).0, pid, a) ==
              if a / PAGE_SIZE == page then Some(0) else Seen(m, pid, a)
    ensures forall a: nat :: a / PAGE_SIZE == page ==> Seen(m, pid, a) == None
    ensures got == None ==> Mapped(m, pid, page, writable, user, got).0 == m
    ensures Mapped(m, pid, page, writable, user, got).1 == got.Some?
    ensures got.Some? ==> page in Mapped(m, pid, page, writable, user, got).0.spaces[pid].mapped
    ensures Allocated(m, pid, page, writable, user, got) == Mapped(m, pid, page, writable, user, got)
  {
    hide Owners, Exact, Accounted, WritersAlone, OnePageEach, Beside;
    FreshBeside(m, pid, page, writable, user, got);
    MapKeeps(m, pid, page, writable, user, got);
    if got.Some? {
      SpaceAt(m, pid);
      FreeNowhere(m, pid, got.value);
    }
  }

  lemma FreshBeside(m: State, pid: nat, page: nat, writable: bool, user: bool, got: Option<nat>)
    requires Inv(m) && pid in m.spaces && page !in m.spaces[pid].mapped && Given(m, got)
    ensures pid in Mapped(m, pid, page, writable, user, got).0.spaces
    ensures Beside(m, Mapped(m, pid, page, writable, user, got).0, pid)
  {
    hide Owners, Exact, WritersAlone, OnePageEach, Placed, Shape;
    BesideSelf(m, pid);
    if got.Some? {
      forall q | q in m.spaces ensures forall p :: p in m.spaces[q].mapped ==> m.spaces[q].mapped[p] != got.value {
        FreeNowhere(m, q, got.value);
      }
    }
  }

  lemma LeakShape(m: State, f: nat)
    requires Shape(m) && f in m.frames
    ensures Shape(m.(frames := m.frames[f := Zeros()], free := m.free - {f}, counts := m.counts[f := 1]))
  {
    var n := m.(frames := m.frames[f := Zeros()], free := m.free - {f}, counts := m.counts[f := 1]);
    forall q | q in n.spaces ensures SpaceOk(n.frames, n.spaces[q]) {
      SpaceAt(m, q);
    }
  }

  lemma NoPages(f: nat)
    ensures |PagesOf(map[], f)| == 0
  {
    assert PagesOf(map[], f) == {};
  }

  lemma PagesHere(mapped: map<nat, nat>, all: set<nat>)
    requires forall p :: p in mapped ==> mapped[p] in all
    ensures forall f: nat :: |PagesOf(mapped, f)| > 0 ==> f in all
  {
    forall f: nat | |PagesOf(mapped, f)| > 0 ensures f in all {
      var p :| p in PagesOf(mapped, f);
    }
  }

  lemma NothingRaised(counts: seq<nat>)
    requires forall i :: 0 <= i < |counts| ==> counts[i] <= MAX_COUNT
    ensures Raised(counts, map[], counts)
  {
    forall f: nat ensures |PagesOf(map[], f)| == 0 { NoPages(f); }
  }

  lemma RaisedCounts(m: State, parent: nat, child: nat, base: seq<nat>, now: seq<nat>, counts: map<nat, nat>)
    requires Shape(m) && parent in m.spaces && Raised(base, m.spaces[parent].mapped, now)
    requires forall f :: f in m.frames ==> At(base, f) == m.counts[f]
    requires counts.Keys == m.frames.Keys && forall f :: f in m.frames ==> counts[f] == At(now, f)
    ensures counts == Forked(m, parent, child).counts
  {
    hide PagesOf, At, Saturated, ReadOnly;
  }

  lemma NothingLowered(counts: seq<nat>, free: set<nat>)
    ensures Lowered(counts, free, map[], counts, free)
  {
    forall f: nat ensures |PagesOf(map[], f)| == 0 { NoPages(f); }
  }

  lemma ReleasedFree(m: State, pid: nat, base: seq<nat>, now: seq<nat>, left: set<nat>)
    requires Shape(m) && pid in m.spaces && m.free <= m.frames.Keys
    requires forall f :: f in m.frames ==> At(base, f) == m.counts[f]
    requires Lowered(base, m.free, m.spaces[pid].mapped, now, left)
    ensures left == Destroyed(m, pid).free && left <= m.frames.Keys
  {
    hide PagesOf, At;
    SpaceAt(m, pid);
    PagesHere(m.spaces[pid].mapped, m.frames.Keys);
    DestroyShape(m, pid);
    forall f: nat ensures f in left <==> f in Destroyed(m, pid).free {
      if f in m.frames {
        Freed(m, pid, f);
      }
    }
  }

  lemma LoweredCounts(m: State, pid: nat, base: seq<nat>, now: seq<nat>, left: set<nat>, counts: map<nat, nat>)
    requires Shape(m) && pid in m.spaces && Lowered(base, m.free, m.spaces[pid].mapped, now, left)
    requires forall f :: f in m.frames ==> At(base, f) == m.counts[f]
    requires counts.Keys == m.frames.Keys && forall f :: f in m.frames ==> counts[f] == At(now, f)
    ensures counts == Destroyed(m, pid).counts
  {
    hide PagesOf, At, Minus;
  }

  lemma ReadOnlyFrames(t: map<nat, Pte>)
    ensures ReadOnly(t).Keys == t.Keys
    ensures forall p :: p in t ==> ReadOnly(t)[p].frame == t[p].frame
  {
  }

  /** A free frame is mapped nowhere. */
  lemma FreeUnmapped(m: State, pid: nat, page: nat, f: nat)
    requires Inv(m) && pid in m.spaces && page in m.spaces[pid].table && f in m.free
    ensures m.frames.Keys == m.counts.Keys && m.free <= m.frames.Keys
    ensures m.spaces[pid].table[page].frame in m.frames && m.spaces[pid].table[page].frame != f
  {
    hide Owners;
    SpaceAt(m, pid);
    InOwners(m.spaces, f, pid, page);
    assert Placed(m, f);
  }
}
