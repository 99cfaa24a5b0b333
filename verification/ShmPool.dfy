/**
 Shared memory and the memory of processes on one machine: the calls of kernel/src/ipc/mod.rs take
 their frames from the allocator that serves address spaces, and record them in address spaces
 without a count.  The teardown of a process gives back every recorded frame whose count is used
 up, a shared one too; exactly there the frames of live regions can be lost.
 */
module ShmPool {
  import opened Options
  import opened Shm
  import M = Memory
  import C = CopyOnWrite

  /** The frames of live regions are among the frames that the kernel holds, `m.other`. */
  datatype Machine = Machine(m: M.State, s: State)

  /** `Exit` of the memory model is the teardown, when the parent's wait drops the address space. */
  datatype Event = Mem(step: C.Step) | Ipc(call: Step, writable: bool)

  // ---------------------------------------------------------------------------
  // The frames that a call moves
  // ---------------------------------------------------------------------------

  predicate Accepted(call: Step) {
    call.Create? && 0 < call.size <= SHM_MAX_SIZE && call.frames.Some?
  }

  /** The allocator delivers as many distinct free frames as the region has pages, or has too few. */
  ghost predicate Delivered(free: set<nat>, call: Step) {
    call.Create? ==>
      match call.frames
      case Some(fs) => Taken(fs) <= free && |Taken(fs)| == |fs| == Pages(call.size)
      case None => |free| < Pages(call.size)
  }

  function Returned(rs: seq<Release>): set<nat> {
    if rs == [] then {} else Returned(rs[..|rs| - 1]) + Taken(rs[|rs| - 1].frames)
  }

  ghost predicate Extends(s: State, s': State) { s.released <= s'.released }

  /** The frames released between two states. */
  function Back(s: State, s': State): set<nat>
    requires s.released <= s'.released
  {
    Returned(s'.released[|s.released|..])
  }

  lemma {:induction false} DropAllGrows(s: State, owned: seq<Mapping>)
    ensures Extends(s, DroppedAll(s, owned))
    decreases |owned|
  {
    if owned != [] {
      DropAllGrows(Dropped(s, owned[0].handle), owned[1..]);
    }
  }

  lemma ReleasedGrows(s: State, call: Step)
    ensures Extends(s, Apply(s, call))
  {
    if call.Cleanup? {
      DropAllGrows(s.(mappings := Others(s.mappings, call.pid)), Owned(s.mappings, call.pid));
    }
  }

  // ---------------------------------------------------------------------------
  // The machine
  // ---------------------------------------------------------------------------

  predicate Within(first: nat, n: nat, p: nat) { first <= p < first + n }

  function Window(first: nat, n: nat): set<nat> { set p: nat | first <= p < first + n && Within(first, n, p) }

  /** `map_to` for each page of a region: recorded, and not counted. */
  function WithPages(sp: M.Space, first: nat, frames: seq<nat>, writable: bool): M.Space {
    M.Space(
      map p | p in sp.mapped.Keys + Window(first, |frames|) ::
        if first <= p < first + |frames| then frames[p - first] else sp.mapped[p],
      map p | p in sp.table.Keys + Window(first, |frames|) ::
        if first <= p < first + |frames| then M.Pte(frames[p - first], writable, false, true) else sp.table[p])
  }

  /** `unmap_va` for each page. */
  function WithoutPages(sp: M.Space, first: nat, n: nat): M.Space {
    M.Space(sp.mapped - Window(first, n), sp.table - Window(first, n))
  }

  /** Zeroed frames for a region. */
  function TakenOut(m: M.State, fs: set<nat>): M.State {
    m.(frames := map f | f in m.frames :: if f in fs then M.Zeros() else m.frames[f],
       free := m.free - fs, other := m.other + fs)
  }

  function GivenBack(m: M.State, fs: set<nat>): M.State {
    m.(free := m.free + fs, other := m.other - fs)
  }

  /** The page of a process where its next region goes. */
  function NextPage(s: State, pid: nat): nat { FIRST_PAGE + Bump(s, pid) }

  function PageOf(mp: Mapping): nat { mp.base / PAGE_SIZE }

  /** What a call does to the address space of the process. */
  function Remapped(k: Machine, call: Step, writable: bool): M.State
    requires call.Map? && call.mapped ==> call.pid in k.m.spaces
  {
    match call
    case Map(pid, handle, mapped) =>
      if !mapped || handle !in k.s.table then k.m
      else
        var sp := WithPages(k.m.spaces[pid], NextPage(k.s, pid), k.s.table[handle].frames, writable);
        k.m.(spaces := k.m.spaces[pid := sp])
    case Unmap(pid, ptr) =>
      var at := Position(k.s.mappings, pid, ptr);
      if at == None || pid !in k.m.spaces then k.m
      else
        var mp := k.s.mappings[at.value];
        k.m.(spaces := k.m.spaces[pid := WithoutPages(k.m.spaces[pid], PageOf(mp), mp.pages)])
    case _ => k.m
  }

  ghost predicate Possible(k: Machine, e: Event) {
    match e
    case Mem(step) => C.Possible(k.m, step) && (step.KernelGives? ==> !InRegion(k.s.table, step.frame))
    case Ipc(call, _) =>
      && Delivered(k.m.free, call)
      && (call.Map? && call.mapped ==>
            && call.pid in k.m.spaces
            && (call.handle in k.s.table ==>
                  AllFree(k.m.spaces[call.pid].mapped, {}, NextPage(k.s, call.pid), |k.s.table[call.handle].frames|)))
  }

  ghost predicate InRegion(table: map<nat, Region>, f: nat) {
    exists h :: h in table && f in Taken(table[h].frames)
  }

  ghost function Moved(k: Machine, e: Event): Machine
    requires M.Shape(k.m) && Possible(k, e)
  {
    match e
    case Mem(step) => Machine(C.Apply(k.m, step).0, k.s)
    case Ipc(call, writable) =>
      ReleasedGrows(k.s, call);
      var s' := Apply(k.s, call);
      var m1 := Remapped(k, call, writable);
      var m2 := if Accepted(call) then TakenOut(m1, Taken(call.frames.value)) else m1;
      Machine(GivenBack(m2, Back(k.s, s')), s')
  }

  // ---------------------------------------------------------------------------
  // The balance
  // ---------------------------------------------------------------------------

  /** No frame of a live region is free, and no two regions share one. */
  ghost predicate Balanced(table: map<nat, Region>, free: set<nat>, other: set<nat>) {
    && free !! other
    && (forall h :: h in table ==> Taken(table[h].frames) <= other)
    && (forall g, h :: g in table && h in table && g != h ==> Taken(table[g].frames) !! Taken(table[h].frames))
  }

  ghost predicate SameFrames(a: map<nat, Region>, b: map<nat, Region>) {
    a.Keys == b.Keys && forall h :: h in a ==> b[h].frames == a[h].frames
  }

  lemma SameBalance(a: map<nat, Region>, b: map<nat, Region>, free: set<nat>, other: set<nat>)
    requires SameFrames(a, b) && Balanced(a, free, other)
    ensures Balanced(b, free, other)
  {
    hide Taken;
  }

  /** A region that goes gives its frames back. */
  lemma RemoveBalance(table: map<nat, Region>, h: nat, free: set<nat>, other: set<nat>)
    requires h in table && Balanced(table, free, other)
    ensures Balanced(table - {h}, free + Taken(table[h].frames), other - Taken(table[h].frames))
  {
    hide Taken;
    forall g | g in table - {h} ensures Taken(table[g].frames) <= other - Taken(table[h].frames) {
      assert Taken(table[g].frames) !! Taken(table[h].frames);
    }
  }

  lemma AddBalance(table: map<nat, Region>, h: nat, r: Region, free: set<nat>, other: set<nat>)
    requires h !in table && Taken(r.frames) <= free && Balanced(table, free, other)
    ensures Balanced(table[h := r], free - Taken(r.frames), other + Taken(r.frames))
  {
    hide Taken;
  }

  lemma DropBalance(s: State, h: nat, free: set<nat>, other: set<nat>)
    requires Balanced(s.table, free, other)
    ensures Extends(s, Dropped(s, h))
    ensures Balanced(Dropped(s, h).table, free + Back(s, Dropped(s, h)), other - Back(s, Dropped(s, h)))
  {
    hide Balanced, Taken;
    var s' := Dropped(s, h);
    if h in s.table && h !in s'.table {
      OneBack(s, s', Release(h, s.table[h].frames));
      RemoveBalance(s.table, h, free, other);
    } else {
      NothingBack(s, s');
      assert free + {} == free && other - {} == other;
      SameBalance(s.table, s'.table, free, other);
    }
  }

  lemma OneBack(s: State, s': State, r: Release)
    requires s'.released == s.released + [r]
    ensures Back(s, s') == Taken(r.frames)
  {
    assert s'.released[|s.released|..] == [r];
    assert Returned([r]) == Returned([r][..0]) + Taken(r.frames);
    assert [r][..0] == [];
  }

  lemma NothingBack(s: State, s': State)
    requires s'.released == s.released
    ensures Back(s, s') == {}
  {
    assert s'.released[|s.released|..] == [];
  }

  lemma {:induction false} ReturnedConcat(a: seq<Release>, b: seq<Release>)
    ensures Returned(a + b) == Returned(a) + Returned(b)
  {
    hide Taken;
    if b == [] {
      assert a + b == a;
    } else {
      ReturnedConcat(a, b[..|b| - 1]);
      assert (a + b)[..|a + b| - 1] == a + b[..|b| - 1];
    }
  }

  lemma BackTrans(a: State, b: State, c: State)
    requires Extends(a, b) && Extends(b, c)
    ensures Extends(a, c) && Back(a, c) == Back(a, b) + Back(b, c)
  {
    ReturnedConcat(b.released[|a.released|..], c.released[|b.released|..]);
    assert c.released[|a.released|..] == b.released[|a.released|..] + c.released[|b.released|..];
  }

  lemma {:induction false} DropAllBalance(s: State, owned: seq<Mapping>, free: set<nat>, other: set<nat>)
    requires Balanced(s.table, free, other)
    ensures Extends(s, DroppedAll(s, owned))
    ensures Balanced(DroppedAll(s, owned).table, free + Back(s, DroppedAll(s, owned)), other - Back(s, DroppedAll(s, owned)))
    decreases |owned|
  {
    hide Balanced, Dropped, Taken, Back;
    if owned == [] {
      NothingBack(s, s);
      assert free + {} == free && other - {} == other;
    } else {
      var s1 := Dropped(s, owned[0].handle);
      DropBalance(s, owned[0].handle, free, other);
      DropAllBalance(s1, owned[1..], free + Back(s, s1), other - Back(s, s1));
      var s2 := DroppedAll(s, owned);
      BackTrans(s, s1, s2);
      assert free + Back(s, s1) + Back(s1, s2) == free + Back(s, s2);
      assert other - Back(s, s1) - Back(s1, s2) == other - Back(s, s2);
    }
  }

  lemma CallBalance(s: State, call: Step, free: set<nat>, other: set<nat>)
    requires Balanced(s.table, free, other) && !call.Create?
    ensures Extends(s, Apply(s, call))
    ensures Balanced(Apply(s, call).table, free + Back(s, Apply(s, call)), other - Back(s, Apply(s, call)))
  {
    hide Balanced, Taken, Returned, Others, Owned, SwapRemove;
    match call {
      case Map(pid, handle, mapped) =>
        var s' := Apply(s, call);
        NothingBack(s, s');
        assert free + {} == free && other - {} == other;
        SameBalance(s.table, s'.table, free, other);
      case Unmap(pid, ptr) =>
        var at := Position(s.mappings, pid, ptr);
        if at.Some? {
          DropBalance(s.(mappings := SwapRemove(s.mappings, at.value)), s.mappings[at.value].handle, free, other);
        } else {
          NothingBack(s, s);
          assert free + {} == free && other - {} == other;
        }
      case Cleanup(pid) =>
        DropAllBalance(s.(mappings := Others(s.mappings, pid)), Owned(s.mappings, pid), free, other);
    }
  }

  // ---------------------------------------------------------------------------
  // Every step of every run
  // ---------------------------------------------------------------------------

  /** All frames of regions are among the given ones. */
  ghost predicate FramesIn(table: map<nat, Region>, all: set<nat>) {
    forall h :: h in table ==> Taken(table[h].frames) <= all
  }

  ghost predicate Formed(k: Machine) {
    && M.Shape(k.m) && k.m.free <= k.m.frames.Keys && k.m.other <= k.m.frames.Keys
    && Inv(k.s) && FramesIn(k.s.table, k.m.frames.Keys)
  }

  ghost predicate Even(k: Machine) {
    Balanced(k.s.table, k.m.free, k.m.other)
  }

  /**
   No page that the process still records is on a frame that the kernel holds, such as one of a
   live region, unless more owners are counted for the frame than the process has pages on it.
   */
  ghost predicate Clean(m: M.State, pid: nat)
    requires M.Shape(m) && pid in m.spaces
  {
    M.SpaceAt(m, pid);
    var mapped := m.spaces[pid].mapped;
    forall p :: p in mapped && mapped[p] in m.other ==> m.counts[mapped[p]] > |M.PagesOf(mapped, mapped[p])|
  }

  lemma StoreShape(m: M.State, pid: nat, page: nat, off: nat, value: nat)
    requires M.Shape(m) && pid in m.spaces && M.Stores(m, pid, page) && off < M.PAGE_SIZE
    ensures m.spaces[pid].table[page].frame in m.frames
    ensures M.Shape(M.Store(m, pid, page, off, value))
  {
    M.SpaceAt(m, pid);
    var n := M.Store(m, pid, page, off, value);
    forall q | q in n.spaces ensures M.SpaceOk(n.frames, n.spaces[q]) {
      M.SpaceAt(m, q);
    }
  }

  lemma ResolveShape(m: M.State, pid: nat, page: nat, got: Option<nat>)
    requires M.Shape(m) && pid in m.spaces && M.Given(m, got) && m.free <= m.frames.Keys
    ensures var (n, ok) := M.Resolved(m, pid, page, got);
            && M.Shape(n) && pid in n.spaces && n.frames.Keys == m.frames.Keys && n.free <= m.free && n.other == m.other
            && (ok ==> M.Stores(n, pid, page))
  {
    hide M.Shape;
    M.SpaceAt(m, pid);
    var s := m.spaces[pid];
    if page in s.table && s.table[page].cow && s.table[page].user {
      Counts(m);
      if m.counts[s.table[page].frame] <= 1 {
        LiftShape(m, pid, page);
      } else if got.Some? {
        M.CopyShape(m, pid, page, got.value);
      }
    }
  }

  lemma Counts(m: M.State)
    requires M.Shape(m)
    ensures m.frames.Keys == m.counts.Keys
  {
  }

  lemma LiftShape(m: M.State, pid: nat, page: nat)
    requires M.Shape(m) && pid in m.spaces && page in m.spaces[pid].table
    ensures M.Shape(M.WithEntry(m, pid, page, m.spaces[pid].table[page].(writable := true, cow := false)))
  {
    var n := M.WithEntry(m, pid, page, m.spaces[pid].table[page].(writable := true, cow := false));
    forall q | q in n.spaces ensures M.SpaceOk(n.frames, n.spaces[q]) {
      M.SpaceAt(m, q);
    }
  }

  lemma WriteShape(m: M.State, pid: nat, page: nat, off: nat, value: nat, got: Option<nat>)
    requires M.Shape(m) && pid in m.spaces && M.Given(m, got) && m.free <= m.frames.Keys && off < M.PAGE_SIZE
    ensures var n := M.Written(m, pid, page, off, value, got).0;
            && M.Shape(n) && n.frames.Keys == m.frames.Keys && n.free <= m.free && n.other == m.other
  {
    hide M.Shape, M.Resolved;
    if M.Stores(m, pid, page) {
      StoreShape(m, pid, page, off, value);
    } else {
      ResolveShape(m, pid, page, got);
      var r := M.Resolved(m, pid, page, got);
      if r.1 {
        StoreShape(r.0, pid, page, off, value);
      }
    }
  }

  /** No step of the memory but a teardown and a gift of the kernel frees a frame. */
  lemma MemShape(m: M.State, step: C.Step)
    requires M.Shape(m) && C.Possible(m, step) && m.free <= m.frames.Keys && m.other <= m.frames.Keys
    ensures var n := C.Apply(m, step).0;
            && M.Shape(n) && n.frames.Keys == m.frames.Keys && n.free <= n.frames.Keys && n.other <= n.frames.Keys
            && (!step.KernelTakes? && !step.KernelGives? ==> n.other == m.other)
            && (!step.Exit? && !step.KernelGives? ==> n.free <= m.free)
  {
    hide M.Written, M.Mapped, M.Forked, M.Destroyed;
    match step {
      case Create(pid) =>
        var n := C.Apply(m, step).0;
        forall q | q in n.spaces ensures M.SpaceOk(n.frames, n.spaces[q]) {
          if q != pid {
            M.SpaceAt(m, q);
          }
        }
      case Map(pid, page, writable, user, got) =>
        M.MapShape(m, pid, page, writable, user, got);
        MapFree(m, pid, page, writable, user, got);
      case Fork(pid, child) =>
        M.ForkShape(m, pid, child);
        ForkFree(m, pid, child);
      case Write(pid, page, off, value, got) => WriteShape(m, pid, page, off, value, got);
      case Exit(pid) => M.DestroyShape(m, pid);
      case _ =>
    }
  }

  lemma MapFree(m: M.State, pid: nat, page: nat, writable: bool, user: bool, got: Option<nat>)
    requires M.Shape(m) && pid in m.spaces && M.Given(m, got) && m.free <= m.frames.Keys
    ensures var n := M.Mapped(m, pid, page, writable, user, got).0;
            n.frames.Keys == m.frames.Keys && n.free <= m.free && n.other == m.other
  {
  }

  lemma ForkFree(m: M.State, pid: nat, child: nat)
    requires M.Shape(m) && pid in m.spaces
    ensures var n := M.Forked(m, pid, child); n.frames == m.frames && n.free == m.free && n.other == m.other
  {
  }

  lemma RemapShape(k: Machine, call: Step, writable: bool)
    requires Formed(k) && (call.Map? && call.mapped ==> call.pid in k.m.spaces)
    ensures var n := Remapped(k, call, writable);
            && M.Shape(n) && n.frames == k.m.frames && n.free == k.m.free && n.other == k.m.other
            && n.counts == k.m.counts
  {
    hide Taken, WithPages, WithoutPages, Inv;
    var n := Remapped(k, call, writable);
    forall q | q in n.spaces ensures M.SpaceOk(n.frames, n.spaces[q]) {
      M.SpaceAt(k.m, q);
      if call.Map? && q == call.pid && call.mapped && call.handle in k.s.table {
        InFrames(k, call.handle);
        WithPagesOk(k.m.frames, k.m.spaces[q], NextPage(k.s, q), k.s.table[call.handle].frames, writable);
      } else if call.Unmap? && q == call.pid && Position(k.s.mappings, q, call.ptr).Some? {
        var mp := k.s.mappings[Position(k.s.mappings, q, call.ptr).value];
        WithoutPagesOk(k.m.frames, k.m.spaces[q], PageOf(mp), mp.pages);
      }
    }
  }

  lemma WithPagesOk(frames: map<nat, M.Contents>, sp: M.Space, first: nat, fs: seq<nat>, writable: bool)
    requires M.SpaceOk(frames, sp) && forall i :: 0 <= i < |fs| ==> fs[i] in frames
    ensures M.SpaceOk(frames, WithPages(sp, first, fs, writable))
  {
  }

  lemma WithoutPagesOk(frames: map<nat, M.Contents>, sp: M.Space, first: nat, n: nat)
    requires M.SpaceOk(frames, sp)
    ensures M.SpaceOk(frames, WithoutPages(sp, first, n))
  {
  }

  lemma InFrames(k: Machine, h: nat)
    requires Formed(k) && h in k.s.table
    ensures forall i :: 0 <= i < |k.s.table[h].frames| ==> k.s.table[h].frames[i] in k.m.frames
  {
    forall i | 0 <= i < |k.s.table[h].frames| ensures k.s.table[h].frames[i] in k.m.frames {
      assert k.s.table[h].frames[i] in Taken(k.s.table[h].frames);
    }
  }

  lemma DropFrames(s: State, h: nat, all: set<nat>)
    requires FramesIn(s.table, all)
    ensures Extends(s, Dropped(s, h)) && FramesIn(Dropped(s, h).table, all) && Back(s, Dropped(s, h)) <= all
  {
    hide Taken;
    var s' := Dropped(s, h);
    if h in s.table && h !in s'.table {
      OneBack(s, s', Release(h, s.table[h].frames));
    } else {
      NothingBack(s, s');
    }
  }

  lemma {:induction false} DropAllFrames(s: State, owned: seq<Mapping>, all: set<nat>)
    requires FramesIn(s.table, all)
    ensures Extends(s, DroppedAll(s, owned))
    ensures FramesIn(DroppedAll(s, owned).table, all) && Back(s, DroppedAll(s, owned)) <= all
    decreases |owned|
  {
    hide FramesIn, Dropped, Back;
    if owned == [] {
      NothingBack(s, s);
    } else {
      var s1 := Dropped(s, owned[0].handle);
      DropFrames(s, owned[0].handle, all);
      DropAllFrames(s1, owned[1..], all);
      BackTrans(s, s1, DroppedAll(s, owned));
    }
  }

  lemma CallFrames(s: State, call: Step, all: set<nat>)
    requires FramesIn(s.table, all) && (Accepted(call) ==> Taken(call.frames.value) <= all)
    ensures Extends(s, Apply(s, call)) && FramesIn(Apply(s, call).table, all) && Back(s, Apply(s, call)) <= all
  {
    hide Taken, Returned, Others, Owned, SwapRemove;
    match call {
      case Create(_, _, _) => NothingBack(s, Apply(s, call));
      case Map(_, _, _) => NothingBack(s, Apply(s, call));
      case Unmap(pid, ptr) =>
        var at := Position(s.mappings, pid, ptr);
        if at.Some? {
          DropFrames(s.(mappings := SwapRemove(s.mappings, at.value)), s.mappings[at.value].handle, all);
        } else {
          NothingBack(s, s);
        }
      case Cleanup(pid) =>
        DropAllFrames(s.(mappings := Others(s.mappings, pid)), Owned(s.mappings, pid), all);
    }
  }

  lemma IpcFormed(k: Machine, call: Step, writable: bool)
    requires Formed(k) && Possible(k, Ipc(call, writable))
    ensures Formed(Moved(k, Ipc(call, writable)))
  {
    hide Taken, Back, Apply, Inv, Remapped, M.Shape, Pages, FramesIn, TakenOut, AllFree;
    RemapShape(k, call, writable);
    StepKeeps(k.s, call);
    CallFrames(k.s, call, k.m.frames.Keys);
    var m1 := Remapped(k, call, writable);
    if Accepted(call) {
      TakenShape(m1, Taken(call.frames.value));
    }
    var m2 := if Accepted(call) then TakenOut(m1, Taken(call.frames.value)) else m1;
    GivenShape(m2, Back(k.s, Apply(k.s, call)));
  }

  /** Every step leaves a well-formed machine, whatever the frames. */
  lemma StepFormed(k: Machine, e: Event)
    requires Formed(k) && Possible(k, e)
    ensures Formed(Moved(k, e))
  {
    hide C.Apply, M.Shape, Inv, FramesIn;
    match e {
      case Mem(step) => MemShape(k.m, step);
      case Ipc(call, writable) => IpcFormed(k, call, writable);
    }
  }

  lemma GivenShape(m: M.State, fs: set<nat>)
    requires M.Shape(m)
    ensures M.Shape(GivenBack(m, fs))
  {
    var n := GivenBack(m, fs);
    forall q | q in n.spaces ensures M.SpaceOk(n.frames, n.spaces[q]) {
      M.SpaceAt(m, q);
    }
  }

  lemma TakenShape(m: M.State, fs: set<nat>)
    requires M.Shape(m)
    ensures M.Shape(TakenOut(m, fs)) && TakenOut(m, fs).frames.Keys == m.frames.Keys
    ensures TakenOut(m, fs).free == m.free - fs && TakenOut(m, fs).other == m.other + fs
  {
    var n := TakenOut(m, fs);
    forall q | q in n.spaces ensures M.SpaceOk(n.frames, n.spaces[q]) {
      M.SpaceAt(m, q);
    }
  }

  /** A call that can be made keeps the balance. */
  lemma IpcBalance(k: Machine, call: Step, writable: bool)
    requires Formed(k) && Even(k) && Possible(k, Ipc(call, writable))
    ensures Even(Moved(k, Ipc(call, writable)))
  {
    hide Balanced, Taken, Pages, Back, M.Shape;
    RemapShape(k, call, writable);
    var free, other := k.m.free, k.m.other;
    if call.Create? {
      NothingBack(k.s, Apply(k.s, call));
      if Accepted(call) {
        HandlesNeverReused(k.s, call.size, call.creator, call.frames);
        var r := Region(call.frames.value, call.size, call.creator, 0);
        AddBalance(k.s.table, k.s.nextHandle, r, free, other);
        assert free - Taken(r.frames) + {} == free - Taken(r.frames);
        assert other + Taken(r.frames) - {} == other + Taken(r.frames);
      } else {
        assert free + {} == free && other - {} == other;
      }
    } else {
      CallBalance(k.s, call, free, other);
    }
  }

  /** A teardown keeps the balance if and only if it is clean. */
  lemma ExitBalance(k: Machine, pid: nat)
    requires Formed(k) && Even(k) && pid in k.m.spaces
    ensures Even(Machine(M.Destroyed(k.m, pid), k.s)) <==> Clean(k.m, pid)
  {
    hide Taken, M.PagesOf, Inv;
    M.DestroyShape(k.m, pid);
    M.SpaceAt(k.m, pid);
    var mapped := k.m.spaces[pid].mapped;
    var n := M.Destroyed(k.m, pid);
    forall f | f in k.m.other
      ensures f in n.free <==> exists p :: p in mapped && mapped[p] == f && k.m.counts[f] <= |M.PagesOf(mapped, f)|
    {
      if f in n.free {
        var p :| p in mapped && mapped[p] == f && k.m.counts[f] <= |M.PagesOf(mapped, f)|;
      }
    }
  }

  lemma MemBalance(k: Machine, step: C.Step)
    requires Formed(k) && Even(k) && Possible(k, Mem(step))
    ensures Even(Moved(k, Mem(step))) <==> (step.Exit? ==> Clean(k.m, step.pid))
  {
    hide Taken, Inv, Clean, M.Shape;
    MemShape(k.m, step);
    match step {
      case Exit(pid) => ExitBalance(k, pid);
      case KernelTakes(f) =>
      case KernelGives(f) =>
      case _ =>
    }
  }

  /** The balance survives a step if and only if the step is no unclean teardown. */
  lemma StepExact(k: Machine, e: Event)
    requires Formed(k) && Even(k) && Possible(k, e)
    ensures Even(Moved(k, e)) <==> (e.Mem? && e.step.Exit? ==> Clean(k.m, e.step.pid))
  {
    match e {
      case Mem(step) => MemBalance(k, step);
      case Ipc(call, writable) => IpcBalance(k, call, writable);
    }
  }

  // ---------------------------------------------------------------------------
  // Whole runs
  // ---------------------------------------------------------------------------

  ghost predicate AllPossible(k: Machine, events: seq<Event>)
    requires Formed(k)
    decreases |events|
  {
    events == [] || (
      && Possible(k, events[0])
      && (StepFormed(k, events[0]);
          AllPossible(Moved(k, events[0]), events[1..])))
  }

  ghost function After(k: Machine, events: seq<Event>): (r: Machine)
    requires Formed(k) && AllPossible(k, events)
    ensures Formed(r)
    decreases |events|
  {
    if events == [] then k
    else
      StepFormed(k, events[0]);
      After(Moved(k, events[0]), events[1..])
  }

  /** The balance holds at every point of a run. */
  ghost predicate AllEven(k: Machine, events: seq<Event>)
    requires Formed(k) && AllPossible(k, events)
    decreases |events|
  {
    Even(k) && (events == [] || (
      StepFormed(k, events[0]);
      AllEven(Moved(k, events[0]), events[1..])))
  }

  /** Every teardown of a run is clean when it comes. */
  ghost predicate AllClean(k: Machine, events: seq<Event>)
    requires Formed(k) && AllPossible(k, events)
    decreases |events|
  {
    events == [] || (
      && (events[0].Mem? && events[0].step.Exit? ==> Clean(k.m, events[0].step.pid))
      && (StepFormed(k, events[0]);
          AllClean(Moved(k, events[0]), events[1..])))
  }

  /**
   In any run of calls, forks, faults, mappings and teardowns, no frame of a live region is ever
   free and no two regions ever share one, if and only if every teardown is clean.
   */
  lemma {:induction false} RunBalancedExactly(k: Machine, events: seq<Event>)
    requires Formed(k) && Even(k) && AllPossible(k, events)
    ensures AllEven(k, events) <==> AllClean(k, events)
    decreases |events|
  {
    hide Even, Possible, Moved, Clean, M.Shape, Inv, FramesIn;
    if events != [] {
      StepFormed(k, events[0]);
      StepExact(k, events[0]);
      if Even(Moved(k, events[0])) {
        RunBalancedExactly(Moved(k, events[0]), events[1..]);
      } else {
        NotEven(Moved(k, events[0]), events[1..]);
      }
    }
  }

  lemma NotEven(k: Machine, events: seq<Event>)
    requires Formed(k) && AllPossible(k, events) && !Even(k)
    ensures !AllEven(k, events)
  {
  }

  /** A machine that has just booted, with the given frames free. */
  function Start(frames: set<nat>): Machine { Machine(C.Booted(frames), INITIAL) }

  lemma StartEven(frames: set<nat>)
    ensures Formed(Start(frames)) && Even(Start(frames))
  {
    assert Count([], 0) == 0;
  }

  // ---------------------------------------------------------------------------
  // A run that loses the balance
  // ---------------------------------------------------------------------------

  lemma {:induction false} RunSnoc(k: Machine, w: seq<Event>, e: Event)
    requires Formed(k) && AllPossible(k, w) && Possible(After(k, w), e)
    ensures AllPossible(k, w + [e]) && After(k, w + [e]) == Moved(After(k, w), e)
    decreases |w|
  {
    hide Possible, Moved, M.Shape, Inv, FramesIn;
    if w == [] {
      assert [] + [e] == [e];
      StepFormed(k, e);
      Nothing(Moved(k, e));
      assert [e][1..] == [];
    } else {
      StepFormed(k, w[0]);
      RunSnoc(Moved(k, w[0]), w[1..], e);
      assert (w + [e])[1..] == w[1..] + [e];
    }
  }

  lemma Nothing(k: Machine)
    requires Formed(k)
    ensures AllPossible(k, []) && After(k, []) == k
  {
  }

  /** The step of a call that releases nothing. */
  lemma CallMoves(k: Machine, call: Step)
    requires M.Shape(k.m) && Possible(k, Ipc(call, true)) && Apply(k.s, call).released == k.s.released
    ensures var k' := Moved(k, Ipc(call, true));
            var m1 := Remapped(k, call, true);
            && k'.s == Apply(k.s, call)
            && k'.m == if Accepted(call) then TakenOut(m1, Taken(call.frames.value)) else m1
  {
    hide Apply, Taken, TakenOut, Remapped, M.Shape, Delivered, AllFree;
    NothingBack(k.s, Apply(k.s, call));
    var m1 := Remapped(k, call, true);
    var m2 := if Accepted(call) then TakenOut(m1, Taken(call.frames.value)) else m1;
    assert m2.free + {} == m2.free && m2.other - {} == m2.other;
  }

  lemma OneFrame(k: Machine, creator: nat, f: nat)
    requires Formed(k) && f in k.m.free
    ensures var e := Ipc(Create(1, creator, Some([f])), true);
            && Possible(k, e)
            && Moved(k, e).s == Created(k.s, 1, creator, Some([f])).0
            && Moved(k, e).m.free == k.m.free - {f} && Moved(k, e).m.other == k.m.other + {f}
            && Moved(k, e).m.counts == k.m.counts && Moved(k, e).m.spaces == k.m.spaces
  {
    hide M.Shape, Inv, FramesIn;
    assert Taken([f]) == {f};
    CallMoves(k, Create(1, creator, Some([f])));
  }

  const PAGE_HELD: M.Pte := M.Pte(7, true, false, true)
  const SHARED: M.Space := M.Space(map[FIRST_PAGE := 7], map[FIRST_PAGE := PAGE_HELD])
  const NONE: M.Space := M.Space(map[], map[])

  function MappedBy(pid: nat): Mapping { Mapping(pid, 1, SHM_VA_BASE, 1) }

  function Region7(refs: nat): Region { Region([7], 1, 1, refs) }

  /** A first mapping of region 1 by a process without pages. */
  lemma OneMap(k: Machine, pid: nat, refs: nat)
    requires Formed(k) && pid in k.m.spaces && k.m.spaces[pid] == NONE && pid !in k.s.vaNext
    requires 1 in k.s.table && k.s.table[1] == Region7(refs)
    ensures var e := Ipc(Map(pid, 1, true), true);
            && Possible(k, e)
            && Moved(k, e).m == k.m.(spaces := k.m.spaces[pid := SHARED])
            && Moved(k, e).s == k.s.(table := k.s.table[1 := Region7(refs + 1)],
                                     mappings := k.s.mappings + [MappedBy(pid)], vaNext := k.s.vaNext[pid := 1])
  {
    hide M.Shape, Inv, FramesIn, Taken, WithPages, Moved;
    OneWindow();
    assert NextPage(k.s, pid) == FIRST_PAGE;
    CallMoves(k, Map(pid, 1, true));
  }

  lemma OneWindow()
    ensures WithPages(NONE, FIRST_PAGE, [7], true) == SHARED
  {
    assert forall p :: p in Window(FIRST_PAGE, 1) <==> p == FIRST_PAGE;
  }

  /** The exit of process 1 while process 2 has the region. */
  lemma FirstExits(k: Machine)
    requires Formed(k)
    requires k.s == State(map[1 := Region7(2)], [MappedBy(1), MappedBy(2)], map[1 := 1, 2 := 1], 2, [])
    ensures var e := Ipc(Cleanup(1), true);
            && Possible(k, e) && Moved(k, e).m == k.m
            && Moved(k, e).s == State(map[1 := Region7(1)], [MappedBy(2)], map[2 := 1], 2, [])
  {
    hide M.Shape, Inv, FramesIn, Taken;
    var ms := k.s.mappings;
    assert ms[..1] == [MappedBy(1)] && ms[..1][..0] == [];
    assert Owned(ms[..1], 1) == [MappedBy(1)] && Others(ms[..1], 1) == [];
    assert Owned(ms, 1) == [MappedBy(1)] && Others(ms, 1) == [MappedBy(2)];
    Dropping(k.s.(mappings := [MappedBy(2)]));
    CallMoves(k, Cleanup(1));
  }

  lemma Dropping(s: State)
    requires s.table == map[1 := Region7(2)]
    ensures DroppedAll(s, [MappedBy(1)]) == s.(table := map[1 := Region7(1)])
  {
    assert [MappedBy(1)][1..] == [];
    assert Dropped(s, 1) == s.(table := map[1 := Region7(1)]);
    assert DroppedAll(Dropped(s, 1), []) == Dropped(s, 1);
  }

  /** The wait of its parent. */
  lemma FirstTornDown(k: Machine)
    requires Formed(k) && k.m.spaces == map[1 := SHARED, 2 := SHARED] && 7 in k.m.counts && k.m.counts[7] == 0
    ensures var e := Mem(C.Exit(1));
            && Possible(k, e) && Moved(k, e).s == k.s && 7 in Moved(k, e).m.free
            && Moved(k, e).m.other == k.m.other
  {
    hide Inv, FramesIn, Taken;
    assert FIRST_PAGE in SHARED.mapped && SHARED.mapped[FIRST_PAGE] == 7;
  }

  lemma Boots(k: Machine, pid: nat)
    requires Formed(k) && pid !in k.m.spaces
    ensures var e := Mem(C.Create(pid));
            && Possible(k, e) && Moved(k, e).s == k.s
            && Moved(k, e).m == k.m.(spaces := k.m.spaces[pid := NONE])
  {
    hide M.Shape, Inv, FramesIn;
  }

  /**
   Two processes map a region; the first exits without unmapping it, and its parent's wait tears
   it down: the frame of the live region is free, and the next region gets it too.
   */
  lemma SharedFrameLost() returns (w: seq<Event>, last: Event)
    ensures Formed(Start({7})) && AllPossible(Start({7}), w) && AllPossible(Start({7}), w + [last])
    ensures var k := After(Start({7}), w); 1 in k.s.table && k.s.table[1].frames == [7] && 7 in k.m.free
    ensures var k := After(Start({7}), w + [last]);
            1 in k.s.table && 2 in k.s.table && k.s.table[1].frames == [7] == k.s.table[2].frames
  {
    hide Possible, Moved, M.Shape, AllPossible, After, Inv, FramesIn;
    var k := Start({7});
    StartEven({7});
    Nothing(k);
    Boots(k, 1);
    w := Longer(k, [], Mem(C.Create(1)));
    Boots(After(k, w), 2);
    w := Longer(k, w, Mem(C.Create(2)));
    OneFrame(After(k, w), 1, 7);
    w := Longer(k, w, Ipc(Create(1, 1, Some([7])), true));
    OneMap(After(k, w), 1, 0);
    w := Longer(k, w, Ipc(Map(1, 1, true), true));
    OneMap(After(k, w), 2, 1);
    w := Longer(k, w, Ipc(Map(2, 1, true), true));
    assert After(k, w).s.mappings == [MappedBy(1), MappedBy(2)];
    FirstExits(After(k, w));
    w := Longer(k, w, Ipc(Cleanup(1), true));
    FirstTornDown(After(k, w));
    w := Longer(k, w, Mem(C.Exit(1)));
    OneFrame(After(k, w), 2, 7);
    last := Ipc(Create(1, 2, Some([7])), true);
    var w' := Longer(k, w, last);
  }

  lemma Longer(k: Machine, w: seq<Event>, e: Event) returns (w': seq<Event>)
    requires Formed(k) && AllPossible(k, w) && Possible(After(k, w), e)
    ensures w' == w + [e] && AllPossible(k, w') && After(k, w') == Moved(After(k, w), e)
  {
    RunSnoc(k, w, e);
    w' := w + [e];
  }
}
