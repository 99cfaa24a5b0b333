/**
 Shared-memory handles of kernel/src/ipc/mod.rs at the level of the ipc tables: regions with a
 count of live mappings, the list of mappings, and a bump of virtual pages per process. The
 steps take the outcomes of frame allocation and page-table updates from the environment.
 */
module Shm {
  import opened Options

  const PAGE_SIZE: nat := 4096
  const SHM_MAX_SIZE: nat := 64 * 1024 * 1024
  const SHM_VA_BASE: nat := 0x0000_6000_0000_0000

  datatype Region = Region(frames: seq<nat>, size: nat, creator: nat, refs: nat)

  datatype Mapping = Mapping(pid: nat, handle: nat, base: nat, pages: nat)

  datatype Release = Release(handle: nat, frames: seq<nat>)

  datatype State = State(
    table: map<nat, Region>,       // SHM_TABLE
    mappings: seq<Mapping>,        // SHM_MAPPINGS
    vaNext: map<nat, nat>,         // SHM_VA_NEXT, in pages
    nextHandle: nat,               // NEXT_HANDLE
    // history
    released: seq<Release>)        // the regions whose frames went back to the allocator

  const INITIAL: State := State(map[], [], map[], 1, [])

  // ---------------------------------------------------------------------------
  // Specification of the calls
  // ---------------------------------------------------------------------------

  /** The least number of pages that hold `size` bytes. */
  function Pages(size: nat): (n: nat)
    ensures size <= n * PAGE_SIZE < size + PAGE_SIZE
  {
    (size + PAGE_SIZE - 1) / PAGE_SIZE
  }

  /** `sys_shm_create`; `frames` is what the frame allocator delivered, None when it ran dry. */
  function Created(s: State, size: nat, creator: nat, frames: Option<seq<nat>>): (State, Option<nat>) {
    if size == 0 || size > SHM_MAX_SIZE || frames.None? then (s, None)
    else (s.(table := s.table[s.nextHandle := Region(frames.value, size, creator, 0)], nextHandle := s.nextHandle + 1),
          Some(s.nextHandle))
  }

  function Bump(s: State, pid: nat): nat { if pid in s.vaNext then s.vaNext[pid] else 0 }

  /** `sys_shm_map`; `mapped` says whether the process exists and every page could be mapped. */
  function Mapped(s: State, pid: nat, handle: nat, mapped: bool): (State, Option<nat>) {
    if handle !in s.table then (s, None)
    else
      var r := s.table[handle];
      var pages := |r.frames|;
      var base := SHM_VA_BASE + Bump(s, pid) * PAGE_SIZE;
      var s1 := s.(vaNext := s.vaNext[pid := Bump(s, pid) + pages]);
      if !mapped then (s1, None)
      else (s1.(table := s.table[handle := r.(refs := r.refs + 1)],
                mappings := s.mappings + [Mapping(pid, handle, base, pages)]),
            Some(base))
  }

  /** Drops one reference; the region goes with its last one. */
  function Dropped(s: State, handle: nat): State {
    if handle !in s.table then s
    else
      var r := s.table[handle];
      var refs := if r.refs > 0 then r.refs - 1 else 0;
      if refs == 0 then s.(table := s.table - {handle}, released := s.released + [Release(handle, r.frames)])
      else s.(table := s.table[handle := r.(refs := refs)])
  }

  /** `Vec::swap_remove` */
  function SwapRemove(ms: seq<Mapping>, i: nat): seq<Mapping>
    requires i < |ms|
  {
    ms[i := ms[|ms| - 1]][..|ms| - 1]
  }

  function Position(ms: seq<Mapping>, pid: nat, base: nat): (r: Option<nat>)
    ensures r.Some? ==> r.value < |ms| && ms[r.value].pid == pid && ms[r.value].base == base
    ensures r.None? ==> forall k :: 0 <= k < |ms| ==> ms[k].pid != pid || ms[k].base != base
  {
    if ms == [] then None
    else if ms[0].pid == pid && ms[0].base == base then Some(0)
    else
      var r := Position(ms[1..], pid, base);
      if r.None? then None else Some(r.value + 1)
  }

  /** `sys_shm_unmap` */
  function Unmapped(s: State, pid: nat, ptr: nat): (State, bool) {
    var at := Position(s.mappings, pid, ptr);
    if at.None? then (s, false)
    else (Dropped(s.(mappings := SwapRemove(s.mappings, at.value)), s.mappings[at.value].handle), true)
  }

  function Others(ms: seq<Mapping>, pid: nat): seq<Mapping> {
    if ms == [] then []
    else Others(ms[..|ms| - 1], pid) + (if ms[|ms| - 1].pid != pid then [ms[|ms| - 1]] else [])
  }

  function Owned(ms: seq<Mapping>, pid: nat): seq<Mapping> {
    if ms == [] then []
    else Owned(ms[..|ms| - 1], pid) + (if ms[|ms| - 1].pid == pid then [ms[|ms| - 1]] else [])
  }

  function DroppedAll(s: State, owned: seq<Mapping>): State
    decreases |owned|
  {
    if owned == [] then s else DroppedAll(Dropped(s, owned[0].handle), owned[1..])
  }

  /** `cleanup_pid` */
  function Cleaned(s: State, pid: nat): State {
    var s1 := DroppedAll(s.(mappings := Others(s.mappings, pid)), Owned(s.mappings, pid));
    s1.(vaNext := s1.vaNext - {pid})
  }

  datatype Step =
    | Create(size: nat, creator: nat, frames: Option<seq<nat>>)
    | Map(pid: nat, handle: nat, mapped: bool)
    | Unmap(pid: nat, ptr: nat)
    | Cleanup(pid: nat)

  function Apply(s: State, step: Step): State {
    match step
    case Create(size, creator, frames) => Created(s, size, creator, frames).0
    case Map(pid, handle, mapped) => Mapped(s, pid, handle, mapped).0
    case Unmap(pid, ptr) => Unmapped(s, pid, ptr).0
    case Cleanup(pid) => Cleaned(s, pid)
  }

  // ---------------------------------------------------------------------------
  // The invariant
  // ---------------------------------------------------------------------------

  /** The number of live mappings of a handle. */
  function Count(ms: seq<Mapping>, handle: nat): nat {
    if ms == [] then 0 else Count(ms[..|ms| - 1], handle) + if ms[|ms| - 1].handle == handle then 1 else 0
  }

  /** `extra` mappings of a handle have left the list but not yet dropped their reference. */
  ghost predicate Counted(s: State, extra: seq<Mapping>) {
    forall h :: h in s.table ==> s.table[h].refs == Count(s.mappings, h) + Count(extra, h)
  }

  /** Every mapping names a region in the table and covers all its frames. */
  ghost predicate Known(s: State, ms: seq<Mapping>) {
    forall k :: 0 <= k < |ms| ==> ms[k].handle in s.table && ms[k].pages == |s.table[ms[k].handle].frames|
  }

  ghost predicate Apart(a: Mapping, b: Mapping) {
    a.pid == b.pid ==> a.base + a.pages * PAGE_SIZE <= b.base || b.base + b.pages * PAGE_SIZE <= a.base
  }

  /** Every mapping lies below its process's bump. */
  ghost predicate Below(s: State, m: Mapping) {
    m.pid in s.vaNext && m.base + m.pages * PAGE_SIZE <= SHM_VA_BASE + s.vaNext[m.pid] * PAGE_SIZE
  }

  ghost predicate Placed(s: State) {
    && (forall k :: 0 <= k < |s.mappings| ==> Below(s, s.mappings[k]))
    && (forall i, j :: 0 <= i < |s.mappings| && 0 <= j < |s.mappings| && i != j ==> Apart(s.mappings[i], s.mappings[j]))
  }

  /** Every handle ever given out is either in the table or released, and released only once. */
  ghost predicate Handles(s: State) {
    && (forall h :: h in s.table ==> h < s.nextHandle)
    && (forall k :: 0 <= k < |s.released| ==> s.released[k].handle < s.nextHandle && s.released[k].handle !in s.table)
    && (forall i, j :: 0 <= i < j < |s.released| ==> s.released[i].handle != s.released[j].handle)
  }

  ghost predicate Inv(s: State) {
    && Counted(s, []) && Known(s, s.mappings) && Placed(s) && Handles(s)
  }

  lemma {:induction false} CountConcat(a: seq<Mapping>, b: seq<Mapping>, h: nat)
    ensures Count(a + b, h) == Count(a, h) + Count(b, h)
  {
    if b == [] {
      assert a + b == a;
    } else {
      assert (a + b)[..|a + b| - 1] == a + b[..|b| - 1];
      CountConcat(a, b[..|b| - 1], h);
    }
  }

  lemma {:induction false} CountUpdate(ms: seq<Mapping>, i: nat, m: Mapping, h: nat)
    requires i < |ms|
    ensures Count(ms[i := m], h) + (if ms[i].handle == h then 1 else 0) ==
            Count(ms, h) + if m.handle == h then 1 else 0
  {
    var init := ms[..|ms| - 1];
    if i == |init| {
      assert ms[i := m][..i] == init;
    } else {
      assert ms[i := m][..|init|] == init[i := m];
      CountUpdate(init, i, m, h);
    }
  }

  lemma CountSwapRemove(ms: seq<Mapping>, i: nat, h: nat)
    requires i < |ms|
    ensures Count(SwapRemove(ms, i), h) + (if ms[i].handle == h then 1 else 0) == Count(ms, h)
  {
    CountUpdate(ms, i, ms[|ms| - 1], h);
  }

  lemma {:induction false} CountPositive(ms: seq<Mapping>, k: nat)
    requires k < |ms|
    ensures Count(ms, ms[k].handle) > 0
  {
    if k < |ms| - 1 {
      CountPositive(ms[..|ms| - 1], k);
    }
  }

  lemma {:induction false} CountPartition(ms: seq<Mapping>, pid: nat, h: nat)
    ensures Count(Others(ms, pid), h) + Count(Owned(ms, pid), h) == Count(ms, h)
  {
    if ms != [] {
      var init, last := ms[..|ms| - 1], ms[|ms| - 1];
      CountPartition(init, pid, h);
      CountConcat(Others(init, pid), [last], h);
      CountConcat(Owned(init, pid), [last], h);
      assert Others(init, pid) + [] == Others(init, pid) && Owned(init, pid) + [] == Owned(init, pid);
    }
  }

  /** Dropping the reference of a mapping that has left the list. */
  lemma DropKeeps(s: State, owned: seq<Mapping>)
    requires owned != [] && Counted(s, owned) && Known(s, s.mappings) && Known(s, owned) && Handles(s)
    ensures var s' := Dropped(s, owned[0].handle);
            && Counted(s', owned[1..]) && Known(s', s.mappings) && Known(s', owned[1..]) && Handles(s')
            && s'.mappings == s.mappings && s'.vaNext == s.vaNext
  {
    var m, rest := owned[0], owned[1..];
    forall h ensures Count(owned, h) == Count(rest, h) + if m.handle == h then 1 else 0 {
      assert owned == [m] + rest;
      CountConcat([m], rest, h);
    }
    hide Count;
    if m.handle !in Dropped(s, m.handle).table {
      forall k | 0 <= k < |s.mappings| ensures s.mappings[k].handle != m.handle {
        CountPositive(s.mappings, k);
      }
      forall k | 0 <= k < |rest| ensures rest[k].handle != m.handle {
        CountPositive(rest, k);
      }
    }
  }

  lemma {:induction false} DropAllKeeps(s: State, owned: seq<Mapping>)
    requires Counted(s, owned) && Known(s, s.mappings) && Known(s, owned) && Handles(s)
    ensures var s' := DroppedAll(s, owned);
            && Counted(s', []) && Known(s', s.mappings) && Handles(s')
            && s'.mappings == s.mappings && s'.vaNext == s.vaNext
    decreases |owned|
  {
    if owned != [] {
      DropKeeps(s, owned);
      DropAllKeeps(Dropped(s, owned[0].handle), owned[1..]);
    }
  }

  lemma MapCounted(s: State, pid: nat, handle: nat, mapped: bool)
    requires Counted(s, []) && Known(s, s.mappings) && Handles(s)
    ensures var s' := Mapped(s, pid, handle, mapped).0;
            Counted(s', []) && Known(s', s'.mappings) && Handles(s')
  {
    var s' := Mapped(s, pid, handle, mapped).0;
    if handle in s.table && mapped {
      var m := s'.mappings[|s.mappings|];
      forall h ensures Count(s'.mappings, h) == Count(s.mappings, h) + if h == handle then 1 else 0 {
        CountConcat(s.mappings, [m], h);
      }
    }
    hide Count;
  }

  /** The bump of the process moves past the new mapping. */
  lemma MapPlaced(s: State, pid: nat, handle: nat, mapped: bool)
    requires Placed(s)
    ensures Placed(Mapped(s, pid, handle, mapped).0)
  {
    var s' := Mapped(s, pid, handle, mapped).0;
    if handle in s.table {
      forall k | 0 <= k < |s.mappings| ensures s'.mappings[k] == s.mappings[k] && Below(s', s.mappings[k]) {
        assert Below(s, s.mappings[k]);
      }
      if mapped {
        var m := s'.mappings[|s.mappings|];
        forall k | 0 <= k < |s.mappings| ensures Apart(s.mappings[k], m) && Apart(m, s.mappings[k]) {
          assert Below(s, s.mappings[k]);
        }
      }
    }
  }

  lemma MapKeeps(s: State, pid: nat, handle: nat, mapped: bool)
    requires Inv(s)
    ensures Inv(Mapped(s, pid, handle, mapped).0)
  {
    MapCounted(s, pid, handle, mapped);
    MapPlaced(s, pid, handle, mapped);
  }

  lemma SwapRemoveFrom(ms: seq<Mapping>, i: nat, k: nat)
    requires i < |ms| && k < |ms| - 1
    ensures SwapRemove(ms, i)[k] == ms[if k == i then |ms| - 1 else k]
  {
  }

  /** An unmap takes one mapping out of the list and then drops its reference. */
  lemma UnmapDetaches(s: State, i: nat)
    requires Inv(s) && i < |s.mappings|
    ensures var s1 := s.(mappings := SwapRemove(s.mappings, i));
            && Counted(s1, [s.mappings[i]]) && Known(s1, s1.mappings) && Known(s1, [s.mappings[i]]) && Handles(s1)
            && Placed(s1)
  {
    var m := s.mappings[i];
    var s1 := s.(mappings := SwapRemove(s.mappings, i));
    forall h ensures Count(s1.mappings, h) + Count([m], h) == Count(s.mappings, h) && Count([], h) == 0 {
      CountSwapRemove(s.mappings, i, h);
    }
    hide Count, Apart, Below;
    forall k: nat | k < |s1.mappings|
      ensures s1.mappings[k] == s.mappings[if k == i then |s.mappings| - 1 else k]
    {
      SwapRemoveFrom(s.mappings, i, k);
    }
    hide SwapRemove;
    SameBumps(s, s1);
  }

  lemma SameBumps(s: State, s': State)
    requires s'.vaNext == s.vaNext
    ensures forall m :: Below(s, m) == Below(s', m)
  {
  }

  lemma UnmapIsDropAll(s: State, pid: nat, ptr: nat)
    requires Position(s.mappings, pid, ptr).Some?
    ensures var i := Position(s.mappings, pid, ptr).value;
            Unmapped(s, pid, ptr).0 == DroppedAll(s.(mappings := SwapRemove(s.mappings, i)), [s.mappings[i]])
  {
    hide SwapRemove;
    var i := Position(s.mappings, pid, ptr).value;
    var s1 := s.(mappings := SwapRemove(s.mappings, i));
    assert [s.mappings[i]][1..] == [];
    assert DroppedAll(Dropped(s1, s.mappings[i].handle), []) == Dropped(s1, s.mappings[i].handle);
  }

  lemma UnmapKeeps(s: State, pid: nat, ptr: nat)
    requires Inv(s)
    ensures Inv(Unmapped(s, pid, ptr).0)
  {
    hide Counted, Known, Handles, DroppedAll, SwapRemove;
    if Position(s.mappings, pid, ptr).Some? {
      var i := Position(s.mappings, pid, ptr).value;
      UnmapIsDropAll(s, pid, ptr);
      UnmapDetaches(s, i);
      DropAllKeeps(s.(mappings := SwapRemove(s.mappings, i)), [s.mappings[i]]);
    }
  }

  lemma {:induction false} OthersFrom(ms: seq<Mapping>, pid: nat)
    requires forall i, j :: 0 <= i < |ms| && 0 <= j < |ms| && i != j ==> Apart(ms[i], ms[j])
    ensures forall k :: 0 <= k < |Others(ms, pid)| ==> Others(ms, pid)[k] in ms && Others(ms, pid)[k].pid != pid
    ensures forall i, j :: 0 <= i < |Others(ms, pid)| && 0 <= j < |Others(ms, pid)| && i != j ==>
              Apart(Others(ms, pid)[i], Others(ms, pid)[j])
  {
    if ms != [] {
      var init, last := ms[..|ms| - 1], ms[|ms| - 1];
      OthersFrom(init, pid);
      var r0 := Others(init, pid);
      forall i | 0 <= i < |r0| ensures r0[i] in ms && Apart(r0[i], last) && Apart(last, r0[i]) {
        assert r0[i] in init;
        var k :| 0 <= k < |init| && init[k] == r0[i];
        assert ms[k] == r0[i];
      }
      assert r0 + [] == r0;
    }
  }

  lemma {:induction false} OwnedFrom(ms: seq<Mapping>, pid: nat)
    ensures forall k :: 0 <= k < |Owned(ms, pid)| ==> Owned(ms, pid)[k] in ms && Owned(ms, pid)[k].pid == pid
  {
    if ms != [] {
      OwnedFrom(ms[..|ms| - 1], pid);
    }
  }

  /** The mappings of other processes stay where they were when a process's bump is forgotten. */
  lemma CleanPlaced(s: State, s': State, pid: nat)
    requires Placed(s) && s'.mappings == Others(s.mappings, pid) && s'.vaNext == s.vaNext - {pid}
    ensures Placed(s')
  {
    OthersFrom(s.mappings, pid);
    hide Others, Apart;
    forall k | 0 <= k < |s'.mappings| ensures Below(s', s'.mappings[k]) {
      assert s'.mappings[k] in s.mappings;
    }
  }

  lemma CleanDetaches(s: State, pid: nat)
    requires Inv(s)
    ensures var s1 := s.(mappings := Others(s.mappings, pid));
            var owned := Owned(s.mappings, pid);
            Counted(s1, owned) && Known(s1, s1.mappings) && Known(s1, owned) && Handles(s1)
  {
    var owned := Owned(s.mappings, pid);
    var s1 := s.(mappings := Others(s.mappings, pid));
    forall h ensures Count(s1.mappings, h) + Count(owned, h) == Count(s.mappings, h) && Count([], h) == 0 {
      CountPartition(s.mappings, pid, h);
    }
    OthersFrom(s.mappings, pid);
    OwnedFrom(s.mappings, pid);
    hide Count, Others, Owned;
    forall m | m in s.mappings ensures m.handle in s.table && m.pages == |s.table[m.handle].frames| {}
  }

  lemma CleanKeeps(s: State, pid: nat)
    requires Inv(s)
    ensures Inv(Cleaned(s, pid))
  {
    hide Counted, Known, Handles, Placed, DroppedAll, Others, Owned;
    var s1 := s.(mappings := Others(s.mappings, pid));
    CleanDetaches(s, pid);
    DropAllKeeps(s1, Owned(s.mappings, pid));
    var s2 := DroppedAll(s1, Owned(s.mappings, pid));
    SameTable(s2, Cleaned(s, pid));
    CleanPlaced(s, Cleaned(s, pid), pid);
  }

  lemma SameTable(s: State, s': State)
    requires Counted(s, []) && Known(s, s.mappings) && Handles(s) && s' == s.(vaNext := s'.vaNext)
    ensures Counted(s', []) && Known(s', s'.mappings) && Handles(s')
  {
  }

  lemma StepKeeps(s: State, step: Step)
    requires Inv(s)
    ensures Inv(Apply(s, step))
  {
    match step
    case Create(size, creator, frames) =>
      hide Count;
      forall k | 0 <= k < |s.mappings| ensures s.mappings[k].handle != s.nextHandle {}
      NoMappings(s.mappings, s.nextHandle);
      assert Count([], s.nextHandle) == 0 by { NoMappings([], s.nextHandle); }
    case Map(pid, handle, mapped) => MapKeeps(s, pid, handle, mapped);
    case Unmap(pid, ptr) => UnmapKeeps(s, pid, ptr);
    case Cleanup(pid) => CleanKeeps(s, pid);
  }

  lemma {:induction false} NoMappings(ms: seq<Mapping>, h: nat)
    requires forall k :: 0 <= k < |ms| ==> ms[k].handle != h
    ensures Count(ms, h) == 0
  {
    if ms != [] {
      NoMappings(ms[..|ms| - 1], h);
    }
  }

  function After(steps: seq<Step>): State {
    if steps == [] then INITIAL else Apply(After(steps[..|steps| - 1]), steps[|steps| - 1])
  }

  /**
   In every reachable state the reference count of a region is its number of live mappings,
   mappings of one process do not overlap, and no released handle is in the table again.
   */
  lemma {:induction false} RunKeeps(steps: seq<Step>)
    ensures Inv(After(steps))
  {
    if steps != [] {
      RunKeeps(steps[..|steps| - 1]);
      StepKeeps(After(steps[..|steps| - 1]), steps[|steps| - 1]);
    }
  }

  // ---------------------------------------------------------------------------
  // Release
  // ---------------------------------------------------------------------------

  lemma {:induction false} ReleasesStay(s: State, owned: seq<Mapping>, h: nat)
    requires h !in s.table
    ensures h !in DroppedAll(s, owned).table && s.released <= DroppedAll(s, owned).released
    decreases |owned|
  {
    if owned != [] {
      ReleasesStay(Dropped(s, owned[0].handle), owned[1..], h);
    }
  }

  /** A region in use survives the drops with its frames, or is released with them. */
  lemma {:induction false} DropAllReleases(s: State, owned: seq<Mapping>, h: nat)
    requires Counted(s, owned) && Known(s, s.mappings) && Known(s, owned) && Handles(s) && h in s.table
    ensures var s' := DroppedAll(s, owned);
            && (h in s'.table ==> s'.table[h].frames == s.table[h].frames && (s.table[h].refs > 0 ==> s'.table[h].refs > 0))
            && (h !in s'.table ==> s.table[h].refs > 0 && Release(h, s.table[h].frames) in s'.released)
    decreases |owned|
  {
    if owned != [] {
      var s1 := Dropped(s, owned[0].handle);
      DropKeeps(s, owned);
      CountPositive(owned, 0);
      hide Count;
      if h in s1.table {
        DropAllReleases(s1, owned[1..], h);
      } else {
        ReleasesStay(s1, owned[1..], h);
        assert s1.released[|s.released|] == Release(h, s.table[h].frames);
      }
    }
  }

  /** One step either keeps a region, and keeps it in use, or releases it. */
  ghost predicate KeptOrReleased(s: State, s': State, h: nat)
    requires h in s.table
  {
    var r := s.table[h];
    && (h in s'.table ==> s'.table[h].frames == r.frames && (r.refs > 0 ==> s'.table[h].refs > 0))
    && (h !in s'.table ==> r.refs > 0 && Release(h, r.frames) in s'.released)
  }

  lemma UnmapReleases(s: State, pid: nat, ptr: nat, h: nat)
    requires Inv(s) && h in s.table
    ensures KeptOrReleased(s, Unmapped(s, pid, ptr).0, h)
  {
    hide Inv, DroppedAll, Counted, Known, Handles;
    if Position(s.mappings, pid, ptr).Some? {
      UnmapIsDropAll(s, pid, ptr);
      var i := Position(s.mappings, pid, ptr).value;
      UnmapDetaches(s, i);
      DropAllReleases(s.(mappings := SwapRemove(s.mappings, i)), [s.mappings[i]], h);
    }
  }

  lemma CleanReleases(s: State, pid: nat, h: nat)
    requires Inv(s) && h in s.table
    ensures KeptOrReleased(s, Cleaned(s, pid), h)
  {
    hide Inv, DroppedAll, Counted, Known, Handles, Others, Owned;
    CleanDetaches(s, pid);
    DropAllReleases(s.(mappings := Others(s.mappings, pid)), Owned(s.mappings, pid), h);
  }

  /**
   A region leaves the table exactly with its last mapping, and its own frames are released at
   that step; until then it keeps its frames.
   */
  lemma ReleasedWithLastMapping(s: State, step: Step, h: nat)
    requires Inv(s) && h in s.table
    ensures var s' := Apply(s, step);
            && (h in s'.table ==> s'.table[h].frames == s.table[h].frames)
            && (h !in s'.table <==> Count(s.mappings, h) > 0 && Count(s'.mappings, h) == 0)
            && (h !in s'.table ==> Release(h, s.table[h].frames) in s'.released)
  {
    hide Unmapped, Cleaned, Count;
    StepKeeps(s, step);
    match step {
      case Unmap(pid, ptr) => UnmapReleases(s, pid, ptr, h);
      case Cleanup(pid) => CleanReleases(s, pid, h);
      case Map(pid, handle, mapped) =>
      case Create(_, _, _) => assert h < s.nextHandle;
    }
    assert KeptOrReleased(s, Apply(s, step), h);
    CountsOf(s, h);
    CountsOf(Apply(s, step), h);
  }

  lemma CountsOf(s: State, h: nat)
    requires Inv(s)
    ensures h in s.table ==> s.table[h].refs == Count(s.mappings, h)
    ensures h !in s.table ==> Count(s.mappings, h) == 0
  {
    assert Count([], h) == 0;
    if h !in s.table {
      NoMappings(s.mappings, h);
    }
  }

  /** Handles come from a counter and are never given out twice. */
  lemma HandlesNeverReused(s: State, size: nat, creator: nat, frames: Option<seq<nat>>)
    requires Inv(s)
    ensures var (s', h) := Created(s, size, creator, frames);
            h.Some? ==> h.value !in s.table && h.value < s'.nextHandle && s.nextHandle <= h.value
                        && forall k :: 0 <= k < |s.released| ==> s.released[k].handle != h.value
  {
  }

  // ---------------------------------------------------------------------------
  // The imperative form
  // ---------------------------------------------------------------------------

  function Taken(frames: seq<nat>): set<nat> { set f | f in frames }

  const FIRST_PAGE: nat := SHM_VA_BASE / PAGE_SIZE

  /** `map_to` refuses a page that is mapped already, and pages for which it finds no table frame. */
  predicate FreePage(pages: map<nat, nat>, refused: set<nat>, p: nat) { p !in pages && p !in refused }

  ghost predicate AllFree(pages: map<nat, nat>, refused: set<nat>, first: nat, n: nat) {
    forall p :: first <= p < first + n ==> FreePage(pages, refused, p)
  }

  /** The pages from `first` on map the frames, and all others are as they were. */
  ghost predicate PagesAdded(pages: map<nat, nat>, first: nat, frames: seq<nat>, now: map<nat, nat>) {
    && (forall p :: p in now <==> p in pages || first <= p < first + |frames|)
    && (forall p :: p in now ==>
          now[p] == if first <= p < first + |frames| then frames[p - first] else pages[p])
  }

  /** The mapping loop of `sys_shm_map`: all pages or, after the rollback, none. */
  method MapPages(pages: map<nat, nat>, first: nat, frames: seq<nat>, refused: set<nat>)
    returns (ok: bool, now: map<nat, nat>)
    ensures ok <==> AllFree(pages, refused, first, |frames|)
    ensures ok ==> PagesAdded(pages, first, frames, now)
    ensures !ok ==> now == pages
  {
    now := pages;
    for i := 0 to |frames|
      invariant AllFree(pages, refused, first, i) && PagesAdded(pages, first, frames[..i], now)
    {
      if first + i in now || first + i in refused {
        assert !FreePage(pages, refused, first + i);
        ghost var full := now;
        now := UnmapPages(now, first, i);
        RolledBack(pages, refused, first, frames[..i], full, now);
        return false, now;
      }
      now := now[first + i := frames[i]];
    }
    assert frames[..|frames|] == frames;
    ok := true;
  }

  lemma RolledBack(pages: map<nat, nat>, refused: set<nat>, first: nat, frames: seq<nat>, full: map<nat, nat>, now: map<nat, nat>)
    requires AllFree(pages, refused, first, |frames|) && PagesAdded(pages, first, frames, full)
    requires PagesRemoved(full, first, |frames|, now)
    ensures now == pages
  {
    forall p: nat ensures p in now <==> p in pages {
      if first <= p < first + |frames| {
        assert FreePage(pages, refused, p);
      }
    }
  }

  /** The pages from `first` on are gone, and all others are as they were. */
  ghost predicate PagesRemoved(pages: map<nat, nat>, first: nat, n: nat, now: map<nat, nat>) {
    && (forall p :: p in now <==> p in pages && !(first <= p < first + n))
    && (forall p :: p in now ==> now[p] == pages[p])
  }

  /** The loop of `sys_shm_unmap`, and the rollback of `sys_shm_map`. */
  method UnmapPages(pages: map<nat, nat>, first: nat, n: nat) returns (now: map<nat, nat>)
    ensures PagesRemoved(pages, first, n, now)
  {
    now := pages;
    for j := 0 to n
      invariant PagesRemoved(pages, first, j, now)
    {
      now := now - {first + j};
    }
  }

  /** The allocation loop of `sys_shm_create`, with its rollback. */
  method TakeFrames(pool: set<nat>, pages: nat) returns (frames: Option<seq<nat>>, left: set<nat>)
    ensures frames == None <==> |pool| < pages
    ensures frames == None ==> left == pool
    ensures frames.Some? ==> |frames.value| == |Taken(frames.value)| == pages
                             && left !! Taken(frames.value) && left + Taken(frames.value) == pool
  {
    var taken: seq<nat> := [];
    left := pool;
    while |taken| < pages
      invariant |taken| <= pages && left !! Taken(taken) && left + Taken(taken) == pool
      invariant |Taken(taken)| == |taken| && |left| + |taken| == |pool|
    {
      if left == {} {
        left := GiveBack(left, taken);
        return None, left;
      }
      var f: nat :| f in left;
      assert Taken(taken + [f]) == Taken(taken) + {f};
      left, taken := left - {f}, taken + [f];
    }
    frames := Some(taken);
  }

  method GiveBack(pool: set<nat>, frames: seq<nat>) returns (left: set<nat>)
    ensures left == pool + Taken(frames)
  {
    left := pool;
    for i := 0 to |frames|
      invariant left == pool + Taken(frames[..i])
    {
      assert Taken(frames[..i + 1]) == Taken(frames[..i]) + {frames[i]};
      left := left + {frames[i]};
    }
    assert frames[..|frames|] == frames;
  }

  class ShmTables {
    var table: map<nat, Region>
    var mappings: seq<Mapping>
    var vaNext: map<nat, nat>
    var nextHandle: nat
    ghost var released: seq<Release>

    ghost function View(): State
      reads this
    {
      State(table, mappings, vaNext, nextHandle, released)
    }

    constructor ()
      ensures View() == INITIAL
    {
      table, mappings, vaNext, nextHandle := map[], [], map[], 1;
      released := [];
    }

    /**
     `sys_shm_create` with a pool of free frames: either exactly the pages of the region leave the
     pool, or a failure puts back every frame it took.
     */
    method CreateRegion(pool: set<nat>, size: nat, creator: nat)
      returns (handle: Option<nat>, left: set<nat>, ghost got: Option<seq<nat>>)
      modifies this
      ensures (View(), handle) == Created(old(View()), size, creator, got)
      ensures handle == None ==> left == pool && (size == 0 || size > SHM_MAX_SIZE || |pool| < Pages(size))
      ensures handle.Some? ==> got.Some? && |got.value| == Pages(size)
                               && left !! Taken(got.value) && left + Taken(got.value) == pool
                               && |Taken(got.value)| == |got.value|
    {
      got, left := None, pool;
      if size == 0 || size > SHM_MAX_SIZE {
        return None, left, got;
      }
      var frames;
      frames, left := TakeFrames(pool, Pages(size));
      got := frames;
      if frames == None {
        return None, left, got;
      }
      handle := Some(nextHandle);
      table := table[nextHandle := Region(frames.value, size, creator, 0)];
      nextHandle := nextHandle + 1;
    }

    /**
     `sys_shm_map` with the page table of the caller, or none when there is no current process: the
     reference is taken first and given back on failure, and so are the pages.
     */
    method MapRegion(pid: nat, handle: nat, pages: Option<map<nat, nat>>, refused: set<nat>)
      returns (va: Option<nat>, now: Option<map<nat, nat>>)
      modifies this
      ensures handle !in old(table) ==> View() == old(View()) && va == None && now == pages
      ensures handle in old(table) ==>
                var frames := old(table[handle].frames);
                var first := FIRST_PAGE + Bump(old(View()), pid);
                var mapped := pages.Some? && AllFree(pages.value, refused, first, |frames|);
                && (View(), va) == Mapped(old(View()), pid, handle, mapped)
                && (mapped ==> now.Some? && PagesAdded(pages.value, first, frames, now.value))
                && (!mapped ==> now == pages)
    {
      now := pages;
      if handle !in table { return None, now; }
      var frames := table[handle].frames;
      ghost var before := table;
      table := table[handle := table[handle].(refs := table[handle].refs + 1)];
      var next := if pid in vaNext then vaNext[pid] else 0;
      var base := SHM_VA_BASE + next * PAGE_SIZE;
      vaNext := vaNext[pid := next + |frames|];
      var mapped := false;
      if pages.Some? {
        var pt;
        mapped, pt := MapPages(pages.value, FIRST_PAGE + next, frames, refused);
        now := Some(pt);
      }
      if !mapped {
        table := table[handle := table[handle].(refs := table[handle].refs - 1)];
        assert table == before;
        return None, now;
      }
      mappings := mappings + [Mapping(pid, handle, base, |frames|)];
      va := Some(base);
    }

    /** Drops one reference and the region with the last one. */
    method Drop(handle: nat)
      modifies this`table, this`released
      ensures View() == Dropped(old(View()), handle)
    {
      if handle !in table { return; }
      var r := table[handle];
      if r.refs > 0 { r := r.(refs := r.refs - 1); }
      table := table[handle := r];
      if r.refs == 0 {
        released := released + [Release(handle, r.frames)];
        table := table - {handle};
        assert table == old(table) - {handle};
      }
    }

    /**
     `sys_shm_unmap` with the page table of the caller, or none when there is no current process:
     exactly the pages of the mapping go.
     */
    method UnmapRegion(pid: nat, ptr: nat, pages: Option<map<nat, nat>>)
      returns (ok: bool, now: Option<map<nat, nat>>)
      modifies this
      ensures (View(), ok) == Unmapped(old(View()), pid, ptr)
      ensures !ok || pages == None ==> now == pages
      ensures ok && pages.Some? ==>
                var m := old(mappings)[Position(old(mappings), pid, ptr).value];
                now.Some? && PagesRemoved(pages.value, m.base / PAGE_SIZE, m.pages, now.value)
    {
      hide PagesRemoved, Dropped;
      now := pages;
      var i := 0;
      while i < |mappings| && !(mappings[i].pid == pid && mappings[i].base == ptr)
        invariant i <= |mappings|
        invariant Position(mappings, pid, ptr) ==
                  var r := Position(mappings[i..], pid, ptr); if r.None? then None else Some(r.value + i)
      {
        assert mappings[i..][1..] == mappings[i + 1..];
        i := i + 1;
      }
      if i == |mappings| { return false, now; }
      var m := mappings[i];
      mappings := mappings[i := mappings[|mappings| - 1]];
      mappings := mappings[..|mappings| - 1];
      if pages.Some? {
        var pt := UnmapPages(pages.value, m.base / PAGE_SIZE, m.pages);
        now := Some(pt);
      }
      Drop(m.handle);
      ok := true;
    }

    /** `cleanup_pid` */
    method CleanupPid(pid: nat)
      modifies this
      ensures View() == Cleaned(old(View()), pid)
    {
      var all := mappings;
      var keep, taken := [], [];
      for i := 0 to |all|
        invariant keep == Others(all[..i], pid) && taken == Owned(all[..i], pid)
      {
        assert all[..i + 1][..i] == all[..i];
        if all[i].pid == pid { taken := taken + [all[i]]; } else { keep := keep + [all[i]]; }
      }
      assert all[..|all|] == all;
      mappings := keep;
      ghost var start := View();
      for i := 0 to |taken|
        invariant DroppedAll(View(), taken[i..]) == DroppedAll(start, taken)
        invariant vaNext == old(vaNext)
      {
        assert taken[i..][1..] == taken[i + 1..];
        Drop(taken[i].handle);
      }
      assert taken[|taken|..] == [];
      vaNext := vaNext - {pid};
    }
  }
}
