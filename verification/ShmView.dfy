/**
 What shared memory is for: the processes that have mapped a region see the same bytes in it, at the
 addresses that kernel/src/ipc/mod.rs answered, until they unmap it.
 */
module ShmView {
  import opened Options
  import opened Shm
  import opened ShmPool
  import opened ShmSharing
  import A = AddressSpaces

  /** No step of the run unmaps this address of the process. */
  predicate KeepsMapped(events: seq<Event>, pid: nat, base: nat) {
    forall i :: 0 <= i < |events| ==> !(events[i].Ipc? && events[i].call == Unmap(pid, base))
  }

  // ---------------------------------------------------------------------------
  // A mapping stays until it is unmapped
  // ---------------------------------------------------------------------------

  lemma SwapKeeps(ms: seq<Mapping>, i: nat, mp: Mapping)
    requires i < |ms| && mp in ms && ms[i] != mp
    ensures mp in SwapRemove(ms, i)
  {
    hide SwapRemove;
    var j :| 0 <= j < |ms| && ms[j] == mp;
    SwapLength(ms, i);
    if j == |ms| - 1 {
      SwapRemoveFrom(ms, i, i);
      assert SwapRemove(ms, i)[i] == mp;
    } else {
      SwapRemoveFrom(ms, i, j);
      assert SwapRemove(ms, i)[j] == mp;
    }
  }

  lemma UnmapKeeps(s: State, pid: nat, ptr: nat, mp: Mapping)
    requires mp in s.mappings && !(mp.pid == pid && mp.base == ptr)
    ensures mp in Apply(s, Unmap(pid, ptr)).mappings
  {
    hide SwapRemove, Dropped;
    var at := Position(s.mappings, pid, ptr);
    if at.Some? {
      DropMappings(s.(mappings := SwapRemove(s.mappings, at.value)), s.mappings[at.value].handle);
      SwapKeeps(s.mappings, at.value, mp);
    }
  }

  lemma MappingStays(k: Machine, e: Event, mp: Mapping)
    requires Safe(k) && Possible(k, e) && Careful(k, e) && mp in k.s.mappings
    requires !(e.Ipc? && e.call == Unmap(mp.pid, mp.base))
    ensures M.Shape(k.m) && mp in Moved(k, e).s.mappings
  {
    hide Safe, Possible, SwapRemove, Remapped, Back, Dropped;
    SafeShape(k);
    if e.Ipc? {
      match e.call {
        case Unmap(pid, ptr) => UnmapKeeps(k.s, pid, ptr, mp);
        case Cleanup(pid) => NoneOwned(k.s.mappings, pid);
        case Create(_, _, _) =>
        case Map(_, _, _) =>
      }
    }
  }

  lemma {:induction false} MappingInRun(k: Machine, events: seq<Event>, mp: Mapping)
    requires Safe(k) && AllPossible(k, events) && AllCareful(k, events) && mp in k.s.mappings
    requires KeepsMapped(events, mp.pid, mp.base)
    ensures Safe(ShmPool.After(k, events)) && mp in ShmPool.After(k, events).s.mappings
    decreases |events|
  {
    hide M.Inv, M.Shape, Even, Tied, Possible, Careful, Moved, StripAll, FramesIn, Inv;
    if events != [] {
      MappingStays(k, events[0], mp);
      StepSafe(k, events[0]);
      MappingInRun(Moved(k, events[0]), events[1..], mp);
    }
  }

  /** The mapping of a call that succeeds, at the address it answers. */
  lemma MapAnswers(k: Machine, pid: nat, h: nat, writable: bool)
    requires Safe(k) && h in k.s.table && Possible(k, Ipc(Map(pid, h, true), writable))
    ensures M.Shape(k.m) && Safe(Moved(k, Ipc(Map(pid, h, true), writable)))
    ensures Mapped(k.s, pid, h, true).1.Some?
    ensures Mapping(pid, h, Mapped(k.s, pid, h, true).1.value, |k.s.table[h].frames|) in
            Moved(k, Ipc(Map(pid, h, true), writable)).s.mappings
    ensures var base, m := Mapped(k.s, pid, h, true).1.value, Moved(k, Ipc(Map(pid, h, true), writable)).m;
            && pid in m.spaces
            && forall p: nat :: base / PAGE_SIZE <= p < base / PAGE_SIZE + |k.s.table[h].frames| ==>
                 A.RightsAt(m, pid, p) == Some(A.Rights(true, writable))
  {
    hide Safe, Back;
    SafeShape(k);
    StepSafe(k, Ipc(Map(pid, h, true), writable));
    var mp := Mapping(pid, h, Mapped(k.s, pid, h, true).1.value, |k.s.table[h].frames|);
    NewPage(k.s, mp);
  }

  // ---------------------------------------------------------------------------
  // Two mappings of a region show the same bytes
  // ---------------------------------------------------------------------------

  lemma PageAt(mp: Mapping, o: nat)
    requires mp.base == PageOf(mp) * PAGE_SIZE && o < mp.pages * PAGE_SIZE
    ensures InWindow(mp, (mp.base + o) / PAGE_SIZE)
    ensures (mp.base + o) / PAGE_SIZE == PageOf(mp) + o / PAGE_SIZE && (mp.base + o) % PAGE_SIZE == o % PAGE_SIZE
  {
  }

  /** The page of an offset is recorded on its frame. */
  lemma PageRecorded(k: Machine, mp: Mapping, o: nat)
    requires Safe(k) && mp in k.s.mappings && o < mp.pages * PAGE_SIZE
    ensures M.Shape(k.m) && mp.pid in k.m.spaces && mp.handle in k.s.table && o / PAGE_SIZE < |k.s.table[mp.handle].frames|
    ensures var page, mapped := (mp.base + o) / PAGE_SIZE, k.m.spaces[mp.pid].mapped;
            page in mapped && mapped[page] == k.s.table[mp.handle].frames[o / PAGE_SIZE]
  {
    hide M.Inv, M.Shape, Even, Private, Formed;
    SafeShape(k);
    var i :| 0 <= i < |k.s.mappings| && k.s.mappings[i] == mp;
    assert TiedAt(k, k.s.mappings[i]);
    PageAt(mp, o);
    assert Recorded(k, mp, (mp.base + o) / PAGE_SIZE);
  }

  /** The byte at an offset of a mapping is that byte of the frame of the region. */
  lemma RegionSeen(k: Machine, mp: Mapping, o: nat)
    requires Safe(k) && mp in k.s.mappings && o < mp.pages * PAGE_SIZE
    ensures M.Shape(k.m) && mp.pid in k.m.spaces && mp.handle in k.s.table
    ensures o / PAGE_SIZE < |k.s.table[mp.handle].frames| && k.s.table[mp.handle].frames[o / PAGE_SIZE] in k.m.frames
    ensures A.Seen(k.m, mp.pid, mp.base + o) == Some(k.m.frames[k.s.table[mp.handle].frames[o / PAGE_SIZE]][o % PAGE_SIZE])
  {
    hide Safe, M.Shape;
    PageRecorded(k, mp, o);
    BaseOf(k, mp);
    PageAt(mp, o);
    M.SpaceAt(k.m, mp.pid);
  }

  lemma BaseOf(k: Machine, mp: Mapping)
    requires Safe(k) && mp in k.s.mappings
    ensures mp.base == PageOf(mp) * PAGE_SIZE
  {
    hide M.Inv, M.Shape, Even, Private, Formed;
    var i :| 0 <= i < |k.s.mappings| && k.s.mappings[i] == mp;
    assert TiedAt(k, k.s.mappings[i]);
  }

  lemma SameBytes(k: Machine, a: Mapping, b: Mapping, o: nat)
    requires Safe(k) && a in k.s.mappings && b in k.s.mappings && a.handle == b.handle
    requires o < a.pages * PAGE_SIZE && o < b.pages * PAGE_SIZE
    ensures M.Shape(k.m) && a.pid in k.m.spaces && b.pid in k.m.spaces
    ensures A.Seen(k.m, a.pid, a.base + o) == A.Seen(k.m, b.pid, b.base + o) != None
  {
    hide Safe, A.Seen;
    RegionSeen(k, a, o);
    RegionSeen(k, b, o);
  }

  /** The store changes that byte of that frame. */
  lemma StoredAt(k: Machine, pid: nat, page: nat, off: nat, value: nat, got: Option<nat>)
    requires M.Shape(k.m) && pid in k.m.spaces && M.Stores(k.m, pid, page)
    requires Possible(k, Mem(C.Write(pid, page, off, value, got)))
    ensures var k', f := Moved(k, Mem(C.Write(pid, page, off, value, got))), k.m.spaces[pid].mapped[page];
            f in k'.m.frames && off < |k'.m.frames[f]| && k'.m.frames[f][off] == value && k'.s == k.s
  {
    M.SpaceAt(k.m, pid);
  }

  /** A store through one mapping is seen through every other one. */
  lemma StoreShared(k: Machine, a: Mapping, b: Mapping, o: nat, value: nat, got: Option<nat>)
    requires Safe(k) && a in k.s.mappings && b in k.s.mappings && a.handle == b.handle
    requires o < a.pages * PAGE_SIZE && o < b.pages * PAGE_SIZE
    requires a.pid in k.m.spaces && M.Stores(k.m, a.pid, (a.base + o) / PAGE_SIZE)
    requires Possible(k, Mem(C.Write(a.pid, (a.base + o) / PAGE_SIZE, o % PAGE_SIZE, value, got)))
    ensures M.Shape(k.m)
    ensures var k' := Moved(k, Mem(C.Write(a.pid, (a.base + o) / PAGE_SIZE, o % PAGE_SIZE, value, got)));
            M.Shape(k'.m) && b.pid in k'.m.spaces && A.Seen(k'.m, b.pid, b.base + o) == Some(value)
  {
    hide Safe, A.Seen, Possible, Moved, M.Stores, M.Shape;
    var e := Mem(C.Write(a.pid, (a.base + o) / PAGE_SIZE, o % PAGE_SIZE, value, got));
    PageRecorded(k, a, o);
    StepSafe(k, e) by { AnyStore(k, e); }
    StoredAt(k, a.pid, (a.base + o) / PAGE_SIZE, o % PAGE_SIZE, value, got);
    RegionSeen(Moved(k, e), b, o);
  }

  lemma AnyStore(k: Machine, e: Event)
    requires e.Mem? && e.step.Write?
    ensures Careful(k, e)
  {
  }

  /**
   Two processes have mapped a region. After any careful run in which neither unmaps it, both see
   the same byte at every offset.
   */
  lemma MappersShare(k: Machine, events: seq<Event>, a: Mapping, b: Mapping, o: nat)
    requires Safe(k) && AllPossible(k, events) && AllCareful(k, events)
    requires a in k.s.mappings && b in k.s.mappings && a.handle == b.handle && o < a.pages * PAGE_SIZE
    requires KeepsMapped(events, a.pid, a.base) && KeepsMapped(events, b.pid, b.base)
    ensures var m := ShmPool.After(k, events).m;
            && M.Shape(m) && a.pid in m.spaces && b.pid in m.spaces
            && A.Seen(m, a.pid, a.base + o) == A.Seen(m, b.pid, b.base + o) != None
  {
    hide Formed, Even, Tied, M.Inv, Private, A.Seen, AllCareful, AllPossible, ShmPool.After, KeepsMapped;
    MappingInRun(k, events, a);
    MappingInRun(k, events, b);
    SamePages(k, a, b);
    SameBytes(ShmPool.After(k, events), a, b, o);
  }

  lemma SamePages(k: Machine, a: Mapping, b: Mapping)
    requires Safe(k) && a in k.s.mappings && b in k.s.mappings && a.handle == b.handle
    ensures a.pages == b.pages
  {
    hide M.Inv, M.Shape, Even, Private, Formed, Recorded, InWindow;
    var i :| 0 <= i < |k.s.mappings| && k.s.mappings[i] == a;
    var j :| 0 <= j < |k.s.mappings| && k.s.mappings[j] == b;
    assert TiedAt(k, k.s.mappings[i]) && TiedAt(k, k.s.mappings[j]);
  }
}
