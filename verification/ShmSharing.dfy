/**
 Runs in which every process unmaps its shared regions before it forks or exits.  Take the shared
 pages out of the address spaces, and what is left is copy-on-write memory that keeps its own
 invariant; so no teardown touches a region, and no free frame is mapped anywhere.
 */
module ShmSharing {
  import opened Options
  import opened Shm
  import opened ShmPool

  // ---------------------------------------------------------------------------
  // Shared and private pages
  // ---------------------------------------------------------------------------

  predicate InWindow(mp: Mapping, p: nat) { PageOf(mp) <= p < PageOf(mp) + mp.pages }

  /** A page of a process that one of its live mappings covers. */
  ghost predicate IsShared(ms: seq<Mapping>, pid: nat, p: nat) {
    exists i :: 0 <= i < |ms| && ms[i].pid == pid && InWindow(ms[i], p)
  }

  ghost predicate HoldsNone(ms: seq<Mapping>, pid: nat) {
    forall i :: 0 <= i < |ms| ==> ms[i].pid != pid
  }

  ghost function Strip(sp: M.Space, ms: seq<Mapping>, pid: nat): M.Space {
    M.Space(map p | p in sp.mapped && !IsShared(ms, pid, p) :: sp.mapped[p],
            map p | p in sp.table && !IsShared(ms, pid, p) :: sp.table[p])
  }

  ghost function StripAll(spaces: map<nat, M.Space>, ms: seq<Mapping>): map<nat, M.Space> {
    map pid | pid in spaces :: Strip(spaces[pid], ms, pid)
  }

  /** The memory without the shared pages. */
  ghost function Private(m: M.State, ms: seq<Mapping>): M.State {
    m.(spaces := StripAll(m.spaces, ms))
  }

  /** A mapping is where its process has the frames of the region, and none of its pages is copied on write. */
  ghost predicate TiedAt(k: Machine, mp: Mapping) {
    && mp.pid in k.m.spaces && mp.handle in k.s.table && mp.pages == |k.s.table[mp.handle].frames|
    && mp.base == PageOf(mp) * PAGE_SIZE
    && forall p: nat :: InWindow(mp, p) ==> Recorded(k, mp, p)
  }

  ghost predicate Recorded(k: Machine, mp: Mapping, p: nat)
    requires mp.pid in k.m.spaces && mp.handle in k.s.table && mp.pages == |k.s.table[mp.handle].frames|
    requires InWindow(mp, p)
  {
    var sp := k.m.spaces[mp.pid];
    && p in sp.mapped && sp.mapped[p] == k.s.table[mp.handle].frames[p - PageOf(mp)]
    && p in sp.table && !sp.table[p].cow
  }

  ghost predicate Tied(k: Machine) {
    forall i :: 0 <= i < |k.s.mappings| ==> TiedAt(k, k.s.mappings[i])
  }

  ghost predicate Safe(k: Machine) {
    Formed(k) && Even(k) && Tied(k) && M.Inv(Private(k.m, k.s.mappings))
  }

  /** What the discipline asks for. */
  ghost predicate Careful(k: Machine, e: Event) {
    match e
    case Mem(step) =>
      && (step.Fork? ==> step.pid in k.m.spaces && M.Roomy(k.m, step.pid))
      && (step.Fork? || step.Exit? ==> HoldsNone(k.s.mappings, step.pid))
    case Ipc(call, _) => call.Cleanup? ==> HoldsNone(k.s.mappings, call.pid)
  }

  // ---------------------------------------------------------------------------
  // What follows from it
  // ---------------------------------------------------------------------------

  lemma StripNone(sp: M.Space, ms: seq<Mapping>, pid: nat)
    requires HoldsNone(ms, pid)
    ensures Strip(sp, ms, pid) == sp
  {
    assert forall p :: !IsShared(ms, pid, p);
  }

  lemma SharedTied(k: Machine, pid: nat, p: nat)
    requires Tied(k) && IsShared(k.s.mappings, pid, p)
    ensures pid in k.m.spaces && p in k.m.spaces[pid].mapped && p in k.m.spaces[pid].table
    ensures !k.m.spaces[pid].table[p].cow && InRegion(k.s.table, k.m.spaces[pid].mapped[p])
  {
    var i :| 0 <= i < |k.s.mappings| && k.s.mappings[i].pid == pid && InWindow(k.s.mappings[i], p);
    var mp := k.s.mappings[i];
    assert TiedAt(k, mp) && Recorded(k, mp, p);
    assert k.m.spaces[pid].mapped[p] in Taken(k.s.table[mp.handle].frames);
  }

  lemma RegionHeld(k: Machine, f: nat)
    requires Even(k) && InRegion(k.s.table, f)
    ensures f in k.m.other && f !in k.m.free
  {
    hide Taken;
  }

  /** No process maps a free frame. */
  lemma NoneFree(k: Machine, pid: nat, p: nat)
    requires Safe(k) && pid in k.m.spaces && p in k.m.spaces[pid].mapped
    ensures k.m.spaces[pid].mapped[p] !in k.m.free
    ensures !IsShared(k.s.mappings, pid, p) ==> k.m.spaces[pid].mapped[p] !in k.m.other
  {
    hide M.Owners, Formed, Even, Tied, M.Exact, M.WritersAlone, M.OnePageEach, IsShared;
    var f := k.m.spaces[pid].mapped[p];
    if IsShared(k.s.mappings, pid, p) {
      SharedTied(k, pid, p);
      RegionHeld(k, f);
    } else {
      var v := Private(k.m, k.s.mappings);
      M.InOwners(v.spaces, f, pid, p);
      M.SpaceAt(v, pid);
      assert M.Placed(v, f);
    }
  }

  ghost predicate NoFreeMapped(m: M.State) {
    forall pid, p :: pid in m.spaces && p in m.spaces[pid].mapped ==> m.spaces[pid].mapped[p] !in m.free
  }

  lemma AllUnfree(k: Machine)
    requires Safe(k)
    ensures NoFreeMapped(k.m)
  {
    hide Safe;
    forall pid, p | pid in k.m.spaces && p in k.m.spaces[pid].mapped ensures k.m.spaces[pid].mapped[p] !in k.m.free {
      NoneFree(k, pid, p);
    }
  }

  /** A process that holds no region is torn down cleanly. */
  lemma CarefulClean(k: Machine, pid: nat)
    requires Safe(k) && pid in k.m.spaces && HoldsNone(k.s.mappings, pid)
    ensures Clean(k.m, pid)
  {
    hide Safe, M.PagesOf;
    forall p | p in k.m.spaces[pid].mapped ensures k.m.spaces[pid].mapped[p] !in k.m.other {
      assert !IsShared(k.s.mappings, pid, p);
      NoneFree(k, pid, p);
    }
    assert M.Shape(k.m) by { SafeShape(k); }
  }

  lemma SafeShape(k: Machine)
    requires Safe(k)
    ensures Formed(k) && Even(k) && M.Shape(k.m)
  {
  }

  // ---------------------------------------------------------------------------
  // Steps of the memory
  // ---------------------------------------------------------------------------

  /** The processes of all mappings are still there, with the same shared pages. */
  ghost predicate KeepsShared(k: Machine, m': M.State) {
    && (forall i :: 0 <= i < |k.s.mappings| ==> k.s.mappings[i].pid in m'.spaces)
    && (forall pid, p :: pid in k.m.spaces && p in k.m.spaces[pid].mapped && IsShared(k.s.mappings, pid, p) ==>
          && pid in m'.spaces && p in m'.spaces[pid].mapped && p in m'.spaces[pid].table
          && m'.spaces[pid].mapped[p] == k.m.spaces[pid].mapped[p] && !m'.spaces[pid].table[p].cow)
  }

  lemma StillTied(k: Machine, m': M.State)
    requires Tied(k) && KeepsShared(k, m')
    ensures Tied(Machine(m', k.s))
  {
    var k' := Machine(m', k.s);
    forall i | 0 <= i < |k.s.mappings| ensures TiedAt(k', k.s.mappings[i]) {
      var mp := k.s.mappings[i];
      assert TiedAt(k, mp);
      forall p: nat | InWindow(mp, p) ensures Recorded(k', mp, p) {
        assert Recorded(k, mp, p) && IsShared(k.s.mappings, mp.pid, p);
      }
    }
  }

  lemma StripWith(spaces: map<nat, M.Space>, ms: seq<Mapping>, pid: nat, sp: M.Space)
    ensures StripAll(spaces[pid := sp], ms) == StripAll(spaces, ms)[pid := Strip(sp, ms, pid)]
  {
    hide Strip;
  }

  lemma StripMinus(spaces: map<nat, M.Space>, ms: seq<Mapping>, pid: nat)
    ensures StripAll(spaces - {pid}, ms) == StripAll(spaces, ms) - {pid}
  {
    hide Strip;
  }

  lemma StripAt(spaces: map<nat, M.Space>, ms: seq<Mapping>, pid: nat)
    requires pid in spaces
    ensures StripAll(spaces, ms).Keys == spaces.Keys && StripAll(spaces, ms)[pid] == Strip(spaces[pid], ms, pid)
  {
  }

  /** A private page is set in the stripped space as in the whole one. */
  lemma StripSet(sp: M.Space, ms: seq<Mapping>, pid: nat, page: nat, e: M.Pte)
    requires !IsShared(ms, pid, page)
    ensures var t := Strip(sp, ms, pid);
            Strip(M.Space(sp.mapped[page := e.frame], sp.table[page := e]), ms, pid) ==
            M.Space(t.mapped[page := e.frame], t.table[page := e])
  {
    hide IsShared;
  }

  /** The spaces with one entry set. */
  function Entered(spaces: map<nat, M.Space>, pid: nat, page: nat, e: M.Pte): map<nat, M.Space>
    requires pid in spaces
  {
    spaces[pid := M.Space(spaces[pid].mapped[page := e.frame], spaces[pid].table[page := e])]
  }

  lemma StripEntered(spaces: map<nat, M.Space>, ms: seq<Mapping>, pid: nat, page: nat, e: M.Pte)
    requires pid in spaces && !IsShared(ms, pid, page)
    ensures pid in StripAll(spaces, ms)
    ensures StripAll(Entered(spaces, pid, page, e), ms) == Entered(StripAll(spaces, ms), pid, page, e)
  {
    hide Strip, StripAll;
    StripAt(spaces, ms, pid);
    StripSet(spaces[pid], ms, pid, page, e);
    StripWith(spaces, ms, pid, Entered(spaces, pid, page, e)[pid]);
  }

  /** A step that changes only the space of a process without mappings. */
  lemma KeepSame(k: Machine, m': M.State, pid: nat)
    requires Tied(k) && HoldsNone(k.s.mappings, pid)
    requires forall q :: q in k.m.spaces && q != pid ==> q in m'.spaces && m'.spaces[q] == k.m.spaces[q]
    ensures KeepsShared(k, m')
  {
    var ms := k.s.mappings;
    forall i | 0 <= i < |ms| ensures ms[i].pid in m'.spaces {
      assert TiedAt(k, ms[i]);
    }
    forall q, p | q in k.m.spaces && p in k.m.spaces[q].mapped && IsShared(ms, q, p)
      ensures && q in m'.spaces && p in m'.spaces[q].mapped && p in m'.spaces[q].table
              && m'.spaces[q].mapped[p] == k.m.spaces[q].mapped[p] && !m'.spaces[q].table[p].cow
    {
      SharedTied(k, q, p);
    }
  }

  /** A step that sets one private page. */
  lemma KeepEntered(k: Machine, m': M.State, pid: nat, page: nat, e: M.Pte)
    requires Tied(k) && pid in k.m.spaces && !IsShared(k.s.mappings, pid, page)
    requires m'.spaces == Entered(k.m.spaces, pid, page, e)
    ensures KeepsShared(k, m')
  {
    hide IsShared;
    var ms := k.s.mappings;
    forall i | 0 <= i < |ms| ensures ms[i].pid in m'.spaces {
      assert TiedAt(k, ms[i]);
    }
    forall q, p | q in k.m.spaces && p in k.m.spaces[q].mapped && IsShared(ms, q, p)
      ensures && q in m'.spaces && p in m'.spaces[q].mapped && p in m'.spaces[q].table
              && m'.spaces[q].mapped[p] == k.m.spaces[q].mapped[p] && !m'.spaces[q].table[p].cow
    {
      SharedTied(k, q, p);
    }
  }

  lemma KeepAll(k: Machine, m': M.State)
    requires Tied(k) && m'.spaces == k.m.spaces
    ensures KeepsShared(k, m')
  {
    var ms := k.s.mappings;
    forall i | 0 <= i < |ms| ensures ms[i].pid in m'.spaces {
      assert TiedAt(k, ms[i]);
    }
    forall q, p | q in k.m.spaces && p in k.m.spaces[q].mapped && IsShared(ms, q, p)
      ensures p in m'.spaces[q].table && !m'.spaces[q].table[p].cow
    {
      SharedTied(k, q, p);
    }
  }

  lemma CreateStep(k: Machine, pid: nat)
    requires Tied(k) && M.Shape(k.m) && pid !in k.m.spaces && M.Shape(Private(k.m, k.s.mappings))
    ensures pid !in Private(k.m, k.s.mappings).spaces
    ensures var n := C.Apply(k.m, C.Create(pid)).0;
            && KeepsShared(k, n)
            && Private(n, k.s.mappings) == C.Apply(Private(k.m, k.s.mappings), C.Create(pid)).0
  {
    hide Strip, KeepsShared, M.Shape, StripAll;
    var ms := k.s.mappings;
    assert HoldsNone(ms, pid) by {
      forall i | 0 <= i < |ms| ensures ms[i].pid != pid {
        assert TiedAt(k, ms[i]);
      }
    }
    KeepSame(k, C.Apply(k.m, C.Create(pid)).0, pid);
    StripKeys(k.m.spaces, ms);
    StripNone(M.Space(map[], map[]), ms, pid);
    StripWith(k.m.spaces, ms, pid, M.Space(map[], map[]));
  }

  lemma StripKeys(spaces: map<nat, M.Space>, ms: seq<Mapping>)
    ensures StripAll(spaces, ms).Keys == spaces.Keys
  {
  }

  lemma MapStep(k: Machine, pid: nat, page: nat, writable: bool, user: bool, got: Option<nat>)
    requires Tied(k) && M.Shape(k.m) && pid in k.m.spaces && M.Shape(Private(k.m, k.s.mappings))
    ensures pid in Private(k.m, k.s.mappings).spaces
    ensures var v := Private(k.m, k.s.mappings);
            var n := M.Mapped(k.m, pid, page, writable, user, got).0;
            && KeepsShared(k, n)
            && (Private(n, k.s.mappings) == v || Private(n, k.s.mappings) == M.Mapped(v, pid, page, writable, user, got).0)
  {
    hide StripAll, Strip, KeepsShared, IsShared, M.Shape, Tied;
    var ms := k.s.mappings;
    var n := M.Mapped(k.m, pid, page, writable, user, got).0;
    StripKeys(k.m.spaces, ms);
    if page in k.m.spaces[pid].mapped || got == None {
      KeepAll(k, n);
    } else {
      var e := M.Pte(got.value, writable, false, user);
      NotShared(k, pid, page);
      KeepEntered(k, n, pid, page, e);
      StripEntered(k.m.spaces, ms, pid, page, e);
      StripAt(k.m.spaces, ms, pid);
      NotStripped(k.m.spaces[pid], ms, pid, page);
    }
  }

  lemma NotShared(k: Machine, pid: nat, page: nat)
    requires Tied(k) && pid in k.m.spaces && page !in k.m.spaces[pid].mapped
    ensures !IsShared(k.s.mappings, pid, page)
  {
    if IsShared(k.s.mappings, pid, page) {
      SharedTied(k, pid, page);
    }
  }

  lemma NotStripped(sp: M.Space, ms: seq<Mapping>, pid: nat, page: nat)
    ensures page !in sp.mapped ==> page !in Strip(sp, ms, pid).mapped
    ensures !IsShared(ms, pid, page) ==>
              && (page in Strip(sp, ms, pid).table <==> page in sp.table)
              && (page in sp.table ==> Strip(sp, ms, pid).table[page] == sp.table[page])
  {
  }

  lemma ForkStep(k: Machine, pid: nat, child: nat)
    requires Tied(k) && M.Shape(k.m) && pid in k.m.spaces && child !in k.m.spaces && HoldsNone(k.s.mappings, pid)
    requires M.Shape(Private(k.m, k.s.mappings))
    ensures pid in Private(k.m, k.s.mappings).spaces && Private(k.m, k.s.mappings).spaces[pid] == k.m.spaces[pid]
    ensures var n := M.Forked(k.m, pid, child);
            && KeepsShared(k, n)
            && Private(n, k.s.mappings) == M.Forked(Private(k.m, k.s.mappings), pid, child)
  {
    hide StripAll, Strip, IsShared, M.ReadOnly, M.PagesOf, M.Shape, KeepsShared;
    var ms := k.s.mappings;
    var n := M.Forked(k.m, pid, child);
    forall i | 0 <= i < |ms| ensures ms[i].pid != child {
      assert TiedAt(k, ms[i]);
    }
    KeepSame(k, n, pid);
    var s := k.m.spaces[pid];
    var now := M.Space(s.mapped, M.ReadOnly(s.table));
    StripAt(k.m.spaces, ms, pid);
    StripNone(s, ms, pid);
    StripNone(now, ms, pid);
    StripNone(now, ms, child);
    StripWith(k.m.spaces, ms, pid, now);
    StripWith(k.m.spaces[pid := now], ms, child, now);
  }

  lemma ExitStep(k: Machine, pid: nat)
    requires Tied(k) && M.Shape(k.m) && pid in k.m.spaces && HoldsNone(k.s.mappings, pid)
    requires M.Shape(Private(k.m, k.s.mappings))
    ensures pid in Private(k.m, k.s.mappings).spaces
    ensures var n := M.Destroyed(k.m, pid);
            && KeepsShared(k, n)
            && Private(n, k.s.mappings) == M.Destroyed(Private(k.m, k.s.mappings), pid)
  {
    hide StripAll, Strip, IsShared, M.Destroyed, KeepsShared, Tied, M.Shape;
    var ms := k.s.mappings;
    M.DestroyShape(k.m, pid);
    KeepSame(k, M.Destroyed(k.m, pid), pid);
    StripAt(k.m.spaces, ms, pid);
    StripNone(k.m.spaces[pid], ms, pid);
    StripMinus(k.m.spaces, ms, pid);
    SameDestroyed(k.m, Private(k.m, ms), pid);
  }

  lemma SameDestroyed(m: M.State, v: M.State, pid: nat)
    requires M.Shape(m) && M.Shape(v) && pid in m.spaces && pid in v.spaces && v.spaces[pid] == m.spaces[pid]
    requires v == m.(spaces := v.spaces)
    ensures M.Destroyed(v, pid) == M.Destroyed(m, pid).(spaces := v.spaces - {pid})
  {
    hide M.PagesOf;
  }

  /** A store changes contents only. */
  lemma ContentsKeep(m: M.State, f: nat, c: M.Contents)
    requires M.Inv(m) && f in m.frames && |c| == M.PAGE_SIZE
    ensures M.Inv(m.(frames := m.frames[f := c]))
  {
    hide M.Injective, M.Owners;
    var n := m.(frames := m.frames[f := c]);
    forall g | g in n.frames ensures M.CountExact(n, g) && M.Placed(n, g) {
      assert M.Placed(m, g) && M.CountExact(m, g);
    }
    forall q, p ensures M.Alone(n, q, p) {
      assert M.Alone(m, q, p);
    }
    forall q | q in n.spaces ensures M.SpaceOk(n.frames, n.spaces[q]) {
      M.SpaceAt(m, q);
    }
  }

  lemma ResolveStep(k: Machine, pid: nat, page: nat, got: Option<nat>)
    requires Tied(k) && M.Shape(k.m) && pid in k.m.spaces && M.Shape(Private(k.m, k.s.mappings))
    ensures pid in Private(k.m, k.s.mappings).spaces
    ensures var v := Private(k.m, k.s.mappings);
            var (n, ok) := M.Resolved(k.m, pid, page, got);
            && KeepsShared(k, n) && (ok ==> !IsShared(k.s.mappings, pid, page))
            && (ok ==> (Private(n, k.s.mappings), ok) == M.Resolved(v, pid, page, got))
            && (!ok ==> n == k.m)
  {
    hide StripAll, Strip, KeepsShared, IsShared, M.Shape, Tied;
    var ms := k.s.mappings;
    var (n, ok) := M.Resolved(k.m, pid, page, got);
    var s := k.m.spaces[pid];
    StripKeys(k.m.spaces, ms);
    if ok {
      NotCow(k, pid, page);
      StripAt(k.m.spaces, ms, pid);
      NotStripped(s, ms, pid, page);
      var e := s.table[page];
      Frames(k.m, pid, page);
      var now := if k.m.counts[e.frame] <= 1 then e.(writable := true, cow := false)
                 else M.Pte(got.value, true, false, e.user);
      KeepEntered(k, n, pid, page, now);
      StripEntered(k.m.spaces, ms, pid, page, now);
    } else {
      KeepAll(k, n);
    }
  }

  lemma Frames(m: M.State, pid: nat, page: nat)
    requires M.Shape(m) && pid in m.spaces && page in m.spaces[pid].table
    ensures m.spaces[pid].table[page].frame in m.frames && m.spaces[pid].table[page].frame in m.counts
    ensures page in m.spaces[pid].mapped && m.spaces[pid].mapped[page] == m.spaces[pid].table[page].frame
    ensures |m.frames[m.spaces[pid].table[page].frame]| == M.PAGE_SIZE
  {
    M.SpaceAt(m, pid);
  }

  lemma NotCow(k: Machine, pid: nat, page: nat)
    requires Tied(k) && pid in k.m.spaces && page in k.m.spaces[pid].table && k.m.spaces[pid].table[page].cow
    ensures !IsShared(k.s.mappings, pid, page)
  {
    if IsShared(k.s.mappings, pid, page) {
      SharedTied(k, pid, page);
    }
  }

  lemma StoreStep(m: M.State, ms: seq<Mapping>, pid: nat, page: nat, off: nat, value: nat)
    requires M.Shape(m) && M.Inv(Private(m, ms)) && pid in m.spaces && M.Stores(m, pid, page) && off < M.PAGE_SIZE
    ensures m.spaces[pid].table[page].frame in m.frames && off < |m.frames[m.spaces[pid].table[page].frame]|
    ensures M.Store(m, pid, page, off, value).spaces == m.spaces
    ensures M.Inv(Private(M.Store(m, pid, page, off, value), ms))
  {
    hide M.Shape, M.Inv, StripAll;
    Frames(m, pid, page);
    var f := m.spaces[pid].table[page].frame;
    ContentsKeep(Private(m, ms), f, m.frames[f][off := value]);
  }

  lemma WriteStep(k: Machine, pid: nat, page: nat, off: nat, value: nat, got: Option<nat>)
    requires Safe(k) && pid in k.m.spaces && off < M.PAGE_SIZE && M.Given(k.m, got)
    ensures M.Shape(k.m)
    ensures var n := M.Written(k.m, pid, page, off, value, got).0;
            KeepsShared(k, n) && M.Inv(Private(n, k.s.mappings))
  {
    hide M.Shape, M.Inv, M.Resolved, M.Store, StripAll, KeepsShared, Even, Tied;
    SafeShape(k);
    PrivateShape(k);
    var ms := k.s.mappings;
    var n := M.Written(k.m, pid, page, off, value, got).0;
    if M.Stores(k.m, pid, page) {
      StoreStep(k.m, ms, pid, page, off, value);
      KeepAll(k, n);
    } else {
      ResolveStep(k, pid, page, got);
      ResolveShape(k.m, pid, page, got);
      M.ResolveKeeps(Private(k.m, ms), pid, page, got);
      var r := M.Resolved(k.m, pid, page, got);
      if r.1 {
        StoreStep(r.0, ms, pid, page, off, value);
        SameSpaces(k, r.0, n);
      } else {
        KeepAll(k, n);
      }
    }
  }

  lemma SameSpaces(k: Machine, m': M.State, n: M.State)
    requires KeepsShared(k, m') && n.spaces == m'.spaces
    ensures KeepsShared(k, n)
  {
  }

  lemma PrivateShape(k: Machine)
    requires Safe(k)
    ensures M.Shape(Private(k.m, k.s.mappings)) && Private(k.m, k.s.mappings).spaces.Keys == k.m.spaces.Keys
  {
  }

  /** A careful step of the memory keeps the shared pages, and the rest as copy-on-write memory. */
  lemma MemSafe(k: Machine, step: C.Step)
    requires Safe(k) && Possible(k, Mem(step)) && Careful(k, Mem(step))
    ensures M.Shape(k.m) && KeepsShared(k, C.Apply(k.m, step).0)
    ensures M.Inv(Private(C.Apply(k.m, step).0, k.s.mappings))
  {
    hide M.Shape, M.Inv, StripAll, KeepsShared, Even, Tied, Formed, M.Written, M.Mapped, M.Forked, M.Destroyed;
    SafeShape(k);
    PrivateShape(k);
    var v := Private(k.m, k.s.mappings);
    match step {
      case Create(pid) =>
        CreateStep(k, pid);
        C.StepKeeps(v, step);
      case Map(pid, page, writable, user, got) =>
        MapStep(k, pid, page, writable, user, got);
        C.StepKeeps(v, step);
      case Fork(pid, child) =>
        ForkStep(k, pid, child);
        C.StepKeeps(v, step);
      case Write(pid, page, off, value, got) => WriteStep(k, pid, page, off, value, got);
      case Exit(pid) =>
        ExitStep(k, pid);
        C.StepKeeps(v, step);
      case _ =>
        KeepAll(k, C.Apply(k.m, step).0);
        C.StepKeeps(v, step);
    }
  }

  // ---------------------------------------------------------------------------
  // Calls
  // ---------------------------------------------------------------------------

  lemma TakenKeeps(m: M.State, fs: set<nat>)
    requires M.Inv(m) && fs <= m.free
    ensures M.Inv(TakenOut(m, fs))
  {
    hide M.Injective, M.Owners, M.Shape;
    var n := TakenOut(m, fs);
    TakenShape(m, fs);
    forall g | g in n.frames ensures M.CountExact(n, g) && M.Placed(n, g) {
      assert M.Placed(m, g) && M.CountExact(m, g);
    }
    forall q, p ensures M.Alone(n, q, p) {
      assert M.Alone(m, q, p);
    }
  }

  lemma GivenKeeps(m: M.State, fs: set<nat>)
    requires M.Inv(m) && fs <= m.other
    ensures M.Inv(GivenBack(m, fs))
  {
    hide M.Injective, M.Owners, M.Shape;
    var n := GivenBack(m, fs);
    GivenShape(m, fs);
    forall g | g in n.frames ensures M.CountExact(n, g) && M.Placed(n, g) {
      assert M.Placed(m, g) && M.CountExact(m, g);
    }
    forall q, p ensures M.Alone(n, q, p) {
      assert M.Alone(m, q, p);
    }
  }

  lemma StripSame(sp: M.Space, ms: seq<Mapping>, now: seq<Mapping>, pid: nat)
    requires forall p: nat :: IsShared(ms, pid, p) <==> IsShared(now, pid, p)
    ensures Strip(sp, ms, pid) == Strip(sp, now, pid)
  {
    hide IsShared;
  }

  /** The new pages of a mapping are shared, and the old private ones stay private. */
  lemma StripMapped(sp: M.Space, ms: seq<Mapping>, mp: Mapping, fs: seq<nat>, writable: bool)
    requires sp.mapped.Keys == sp.table.Keys && mp.pages == |fs|
    requires forall p: nat :: InWindow(mp, p) ==> p !in sp.mapped
    ensures Strip(WithPages(sp, PageOf(mp), fs, writable), ms + [mp], mp.pid) == Strip(sp, ms, mp.pid)
  {
    forall p: nat ensures IsShared(ms + [mp], mp.pid, p) <==> IsShared(ms, mp.pid, p) || InWindow(mp, p) {
      OneMoreShared(ms, mp, mp.pid, p);
    }
    hide IsShared, PageOf;
    var now := WithPages(sp, PageOf(mp), fs, writable);
    assert forall p: nat :: p in now.mapped <==> p in sp.mapped || InWindow(mp, p);
    assert forall p: nat :: p in now.table <==> p in sp.table || InWindow(mp, p);
    assert Strip(now, ms + [mp], mp.pid).mapped == Strip(sp, ms, mp.pid).mapped;
    assert Strip(now, ms + [mp], mp.pid).table == Strip(sp, ms, mp.pid).table;
  }

  lemma OneMoreShared(ms: seq<Mapping>, mp: Mapping, pid: nat, p: nat)
    ensures IsShared(ms + [mp], pid, p) <==> IsShared(ms, pid, p) || (mp.pid == pid && InWindow(mp, p))
  {
    hide InWindow;
    var now := ms + [mp];
    if i :| 0 <= i < |ms| && ms[i].pid == pid && InWindow(ms[i], p) {
      assert now[i] == ms[i];
    }
    if mp.pid == pid && InWindow(mp, p) {
      assert now[|ms|] == mp;
    }
  }

  lemma StripUnmapped(sp: M.Space, ms: seq<Mapping>, now: seq<Mapping>, mp: Mapping)
    requires forall p: nat :: IsShared(ms, mp.pid, p) <==> IsShared(now, mp.pid, p) || InWindow(mp, p)
    ensures Strip(WithoutPages(sp, PageOf(mp), mp.pages), now, mp.pid) == Strip(sp, ms, mp.pid)
  {
    hide IsShared, PageOf;
    var next := WithoutPages(sp, PageOf(mp), mp.pages);
    assert forall p: nat :: p in next.mapped <==> p in sp.mapped && !InWindow(mp, p);
    assert forall p: nat :: p in next.table <==> p in sp.table && !InWindow(mp, p);
    assert Strip(next, now, mp.pid).mapped == Strip(sp, ms, mp.pid).mapped;
    assert Strip(next, now, mp.pid).table == Strip(sp, ms, mp.pid).table;
  }

  /** What is shared when one mapping has gone. */
  lemma OneLessShared(ms: seq<Mapping>, i: nat, pid: nat, p: nat)
    requires i < |ms|
    ensures IsShared(ms, pid, p) <==> IsShared(SwapRemove(ms, i), pid, p) || (ms[i].pid == pid && InWindow(ms[i], p))
  {
    hide InWindow;
    var now := SwapRemove(ms, i);
    if j :| 0 <= j < |ms| && ms[j].pid == pid && InWindow(ms[j], p) {
      if j != i {
        assert now[if j == |ms| - 1 then i else j] == ms[j];
      }
    }
    if j :| 0 <= j < |now| && now[j].pid == pid && InWindow(now[j], p) {
      SwapRemoveFrom(ms, i, j);
    }
  }

  lemma BasePage(s: State, pid: nat)
    ensures var base := SHM_VA_BASE + Bump(s, pid) * PAGE_SIZE;
            base / PAGE_SIZE == NextPage(s, pid) && base == base / PAGE_SIZE * PAGE_SIZE
  {
  }

  /** Two mappings of a process have no page in common. */
  lemma WindowsApart(a: Mapping, b: Mapping, p: nat)
    requires Apart(a, b) && a.pid == b.pid
    requires a.base == PageOf(a) * PAGE_SIZE && b.base == PageOf(b) * PAGE_SIZE
    ensures !(InWindow(a, p) && InWindow(b, p))
  {
    hide PageOf;
  }

  ghost predicate SameStrips(k: Machine, spaces: map<nat, M.Space>, ms: seq<Mapping>) {
    StripAll(spaces, ms) == StripAll(k.m.spaces, k.s.mappings)
  }

  lemma MapStrips(k: Machine, pid: nat, h: nat, writable: bool)
    requires M.Shape(k.m) && pid in k.m.spaces && h in k.s.table
    requires AllFree(k.m.spaces[pid].mapped, {}, NextPage(k.s, pid), |k.s.table[h].frames|)
    ensures SameStrips(k, Remapped(k, Map(pid, h, true), writable).spaces, Apply(k.s, Map(pid, h, true)).mappings)
  {
    hide Strip, WithPages, M.Shape, PageOf;
    var ms, fs := k.s.mappings, k.s.table[h].frames;
    var mp := Mapping(pid, h, SHM_VA_BASE + Bump(k.s, pid) * PAGE_SIZE, |fs|);
    var now := Remapped(k, Map(pid, h, true), writable).spaces;
    NewPage(k.s, mp);
    M.SpaceAt(k.m, pid);
    forall p: nat | InWindow(mp, p) ensures p !in k.m.spaces[pid].mapped {
      assert FreePage(k.m.spaces[pid].mapped, {}, p);
    }
    StripMapped(k.m.spaces[pid], ms, mp, fs, writable);
    forall q | q in k.m.spaces && q != pid ensures Strip(now[q], ms + [mp], q) == Strip(k.m.spaces[q], ms, q) {
      forall p: nat ensures IsShared(ms + [mp], q, p) <==> IsShared(ms, q, p) {
        OneMoreShared(ms, mp, q, p);
      }
      StripSame(k.m.spaces[q], ms, ms + [mp], q);
    }
  }

  lemma MapTied(k: Machine, pid: nat, h: nat, writable: bool)
    requires Tied(k) && pid in k.m.spaces && h in k.s.table
    requires AllFree(k.m.spaces[pid].mapped, {}, NextPage(k.s, pid), |k.s.table[h].frames|)
    ensures Tied(Machine(Remapped(k, Map(pid, h, true), writable), Apply(k.s, Map(pid, h, true))))
  {
    hide PageOf, WithPages;
    var ms, fs := k.s.mappings, k.s.table[h].frames;
    PagesAt(k.m.spaces[pid], NextPage(k.s, pid), fs, writable);
    var k' := Machine(Remapped(k, Map(pid, h, true), writable), Apply(k.s, Map(pid, h, true)));
    var mp := Mapping(pid, h, SHM_VA_BASE + Bump(k.s, pid) * PAGE_SIZE, |fs|);
    assert PageOf(mp) == NextPage(k.s, pid) && mp.base == PageOf(mp) * PAGE_SIZE by { NewPage(k.s, mp); }
    assert TiedAt(k', mp);
    forall i | 0 <= i < |ms| ensures TiedAt(k', ms[i]) {
      assert TiedAt(k, ms[i]);
      forall p: nat | InWindow(ms[i], p) ensures Recorded(k', ms[i], p) {
        assert Recorded(k, ms[i], p);
        if ms[i].pid == pid {
          assert !(NextPage(k.s, pid) <= p < NextPage(k.s, pid) + |fs|) by { NotFree(k, pid, h, p); }
        }
      }
    }
  }

  lemma PagesAt(sp: M.Space, first: nat, fs: seq<nat>, writable: bool)
    ensures var now := WithPages(sp, first, fs, writable);
            && (forall p :: p in sp.mapped && !(first <= p < first + |fs|) ==> p in now.mapped && now.mapped[p] == sp.mapped[p])
            && (forall p :: p in sp.table && !(first <= p < first + |fs|) ==> p in now.table && now.table[p] == sp.table[p])
            && (forall p :: first <= p < first + |fs| ==>
                  && p in now.mapped && now.mapped[p] == fs[p - first]
                  && p in now.table && !now.table[p].cow)
  {
  }

  lemma NewPage(s: State, mp: Mapping)
    requires mp.base == SHM_VA_BASE + Bump(s, mp.pid) * PAGE_SIZE
    ensures PageOf(mp) == NextPage(s, mp.pid) && mp.base == PageOf(mp) * PAGE_SIZE
  {
    BasePage(s, mp.pid);
  }

  lemma NotFree(k: Machine, pid: nat, h: nat, p: nat)
    requires pid in k.m.spaces && h in k.s.table && p in k.m.spaces[pid].mapped
    requires AllFree(k.m.spaces[pid].mapped, {}, NextPage(k.s, pid), |k.s.table[h].frames|)
    ensures !(NextPage(k.s, pid) <= p < NextPage(k.s, pid) + |k.s.table[h].frames|)
  {
    assert !FreePage(k.m.spaces[pid].mapped, {}, p);
  }

  lemma UnmapStrips(k: Machine, pid: nat, ptr: nat)
    requires pid in k.m.spaces && Position(k.s.mappings, pid, ptr).Some?
    ensures SameStrips(k, Remapped(k, Unmap(pid, ptr), true).spaces,
                       SwapRemove(k.s.mappings, Position(k.s.mappings, pid, ptr).value))
  {
    hide Strip, WithoutPages, SwapRemove, IsShared, InWindow, PageOf;
    var ms := k.s.mappings;
    var i := Position(ms, pid, ptr).value;
    var mp, next := ms[i], SwapRemove(ms, i);
    var now := Remapped(k, Unmap(pid, ptr), true).spaces;
    forall q: nat, p: nat
      ensures IsShared(ms, q, p) <==> IsShared(next, q, p) || (mp.pid == q && InWindow(mp, p))
    {
      OneLessShared(ms, i, q, p);
    }
    StripUnmapped(k.m.spaces[pid], ms, next, mp);
    forall q | q in k.m.spaces && q != pid ensures Strip(now[q], next, q) == Strip(k.m.spaces[q], ms, q) {
      StripSame(k.m.spaces[q], ms, next, q);
    }
  }

  lemma UnmapTied(k: Machine, pid: nat, ptr: nat)
    requires Tied(k) && Inv(k.s) && pid in k.m.spaces && Position(k.s.mappings, pid, ptr).Some?
    ensures Tied(Machine(Remapped(k, Unmap(pid, ptr), true), Apply(k.s, Unmap(pid, ptr))))
  {
    hide PageOf, SwapRemove, Dropped;
    var ms := k.s.mappings;
    var i := Position(ms, pid, ptr).value;
    var mp := ms[i];
    var k' := Machine(Remapped(k, Unmap(pid, ptr), true), Apply(k.s, Unmap(pid, ptr)));
    StepKeeps(k.s, Unmap(pid, ptr));
    DropMappings(k.s.(mappings := SwapRemove(ms, i)), mp.handle);
    assert TiedAt(k, mp);
    forall j | 0 <= j < |k'.s.mappings| ensures TiedAt(k', k'.s.mappings[j]) {
      SwapLength(ms, i);
      SwapRemoveFrom(ms, i, j);
      var l := if j == i then |ms| - 1 else j;
      assert k'.s.mappings[j] == ms[l] && TiedAt(k, ms[l]);
      KeptRegion(k.s, Unmap(pid, ptr), j);
      forall p: nat | InWindow(ms[l], p) ensures Recorded(k', ms[l], p) {
        assert Recorded(k, ms[l], p);
        if ms[l].pid == pid {
          WindowsApart(ms[l], mp, p);
        }
      }
    }
  }

  lemma SwapLength(ms: seq<Mapping>, i: nat)
    requires i < |ms|
    ensures |SwapRemove(ms, i)| == |ms| - 1
  {
  }

  lemma DropMappings(s: State, h: nat)
    ensures Dropped(s, h).mappings == s.mappings
  {
  }

  /** A region with a mapping left keeps its frames. */
  lemma KeptRegion(s: State, call: Step, j: nat)
    requires Inv(s) && j < |Apply(s, call).mappings| && Apply(s, call).mappings[j].handle in s.table
    ensures var h := Apply(s, call).mappings[j].handle;
            h in Apply(s, call).table && Apply(s, call).table[h].frames == s.table[h].frames
  {
    var h := Apply(s, call).mappings[j].handle;
    ReleasedWithLastMapping(s, call, h);
    StepKeeps(s, call);
    hide Apply, Count;
  }

  lemma {:induction false} NoneOwned(ms: seq<Mapping>, pid: nat)
    requires HoldsNone(ms, pid)
    ensures Owned(ms, pid) == [] && Others(ms, pid) == ms
  {
    if ms != [] {
      NoneOwned(ms[..|ms| - 1], pid);
      assert ms == ms[..|ms| - 1] + [ms[|ms| - 1]];
    }
  }

  /** The same mappings on the same pages, and the regions they name as they were. */
  lemma TiedSame(k: Machine, k': Machine)
    requires Tied(k) && k'.s.mappings == k.s.mappings && k'.m.spaces == k.m.spaces
    requires forall h :: h in k.s.table ==> h in k'.s.table && k'.s.table[h].frames == k.s.table[h].frames
    ensures Tied(k')
  {
    var ms := k.s.mappings;
    forall i | 0 <= i < |ms| ensures TiedAt(k', ms[i]) {
      assert TiedAt(k, ms[i]);
      forall p: nat | InWindow(ms[i], p) ensures Recorded(k', ms[i], p) {
        assert Recorded(k, ms[i], p);
      }
    }
  }

  /** A careful call changes shared pages only, and keeps mappings and pages together. */
  lemma CallShares(k: Machine, call: Step, writable: bool)
    requires Safe(k) && Possible(k, Ipc(call, writable)) && Careful(k, Ipc(call, writable))
    ensures SameStrips(k, Remapped(k, call, writable).spaces, Apply(k.s, call).mappings)
    ensures Tied(Machine(Remapped(k, call, writable), Apply(k.s, call)))
  {
    hide Tied, M.Inv, M.Shape, Even, StripAll, Delivered, AllFree, WithPages, WithoutPages, SwapRemove;
    SafeShape(k);
    assert Tied(k) && Inv(k.s) by { SafeTied(k); }
    match call {
      case Create(_, _, _) =>
        NewHandle(k.s);
        TiedSame(k, Machine(k.m, Apply(k.s, call)));
      case Map(pid, h, mapped) =>
        if mapped && h in k.s.table {
          MapStrips(k, pid, h, writable);
          MapTied(k, pid, h, writable);
        } else {
          TiedSame(k, Machine(k.m, Apply(k.s, call)));
        }
      case Unmap(pid, ptr) =>
        var at := Position(k.s.mappings, pid, ptr);
        if at.Some? {
          Alive(k, at.value);
          UnmapStrips(k, pid, ptr);
          UnmapTied(k, pid, ptr);
          DropMappings(k.s.(mappings := SwapRemove(k.s.mappings, at.value)), k.s.mappings[at.value].handle);
        } else {
          TiedSame(k, Machine(k.m, Apply(k.s, call)));
        }
      case Cleanup(pid) =>
        NoneOwned(k.s.mappings, pid);
        TiedSame(k, Machine(k.m, Apply(k.s, call)));
    }
  }

  lemma SafeTied(k: Machine)
    requires Safe(k)
    ensures Tied(k) && Inv(k.s) && M.Inv(Private(k.m, k.s.mappings))
  {
  }

  lemma NewHandle(s: State)
    requires Inv(s)
    ensures s.nextHandle !in s.table
  {
  }

  lemma Alive(k: Machine, i: nat)
    requires Tied(k) && i < |k.s.mappings|
    ensures k.s.mappings[i].pid in k.m.spaces
  {
    assert TiedAt(k, k.s.mappings[i]);
  }

  /** The frames that a call gives back were held by the kernel. */
  lemma BackHeld(k: Machine, call: Step)
    requires Safe(k) && !call.Create?
    ensures Extends(k.s, Apply(k.s, call)) && Back(k.s, Apply(k.s, call)) <= k.m.other
  {
    hide Taken;
    CallFrames(k.s, call, k.m.other);
  }

  lemma IpcSafe(k: Machine, call: Step, writable: bool)
    requires Safe(k) && Possible(k, Ipc(call, writable)) && Careful(k, Ipc(call, writable))
    ensures M.Shape(k.m) && Tied(Moved(k, Ipc(call, writable)))
    ensures var k' := Moved(k, Ipc(call, writable)); M.Inv(Private(k'.m, k'.s.mappings))
  {
    hide Tied, M.Inv, M.Shape, Even, StripAll, Taken, AllFree, Remapped, Apply, Back, Pages, Careful;
    SafeShape(k);
    SafeTied(k);
    CallShares(k, call, writable);
    RemapShape(k, call, writable);
    var v := Private(k.m, k.s.mappings);
    var m1, s' := Remapped(k, call, writable), Apply(k.s, call);
    var k' := Moved(k, Ipc(call, writable));
    assert Private(m1, s'.mappings) == v;
    if call.Create? {
      NothingBack(k.s, s') by { CreateReleases(k.s, call); }
      if Accepted(call) {
        TakenKeeps(v, Taken(call.frames.value));
        GivenNothing(TakenOut(v, Taken(call.frames.value)));
      } else {
        GivenNothing(v);
      }
    } else {
      BackHeld(k, call);
      GivenKeeps(v, Back(k.s, s'));
    }
    TiedSame(Machine(m1, s'), k');
  }

  lemma CreateReleases(s: State, call: Step)
    requires call.Create?
    ensures Apply(s, call).released == s.released
  {
  }

  lemma GivenNothing(m: M.State)
    ensures GivenBack(m, {}) == m
  {
    assert m.free + {} == m.free && m.other - {} == m.other;
  }

  // ---------------------------------------------------------------------------
  // Whole runs
  // ---------------------------------------------------------------------------

  lemma StepSafe(k: Machine, e: Event)
    requires Safe(k) && Possible(k, e) && Careful(k, e)
    ensures M.Shape(k.m) && Safe(Moved(k, e))
    ensures e.Mem? && e.step.Exit? ==> Clean(k.m, e.step.pid)
  {
    hide M.Inv, M.Shape, Even, Tied, Possible, Formed, Clean, StripAll;
    SafeShape(k);
    SafeTied(k);
    if e.Mem? && e.step.Exit? {
      CarefulClean(k, e.step.pid) by { ExitThere(k, e.step); }
    }
    StepFormed(k, e);
    StepExact(k, e);
    match e {
      case Mem(step) =>
        MemSafe(k, step);
        StillTied(k, C.Apply(k.m, step).0) by { MemThere(k, step); }
      case Ipc(call, writable) => IpcSafe(k, call, writable);
    }
  }

  lemma ExitThere(k: Machine, step: C.Step)
    requires Possible(k, Mem(step)) && step.Exit?
    ensures step.pid in k.m.spaces
  {
  }

  lemma MemThere(k: Machine, step: C.Step)
    requires Possible(k, Mem(step))
    ensures C.Possible(k.m, step)
  {
  }

  ghost predicate AllCareful(k: Machine, events: seq<Event>)
    requires Formed(k) && AllPossible(k, events)
    decreases |events|
  {
    events == [] || (
      && Careful(k, events[0])
      && (StepFormed(k, events[0]);
          AllCareful(Moved(k, events[0]), events[1..])))
  }

  /**
   If every process unmaps its regions before it forks or exits, then in every run all teardowns
   are clean, no frame of a region is ever free or in two regions, no process ever maps a free
   frame, and the private pages keep the invariant of copy-on-write memory.
   */
  lemma {:induction false} CarefulRunSafe(k: Machine, events: seq<Event>)
    requires Safe(k) && AllPossible(k, events) && AllCareful(k, events)
    ensures Safe(ShmPool.After(k, events)) && AllClean(k, events) && AllEven(k, events)
    ensures NoFreeMapped(ShmPool.After(k, events).m)
    decreases |events|
  {
    hide M.Inv, M.Shape, Even, Tied, Possible, Careful, Moved, Clean, StripAll, FramesIn, Inv;
    RunBalancedExactly(k, events);
    if events == [] {
      AllUnfree(k);
    } else {
      StepSafe(k, events[0]);
      CarefulRunSafe(Moved(k, events[0]), events[1..]);
    }
  }

  lemma StartSafe(frames: set<nat>)
    ensures Safe(Start(frames))
  {
    StartEven(frames);
    C.Boot(frames);
    assert Private(C.Booted(frames), []).spaces == C.Booted(frames).spaces;
  }
}
