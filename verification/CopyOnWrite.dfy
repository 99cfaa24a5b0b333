/**
 Runs of the copy-on-write memory, compared with a machine in which every page of every process
 is private and `fork` copies them all.
 */
module CopyOnWrite {
  import opened Options
  import opened Memory

  datatype Step =
    | Create(pid: nat)
    | Map(pid: nat, page: nat, writable: bool, user: bool, got: Option<nat>)
    | Fork(pid: nat, child: nat)
    | Write(pid: nat, page: nat, off: nat, value: nat, got: Option<nat>)
    | Exit(pid: nat)
    | KernelTakes(frame: nat)
    | KernelGives(frame: nat)

  ghost predicate Possible(m: State, s: Step) {
    match s
    case Create(pid) => pid !in m.spaces
    case Map(pid, _, _, _, got) => pid in m.spaces && Given(m, got)
    case Fork(pid, child) => pid in m.spaces && child !in m.spaces
    case Write(pid, _, off, _, got) => pid in m.spaces && off < PAGE_SIZE && Given(m, got)
    case Exit(pid) => pid in m.spaces
    case KernelTakes(f) => f in m.free
    case KernelGives(f) => f in m.other
  }

  /** A fork must not take a count past 255. */
  ghost predicate Allowed(m: State, s: Step) {
    Possible(m, s) && (s.Fork? ==> Roomy(m, s.pid))
  }

  /** The new state, and whether the operation succeeded. */
  ghost function Apply(m: State, s: Step): (State, bool)
    requires Shape(m) && Possible(m, s)
  {
    match s
    case Create(pid) => (m.(spaces := m.spaces[pid := Space(map[], map[])]), true)
    case Map(pid, page, writable, user, got) => Mapped(m, pid, page, writable, user, got)
    case Fork(pid, child) => (Forked(m, pid, child), true)
    case Write(pid, page, off, value, got) => Written(m, pid, page, off, value, got)
    case Exit(pid) => (Destroyed(m, pid), true)
    case KernelTakes(f) => (m.(free := m.free - {f}, other := m.other + {f}), true)
    case KernelGives(f) => (m.(free := m.free + {f}, other := m.other - {f}), true)
  }

  lemma CreateKeeps(m: State, pid: nat)
    requires Inv(m) && pid !in m.spaces
    ensures Inv(m.(spaces := m.spaces[pid := Space(map[], map[])]))
  {
    hide Owners;
    assert Injective(map[]);
    var n := m.(spaces := m.spaces[pid := Space(map[], map[])]);
    forall f ensures Owners(n.spaces, f) == Owners(m.spaces, f) {
      OwnersAdd(m.spaces, pid, n.spaces[pid], f);
    }
    forall f | f in n.frames ensures CountExact(n, f) && Placed(n, f) {
      assert CountExact(m, f) && Placed(m, f);
    }
    forall q, p ensures Alone(n, q, p) {
      assert Alone(m, q, p);
    }
  }

  lemma KernelKeeps(m: State, f: nat)
    requires Inv(m)
    ensures f in m.free ==> Inv(m.(free := m.free - {f}, other := m.other + {f}))
    ensures f in m.other ==> Inv(m.(free := m.free + {f}, other := m.other - {f}))
  {
    hide Owners, Injective;
    var a := m.(free := m.free - {f}, other := m.other + {f});
    var b := m.(free := m.free + {f}, other := m.other - {f});
    forall g | g in m.frames
      ensures CountExact(a, g) && (f in m.free ==> Placed(a, g))
      ensures CountExact(b, g) && (f in m.other ==> Placed(b, g))
    {
      assert CountExact(m, g) && Placed(m, g);
    }
    forall q, p ensures Alone(a, q, p) && Alone(b, q, p) {
      assert Alone(m, q, p);
    }
  }

  /** Exact counts, lone writers and accounted frames survive every step. */
  lemma StepKeeps(m: State, s: Step)
    requires Inv(m) && Allowed(m, s)
    ensures Inv(Apply(m, s).0)
  {
    hide Owners, Exact, Accounted, WritersAlone, OnePageEach, Mapped, Forked, Written, Destroyed;
    match s {
      case Create(pid) => CreateKeeps(m, pid);
      case Map(pid, page, writable, user, got) => MapKeeps(m, pid, page, writable, user, got);
      case Fork(pid, child) => ForkKeeps(m, pid, child);
      case Write(pid, page, off, value, got) => WriteKeeps(m, pid, page, off, value, got);
      case Exit(pid) => DestroyKeeps(m, pid);
      case KernelTakes(f) => KernelKeeps(m, f);
      case KernelGives(f) => KernelKeeps(m, f);
    }
  }

  // ---------------------------------------------------------------------------
  // The machine that copies eagerly
  // ---------------------------------------------------------------------------

  datatype EagerPage = EagerPage(bytes: Contents, user: bool, writable: bool)

  type Eager = map<nat, map<nat, EagerPage>>

  ghost function ViewPage(m: State, e: Pte): EagerPage
    requires e.frame in m.frames
  {
    EagerPage(m.frames[e.frame], e.user, e.writable || e.cow)
  }

  ghost function ViewSpace(m: State, s: Space): map<nat, EagerPage>
    requires SpaceOk(m.frames, s)
  {
    map p | p in s.table :: ViewPage(m, s.table[p])
  }

  /** What the processes can see. */
  ghost function View(m: State): Eager
    requires Shape(m)
  {
    map pid | pid in m.spaces :: ViewSpace(m, m.spaces[pid])
  }

  ghost predicate EagerOk(e: Eager, s: Step) {
    s.Write? ==> s.pid in e && s.page in e[s.pid] && e[s.pid][s.page].user && e[s.pid][s.page].writable
                 && s.off < |e[s.pid][s.page].bytes|
  }

  ghost function WithPage(e: Eager, pid: nat, page: nat, now: EagerPage): Eager
    requires pid in e
  {
    var pages: map<nat, EagerPage> := e[pid][page := now];
    e[pid := pages]
  }

  ghost function EagerApply(e: Eager, s: Step): Eager
    requires EagerOk(e, s)
  {
    match s
    case Create(pid) => e[pid := map[]]
    case Map(pid, page, writable, user, _) =>
      if pid in e && page !in e[pid] then WithPage(e, pid, page, EagerPage(Zeros(), user, writable)) else e
    case Fork(pid, child) => if pid in e then e[child := e[pid]] else e
    case Write(pid, page, off, value, _) =>
      var was := e[pid][page];
      WithPage(e, pid, page, was.(bytes := was.bytes[off := value]))
    case Exit(pid) => e - {pid}
    case KernelTakes(_) => e
    case KernelGives(_) => e
  }

  /** The steps that need a fresh frame in the copy-on-write machine, and get none. */
  ghost predicate OutOfMemory(m: State, s: Step)
    requires Shape(m) && Allowed(m, s)
  {
    match s
    case Map(pid, page, _, _, got) => got == None && page !in m.spaces[pid].mapped
    case Write(pid, page, _, _, got) => got == None && Shared(m, pid, page)
    case _ => false
  }

  /** What one step does to what the processes can see. */
  ghost predicate Simulates(m: State, s: Step)
    requires Inv(m) && Allowed(m, s)
  {
    StepKeeps(m, s);
    var r := Apply(m, s);
    && (r.1 <==> EagerOk(View(m), s) && !OutOfMemory(m, s))
    && View(r.0) == if r.1 then EagerApply(View(m), s) else View(m)
  }

  lemma ViewOf(m: State)
    requires Shape(m)
    ensures View(m).Keys == m.spaces.Keys
    ensures forall q :: q in m.spaces ==> SpaceOk(m.frames, m.spaces[q]) && View(m)[q] == ViewSpace(m, m.spaces[q])
  {
  }

  lemma ViewIs(m: State, e: Eager)
    requires Shape(m) && m.spaces.Keys == e.Keys
    requires forall q :: q in m.spaces ==> SpaceOk(m.frames, m.spaces[q]) && ViewSpace(m, m.spaces[q]) == e[q]
    ensures View(m) == e
  {
  }

  /** Two spaces whose pages look the same look the same. */
  lemma SameSpace(m: State, s: Space, n: State, t: Space)
    requires SpaceOk(m.frames, s) && SpaceOk(n.frames, t) && s.table.Keys == t.table.Keys
    requires forall p :: p in s.table ==> ViewPage(n, t.table[p]) == ViewPage(m, s.table[p])
    ensures ViewSpace(n, t) == ViewSpace(m, s)
  {
  }

  lemma OnePage(m: State, s: Space, n: State, t: Space, page: nat, now: EagerPage)
    requires SpaceOk(m.frames, s) && SpaceOk(n.frames, t) && t.table.Keys == s.table.Keys + {page}
    requires forall p :: p in s.table && p != page ==> ViewPage(n, t.table[p]) == ViewPage(m, s.table[p])
    requires ViewPage(n, t.table[page]) == now
    ensures ViewSpace(n, t) == ViewSpace(m, s)[page := now]
  {
  }

  lemma MapSpace(m: State, s: Step, q: nat)
    requires Inv(m) && Allowed(m, s) && s.Map? && s.page !in m.spaces[s.pid].mapped && s.got.Some?
    requires q in m.spaces && Shape(Apply(m, s).0)
    ensures SpaceOk(Apply(m, s).0.frames, Apply(m, s).0.spaces[q])
    ensures ViewSpace(Apply(m, s).0, Apply(m, s).0.spaces[q]) ==
            if q == s.pid then ViewSpace(m, m.spaces[q])[s.page := EagerPage(Zeros(), s.user, s.writable)]
            else ViewSpace(m, m.spaces[q])
  {
    hide Owners, Exact, Accounted, WritersAlone, OnePageEach, Shape, ViewSpace;
    var n := Apply(m, s).0;
    SpaceAt(m, q);
    SpaceAt(n, q);
    forall p | p in m.spaces[q].table ensures m.spaces[q].table[p].frame != s.got.value {
      OwnedNotFree(m, q, p);
    }
    if q == s.pid {
      OnePage(m, m.spaces[q], n, n.spaces[q], s.page, EagerPage(Zeros(), s.user, s.writable));
    } else {
      SameSpace(m, m.spaces[q], n, n.spaces[q]);
    }
  }

  /** A fresh frame is in nobody's view, so a new page changes one view only. */
  lemma MapSeen(m: State, s: Step)
    requires Inv(m) && Allowed(m, s) && s.Map? && s.page !in m.spaces[s.pid].mapped && s.got.Some?
    ensures Shape(Apply(m, s).0) && View(Apply(m, s).0) == EagerApply(View(m), s)
  {
    hide Owners, Exact, Accounted, WritersAlone, OnePageEach, View, ViewSpace, Shape;
    MapShape(m, s.pid, s.page, s.writable, s.user, s.got) by { FreeExist(m); }
    var n := Apply(m, s).0;
    ViewOf(m);
    InView(m, s.pid, s.page);
    var want := EagerApply(View(m), s);
    forall q | q in n.spaces
      ensures SpaceOk(n.frames, n.spaces[q]) && ViewSpace(n, n.spaces[q]) == want[q]
    {
      SpaceAt(m, q);
      MapSpace(m, s, q);
    }
    ViewIs(n, want);
  }

  lemma FreeExist(m: State)
    requires Inv(m)
    ensures m.free <= m.frames.Keys
  {
  }

  lemma MapSimulates(m: State, s: Step)
    requires Inv(m) && Allowed(m, s) && s.Map?
    ensures Simulates(m, s)
  {
    hide Owners, Exact, Accounted, WritersAlone, OnePageEach, View;
    StepKeeps(m, s);
    if s.page !in m.spaces[s.pid].mapped && s.got.Some? {
      MapSeen(m, s);
    } else if s.page in m.spaces[s.pid].mapped {
      assert s.pid in View(m) && s.page in View(m)[s.pid] by { InView(m, s.pid, s.page); }
    }
  }

  lemma InView(m: State, pid: nat, page: nat)
    requires Shape(m) && pid in m.spaces
    ensures pid in View(m) && (page in View(m)[pid] <==> page in m.spaces[pid].mapped)
  {
    assert SpaceOk(m.frames, m.spaces[pid]);
  }

  /** A mapped frame is neither free nor in use by the kernel. */
  lemma OwnedNotFree(m: State, pid: nat, page: nat)
    requires Inv(m) && pid in m.spaces && page in m.spaces[pid].table
    ensures m.spaces[pid].table[page].frame in m.frames
    ensures m.spaces[pid].table[page].frame !in m.free
  {
    hide Owners, Exact, WritersAlone, OnePageEach;
    assert SpaceOk(m.frames, m.spaces[pid]);
    var f := m.spaces[pid].table[page].frame;
    InOwners(m.spaces, f, pid, page);
    assert Placed(m, f);
  }

  lemma ForkSpace(m: State, s: Step, q: nat)
    requires Shape(m) && Allowed(m, s) && s.Fork? && Shape(Apply(m, s).0) && q in Apply(m, s).0.spaces
    ensures SpaceOk(Apply(m, s).0.frames, Apply(m, s).0.spaces[q])
    ensures var from := if q == s.child then s.pid else q;
            from in m.spaces && SpaceOk(m.frames, m.spaces[from]) &&
            ViewSpace(Apply(m, s).0, Apply(m, s).0.spaces[q]) == ViewSpace(m, m.spaces[from])
  {
    hide Shape, ViewSpace, Owners, Roomy;
    var from := if q == s.child then s.pid else q;
    SpaceAt(m, from);
    SpaceAt(Apply(m, s).0, q);
    SameSpace(m, m.spaces[from], Apply(m, s).0, Apply(m, s).0.spaces[q]);
  }

  lemma ForkSimulates(m: State, s: Step)
    requires Inv(m) && Allowed(m, s) && s.Fork?
    ensures Simulates(m, s)
  {
    hide Owners, Exact, Accounted, WritersAlone, OnePageEach, View, ViewSpace, Shape;
    StepKeeps(m, s);
    var n := Apply(m, s).0;
    ViewOf(m);
    var want := EagerApply(View(m), s);
    forall q | q in n.spaces
      ensures SpaceOk(n.frames, n.spaces[q]) && ViewSpace(n, n.spaces[q]) == want[q]
    {
      ForkSpace(m, s, q);
    }
    ViewIs(n, want);
  }

  lemma ExitSimulates(m: State, s: Step)
    requires Inv(m) && Allowed(m, s) && (s.Exit? || s.KernelTakes? || s.KernelGives?)
    ensures Simulates(m, s)
  {
    hide Owners, Exact, Accounted, WritersAlone, OnePageEach, View, ViewSpace;
    StepKeeps(m, s);
    var n := Apply(m, s).0;
    ViewOf(m);
    var want := EagerApply(View(m), s);
    forall q | q in n.spaces ensures ViewSpace(n, n.spaces[q]) == want[q] {
      SameSpace(m, m.spaces[q], n, n.spaces[q]);
    }
    ViewIs(n, want);
  }

  lemma CreateSimulates(m: State, s: Step)
    requires Inv(m) && Allowed(m, s) && s.Create?
    ensures Simulates(m, s)
  {
    hide Owners, Exact, Accounted, WritersAlone, OnePageEach, View;
    StepKeeps(m, s);
    var n := Apply(m, s).0;
    ViewOf(m);
    var want := EagerApply(View(m), s);
    assert ViewSpace(n, n.spaces[s.pid]) == map[];
    forall q | q in m.spaces ensures ViewSpace(n, n.spaces[q]) == want[q] {
      SameSpace(m, m.spaces[q], n, n.spaces[q]);
    }
    ViewIs(n, want);
  }

  lemma ResolvePage(m: State, pid: nat, page: nat, got: Option<nat>, q: nat, p: nat)
    requires Inv(m) && pid in m.spaces && Given(m, got) && q in m.spaces && p in m.spaces[q].table
    ensures q in Resolved(m, pid, page, got).0.spaces && p in Resolved(m, pid, page, got).0.spaces[q].table
    ensures m.spaces[q].table[p].frame in m.frames
    ensures Resolved(m, pid, page, got).0.spaces[q].table[p].frame in Resolved(m, pid, page, got).0.frames
    ensures ViewPage(Resolved(m, pid, page, got).0, Resolved(m, pid, page, got).0.spaces[q].table[p]) ==
            ViewPage(m, m.spaces[q].table[p])
  {
    hide Owners, Exact, Accounted, WritersAlone, OnePageEach, Shape;
    SpaceAt(m, pid);
    OwnedNotFree(m, q, p);
  }

  lemma ResolveKeys(m: State, pid: nat, page: nat, got: Option<nat>, q: nat)
    requires Shape(m) && pid in m.spaces && q in m.spaces
    ensures q in Resolved(m, pid, page, got).0.spaces
    ensures Resolved(m, pid, page, got).0.spaces[q].table.Keys == m.spaces[q].table.Keys
  {
  }

  lemma ResolveSpace(m: State, pid: nat, page: nat, got: Option<nat>, q: nat)
    requires Inv(m) && pid in m.spaces && Given(m, got) && q in m.spaces
    requires Shape(Resolved(m, pid, page, got).0)
    ensures q in Resolved(m, pid, page, got).0.spaces
    ensures SpaceOk(m.frames, m.spaces[q])
    ensures SpaceOk(Resolved(m, pid, page, got).0.frames, Resolved(m, pid, page, got).0.spaces[q])
    ensures ViewSpace(Resolved(m, pid, page, got).0, Resolved(m, pid, page, got).0.spaces[q]) ==
            ViewSpace(m, m.spaces[q])
  {
    hide Owners, Exact, Accounted, WritersAlone, OnePageEach, Shape, ViewSpace, Resolved, ViewPage;
    var n := Resolved(m, pid, page, got).0;
    ResolveKeys(m, pid, page, got, q);
    SpaceAt(m, q);
    SpaceAt(n, q);
    forall p | p in m.spaces[q].table ensures ViewPage(n, n.spaces[q].table[p]) == ViewPage(m, m.spaces[q].table[p]) {
      ResolvePage(m, pid, page, got, q, p);
    }
    SameSpace(m, m.spaces[q], n, n.spaces[q]);
  }

  /** Fault resolution is invisible. */
  lemma ResolveInvisible(m: State, pid: nat, page: nat, got: Option<nat>)
    requires Inv(m) && pid in m.spaces && Given(m, got)
    ensures Shape(Resolved(m, pid, page, got).0)
    ensures View(Resolved(m, pid, page, got).0) == View(m)
  {
    hide Owners, Exact, Accounted, WritersAlone, OnePageEach, View, ViewSpace, Shape;
    ResolveKeeps(m, pid, page, got);
    ViewOf(m);
    var n := Resolved(m, pid, page, got).0;
    forall q | q in n.spaces
      ensures SpaceOk(n.frames, n.spaces[q]) && ViewSpace(n, n.spaces[q]) == View(m)[q]
    {
      ResolveSpace(m, pid, page, got, q);
    }
    ViewIs(n, View(m));
  }

  /** A store through a writable page is seen by its owner and by nobody else. */
  lemma StoreSeen(m: State, pid: nat, page: nat, off: nat, value: nat, got: Option<nat>)
    requires Inv(m) && pid in m.spaces && Stores(m, pid, page) && off < PAGE_SIZE
    ensures Shape(Store(m, pid, page, off, value)) && EagerOk(View(m), Write(pid, page, off, value, got))
    ensures View(Store(m, pid, page, off, value)) == EagerApply(View(m), Write(pid, page, off, value, got))
  {
    hide Owners, Exact, Accounted, OnePageEach, View;
    StoreKeeps(m, pid, page, off, value);
    ViewOf(m);
    var n := Store(m, pid, page, off, value);
    var f := m.spaces[pid].table[page].frame;
    var want := EagerApply(View(m), Write(pid, page, off, value, got));
    forall q | q in n.spaces ensures ViewSpace(n, n.spaces[q]) == want[q] {
      forall p | p in m.spaces[q].table && m.spaces[q].table[p].frame == f ensures q == pid && p == page {
        assert Alone(m, pid, page);
        InOwners(m.spaces, f, q, p);
      }
      if q == pid {
        OnePage(m, m.spaces[q], n, n.spaces[q], page, want[q][page]);
      } else {
        SameSpace(m, m.spaces[q], n, n.spaces[q]);
      }
    }
    ViewIs(n, want);
  }

  lemma WriteSimulates(m: State, s: Step)
    requires Inv(m) && Allowed(m, s) && s.Write?
    ensures Simulates(m, s)
  {
    hide Owners, Exact, Accounted, WritersAlone, OnePageEach, Store;
    StepKeeps(m, s);
    if Stores(m, s.pid, s.page) {
      StoreSeen(m, s.pid, s.page, s.off, s.value, s.got);
    } else {
      ResolveKeeps(m, s.pid, s.page, s.got);
      ResolveInvisible(m, s.pid, s.page, s.got);
      var r := Resolved(m, s.pid, s.page, s.got);
      if r.1 {
        StoreSeen(r.0, s.pid, s.page, s.off, s.value, s.got);
      }
    }
  }

  lemma StepSimulates(m: State, s: Step)
    requires Inv(m) && Allowed(m, s)
    ensures Simulates(m, s)
  {
    match s {
      case Map(_, _, _, _, _) => MapSimulates(m, s);
      case Fork(_, _) => ForkSimulates(m, s);
      case Write(_, _, _, _, _) => WriteSimulates(m, s);
      case Create(_) => CreateSimulates(m, s);
      case _ => ExitSimulates(m, s);
    }
  }

  // ---------------------------------------------------------------------------
  // Whole runs
  // ---------------------------------------------------------------------------

  ghost predicate AllAllowed(m: State, steps: seq<Step>)
    requires Inv(m)
    decreases |steps|
  {
    steps == [] ||
    (Allowed(m, steps[0]) && (StepKeeps(m, steps[0]); AllAllowed(Apply(m, steps[0]).0, steps[1..])))
  }

  ghost function After(m: State, steps: seq<Step>): (n: State)
    requires Inv(m) && AllAllowed(m, steps)
    ensures Inv(n)
    decreases |steps|
  {
    if steps == [] then m else StepKeeps(m, steps[0]); After(Apply(m, steps[0]).0, steps[1..])
  }

  /** The steps of a run that succeeded. */
  ghost function Done(m: State, steps: seq<Step>): seq<Step>
    requires Inv(m) && AllAllowed(m, steps)
    decreases |steps|
  {
    if steps == [] then []
    else
      StepKeeps(m, steps[0]);
      var (n, ok) := Apply(m, steps[0]);
      if ok then [steps[0]] + Done(n, steps[1..]) else Done(n, steps[1..])
  }

  ghost predicate EagerRunOk(e: Eager, steps: seq<Step>)
    decreases |steps|
  {
    steps == [] || (EagerOk(e, steps[0]) && EagerRunOk(EagerApply(e, steps[0]), steps[1..]))
  }

  ghost function EagerAfter(e: Eager, steps: seq<Step>): Eager
    requires EagerRunOk(e, steps)
    decreases |steps|
  {
    if steps == [] then e else EagerAfter(EagerApply(e, steps[0]), steps[1..])
  }

  /**
   After any run of forks, stores, page faults, mappings and exits, every process sees byte for
   byte what it would see if each fork had copied every page.
   */
  lemma {:induction false} RunRefinesEagerCopy(m: State, steps: seq<Step>)
    requires Inv(m) && AllAllowed(m, steps)
    ensures EagerRunOk(View(m), Done(m, steps))
    ensures View(After(m, steps)) == EagerAfter(View(m), Done(m, steps))
    decreases |steps|
  {
    hide Owners, Shape, Exact, Accounted, WritersAlone, OnePageEach, Possible, Apply, View, EagerApply, EagerOk, OutOfMemory;
    if steps != [] {
      StepKeeps(m, steps[0]);
      StepSimulates(m, steps[0]);
      var (n, ok) := Apply(m, steps[0]);
      RunRefinesEagerCopy(n, steps[1..]);
      if ok {
        assert Done(m, steps)[1..] == Done(n, steps[1..]);
      }
    }
  }

  /** Nothing a process does changes what another one sees. */
  lemma Isolation(m: State, s: Step, other: nat)
    requires Inv(m) && Allowed(m, s) && other in m.spaces
    requires (s.Map? || s.Fork? || s.Write? || s.Exit?) && s.pid != other
    ensures Shape(Apply(m, s).0) && other in Apply(m, s).0.spaces
    ensures View(Apply(m, s).0)[other] == View(m)[other]
  {
    hide Owners, Exact, Accounted, WritersAlone, OnePageEach, View, ViewSpace, Apply;
    StepKeeps(m, s);
    StepSimulates(m, s);
    ViewOf(m);
    ViewOf(Apply(m, s).0);
  }

  /** An empty machine, from which every run starts. */
  function Booted(frames: set<nat>): State {
    State(map f | f in frames :: Zeros(), frames, {}, map f | f in frames :: 0, map[])
  }

  lemma Boot(frames: set<nat>)
    ensures Inv(Booted(frames))
  {
  }

  // ---------------------------------------------------------------------------
  // Runs to the states in which counts go wrong
  // ---------------------------------------------------------------------------

  /** One process with one page on frame 0. */
  ghost predicate OnePage0(m: State) {
    && Inv(m) && 0 in m.spaces && m.spaces[0].mapped == map[0 := 0] && 0 in m.counts
    && forall f :: f in m.counts ==> m.counts[f] <= MAX_COUNT
  }

  lemma FirstPage(frames: set<nat>) returns (steps: seq<Step>)
    requires 0 in frames
    ensures Inv(Booted(frames)) && AllAllowed(Booted(frames), steps)
    ensures OnePage0(After(Booted(frames), steps)) && After(Booted(frames), steps).spaces.Keys == {0}
    ensures After(Booted(frames), steps).counts[0] == 1 && After(Booted(frames), steps).free == frames - {0}
  {
    hide Owners, Exact, Accounted, WritersAlone, OnePageEach;
    var m := Booted(frames);
    Boot(frames);
    var a, b := Create(0), Map(0, 0, true, true, Some(0));
    StepKeeps(m, a);
    var m1 := Apply(m, a).0;
    StepKeeps(m1, b);
    var m2 := Apply(m1, b).0;
    steps := [a, b];
    assert steps[1..] == [b] && [b][1..] == [];
    assert AllAllowed(m2, []) && After(m2, []) == m2;
    assert AllAllowed(m1, [b]) && After(m1, [b]) == m2;
    assert AllAllowed(m, steps) && After(m, steps) == m2;
    assert m2.spaces[0].mapped == map[0 := 0];
  }

  lemma OneUse(f: nat)
    ensures |PagesOf(map[0 := 0], f)| == if f == 0 then 1 else 0
  {
    assert PagesOf(map[0 := 0], f) == if f == 0 then {0} else {};
  }

  /** Forks until the count of frame 0 is at its limit. */
  lemma {:induction false} ManyForks(m: State, next: nat) returns (steps: seq<Step>)
    requires OnePage0(m) && forall pid :: pid in m.spaces ==> pid < next
    ensures AllAllowed(m, steps) && OnePage0(After(m, steps)) && After(m, steps).counts[0] == MAX_COUNT
    decreases MAX_COUNT - m.counts[0]
  {
    hide Owners, Exact, Accounted, WritersAlone, OnePageEach, Shape, PagesOf, ReadOnly;
    steps := [];
    if m.counts[0] < MAX_COUNT {
      forall f: nat ensures |PagesOf(map[0 := 0], f)| == if f == 0 then 1 else 0 {
        OneUse(f);
      }
      assert Roomy(m, 0);
      var s := Fork(0, next);
      StepKeeps(m, s);
      var m1 := Apply(m, s).0;
      SameDomain(m, 0, next);
      var rest := ManyForks(m1, next + 1);
      steps := [s] + rest;
      assert steps[1..] == rest;
    }
  }

  lemma SameDomain(m: State, parent: nat, child: nat)
    requires Shape(m) && parent in m.spaces
    ensures Forked(m, parent, child).counts.Keys == m.counts.Keys
    ensures forall f :: f in m.counts ==>
              Forked(m, parent, child).counts[f] == Saturated(m.counts[f] + |PagesOf(m.spaces[parent].mapped, f)|)
  {
  }

  /** A run that reaches 255 owners; from there every fork leaves a count that is too small. */
  lemma CountsSaturate() returns (steps: seq<Step>)
    ensures Inv(Booted({0})) && AllAllowed(Booted({0}), steps)
    ensures var m := After(Booted({0}), steps);
            && 0 in m.spaces && 0 in m.counts && m.counts[0] == MAX_COUNT
            && forall child :: child !in m.spaces ==> !Exact(Forked(m, 0, child))
  {
    hide Owners, Exact, Accounted, WritersAlone, OnePageEach, Shape, PagesOf, Forked;
    var first := FirstPage({0});
    var m1 := After(Booted({0}), first);
    var more := ManyForks(m1, 1);
    RunConcat(Booted({0}), first, more);
    steps := first + more;
    var m := After(Booted({0}), steps);
    OneUse(0);
    forall child | child !in m.spaces ensures !Exact(Forked(m, 0, child)) {
      ForkExact(m, 0, child);
    }
  }

  lemma {:induction false} RunConcat(m: State, a: seq<Step>, b: seq<Step>)
    requires Inv(m) && AllAllowed(m, a) && AllAllowed(After(m, a), b)
    ensures AllAllowed(m, a + b) && After(m, a + b) == After(After(m, a), b)
    decreases |a|
  {
    hide Shape, Exact, Accounted, WritersAlone, OnePageEach, Possible, Apply;
    if a == [] {
      assert a + b == b;
    } else {
      StepKeeps(m, a[0]);
      RunConcat(Apply(m, a[0]).0, a[1..], b);
      assert (a + b)[1..] == a[1..] + b;
    }
  }

  /** A run after which `map_alloc` on the mapped page takes a frame that nobody owns. */
  lemma FrameLeaks() returns (steps: seq<Step>)
    ensures Inv(Booted({0, 1})) && AllAllowed(Booted({0, 1}), steps)
    ensures var m := After(Booted({0, 1}), steps);
            && 0 in m.spaces && 1 in m.free
            && !Exact(Allocated(m, 0, 0, true, true, Some(1)).0)
  {
    hide Owners, Exact, Accounted, WritersAlone, OnePageEach;
    steps := FirstPage({0, 1});
    var m := After(Booted({0, 1}), steps);
    SpaceAt(m, 0);
    AllocatedExact(m, 0, 0, true, true, Some(1));
  }
}
