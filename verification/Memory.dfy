/**
 Copy-on-write memory: address spaces, reference counts and page-fault resolution of
 kernel/src/memory/address_space.rs, cow.rs and frame_refcount.rs.

 Each address space has page tables of its own.  The frame allocator is any source of frames
 that are free: the frame it returns, if any, is part of the step.
 */
module Memory {
  import opened Options

  const PAGE_SIZE: nat := 4096
  const MAX_COUNT: nat := 255

  type Contents = seq<nat>

  /** A leaf page table entry. */
  datatype Pte = Pte(frame: nat, writable: bool, cow: bool, user: bool)

  /** An `AddressSpace`: the `mapped_pages` record and the page table itself. */
  datatype Space = Space(mapped: map<nat, nat>, table: map<nat, Pte>)

  /** `other` holds the frames in use for page tables and other kernel purposes. */
  datatype State = State(
    frames: map<nat, Contents>, free: set<nat>, other: set<nat>, counts: map<nat, nat>, spaces: map<nat, Space>)

  function Zeros(): (r: Contents)
    ensures |r| == PAGE_SIZE
  {
    seq(PAGE_SIZE, _ => 0)
  }

  // ---------------------------------------------------------------------------
  // The operations
  // ---------------------------------------------------------------------------

  /** `map_alloc` as `write_data` and `ensure_mapped` call it: only for a page with no record. */
  function Mapped(m: State, pid: nat, page: nat, writable: bool, user: bool, got: Option<nat>): (State, bool)
    requires Shape(m) && pid in m.spaces
  {
    var s := m.spaces[pid];
    if page in s.mapped then (m, true)
    else if got == None then (m, false)
    else
      var f := got.value;
      var s' := Space(s.mapped[page := f], s.table[page := Pte(f, writable, false, user)]);
      (State(m.frames[f := Zeros()], m.free - {f}, m.other, m.counts[f := 1], m.spaces[pid := s']), true)
  }

  /**
   `map_alloc` for any page: the frame is taken and counted before the page table refuses a page
   that is already mapped.
   */
  function Allocated(m: State, pid: nat, page: nat, writable: bool, user: bool, got: Option<nat>): (State, bool)
    requires Shape(m) && pid in m.spaces
  {
    if page !in m.spaces[pid].table then Mapped(m, pid, page, writable, user, got)
    else if got == None then (m, false)
    else
      var f := got.value;
      (m.(frames := m.frames[f := Zeros()], free := m.free - {f}, counts := m.counts[f := 1]), false)
  }

  function Downgrade(e: Pte): Pte {
    if e.user && e.writable then e.(writable := false, cow := true) else e
  }

  /** The page table that parent and child have after a fork. */
  function ReadOnly(t: map<nat, Pte>): map<nat, Pte> {
    map p | p in t :: Downgrade(t[p])
  }

  function PagesOf(mapped: map<nat, nat>, f: nat): set<nat> {
    set p | p in mapped && mapped[p] == f
  }

  /** `clone_cow` */
  function Forked(m: State, parent: nat, child: nat): State
    requires Shape(m) && parent in m.spaces
  {
    var s := m.spaces[parent];
    var t := ReadOnly(s.table);
    m.(counts := map f | f in m.counts :: Saturated(m.counts[f] + |PagesOf(s.mapped, f)|),
       spaces := m.spaces[parent := Space(s.mapped, t)][child := Space(s.mapped, t)])
  }

  function Saturated(n: nat): nat { if n < MAX_COUNT then n else MAX_COUNT }

  function Minus(n: nat, k: nat): nat { if n < k then 0 else n - k }

  /** `destroy` */
  function Destroyed(m: State, pid: nat): State
    requires Shape(m) && pid in m.spaces
  {
    var s := m.spaces[pid];
    m.(counts := map f | f in m.counts :: Minus(m.counts[f], |PagesOf(s.mapped, f)|),
       free := m.free + (set p | p in s.mapped && m.counts[s.mapped[p]] <= |PagesOf(s.mapped, s.mapped[p])| :: s.mapped[p]),
       spaces := m.spaces - {pid})
  }

  function WithEntry(m: State, pid: nat, page: nat, e: Pte): State
    requires pid in m.spaces
  {
    var s := m.spaces[pid];
    m.(spaces := m.spaces[pid := Space(s.mapped[page := e.frame], s.table[page := e])])
  }

  /** `try_resolve_cow` */
  function Resolved(m: State, pid: nat, page: nat, got: Option<nat>): (State, bool)
    requires Shape(m) && pid in m.spaces
  {
    var s := m.spaces[pid];
    if page !in s.table || !s.table[page].cow || !s.table[page].user then (m, false)
    else
      var e := s.table[page];
      if m.counts[e.frame] <= 1 then
        (WithEntry(m, pid, page, e.(writable := true, cow := false)), true)
      else if got == None then (m, false)
      else
        var f := got.value;
        var m1 := m.(frames := m.frames[f := m.frames[e.frame]], free := m.free - {f},
                     counts := m.counts[e.frame := m.counts[e.frame] - 1][f := 1]);
        (WithEntry(m1, pid, page, Pte(f, true, false, e.user)), true)
  }

  predicate Stores(m: State, pid: nat, page: nat)
    requires pid in m.spaces
  {
    var t := m.spaces[pid].table;
    page in t && t[page].user && t[page].writable
  }

  function Store(m: State, pid: nat, page: nat, off: nat, value: nat): State
    requires pid in m.spaces && Stores(m, pid, page) && m.spaces[pid].table[page].frame in m.frames
    requires off < |m.frames[m.spaces[pid].table[page].frame]|
  {
    var f := m.spaces[pid].table[page].frame;
    var c: Contents := m.frames[f][off := value];
    m.(frames := m.frames[f := c])
  }

  /** A store by user code, with the page fault it may raise; on false the process is killed. */
  function Written(m: State, pid: nat, page: nat, off: nat, value: nat, got: Option<nat>): (State, bool)
    requires Shape(m) && pid in m.spaces && off < PAGE_SIZE
  {
    if Stores(m, pid, page) then (Store(m, pid, page, off, value), true)
    else
      var (m1, ok) := Resolved(m, pid, page, got);
      if ok then (Store(m1, pid, page, off, value), true) else (m, false)
  }

  // ---------------------------------------------------------------------------
  // Invariant
  // ---------------------------------------------------------------------------

  /** The records of address spaces that name a frame. */
  ghost function Owners(spaces: map<nat, Space>, f: nat): set<(nat, nat)> {
    set pid, page | pid in spaces && page in spaces[pid].mapped && spaces[pid].mapped[page] == f :: (pid, page)
  }

  ghost predicate SpaceOk(frames: map<nat, Contents>, s: Space) {
    && s.mapped.Keys == s.table.Keys
    && (forall p :: p in s.table ==>
          s.table[p].frame == s.mapped[p] && s.mapped[p] in frames
          && (s.table[p].cow ==> s.table[p].user && !s.table[p].writable))
  }

  /** The page table and the record of every space agree and name existing frames. */
  ghost predicate Shape(m: State) {
    && m.frames.Keys == m.counts.Keys
    && (forall f :: f in m.frames ==> |m.frames[f]| == PAGE_SIZE)
    && (forall pid :: pid in m.spaces ==> SpaceOk(m.frames, m.spaces[pid]))
  }

  lemma SpaceAt(m: State, q: nat)
    requires Shape(m) && q in m.spaces
    ensures SpaceOk(m.frames, m.spaces[q])
  {
  }

  /** The count of a frame is the number of its owners. */
  ghost predicate CountExact(m: State, f: nat) {
    f in m.counts ==> m.counts[f] == |Owners(m.spaces, f)|
  }

  ghost predicate Exact(m: State) {
    forall f :: f in m.counts ==> CountExact(m, f)
  }

  ghost predicate Placed(m: State, f: nat) {
    Owners(m.spaces, f) == {} <==> f in m.free || f in m.other
  }

  /** Every frame is free, in use by the kernel, or owned, and only one of these. */
  ghost predicate Accounted(m: State) {
    && m.free <= m.frames.Keys && m.other <= m.frames.Keys && m.free !! m.other
    && (forall f :: f in m.frames ==> Placed(m, f))
  }

  /** A page that user code can write has a frame that nobody else maps. */
  ghost predicate Alone(m: State, pid: nat, page: nat) {
    pid in m.spaces && page in m.spaces[pid].table && Stores(m, pid, page) ==>
      Owners(m.spaces, m.spaces[pid].table[page].frame) == {(pid, page)}
  }

  ghost predicate WritersAlone(m: State) {
    forall pid, page :: Alone(m, pid, page)
  }

  ghost predicate Injective(mapped: map<nat, nat>) {
    forall p, q :: p in mapped && q in mapped && mapped[p] == mapped[q] ==> p == q
  }

  /** No space maps a frame at two pages. */
  ghost predicate OnePageEach(m: State) {
    forall pid :: pid in m.spaces ==> Injective(m.spaces[pid].mapped)
  }

  ghost predicate Inv(m: State) {
    Shape(m) && Exact(m) && Accounted(m) && WritersAlone(m) && OnePageEach(m)
  }

  lemma InjectiveSet(mapped: map<nat, nat>, page: nat, f: nat)
    requires Injective(mapped) && forall p :: p in mapped ==> mapped[p] != f
    ensures Injective(mapped[page := f])
  {
  }

  /** A free frame is mapped nowhere. */
  lemma FreeNowhere(m: State, pid: nat, f: nat)
    requires Shape(m) && Accounted(m) && pid in m.spaces && f in m.free
    ensures forall p :: p in m.spaces[pid].mapped ==> m.spaces[pid].mapped[p] != f
  {
    hide Owners;
    assert Placed(m, f);
    forall p | p in m.spaces[pid].mapped ensures m.spaces[pid].mapped[p] != f {
      InOwners(m.spaces, f, pid, p);
    }
  }

  // ---------------------------------------------------------------------------
  // How each operation changes the owners
  // ---------------------------------------------------------------------------

  lemma InOwners(spaces: map<nat, Space>, f: nat, pid: nat, page: nat)
    ensures (pid, page) in Owners(spaces, f) <==>
            pid in spaces && page in spaces[pid].mapped && spaces[pid].mapped[page] == f
  {
  }

  /** One record set to frame `g`. */
  lemma OwnersSet(spaces: map<nat, Space>, pid: nat, s: Space, page: nat, g: nat, f: nat)
    requires pid in spaces && s.mapped == spaces[pid].mapped[page := g]
    ensures Owners(spaces[pid := s], f) ==
            Owners(spaces, f) - {(pid, page)} + (if f == g then {(pid, page)} else {})
  {
    var now := Owners(spaces[pid := s], f);
    var want := Owners(spaces, f) - {(pid, page)} + (if f == g then {(pid, page)} else {});
    forall q: nat, p: nat ensures (q, p) in now <==> (q, p) in want {
      InOwners(spaces, f, q, p);
      InOwners(spaces[pid := s], f, q, p);
    }
    PairsEqual(now, want);
  }

  lemma PairsEqual(a: set<(nat, nat)>, b: set<(nat, nat)>)
    requires forall q: nat, p: nat :: (q, p) in a <==> (q, p) in b
    ensures a == b
  {
    forall x: (nat, nat) ensures x in a <==> x in b {
      assert x == (x.0, x.1);
    }
  }

  ghost function Records(pid: nat, mapped: map<nat, nat>, f: nat): set<(nat, nat)> {
    set p | p in PagesOf(mapped, f) :: (pid, p)
  }

  lemma {:induction false} PairedSize(pid: nat, pages: set<nat>, pairs: set<(nat, nat)>)
    requires pairs == set p | p in pages :: (pid, p)
    ensures |pairs| == |pages|
  {
    if pages != {} {
      var p :| p in pages;
      assert pairs - {(pid, p)} == set q | q in pages - {p} :: (pid, q);
      PairedSize(pid, pages - {p}, pairs - {(pid, p)});
    }
  }

  /** A new space with the record of another one. */
  lemma OwnersAdd(spaces: map<nat, Space>, pid: nat, s: Space, f: nat)
    requires pid !in spaces
    ensures Owners(spaces[pid := s], f) == Owners(spaces, f) + Records(pid, s.mapped, f)
    ensures Owners(spaces, f) !! Records(pid, s.mapped, f)
    ensures |Owners(spaces[pid := s], f)| == |Owners(spaces, f)| + |PagesOf(s.mapped, f)|
  {
    var now := Owners(spaces[pid := s], f);
    var want := Owners(spaces, f) + Records(pid, s.mapped, f);
    forall q: nat, p: nat ensures (q, p) in now <==> (q, p) in want {
      InOwners(spaces, f, q, p);
      InOwners(spaces[pid := s], f, q, p);
    }
    PairsEqual(now, want);
    PairedSize(pid, PagesOf(s.mapped, f), Records(pid, s.mapped, f));
  }

  lemma OwnersRemove(spaces: map<nat, Space>, pid: nat, f: nat)
    requires pid in spaces
    ensures Owners(spaces, f) == Owners(spaces - {pid}, f) + Records(pid, spaces[pid].mapped, f)
    ensures Owners(spaces - {pid}, f) !! Records(pid, spaces[pid].mapped, f)
    ensures |Owners(spaces, f)| == |Owners(spaces - {pid}, f)| + |PagesOf(spaces[pid].mapped, f)|
  {
    OwnersAdd(spaces - {pid}, pid, spaces[pid], f);
    assert (spaces - {pid})[pid := spaces[pid]] == spaces;
  }

  lemma OwnersSame(a: map<nat, Space>, b: map<nat, Space>, f: nat)
    requires a.Keys == b.Keys && forall pid :: pid in a ==> a[pid].mapped == b[pid].mapped
    ensures Owners(a, f) == Owners(b, f)
  {
    forall q: nat, p: nat ensures (q, p) in Owners(a, f) <==> (q, p) in Owners(b, f) {
      InOwners(a, f, q, p);
      InOwners(b, f, q, p);
    }
    PairsEqual(Owners(a, f), Owners(b, f));
  }

  // ---------------------------------------------------------------------------
  // Every operation keeps the invariant
  // ---------------------------------------------------------------------------

  ghost predicate Given(m: State, got: Option<nat>) {
    got.Some? ==> got.value in m.free
  }

  lemma MapShape(m: State, pid: nat, page: nat, writable: bool, user: bool, got: Option<nat>)
    requires Shape(m) && pid in m.spaces && Given(m, got) && m.free <= m.frames.Keys
    ensures Shape(Mapped(m, pid, page, writable, user, got).0)
  {
    hide Owners;
    var n := Mapped(m, pid, page, writable, user, got).0;
    forall q | q in n.spaces ensures SpaceOk(n.frames, n.spaces[q]) {
      assert q in m.spaces && SpaceOk(m.frames, m.spaces[q]);
    }
  }

  lemma MapOwners(m: State, pid: nat, page: nat, writable: bool, user: bool, f: nat, g: nat)
    requires Shape(m) && pid in m.spaces && page !in m.spaces[pid].mapped
    ensures Owners(Mapped(m, pid, page, writable, user, Some(f)).0.spaces, g) ==
            Owners(m.spaces, g) + (if g == f then {(pid, page)} else {})
    ensures (pid, page) !in Owners(m.spaces, g)
  {
    hide Owners;
    var n := Mapped(m, pid, page, writable, user, Some(f)).0;
    OwnersSet(m.spaces, pid, n.spaces[pid], page, f, g);
    InOwners(m.spaces, g, pid, page);
  }

  lemma MapKeeps(m: State, pid: nat, page: nat, writable: bool, user: bool, got: Option<nat>)
    requires Inv(m) && pid in m.spaces && Given(m, got)
    ensures Inv(Mapped(m, pid, page, writable, user, got).0)
  {
    hide Owners, Injective;
    var s := m.spaces[pid];
    MapShape(m, pid, page, writable, user, got);
    if page !in s.mapped && got.Some? {
      var f := got.value;
      FreeNowhere(m, pid, f);
      InjectiveSet(s.mapped, page, f);
      var n := Mapped(m, pid, page, writable, user, got).0;
      forall g | g in n.frames ensures CountExact(n, g) && Placed(n, g) {
        MapOwners(m, pid, page, writable, user, f, g);
        assert Placed(m, g) && CountExact(m, g);
      }
      forall q, p ensures Alone(n, q, p) {
        if q in n.spaces && p in n.spaces[q].table {
          MapOwners(m, pid, page, writable, user, f, n.spaces[q].table[p].frame);
          assert Alone(m, q, p) && Placed(m, f);
          if (q, p) != (pid, page) {
            InOwners(m.spaces, m.spaces[q].table[p].frame, q, p);
          }
        }
      }
    }
  }

  /** Counts are exact after `map_alloc` if and only if it did not take a frame for a page already mapped. */
  lemma AllocatedExact(m: State, pid: nat, page: nat, writable: bool, user: bool, got: Option<nat>)
    requires Inv(m) && pid in m.spaces && Given(m, got)
    ensures Exact(Allocated(m, pid, page, writable, user, got).0) <==> got == None || page !in m.spaces[pid].table
  {
    hide Owners;
    SpaceAt(m, pid);
    if page !in m.spaces[pid].table {
      MapKeeps(m, pid, page, writable, user, got);
    } else if got.Some? {
      assert Placed(m, got.value);
      assert !CountExact(Allocated(m, pid, page, writable, user, got).0, got.value);
    }
  }

  lemma OneOwner(s: set<(nat, nat)>, x: (nat, nat))
    requires x in s && |s| <= 1
    ensures s == {x}
  {
    assert |s - {x}| == 0;
  }

  /** A lone owner gets its page back writable: no record changes. */
  lemma LiftKeeps(m: State, pid: nat, page: nat)
    requires Inv(m) && pid in m.spaces && page in m.spaces[pid].table
    requires m.spaces[pid].table[page].user && m.counts[m.spaces[pid].table[page].frame] <= 1
    ensures Inv(WithEntry(m, pid, page, m.spaces[pid].table[page].(writable := true, cow := false)))
  {
    hide Owners, Injective;
    var e := m.spaces[pid].table[page];
    var n := WithEntry(m, pid, page, e.(writable := true, cow := false));
    assert n.spaces[pid].mapped == m.spaces[pid].mapped;
    InOwners(m.spaces, e.frame, pid, page);
    OneOwner(Owners(m.spaces, e.frame), (pid, page)) by { assert CountExact(m, e.frame); }
    forall g ensures Owners(n.spaces, g) == Owners(m.spaces, g) {
      OwnersSame(m.spaces, n.spaces, g);
    }
    forall g | g in n.frames ensures CountExact(n, g) && Placed(n, g) {
      assert Placed(m, g) && CountExact(m, g);
    }
    forall q, p ensures Alone(n, q, p) {
      assert Alone(m, q, p);
    }
    forall q | q in n.spaces ensures SpaceOk(n.frames, n.spaces[q]) {
      assert SpaceOk(m.frames, m.spaces[q]);
    }
  }

  ghost predicate Shared(m: State, pid: nat, page: nat) {
    && pid in m.spaces && page in m.spaces[pid].table && m.spaces[pid].table[page].user
    && m.spaces[pid].table[page].cow && m.spaces[pid].table[page].frame in m.counts
    && m.counts[m.spaces[pid].table[page].frame] > 1
  }

  lemma CopyOwners(m: State, pid: nat, page: nat, f: nat, g: nat)
    requires Shape(m) && Shared(m, pid, page)
    ensures Owners(Resolved(m, pid, page, Some(f)).0.spaces, g) ==
            Owners(m.spaces, g) - {(pid, page)} + (if g == f then {(pid, page)} else {})
    ensures (pid, page) in Owners(m.spaces, g) <==> g == m.spaces[pid].table[page].frame
  {
    hide Owners;
    var n := Resolved(m, pid, page, Some(f)).0;
    OwnersSet(m.spaces, pid, n.spaces[pid], page, f, g);
    InOwners(m.spaces, g, pid, page);
    assert SpaceOk(m.frames, m.spaces[pid]);
  }

  lemma CopyShape(m: State, pid: nat, page: nat, f: nat)
    requires Shape(m) && Shared(m, pid, page) && f in m.frames
    ensures Shape(Resolved(m, pid, page, Some(f)).0)
  {
    hide Owners;
    var n := Resolved(m, pid, page, Some(f)).0;
    forall q | q in n.spaces ensures SpaceOk(n.frames, n.spaces[q]) {
      assert SpaceOk(m.frames, m.spaces[q]);
    }
  }

  lemma CopyFrame(m: State, pid: nat, page: nat, f: nat, g: nat)
    requires Inv(m) && Shared(m, pid, page) && f in m.free && g in m.frames
    ensures CountExact(Resolved(m, pid, page, Some(f)).0, g) && Placed(Resolved(m, pid, page, Some(f)).0, g)
  {
    hide Owners, WritersAlone, OnePageEach;
    CopyOwners(m, pid, page, f, g);
    CopyOwners(m, pid, page, f, f);
    assert Placed(m, g) && CountExact(m, g) && Placed(m, f);
    Drop(Owners(m.spaces, g), (pid, page));
  }

  lemma CopyAlone(m: State, pid: nat, page: nat, f: nat, q: nat, p: nat)
    requires Inv(m) && Shared(m, pid, page) && f in m.free
    ensures Alone(Resolved(m, pid, page, Some(f)).0, q, p)
  {
    hide Owners, Exact;
    var n := Resolved(m, pid, page, Some(f)).0;
    if q in n.spaces && p in n.spaces[q].table && Stores(n, q, p) {
      CopyOwners(m, pid, page, f, n.spaces[q].table[p].frame);
      assert Alone(m, q, p) && Placed(m, f);
      if (q, p) != (pid, page) {
        assert SpaceOk(m.frames, m.spaces[q]);
        InOwners(m.spaces, m.spaces[q].table[p].frame, q, p);
      }
    }
  }

  /** A shared page is copied: one record moves from the old frame to the new one. */
  lemma CopyKeeps(m: State, pid: nat, page: nat, f: nat)
    requires Inv(m) && Shared(m, pid, page) && f in m.free
    ensures Inv(Resolved(m, pid, page, Some(f)).0)
  {
    hide Owners, CountExact, Placed, Alone, Injective;
    CopyShape(m, pid, page, f);
    var n := Resolved(m, pid, page, Some(f)).0;
    FreeNowhere(m, pid, f);
    InjectiveSet(m.spaces[pid].mapped, page, f);
    forall g | g in n.frames ensures CountExact(n, g) && Placed(n, g) {
      CopyFrame(m, pid, page, f, g);
    }
    forall q, p ensures Alone(n, q, p) {
      CopyAlone(m, pid, page, f, q, p);
    }
  }

  lemma Drop(s: set<(nat, nat)>, x: (nat, nat))
    ensures x in s ==> |s - {x}| == |s| - 1
    ensures x in s && |s| > 1 ==> s - {x} != {}
    ensures x !in s ==> s - {x} == s
  {
  }

  lemma ResolveKeeps(m: State, pid: nat, page: nat, got: Option<nat>)
    requires Inv(m) && pid in m.spaces && Given(m, got)
    ensures Inv(Resolved(m, pid, page, got).0) && pid in Resolved(m, pid, page, got).0.spaces
    ensures Resolved(m, pid, page, got).1 ==> Stores(Resolved(m, pid, page, got).0, pid, page)
  {
    hide Owners, Exact, Accounted, WritersAlone, OnePageEach;
    var s := m.spaces[pid];
    if page in s.table && s.table[page].cow && s.table[page].user {
      if m.counts[s.table[page].frame] <= 1 {
        LiftKeeps(m, pid, page);
      } else if got.Some? {
        CopyKeeps(m, pid, page, got.value);
      }
    }
  }

  lemma StoreKeeps(m: State, pid: nat, page: nat, off: nat, value: nat)
    requires Inv(m) && pid in m.spaces && Stores(m, pid, page) && off < PAGE_SIZE
    ensures Inv(Store(m, pid, page, off, value))
  {
    hide Injective, Owners;
    var n := Store(m, pid, page, off, value);
    forall g | g in n.frames ensures CountExact(n, g) && Placed(n, g) {
      assert Placed(m, g) && CountExact(m, g);
    }
    forall q, p ensures Alone(n, q, p) {
      assert Alone(m, q, p);
    }
    forall q | q in n.spaces ensures SpaceOk(n.frames, n.spaces[q]) {
      assert SpaceOk(m.frames, m.spaces[q]);
    }
  }

  lemma WriteKeeps(m: State, pid: nat, page: nat, off: nat, value: nat, got: Option<nat>)
    requires Inv(m) && pid in m.spaces && off < PAGE_SIZE && Given(m, got)
    ensures Inv(Written(m, pid, page, off, value, got).0)
  {
    hide Owners, Resolved, Exact, Accounted, WritersAlone, Store, OnePageEach;
    if Stores(m, pid, page) {
      StoreKeeps(m, pid, page, off, value);
    } else {
      ResolveKeeps(m, pid, page, got);
      var r := Resolved(m, pid, page, got);
      if r.1 {
        StoreKeeps(r.0, pid, page, off, value);
      }
    }
  }

  /** No frame would have more owners than its 8-bit count can say. */
  ghost predicate Roomy(m: State, parent: nat)
    requires parent in m.spaces
  {
    forall f :: f in m.counts ==> m.counts[f] + |PagesOf(m.spaces[parent].mapped, f)| <= MAX_COUNT
  }

  lemma ForkOwners(m: State, parent: nat, child: nat, f: nat)
    requires Shape(m) && parent in m.spaces && child !in m.spaces
    ensures Owners(Forked(m, parent, child).spaces, f) ==
            Owners(m.spaces, f) + Records(child, m.spaces[parent].mapped, f)
    ensures |Owners(Forked(m, parent, child).spaces, f)| ==
            |Owners(m.spaces, f)| + |PagesOf(m.spaces[parent].mapped, f)|
    ensures Owners(m.spaces, f) == {} ==> Records(child, m.spaces[parent].mapped, f) == {}
  {
    hide Owners;
    var n := Forked(m, parent, child);
    var mid := m.spaces[parent := n.spaces[parent]];
    OwnersSame(m.spaces, mid, f);
    OwnersAdd(mid, child, n.spaces[child], f);
    forall p: nat | (child, p) in Records(child, m.spaces[parent].mapped, f)
      ensures (parent, p) in Owners(m.spaces, f)
    {
      InOwners(m.spaces, f, parent, p);
    }
  }

  lemma ForkCount(m: State, parent: nat, child: nat, f: nat)
    requires Shape(m) && CountExact(m, f) && parent in m.spaces && child !in m.spaces && f in m.counts
    ensures CountExact(Forked(m, parent, child), f) <==>
            m.counts[f] + |PagesOf(m.spaces[parent].mapped, f)| <= MAX_COUNT
  {
    hide Owners, ReadOnly, PagesOf;
    ForkOwners(m, parent, child, f);
  }

  /** Fork leaves exact counts if and only if no count has to go past 255. */
  lemma ForkExact(m: State, parent: nat, child: nat)
    requires Shape(m) && Exact(m) && parent in m.spaces && child !in m.spaces
    ensures Exact(Forked(m, parent, child)) <==> Roomy(m, parent)
  {
    hide Owners, ReadOnly, PagesOf, CountExact;
    var n := Forked(m, parent, child);
    assert n.counts.Keys == m.counts.Keys;
    forall f | f in m.counts ensures
      CountExact(n, f) <==> m.counts[f] + |PagesOf(m.spaces[parent].mapped, f)| <= MAX_COUNT
    {
      ForkCount(m, parent, child, f);
    }
  }

  lemma ForkShape(m: State, parent: nat, child: nat)
    requires Shape(m) && parent in m.spaces && child !in m.spaces
    ensures Shape(Forked(m, parent, child))
  {
    var n := Forked(m, parent, child);
    forall q | q in n.spaces ensures SpaceOk(n.frames, n.spaces[q]) {
      assert SpaceOk(m.frames, m.spaces[if q == child then parent else q]);
    }
  }

  lemma ForkKeeps(m: State, parent: nat, child: nat)
    requires Inv(m) && parent in m.spaces && child !in m.spaces && Roomy(m, parent)
    ensures Inv(Forked(m, parent, child))
  {
    hide Injective, Owners, Exact;
    var n := Forked(m, parent, child);
    var s := m.spaces[parent];
    ForkExact(m, parent, child);
    ForkShape(m, parent, child);
    forall f | f in n.frames ensures Placed(n, f) {
      ForkOwners(m, parent, child, f);
      assert Placed(m, f);
    }
    forall q, p ensures Alone(n, q, p) {
      if q in n.spaces && p in n.spaces[q].table && Stores(n, q, p) {
        ForkAlone(m, parent, child, q, p);
      }
    }
  }

  /** After a fork only the pages of third parties are still writable. */
  lemma ForkAlone(m: State, parent: nat, child: nat, q: nat, p: nat)
    requires Shape(m) && WritersAlone(m) && parent in m.spaces && child !in m.spaces
    requires q in Forked(m, parent, child).spaces && Stores(Forked(m, parent, child), q, p)
    ensures q != parent && q != child
    ensures Alone(Forked(m, parent, child), q, p)
  {
    hide Owners;
    var n := Forked(m, parent, child);
    assert Alone(m, q, p);
    var f := m.spaces[q].table[p].frame;
    ForkOwners(m, parent, child, f);
    forall p': nat | (child, p') in Records(child, m.spaces[parent].mapped, f)
      ensures (parent, p') in Owners(m.spaces, f)
    {
      InOwners(m.spaces, f, parent, p');
    }
  }

  /** The frames whose last owner goes are released, and no others. */
  lemma DestroyFrees(m: State, pid: nat, f: nat)
    requires Inv(m) && pid in m.spaces && f in m.frames
    ensures f in Destroyed(m, pid).free <==>
            f in m.free || (Owners(m.spaces, f) != {} && Owners(Destroyed(m, pid).spaces, f) == {})
    ensures CountExact(Destroyed(m, pid), f) && Placed(Destroyed(m, pid), f)
  {
    hide Owners;
    var s := m.spaces[pid];
    assert CountExact(m, f) && Placed(m, f);
    OwnersRemove(m.spaces, pid, f);
    Freed(m, pid, f);
    if Owners(m.spaces, f) != {} && Owners(m.spaces - {pid}, f) == {} {
      assert PagesOf(s.mapped, f) != {};
    }
    if Records(pid, s.mapped, f) != {} {
      assert Owners(m.spaces, f) != {};
    }
  }

  lemma Freed(m: State, pid: nat, f: nat)
    requires Shape(m) && pid in m.spaces && f in m.frames
    ensures f in Destroyed(m, pid).free <==>
            f in m.free || (|PagesOf(m.spaces[pid].mapped, f)| > 0 && m.counts[f] <= |PagesOf(m.spaces[pid].mapped, f)|)
  {
    var s := m.spaces[pid];
    var pages := PagesOf(s.mapped, f);
    var freed := set p | p in s.mapped && m.counts[s.mapped[p]] <= |PagesOf(s.mapped, s.mapped[p])| :: s.mapped[p];
    assert Destroyed(m, pid).free == m.free + freed;
    if f in freed {
      var p :| p in s.mapped && s.mapped[p] == f;
      assert p in pages;
    }
    if p :| p in pages {
      assert s.mapped[p] == f;
    }
  }

  lemma DestroyAlone(m: State, pid: nat, q: nat, p: nat)
    requires Inv(m) && pid in m.spaces
    ensures Alone(Destroyed(m, pid), q, p)
  {
    hide Owners, Exact, Accounted;
    var n := Destroyed(m, pid);
    if q in n.spaces && p in n.spaces[q].table && Stores(n, q, p) {
      var f := n.spaces[q].table[p].frame;
      OwnersRemove(m.spaces, pid, f);
      assert SpaceOk(m.frames, m.spaces[q]);
      InOwners(n.spaces, f, q, p);
      assert Alone(m, q, p);
    }
  }

  lemma DestroyShape(m: State, pid: nat)
    requires Shape(m) && pid in m.spaces
    ensures Shape(Destroyed(m, pid))
    ensures Destroyed(m, pid).frames == m.frames && Destroyed(m, pid).other == m.other
    ensures Destroyed(m, pid).spaces == m.spaces - {pid}
    ensures forall f :: f in Destroyed(m, pid).free ==> f in m.free || f in m.frames
  {
    var n := Destroyed(m, pid);
    forall q | q in n.spaces ensures SpaceOk(n.frames, n.spaces[q]) {
      assert SpaceOk(m.frames, m.spaces[q]);
    }
    assert SpaceOk(m.frames, m.spaces[pid]);
  }

  lemma DestroyKeeps(m: State, pid: nat)
    requires Inv(m) && pid in m.spaces
    ensures Inv(Destroyed(m, pid))
  {
    hide Injective, Owners, CountExact, Alone, Destroyed;
    DestroyShape(m, pid);
    var n := Destroyed(m, pid);
    forall f | f in n.frames ensures CountExact(n, f) && Placed(n, f) && !(f in n.free && f in n.other) {
      DestroyFrees(m, pid, f);
      assert Placed(m, f);
    }
    forall q, p ensures Alone(n, q, p) {
      DestroyAlone(m, pid, q, p);
    }
  }
}
