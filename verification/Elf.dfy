/**
 The ELF64 loader of kernel/src/fs/elf.rs: header checks, then one pass over the program headers
 that maps and fills each PT_LOAD segment.  The memory it leaves behind is given byte by byte.
 */
module Elf {
  import opened Options
  import opened Memory
  import opened AddressSpaces

  datatype Error =
    | Truncated | BadMagic | NotElf64 | NotLittleEndian | NotX86_64 | BadType | BadEntrySize | HeadersOutside
    | FileSizeTooBig | SegmentOutside | NoEntry | BadAddress | OutOfMemory

  datatype Result<T> = Ok(value: T) | Err(error: Error)

  datatype LoadedElf = LoadedElf(entry: nat, highest: nat)

  const EHDR_SIZE: nat := 64
  const PHDR_SIZE: nat := 56
  const PT_LOAD: nat := 1
  const USER_END: nat := 0x8000_0000_0000

  function Little(b: seq<nat>, off: nat, n: nat): nat
    requires off + n <= |b|
    decreases n
  {
    if n == 0 then 0 else b[off] + 256 * Little(b, off + 1, n - 1)
  }

  datatype Phdr = Phdr(kind: nat, flags: nat, offset: nat, vaddr: nat, filesz: nat, memsz: nat)

  function ReadPhdr(bin: seq<nat>, off: nat): Phdr
    requires off + PHDR_SIZE <= |bin|
  {
    Phdr(Little(bin, off, 4), Little(bin, off + 4, 4), Little(bin, off + 8, 8), Little(bin, off + 16, 8),
         Little(bin, off + 32, 8), Little(bin, off + 40, 8))
  }

  predicate Writable(ph: Phdr) { ph.flags / 2 % 2 == 1 }

  /** The checks on the file header, in order; on success the place and the number of the program headers. */
  function CheckHeader(bin: seq<nat>): (r: Result<(nat, nat)>)
    ensures r.Ok? ==> |bin| >= EHDR_SIZE && r.value.0 + PHDR_SIZE * r.value.1 <= |bin|
  {
    if |bin| < EHDR_SIZE then Err(Truncated)
    else if bin[0] != 0x7f || bin[1] != 0x45 || bin[2] != 0x4c || bin[3] != 0x46 then Err(BadMagic)
    else if bin[4] != 2 then Err(NotElf64)
    else if bin[5] != 1 then Err(NotLittleEndian)
    else if Little(bin, 18, 2) != 62 then Err(NotX86_64)
    else if Little(bin, 16, 2) != 2 && Little(bin, 16, 2) != 3 then Err(BadType)
    else if Little(bin, 54, 2) != PHDR_SIZE then Err(BadEntrySize)
    else if Little(bin, 32, 8) + PHDR_SIZE * Little(bin, 56, 2) > |bin| then Err(HeadersOutside)
    else Ok((Little(bin, 32, 8), Little(bin, 56, 2)))
  }

  /** Program header number `i`. */
  function HeaderAt(bin: seq<nat>, at: nat, count: nat, i: nat): Phdr
    requires at + PHDR_SIZE * count <= |bin| && i < count
  {
    ReadPhdr(bin, at + PHDR_SIZE * i)
  }

  /** What is wrong with one program header, if anything. */
  function CheckSegment(bin: seq<nat>, ph: Phdr): (r: Option<Error>)
  {
    if ph.kind != PT_LOAD then None
    else if ph.filesz > ph.memsz then Some(FileSizeTooBig)
    else if ph.memsz == 0 then None
    else if ph.vaddr + ph.memsz > USER_END then Some(BadAddress)
    else if 0 < ph.filesz && ph.offset + ph.filesz > |bin| then Some(SegmentOutside)
    else None
  }

  predicate Loaded(ph: Phdr) { ph.kind == PT_LOAD && ph.memsz > 0 }

  /** The loadable segments among the first `n` program headers. */
  function Segments(bin: seq<nat>, at: nat, count: nat, n: nat): (segs: seq<Phdr>)
    requires at + PHDR_SIZE * count <= |bin| && n <= count
    ensures forall k :: 0 <= k < |segs| ==> Loaded(segs[k])
  {
    if n == 0 then []
    else
      var ph := HeaderAt(bin, at, count, n - 1);
      Segments(bin, at, count, n - 1) + (if Loaded(ph) then [ph] else [])
  }

  function Highest(segs: seq<Phdr>): nat {
    if segs == [] then 0
    else
      var h := Highest(segs[..|segs| - 1]);
      var end := segs[|segs| - 1].vaddr + segs[|segs| - 1].memsz;
      if end > h then end else h
  }

  // ---------------------------------------------------------------------------
  // The memory image
  // ---------------------------------------------------------------------------

  ghost predicate Fits(bin: seq<nat>, segs: seq<Phdr>) {
    forall k :: 0 <= k < |segs| ==>
      segs[k].filesz <= segs[k].memsz && (0 < segs[k].filesz ==> segs[k].offset + segs[k].filesz <= |bin|)
  }

  /** The file part of a segment over what was there before, in pages that start as zeros. */
  ghost function Over(bin: seq<nat>, ph: Phdr, was: Option<nat>, a: nat): Option<nat>
    requires 0 < ph.filesz ==> ph.offset + ph.filesz <= |bin|
  {
    if ph.vaddr <= a < ph.vaddr + ph.filesz then Some(bin[ph.offset + (a - ph.vaddr)])
    else if was == None && Touched(ph.vaddr, ph.memsz, a) then Some(0)
    else was
  }

  /** The byte at every address after the segments are laid down in order over what the process saw before. */
  ghost function Image(m: State, pid: nat, bin: seq<nat>, segs: seq<Phdr>, a: nat): Option<nat>
    requires Shape(m) && pid in m.spaces && Fits(bin, segs)
    decreases |segs|
  {
    if segs == [] then Seen(m, pid, a)
    else Over(bin, segs[|segs| - 1], Image(m, pid, bin, segs[..|segs| - 1], a), a)
  }

  /** The rights of every page: those of the first segment that touches it, unless it had some before. */
  ghost function RightsAfter(m: State, pid: nat, segs: seq<Phdr>, page: nat): Option<Rights>
    requires pid in m.spaces
  {
    if segs == [] then RightsAt(m, pid, page)
    else RightsOver(segs[|segs| - 1], RightsAfter(m, pid, segs[..|segs| - 1], page), page)
  }

  function RightsOver(ph: Phdr, was: Option<Rights>, page: nat): Option<Rights> {
    if was == None && TouchesPage(ph.vaddr, ph.memsz, page) then Some(Rights(true, Writable(ph))) else was
  }

  ghost predicate Empty(m: State, pid: nat) {
    pid in m.spaces && m.spaces[pid] == Space(map[], map[])
  }

  /** Two segments have no address in common. */
  ghost predicate Apart(x: Phdr, y: Phdr) {
    x.vaddr + x.memsz <= y.vaddr || y.vaddr + y.memsz <= x.vaddr
  }

  ghost predicate AllApart(segs: seq<Phdr>) {
    forall j, k :: 0 <= j < k < |segs| ==> Apart(segs[j], segs[k])
  }

  /**
   Fidelity: when no two segments overlap, in a fresh address space every address of every segment
   holds its file byte or zero, whatever pages the segments share or cross.
   */
  lemma {:induction false} Faithful(m: State, pid: nat, bin: seq<nat>, segs: seq<Phdr>, k: nat, i: nat)
    requires Shape(m) && Empty(m, pid)
    requires Fits(bin, segs) && AllApart(segs) && k < |segs| && i < segs[k].memsz
    ensures Image(m, pid, bin, segs, segs[k].vaddr + i) ==
            Some(if i < segs[k].filesz then bin[segs[k].offset + i] else 0)
    decreases |segs|
  {
    hide Shape, Touched;
    var last := |segs| - 1;
    var a := segs[k].vaddr + i;
    if k < last {
      assert segs[..last][k] == segs[k];
      Faithful(m, pid, bin, segs[..last], k, i);
      assert Apart(segs[k], segs[last]);
    } else {
      InTouched(segs[k], i);
      if segs[k].filesz <= i {
        Untouched(m, pid, bin, segs[..last], segs[k], a);
      }
    }
  }

  lemma InTouched(ph: Phdr, i: nat)
    requires i < ph.memsz
    ensures Touched(ph.vaddr, ph.memsz, ph.vaddr + i)
  {
  }

  /** Outside the file parts of all segments there are only zeros. */
  lemma {:induction false} Untouched(m: State, pid: nat, bin: seq<nat>, segs: seq<Phdr>, ph: Phdr, a: nat)
    requires Shape(m) && Empty(m, pid)
    requires Fits(bin, segs) && ph.vaddr <= a < ph.vaddr + ph.memsz
    requires forall j :: 0 <= j < |segs| ==> Apart(segs[j], ph)
    ensures Image(m, pid, bin, segs, a) == None || Image(m, pid, bin, segs, a) == Some(0)
    decreases |segs|
  {
    hide Shape, Touched;
    if segs != [] {
      var last := |segs| - 1;
      assert Apart(segs[last], ph);
      Untouched(m, pid, bin, segs[..last], ph, a);
    }
  }

  /** Exactly the pages of the segments are mapped, besides those that were. */
  lemma {:induction false} MappedExactly(m: State, pid: nat, bin: seq<nat>, segs: seq<Phdr>, a: nat)
    requires Shape(m) && pid in m.spaces && Fits(bin, segs)
    ensures Image(m, pid, bin, segs, a) != None <==>
            Seen(m, pid, a) != None || exists k :: 0 <= k < |segs| && Touched(segs[k].vaddr, segs[k].memsz, a)
    decreases |segs|
  {
    hide Shape, Touched, Seen;
    if segs != [] {
      var last := |segs| - 1;
      MappedExactly(m, pid, bin, segs[..last], a);
      assert forall k :: 0 <= k < last ==> segs[..last][k] == segs[k];
      if segs[last].vaddr <= a < segs[last].vaddr + segs[last].filesz {
        InTouched(segs[last], a - segs[last].vaddr);
      }
    }
  }

  // ---------------------------------------------------------------------------
  // The loader
  // ---------------------------------------------------------------------------

  /** The verdict on the whole file when memory does not run out. */
  function Verdict(bin: seq<nat>): Result<LoadedElf> {
    match CheckHeader(bin)
    case Err(e) => Err(e)
    case Ok((at, count)) =>
      match FirstBad(bin, at, count, count)
      case Some(e) => Err(e)
      case None =>
        if Little(bin, 24, 8) == 0 then Err(NoEntry)
        else Ok(LoadedElf(Little(bin, 24, 8), Highest(Segments(bin, at, count, count))))
  }

  /** The error of the first bad program header among the first `n`. */
  function FirstBad(bin: seq<nat>, at: nat, count: nat, n: nat): Option<Error>
    requires at + PHDR_SIZE * count <= |bin| && n <= count
  {
    if n == 0 then None
    else
      var before := FirstBad(bin, at, count, n - 1);
      if before.Some? then before else CheckSegment(bin, HeaderAt(bin, at, count, n - 1))
  }

  lemma {:induction false} GoodFits(bin: seq<nat>, at: nat, count: nat, n: nat)
    requires at + PHDR_SIZE * count <= |bin| && n <= count
    requires FirstBad(bin, at, count, n) == None
    ensures Fits(bin, Segments(bin, at, count, n))
    ensures n > 0 && Loaded(HeaderAt(bin, at, count, n - 1)) && HeaderAt(bin, at, count, n - 1).filesz > 0 ==>
              HeaderAt(bin, at, count, n - 1).offset + HeaderAt(bin, at, count, n - 1).filesz <= |bin|
  {
    hide HeaderAt;
    if n > 0 {
      GoodFits(bin, at, count, n - 1);
    }
  }

  lemma {:induction false} BadStays(bin: seq<nat>, at: nat, count: nat, i: nat, n: nat)
    requires at + PHDR_SIZE * count <= |bin| && i <= n <= count
    requires FirstBad(bin, at, count, i).Some?
    ensures FirstBad(bin, at, count, n) == FirstBad(bin, at, count, i)
    decreases n - i
  {
    hide HeaderAt, CheckSegment;
    if i < n {
      BadStays(bin, at, count, i, n - 1);
    }
  }

  lemma NoSegments(m: State, pid: nat, bin: seq<nat>, at: nat, count: nat)
    requires Shape(m) && pid in m.spaces && at + PHDR_SIZE * count <= |bin|
    ensures Highest(Segments(bin, at, count, 0)) == 0 && Fits(bin, Segments(bin, at, count, 0))
    ensures forall a: nat :: Image(m, pid, bin, Segments(bin, at, count, 0), a) == Seen(m, pid, a)
    ensures forall p: nat :: RightsAfter(m, pid, Segments(bin, at, count, 0), p) == RightsAt(m, pid, p)
  {
  }

  /** One more program header. */
  lemma OneMore(m: State, pid: nat, bin: seq<nat>, at: nat, count: nat, i: nat)
    requires Shape(m) && pid in m.spaces && at + PHDR_SIZE * count <= |bin| && i < count
    requires Fits(bin, Segments(bin, at, count, i)) && Fits(bin, Segments(bin, at, count, i + 1))
    requires Loaded(HeaderAt(bin, at, count, i)) && HeaderAt(bin, at, count, i).filesz > 0 ==>
               HeaderAt(bin, at, count, i).offset + HeaderAt(bin, at, count, i).filesz <= |bin|
    ensures var ph := HeaderAt(bin, at, count, i);
            Highest(Segments(bin, at, count, i + 1)) ==
            var h := Highest(Segments(bin, at, count, i));
            if Loaded(ph) && ph.vaddr + ph.memsz > h then ph.vaddr + ph.memsz else h
    ensures var ph := HeaderAt(bin, at, count, i);
            forall a: nat :: Image(m, pid, bin, Segments(bin, at, count, i + 1), a) ==
              if Loaded(ph) then Over(bin, ph, Image(m, pid, bin, Segments(bin, at, count, i), a), a)
              else Image(m, pid, bin, Segments(bin, at, count, i), a)
    ensures var ph := HeaderAt(bin, at, count, i);
            forall p: nat :: RightsAfter(m, pid, Segments(bin, at, count, i + 1), p) ==
              if Loaded(ph) then RightsOver(ph, RightsAfter(m, pid, Segments(bin, at, count, i), p), p)
              else RightsAfter(m, pid, Segments(bin, at, count, i), p)
  {
    hide HeaderAt, Over, Fits, Shape, Seen, RightsOver, RightsAt;
    var ph := HeaderAt(bin, at, count, i);
    var before := Segments(bin, at, count, i);
    if Loaded(ph) {
      assert Segments(bin, at, count, i + 1) == before + [ph];
      assert (before + [ph])[..|before|] == before;
    } else {
      assert Segments(bin, at, count, i + 1) == before;
    }
  }

  /** `load`: its image, and whether the other processes are left alone. */
  method Load(k: Kernel, pid: nat, bin: seq<nat>) returns (r: Result<LoadedElf>)
    requires k.Valid() && Inv(k.Abs()) && pid in k.spaces
    modifies k, k.refcount
    ensures k.Valid() && Inv(k.Abs()) && pid in k.spaces && Beside(old(k.Abs()), k.Abs(), pid)
    ensures r == Verdict(bin) || (r == Err(OutOfMemory) && k.free == {})
    ensures r.Ok? ==>
              var (at, count) := CheckHeader(bin).value;
              var segs := Segments(bin, at, count, count);
              && Fits(bin, segs) && (forall a: nat :: Seen(k.Abs(), pid, a) == Image(old(k.Abs()), pid, bin, segs, a))
              && (forall p: nat :: RightsAt(k.Abs(), pid, p) == RightsAfter(old(k.Abs()), pid, segs, p))
  {
    hide Inv, Shape, Seen, Beside, HeaderAt, CheckSegment, CheckHeader, Over, Image, Segments, Highest, Fits, RightsAt, RightsOver, RightsAfter;
    var header := CheckHeader(bin);
    if header.Err? {
      BesideSelf(k.Abs(), pid);
      return Err(header.error);
    }
    var (at, count) := header.value;
    ghost var m := k.Abs();
    NoSegments(m, pid, bin, at, count);
    BesideSelf(m, pid);
    var highest, i := 0, 0;
    while i < count
      invariant i <= count
      invariant k.Valid() && Inv(k.Abs()) && pid in k.spaces && Beside(m, k.Abs(), pid)
      invariant FirstBad(bin, at, count, i) == None && Fits(bin, Segments(bin, at, count, i))
      invariant highest == Highest(Segments(bin, at, count, i))
      invariant forall a: nat :: Seen(k.Abs(), pid, a) == Image(m, pid, bin, Segments(bin, at, count, i), a)
      invariant forall p: nat :: RightsAt(k.Abs(), pid, p) == RightsAfter(m, pid, Segments(bin, at, count, i), p)
    {
      var ph := HeaderAt(bin, at, count, i);
      ghost var now := k.Abs();
      var bad := LoadSegment(k, pid, bin, ph);
      BesideThen(m, now, k.Abs(), pid);
      if bad.Some? {
        if FirstBad(bin, at, count, i + 1).Some? {
          BadStays(bin, at, count, i + 1, count);
        }
        return Err(bad.value);
      }
      if Loaded(ph) {
        var end := ph.vaddr + ph.memsz;
        highest := if end > highest then end else highest;
      }
      GoodFits(bin, at, count, i + 1);
      OneMore(m, pid, bin, at, count, i);
      i := i + 1;
    }
    if Little(bin, 24, 8) == 0 {
      return Err(NoEntry);
    }
    return Ok(LoadedElf(Little(bin, 24, 8), highest));
  }

  /** The body of the loop of `load`. */
  method LoadSegment(k: Kernel, pid: nat, bin: seq<nat>, ph: Phdr) returns (bad: Option<Error>)
    requires k.Valid() && Inv(k.Abs()) && pid in k.spaces
    modifies k, k.refcount
    ensures k.Valid() && Inv(k.Abs()) && pid in k.spaces && Beside(old(k.Abs()), k.Abs(), pid)
    ensures bad == CheckSegment(bin, ph) || (bad == Some(OutOfMemory) && k.free == {})
    ensures bad == None && !Loaded(ph) ==> k.Abs() == old(k.Abs())
    ensures bad == None && Loaded(ph) ==>
              && (forall a: nat :: Seen(k.Abs(), pid, a) == Over(bin, ph, Seen(old(k.Abs()), pid, a), a))
              && (forall p: nat :: RightsAt(k.Abs(), pid, p) == RightsOver(ph, RightsAt(old(k.Abs()), pid, p), p))
  {
    hide Inv, Shape, Seen, Beside, RightsAt, TouchesPage;
    ghost var m := k.Abs();
    BesideSelf(m, pid);
    if ph.kind != PT_LOAD {
      return None;
    }
    if ph.filesz > ph.memsz {
      return Some(FileSizeTooBig);
    }
    if ph.memsz == 0 {
      return None;
    }
    if ph.vaddr + ph.memsz > USER_END {
      return Some(BadAddress);
    }
    var ok := k.EnsureMapped(pid, ph.vaddr, ph.memsz, Writable(ph));
    if !ok {
      return Some(OutOfMemory);
    }
    if ph.filesz > 0 {
      if ph.offset + ph.filesz > |bin| {
        return Some(SegmentOutside);
      }
      ghost var mid := k.Abs();
      ok := k.WriteData(pid, ph.vaddr, bin[ph.offset..ph.offset + ph.filesz], Writable(ph));
      BesideThen(m, mid, k.Abs(), pid);
      if !ok {
        return Some(OutOfMemory);
      }
      forall a: nat ensures Spans(ph.vaddr, ph.filesz, a) ==> Touched(ph.vaddr, ph.memsz, a) {
        SpanTouched(ph, a);
      }
      forall p: nat ensures SpansPage(ph.vaddr, ph.filesz, p) ==> TouchesPage(ph.vaddr, ph.memsz, p) {
        SpanInTouched(ph, p);
      }
    }
    return None;
  }

  lemma SpanTouched(ph: Phdr, a: nat)
    requires 0 < ph.filesz <= ph.memsz
    ensures Spans(ph.vaddr, ph.filesz, a) ==> Touched(ph.vaddr, ph.memsz, a)
  {
  }

  lemma SpanInTouched(ph: Phdr, p: nat)
    requires ph.filesz <= ph.memsz
    ensures SpansPage(ph.vaddr, ph.filesz, p) ==> TouchesPage(ph.vaddr, ph.memsz, p)
  {
  }

  /** The page at the bottom of a stack of some pages below `top`. */
  ghost function Bottom(top: nat, pages: nat): nat
    requires pages * PAGE_SIZE <= top
  {
    (top - pages * PAGE_SIZE) / PAGE_SIZE
  }

  /** The addresses of n pages. */
  ghost predicate Within(first: nat, n: nat, a: nat) {
    first <= a / PAGE_SIZE < first + n
  }

  /** Memory after n stack pages have been mapped at unused addresses. */
  ghost predicate Stacked(m: State, made: State, pid: nat, first: nat, n: nat)
    requires Shape(m) && Shape(made) && pid in m.spaces && pid in made.spaces
  {
    && |made.free| + n == |m.free|
    && (forall a: nat :: Seen(made, pid, a) == if Within(first, n, a) then Some(0) else Seen(m, pid, a))
    && (forall a: nat :: Within(first, n, a) ==> Seen(m, pid, a) == None)
  }

  /** A failed `map_alloc`: no frame was left, or the page was taken and the frame is lost. */
  ghost predicate Refused(m: State, n: State, pid: nat, page: nat)
    requires Shape(m) && pid in m.spaces
  {
    || (m.free == {} && n == m)
    || (page in m.spaces[pid].mapped && exists f :: f in m.free && n == Lost(m, f))
  }

  /** A zeroed frame with one owner that no space maps. */
  function Lost(m: State, f: nat): State {
    m.(frames := m.frames[f := Zeros()], free := m.free - {f}, counts := m.counts[f := 1])
  }

  /** `map_user_stack`: zeroed writable pages below `top`; a failure keeps the n pages made before it. */
  method MapUserStack(k: Kernel, pid: nat, top: nat, pages: nat)
    returns (sp: Option<nat>, ghost made: State, ghost n: nat)
    requires k.Valid() && Inv(k.Abs()) && pid in k.spaces
    requires pages * PAGE_SIZE <= top && 16 <= top
    modifies k, k.refcount
    ensures k.Valid() && pid in k.spaces
    ensures Inv(made) && pid in made.spaces && Beside(old(k.Abs()), made, pid)
    ensures n <= pages && Stacked(old(k.Abs()), made, pid, Bottom(top, pages), n)
    ensures sp.Some? ==> sp.value == top - 16 && n == pages && k.Abs() == made
    ensures sp == None ==> n < pages && Refused(made, k.Abs(), pid, Bottom(top, pages) + n)
    ensures sp.Some? <==> pages <= |old(k.free)|
                          && forall a: nat :: Within(Bottom(top, pages), pages, a) ==> Seen(old(k.Abs()), pid, a) == None
  {
    hide Inv, Shape, Seen, Beside, Mapped, Allocated, Refused, Stacked;
    ghost var m := k.Abs();
    var base := top - pages * PAGE_SIZE;
    ghost var first := Bottom(top, pages);
    made, n := m, 0;
    NothingStacked(m, pid, first);
    for i := 0 to pages
      invariant k.Valid() && Inv(k.Abs()) && pid in k.spaces && Beside(m, k.Abs(), pid)
      invariant made == k.Abs() && n == i && Stacked(m, made, pid, first, n)
    {
      var addr := base + i * PAGE_SIZE;
      assert addr / PAGE_SIZE == first + i;
      InvShape(made);
      var ok;
      ghost var got;
      ok, got := k.MapAlloc(pid, addr / PAGE_SIZE, true, true);
      if !ok {
        IsRefused(made, pid, first + i, got);
        Blocked(m, made, k.Abs(), pid, first, pages, n);
        return None, made, n;
      }
      OnlyUnmapped(made, pid, first + i, got);
      FreshPage(made, pid, first + i, true, true, got);
      OneMorePage(m, made, pid, first, n, got);
      BesideThen(m, made, k.Abs(), pid);
      made, n := k.Abs(), i + 1;
    }
    StackedRoom(m, made, pid, first, pages);
    sp := Some(top - 16);
  }

  lemma NothingStacked(m: State, pid: nat, first: nat)
    requires Shape(m) && pid in m.spaces
    ensures Stacked(m, m, pid, first, 0) && Beside(m, m, pid)
  {
  }

  lemma StackedRoom(m: State, made: State, pid: nat, first: nat, n: nat)
    requires Shape(m) && Shape(made) && pid in m.spaces && pid in made.spaces && Stacked(m, made, pid, first, n)
    ensures n <= |m.free| && forall a: nat :: Within(first, n, a) ==> Seen(m, pid, a) == None
  {
  }

  lemma OneMorePage(m: State, made: State, pid: nat, first: nat, n: nat, got: Option<nat>)
    requires Shape(m) && Inv(made) && pid in m.spaces && pid in made.spaces && Stacked(m, made, pid, first, n)
    requires got.Some? && Given(made, got) && first + n !in made.spaces[pid].mapped
    ensures Shape(Mapped(made, pid, first + n, true, true, got).0)
    ensures pid in Mapped(made, pid, first + n, true, true, got).0.spaces
    ensures Stacked(m, Mapped(made, pid, first + n, true, true, got).0, pid, first, n + 1)
  {
    hide Inv, Shape, Seen, Beside, Mapped, Allocated;
    InvShape(made);
    FreshPage(made, pid, first + n, true, true, got);
    InvShape(Mapped(made, pid, first + n, true, true, got).0);
    MappedFree(made, pid, first + n, got);
  }

  lemma MappedFree(m: State, pid: nat, page: nat, got: Option<nat>)
    requires Shape(m) && pid in m.spaces && got.Some? && page !in m.spaces[pid].mapped
    ensures Mapped(m, pid, page, true, true, got).0.free == m.free - {got.value}
  {
  }

  lemma OnlyUnmapped(m: State, pid: nat, page: nat, got: Option<nat>)
    requires Shape(m) && pid in m.spaces && Allocated(m, pid, page, true, true, got).1
    ensures page !in m.spaces[pid].mapped && got.Some?
  {
    SpaceAt(m, pid);
  }

  lemma IsRefused(m: State, pid: nat, page: nat, got: Option<nat>)
    requires Shape(m) && pid in m.spaces && !Allocated(m, pid, page, true, true, got).1
    requires Given(m, got) && (got == None ==> m.free == {})
    ensures Refused(m, Allocated(m, pid, page, true, true, got).0, pid, page)
    ensures pid in Allocated(m, pid, page, true, true, got).0.spaces
  {
    SpaceAt(m, pid);
    if got.Some? {
      assert Allocated(m, pid, page, true, true, got).0 == Lost(m, got.value);
    }
  }

  /** What stopped the stack was there before its first page. */
  lemma Blocked(m: State, made: State, now: State, pid: nat, first: nat, pages: nat, n: nat)
    requires Shape(m) && Shape(made) && pid in m.spaces && pid in made.spaces && n < pages
    requires Stacked(m, made, pid, first, n) && Refused(made, now, pid, first + n)
    ensures |m.free| < pages || exists a: nat :: Within(first, pages, a) && Seen(m, pid, a) != None
  {
    hide Shape;
    if made.free != {} {
      var a := (first + n) * PAGE_SIZE;
      assert Seen(made, pid, a).Some?;
      assert Within(first, pages, a) && !Within(first, n, a);
    }
  }
}
