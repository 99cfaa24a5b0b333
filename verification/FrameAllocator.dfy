/**
 The bitmap of physical frames of kernel/src/memory/frame_allocator.rs, with its `next_free`
 hint, refined to a set of free frames from which the smallest one is taken.
 */
module FrameAllocator {
  import opened Arithmetic
  import opened Options

  const FRAME_SIZE: nat := 4096
  const BITMAP_SIZE: nat := 64 * 1024
  const BITMAP_BITS: nat := BITMAP_SIZE * 8

  // ---------------------------------------------------------------------------
  // Bits of a byte
  // ---------------------------------------------------------------------------

  function Mask(k: nat): bv8
    requires k < 8
  {
    1 << k
  }

  predicate Get(b: bv8, k: nat)
    requires k < 8
  {
    b & Mask(k) != 0
  }

  function Set(b: bv8, k: nat): bv8
    requires k < 8
  {
    b | Mask(k)
  }

  function Clear(b: bv8, k: nat): bv8
    requires k < 8
  {
    b & !Mask(k)
  }

  lemma MaskTable(k: nat)
    requires k < 8
    ensures Mask(k) == if k == 0 then 1 else if k == 1 then 2 else if k == 2 then 4 else if k == 3 then 8
                       else if k == 4 then 16 else if k == 5 then 32 else if k == 6 then 64 else 128
  {
  }

  /** Setting one bit leaves the others alone. */
  lemma SetLaw(b: bv8, k: nat, j: nat)
    requires k < 8 && j < 8
    ensures Get(Set(b, k), j) == (j == k || Get(b, j))
  {
    MaskTable(k);
    MaskTable(j);
  }

  /** Clearing one bit leaves the others alone. */
  lemma ClearLaw(b: bv8, k: nat, j: nat)
    requires k < 8 && j < 8
    ensures Get(Clear(b, k), j) == (j != k && Get(b, j))
  {
    MaskTable(k);
    MaskTable(j);
  }

  ghost predicate Used(bm: array<bv8>, f: nat)
    requires f < bm.Length * 8
    reads bm
  {
    Get(bm[f / 8], f % 8)
  }

  method BitGet(bm: array<bv8>, f: nat) returns (r: bool)
    requires f < bm.Length * 8
    ensures r == Used(bm, f)
  {
    r := Get(bm[f / 8], f % 8);
  }

  method BitSet(bm: array<bv8>, f: nat)
    requires f < bm.Length * 8
    modifies bm
    ensures forall g: nat :: g < bm.Length * 8 ==> Used(bm, g) == (g == f || old(Used(bm, g)))
  {
    hide Get, Set;
    bm[f / 8] := Set(bm[f / 8], f % 8);
    forall g: nat | g < bm.Length * 8 ensures Used(bm, g) == (g == f || old(Used(bm, g))) {
      SetLaw(old(bm[f / 8]), f % 8, g % 8);
    }
  }

  method BitClear(bm: array<bv8>, f: nat)
    requires f < bm.Length * 8
    modifies bm
    ensures forall g: nat :: g < bm.Length * 8 ==> Used(bm, g) == (g != f && old(Used(bm, g)))
  {
    hide Get, Clear;
    bm[f / 8] := Clear(bm[f / 8], f % 8);
    forall g: nat | g < bm.Length * 8 ensures Used(bm, g) == (g != f && old(Used(bm, g))) {
      ClearLaw(old(bm[f / 8]), f % 8, g % 8);
    }
  }

  // ---------------------------------------------------------------------------
  // The reference: a set of free frames
  // ---------------------------------------------------------------------------

  ghost predicate IsLeast(free: set<nat>, f: nat) {
    f in free && forall g :: g in free ==> f <= g
  }

  function AlignUp(addr: nat): nat { (addr + FRAME_SIZE - 1) / FRAME_SIZE * FRAME_SIZE }

  function Min(a: nat, b: nat): nat { if a < b then a else b }

  /** A multiboot memory area. */
  datatype Area = Area(base: nat, length: nat, usable: bool)

  /** The frames that lie entirely inside an area and are covered by the bitmap. */
  ghost predicate InArea(a: Area, f: nat) {
    a.usable && a.base <= f * FRAME_SIZE && (f + 1) * FRAME_SIZE <= a.base + a.length && f < BITMAP_BITS
  }

  ghost predicate InAreas(areas: seq<Area>, f: nat) {
    exists k :: 0 <= k < |areas| && InArea(areas[k], f)
  }

  /** A reserved byte range, such as the kernel image or a module. */
  datatype Range = Range(start: nat, end: nat)

  ghost predicate Touches(r: Range, f: nat) {
    r.start < (f + 1) * FRAME_SIZE && f * FRAME_SIZE < r.end
  }

  ghost predicate Spared(reserved: seq<Range>, f: nat) {
    forall k :: 0 <= k < |reserved| ==> !Touches(reserved[k], f)
  }

  /** The frames nobody holds and the frames handed out so far. */
  datatype Pool = Pool(free: set<nat>, live: set<nat>)

  datatype Op = Take | Give(frame: nat)

  ghost function Least(free: set<nat>): (f: nat)
    requires free != {}
    ensures IsLeast(free, f)
  {
    var x :| x in free;
    if free == {x} then x
    else
      var rest := Least(free - {x});
      assert forall g :: g in free ==> g == x || g in free - {x};
      if x < rest then x else rest
  }

  ghost predicate Allowed(p: Pool, op: Op) {
    op.Give? ==> op.frame in p.live
  }

  ghost function Apply(p: Pool, op: Op): Pool
    requires Allowed(p, op)
  {
    match op
    case Take =>
      if p.free == {} then p else Pool(p.free - {Least(p.free)}, p.live + {Least(p.free)})
    case Give(f) => Pool(p.free + {f}, p.live - {f})
  }

  /** Callers give back only frames they were handed and still hold. */
  ghost predicate Lawful(p: Pool, ops: seq<Op>)
    decreases |ops|
  {
    ops == [] || (Allowed(p, ops[0]) && Lawful(Apply(p, ops[0]), ops[1..]))
  }

  ghost function After(p: Pool, ops: seq<Op>): Pool
    requires Lawful(p, ops)
    decreases |ops|
  {
    if ops == [] then p else After(Apply(p, ops[0]), ops[1..])
  }

  /** No frame is ever lost, duplicated, or both free and held. */
  lemma {:induction false} RunConserves(p: Pool, ops: seq<Op>)
    requires Lawful(p, ops) && p.free !! p.live
    ensures After(p, ops).free !! After(p, ops).live
    ensures After(p, ops).free + After(p, ops).live == p.free + p.live
    ensures |After(p, ops).free| + |After(p, ops).live| == |p.free| + |p.live|
    decreases |ops|
  {
    if ops != [] {
      var q := Apply(p, ops[0]);
      assert q.free + q.live == p.free + p.live;
      RunConserves(q, ops[1..]);
      var z := After(p, ops);
      DisjointSize(p.free, p.live);
      DisjointSize(z.free, z.live);
    }
  }

  lemma DisjointSize(a: set<nat>, b: set<nat>)
    requires a !! b
    ensures |a + b| == |a| + |b|
  {
    assert a + b - b == a;
  }

  lemma OneMore(free: set<nat>, usable: set<nat>, f: nat)
    requires free <= usable && f !in free
    ensures |free + {f}| == |free| + 1
    ensures f in usable ==> |free| + 1 <= |usable|
  {
    if f in usable {
      SubsetSize(free + {f}, usable);
    }
  }

  class BitmapFrameAllocator {
    var bitmap: array<bv8>
    var numFrames: nat
    var nextFree: nat
    var used: nat
    ghost var usable: set<nat>     // the frames the memory map offers

    ghost predicate Shaped()
      reads this
    {
      bitmap.Length == BITMAP_SIZE && numFrames <= BITMAP_BITS
    }

    ghost function Free(): set<nat>
      requires Shaped()
      reads this, bitmap
    {
      set f: nat | f < BITMAP_BITS && !Used(bitmap, f)
    }

    ghost predicate Valid()
      reads this, bitmap
    {
      && Shaped()
      && (forall f :: f in usable ==> f < numFrames)
      && (forall f :: f in Free() ==> nextFree <= f)
      && Free() <= usable
      && used + |Free()| == |usable|
    }

    /**
     `new`: everything is in use, the usable areas are released, and the reserved ranges are
     taken back.
     */
    constructor (areas: seq<Area>, reserved: seq<Range>)
      ensures Valid() && fresh(bitmap)
      ensures usable == set f: nat | f < BITMAP_BITS && InAreas(areas, f)
      ensures Free() == set f | f in usable && Spared(reserved, f)
    {
      bitmap := new bv8[BITMAP_SIZE](_ => 0xff);
      numFrames, nextFree, used := 0, 0, 0;
      usable := {};
      new;
      hide InAreas, Spared;
      AllOnes(bitmap);
      ReleaseAreas(areas);
      usable := set f: nat | f < BITMAP_BITS && InAreas(areas, f);
      assert Free() == usable;
      ReserveRanges(reserved);
    }

    /** The area loop of `new`. */
    method ReleaseAreas(areas: seq<Area>)
      requires Shaped()
      requires forall f: nat :: f < BITMAP_BITS ==> Used(bitmap, f)
      modifies this`numFrames, bitmap
      ensures Shaped()
      ensures forall f: nat :: f < BITMAP_BITS ==> (!Used(bitmap, f) <==> InAreas(areas, f))
      ensures forall f: nat :: f < BITMAP_BITS && !Used(bitmap, f) ==> f < numFrames
    {
      assert forall f: nat :: !InAreas(areas[..0], f);
      for i := 0 to |areas|
        invariant Shaped()
        invariant forall f: nat :: f < BITMAP_BITS ==> (!Used(bitmap, f) <==> InAreas(areas[..i], f))
        invariant forall f: nat :: f < BITMAP_BITS && !Used(bitmap, f) ==> f < numFrames
      {
        ReleaseArea(areas[i]);
        forall f: nat | f < BITMAP_BITS
          ensures InAreas(areas[..i + 1], f) <==> InAreas(areas[..i], f) || InArea(areas[i], f)
        {
          InAreasSnoc(areas, i, f);
        }
      }
      assert areas[..|areas|] == areas;
    }

    /** The calls of `mark_range_used` at the end of `new`. */
    method ReserveRanges(reserved: seq<Range>)
      requires Valid()
      modifies this`used, bitmap
      ensures Valid()
      ensures Free() == set f | f in old(Free()) && Spared(reserved, f)
    {
      hide Touches;
      ghost var free := Free();
      for i := 0 to |reserved|
        invariant Valid()
        invariant forall f :: f in Free() <==> f in free && forall k :: 0 <= k < i ==> !Touches(reserved[k], f)
      {
        MarkRangeUsed(reserved[i]);
      }
    }

    /** One area of that loop. */
    method ReleaseArea(a: Area)
      requires Shaped()
      requires forall f: nat :: f < BITMAP_BITS && !Used(bitmap, f) ==> f < numFrames
      modifies this`numFrames, bitmap
      ensures Shaped()
      ensures forall f: nat :: f < BITMAP_BITS ==> (!Used(bitmap, f) <==> old(!Used(bitmap, f)) || InArea(a, f))
      ensures forall f: nat :: f < BITMAP_BITS && !Used(bitmap, f) ==> f < numFrames
    {
      if !a.usable { return; }
      var first := AlignUp(a.base) / FRAME_SIZE;
      var last := Min((a.base + a.length) / FRAME_SIZE, BITMAP_BITS);
      forall f: nat | f < BITMAP_BITS ensures InArea(a, f) <==> first <= f < last {
        AreaFrames(a, f);
      }
      if first >= BITMAP_BITS { return; }
      var f := first;
      while f < last
        invariant first <= f && Shaped()
        invariant forall g: nat :: g < BITMAP_BITS ==>
                    (!Used(bitmap, g) <==> old(!Used(bitmap, g)) || (first <= g < f && g < last))
        invariant forall g: nat :: g < BITMAP_BITS && !Used(bitmap, g) ==> g < numFrames
      {
        BitClear(bitmap, f);
        numFrames := if numFrames > f + 1 then numFrames else f + 1;
        f := f + 1;
      }
    }

    /** `find_free` and `allocate_frame` */
    method Allocate() returns (r: Option<nat>)
      requires Valid()
      modifies this`nextFree, this`used, bitmap
      ensures Valid()
      ensures old(Free()) == {} ==> r == None && Free() == {} && used == old(used)
      ensures old(Free()) != {} ==> r.Some? && IsLeast(old(Free()), r.value)
                                    && Free() == old(Free()) - {r.value} && used == old(used) + 1
    {
      ghost var free := Free();
      var f := nextFree;
      while f < numFrames
        invariant nextFree == old(nextFree) <= f && used == old(used)
        invariant bitmap == old(bitmap) && unchanged(bitmap)
        invariant forall g :: g in free ==> f <= g
      {
        var taken := BitGet(bitmap, f);
        if !taken {
          assert f in free;
          nextFree := f + 1;
          BitSet(bitmap, f);
          used := used + 1;
          assert Free() == free - {f};
          return Some(f);
        }
        assert f !in free;
        f := f + 1;
      }
      assert free == {};
      r := None;
    }

    /**
     `deallocate_frame`, of any frame the bitmap covers: a frame that is already free is left
     alone, and the books are in order afterwards exactly when the memory map offers the frame.
     */
    method Deallocate(f: nat)
      requires Valid() && f < BITMAP_BITS && (f in usable || 0 < used)
      modifies this`nextFree, this`used, bitmap
      ensures Shaped() && Free() == old(Free()) + {f}
      ensures used == if f in old(Free()) then old(used) else old(used) - 1
      ensures forall g :: g in Free() ==> nextFree <= g
      ensures Valid() <==> f in usable
    {
      hide Used;
      ghost var free := Free();
      var taken := BitGet(bitmap, f);
      if taken {
        assert f !in free;
        OneMore(free, usable, f);
        BitClear(bitmap, f);
        used := used - 1;
        if f < nextFree {
          nextFree := f;
        }
      }
      assert Free() == free + {f};
    }

    /**
     Any run of allocations and lawful deallocations moves the bitmap, its hint and its counter
     as the reference pool moves, and hands out exactly the frames that the pool hands out.
     */
    method Serve(ops: seq<Op>, held: set<nat>) returns (live: set<nat>)
      requires Valid() && held <= usable && held !! Free()
      requires Lawful(Pool(Free(), held), ops)
      modifies this`nextFree, this`used, bitmap
      ensures Valid()
      ensures Pool(Free(), live) == After(Pool(old(Free()), held), ops)
    {
      hide Used;
      live := held;
      ghost var end := After(Pool(Free(), held), ops);
      assert ops[0..] == ops;
      for i := 0 to |ops|
        invariant Valid() && live <= usable && live !! Free()
        invariant Lawful(Pool(Free(), live), ops[i..]) && After(Pool(Free(), live), ops[i..]) == end
      {
        assert ops[i..][1..] == ops[i + 1..];
        live := ServeOne(ops[i], live);
      }
    }

    method ServeOne(op: Op, held: set<nat>) returns (live: set<nat>)
      requires Valid() && held <= usable && held !! Free()
      requires Allowed(Pool(Free(), held), op)
      modifies this`nextFree, this`used, bitmap
      ensures Valid() && live <= usable && live !! Free()
      ensures Pool(Free(), live) == Apply(Pool(old(Free()), held), op)
    {
      hide Used;
      live := held;
      match op {
        case Take =>
          var r := Allocate();
          if r.Some? {
            live := live + {r.value};
          }
        case Give(f) =>
          Deallocate(f);
          live := live - {f};
      }
    }

    /** `mark_range_used` */
    method MarkRangeUsed(r: Range)
      requires Valid()
      modifies this`used, bitmap
      ensures Valid()
      ensures forall f :: f in Free() <==> f in old(Free()) && !Touches(r, f)
    {
      hide Used, Touches;
      var first := r.start / FRAME_SIZE;
      var last := Min(AlignUp(r.end) / FRAME_SIZE, BITMAP_BITS);
      ghost var free := Free();
      var f := first;
      while f < last
        invariant first <= f && Valid()
        invariant forall g :: g in Free() <==> g in free && !(first <= g < f && g < last)
      {
        MarkUsed(f);
        f := f + 1;
      }
      forall g | g in free ensures Touches(r, g) <==> first <= g < last {
        RangeFrames(r, g);
      }
    }

    /** The loop body of `mark_range_used`. */
    method MarkUsed(f: nat)
      requires Valid() && f < BITMAP_BITS
      modifies this`used, bitmap
      ensures Valid() && Free() == old(Free()) - {f}
    {
      hide Used;
      ghost var free := Free();
      var taken := BitGet(bitmap, f);
      if !taken {
        assert f in free;
        BitSet(bitmap, f);
        used := used + 1;
        assert Free() == free - {f};
        assert |free - {f}| == |free| - 1;
      } else {
        assert free - {f} == free;
      }
    }
  }

  /**
   With two usable frames, one of them handed out, giving back a frame that the memory map does
   not offer puts the books out of order: three frames are free or used where there are two.
   */
  method StrayFrame() returns (a: BitmapFrameAllocator)
    ensures a.Shaped() && !a.Valid() && a.usable == {0, 1} && a.used == 0 && a.Free() == {1, 5}
  {
    hide Used, InAreas, Spared;
    a := new BitmapFrameAllocator([Area(0, 2 * FRAME_SIZE, true)], []);
    TwoFrames();
    assert a.usable == {0, 1} && a.Free() == {0, 1};
    var r := a.Allocate();
    LeastOfTwo(r);
    assert a.Free() == {1} && a.used == 1;
    a.Deallocate(5);
  }

  lemma LeastOfTwo(r: Option<nat>)
    ensures r.Some? && IsLeast({0, 1}, r.value) ==> r.value == 0
  {
  }

  lemma TwoFrames()
    ensures forall f: nat :: InAreas([Area(0, 2 * FRAME_SIZE, true)], f) <==> f < 2
    ensures forall f: nat :: Spared([], f)
  {
    var areas := [Area(0, 2 * FRAME_SIZE, true)];
    forall f: nat ensures InAreas(areas, f) <==> f < 2 {
      assert InArea(areas[0], f) <==> f < 2;
    }
  }

  lemma AllOnes(bm: array<bv8>)
    requires forall i :: 0 <= i < bm.Length ==> bm[i] == 0xff
    ensures forall f: nat :: f < bm.Length * 8 ==> Used(bm, f)
  {
    forall f: nat | f < bm.Length * 8 ensures Used(bm, f) {
      MaskTable(f % 8);
    }
  }

  lemma InAreasSnoc(areas: seq<Area>, i: nat, f: nat)
    requires i < |areas|
    ensures InAreas(areas[..i + 1], f) <==> InAreas(areas[..i], f) || InArea(areas[i], f)
  {
    hide InArea;
    if InAreas(areas[..i], f) {
      var k :| 0 <= k < i && InArea(areas[..i][k], f);
      assert areas[..i + 1][k] == areas[k];
    }
    if InArea(areas[i], f) {
      assert areas[..i + 1][i] == areas[i];
    }
    if InAreas(areas[..i + 1], f) {
      var k :| 0 <= k < i + 1 && InArea(areas[..i + 1][k], f);
      if k < i {
        assert areas[..i][k] == areas[k];
      }
    }
  }

  lemma AreaFrames(a: Area, f: nat)
    requires a.usable && f < BITMAP_BITS
    ensures InArea(a, f) <==> AlignUp(a.base) / FRAME_SIZE <= f < Min((a.base + a.length) / FRAME_SIZE, BITMAP_BITS)
  {
  }

  lemma RangeFrames(r: Range, f: nat)
    requires f < BITMAP_BITS
    ensures Touches(r, f) <==> r.start / FRAME_SIZE <= f < Min(AlignUp(r.end) / FRAME_SIZE, BITMAP_BITS)
  {
  }
}
