/**
 ELF-64 files for x86-64, written field by field in the order of the format: the loader of
 kernel/src/fs/elf.rs reads back from them what was written and lays it out in memory.
 */
module ElfImage {
  import opened Options
  import opened Memory
  import opened AddressSpaces
  import opened Elf

  /** The file header, besides the fields that are the same in every such file. */
  datatype Ehdr = Ehdr(ident: nat, kind: nat, version: nat, entry: nat, phoff: nat, shoff: nat, flags: nat,
                       ehsize: nat, shentsize: nat, shnum: nat, shstrndx: nat)

  /** A program header with the two fields that the loader ignores. */
  datatype Entry = Entry(ph: Phdr, paddr: nat, align: nat)

  function Range(n: nat): (r: nat)
    ensures r > 0
  {
    if n == 0 then 1 else 256 * Range(n - 1)
  }

  /** A number in `n` bytes, lowest first. */
  function Le(v: nat, n: nat): (r: seq<nat>)
    ensures |r| == n
    decreases n
  {
    if n == 0 then [] else [v % 256] + Le(v / 256, n - 1)
  }

  /** The header up to the entry point. */
  function EhdrHead(h: Ehdr): (r: seq<nat>)
    ensures |r| == 32
  {
    [0x7f, 0x45, 0x4c, 0x46] + [2] + [1] + Le(h.ident, 10) + Le(h.kind, 2) + Le(62, 2) + Le(h.version, 4)
    + Le(h.entry, 8)
  }

  function EhdrBytes(h: Ehdr, count: nat): (r: seq<nat>)
    ensures |r| == 64
  {
    EhdrHead(h) + Le(h.phoff, 8) + Le(h.shoff, 8) + Le(h.flags, 4) + Le(h.ehsize, 2)
    + Le(56, 2) + Le(count, 2) + Le(h.shentsize, 2) + Le(h.shnum, 2) + Le(h.shstrndx, 2)
  }

  function PhdrBytes(e: Entry): (r: seq<nat>)
    ensures |r| == 56
  {
    Le(e.ph.kind, 4) + Le(e.ph.flags, 4) + Le(e.ph.offset, 8) + Le(e.ph.vaddr, 8) + Le(e.paddr, 8)
    + Le(e.ph.filesz, 8) + Le(e.ph.memsz, 8) + Le(e.align, 8)
  }

  function Table(entries: seq<Entry>): (r: seq<nat>)
    ensures |r| == 56 * |entries|
  {
    if entries == [] then [] else Table(entries[..|entries| - 1]) + PhdrBytes(entries[|entries| - 1])
  }

  /** Header, program headers where the header says, and anything around them. */
  function File(h: Ehdr, gap: seq<nat>, entries: seq<Entry>, rest: seq<nat>): seq<nat> {
    EhdrBytes(h, |entries|) + gap + Table(entries) + rest
  }

  predicate EntryFits(e: Entry) {
    && e.ph.kind < Range(4) && e.ph.flags < Range(4) && e.ph.offset < Range(8) && e.ph.vaddr < Range(8)
    && e.ph.filesz < Range(8) && e.ph.memsz < Range(8)
  }

  /** The numbers fit their fields, and the type is an executable or a shared object. */
  ghost predicate Writes(h: Ehdr, gap: seq<nat>, entries: seq<Entry>) {
    && (h.kind == 2 || h.kind == 3) && h.entry < Range(8) && h.phoff == 64 + |gap| < Range(8) && |entries| < Range(2)
    && forall i :: 0 <= i < |entries| ==> EntryFits(entries[i])
  }

  // ---------------------------------------------------------------------------
  // Reading back
  // ---------------------------------------------------------------------------

  /** `at` bytes into `b` lies `x`. */
  ghost predicate Lies(b: seq<nat>, at: nat, x: seq<nat>) {
    at + |x| <= |b| && b[at..at + |x|] == x
  }

  lemma LiesSplit(b: seq<nat>, at: nat, x: seq<nat>, y: seq<nat>)
    requires Lies(b, at, x + y)
    ensures Lies(b, at, x) && Lies(b, at + |x|, y)
  {
    var all := b[at..at + |x| + |y|];
    assert all[..|x|] == x && all[|x|..] == y;
    assert b[at..at + |x|] == all[..|x|] && b[at + |x|..at + |x| + |y|] == all[|x|..];
  }

  lemma {:induction false} LeRead(b: seq<nat>, at: nat, v: nat, n: nat)
    requires Lies(b, at, Le(v, n)) && v < Range(n)
    ensures Little(b, at, n) == v
    decreases n
  {
    if n > 0 {
      LiesSplit(b, at, [v % 256], Le(v / 256, n - 1));
      assert b[at] == b[at..at + 1][0] == v % 256;
      LeRead(b, at + 1, v / 256, n - 1);
    }
  }

  /** The last field of a record, and the fields before it. */
  lemma LastField(b: seq<nat>, at: nat, before: seq<nat>, v: nat, n: nat)
    requires Lies(b, at, before + Le(v, n))
    ensures Lies(b, at, before) && at + |before| + n <= |b|
    ensures v < Range(n) ==> Little(b, at + |before|, n) == v
  {
    hide Lies, Le, Little, Range;
    LiesSplit(b, at, before, Le(v, n));
    if v < Range(n) {
      LeRead(b, at + |before|, v, n);
    }
    LiesWithin(b, at + |before|, Le(v, n));
  }

  lemma LiesWithin(b: seq<nat>, at: nat, x: seq<nat>)
    requires Lies(b, at, x)
    ensures at + |x| <= |b|
  {
  }

  lemma PhdrRead(b: seq<nat>, at: nat, e: Entry)
    requires Lies(b, at, PhdrBytes(e)) && EntryFits(e)
    ensures at + 56 <= |b| && ReadPhdr(b, at) == e.ph
  {
    hide Lies, Le, Little, Range;
    var f1 := Le(e.ph.kind, 4);
    var f2 := f1 + Le(e.ph.flags, 4);
    var f3 := f2 + Le(e.ph.offset, 8);
    var f4 := f3 + Le(e.ph.vaddr, 8);
    var f5 := f4 + Le(e.paddr, 8);
    var f6 := f5 + Le(e.ph.filesz, 8);
    var f7 := f6 + Le(e.ph.memsz, 8);
    LastField(b, at, f7, e.align, 8);
    LastField(b, at, f6, e.ph.memsz, 8);
    LastField(b, at, f5, e.ph.filesz, 8);
    LastField(b, at, f4, e.paddr, 8);
    LastField(b, at, f3, e.ph.vaddr, 8);
    LastField(b, at, f2, e.ph.offset, 8);
    LastField(b, at, f1, e.ph.flags, 4);
    LeRead(b, at, e.ph.kind, 4);
  }

  lemma {:induction false} TableRead(b: seq<nat>, at: nat, entries: seq<Entry>, i: nat)
    requires Lies(b, at, Table(entries)) && i < |entries| && EntryFits(entries[i])
    ensures at + 56 * i + 56 <= |b| && ReadPhdr(b, at + 56 * i) == entries[i].ph
    decreases |entries|
  {
    hide Lies, PhdrBytes, EntryFits, ReadPhdr;
    var last := |entries| - 1;
    LiesSplit(b, at, Table(entries[..last]), PhdrBytes(entries[last]));
    if i < last {
      TableRead(b, at, entries[..last], i);
    } else {
      PhdrRead(b, at + 56 * last, entries[last]);
    }
  }

  lemma MagicRead(b: seq<nat>)
    requires Lies(b, 0, [0x7f, 0x45, 0x4c, 0x46] + [2] + [1])
    ensures |b| >= 6 && b[0] == 0x7f && b[1] == 0x45 && b[2] == 0x4c && b[3] == 0x46 && b[4] == 2 && b[5] == 1
  {
    var first := b[0..6];
    assert first[0] == 0x7f && first[1] == 0x45 && first[2] == 0x4c && first[3] == 0x46 && first[4] == 2 && first[5] == 1;
  }

  lemma Ranges()
    ensures Range(2) == 0x1_0000 && Range(4) == 0x1_0000_0000 && Range(8) == 0x1_0000_0000_0000_0000
  {
    assert Range(4) == 256 * (256 * Range(2));
    assert Range(6) == 256 * (256 * Range(4));
  }

  lemma HeadRead(b: seq<nat>, h: Ehdr)
    requires Lies(b, 0, EhdrHead(h)) && (h.kind == 2 || h.kind == 3) && h.entry < Range(8)
    ensures |b| >= 32 && b[0] == 0x7f && b[1] == 0x45 && b[2] == 0x4c && b[3] == 0x46 && b[4] == 2 && b[5] == 1
    ensures Little(b, 16, 2) == h.kind && Little(b, 18, 2) == 62 && Little(b, 24, 8) == h.entry
  {
    hide Lies, Le, Little, Range;
    Ranges();
    var f0 := [0x7f, 0x45, 0x4c, 0x46] + [2] + [1];
    var f1 := f0 + Le(h.ident, 10);
    var f2 := f1 + Le(h.kind, 2);
    var f3 := f2 + Le(62, 2);
    var f4 := f3 + Le(h.version, 4);
    LastField(b, 0, f4, h.entry, 8);
    LastField(b, 0, f3, h.version, 4);
    LastField(b, 0, f2, 62, 2);
    LastField(b, 0, f1, h.kind, 2);
    LastField(b, 0, f0, h.ident, 10);
    MagicRead(b);
  }

  lemma TailRead(b: seq<nat>, h: Ehdr, count: nat)
    requires Lies(b, 0, EhdrBytes(h, count)) && h.phoff < Range(8) && count < Range(2)
    ensures |b| >= 64 && Lies(b, 0, EhdrHead(h))
    ensures Little(b, 32, 8) == h.phoff && Little(b, 54, 2) == 56 && Little(b, 56, 2) == count
  {
    hide Lies, Le, Little, Range, EhdrHead;
    Ranges();
    var f0 := EhdrHead(h);
    var f1 := f0 + Le(h.phoff, 8);
    var f2 := f1 + Le(h.shoff, 8);
    var f3 := f2 + Le(h.flags, 4);
    var f4 := f3 + Le(h.ehsize, 2);
    var f5 := f4 + Le(56, 2);
    var f6 := f5 + Le(count, 2);
    var f7 := f6 + Le(h.shentsize, 2);
    var f8 := f7 + Le(h.shnum, 2);
    LastField(b, 0, f8, h.shstrndx, 2);
    LastField(b, 0, f7, h.shnum, 2);
    LastField(b, 0, f6, h.shentsize, 2);
    LastField(b, 0, f5, count, 2);
    LastField(b, 0, f4, 56, 2);
    LastField(b, 0, f3, h.ehsize, 2);
    LastField(b, 0, f2, h.flags, 4);
    LastField(b, 0, f1, h.shoff, 8);
    LastField(b, 0, f0, h.phoff, 8);
  }

  lemma EhdrRead(b: seq<nat>, h: Ehdr, count: nat)
    requires Lies(b, 0, EhdrBytes(h, count))
    requires (h.kind == 2 || h.kind == 3) && h.entry < Range(8) && h.phoff < Range(8) && count < Range(2)
    ensures |b| >= 64 && Little(b, 24, 8) == h.entry
    ensures h.phoff + 56 * count <= |b| ==> CheckHeader(b) == Ok((h.phoff, count))
  {
    hide Lies, Little, Range, EhdrBytes, EhdrHead;
    TailRead(b, h, count);
    HeadRead(b, h);
  }

  lemma FileRead(h: Ehdr, gap: seq<nat>, entries: seq<Entry>, rest: seq<nat>)
    requires Writes(h, gap, entries)
    ensures var b := File(h, gap, entries, rest);
            && |b| >= 64 && Little(b, 24, 8) == h.entry && h.phoff + 56 * |entries| <= |b|
            && CheckHeader(b) == Ok((h.phoff, |entries|))
            && forall i :: 0 <= i < |entries| ==> HeaderAt(b, h.phoff, |entries|, i) == entries[i].ph
  {
    hide EhdrBytes, Table, CheckHeader, ReadPhdr, EntryFits, Little, Range;
    var b := File(h, gap, entries, rest);
    var front := EhdrBytes(h, |entries|);
    assert b[0..64] == front;
    EhdrRead(b, h, |entries|);
    assert b[h.phoff..h.phoff + |Table(entries)|] == Table(entries);
    forall i | 0 <= i < |entries| ensures HeaderAt(b, h.phoff, |entries|, i) == entries[i].ph {
      TableRead(b, h.phoff, entries, i);
    }
  }

  // ---------------------------------------------------------------------------
  // What the loader answers
  // ---------------------------------------------------------------------------

  /** A segment to be loaded: of type PT_LOAD and not empty in memory. */
  predicate ToLoad(ph: Phdr) { ph.kind == 1 && ph.memsz > 0 }

  /** The file part lies in the file and in memory, and memory ends below 2^47. */
  predicate Good(ph: Phdr, size: nat) {
    ph.kind == 1 ==>
      && ph.filesz <= ph.memsz
      && (ph.memsz > 0 ==> ph.vaddr + ph.memsz <= 0x8000_0000_0000 && (ph.filesz > 0 ==> ph.offset + ph.filesz <= size))
  }

  ghost predicate Accepted(h: Ehdr, entries: seq<Entry>, size: nat) {
    h.entry != 0 && forall i :: 0 <= i < |entries| ==> Good(entries[i].ph, size)
  }

  /** The largest end of a loaded segment, or zero. */
  ghost predicate IsTop(entries: seq<Entry>, top: nat) {
    && (forall i :: 0 <= i < |entries| && ToLoad(entries[i].ph) ==> entries[i].ph.vaddr + entries[i].ph.memsz <= top)
    && (top == 0 || exists i :: 0 <= i < |entries| && ToLoad(entries[i].ph) && top == entries[i].ph.vaddr + entries[i].ph.memsz)
  }

  function LoadedOf(entries: seq<Entry>): seq<Phdr> {
    if entries == [] then []
    else LoadedOf(entries[..|entries| - 1]) +
         (if ToLoad(entries[|entries| - 1].ph) then [entries[|entries| - 1].ph] else [])
  }

  lemma {:induction false} SegmentsAre(b: seq<nat>, at: nat, entries: seq<Entry>, n: nat)
    requires at + 56 * |entries| <= |b| && n <= |entries|
    requires forall i :: 0 <= i < |entries| ==> HeaderAt(b, at, |entries|, i) == entries[i].ph
    ensures Segments(b, at, |entries|, n) == LoadedOf(entries[..n])
    ensures FirstBad(b, at, |entries|, n) == None <==> forall i :: 0 <= i < n ==> Good(entries[i].ph, |b|)
  {
    hide HeaderAt;
    if n > 0 {
      SegmentsAre(b, at, entries, n - 1);
      assert entries[..n][..n - 1] == entries[..n - 1];
      GoodExactly(b, entries[n - 1].ph);
    }
  }

  lemma GoodExactly(b: seq<nat>, ph: Phdr)
    ensures CheckSegment(b, ph) == None <==> Good(ph, |b|)
  {
  }

  lemma TopSnoc(front: seq<Entry>, e: Entry, top: nat)
    requires IsTop(front, top)
    ensures IsTop(front + [e], if ToLoad(e.ph) && e.ph.vaddr + e.ph.memsz > top then e.ph.vaddr + e.ph.memsz else top)
  {
    var all := front + [e];
    if top != 0 {
      var i :| 0 <= i < |front| && ToLoad(front[i].ph) && top == front[i].ph.vaddr + front[i].ph.memsz;
      assert all[i] == front[i];
    }
    assert all[|front|] == e && forall i :: 0 <= i < |front| ==> all[i] == front[i];
  }

  lemma {:induction false} TopIs(entries: seq<Entry>)
    ensures IsTop(entries, Highest(LoadedOf(entries)))
  {
    hide IsTop;
    if entries == [] {
      NoTop();
    } else {
      var last := |entries| - 1;
      var front, e := entries[..last], entries[last];
      var segs := LoadedOf(front);
      TopIs(front);
      TopSnoc(front, e, Highest(segs));
      assert entries == front + [e] && (segs + [e.ph])[..|segs|] == segs;
      assert LoadedOf(entries) == if ToLoad(e.ph) then segs + [e.ph] else segs;
    }
  }

  lemma NoTop()
    ensures IsTop([], 0)
  {
  }

  /** Accepted exactly as the format demands, with the entry and the end that were written. */
  lemma VerdictOfFile(h: Ehdr, gap: seq<nat>, entries: seq<Entry>, rest: seq<nat>)
    requires Writes(h, gap, entries)
    ensures var b := File(h, gap, entries, rest);
            && (Verdict(b).Ok? <==> Accepted(h, entries, |b|))
            && (Verdict(b).Ok? ==> Verdict(b).value.entry == h.entry && IsTop(entries, Verdict(b).value.highest))
  {
    hide File, Writes, HeaderAt, CheckHeader, IsTop, Good, Little;
    var b := File(h, gap, entries, rest);
    FileRead(h, gap, entries, rest);
    SegmentsAre(b, h.phoff, entries, |entries|);
    assert entries[..|entries|] == entries;
    TopIs(entries);
  }

  // ---------------------------------------------------------------------------
  // Nothing else is accepted
  // ---------------------------------------------------------------------------

  ghost predicate AllBytes(b: seq<nat>) {
    forall i :: 0 <= i < |b| ==> b[i] < 256
  }

  lemma FirstOf(b: seq<nat>, at: nat, n: nat)
    requires at + n <= |b| && n > 0
    ensures b[at..at + n] == [b[at]] + b[at + 1..(at + 1) + (n - 1)]
  {
  }

  lemma {:induction false} LeOf(b: seq<nat>, at: nat, n: nat)
    requires AllBytes(b) && at + n <= |b|
    ensures Little(b, at, n) < Range(n) && Le(Little(b, at, n), n) == b[at..at + n]
    decreases n
  {
    if n > 0 {
      var v := Little(b, at + 1, n - 1);
      LeOf(b, at + 1, n - 1);
      assert (b[at] + 256 * v) % 256 == b[at] && (b[at] + 256 * v) / 256 == v;
      FirstOf(b, at, n);
    }
  }

  /** A record that has been written up to a field goes on with that field. */
  lemma NextField(b: seq<nat>, at: nat, before: seq<nat>, n: nat)
    requires AllBytes(b) && Lies(b, at, before) && at + |before| + n <= |b|
    ensures Little(b, at + |before|, n) < Range(n) && Lies(b, at, before + Le(Little(b, at + |before|, n), n))
  {
    hide Le, Little, Range, AllBytes;
    var to := at + |before|;
    LeOf(b, to, n);
    assert b[at..to + n] == b[at..to] + b[to..to + n];
  }

  function EhdrOf(b: seq<nat>): Ehdr
    requires |b| >= 64
  {
    Ehdr(Little(b, 6, 10), Little(b, 16, 2), Little(b, 20, 4), Little(b, 24, 8), Little(b, 32, 8), Little(b, 40, 8),
         Little(b, 48, 4), Little(b, 52, 2), Little(b, 58, 2), Little(b, 60, 2), Little(b, 62, 2))
  }

  function EntryOf(b: seq<nat>, at: nat): Entry
    requires at + 56 <= |b|
  {
    Entry(ReadPhdr(b, at), Little(b, at + 24, 8), Little(b, at + 48, 8))
  }

  lemma HeadOf(b: seq<nat>)
    requires AllBytes(b) && |b| >= 64 && Lies(b, 0, [0x7f, 0x45, 0x4c, 0x46] + [2] + [1]) && Little(b, 18, 2) == 62
    ensures Lies(b, 0, EhdrHead(EhdrOf(b)))
  {
    hide Le, Little, Range, AllBytes, Lies;
    var h := EhdrOf(b);
    var f0 := [0x7f, 0x45, 0x4c, 0x46] + [2] + [1];
    var f1 := f0 + Le(h.ident, 10);
    var f2 := f1 + Le(h.kind, 2);
    var f3 := f2 + Le(62, 2);
    NextField(b, 0, f0, 10);
    NextField(b, 0, f1, 2);
    NextField(b, 0, f2, 2);
    NextField(b, 0, f3, 4);
    NextField(b, 0, f3 + Le(h.version, 4), 8);
  }

  lemma EhdrBytesOf(b: seq<nat>)
    requires AllBytes(b) && |b| >= 64 && Lies(b, 0, EhdrHead(EhdrOf(b))) && Little(b, 54, 2) == 56
    ensures Lies(b, 0, EhdrBytes(EhdrOf(b), Little(b, 56, 2)))
  {
    hide Le, Little, Range, AllBytes, Lies, EhdrHead;
    var h, count := EhdrOf(b), Little(b, 56, 2);
    var f0 := EhdrHead(h);
    var f1 := f0 + Le(h.phoff, 8);
    var f2 := f1 + Le(h.shoff, 8);
    var f3 := f2 + Le(h.flags, 4);
    var f4 := f3 + Le(h.ehsize, 2);
    var f5 := f4 + Le(56, 2);
    var f6 := f5 + Le(count, 2);
    var f7 := f6 + Le(h.shentsize, 2);
    NextField(b, 0, f0, 8);
    NextField(b, 0, f1, 8);
    NextField(b, 0, f2, 4);
    NextField(b, 0, f3, 2);
    NextField(b, 0, f4, 2);
    NextField(b, 0, f5, 2);
    NextField(b, 0, f6, 2);
    NextField(b, 0, f7, 2);
    NextField(b, 0, f7 + Le(h.shnum, 2), 2);
  }

  lemma PhdrBytesOf(b: seq<nat>, at: nat)
    requires AllBytes(b) && at + 56 <= |b|
    ensures EntryFits(EntryOf(b, at)) && Lies(b, at, PhdrBytes(EntryOf(b, at)))
  {
    hide Le, Little, Range, AllBytes;
    var e := EntryOf(b, at);
    assert Lies(b, at, []);
    hide Lies;
    var f1 := [] + Le(e.ph.kind, 4);
    var f2 := f1 + Le(e.ph.flags, 4);
    var f3 := f2 + Le(e.ph.offset, 8);
    var f4 := f3 + Le(e.ph.vaddr, 8);
    var f5 := f4 + Le(e.paddr, 8);
    var f6 := f5 + Le(e.ph.filesz, 8);
    NextField(b, at, [], 4);
    NextField(b, at, f1, 4);
    NextField(b, at, f2, 8);
    NextField(b, at, f3, 8);
    NextField(b, at, f4, 8);
    NextField(b, at, f5, 8);
    NextField(b, at, f6, 8);
    NextField(b, at, f6 + Le(e.ph.memsz, 8), 8);
    assert [] + Le(e.ph.kind, 4) == Le(e.ph.kind, 4);
  }

  lemma {:induction false} TableOf(b: seq<nat>, at: nat, n: nat) returns (entries: seq<Entry>)
    requires AllBytes(b) && at + 56 * n <= |b|
    ensures |entries| == n && (forall i :: 0 <= i < n ==> EntryFits(entries[i])) && Lies(b, at, Table(entries))
    decreases n
  {
    hide AllBytes, PhdrBytes, EntryFits;
    if n == 0 {
      entries := [];
    } else {
      var front := TableOf(b, at, n - 1);
      var e := EntryOf(b, at + 56 * (n - 1));
      PhdrBytesOf(b, at + 56 * (n - 1));
      entries := front + [e];
      assert entries[..n - 1] == front;
      var mid := at + 56 * (n - 1);
      assert b[at..mid + 56] == b[at..mid] + b[mid..mid + 56];
    }
  }

  /**
   A file whose header is accepted, and whose program headers lie behind the header, is one that can
   be written in this way.
   */
  lemma AcceptedIsFile(b: seq<nat>) returns (h: Ehdr, gap: seq<nat>, entries: seq<Entry>, rest: seq<nat>)
    requires AllBytes(b) && CheckHeader(b).Ok? && CheckHeader(b).value.0 >= 64
    ensures Writes(h, gap, entries) && File(h, gap, entries, rest) == b
  {
    hide AllBytes, EhdrBytes, EhdrHead, Table, EntryFits, Range, Little;
    var at, count := Little(b, 32, 8), Little(b, 56, 2);
    assert b[0..6] == [0x7f, 0x45, 0x4c, 0x46] + [2] + [1];
    h := EhdrOf(b);
    HeadOf(b);
    EhdrBytesOf(b);
    LeOf(b, 24, 8);
    LeOf(b, 32, 8);
    LeOf(b, 56, 2);
    entries := TableOf(b, at, count);
    var end := at + 56 * count;
    gap, rest := b[64..at], b[end..];
    assert b == b[0..64] + b[64..at] + b[at..end] + b[end..];
  }

  // ---------------------------------------------------------------------------
  // The memory it leaves
  // ---------------------------------------------------------------------------

  ghost predicate NoOverlap(entries: seq<Entry>) {
    forall j, k :: 0 <= j < k < |entries| && ToLoad(entries[j].ph) && ToLoad(entries[k].ph) ==>
                     Apart(entries[j].ph, entries[k].ph)
  }

  lemma {:induction false} LoadedFrom(entries: seq<Entry>, j: nat) returns (k: nat)
    requires j < |LoadedOf(entries)|
    ensures k < |entries| && ToLoad(entries[k].ph) && LoadedOf(entries)[j] == entries[k].ph
  {
    var last := |entries| - 1;
    if j < |LoadedOf(entries[..last])| {
      k := LoadedFrom(entries[..last], j);
    } else {
      k := last;
    }
  }

  lemma {:induction false} LoadedIndex(entries: seq<Entry>, k: nat) returns (j: nat)
    requires k < |entries| && ToLoad(entries[k].ph)
    ensures j < |LoadedOf(entries)| && LoadedOf(entries)[j] == entries[k].ph
  {
    var last := |entries| - 1;
    if k < last {
      j := LoadedIndex(entries[..last], k);
    } else {
      j := |LoadedOf(entries[..last])|;
    }
  }

  lemma {:induction false} LoadedApart(entries: seq<Entry>)
    requires NoOverlap(entries)
    ensures AllApart(LoadedOf(entries))
  {
    hide Apart, ToLoad;
    if entries != [] {
      var last := |entries| - 1;
      var segs := LoadedOf(entries[..last]);
      LoadedApart(entries[..last]);
      forall j | 0 <= j < |segs| && ToLoad(entries[last].ph) ensures Apart(segs[j], entries[last].ph) {
        var k := LoadedFrom(entries[..last], j);
        assert entries[..last][k] == entries[k];
      }
    }
  }

  /** The byte at place `i` of a segment: from the file, or zero behind its file part. */
  ghost function ByteOf(b: seq<nat>, ph: Phdr, i: nat): nat
    requires ph.filesz > 0 ==> ph.offset + ph.filesz <= |b|
  {
    if i < ph.filesz then b[ph.offset + i] else 0
  }

  ghost predicate InMemory(m: State, pid: nat, b: seq<nat>, ph: Phdr)
    requires Shape(m) && pid in m.spaces && (ph.filesz > 0 ==> ph.offset + ph.filesz <= |b|)
  {
    forall i: nat :: i < ph.memsz ==> Seen(m, pid, ph.vaddr + i) == Some(ByteOf(b, ph, i))
  }

  lemma SegmentInMemory(was: State, m: State, pid: nat, b: seq<nat>, segs: seq<Phdr>, j: nat)
    requires Shape(was) && Empty(was, pid) && Shape(m) && pid in m.spaces
    requires Fits(b, segs) && AllApart(segs) && j < |segs|
    requires forall a: nat :: Seen(m, pid, a) == Image(was, pid, b, segs, a)
    ensures segs[j].filesz > 0 ==> segs[j].offset + segs[j].filesz <= |b|
    ensures InMemory(m, pid, b, segs[j])
  {
    hide Shape, Seen, Image, Empty, AllApart;
    var ph := segs[j];
    forall i: nat | i < ph.memsz ensures Seen(m, pid, ph.vaddr + i) == Some(ByteOf(b, ph, i)) {
      Faithful(was, pid, b, segs, j, i);
    }
  }

  // ---------------------------------------------------------------------------
  // The rights of its pages
  // ---------------------------------------------------------------------------

  /** A byte of the segment lies on this page of 4096 bytes. */
  predicate OnPage(ph: Phdr, page: nat) {
    ToLoad(ph) && page * 4096 < ph.vaddr + ph.memsz && ph.vaddr < (page + 1) * 4096
  }

  /** The first segment, in the order of the headers, with a byte on this page. */
  ghost predicate FirstOn(entries: seq<Entry>, i: nat, page: nat) {
    i < |entries| && OnPage(entries[i].ph, page) && forall j :: 0 <= j < i ==> !OnPage(entries[j].ph, page)
  }

  lemma TouchedIs(ph: Phdr, page: nat)
    requires ToLoad(ph)
    ensures TouchesPage(ph.vaddr, ph.memsz, page) <==> OnPage(ph, page)
  {
  }

  ghost predicate RightsFrom(entries: seq<Entry>, page: nat, rights: Option<Rights>) {
    && (rights == None <==> forall i :: 0 <= i < |entries| ==> !OnPage(entries[i].ph, page))
    && forall i: nat :: FirstOn(entries, i, page) ==> rights == Some(Rights(true, entries[i].ph.flags / 2 % 2 == 1))
  }

  lemma RightsSnoc(front: seq<Entry>, e: Entry, page: nat, was: Option<Rights>)
    requires RightsFrom(front, page, was)
    ensures RightsFrom(front + [e], page, if ToLoad(e.ph) then RightsOver(e.ph, was, page) else was)
  {
    hide TouchesPage, OnPage;
    var all := front + [e];
    assert all[|front|] == e && forall i :: 0 <= i < |front| ==> all[i] == front[i];
    if ToLoad(e.ph) {
      TouchedIs(e.ph, page);
    } else {
      NotOnPage(e.ph, page);
    }
    forall i: nat | FirstOn(all, i, page) && i < |front| ensures FirstOn(front, i, page) {
    }
  }

  lemma NotOnPage(ph: Phdr, page: nat)
    requires !ToLoad(ph)
    ensures !OnPage(ph, page)
  {
  }

  lemma NoRights(m: State, pid: nat, page: nat)
    requires Empty(m, pid)
    ensures RightsFrom([], page, RightsAt(m, pid, page))
  {
  }

  /** In a fresh space every page has the rights of the first segment on it, and other pages have none. */
  lemma {:induction false} RightsOfFile(m: State, pid: nat, entries: seq<Entry>, page: nat)
    requires Empty(m, pid)
    ensures RightsFrom(entries, page, RightsAfter(m, pid, LoadedOf(entries), page))
  {
    hide RightsOver, ToLoad, RightsFrom;
    if entries == [] {
      NoRights(m, pid, page);
    } else {
      var last := |entries| - 1;
      var front, e := entries[..last], entries[last];
      var segs := LoadedOf(front);
      RightsOfFile(m, pid, front, page);
      RightsSnoc(front, e, page, RightsAfter(m, pid, segs, page));
      assert entries == front + [e] && (segs + [e.ph])[..|segs|] == segs;
      assert LoadedOf(entries) == if ToLoad(e.ph) then segs + [e.ph] else segs;
    }
  }

  /**
   So a writable segment cannot be written where a read-only one in front of it shares its page:
   code at 0x400000 and data behind it on the same page.
   */
  lemma DataOnCodePage(m: State, pid: nat) returns (entries: seq<Entry>)
    requires Empty(m, pid)
    ensures NoOverlap(entries) && |entries| == 2 && Writable(entries[1].ph) && OnPage(entries[1].ph, 0x400)
    ensures RightsAfter(m, pid, LoadedOf(entries), 0x400) == Some(Rights(true, false))
  {
    hide RightsAfter, LoadedOf;
    entries := [Entry(Phdr(1, 5, 0x1000, 0x40_0000, 0x800, 0x800), 0, 0x1000),
                Entry(Phdr(1, 6, 0x1800, 0x40_0800, 0x100, 0x100), 0, 0x1000)];
    RightsOfFile(m, pid, entries, 0x400);
    assert FirstOn(entries, 0, 0x400);
  }

  /** `load` on any such file. */
  method LoadFile(k: Kernel, pid: nat, h: Ehdr, gap: seq<nat>, entries: seq<Entry>, rest: seq<nat>)
    returns (r: Result<LoadedElf>)
    requires k.Valid() && Inv(k.Abs()) && pid in k.spaces && Writes(h, gap, entries)
    modifies k, k.refcount
    ensures k.Valid() && Inv(k.Abs()) && pid in k.spaces && Beside(old(k.Abs()), k.Abs(), pid)
    ensures r.Ok? ==> Accepted(h, entries, |File(h, gap, entries, rest)|)
    ensures r.Err? ==> (!Accepted(h, entries, |File(h, gap, entries, rest)|) || (r.error == OutOfMemory && k.free == {}))
    ensures r.Ok? ==> r.value.entry == h.entry && IsTop(entries, r.value.highest)
    ensures r.Ok? && Empty(old(k.Abs()), pid) && NoOverlap(entries) ==>
              forall i :: 0 <= i < |entries| && ToLoad(entries[i].ph) ==>
                InMemory(k.Abs(), pid, File(h, gap, entries, rest), entries[i].ph)
    ensures r.Ok? && Empty(old(k.Abs()), pid) ==> forall p: nat :: RightsFrom(entries, p, RightsAt(k.Abs(), pid, p))
  {
    hide RightsAt, RightsAfter, RightsFrom, Inv, Shape, Seen, Beside, Image, File, Accepted, IsTop, NoOverlap, InMemory, Verdict, CheckHeader, Segments, HeaderAt;
    ghost var was := k.Abs();
    var b := File(h, gap, entries, rest);
    r := Load(k, pid, b);
    VerdictOfFile(h, gap, entries, rest);
    FileRead(h, gap, entries, rest);
    SegmentsAre(b, h.phoff, entries, |entries|);
    assert entries[..|entries|] == entries;
    InvShape(was);
    InvShape(k.Abs());
    if r.Ok? && Empty(was, pid) {
      forall p: nat ensures RightsFrom(entries, p, RightsAt(k.Abs(), pid, p)) {
        RightsOfFile(was, pid, entries, p);
      }
    }
    if r.Ok? && Empty(was, pid) && NoOverlap(entries) {
      LoadedApart(entries);
      forall i | 0 <= i < |entries| && ToLoad(entries[i].ph)
        ensures entries[i].ph.filesz > 0 ==> entries[i].ph.offset + entries[i].ph.filesz <= |b|
        ensures InMemory(k.Abs(), pid, b, entries[i].ph)
      {
        var j := LoadedIndex(entries, i);
        SegmentInMemory(was, k.Abs(), pid, b, LoadedOf(entries), j);
      }
    }
  }
}
