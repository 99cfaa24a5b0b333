/**
 `parse_dir_entries` of kernel/src/drivers/fat32.rs on the bytes of any directory: end mark, deleted
 slots, labels, dot entries, and the long names that are spread over several slots.
 */
module FatListing {
  import opened Options
  import opened FatNames
  import opened FatDirectory

  datatype DirEntry = DirEntry(name: seq<Byte>, isDir: bool, size: nat, cluster: nat)

  // ---------------------------------------------------------------------------
  // The short name of a slot
  // ---------------------------------------------------------------------------

  predicate Tail(b: Byte) { 0x80 <= b < 0xC0 }

  /** The number of bytes of the UTF-8 character at the front, or 0 if there is none. */
  function CharLen(s: seq<Byte>): (n: nat)
    ensures n <= |s|
  {
    if s == [] then 0
    else if s[0] < 0x80 then 1
    else if |s| < 2 || !Tail(s[1]) then 0
    else if 0xC2 <= s[0] < 0xE0 then 2
    else if |s| < 3 || !Tail(s[2]) then 0
    else if s[0] == 0xE0 then (if 0xA0 <= s[1] then 3 else 0)
    else if s[0] == 0xED then (if s[1] < 0xA0 then 3 else 0)
    else if 0xE0 < s[0] < 0xF0 then 3
    else if |s| < 4 || !Tail(s[3]) then 0
    else if s[0] == 0xF0 then (if 0x90 <= s[1] then 4 else 0)
    else if s[0] == 0xF4 then (if s[1] < 0x90 then 4 else 0)
    else if 0xF0 < s[0] < 0xF4 then 4
    else 0
  }

  predicate IsUtf8(s: seq<Byte>) {
    s == [] || (CharLen(s) > 0 && IsUtf8(s[CharLen(s)..]))
  }

  /** A character of Unicode that `trim` takes away, as its UTF-8 bytes. */
  predicate Blank(s: seq<Byte>) {
    || (|s| == 1 && IsSpace(s[0]))
    || s == [0xC2, 0x85] || s == [0xC2, 0xA0] || s == [0xE1, 0x9A, 0x80]
    || (|s| == 3 && s[0] == 0xE2 && s[1] == 0x80 && (0x80 <= s[2] <= 0x8A || s[2] == 0xA8 || s[2] == 0xA9 || s[2] == 0xAF))
    || s == [0xE2, 0x81, 0x9F] || s == [0xE3, 0x80, 0x80]
  }

  /** How many bytes the blank at the end of a string has. */
  function BlankEnd(s: seq<Byte>): (n: nat)
    ensures n <= |s|
  {
    if |s| >= 1 && Blank(s[|s| - 1..]) then 1
    else if |s| >= 2 && Blank(s[|s| - 2..]) then 2
    else if |s| >= 3 && Blank(s[|s| - 3..]) then 3
    else 0
  }

  function BlankStart(s: seq<Byte>): (n: nat)
    ensures n <= |s|
  {
    if |s| >= 1 && Blank(s[..1]) then 1
    else if |s| >= 2 && Blank(s[..2]) then 2
    else if |s| >= 3 && Blank(s[..3]) then 3
    else 0
  }

  function TrimRight(s: seq<Byte>): seq<Byte> {
    if BlankEnd(s) == 0 then s else TrimRight(s[..|s| - BlankEnd(s)])
  }

  function TrimLeft(s: seq<Byte>): seq<Byte> {
    if BlankStart(s) == 0 then s else TrimLeft(s[BlankStart(s)..])
  }

  /** The 8.3 name of the 11 name bytes, whatever they are. */
  function ShortName(n: seq<Byte>): seq<Byte>
    requires |n| == 11
  {
    var base := if IsUtf8(n[..8]) then TrimLeft(TrimRight(n[..8])) else [0x3F];
    var ext := if IsUtf8(n[8..]) then TrimLeft(TrimRight(n[8..])) else [];
    if ext == [] then base else base + [DOT] + ext
  }

  predicate Ascii(s: seq<Byte>) {
    forall i :: 0 <= i < |s| ==> s[i] < 0x80
  }

  lemma {:induction false} AsciiUtf8(s: seq<Byte>)
    requires Ascii(s)
    ensures IsUtf8(s)
  {
    if s != [] {
      AsciiUtf8(s[1..]);
    }
  }

  lemma AsciiBlankEnd(s: seq<Byte>)
    requires Ascii(s)
    ensures BlankEnd(s) == if s != [] && IsSpace(s[|s| - 1]) then 1 else 0
  {
    AsciiBlank(s, |s| - 1);
    AsciiBlank(s, |s| - 2);
    AsciiBlank(s, |s| - 3);
  }

  lemma AsciiBlank(s: seq<Byte>, k: int)
    requires Ascii(s)
    ensures 0 <= k < |s| ==> (Blank(s[k..]) <==> k == |s| - 1 && IsSpace(s[k]))
  {
    if 0 <= k < |s| {
      assert s[k..][0] == s[k];
    }
  }

  lemma AsciiBlankStart(s: seq<Byte>)
    requires Ascii(s)
    ensures BlankStart(s) == if s != [] && IsSpace(s[0]) then 1 else 0
  {
  }

  lemma {:induction false} AsciiTrimRight(s: seq<Byte>)
    requires Ascii(s)
    ensures TrimRight(s) == TrimEnd(s)
  {
    hide BlankEnd;
    AsciiBlankEnd(s);
    if s != [] && IsSpace(s[|s| - 1]) {
      AsciiTrimRight(s[..|s| - 1]);
    }
  }

  lemma {:induction false} AsciiTrimLeft(s: seq<Byte>)
    requires Ascii(s)
    ensures TrimLeft(s) == TrimStart(s)
  {
    hide BlankStart;
    AsciiBlankStart(s);
    if s != [] && IsSpace(s[0]) {
      AsciiTrimLeft(s[1..]);
    }
  }

  lemma AsciiWord(s: seq<Byte>)
    requires exists k: nat :: WordThenSpaces(s, k)
    ensures IsUtf8(s) && TrimLeft(TrimRight(s)) == Trim(s)
  {
    hide IsUtf8, TrimLeft, TrimRight, TrimEnd, TrimStart;
    var k: nat :| WordThenSpaces(s, k);
    AsciiUtf8(s);
    AsciiTrimRight(s);
    AsciiTrimLeft(TrimEnd(s));
  }

  /** The names of a well-formed root are shown byte by byte. */
  lemma CanonicalShown(n: seq<Byte>)
    requires Canonical(n)
    ensures ShortName(n) == Display(n)
  {
    hide IsUtf8, TrimLeft, TrimRight, Trim, WordThenSpaces;
    AsciiWord(n[..8]);
    AsciiWord(n[8..]);
  }

  // ---------------------------------------------------------------------------
  // Long names
  // ---------------------------------------------------------------------------

  const UNITS: nat := 13

  /** Where the slot of a long name holds its k-th 16-bit unit. */
  function UnitAt(k: nat): (o: nat)
    requires k < UNITS
    ensures o + 2 <= SLOT
  {
    if k < 5 then 1 + 2 * k else if k < 11 then 4 + 2 * k else 6 + 2 * k
  }

  /** The units of one group, up to an end mark. */
  function Group(s: Slot, k: nat, end: nat): seq<nat>
    requires |s| == SLOT && k <= end <= UNITS
    decreases end - k
  {
    if k == end || Le16(s, UnitAt(k)) == 0 || Le16(s, UnitAt(k)) == 0xFFFF then []
    else [Le16(s, UnitAt(k))] + Group(s, k + 1, end)
  }

  /** The UTF-8 bytes of a unit; half of a surrogate pair is no character and is left out. */
  function Utf8(c: nat): seq<Byte> {
    if c < 0x80 then [c]
    else if c < 0x800 then [0xC0 + c / 0x40, 0x80 + c % 0x40]
    else if 0xD800 <= c < 0xE000 || c >= 0x1_0000 then []
    else [0xE0 + c / 0x1000, 0x80 + c / 0x40 % 0x40, 0x80 + c % 0x40]
  }

  function Text(units: seq<nat>): seq<Byte> {
    if units == [] then [] else Utf8(units[0]) + Text(units[1..])
  }

  lemma {:induction false} TextConcat(a: seq<nat>, b: seq<nat>)
    ensures Text(a + b) == Text(a) + Text(b)
  {
    hide Text, Utf8;
    if a == [] {
      assert a + b == b;
      NoText();
    } else {
      var c, rest := a[0], a[1..];
      assert a == [c] + rest && a + b == [c] + (rest + b);
      TextConcat(rest, b);
      TextFirst(c, rest);
      TextFirst(c, rest + b);
      assert Utf8(c) + (Text(rest) + Text(b)) == (Utf8(c) + Text(rest)) + Text(b);
    }
  }

  lemma TextFirst(c: nat, rest: seq<nat>)
    ensures Text([c] + rest) == Utf8(c) + Text(rest)
  {
    assert ([c] + rest)[1..] == rest;
  }

  /** One piece of a long name, with its place among the pieces. */
  datatype Part = Part(order: nat, text: seq<Byte>)

  function PartOf(s: Slot): Part
    requires |s| == SLOT
  {
    Part(s[0] % 0x40, Text(Group(s, 0, 5)) + Text(Group(s, 5, 11)) + Text(Group(s, 11, 13)))
  }

  /** The parts with `p` behind those of the same place. */
  function Insert(parts: seq<Part>, p: Part): seq<Part> {
    if parts == [] || parts[|parts| - 1].order <= p.order then parts + [p]
    else Insert(parts[..|parts| - 1], p) + [parts[|parts| - 1]]
  }

  /** `sort_by_key` */
  function Sorted(parts: seq<Part>): seq<Part> {
    if parts == [] then [] else Insert(Sorted(parts[..|parts| - 1]), parts[|parts| - 1])
  }

  function Joined(parts: seq<Part>): seq<Byte> {
    if parts == [] then [] else parts[0].text + Joined(parts[1..])
  }

  ghost predicate InOrder(parts: seq<Part>) {
    forall i, j :: 0 <= i < j < |parts| ==> parts[i].order <= parts[j].order
  }

  /** The parts with one place, in the order they came in. */
  function Placed(parts: seq<Part>, order: nat): seq<Part> {
    if parts == [] then []
    else
      var last := parts[|parts| - 1];
      Placed(parts[..|parts| - 1], order) + (if last.order == order then [last] else [])
  }

  lemma PlacedSnoc(parts: seq<Part>, p: Part, o: nat)
    ensures Placed(parts + [p], o) == Placed(parts, o) + (if p.order == o then [p] else [])
  {
    assert (parts + [p])[..|parts|] == parts;
  }

  lemma {:induction false} InsertMembers(parts: seq<Part>, p: Part)
    ensures forall x :: x in Insert(parts, p) ==> x == p || x in parts
  {
    if parts != [] && parts[|parts| - 1].order > p.order {
      InsertMembers(parts[..|parts| - 1], p);
    }
  }

  lemma {:induction false} InsertOrdered(parts: seq<Part>, p: Part)
    requires InOrder(parts)
    ensures InOrder(Insert(parts, p))
  {
    if parts != [] && parts[|parts| - 1].order > p.order {
      var front, last := parts[..|parts| - 1], parts[|parts| - 1];
      InsertOrdered(front, p);
      InsertMembers(front, p);
      var r := Insert(front, p);
      assert Insert(parts, p) == r + [last];
      forall i | 0 <= i < |r| ensures r[i].order <= last.order {
        assert r[i] in r;
        assert r[i] in front ==> r[i].order <= last.order;
      }
    }
  }

  lemma {:induction false} InsertPlaced(parts: seq<Part>, p: Part, o: nat)
    ensures Placed(Insert(parts, p), o) == Placed(parts, o) + (if p.order == o then [p] else [])
    decreases |parts|
  {
    hide Placed;
    PlacedSnoc(parts, p, o);
    if parts != [] && parts[|parts| - 1].order > p.order {
      var front, last := parts[..|parts| - 1], parts[|parts| - 1];
      InsertPlaced(front, p, o);
      PlacedSnoc(Insert(front, p), last, o);
      PlacedSnoc(front, last, o);
      assert parts == front + [last];
    }
  }

  /** The sort is a stable one: in order, and the parts with one place keep theirs among themselves. */
  lemma {:induction false} SortedStable(parts: seq<Part>, o: nat)
    ensures InOrder(Sorted(parts)) && Placed(Sorted(parts), o) == Placed(parts, o)
  {
    hide Insert, InOrder;
    if parts == [] {
      assert InOrder([]) by { NoneInOrder(); }
    } else {
      var front, last := parts[..|parts| - 1], parts[|parts| - 1];
      SortedStable(front, o);
      InsertOrdered(Sorted(front), last);
      InsertPlaced(Sorted(front), last, o);
    }
  }

  lemma NoneInOrder()
    ensures InOrder([])
  {
  }

  // ---------------------------------------------------------------------------
  // The listing
  // ---------------------------------------------------------------------------

  function NameFor(s: Slot, parts: seq<Part>): seq<Byte>
    requires |s| == SLOT
  {
    if parts != [] then Joined(Sorted(parts)) else ShortName(NameOf(s))
  }

  predicate IsDots(name: seq<Byte>) { name == [DOT] || name == [DOT, DOT] }

  /** What one slot in front of the end mark adds to the listing. */
  function SlotEntry(s: Slot, parts: seq<Part>): seq<DirEntry>
    requires |s| == SLOT
  {
    if Deleted(s) || IsLongName(s) || IsLabel(s) || IsDots(NameFor(s, parts)) then []
    else [DirEntry(NameFor(s, parts), IsDir(s), SizeOf(s), ClusterOf(s))]
  }

  /** The parts of a long name that wait for their slot; a deleted slot leaves them waiting. */
  function Waiting(s: Slot, parts: seq<Part>): seq<Part>
    requires |s| == SLOT
  {
    if Deleted(s) then parts else if IsLongName(s) then parts + [PartOf(s)] else []
  }

  function Listing(slots: seq<Slot>, from: nat, parts: seq<Part>): seq<DirEntry>
    requires AllSlots(slots) && from <= |slots|
    decreases |slots| - from
  {
    if from == |slots| || AtEnd(slots[from]) then []
    else SlotEntry(slots[from], parts) + Listing(slots, from + 1, Waiting(slots[from], parts))
  }

  /** `parse_dir_entries` */
  method ParseDirEntries(raw: seq<Byte>) returns (entries: seq<DirEntry>)
    ensures entries == Listing(Slots(raw), 0, [])
  {
    hide SlotEntry, Waiting, Listing;
    entries := [];
    var parts: seq<Part> := [];
    ghost var slots := Slots(raw);
    ghost var t := 0;
    var i := 0;
    while i + SLOT <= |raw|
      invariant t <= |slots| && i == SLOT * t
      invariant Listing(slots, 0, []) == entries + Listing(slots, t, parts)
    {
      var entry := raw[i..i + SLOT];
      assert entry == slots[t];
      ListingStep(slots, t, parts, entries);
      i := i + SLOT;
      if entry[0] == 0x00 {
        return;
      }
      var part;
      part, parts := ParseSlot(entry, parts);
      entries := entries + part;
      t := t + 1;
    }
    ListingStops(slots, parts);
  }

  /** The body of the loop of `parse_dir_entries` for a slot in front of the end mark. */
  method ParseSlot(entry: Slot, parts: seq<Part>) returns (part: seq<DirEntry>, waiting: seq<Part>)
    requires |entry| == SLOT && !AtEnd(entry)
    ensures part == SlotEntry(entry, parts) && waiting == Waiting(entry, parts)
  {
    hide ShortName, PartOf, Sorted, Joined;
    if entry[0] == 0xE5 {
      return [], parts;
    }
    if entry[11] == 0x0F {
      return [], parts + [PartOf(entry)];
    }
    if IsLabel(entry) {
      return [], [];
    }
    var name;
    if parts != [] {
      name := Joined(Sorted(parts));
    } else {
      name := ShortName(NameOf(entry));
    }
    if name == [DOT] || name == [DOT, DOT] {
      return [], [];
    }
    return [DirEntry(name, IsDir(entry), SizeOf(entry), ClusterOf(entry))], [];
  }

  lemma ListingStep(slots: seq<Slot>, t: nat, parts: seq<Part>, entries: seq<DirEntry>)
    requires AllSlots(slots) && t < |slots|
    ensures AtEnd(slots[t]) ==> entries + Listing(slots, t, parts) == entries
    ensures !AtEnd(slots[t]) ==>
              entries + Listing(slots, t, parts) ==
              (entries + SlotEntry(slots[t], parts)) + Listing(slots, t + 1, Waiting(slots[t], parts))
  {
    hide SlotEntry, Waiting;
  }

  lemma ListingStops(slots: seq<Slot>, parts: seq<Part>)
    requires AllSlots(slots)
    ensures Listing(slots, |slots|, parts) == []
  {
  }

  function FirstNamed(entries: seq<DirEntry>, q: seq<Byte>): Option<DirEntry> {
    if entries == [] then None
    else if SameName(entries[0].name, q) then Some(entries[0])
    else FirstNamed(entries[1..], q)
  }

  /** The search of `resolve` in one directory. */
  method FindEntry(entries: seq<DirEntry>, q: seq<Byte>) returns (r: Option<DirEntry>)
    ensures r == FirstNamed(entries, q)
  {
    for i := 0 to |entries|
      invariant FirstNamed(entries, q) == FirstNamed(entries[i..], q)
    {
      if SameName(entries[i].name, q) {
        return Some(entries[i]);
      }
    }
    r := None;
  }

  // ---------------------------------------------------------------------------
  // A long name comes back
  // ---------------------------------------------------------------------------

  /** The units a slot stores for a piece: a zero behind the last one and then ones. */
  function StoredUnit(piece: seq<nat>, k: nat): nat {
    if k < |piece| then piece[k] else if k == |piece| then 0 else 0xFFFF
  }

  /** The unit that a byte of a slot belongs to, and whether it is the high byte. */
  function HalfAt(i: nat): Option<(nat, bool)>
    requires i < SLOT
    ensures HalfAt(i).Some? ==> HalfAt(i).value.0 < UNITS
  {
    if 1 <= i < 11 then Some(((i - 1) / 2, i % 2 == 0))
    else if 14 <= i < 26 then Some(((i - 4) / 2, i % 2 == 1))
    else if 28 <= i then Some(((i - 6) / 2, i % 2 == 1))
    else None
  }

  predicate IsPiece(piece: seq<nat>) {
    |piece| <= UNITS && forall k :: 0 <= k < |piece| ==> 0 < piece[k] < 0xFFFF
  }

  function LongByte(order: Byte, piece: seq<nat>, sum: Byte, i: nat): Byte
    requires IsPiece(piece) && i < SLOT
  {
    match HalfAt(i)
    case Some((k, high)) => if high then StoredUnit(piece, k) / 0x100 else StoredUnit(piece, k) % 0x100
    case None => if i == 0 then order else if i == 11 then 0x0F else if i == 13 then sum else 0
  }

  /** A long-name slot as the VFAT format lays it out. */
  function LongSlot(order: Byte, piece: seq<nat>, sum: Byte): (s: Slot)
    requires IsPiece(piece)
    ensures |s| == SLOT && forall i :: 0 <= i < SLOT ==> s[i] == LongByte(order, piece, sum, i)
  {
    seq(SLOT, i requires 0 <= i < SLOT => LongByte(order, piece, sum, i))
  }

  lemma UnitRead(order: Byte, piece: seq<nat>, sum: Byte, k: nat)
    requires IsPiece(piece) && k < UNITS
    ensures Le16(LongSlot(order, piece, sum), UnitAt(k)) == StoredUnit(piece, k)
  {
    var o := UnitAt(k);
    assert HalfAt(o) == Some((k, false)) && HalfAt(o + 1) == Some((k, true));
  }

  lemma {:induction false} GroupRead(order: Byte, piece: seq<nat>, sum: Byte, k: nat, end: nat)
    requires IsPiece(piece) && k <= end <= UNITS
    ensures Group(LongSlot(order, piece, sum), k, end) == Between(piece, k, end)
    decreases end - k
  {
    hide LongSlot, StoredUnit;
    if k < end {
      UnitRead(order, piece, sum, k);
      UnitIs(piece, k);
      GroupRead(order, piece, sum, k + 1, end);
    }
  }

  lemma UnitIs(piece: seq<nat>, k: nat)
    requires IsPiece(piece)
    ensures StoredUnit(piece, k) == 0 || StoredUnit(piece, k) == 0xFFFF <==> k >= |piece|
    ensures k < |piece| ==> StoredUnit(piece, k) == piece[k]
  {
  }

  lemma PieceRead(order: Byte, piece: seq<nat>, sum: Byte)
    requires IsPiece(piece)
    ensures PartOf(LongSlot(order, piece, sum)) == Part(order % 0x40, Text(piece))
  {
    hide LongSlot, Group, Text;
    var s := LongSlot(order, piece, sum);
    FirstByte(order, piece, sum);
    GroupRead(order, piece, sum, 0, 5);
    GroupRead(order, piece, sum, 5, 11);
    GroupRead(order, piece, sum, 11, 13);
    Cut(piece);
    TextConcat(Group(s, 0, 5), Group(s, 5, 11));
    TextConcat(Group(s, 0, 5) + Group(s, 5, 11), Group(s, 11, 13));
  }

  lemma FirstByte(order: Byte, piece: seq<nat>, sum: Byte)
    requires IsPiece(piece)
    ensures LongSlot(order, piece, sum)[0] == order && LongSlot(order, piece, sum)[11] == 0x0F
  {
    assert HalfAt(0) == None && HalfAt(11) == None;
  }

  function Between(piece: seq<nat>, k: nat, end: nat): seq<nat>
    requires k <= end
  {
    if k <= |piece| then piece[k..if end < |piece| then end else |piece|] else []
  }

  lemma Cut(piece: seq<nat>)
    requires |piece| <= UNITS
    ensures Between(piece, 0, 5) + Between(piece, 5, 11) + Between(piece, 11, 13) == piece
  {
  }

  /** The pieces of a long name. */
  function Pieces(units: seq<nat>): (r: seq<seq<nat>>)
    ensures |r| == (|units| + UNITS - 1) / UNITS
  {
    if units == [] then []
    else if |units| <= UNITS then [units]
    else [units[..UNITS]] + Pieces(units[UNITS..])
  }

  /** The slots of the pieces from number `k` on, the last piece first and marked. */
  function LongSlots(pieces: seq<seq<nat>>, k: nat, sum: Byte): (r: seq<Slot>)
    requires k <= |pieces| < 0x40 && forall i :: 0 <= i < |pieces| ==> IsPiece(pieces[i])
    ensures |r| == |pieces| - k && AllSlots(r)
    decreases |pieces| - k
  {
    if k == |pieces| then []
    else LongSlots(pieces, k + 1, sum) + [LongSlot(if k + 1 == |pieces| then 0x40 + k + 1 else k + 1, pieces[k], sum)]
  }

  /** The parts that these slots leave waiting. */
  function Parts(pieces: seq<seq<nat>>, k: nat): (r: seq<Part>)
    requires k <= |pieces|
    ensures |r| == |pieces| - k && forall i :: 0 <= i < |r| ==> r[i].order > k
    decreases |pieces| - k
  {
    if k == |pieces| then [] else Parts(pieces, k + 1) + [Part(k + 1, Text(pieces[k]))]
  }

  lemma {:induction false} InsertFirst(parts: seq<Part>, p: Part)
    requires forall i :: 0 <= i < |parts| ==> p.order < parts[i].order
    ensures Insert(parts, p) == [p] + parts
  {
    if parts != [] {
      InsertFirst(parts[..|parts| - 1], p);
      assert parts == parts[..|parts| - 1] + [parts[|parts| - 1]];
    }
  }

  lemma {:induction false} SortMembers(parts: seq<Part>)
    ensures forall x :: x in Sorted(parts) ==> x in parts
  {
    if parts != [] {
      SortMembers(parts[..|parts| - 1]);
      InsertMembers(Sorted(parts[..|parts| - 1]), parts[|parts| - 1]);
    }
  }

  /** Sorting turns the pieces round, and joins them to the text of the whole name. */
  lemma {:induction false} PartsJoin(pieces: seq<seq<nat>>, k: nat)
    requires k <= |pieces|
    ensures Joined(Sorted(Parts(pieces, k))) == TextOf(pieces[k..])
    decreases |pieces| - k
  {
    hide Insert, Text;
    if k < |pieces| {
      var rest, p := Parts(pieces, k + 1), Part(k + 1, Text(pieces[k]));
      PartsJoin(pieces, k + 1);
      SortMembers(rest);
      forall i | 0 <= i < |Sorted(rest)| ensures p.order < Sorted(rest)[i].order {
        assert Sorted(rest)[i] in rest;
      }
      InsertFirst(Sorted(rest), p);
      assert (rest + [p])[..|rest|] == rest;
      assert ([p] + Sorted(rest))[1..] == Sorted(rest);
      assert pieces[k..][1..] == pieces[k + 1..];
    }
  }

  function TextOf(pieces: seq<seq<nat>>): seq<Byte> {
    if pieces == [] then [] else Text(pieces[0]) + TextOf(pieces[1..])
  }

  lemma {:induction false} PiecesText(units: seq<nat>)
    ensures TextOf(Pieces(units)) == Text(units)
  {
    hide Text;
    if |units| > UNITS {
      PiecesText(units[UNITS..]);
      TextConcat(units[..UNITS], units[UNITS..]);
      assert units == units[..UNITS] + units[UNITS..];
      assert Pieces(units)[1..] == Pieces(units[UNITS..]);
    } else if units != [] {
      assert Pieces(units)[1..] == [];
    }
    NoText();
  }

  lemma NoText()
    ensures Text([]) == [] && TextOf([]) == []
  {
  }

  /** A name that a long-name entry can hold. */
  predicate IsLong(units: seq<nat>) {
    0 < |units| <= 0x3F * UNITS && forall k :: 0 <= k < |units| ==> 0 < units[k] < 0xFFFF
  }

  lemma {:induction false} PiecesFit(units: seq<nat>)
    requires forall k :: 0 <= k < |units| ==> 0 < units[k] < 0xFFFF
    ensures forall i :: 0 <= i < |Pieces(units)| ==> IsPiece(Pieces(units)[i])
  {
    if |units| > UNITS {
      PiecesFit(units[UNITS..]);
    }
  }

  /** Reading the slots of a name leaves its parts waiting. */
  lemma {:induction false} PartsWait(all: seq<Slot>, at: nat, pieces: seq<seq<nat>>, k: nat, sum: Byte)
    requires AllSlots(all) && k <= |pieces| < 0x40 && forall i :: 0 <= i < |pieces| ==> IsPiece(pieces[i])
    requires at + |pieces| - k <= |all| && all[at..at + |pieces| - k] == LongSlots(pieces, k, sum)
    ensures Listing(all, at, []) == Listing(all, at + |pieces| - k, Parts(pieces, k))
    decreases |pieces| - k
  {
    hide LongSlot, Text, Listing;
    if k < |pieces| {
      var n := at + |pieces| - k - 1;
      assert all[at..n + 1][..n - at] == all[at..n];
      PartsWait(all, at, pieces, k + 1, sum);
      var order: Byte := if k + 1 == |pieces| then 0x40 + k + 1 else k + 1;
      assert all[n] == all[at..n + 1][n - at] == LongSlot(order, pieces[k], sum);
      LongStep(all, n, order, pieces[k], sum, Parts(pieces, k + 1));
      assert order % 0x40 == k + 1;
    }
  }

  lemma LongStep(all: seq<Slot>, n: nat, order: Byte, piece: seq<nat>, sum: Byte, parts: seq<Part>)
    requires AllSlots(all) && n < |all| && IsPiece(piece) && 0 < order < 0x80 && all[n] == LongSlot(order, piece, sum)
    ensures Listing(all, n, parts) == Listing(all, n + 1, parts + [Part(order % 0x40, Text(piece))])
  {
    hide LongSlot, PartOf, Text;
    FirstByte(order, piece, sum);
    PieceRead(order, piece, sum);
  }

  // ---------------------------------------------------------------------------
  // A whole directory comes back
  // ---------------------------------------------------------------------------

  /**
   What a directory is laid out from: an entry with its short slot and, unless it is empty, a long
   name in front of it; or a slot that shows nothing.
   */
  datatype Item = Named(units: seq<nat>, sum: Byte, short: Slot) | Skipped(slot: Slot)

  function OwnName(units: seq<nat>, short: Slot): seq<Byte>
    requires |short| == SLOT
  {
    if units != [] then Text(units) else ShortName(NameOf(short))
  }

  /** The slot of an entry: neither free nor a long name, and a directory or not a label. */
  predicate ShowsEntry(s: Slot)
    requires |s| == SLOT
  {
    s[0] != 0 && s[0] != 0xE5 && s[11] != 0x0F && (s[11] / 0x10 % 2 == 1 || s[11] / 8 % 2 == 0)
  }

  ghost predicate IsItem(it: Item) {
    match it
    case Named(units, _, short) =>
      && (units == [] || IsLong(units)) && |short| == SLOT && ShowsEntry(short) && !IsDots(OwnName(units, short))
    case Skipped(slot) =>
      && |slot| == SLOT && slot[0] != 0
      && (slot[0] == 0xE5 || (slot[11] != 0x0F && (ShowsEntry(slot) ==> IsDots(ShortName(NameOf(slot))))))
  }

  ghost predicate AllItems(items: seq<Item>) {
    forall i :: 0 <= i < |items| ==> IsItem(items[i])
  }

  /** The entry with its own name, directory flag, size and first cluster. */
  function OwnEntry(it: Item): seq<DirEntry>
    requires it.Named? ==> |it.short| == SLOT
  {
    match it
    case Skipped(_) => []
    case Named(units, _, s) =>
      [DirEntry(OwnName(units, s), s[11] / 0x10 % 2 == 1,
                s[28] as nat + 0x100 * (s[29] as nat) + 0x1_0000 * (s[30] as nat) + 0x100_0000 * (s[31] as nat),
                s[26] as nat + 0x100 * (s[27] as nat) + 0x1_0000 * (s[20] as nat) + 0x100_0000 * (s[21] as nat))]
  }

  ghost function SlotsOf(it: Item): (r: seq<Slot>)
    requires IsItem(it)
    ensures AllSlots(r)
  {
    match it
    case Skipped(slot) => [slot]
    case Named(units, sum, short) =>
      LongFits(units);
      LongSlots(Pieces(units), 0, sum) + [short]
  }

  lemma LongFits(units: seq<nat>)
    requires units == [] || IsLong(units)
    ensures |Pieces(units)| < 0x40 && forall i :: 0 <= i < |Pieces(units)| ==> IsPiece(Pieces(units)[i])
  {
    PiecesFit(units);
  }

  ghost function Layout(items: seq<Item>): (r: seq<Slot>)
    requires AllItems(items)
    ensures AllSlots(r)
  {
    if items == [] then [] else SlotsOf(items[0]) + Layout(items[1..])
  }

  ghost function OwnEntries(items: seq<Item>): seq<DirEntry>
    requires AllItems(items)
  {
    if items == [] then [] else OwnEntry(items[0]) + OwnEntries(items[1..])
  }

  /** Behind a slot the listing goes on as if the directory began there. */
  lemma {:induction false} ListingTail(a: seq<Slot>, rest: seq<Slot>, from: nat, parts: seq<Part>)
    requires AllSlots(a) && AllSlots(rest) && from <= |rest|
    ensures AllSlots(a + rest) && Listing(a + rest, |a| + from, parts) == Listing(rest, from, parts)
    decreases |rest| - from
  {
    hide SlotEntry, Waiting;
    if from < |rest| {
      assert (a + rest)[|a| + from] == rest[from];
      ListingTail(a, rest, from + 1, Waiting(rest[from], parts));
    }
  }

  /** A slot that leaves nothing waiting, and the rest of the directory after it. */
  lemma SlotThenRest(a: seq<Slot>, s: Slot, rest: seq<Slot>, parts: seq<Part>)
    requires AllSlots(a) && |s| == SLOT && AllSlots(rest) && !AtEnd(s) && Waiting(s, parts) == []
    ensures AllSlots(a + [s] + rest)
    ensures Listing(a + [s] + rest, |a|, parts) == SlotEntry(s, parts) + Listing(rest, 0, [])
  {
    hide SlotEntry, Waiting;
    var all := a + [s] + rest;
    assert all[|a|] == s;
    ListingTail(a + [s], rest, 0, []);
  }

  /** What the short slot adds when the parts of its long name are waiting. */
  lemma OwnSlotEntry(units: seq<nat>, sum: Byte, short: Slot)
    requires IsItem(Named(units, sum, short))
    ensures SlotEntry(short, Parts(Pieces(units), 0)) == OwnEntry(Named(units, sum, short))
    ensures Waiting(short, Parts(Pieces(units), 0)) == []
  {
    hide Parts, Pieces, Text, Sorted, Joined, ShortName;
    var pieces := Pieces(units);
    PartsJoin(pieces, 0);
    assert pieces[0..] == pieces;
    PiecesText(units);
    LiveNotDeleted(short);
  }

  lemma LiveNotDeleted(s: Slot)
    requires |s| == SLOT && Live(s)
    ensures !Deleted(s) && !AtEnd(s)
  {
  }

  lemma SkippedAdds(slot: Slot)
    requires IsItem(Skipped(slot))
    ensures SlotEntry(slot, []) == [] && Waiting(slot, []) == []
  {
    hide ShortName, PartOf;
  }

  /** What an item is made of. */
  lemma ItemParts(it: Item)
    requires IsItem(it)
    ensures it.Skipped? ==> |it.slot| == SLOT && !AtEnd(it.slot) && SlotsOf(it) == [it.slot] && OwnEntry(it) == []
    ensures it.Named? ==> |it.short| == SLOT && !AtEnd(it.short) && (it.units == [] || IsLong(it.units))
    ensures it.Named? ==> |Pieces(it.units)| < 0x40 && forall i :: 0 <= i < |Pieces(it.units)| ==> IsPiece(Pieces(it.units)[i])
    ensures it.Named? ==> SlotsOf(it) == LongSlots(Pieces(it.units), 0, it.sum) + [it.short]
  {
    hide LongSlots, Pieces, IsLong, ShortName;
    if it.Named? { LongFits(it.units); }
  }

  /** One item in front of the rest of a directory. */
  lemma ItemListed(it: Item, rest: seq<Slot>)
    requires IsItem(it) && AllSlots(rest)
    ensures Listing(SlotsOf(it) + rest, 0, []) == OwnEntry(it) + Listing(rest, 0, [])
  {
    hide LongSlots, Parts, Pieces, SlotEntry, Waiting, IsItem, OwnEntry, SlotsOf, Listing, IsPiece, AtEnd;
    ItemParts(it);
    match it {
      case Skipped(slot) =>
        SkippedAdds(slot);
        SlotThenRest([], slot, rest, []);
        assert [] + [slot] + rest == SlotsOf(it) + rest;
      case Named(units, sum, short) =>
        var pieces := Pieces(units);
        var longs := LongSlots(pieces, 0, sum);
        var all := longs + [short] + rest;
        assert all[0..|pieces|] == longs;
        OwnSlotEntry(units, sum, short);
        SlotThenRest(longs, short, rest, Parts(pieces, 0));
        PartsWait(all, 0, pieces, 0, sum);
    }
  }

  /**
   A directory of any items is listed as their entries, each under its own name with its own
   fields, in order; what follows is listed as if it stood alone.
   */
  lemma {:induction false} DirectoryListed(items: seq<Item>, rest: seq<Slot>)
    requires AllItems(items) && AllSlots(rest)
    ensures Listing(Layout(items) + rest, 0, []) == OwnEntries(items) + Listing(rest, 0, [])
  {
    hide IsItem, OwnEntry, Listing, SlotsOf;
    if items == [] {
      assert Layout(items) + rest == rest;
    } else {
      var more := Layout(items[1..]) + rest;
      DirectoryListed(items[1..], rest);
      ItemListed(items[0], more);
      assert Layout(items) + rest == SlotsOf(items[0]) + more;
    }
  }

  lemma FirstSlot(s: Slot, rest: seq<Slot>, parts: seq<Part>)
    requires |s| == SLOT && AllSlots(rest)
    ensures AllSlots([s] + rest)
    ensures Listing([s] + rest, 0, parts) ==
            if AtEnd(s) then [] else SlotEntry(s, parts) + Listing(rest, 0, Waiting(s, parts))
  {
    hide SlotEntry, Waiting, AtEnd;
    ListingTail([s], rest, 0, Waiting(s, parts));
  }

  lemma DeletedAdds(s: Slot, parts: seq<Part>)
    requires |s| == SLOT && s[0] == 0xE5
    ensures !AtEnd(s) && SlotEntry(s, parts) == [] && Waiting(s, parts) == parts
  {
    hide NameFor, PartOf;
  }

  /** A deleted slot may be left out wherever it lies, in the middle of a long name too. */
  lemma {:induction false} DeletedIgnored(a: seq<Slot>, s: Slot, rest: seq<Slot>, parts: seq<Part>)
    requires AllSlots(a) && |s| == SLOT && s[0] == 0xE5 && AllSlots(rest)
    ensures AllSlots(a + [s] + rest) && Listing(a + [s] + rest, 0, parts) == Listing(a + rest, 0, parts)
    decreases |a|
  {
    hide SlotEntry, Waiting, AtEnd, Listing;
    if a == [] {
      assert a + [s] + rest == [s] + rest && a + rest == rest;
      DeletedAdds(s, parts);
      FirstSlot(s, rest, parts);
    } else {
      var more, fewer := a[1..] + [s] + rest, a[1..] + rest;
      assert a + [s] + rest == [a[0]] + more && a + rest == [a[0]] + fewer;
      DeletedIgnored(a[1..], s, rest, Waiting(a[0], parts));
      FirstSlot(a[0], more, parts);
      FirstSlot(a[0], fewer, parts);
    }
  }

  /** What `unlink_root` leaves of an entry: it marks the short slot only. */
  ghost function Remains(it: Item): (r: seq<Slot>)
    requires it.Named? && IsItem(it)
    ensures AllSlots(r)
  {
    var slots := SlotsOf(it);
    slots[..|slots| - 1] + [it.short[0 := 0xE5]]
  }

  /**
   The short-named entry behind a removed one is listed with its own fields, but under the long
   name of the removed one if that had any.
   */
  lemma NextInheritsName(it: Item, next: Item, rest: seq<Slot>)
    requires it.Named? && IsItem(it) && next.Named? && next.units == [] && IsItem(next) && AllSlots(rest)
    ensures Listing(Remains(it) + ([next.short] + rest), 0, []) == OwnEntry(next.(units := it.units)) + Listing(rest, 0, [])
    ensures OwnEntry(next.(units := it.units)) == OwnEntry(next) <==>
            it.units == [] || Text(it.units) == ShortName(NameOf(next.short))
  {
    hide LongSlots, Pieces, Text, ShortName, IsLong, Listing, IsDots;
    var heir := Heir(it, next);
    ItemParts(it);
    ItemParts(heir);
    var longs := LongSlots(Pieces(it.units), 0, it.sum);
    assert SlotsOf(it)[..|SlotsOf(it)| - 1] == longs;
    DeletedIgnored(longs, it.short[0 := 0xE5], [next.short] + rest, []);
    ItemListed(heir, rest);
    assert SlotsOf(heir) + rest == longs + ([next.short] + rest);
  }

  lemma Heir(it: Item, next: Item) returns (heir: Item)
    requires it.Named? && IsItem(it) && next.Named? && next.units == [] && IsItem(next)
    ensures heir == Named(it.units, it.sum, next.short) && IsItem(heir)
    ensures OwnEntry(heir) == OwnEntry(next.(units := it.units))
  {
    hide Text, ShortName, IsLong, IsDots;
    heir := Named(it.units, it.sum, next.short);
  }

  /** One long name, whatever the short name is. */
  lemma LongNameListed(units: seq<nat>, sum: Byte, short: Slot)
    requires IsLong(units) && |short| == SLOT && Live(short) && !IsLongName(short) && !IsLabel(short)
    requires !IsDots(Text(units))
    ensures forall i :: 0 <= i < |Pieces(units)| ==> IsPiece(Pieces(units)[i])
    ensures Listing(LongSlots(Pieces(units), 0, sum) + [short], 0, []) ==
            [DirEntry(Text(units), IsDir(short), SizeOf(short), ClusterOf(short))]
  {
    hide LongSlots, Pieces, Text, ShortName;
    LongFits(units);
    var it := Named(units, sum, short);
    ItemListed(it, []);
    ListingStops([], []);
    assert SlotsOf(it) + [] == SlotsOf(it);
  }
}
