/**
 Short 8.3 names: `pack_short_name` and the name that `parse_dir_entries` shows for a directory
 slot, of kernel/src/drivers/fat32.rs.  Names are their UTF-8 bytes.
 */
module FatNames {
  import opened Options

  type Byte = b: nat | b < 256

  const SPACE: Byte := 0x20
  const DOT: Byte := 0x2e

  function Upper(b: Byte): Byte {
    if 0x61 <= b <= 0x7a then b - 0x20 else b
  }

  function UpperAll(s: seq<Byte>): (r: seq<Byte>)
    ensures |r| == |s| && forall i :: 0 <= i < |s| ==> r[i] == Upper(s[i])
  {
    seq(|s|, i requires 0 <= i < |s| => Upper(s[i]))
  }

  /** `is_valid_short_byte` */
  predicate ValidByte(b: Byte) {
    || 0x41 <= b <= 0x5a || 0x30 <= b <= 0x39
    || b == 0x5f || b == 0x2d || b == 0x24 || b == 0x25 || b == 0x26 || b == 0x21 || b == 0x40
    || b == 0x7e || b == 0x28 || b == 0x29 || b == 0x7b || b == 0x7d || b == 0x23 || b == 0x5e
  }

  predicate AllValid(s: seq<Byte>) {
    forall i :: 0 <= i < |s| ==> ValidByte(s[i])
  }

  /** The position of the first dot, or the length. */
  function DotAt(s: seq<Byte>): (k: nat)
    ensures k <= |s| && (k < |s| ==> s[k] == DOT) && forall i :: 0 <= i < k ==> s[i] != DOT
  {
    if s == [] || s[0] == DOT then 0 else 1 + DotAt(s[1..])
  }

  function BaseOf(s: seq<Byte>): seq<Byte> { s[..DotAt(s)] }

  function ExtOf(s: seq<Byte>): seq<Byte> {
    if DotAt(s) < |s| then s[DotAt(s) + 1..] else []
  }

  function Padded(s: seq<Byte>, n: nat): (r: seq<Byte>)
    requires |s| <= n
    ensures |r| == n && r[..|s|] == s && forall i :: |s| <= i < n ==> r[i] == SPACE
  {
    s + seq(n - |s|, _ => SPACE)
  }

  /** `pack_short_name` */
  function Pack(name: seq<Byte>): (r: Option<seq<Byte>>)
    ensures r.Some? ==> |r.value| == 11
  {
    var upper := UpperAll(name);
    var base, ext := BaseOf(upper), ExtOf(upper);
    if base == [] || |base| > 8 || |ext| > 3 || !AllValid(base) || !AllValid(ext) then None
    else Some(Padded(base, 8) + Padded(ext, 3))
  }

  predicate IsSpace(b: Byte) { b == SPACE || 0x09 <= b <= 0x0d }

  function TrimEnd(s: seq<Byte>): (r: seq<Byte>)
    ensures |r| <= |s| && r == s[..|r|]
    ensures r != [] ==> !IsSpace(r[|r| - 1])
    ensures forall i :: |r| <= i < |s| ==> IsSpace(s[i])
  {
    if s != [] && IsSpace(s[|s| - 1]) then TrimEnd(s[..|s| - 1]) else s
  }

  function TrimStart(s: seq<Byte>): (r: seq<Byte>)
    ensures |r| <= |s| && r == s[|s| - |r|..]
  {
    if s != [] && IsSpace(s[0]) then TrimStart(s[1..]) else s
  }

  function Trim(s: seq<Byte>): seq<Byte> { TrimStart(TrimEnd(s)) }

  /** The name shown for the 11 name bytes of a slot. */
  function Display(n: seq<Byte>): seq<Byte>
    requires |n| == 11
  {
    var base, ext := Trim(n[..8]), Trim(n[8..]);
    if ext == [] then base else base + [DOT] + ext
  }

  /** `eq_ignore_ascii_case` */
  predicate SameName(a: seq<Byte>, b: seq<Byte>) { UpperAll(a) == UpperAll(b) }

  // ---------------------------------------------------------------------------
  // Canonical stored names
  // ---------------------------------------------------------------------------

  /** A word of upper-case printable characters without dots, then only spaces. */
  ghost predicate WordThenSpaces(s: seq<Byte>, k: nat) {
    && k <= |s|
    && (forall i :: 0 <= i < k ==> 0x21 <= s[i] < 0x7f && s[i] != DOT && !(0x61 <= s[i] <= 0x7a))
    && (forall i :: k <= i < |s| ==> s[i] == SPACE)
  }

  ghost predicate Canonical(n: seq<Byte>) {
    && |n| == 11
    && (exists k: nat :: 0 < k && WordThenSpaces(n[..8], k))
    && (exists k: nat :: WordThenSpaces(n[8..], k))
  }

  lemma TrimWord(s: seq<Byte>, k: nat)
    requires WordThenSpaces(s, k)
    ensures Trim(s) == s[..k]
  {
    var e := TrimEnd(s);
    assert 0 < |e| ==> e[|e| - 1] == s[|e| - 1];
    assert 0 < k ==> !IsSpace(s[k - 1]);
    assert |e| == k;
  }

  lemma PadWord(s: seq<Byte>, n: nat)
    requires AllValid(s) && |s| <= n
    ensures WordThenSpaces(Padded(s, n), |s|)
  {
    var p := Padded(s, n);
    forall i | 0 <= i < |s| ensures 0x21 <= p[i] < 0x7f && p[i] != DOT && !(0x61 <= p[i] <= 0x7a) {
      assert p[i] == p[..|s|][i] == s[i];
    }
  }

  /** What a packed name is made of. */
  lemma PackParts(name: seq<Byte>)
    requires Pack(name).Some?
    ensures var n := Pack(name).value;
            var base, ext := BaseOf(UpperAll(name)), ExtOf(UpperAll(name));
            && 0 < |base| <= 8 && |ext| <= 3
            && n[..8] == Padded(base, 8) && n[8..] == Padded(ext, 3)
            && WordThenSpaces(n[..8], |base|) && WordThenSpaces(n[8..], |ext|)
            && Display(n) == if ext == [] then base else base + [DOT] + ext
  {
    var base, ext := BaseOf(UpperAll(name)), ExtOf(UpperAll(name));
    var n := Pack(name).value;
    assert n[..8] == Padded(base, 8);
    assert n[8..] == Padded(ext, 3);
    PadWord(base, 8);
    PadWord(ext, 3);
    TrimWord(n[..8], |base|);
    TrimWord(n[8..], |ext|);
  }

  lemma PackCanonical(name: seq<Byte>)
    requires Pack(name).Some?
    ensures Canonical(Pack(name).value)
    ensures Pack(name).value[0] != 0 && Pack(name).value[0] != 0xE5
  {
    PackParts(name);
    var n := Pack(name).value;
    assert n[0] == n[..8][0];
  }

  /** A name that packs is its base and extension, with a dot unless neither is there. */
  lemma Spelled(s: seq<Byte>)
    ensures s == if DotAt(s) < |s| then BaseOf(s) + [DOT] + ExtOf(s) else BaseOf(s)
  {
    hide DotAt;
    SplitAt(s, DotAt(s));
  }

  lemma SplitAt(s: seq<Byte>, k: nat)
    requires k <= |s|
    ensures k < |s| ==> s == s[..k] + [s[k]] + s[k + 1..]
    ensures k == |s| ==> s == s[..k]
  {
  }

  lemma UpperFixed(s: seq<Byte>)
    requires forall i :: 0 <= i < |s| ==> !(0x61 <= s[i] <= 0x7a)
    ensures UpperAll(s) == s
  {
  }

  lemma ShownUpper(base: seq<Byte>, ext: seq<Byte>, upper: seq<Byte>)
    requires base != [] && AllValid(base) && AllValid(ext)
    requires upper == base + [DOT] + ext || (ext == [] && upper == base)
    ensures var shown := if ext == [] then base else base + [DOT] + ext;
            UpperAll(shown) == shown && (shown == upper <==> upper[|upper| - 1] != DOT)
  {
    var shown := if ext == [] then base else base + [DOT] + ext;
    UpperFixed(shown);
    if ext == [] && upper == base + [DOT] + ext {
      assert |upper| == |shown| + 1;
    }
  }

  /** The name shown for a packed name is that name, unless it ends in a dot. */
  lemma ShownExactly(name: seq<Byte>)
    requires Pack(name).Some?
    ensures name != []
    ensures SameName(Display(Pack(name).value), name) <==> name[|name| - 1] != DOT
  {
    hide Display, Trim, WordThenSpaces;
    var upper := UpperAll(name);
    PackParts(name);
    Spelled(upper);
    hide Pack, BaseOf, ExtOf;
    ShownUpper(BaseOf(upper), ExtOf(upper), upper);
    assert upper[|name| - 1] == Upper(name[|name| - 1]);
  }

  /** The base and extension of a canonical stored name. */
  lemma StoredParts(m: seq<Byte>) returns (base: seq<Byte>, ext: seq<Byte>)
    requires Canonical(m)
    ensures 0 < |base| <= 8 && |ext| <= 3 && m == Padded(base, 8) + Padded(ext, 3)
    ensures Display(m) == if ext == [] then base else base + [DOT] + ext
    ensures forall i :: 0 <= i < |base| ==> base[i] != DOT
    ensures UpperAll(Display(m)) == Display(m)
  {
    hide Trim, WordThenSpaces;
    var a: nat :| 0 < a && WordThenSpaces(m[..8], a);
    var b: nat :| WordThenSpaces(m[8..], b);
    WordFacts(m[..8], a);
    WordFacts(m[8..], b);
    base, ext := m[..8][..a], m[8..][..b];
    assert m == m[..8] + m[8..];
    var shown := if ext == [] then base else base + [DOT] + ext;
    UpperFixed(shown);
  }

  lemma WordFacts(s: seq<Byte>, k: nat)
    requires WordThenSpaces(s, k)
    ensures k <= |s| && Trim(s) == s[..k] && s == Padded(s[..k], |s|)
    ensures forall i :: 0 <= i < k ==> s[..k][i] != DOT && !(0x61 <= s[..k][i] <= 0x7a)
  {
    TrimWord(s, k);
  }

  /** Only the slot with the packed name itself shows a given name. */
  lemma ShownOnce(m: seq<Byte>, name: seq<Byte>)
    requires Canonical(m) && Pack(name).Some? && SameName(Display(m), name)
    ensures m == Pack(name).value
  {
    hide Canonical, Display, BaseOf, ExtOf;
    var base, ext := StoredParts(m);
    SplitShown(base, ext);
  }

  /** Base and extension of a shown name are found again. */
  lemma SplitShown(base: seq<Byte>, ext: seq<Byte>)
    requires forall i :: 0 <= i < |base| ==> base[i] != DOT
    ensures var shown := if ext == [] then base else base + [DOT] + ext;
            BaseOf(shown) == base && ExtOf(shown) == ext
  {
    var shown := if ext == [] then base else base + [DOT] + ext;
    assert shown[..|base|] == base;
    DotOf(base, shown);
    assert ext != [] ==> shown[|base| + 1..] == ext;
  }

  lemma DotOf(base: seq<Byte>, s: seq<Byte>)
    requires |base| <= |s| && s[..|base|] == base && (|base| < |s| ==> s[|base|] == DOT)
    requires forall i :: 0 <= i < |base| ==> base[i] != DOT
    ensures DotAt(s) == |base|
  {
    assert forall i :: 0 <= i < |base| ==> s[i] == s[..|base|][i];
  }

  /** Every spelling of a shown name packs to the stored name. */
  lemma PackShown(name: seq<Byte>, q: seq<Byte>)
    requires Pack(name).Some? && SameName(Display(Pack(name).value), q)
    ensures Pack(q) == Pack(name)
  {
    hide Display, WordThenSpaces, BaseOf, ExtOf;
    PackParts(name);
    var base, ext := BaseOf(UpperAll(name)), ExtOf(UpperAll(name));
    var shown := if ext == [] then base else base + [DOT] + ext;
    UpperFixed(shown);
    SplitShown(base, ext);
  }

  // ---------------------------------------------------------------------------
  // Which names pack
  // ---------------------------------------------------------------------------

  /** The letters, the digits and the fourteen signs ! # $ % & ( ) - @ ^ _ { } ~. */
  predicate NameChar(b: Byte) {
    || 0x61 <= b <= 0x7a || 0x41 <= b <= 0x5a || 0x30 <= b <= 0x39
    || b in {0x21, 0x23, 0x24, 0x25, 0x26, 0x28, 0x29, 0x2d, 0x40, 0x5e, 0x5f, 0x7b, 0x7d, 0x7e}
  }

  predicate NameChars(s: seq<Byte>) {
    forall i :: 0 <= i < |s| ==> NameChar(s[i])
  }

  /** A base of 1 to 8 and an extension of 0 to 3 characters. */
  predicate Parts83(base: seq<Byte>, ext: seq<Byte>) {
    1 <= |base| <= 8 && |ext| <= 3 && NameChars(base) && NameChars(ext)
  }

  /** A name in 8.3 form. */
  ghost predicate Is83(name: seq<Byte>) {
    exists base, ext :: Parts83(base, ext) && (name == base || name == base + [DOT] + ext)
  }

  /** Letters in upper case, base and extension in their columns, blanks between. */
  ghost predicate Columns(base: seq<Byte>, ext: seq<Byte>, n: seq<Byte>) {
    && |n| == 11
    && (forall i :: 0 <= i < 8 ==> n[i] == if i < |base| then Capital(base[i]) else 0x20)
    && (forall i :: 0 <= i < 3 ==> n[8 + i] == if i < |ext| then Capital(ext[i]) else 0x20)
  }

  function Capital(b: Byte): Byte { if 0x61 <= b <= 0x7a then b - 32 else b }

  lemma CharValid(b: Byte)
    ensures ValidByte(Upper(b)) <==> NameChar(b)
    ensures NameChar(b) ==> b != DOT
    ensures Upper(b) == DOT <==> b == DOT
  {
  }

  lemma CharsValid(s: seq<Byte>)
    ensures AllValid(UpperAll(s)) <==> NameChars(s)
  {
    hide ValidByte, NameChar;
    forall i | 0 <= i < |s| ensures ValidByte(UpperAll(s)[i]) <==> NameChar(s[i]) {
      CharValid(s[i]);
    }
  }

  /** The parts of a name in 8.3 form are its base and extension. */
  lemma PartsOf(base: seq<Byte>, ext: seq<Byte>, name: seq<Byte>)
    requires NameChars(base) && (name == base + [DOT] + ext || (ext == [] && name == base))
    ensures BaseOf(UpperAll(name)) == UpperAll(base) && ExtOf(UpperAll(name)) == UpperAll(ext)
  {
    hide NameChar;
    var upper := UpperAll(name);
    forall i | 0 <= i < |base| ensures UpperAll(base)[i] != DOT {
      CharValid(base[i]);
    }
    assert upper[..|base|] == UpperAll(base);
    DotOf(UpperAll(base), upper);
    if name == base + [DOT] + ext {
      assert upper[|base| + 1..] == UpperAll(ext);
    }
  }

  /** A name in 8.3 form packs, and into its columns. */
  lemma PacksInto(base: seq<Byte>, ext: seq<Byte>, name: seq<Byte>)
    requires Parts83(base, ext) && (name == base + [DOT] + ext || (ext == [] && name == base))
    ensures Pack(name).Some? && Columns(base, ext, Pack(name).value)
  {
    hide NameChars, BaseOf, ExtOf, UpperAll, AllValid, Padded, Columns;
    PartsOf(base, ext, name);
    CharsValid(base);
    CharsValid(ext);
    ColumnsOf(base, ext);
  }

  lemma ColumnsOf(base: seq<Byte>, ext: seq<Byte>)
    requires |base| <= 8 && |ext| <= 3
    ensures Columns(base, ext, Padded(UpperAll(base), 8) + Padded(UpperAll(ext), 3))
  {
    hide Padded, UpperAll;
    PaddedAt(base, 8);
    PaddedAt(ext, 3);
  }

  lemma PaddedAt(s: seq<Byte>, n: nat)
    requires |s| <= n
    ensures forall i :: 0 <= i < n ==> Padded(UpperAll(s), n)[i] == if i < |s| then Capital(s[i]) else 0x20
  {
    var r := Padded(UpperAll(s), n);
    forall i | 0 <= i < |s| ensures r[i] == Capital(s[i]) {
      assert r[i] == r[..|s|][i];
    }
  }

  /** What a name is made of, around its first dot. */
  lemma AroundDot(name: seq<Byte>) returns (base: seq<Byte>, ext: seq<Byte>)
    ensures UpperAll(base) == BaseOf(UpperAll(name)) && UpperAll(ext) == ExtOf(UpperAll(name))
    ensures name == base + [DOT] + ext || (ext == [] && name == base)
  {
    var upper := UpperAll(name);
    var k := DotAt(upper);
    base, ext := name[..k], if k < |name| then name[k + 1..] else [];
    assert UpperAll(base) == BaseOf(upper) && UpperAll(ext) == ExtOf(upper);
    hide DotAt, BaseOf, ExtOf;
    SplitAt(name, k);
    if k < |name| {
      CharValid(name[k]);
    }
  }

  lemma PackedIs83(name: seq<Byte>)
    requires Pack(name).Some?
    ensures Is83(name)
  {
    hide NameChars, AllValid, BaseOf, ExtOf;
    var base, ext := AroundDot(name);
    CharsValid(base);
    CharsValid(ext);
    assert Parts83(base, ext);
  }

  /** A name packs if and only if it is in 8.3 form. */
  lemma PacksExactly(name: seq<Byte>)
    ensures Pack(name).Some? <==> Is83(name)
  {
    hide Pack, NameChars, Columns;
    if Pack(name).Some? {
      PackedIs83(name);
    }
    if Is83(name) {
      var base, ext :| Parts83(base, ext) && (name == base || name == base + [DOT] + ext);
      if name == base {
        PacksInto(base, [], name) by { NoChars(); }
      } else {
        PacksInto(base, ext, name);
      }
    }
  }

  lemma NoChars()
    ensures NameChars([])
  {
  }
}
