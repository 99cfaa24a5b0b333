/**
 Directory slots of 32 bytes: how kernel/src/drivers/fat32.rs finds a name among them and how it
 picks the slot for a new entry.
 */
module FatDirectory {
  import opened Options
  import opened FatNames

  const SLOT: nat := 32

  type Slot = seq<Byte>

  /** The 32-byte slots of a run of bytes. */
  function Slots(raw: seq<Byte>): (r: seq<Slot>)
    ensures |r| == |raw| / SLOT && forall k :: 0 <= k < |r| ==> r[k] == raw[SLOT * k..SLOT * k + SLOT]
  {
    seq(|raw| / SLOT, k requires 0 <= k < |raw| / SLOT => raw[SLOT * k..SLOT * k + SLOT])
  }

  lemma SlotsConcat(a: seq<Byte>, b: seq<Byte>)
    requires |a| % SLOT == 0
    ensures Slots(a + b) == Slots(a) + Slots(b)
  {
    var l, r := Slots(a + b), Slots(a) + Slots(b);
    forall k | 0 <= k < |l| ensures l[k] == r[k] {
      if k < |a| / SLOT {
        assert (a + b)[SLOT * k..SLOT * k + SLOT] == a[SLOT * k..SLOT * k + SLOT];
      } else {
        var j := k - |a| / SLOT;
        assert (a + b)[SLOT * k..SLOT * k + SLOT] == b[SLOT * j..SLOT * j + SLOT];
      }
    }
  }

  // ---------------------------------------------------------------------------
  // Fields of a slot
  // ---------------------------------------------------------------------------

  ghost predicate IsSlot(s: Slot) { |s| == SLOT }

  predicate AtEnd(s: Slot) requires |s| == SLOT { s[0] == 0x00 }

  predicate Deleted(s: Slot) requires |s| == SLOT { s[0] == 0xE5 }

  predicate Live(s: Slot) requires |s| == SLOT { !AtEnd(s) && !Deleted(s) }

  predicate IsLongName(s: Slot) requires |s| == SLOT { s[11] == 0x0F }

  /** A volume label: bit 3 of the attributes without bit 4. */
  predicate IsLabel(s: Slot) requires |s| == SLOT { s[11] / 8 % 2 == 1 && s[11] / 16 % 2 == 0 }

  predicate IsDir(s: Slot) requires |s| == SLOT { s[11] / 16 % 2 == 1 }

  function NameOf(s: Slot): (n: seq<Byte>)
    requires |s| == SLOT
    ensures |n| == 11
  {
    s[..11]
  }

  function Le16(s: seq<Byte>, o: nat): nat
    requires o + 2 <= |s|
  {
    s[o] as nat + 0x100 * (s[o + 1] as nat)
  }

  function Le32(s: seq<Byte>, o: nat): nat
    requires o + 4 <= |s|
  {
    s[o] as nat + 0x100 * (s[o + 1] as nat) + 0x1_0000 * (s[o + 2] as nat) + 0x100_0000 * (s[o + 3] as nat)
  }

  function ClusterOf(s: Slot): nat
    requires |s| == SLOT
  {
    0x1_0000 * Le16(s, 20) + Le16(s, 26)
  }

  function SizeOf(s: Slot): nat
    requires |s| == SLOT
  {
    Le32(s, 28)
  }

  function Bytes16(v: nat): (r: seq<Byte>)
    ensures |r| == 2 && (v < 0x1_0000 ==> Le16(r, 0) == v)
  {
    [v % 0x100, v / 0x100 % 0x100]
  }

  function Bytes32(v: nat): (r: seq<Byte>)
    ensures |r| == 4 && (v < 0x1_0000_0000 ==> Le32(r, 0) == v)
  {
    [v % 0x100, v / 0x100 % 0x100, v / 0x1_0000 % 0x100, v / 0x100_0000 % 0x100]
  }

  /** The slot that `upsert_root_dir_entry` writes. */
  function Entry(name: seq<Byte>, first: nat, size: nat): (s: Slot)
    requires |name| == 11
    ensures |s| == SLOT
  {
    name + [0x20] + Zeros(8) + Bytes16(first / 0x1_0000 % 0x1_0000) + Zeros(4) + Bytes16(first % 0x1_0000) + Bytes32(size)
  }

  function Zeros(n: nat): (r: seq<Byte>)
    ensures |r| == n && forall i :: 0 <= i < n ==> r[i] == 0
  {
    seq(n, _ => 0)
  }

  /** Fields written are fields read. */
  lemma EntryFields(name: seq<Byte>, first: nat, size: nat)
    requires |name| == 11 && first < 0x1_0000_0000 && size < 0x1_0000_0000
    ensures var s := Entry(name, first, size);
            && NameOf(s) == name && !IsLongName(s) && !IsLabel(s) && !IsDir(s)
            && ClusterOf(s) == first && SizeOf(s) == size
  {
    var s := Entry(name, first, size);
    var hi, lo := Bytes16(first / 0x1_0000 % 0x1_0000), Bytes16(first % 0x1_0000);
    assert NameOf(s) == name;
    assert s[20] == hi[0] && s[21] == hi[1];
    assert s[26] == lo[0] && s[27] == lo[1];
    var z := Bytes32(size);
    assert s[28] == z[0] && s[29] == z[1] && s[30] == z[2] && s[31] == z[3];
  }

  // ---------------------------------------------------------------------------
  // Looking a name up
  // ---------------------------------------------------------------------------

  ghost predicate AllSlots(slots: seq<Slot>) {
    forall t :: 0 <= t < |slots| ==> IsSlot(slots[t])
  }

  /** A slot that `parse_dir_entries` turns into the entry with the given name. */
  predicate Shows(s: Slot, q: seq<Byte>)
    requires |s| == SLOT
  {
    && Live(s) && !IsLabel(s) && SameName(Display(NameOf(s)), q)
    && Display(NameOf(s)) != [DOT] && Display(NameOf(s)) != [DOT, DOT]
  }

  /** The slot of the first entry with a given name, among those before the end mark. */
  function Lookup(slots: seq<Slot>, q: seq<Byte>, from: nat): (r: Option<nat>)
    requires AllSlots(slots) && from <= |slots|
    ensures r.Some? ==> from <= r.value < |slots| && Shows(slots[r.value], q)
    decreases |slots| - from
  {
    if from == |slots| || AtEnd(slots[from]) then None
    else if Shows(slots[from], q) then Some(from)
    else Lookup(slots, q, from + 1)
  }

  lemma ShowsLive(s: Slot, q: seq<Byte>)
    requires |s| == SLOT && Shows(s, q)
    ensures Live(s)
  {
  }

  lemma {:induction false} LookupIs(slots: seq<Slot>, q: seq<Byte>, from: nat, s: nat)
    requires AllSlots(slots) && from <= s < |slots| && Shows(slots[s], q)
    requires forall t :: from <= t < s ==> !AtEnd(slots[t]) && !Shows(slots[t], q)
    ensures Lookup(slots, q, from) == Some(s)
    decreases s - from
  {
    hide Shows;
    ShowsLive(slots[s], q);
    if from < s {
      LookupIs(slots, q, from + 1, s);
    }
  }

  /** Two directories that show the same slots for a name, in front of the same end. */
  lemma {:induction false} LookupSame(a: seq<Slot>, b: seq<Slot>, q: seq<Byte>, from: nat)
    requires AllSlots(a) && AllSlots(b) && from <= |a| == |b|
    requires ZeroTail(a) && ZeroTail(b)
    requires forall t :: 0 <= t < |a| ==> (Shows(a[t], q) <==> Shows(b[t], q))
    ensures Lookup(a, q, from) == Lookup(b, q, from)
    decreases |a| - from
  {
    hide Shows;
    if from < |a| {
      LookupSame(a, b, q, from + 1);
      if AtEnd(a[from]) {
        NothingAfter(a, q, from);
        LookupNone(b, q, from);
      } else if AtEnd(b[from]) {
        NothingAfter(b, q, from);
        LookupNone(a, q, from);
      }
    }
  }

  /** Behind an end mark there are only end marks. */
  ghost predicate ZeroTail(slots: seq<Slot>)
    requires AllSlots(slots)
  {
    forall t, u :: 0 <= t < u < |slots| && AtEnd(slots[t]) ==> AtEnd(slots[u])
  }

  lemma NothingAfter(slots: seq<Slot>, q: seq<Byte>, from: nat)
    requires AllSlots(slots) && ZeroTail(slots) && from < |slots| && AtEnd(slots[from])
    ensures forall t :: from <= t < |slots| ==> !Shows(slots[t], q)
  {
  }

  lemma {:induction false} LookupNone(slots: seq<Slot>, q: seq<Byte>, from: nat)
    requires AllSlots(slots) && from <= |slots|
    requires forall t :: from <= t < |slots| ==> !Shows(slots[t], q)
    ensures Lookup(slots, q, from) == None
    decreases |slots| - from
  {
    hide Shows;
    if from < |slots| {
      LookupNone(slots, q, from + 1);
    }
  }

  lemma {:induction false} LookupSome(slots: seq<Slot>, q: seq<Byte>, from: nat, t: nat)
    requires AllSlots(slots) && ZeroTail(slots) && from <= t < |slots| && Shows(slots[t], q)
    ensures Lookup(slots, q, from).Some?
    decreases t - from
  {
    hide Shows;
    ShowsLive(slots[t], q);
    if from < t {
      LookupSome(slots, q, from + 1, t);
    }
  }

  /** A directory grown by end marks finds what it found before. */
  lemma {:induction false} LookupGrown(a: seq<Slot>, more: seq<Slot>, q: seq<Byte>, from: nat)
    requires AllSlots(a) && AllSlots(a + more) && from <= |a|
    requires forall t :: |a| <= t < |a + more| ==> AtEnd((a + more)[t])
    ensures Lookup(a + more, q, from) == Lookup(a, q, from)
    decreases |a| - from
  {
    hide Shows;
    if from < |a| {
      assert (a + more)[from] == a[from];
      LookupGrown(a, more, q, from + 1);
    }
  }

  // ---------------------------------------------------------------------------
  // Choosing a slot
  // ---------------------------------------------------------------------------

  /** A live short entry with exactly these 11 name bytes. */
  predicate Matches(s: Slot, n: seq<Byte>)
    requires |s| == SLOT
  {
    Live(s) && !IsLongName(s) && NameOf(s) == n
  }

  /** A deleted slot that may be used again. */
  predicate Reusable(s: Slot)
    requires |s| == SLOT
  {
    Deleted(s) && !IsLongName(s)
  }

  predicate Stops(s: Slot, n: seq<Byte>)
    requires |s| == SLOT
  {
    AtEnd(s) || Matches(s, n)
  }

  /**
   The slot taken in one directory cluster: the first end mark or match, and failing both the
   first deleted slot.
   */
  ghost predicate IsChoice(slots: seq<Slot>, n: seq<Byte>, k: nat)
    requires AllSlots(slots)
  {
    && k < |slots|
    && (forall t :: 0 <= t < k ==> !Stops(slots[t], n))
    && (Stops(slots[k], n) ||
        (Reusable(slots[k]) && (forall t :: 0 <= t < |slots| ==> !Stops(slots[t], n))
         && (forall t :: 0 <= t < k ==> !Reusable(slots[t]))))
  }

  ghost predicate NoChoice(slots: seq<Slot>, n: seq<Byte>)
    requires AllSlots(slots)
  {
    forall t :: 0 <= t < |slots| ==> !Stops(slots[t], n) && !Reusable(slots[t])
  }

  /** The scan of one cluster in `upsert_root_dir_entry`. */
  method Choose(slots: seq<Slot>, n: seq<Byte>) returns (chosen: Option<nat>, replace: bool)
    requires AllSlots(slots)
    ensures chosen == None <==> NoChoice(slots, n)
    ensures chosen.Some? ==> IsChoice(slots, n, chosen.value) && (replace <==> Matches(slots[chosen.value], n))
  {
    chosen, replace := None, false;
    var k := 0;
    while k < |slots|
      invariant k <= |slots| && !replace
      invariant forall t :: 0 <= t < k ==> !Stops(slots[t], n)
      invariant chosen == None ==> forall t :: 0 <= t < k ==> !Reusable(slots[t])
      invariant chosen.Some? ==> chosen.value < k && Reusable(slots[chosen.value])
                                 && forall t :: 0 <= t < chosen.value ==> !Reusable(slots[t])
    {
      if AtEnd(slots[k]) {
        return Some(k), false;
      }
      if !IsLongName(slots[k]) {
        if Deleted(slots[k]) {
          if chosen == None {
            chosen := Some(k);
          }
        } else if NameOf(slots[k]) == n {
          return Some(k), true;
        }
      }
      k := k + 1;
    }
  }
}
