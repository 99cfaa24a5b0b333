/**
 The sectors of a FAT32 volume: table entries in every copy of the table, and clusters in the data
 area, as kernel/src/drivers/fat32.rs reads and writes them.  A transfer of an existing sector
 does not fail.
 */
module FatDisk {
  import opened Options
  import opened Arithmetic
  import opened FatChains
  import opened FatNames
  import opened FatDirectory
  import opened FatVolume
  import opened FatFiles

  const SECTOR_SIZE: nat := 512
  const ENTRIES_PER_SECTOR: nat := 128
  const LOW: nat := 0x1000_0000

  /** From here on the byte offset of an entry does not fit 32 bits. */
  const OFFSET_LIMIT: nat := 0x4000_0000

  type Sector = seq<Byte>

  /** The parameters of a mounted volume; sector numbers are absolute. */
  datatype Geometry = Geometry(fatStart: nat, sectorsPerFat: nat, fats: nat, sectorsPerCluster: nat, root: nat) {
    /** `total_clusters` in `alloc_cluster` */
    function Clusters(): nat { ENTRIES_PER_SECTOR * sectorsPerFat }

    function CopyStart(k: nat): nat { fatStart + k * sectorsPerFat }

    function DataStart(): nat { fatStart + fats * sectorsPerFat }

    /** `cluster_to_lba` */
    function ClusterStart(c: nat): nat
      requires c >= 2
    {
      DataStart() + (c - 2) * sectorsPerCluster
    }

    function ClusterBytes(): nat { SECTOR_SIZE * sectorsPerCluster }

    /** Every cluster that the table can name lies on the disk. */
    ghost predicate Fits(sectors: nat) {
      && 0 < sectorsPerFat && 0 < fats && 0 < sectorsPerCluster
      && Clusters() <= BAD_CLUSTER
      && 2 <= root < Clusters()
      && DataStart() + (Clusters() - 2) * sectorsPerCluster <= sectors
    }

    lemma CopyInside(k: nat)
      requires k < fats
      ensures fatStart <= CopyStart(k) && CopyStart(k) + sectorsPerFat <= DataStart()
    {
      MulStep(k, fats, sectorsPerFat);
    }

    lemma CopiesApart(k: nat, k': nat)
      requires k < k'
      ensures CopyStart(k) + sectorsPerFat <= CopyStart(k')
    {
      MulStep(k, k', sectorsPerFat);
    }

    lemma ClusterInside(c: nat, sectors: nat)
      requires Fits(sectors) && 2 <= c < Clusters()
      ensures DataStart() <= ClusterStart(c) && ClusterStart(c) + sectorsPerCluster <= sectors
    {
      MulStep(c - 2, Clusters() - 2, sectorsPerCluster);
    }

    lemma ClustersApart(c: nat, c': nat)
      requires 2 <= c < c'
      ensures ClusterStart(c) + sectorsPerCluster <= ClusterStart(c')
    {
      MulStep(c - 2, c' - 2, sectorsPerCluster);
    }
  }

  // ---------------------------------------------------------------------------
  // Table entries
  // ---------------------------------------------------------------------------

  /** All 32 bits of an entry of a table sector. */
  function Raw(s: Sector, i: nat): nat
    requires |s| == SECTOR_SIZE && i < ENTRIES_PER_SECTOR
  {
    Le32(s, 4 * i)
  }

  function NewRaw(prev: nat, value: nat): nat { prev - prev % LOW + value % LOW }

  function WithEntry(s: Sector, i: nat, value: nat): (r: Sector)
    requires |s| == SECTOR_SIZE && i < ENTRIES_PER_SECTOR
    ensures |r| == SECTOR_SIZE
  {
    s[..4 * i] + Bytes32(NewRaw(Raw(s, i), value)) + s[4 * i + 4..]
  }

  lemma RawBound(s: Sector, i: nat)
    requires |s| == SECTOR_SIZE && i < ENTRIES_PER_SECTOR
    ensures Raw(s, i) < 0x1_0000_0000
  {
  }

  lemma NewRawParts(prev: nat, value: nat)
    requires prev < 0x1_0000_0000
    ensures NewRaw(prev, value) < 0x1_0000_0000
    ensures NewRaw(prev, value) % LOW == value % LOW && NewRaw(prev, value) / LOW == prev / LOW
  {
  }

  /** Writing one entry leaves its top four bits and all other entries alone. */
  lemma EntryWritten(s: Sector, i: nat, value: nat, j: nat)
    requires |s| == SECTOR_SIZE && i < ENTRIES_PER_SECTOR && j < ENTRIES_PER_SECTOR
    ensures Raw(WithEntry(s, i, value), j) / LOW == Raw(s, j) / LOW
    ensures Raw(WithEntry(s, i, value), j) % LOW == if j == i then value % LOW else Raw(s, j) % LOW
  {
    hide Bytes32, NewRaw;
    RawBound(s, i);
    NewRawParts(Raw(s, i), value);
    var b := Bytes32(NewRaw(Raw(s, i), value));
    var r := WithEntry(s, i, value);
    if j == i {
      assert r[4 * i] == b[0] && r[4 * i + 1] == b[1] && r[4 * i + 2] == b[2] && r[4 * i + 3] == b[3];
    } else {
      assert r[4 * j] == s[4 * j] && r[4 * j + 1] == s[4 * j + 1];
      assert r[4 * j + 2] == s[4 * j + 2] && r[4 * j + 3] == s[4 * j + 3];
    }
  }

  /** The sector of an entry in copy `k` of the table. */
  function EntryLba(g: Geometry, k: nat, c: nat): nat { g.CopyStart(k) + c / ENTRIES_PER_SECTOR }

  ghost predicate Sectors(g: Geometry, d: seq<Sector>) {
    g.Fits(|d|) && forall l :: 0 <= l < |d| ==> |d[l]| == SECTOR_SIZE
  }

  lemma EntryInside(g: Geometry, k: nat, c: nat)
    requires k < g.fats && c < g.Clusters()
    ensures g.CopyStart(k) <= EntryLba(g, k, c) < g.CopyStart(k) + g.sectorsPerFat
    ensures EntryLba(g, k, c) < g.DataStart()
  {
    g.CopyInside(k);
  }

  ghost function RawAt(g: Geometry, d: seq<Sector>, k: nat, c: nat): nat
    requires Sectors(g, d) && k < g.fats && c < g.Clusters()
  {
    EntryInside(g, k, c);
    assert g.DataStart() <= |d| by { DataInside(g, |d|); }
    Raw(d[EntryLba(g, k, c)], c % ENTRIES_PER_SECTOR)
  }

  lemma DataInside(g: Geometry, sectors: nat)
    requires g.Fits(sectors)
    ensures g.DataStart() <= sectors
  {
    MulStep(0, g.Clusters() - 2, g.sectorsPerCluster);
  }

  /** All copies of the table agree on the 28 bits in use. */
  ghost predicate Mirrored(g: Geometry, d: seq<Sector>)
    requires Sectors(g, d)
  {
    forall k, c: nat :: 0 <= k < g.fats && c < g.Clusters() ==> RawAt(g, d, k, c) % LOW == RawAt(g, d, 0, c) % LOW
  }

  ghost function FatOf(g: Geometry, d: seq<Sector>): (fat: Fat)
    requires Sectors(g, d)
    ensures |fat| == g.Clusters()
    ensures forall c :: 0 <= c < |fat| ==> fat[c] == RawAt(g, d, 0, c) % LOW
  {
    seq(g.Clusters(), c requires 0 <= c < g.Clusters() => RawAt(g, d, 0, c) % LOW)
  }

  // ---------------------------------------------------------------------------
  // Clusters
  // ---------------------------------------------------------------------------

  function Join(d: seq<Sector>): seq<Byte> {
    if d == [] then [] else Join(d[..|d| - 1]) + d[|d| - 1]
  }

  ghost function ClusterAt(g: Geometry, d: seq<Sector>, c: nat): seq<Byte>
    requires Sectors(g, d) && 2 <= c < g.Clusters()
  {
    g.ClusterInside(c, |d|);
    Join(d[g.ClusterStart(c)..g.ClusterStart(c) + g.sectorsPerCluster])
  }

  ghost function DataOf(g: Geometry, d: seq<Sector>): (data: seq<seq<Byte>>)
    requires Sectors(g, d)
    ensures |data| == g.Clusters()
    ensures forall c :: 2 <= c < |data| ==> data[c] == ClusterAt(g, d, c)
  {
    seq(g.Clusters(), c requires 0 <= c < g.Clusters() => if c < 2 then [] else ClusterAt(g, d, c))
  }

  ghost function VolOf(g: Geometry, d: seq<Sector>): Vol
    requires Sectors(g, d)
  {
    Vol(FatOf(g, d), DataOf(g, d), g.root, g.ClusterBytes())
  }

  lemma {:induction false} JoinLength(d: seq<Sector>)
    requires forall l :: 0 <= l < |d| ==> |d[l]| == SECTOR_SIZE
    ensures |Join(d)| == SECTOR_SIZE * |d|
  {
    if d != [] {
      JoinLength(d[..|d| - 1]);
    }
  }

  lemma VolShape(g: Geometry, d: seq<Sector>)
    requires Sectors(g, d)
    ensures Shape(VolOf(g, d))
  {
    hide FatOf, DataOf, RawAt, Join;
    var v := VolOf(g, d);
    forall c: nat | IsCluster(v.fat, c) ensures |v.data[c]| == v.size {
      g.ClusterInside(c, |d|);
      JoinLength(d[g.ClusterStart(c)..g.ClusterStart(c) + g.sectorsPerCluster]);
    }
  }

  // ---------------------------------------------------------------------------
  // What a write changes
  // ---------------------------------------------------------------------------

  /** The entry of cluster `c` is written in the first `n` copies of the table. */
  ghost predicate EntrySet(g: Geometry, d: seq<Sector>, c: nat, value: nat, n: nat, now: seq<Sector>)
    requires Sectors(g, d)
  {
    && c < g.Clusters() && n <= g.fats && |now| == |d| && g.DataStart() <= |d|
    && (forall k :: 0 <= k < n ==>
          EntryLba(g, k, c) < |d| && now[EntryLba(g, k, c)] == WithEntry(d[EntryLba(g, k, c)], c % ENTRIES_PER_SECTOR, value))
    && (forall l :: 0 <= l < |d| && (forall k :: 0 <= k < n ==> EntryLba(g, k, c) != l) ==> now[l] == d[l])
  }

  lemma EntriesApart(g: Geometry, k: nat, c: nat, k': nat, e: nat)
    requires k < g.fats && k' < g.fats && c < g.Clusters() && e < g.Clusters()
    ensures EntryLba(g, k, c) == EntryLba(g, k', e) <==>
            k == k' && c / ENTRIES_PER_SECTOR == e / ENTRIES_PER_SECTOR
  {
    EntryInside(g, k, c);
    EntryInside(g, k', e);
    if k < k' {
      g.CopiesApart(k, k');
    } else if k' < k {
      g.CopiesApart(k', k);
    }
  }

  lemma EntrySetSectors(g: Geometry, d: seq<Sector>, c: nat, value: nat, n: nat, now: seq<Sector>)
    requires Sectors(g, d) && EntrySet(g, d, c, value, n, now)
    ensures Sectors(g, now)
  {
    hide WithEntry, EntryLba;
    forall l | 0 <= l < |now| ensures |now[l]| == SECTOR_SIZE {
      if k :| 0 <= k < n && EntryLba(g, k, c) == l {
        assert now[EntryLba(g, k, c)] == WithEntry(d[EntryLba(g, k, c)], c % ENTRIES_PER_SECTOR, value);
      }
    }
  }

  /** In every copy, one entry takes the value in its low 28 bits; everything else stays. */
  lemma EntrySetRaw(g: Geometry, d: seq<Sector>, c: nat, value: nat, now: seq<Sector>, k: nat, e: nat)
    requires Sectors(g, d) && EntrySet(g, d, c, value, g.fats, now) && Sectors(g, now) && k < g.fats && e < g.Clusters()
    ensures RawAt(g, now, k, e) / LOW == RawAt(g, d, k, e) / LOW
    ensures RawAt(g, now, k, e) % LOW == if e == c then value % LOW else RawAt(g, d, k, e) % LOW
  {
    hide WithEntry, EntryLba, Raw;
    EntryInside(g, k, e);
    DataInside(g, |d|);
    forall k' | 0 <= k' < g.fats
      ensures EntryLba(g, k', c) == EntryLba(g, k, e) <==>
              k' == k && c / ENTRIES_PER_SECTOR == e / ENTRIES_PER_SECTOR
    {
      EntriesApart(g, k', c, k, e);
    }
    if c / ENTRIES_PER_SECTOR == e / ENTRIES_PER_SECTOR {
      EntryWritten(d[EntryLba(g, k, c)], c % ENTRIES_PER_SECTOR, value, e % ENTRIES_PER_SECTOR);
    }
  }

  /** The disk after `set_fat_entry` has come to copy `n`; a copy off the end of the disk stops it. */
  function CopiesWritten(g: Geometry, d: seq<Sector>, c: nat, value: nat, n: nat): (now: seq<Sector>)
    requires forall l :: 0 <= l < |d| ==> |d[l]| == SECTOR_SIZE
    ensures |now| == |d| && forall l :: 0 <= l < |now| ==> |now[l]| == SECTOR_SIZE
  {
    if n == 0 then d
    else
      var was := CopiesWritten(g, d, c, value, n - 1);
      var lba := EntryLba(g, n - 1, c);
      if lba >= |d| then was else was[lba := WithEntry(was[lba], c % ENTRIES_PER_SECTOR, value)]
  }

  lemma {:induction false} NoFurther(g: Geometry, d: seq<Sector>, c: nat, value: nat, k: nat, n: nat)
    requires forall l :: 0 <= l < |d| ==> |d[l]| == SECTOR_SIZE
    requires k < n && |d| <= EntryLba(g, k, c)
    ensures CopiesWritten(g, d, c, value, n) == CopiesWritten(g, d, c, value, k) && |d| <= EntryLba(g, n - 1, c)
  {
    hide WithEntry;
    if k < n - 1 {
      NoFurther(g, d, c, value, k, n - 1);
      g.CopiesApart(k, n - 1);
    }
  }

  lemma {:induction false} WrittenSet(g: Geometry, d: seq<Sector>, c: nat, value: nat, n: nat)
    requires Sectors(g, d) && c < g.Clusters() && n <= g.fats
    ensures EntrySet(g, d, c, value, n, CopiesWritten(g, d, c, value, n))
  {
    hide WithEntry, EntryLba;
    DataInside(g, |d|);
    if n > 0 {
      WrittenSet(g, d, c, value, n - 1);
      EntryInside(g, n - 1, c);
      forall k | 0 <= k < n - 1 ensures EntryLba(g, k, c) != EntryLba(g, n - 1, c) {
        EntriesApart(g, k, c, n - 1, c);
      }
    }
  }

  lemma EntryLbaIs(g: Geometry, k: nat, c: nat)
    ensures EntryLba(g, k, c) == g.fatStart + k * g.sectorsPerFat + c * 4 / SECTOR_SIZE
  {
  }

  /** An entry of the table is written in every copy. */
  lemma WrittenEffect(g: Geometry, d: seq<Sector>, c: nat, value: nat)
    requires Sectors(g, d) && Mirrored(g, d) && c < g.Clusters()
    ensures var now := CopiesWritten(g, d, c, value, g.fats);
            && EntryLba(g, g.fats - 1, c) < |d|
            && Sectors(g, now) && Mirrored(g, now) && SameTops(g, d, now)
            && VolOf(g, now) == VolOf(g, d).(fat := FatOf(g, d)[c := value % LOW])
  {
    hide WithEntry, EntryLba, Mirrored, SameTops, FatOf, DataOf, CopiesWritten, EntrySet;
    DataInside(g, |d|);
    EntryInside(g, g.fats - 1, c);
    WrittenSet(g, d, c, value, g.fats);
    EntrySetSectors(g, d, c, value, g.fats, CopiesWritten(g, d, c, value, g.fats));
    EntrySetEffect(g, d, c, value, CopiesWritten(g, d, c, value, g.fats));
  }

  /** What `next_cluster` makes of the word at the place of an entry. */
  function EntryRead(g: Geometry, d: seq<Sector>, c: nat): Option<nat>
    requires forall l :: 0 <= l < |d| ==> |d[l]| == SECTOR_SIZE
  {
    if EntryLba(g, 0, c) >= |d| then None
    else
      var val := Raw(d[EntryLba(g, 0, c)], c % ENTRIES_PER_SECTOR) % LOW;
      if val >= END_OF_CHAIN || val < 2 then None else Some(val)
  }

  lemma EntryOffset(c: nat)
    ensures c * 4 / SECTOR_SIZE == c / ENTRIES_PER_SECTOR && c * 4 % SECTOR_SIZE == 4 * (c % ENTRIES_PER_SECTOR)
  {
  }

  lemma NextInCopy(g: Geometry, d: seq<Sector>, c: nat, k: nat, e: nat)
    requires Sectors(g, d) && Mirrored(g, d) && k < g.fats && e < g.Clusters() && c == k * g.Clusters() + e
    ensures EntryRead(g, d, c) == Next(FatOf(g, d), e)
  {
    hide Raw, FatOf, EntryLba, RawAt, Mirrored;
    SameSector(g, c, k, e);
    CopyAgrees(g, d, k, e);
  }

  /** Behind a copy of the table the next copy is read, which says the same. */
  lemma NextInCopies(g: Geometry, d: seq<Sector>, c: nat)
    requires Sectors(g, d) && Mirrored(g, d) && c < g.fats * g.Clusters()
    ensures EntryRead(g, d, c) == Next(FatOf(g, d), c % g.Clusters())
  {
    hide EntryRead, Sectors, Next, FatOf, Mirrored;
    HasClusters(g, d);
    CopyOf(c, g.Clusters(), g.fats);
    NextInCopy(g, d, c, c / g.Clusters(), c % g.Clusters());
  }

  lemma HasClusters(g: Geometry, d: seq<Sector>)
    requires Sectors(g, d)
    ensures 0 < g.Clusters()
  {
  }

  lemma CopyAgrees(g: Geometry, d: seq<Sector>, k: nat, e: nat)
    requires Sectors(g, d) && Mirrored(g, d) && k < g.fats && e < g.Clusters()
    ensures EntryLba(g, k, e) < |d|
    ensures Raw(d[EntryLba(g, k, e)], e % ENTRIES_PER_SECTOR) % LOW == FatOf(g, d)[e]
  {
    hide Raw, EntryLba;
    EntryInside(g, k, e);
    DataInside(g, |d|);
    assert RawAt(g, d, k, e) % LOW == RawAt(g, d, 0, e) % LOW;
  }

  lemma CopyOf(c: nat, n: nat, fats: nat)
    requires 0 < n && c < fats * n
    ensures c / n < fats && c == c / n * n + c % n
  {
    MulStep(fats - 1, c / n, n);
  }

  lemma SameSector(g: Geometry, c: nat, k: nat, e: nat)
    requires c == k * g.Clusters() + e
    ensures EntryLba(g, 0, c) == EntryLba(g, k, e) && c % ENTRIES_PER_SECTOR == e % ENTRIES_PER_SECTOR
  {
    assert k * g.Clusters() == ENTRIES_PER_SECTOR * (k * g.sectorsPerFat);
    Regroup(k * g.sectorsPerFat, e);
  }

  lemma Regroup(a: nat, e: nat)
    ensures (ENTRIES_PER_SECTOR * a + e) / ENTRIES_PER_SECTOR == a + e / ENTRIES_PER_SECTOR
    ensures (ENTRIES_PER_SECTOR * a + e) % ENTRIES_PER_SECTOR == e % ENTRIES_PER_SECTOR
  {
  }

  /** Where the first copy of the table holds an entry. */
  lemma FirstCopy(g: Geometry, d: seq<Sector>, c: nat)
    requires Sectors(g, d) && c < g.Clusters()
    ensures c * 4 % SECTOR_SIZE + 4 <= SECTOR_SIZE && g.fatStart + c * 4 / SECTOR_SIZE < |d|
    ensures RawAt(g, d, 0, c) == Le32(d[g.fatStart + c * 4 / SECTOR_SIZE], c * 4 % SECTOR_SIZE)
  {
    hide Le32;
    EntryInside(g, 0, c);
    DataInside(g, |d|);
    assert c * 4 / SECTOR_SIZE == c / ENTRIES_PER_SECTOR;
    assert c * 4 % SECTOR_SIZE == 4 * (c % ENTRIES_PER_SECTOR);
  }

  /** The entries of a sector of the first copy. */
  lemma SectorEntry(g: Geometry, d: seq<Sector>, sec: nat, i: nat)
    requires Sectors(g, d) && sec < g.sectorsPerFat && i < ENTRIES_PER_SECTOR
    ensures g.fatStart + sec < |d| && i * 4 + 4 <= SECTOR_SIZE && sec * ENTRIES_PER_SECTOR + i < g.Clusters()
    ensures FatOf(g, d)[sec * ENTRIES_PER_SECTOR + i] == Le32(d[g.fatStart + sec], i * 4) % LOW
  {
    hide Le32, RawAt;
    EntryPlace(sec, i);
    FirstCopy(g, d, sec * ENTRIES_PER_SECTOR + i);
  }

  lemma EntryPlace(sec: nat, i: nat)
    requires i < ENTRIES_PER_SECTOR
    ensures (sec * ENTRIES_PER_SECTOR + i) * 4 / SECTOR_SIZE == sec
    ensures (sec * ENTRIES_PER_SECTOR + i) * 4 % SECTOR_SIZE == i * 4
  {
  }

  /** Two disks that agree on the data area hold the same clusters. */
  lemma SameData(g: Geometry, d: seq<Sector>, now: seq<Sector>)
    requires Sectors(g, d) && Sectors(g, now) && |now| == |d|
    requires forall l :: g.DataStart() <= l < |d| ==> now[l] == d[l]
    ensures DataOf(g, now) == DataOf(g, d)
  {
    hide Join;
    forall c: nat | 2 <= c < g.Clusters() ensures ClusterAt(g, now, c) == ClusterAt(g, d, c) {
      g.ClusterInside(c, |d|);
      var a, b := g.ClusterStart(c), g.ClusterStart(c) + g.sectorsPerCluster;
      assert now[a..b] == d[a..b];
    }
  }

  ghost predicate SameTops(g: Geometry, d: seq<Sector>, now: seq<Sector>) {
    && Sectors(g, d) && Sectors(g, now) && |now| == |d|
    && (forall k, c: nat :: 0 <= k < g.fats && c < g.Clusters() ==> RawAt(g, now, k, c) / LOW == RawAt(g, d, k, c) / LOW)
    && (forall l :: 0 <= l < g.fatStart && l < |d| ==> now[l] == d[l])
  }

  /** The table entry changes in all copies, and nothing else does. */
  lemma EntrySetEffect(g: Geometry, d: seq<Sector>, c: nat, value: nat, now: seq<Sector>)
    requires Sectors(g, d) && Mirrored(g, d) && EntrySet(g, d, c, value, g.fats, now)
    ensures Sectors(g, now) && Mirrored(g, now) && SameTops(g, d, now)
    ensures FatOf(g, now) == FatOf(g, d)[c := value % LOW]
    ensures DataOf(g, now) == DataOf(g, d)
  {
    hide WithEntry, EntryLba, RawAt;
    EntrySetSectors(g, d, c, value, g.fats, now);
    forall k, e: nat | 0 <= k < g.fats && e < g.Clusters()
      ensures RawAt(g, now, k, e) / LOW == RawAt(g, d, k, e) / LOW
      ensures RawAt(g, now, k, e) % LOW == if e == c then value % LOW else RawAt(g, d, k, e) % LOW
    {
      EntrySetRaw(g, d, c, value, now, k, e);
    }
    forall k | 0 <= k < g.fats ensures g.fatStart <= EntryLba(g, k, c) < g.DataStart() {
      EntryInside(g, k, c);
      g.CopyInside(k);
    }
    SameData(g, d, now);
  }

  /** The sectors of a cluster are written from a buffer. */
  ghost predicate ClusterSet(g: Geometry, d: seq<Sector>, c: nat, buf: seq<Byte>, n: nat, now: seq<Sector>)
    requires Sectors(g, d)
  {
    && 2 <= c < g.Clusters() && n <= g.sectorsPerCluster && |buf| == g.ClusterBytes()
    && |now| == |d| && g.ClusterStart(c) + g.sectorsPerCluster <= |d|
    && (forall l :: 0 <= l < |d| ==>
          now[l] == if g.ClusterStart(c) <= l < g.ClusterStart(c) + n then Piece(buf, l - g.ClusterStart(c)) else d[l])
  }

  function Piece(buf: seq<Byte>, i: nat): Sector
  {
    if SECTOR_SIZE * i + SECTOR_SIZE <= |buf| then buf[SECTOR_SIZE * i..SECTOR_SIZE * i + SECTOR_SIZE] else []
  }

  lemma {:induction false} JoinPieces(d: seq<Sector>, buf: seq<Byte>)
    requires SECTOR_SIZE * |d| <= |buf| && forall i :: 0 <= i < |d| ==> d[i] == Piece(buf, i)
    ensures Join(d) == buf[..SECTOR_SIZE * |d|]
  {
    if d != [] {
      JoinPieces(d[..|d| - 1], buf);
      assert d[|d| - 1] == Piece(buf, |d| - 1);
    }
  }

  lemma ClusterSetSectors(g: Geometry, d: seq<Sector>, c: nat, buf: seq<Byte>, n: nat, now: seq<Sector>)
    requires Sectors(g, d) && ClusterSet(g, d, c, buf, n, now)
    ensures Sectors(g, now)
  {
  }

  lemma ClusterSetCluster(g: Geometry, d: seq<Sector>, c: nat, buf: seq<Byte>, now: seq<Sector>, e: nat)
    requires Sectors(g, d) && ClusterSet(g, d, c, buf, g.sectorsPerCluster, now) && Sectors(g, now)
    requires 2 <= e < g.Clusters()
    ensures ClusterAt(g, now, e) == if e == c then buf else ClusterAt(g, d, e)
  {
    hide Join, Piece;
    g.ClusterInside(e, |d|);
    var a, b := g.ClusterStart(e), g.ClusterStart(e) + g.sectorsPerCluster;
    if e == c {
      JoinPieces(now[a..b], buf);
      assert buf[..SECTOR_SIZE * g.sectorsPerCluster] == buf;
    } else {
      if e < c {
        g.ClustersApart(e, c);
      } else {
        g.ClustersApart(c, e);
      }
      assert now[a..b] == d[a..b];
    }
  }

  lemma ClusterSetRaw(g: Geometry, d: seq<Sector>, c: nat, buf: seq<Byte>, now: seq<Sector>, k: nat, e: nat)
    requires Sectors(g, d) && ClusterSet(g, d, c, buf, g.sectorsPerCluster, now) && Sectors(g, now)
    requires k < g.fats && e < g.Clusters()
    ensures RawAt(g, now, k, e) == RawAt(g, d, k, e)
  {
    hide Piece, Raw;
    g.ClusterInside(c, |d|);
    DataInside(g, |d|);
    EntryInside(g, k, e);
  }

  /** One cluster takes the bytes, and nothing else changes. */
  lemma ClusterSetEffect(g: Geometry, d: seq<Sector>, c: nat, buf: seq<Byte>, now: seq<Sector>)
    requires Sectors(g, d) && Mirrored(g, d) && ClusterSet(g, d, c, buf, g.sectorsPerCluster, now)
    ensures Sectors(g, now) && Mirrored(g, now) && SameTops(g, d, now)
    ensures FatOf(g, now) == FatOf(g, d)
    ensures DataOf(g, now) == DataOf(g, d)[c := buf]
  {
    hide ClusterAt, RawAt, Piece;
    ClusterSetSectors(g, d, c, buf, g.sectorsPerCluster, now);
    g.ClusterInside(c, |d|);
    forall l | 0 <= l < g.fatStart && l < |d| ensures now[l] == d[l] {
    }
    forall k, e: nat | 0 <= k < g.fats && e < g.Clusters() ensures RawAt(g, now, k, e) == RawAt(g, d, k, e) {
      ClusterSetRaw(g, d, c, buf, now, k, e);
    }
    forall e: nat | 2 <= e < g.Clusters() ensures ClusterAt(g, now, e) == if e == c then buf else ClusterAt(g, d, e) {
      ClusterSetCluster(g, d, c, buf, now, e);
    }
  }

  // ---------------------------------------------------------------------------
  // The mounted volume
  // ---------------------------------------------------------------------------

  class Fat32 {
    const g: Geometry
    var disk: seq<Sector>

    constructor (g: Geometry, disk: seq<Sector>)
      ensures this.g == g && this.disk == disk
    {
      this.g := g;
      this.disk := disk;
    }

    ghost predicate Valid()
      reads this
    {
      Sectors(g, disk) && Mirrored(g, disk)
    }

    ghost function Abs(): Vol
      requires Sectors(g, disk)
      reads this
    {
      VolOf(g, disk)
    }

    /** The byte offset of an entry of the table fits 32 bits. */
    lemma InTable(c: nat)
      requires Valid() && c < g.Clusters()
      ensures c < OFFSET_LIMIT
    {
    }

    /** `next_cluster`; a number past the table reads the sectors behind the first copy. */
    method NextCluster(c: nat) returns (r: Option<nat>)
      requires Valid() && c < OFFSET_LIMIT
      ensures r == EntryRead(g, disk, c)
      ensures c < g.Clusters() ==> r == Next(Abs().fat, c)
    {
      hide Mirrored, Le32, FatOf, DataOf;
      EntryOffset(c);
      if c < g.Clusters() {
        FirstCopy(g, disk, c);
      }
      if g.fatStart + c * 4 / SECTOR_SIZE >= |disk| {
        return None;
      }
      var s := disk[g.fatStart + c * 4 / SECTOR_SIZE];
      var val := Le32(s, c * 4 % SECTOR_SIZE) % LOW;
      if val >= END_OF_CHAIN {
        return None;
      } else if val == 0 || val == 1 {
        return None;
      }
      return Some(val);
    }

    /** `set_fat_entry`; a number past the table writes behind the first copy. */
    method SetFatEntry(c: nat, value: nat) returns (ok: bool)
      requires Valid() && c < OFFSET_LIMIT
      modifies this
      ensures disk == CopiesWritten(g, old(disk), c, value, g.fats)
      ensures ok <==> EntryLba(g, g.fats - 1, c) < |disk|
      ensures c < g.Clusters() ==>
                ok && Valid() && SameTops(g, old(disk), disk)
                && Abs() == old(Abs()).(fat := old(Abs()).fat[c := value % LOW])
    {
      hide WithEntry, EntryLba, Mirrored, SameTops, FatOf, DataOf;
      ghost var d := disk;
      if c < g.Clusters() {
        WrittenEffect(g, d, c, value);
      }
      EntryOffset(c);
      for k := 0 to g.fats
        invariant disk == CopiesWritten(g, d, c, value, k)
        invariant k > 0 ==> EntryLba(g, k - 1, c) < |disk|
      {
        EntryLbaIs(g, k, c);
        var lba := g.fatStart + k * g.sectorsPerFat + c * 4 / SECTOR_SIZE;
        if lba >= |disk| {
          NoFurther(g, d, c, value, k, g.fats);
          return false;
        }
        disk := disk[lba := WithEntry(disk[lba], c % ENTRIES_PER_SECTOR, value)];
      }
      ok := true;
    }

    /** `alloc_cluster`: first fit over the whole table. */
    method AllocCluster() returns (r: Option<nat>)
      requires Valid()
      modifies this
      ensures Valid() && SameTops(g, old(disk), disk)
      ensures r.Some? ==> FirstFree(old(Abs()).fat, r.value)
                          && Abs() == old(Abs()).(fat := old(Abs()).fat[r.value := LAST])
      ensures r == None ==> disk == old(disk) && forall c: nat :: !IsFree(Abs().fat, c)
    {
      hide Mirrored, Le32, SameTops, FatOf, DataOf, CopiesWritten, EntryLba;
      NoChange(g, disk);
      ghost var fat := Abs().fat;
      for sec := 0 to g.sectorsPerFat
        invariant disk == old(disk)
        invariant forall c :: 2 <= c < ENTRIES_PER_SECTOR * sec ==> fat[c] != 0
      {
        for i := 0 to ENTRIES_PER_SECTOR
          invariant disk == old(disk)
          invariant forall c :: 2 <= c < ENTRIES_PER_SECTOR * sec + i ==> fat[c] != 0
        {
          var c := sec * ENTRIES_PER_SECTOR + i;
          if c >= 2 {
            SectorEntry(g, disk, sec, i);
            var val := Le32(disk[g.fatStart + sec], i * 4) % LOW;
            if val == 0 {
              var ok := SetFatEntry(c, LAST);
              return Some(c);
            }
          }
        }
      }
      r := None;
    }

    /** One cluster, sector by sector, as in `read_chain`. */
    method ReadCluster(c: nat) returns (buf: seq<Byte>)
      requires Valid() && 2 <= c < g.Clusters()
      ensures buf == Abs().data[c] && |buf| == g.ClusterBytes()
    {
      hide Mirrored, FatOf, DataOf, RawAt;
      g.ClusterInside(c, |disk|);
      var lba := g.ClusterStart(c);
      buf := [];
      for s := 0 to g.sectorsPerCluster
        invariant buf == Join(disk[lba..lba + s])
      {
        assert disk[lba..lba + s + 1][..s] == disk[lba..lba + s];
        buf := buf + disk[lba + s];
      }
      VolShape(g, disk);
    }

    /** `write_cluster`; it fails when the data does not fit. */
    method WriteCluster(c: nat, data: seq<Byte>) returns (ok: bool)
      requires Valid() && 2 <= c < g.Clusters()
      modifies this
      ensures Valid() && SameTops(g, old(disk), disk)
      ensures ok <==> |data| <= g.ClusterBytes()
      ensures Abs() == if ok then old(Abs()).(data := old(Abs()).data[c := Pad(data, g.ClusterBytes())]) else old(Abs())
    {
      hide Mirrored, SameTops, Piece;
      NoChange(g, disk);
      if |data| > g.ClusterBytes() {
        return false;
      }
      ghost var d := disk;
      g.ClusterInside(c, |disk|);
      var lba := g.ClusterStart(c);
      var buf := Pad(data, g.ClusterBytes());
      for s := 0 to g.sectorsPerCluster
        invariant Sectors(g, disk) && ClusterSet(g, d, c, buf, s, disk)
      {
        PieceSize(buf, s);
        disk := disk[lba + s := buf[SECTOR_SIZE * s..SECTOR_SIZE * s + SECTOR_SIZE]];
      }
      ClusterSetEffect(g, d, c, buf, disk);
      ok := true;
    }
  }

  lemma PieceSize(buf: seq<Byte>, i: nat)
    requires SECTOR_SIZE * i + SECTOR_SIZE <= |buf|
    ensures Piece(buf, i) == buf[SECTOR_SIZE * i..SECTOR_SIZE * i + SECTOR_SIZE] && |Piece(buf, i)| == SECTOR_SIZE
  {
  }

  lemma NoChange(g: Geometry, d: seq<Sector>)
    requires Sectors(g, d)
    ensures SameTops(g, d, d)
  {
  }

  /** Reserved sectors and top bits left alone by two steps are left alone by both. */
  lemma SameTopsTrans(g: Geometry, a: seq<Sector>, b: seq<Sector>, c: seq<Sector>)
    requires SameTops(g, a, b) && SameTops(g, b, c)
    ensures SameTops(g, a, c)
  {
    hide RawAt;
  }
}
