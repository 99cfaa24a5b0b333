/**
 Every volume with the sizes that kernel/src/drivers/fat32.rs mounts stands on some disk: its table
 in every copy, and its clusters sector by sector.
 */
module FatImage {
  import opened Arithmetic
  import opened FatChains
  import opened FatNames
  import opened FatDirectory
  import opened FatVolume
  import opened FatDisk

  /** A volume that fits a geometry. */
  ghost predicate Sized(g: Geometry, v: Vol) {
    && |v.fat| == |v.data| == g.Clusters() && v.root == g.root && v.size == g.ClusterBytes()
    && (forall c :: 0 <= c < |v.fat| ==> v.fat[c] < LOW)
    && (forall c :: 0 <= c < |v.data| ==> |v.data[c]| == if c < 2 then 0 else v.size)
  }

  /** The sector of the table with entries from `128 * i` on. */
  function TableSector(fat: Fat, i: nat): (s: Sector)
    requires ENTRIES_PER_SECTOR * i + ENTRIES_PER_SECTOR <= |fat|
    ensures |s| == SECTOR_SIZE
  {
    seq(SECTOR_SIZE, b requires 0 <= b < SECTOR_SIZE => Bytes32(fat[ENTRIES_PER_SECTOR * i + b / 4])[b % 4])
  }

  lemma TableRaw(fat: Fat, i: nat, e: nat)
    requires ENTRIES_PER_SECTOR * i + ENTRIES_PER_SECTOR <= |fat| && e < ENTRIES_PER_SECTOR
    requires fat[ENTRIES_PER_SECTOR * i + e] < LOW
    ensures Raw(TableSector(fat, i), e) == fat[ENTRIES_PER_SECTOR * i + e]
  {
    hide Bytes32;
    var s, v := TableSector(fat, i), fat[ENTRIES_PER_SECTOR * i + e];
    assert s[4 * e] == Bytes32(v)[0] && s[4 * e + 1] == Bytes32(v)[1];
    assert s[4 * e + 2] == Bytes32(v)[2] && s[4 * e + 3] == Bytes32(v)[3];
  }

  /** Sector `off` of the copies of the table. */
  function TableAt(fat: Fat, perFat: nat, off: nat): (s: Sector)
    requires 0 < perFat && |fat| == ENTRIES_PER_SECTOR * perFat
    ensures |s| == SECTOR_SIZE
  {
    var i: nat := off % perFat;
    TableSector(fat, i)
  }

  lemma InData(a: nat, n: nat, d: nat)
    requires 0 < d && a < n * d
    ensures a / d < n && a % d < d
  {
    if n <= a / d {
      MulStep(n - 1, a / d, d);
    }
  }

  /** Sector `off` of the data area. */
  function DataAt(data: seq<seq<Byte>>, perCluster: nat, off: nat): (s: Sector)
    requires 0 < perCluster && 2 <= |data| && off < (|data| - 2) * perCluster
    requires forall c :: 2 <= c < |data| ==> |data[c]| == SECTOR_SIZE * perCluster
    ensures |s| == SECTOR_SIZE
  {
    InData(off, |data| - 2, perCluster);
    var c, j: nat := 2 + off / perCluster, off % perCluster;
    assert SECTOR_SIZE * j + SECTOR_SIZE <= |data[c]|;
    Piece(data[c], j)
  }

  function SectorAt(g: Geometry, v: Vol, l: nat): (s: Sector)
    requires 0 < g.sectorsPerFat && 0 < g.sectorsPerCluster && Sized(g, v)
    ensures |s| == SECTOR_SIZE
  {
    if l < g.fatStart then Zeros(SECTOR_SIZE)
    else if l < g.DataStart() then TableAt(v.fat, g.sectorsPerFat, l - g.fatStart)
    else if l - g.DataStart() < (g.Clusters() - 2) * g.sectorsPerCluster then
      DataAt(v.data, g.sectorsPerCluster, l - g.DataStart())
    else Zeros(SECTOR_SIZE)
  }

  function DiskOf(g: Geometry, v: Vol, sectors: nat): (d: seq<Sector>)
    requires g.Fits(sectors) && Sized(g, v)
    ensures |d| == sectors && forall l :: 0 <= l < sectors ==> d[l] == SectorAt(g, v, l)
  {
    seq(sectors, l requires 0 <= l < sectors => SectorAt(g, v, l))
  }

  lemma ImageSectors(g: Geometry, v: Vol, sectors: nat)
    requires g.Fits(sectors) && Sized(g, v)
    ensures Sectors(g, DiskOf(g, v, sectors))
  {
    hide SectorAt;
  }

  lemma ImageRaw(g: Geometry, v: Vol, sectors: nat, k: nat, c: nat)
    requires g.Fits(sectors) && Sized(g, v) && Sectors(g, DiskOf(g, v, sectors)) && k < g.fats && c < g.Clusters()
    ensures RawAt(g, DiskOf(g, v, sectors), k, c) == v.fat[c]
  {
    hide DiskOf, Raw, TableSector, Piece;
    var i := c / ENTRIES_PER_SECTOR;
    var l := EntryLba(g, k, c);
    EntryInside(g, k, c);
    DataInside(g, sectors);
    assert l - g.fatStart == k * g.sectorsPerFat + i;
    CopyRest(k, g.sectorsPerFat, i);
    TableRaw(v.fat, i, c % ENTRIES_PER_SECTOR);
  }

  lemma CopyRest(k: nat, d: nat, i: nat)
    requires i < d
    ensures (k * d + i) % d == i && (k * d + i) / d == k
  {
    DivUnique(k * d + i, d, k, i);
    assert k * d + i == (k * d + i) / d * d + (k * d + i) % d;
  }

  lemma ImageCluster(g: Geometry, v: Vol, sectors: nat, c: nat)
    requires g.Fits(sectors) && Sized(g, v) && Sectors(g, DiskOf(g, v, sectors)) && 2 <= c < g.Clusters()
    ensures ClusterAt(g, DiskOf(g, v, sectors), c) == v.data[c]
  {
    hide DiskOf, Raw, TableSector, Piece, Join;
    var d := DiskOf(g, v, sectors);
    g.ClusterInside(c, sectors);
    var a, n := g.ClusterStart(c), g.sectorsPerCluster;
    forall j | 0 <= j < n ensures d[a..a + n][j] == Piece(v.data[c], j) {
      assert a + j - g.DataStart() == (c - 2) * n + j;
      MulStep(c - 2, g.Clusters() - 2, n);
      CopyRest(c - 2, n, j);
    }
    JoinPieces(d[a..a + n], v.data[c]);
    assert v.data[c][..SECTOR_SIZE * n] == v.data[c];
  }

  /** The disk is valid and holds the volume. */
  lemma ImageIs(g: Geometry, v: Vol, sectors: nat)
    requires g.Fits(sectors) && Sized(g, v)
    ensures Sectors(g, DiskOf(g, v, sectors)) && Mirrored(g, DiskOf(g, v, sectors)) && VolOf(g, DiskOf(g, v, sectors)) == v
  {
    hide DiskOf, RawAt, ClusterAt;
    ImageSectors(g, v, sectors);
    var d := DiskOf(g, v, sectors);
    forall k, c: nat | 0 <= k < g.fats && c < g.Clusters() ensures RawAt(g, d, k, c) == v.fat[c] {
      ImageRaw(g, v, sectors, k, c);
    }
    assert FatOf(g, d) == v.fat;
    forall c | 2 <= c < g.Clusters() ensures ClusterAt(g, d, c) == v.data[c] {
      ImageCluster(g, v, sectors, c);
    }
    assert DataOf(g, d) == v.data;
  }
}
