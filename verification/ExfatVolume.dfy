/** Addressing and reading an exFAT volume (boot/x86/fs/exfat.c) on a drive with 512-byte
    sectors: sector numbers in 32-bit arithmetic, the allocation table, and the loading of
    a file's clusters. */
module ExfatVolume {
  import opened Bits
  import opened Division

  const SECTOR: nat := 512
  /** First sector of the partition. */
  const PARTITION: nat := 0x100
  /** Table entries in a sector. */
  const PER_SECTOR: nat := 128
  const END_OF_CHAIN: Word := 0xFFFF_FFFF
  const BAD_CLUSTER: Word := 0xFFFF_FFF7

  /** `disk` gives every byte of the drive; the other fields come from the boot record and
      the up-case table. */
  datatype Volume = Volume(
    disk: nat -> Byte, fatOffset: Word, heapOffset: Word, shift: nat, root: Word, upcase: seq<nat>)

  /** Clusters of at most 32 MiB (section 3.1.15 of the Microsoft exFAT specification),
      and a table for ASCII. */
  predicate ValidVolume(v: Volume) {
    v.shift <= 16 && |v.upcase| == 128 && forall i :: 0 <= i < 128 ==> v.upcase[i] < 128
  }

  /** Sectors and bytes of one cluster. */
  function PerCluster(v: Volume): (n: nat)
    ensures n > 0
  {
    Pow2(v.shift)
  }

  function ClusterBytes(v: Volume): (n: nat)
    ensures n > 0
  {
    SECTOR * PerCluster(v)
  }

  // ----- The meaning of cluster numbers

  /** First sector of a cluster (section 5.1 of the exFAT specification); clusters are
      numbered from two. */
  function ClusterSector(v: Volume, c: nat): nat {
    PARTITION + v.heapOffset + (if c < 2 then 0 else (c - 2) * PerCluster(v))
  }

  /** The sector that holds the table entry of a cluster (section 4.1). */
  function TableSector(v: Volume, c: nat): nat {
    PARTITION + v.fatOffset + c / PER_SECTOR
  }

  function LittleEndian(v: Volume, at: nat): Word {
    v.disk(at) + 0x100 * v.disk(at + 1) + 0x1_0000 * v.disk(at + 2) + 0x100_0000 * v.disk(at + 3)
  }

  /** The allocation table's entry for a cluster. */
  function TableEntry(v: Volume, c: nat): Word {
    LittleEndian(v, SECTOR * (PARTITION + v.fatOffset) + 4 * c)
  }

  // ----- The source's arithmetic

  /** `x * 512 / drive_bytes_per_sector` in 32 bits. */
  function ScaleSectors(x: nat): Word {
    x % WORD * SECTOR % WORD / SECTOR
  }

  /** `get_heap_lba` (boot/x86/fs/exfat.c:37-39). */
  function HeapLba(v: Volume, c: Word): Word {
    ScaleSectors(PARTITION + v.heapOffset + (c - 2) % WORD * PerCluster(v) % WORD)
  }

  /** `get_fat_lba` (boot/x86/fs/exfat.c:42-44). */
  function FatLba(v: Volume, c: Word): Word {
    ScaleSectors(PARTITION + v.fatOffset + c * 4 % WORD / SECTOR)
  }

  /** `get_cluster_size` (boot/x86/fs/exfat.c:47-49). */
  function ClusterSize(v: Volume, n: Word): Word {
    ScaleSectors(n * PerCluster(v))
  }

  /** What the three come to: the number of sectors modulo 2^23, which is 4 GiB. Cluster 0,
      which has no data, is looked for two clusters before the first one. */
  lemma SectorsWrap(v: Volume, c: Word)
    ensures HeapLba(v, c) == (0x100 + v.heapOffset + (c - 2) * Pow2(v.shift)) % 0x80_0000
    ensures FatLba(v, c) == (0x100 + v.fatOffset + c / 128) % 0x80_0000
    ensures ClusterSize(v, c) == c * Pow2(v.shift) % 0x80_0000
  {
    hide ScaleSectors;
    ScaleWraps(PARTITION + v.heapOffset + (c - 2) % WORD * PerCluster(v) % WORD);
    ScaleWraps(PARTITION + v.fatOffset + c * 4 % WORD / SECTOR);
    ScaleWraps(c * PerCluster(v));
    HeapWraps(PARTITION + v.heapOffset, c - 2, PerCluster(v));
    FatWraps(PARTITION + v.fatOffset, c);
  }

  lemma ScaleWraps(x: nat)
    ensures ScaleSectors(x) == x % 0x80_0000
  {
    var y := x % WORD;
    var r := y % 0x80_0000;
    DivMod(x, WORD);
    DivMod(y, 0x80_0000);
    DivUnique(y * SECTOR, WORD, y / 0x80_0000, SECTOR * r);
    DivUnique(SECTOR * r, SECTOR, r, 0);
    DivUnique(x, 0x80_0000, 512 * (x / WORD) + y / 0x80_0000, r);
  }

  lemma HeapWraps(a: nat, x: int, m: nat)
    ensures (a + x % WORD * m % WORD) % 0x80_0000 == (a + x * m) % 0x80_0000
  {
    var k := x / WORD * m;
    assert x * m == WORD * k + x % WORD * m;
    SameRest(a, x % WORD * m, k);
  }

  lemma SameRest(a: nat, y: nat, k: int)
    ensures (a + y % WORD) % 0x80_0000 == (a + WORD * k + y) % 0x80_0000
  {
    var x := a + y % WORD;
    DivMod(x, 0x80_0000);
    DivMod(y, WORD);
    DivUnique(a + WORD * k + y, 0x80_0000, 512 * (k + y / WORD) + x / 0x80_0000, x % 0x80_0000);
  }

  lemma FatWraps(a: nat, c: Word)
    ensures (a + c * 4 % WORD / SECTOR) % 0x80_0000 == (a + c / 128) % 0x80_0000
  {
  }

  lemma BelowWrap(x: nat)
    ensures x % 0x80_0000 == x <==> x < 0x80_0000
  {
  }

  /** `get_heap_lba` is the cluster's sector exactly when that sector lies in the first
      4 GiB of the drive. */
  lemma HeapLbaExact(v: Volume, c: Word)
    requires c >= 2
    ensures HeapLba(v, c) == ClusterSector(v, c) <==> ClusterSector(v, c) < 0x80_0000
  {
    hide HeapLba;
    SectorsWrap(v, c);
    BelowWrap(ClusterSector(v, c));
  }

  /** `get_fat_lba` is the right sector exactly when it lies in the first 4 GiB. */
  lemma FatLbaExact(v: Volume, c: Word)
    ensures FatLba(v, c) == TableSector(v, c) <==> TableSector(v, c) < 0x80_0000
  {
    hide FatLba;
    SectorsWrap(v, c);
    BelowWrap(TableSector(v, c));
  }

  lemma ClusterSizeExact(v: Volume, n: Word)
    ensures ClusterSize(v, n) == n * PerCluster(v) <==> n * PerCluster(v) < 0x80_0000
  {
    hide ClusterSize;
    SectorsWrap(v, n);
    BelowWrap(n * PerCluster(v));
  }

  /** The up-case table that leaves ASCII alone. */
  function Ascii(): seq<nat> {
    seq(128, i requires 0 <= i => i)
  }

  /** A volume whose table and clusters start past 4 GiB: both are looked for at the start
      of the partition. */
  lemma FarInput()
    ensures var v := Volume(_ => 0, 0x80_0000, 0x80_0000, 0, 2, Ascii());
      && ValidVolume(v)
      && ClusterSector(v, 2) == 0x80_0100 && HeapLba(v, 2) == 0x100
      && TableSector(v, 2) == 0x80_0100 && FatLba(v, 2) == 0x100
  {
  }

  /** Sectors in numbers, on a volume with a table at 24, clusters at 0x80 and eight sectors
      a cluster: cluster 5 is the fourth, and its table entry the one in the first sector. */
  lemma SectorsInNumbers(disk: nat -> Byte)
    ensures var v := Volume(disk, 24, 0x80, 3, 2, Ascii());
      && ClusterBytes(v) == 4096 && ClusterSize(v, 2) == 16
      && ClusterSector(v, 5) == HeapLba(v, 5) == 0x100 + 0x80 + 3 * 8
      && TableSector(v, 5) == FatLba(v, 5) == 0x100 + 24
      && TableSector(v, 300) == FatLba(v, 300) == 0x100 + 24 + 2
  {
    assert Pow2(3) == 8;
  }

  /** Table entries are little endian, one word for each cluster. */
  lemma EntryInNumbers(v: Volume, c: nat)
    requires var at := 512 * (0x100 + v.fatOffset) + 4 * c;
      v.disk(at) == 1 && v.disk(at + 1) == 2 && v.disk(at + 2) == 3 && v.disk(at + 3) == 4
    ensures TableEntry(v, c) == 0x0403_0201
  {
  }

  /** One cluster's size is never truncated. */
  lemma OneCluster(v: Volume)
    requires ValidVolume(v)
    ensures ClusterSize(v, 1) == PerCluster(v)
  {
    Pow2Monotone(v.shift, 16);
    assert Pow2(8) == 0x100;
    Pow2Add(8, 8);
    ClusterSizeExact(v, 1);
  }

  // ----- Reading

  /** `count` sectors of the drive from `lba` on. */
  function Sectors(v: Volume, lba: nat, count: nat): (s: seq<Byte>)
    ensures |s| == SECTOR * count && forall i :: 0 <= i < |s| ==> s[i] == v.disk(SECTOR * lba + i)
  {
    seq<Byte>(SECTOR * count, i requires 0 <= i < SECTOR * count => v.disk(SECTOR * lba + i))
  }

  /** A buffer with the bytes from `at` on replaced by `data`. */
  function Overwrite(s: seq<Byte>, at: nat, data: seq<Byte>): (r: seq<Byte>)
    requires at + |data| <= |s|
    ensures |r| == |s|
    ensures forall i :: 0 <= i < |s| ==> r[i] == if at <= i < at + |data| then data[i - at] else s[i]
  {
    s[..at] + data + s[at + |data|..]
  }

  /** `bios_ext_read` (boot/x86/bios.c:8-29), with the BIOS call replaced by the drive's
      contents. */
  method BiosRead(v: Volume, dest: array<Byte>, at: nat, lba: nat, length: nat)
    requires at + SECTOR * length <= dest.Length
    modifies dest
    ensures dest[..] == Overwrite(old(dest[..]), at, Sectors(v, lba, length))
  {
    for i := 0 to length
      invariant forall x :: 0 <= x < dest.Length ==>
        dest[x] == if at <= x < at + SECTOR * i then v.disk(SECTOR * lba + (x - at)) else old(dest[x])
    {
      for j := 0 to SECTOR
        invariant forall x :: 0 <= x < dest.Length ==>
          dest[x] == if at <= x < at + SECTOR * i + j then v.disk(SECTOR * lba + (x - at)) else old(dest[x])
      {
        dest[at + j + i * SECTOR] := v.disk(SECTOR * (lba + i) + j);
      }
    }
  }
}
