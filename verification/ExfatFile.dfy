/** Looking up the allocation table and loading a file (boot/x86/fs/exfat.c:124-165). */
module ExfatFile {
  import opened Bits
  import opened Division
  import opened ExfatVolume

  /** Table entries in the buffer the source reads. */
  function PerBuffer(v: Volume): (n: nat)
    ensures n > 0
  {
    PER_SECTOR * PerCluster(v)
  }

  /** Word `i` of a byte buffer. */
  function WordAt(s: seq<Byte>, i: nat): Word
    requires 4 * i + 4 <= |s|
  {
    var a: int, b: int, c: int, d: int := s[4 * i], s[4 * i + 1], s[4 * i + 2], s[4 * i + 3];
    a + 0x100 * b + 0x1_0000 * c + 0x100_0000 * d
  }

  /** The buffer starts at the sector of `c`'s entry but is indexed by `c` modulo its
      size: that is `c`'s entry exactly when the sector is a multiple of the buffer. */
  lemma LookupIndex(c: nat, n: nat)
    requires n > 0
    ensures Mod(c, PER_SECTOR * n) < PER_SECTOR * n
    ensures PER_SECTOR * (c / PER_SECTOR) + Mod(c, PER_SECTOR * n) == c <==> Mod(c / PER_SECTOR, n) == 0
  {
    var a, b := c / PER_SECTOR, c % PER_SECTOR;
    var q, r := Div(a, n), Mod(a, n);
    assert PER_SECTOR * n * q == PER_SECTOR * (n * q);
    ModIs(c, PER_SECTOR * n, q, PER_SECTOR * r + b);
  }

  /** The entry of `c` can be looked up: its sector is in reach, and at a multiple of the
      buffer size. */
  predicate Reachable(v: Volume, c: nat) {
    c < WORD && TableSector(v, c) < 0x80_0000 && Mod(c / PER_SECTOR, PerCluster(v)) == 0
  }

  /** The data of `c` can be read. */
  predicate Located(v: Volume, c: nat) {
    2 <= c < WORD && ClusterSector(v, c) < 0x80_0000
  }

  /** What the source reads for `c`: the word at its index in the buffer is the entry of
      the cluster that `LookupIndex` speaks of. */
  lemma LookupReads(v: Volume, c: Word, buffer: seq<Byte>)
    requires TableSector(v, c) < 0x80_0000 && buffer == Sectors(v, FatLba(v, c), PerCluster(v))
    ensures var i := Mod(c, PerBuffer(v));
      4 * i + 4 <= |buffer| && WordAt(buffer, i) == TableEntry(v, PER_SECTOR * (c / PER_SECTOR) + i)
  {
    FatLbaExact(v, c);
    var i := Mod(c, PerBuffer(v));
    assert SECTOR * TableSector(v, c) + 4 * i
        == SECTOR * (PARTITION + v.fatOffset) + 4 * (PER_SECTOR * (c / PER_SECTOR) + i);
  }

  /** For a reachable cluster that is its own entry. */
  lemma LookupExact(v: Volume, c: Word, buffer: seq<Byte>)
    requires Reachable(v, c) && buffer == Sectors(v, FatLba(v, c), PerCluster(v))
    ensures var i := Mod(c, PerBuffer(v)); 4 * i + 4 <= |buffer| && WordAt(buffer, i) == TableEntry(v, c)
  {
    LookupReads(v, c, buffer);
    LookupIndex(c, PerCluster(v));
  }

  /** The byte of a drive on which entry 128 ends a chain and entry 256 does not. */
  function WrongWordDrive(x: nat): Byte {
    if 0x2_0200 <= x < 0x2_0204 then 0xFF else if x == 0x2_0400 then 5 else 0
  }

  /** With two sectors a cluster the source reads entry 256 for cluster 128. */
  lemma WrongWordInput()
    ensures var v := Volume(WrongWordDrive, 0, 0x100, 1, 2, Ascii());
      var buffer := Sectors(v, FatLba(v, 128), PerCluster(v));
      var i := Mod(128, PerBuffer(v));
      && ValidVolume(v) && TableEntry(v, 128) == END_OF_CHAIN
      && 4 * i + 4 <= |buffer| && WordAt(buffer, i) == 5
  {
    var v := Volume(WrongWordDrive, 0, 0x100, 1, 2, Ascii());
    assert Pow2(1) == 2;
    ModIs(128, 256, 0, 128);
    LookupReads(v, 128, Sectors(v, FatLba(v, 128), PerCluster(v)));
    assert TableEntry(v, 256) == 5;
  }

  // ----- Files

  /** `(data_length + bytes - 1) / bytes` with the sum cut to 32 bits by the `int` cast. */
  function Count(v: Volume, length: nat): nat {
    Div((length + ClusterBytes(v) - 1) % WORD, ClusterBytes(v))
  }

  /** Clusters needed for `length` bytes. */
  function Needed(v: Volume, length: nat): nat {
    Div(length + ClusterBytes(v) - 1, ClusterBytes(v))
  }

  /** The count is right exactly when the sum fits 32 bits. */
  lemma CountExact(v: Volume, length: nat)
    requires ValidVolume(v)
    ensures Count(v, length) == Needed(v, length) <==> length + ClusterBytes(v) - 1 < WORD
  {
    var m, x := ClusterBytes(v), length + ClusterBytes(v) - 1;
    hide ClusterBytes;
    ClusterBelow(v);
    ModBelow(x, WORD);
    if x >= WORD { DivApart(x % WORD, x, m); }
  }

  /** In any case the count is that of the rounded-up length modulo 2^32. */
  lemma CountWraps(v: Volume, length: nat, n: nat)
    ensures n <= Count(v, length) <==>
      n * ClusterBytes(v) <= (length + ClusterBytes(v) - 1) % 0x1_0000_0000
  {
    hide ClusterBytes;
    var m := ClusterBytes(v);
    var q := Count(v, length);
    if n <= q { MulMonotone(n, q, m); } else { MulMonotone(q + 1, n, m); }
    assert (q + 1) * m == q * m + m;
  }

  /** The clusters needed are the fewest that hold the length. */
  lemma NeededIsLeast(v: Volume, length: nat, n: nat)
    ensures n >= Needed(v, length) <==> n * ClusterBytes(v) >= length
  {
    hide ClusterBytes;
    var m := ClusterBytes(v);
    var q := Needed(v, length);
    if n >= q { MulMonotone(q, n, m); } else { MulMonotone(n + 1, q, m); }
    assert (n + 1) * m == n * m + m;
  }

  /** A length just below 4 GiB, in clusters of one sector, counts as none. */
  lemma TruncatedInput()
    ensures var v := Volume(_ => 0, 0, 0, 0, 2, Ascii());
      ValidVolume(v) && Count(v, WORD - 1) == 0 && Needed(v, WORD - 1) == 0x80_0000
  {
    DivUnique(510, SECTOR, 0, 510);
    DivUnique(WORD + 510, SECTOR, 0x80_0000, 510);
  }

  lemma ClusterBelow(v: Volume)
    requires ValidVolume(v)
    ensures ClusterBytes(v) <= 0x200_0000
  {
    Pow2Monotone(v.shift, 16);
    assert Pow2(8) == 0x100;
    Pow2Add(8, 8);
  }

  /** A chain in the allocation table (section 4.1 of the exFAT specification): each entry
      names the next cluster, the last one is a terminator. */
  predicate IsChain(v: Volume, cs: seq<nat>) {
    && cs != []
    && (forall i :: 0 <= i < |cs| ==> Reachable(v, cs[i]) && Located(v, cs[i]))
    && (forall i :: 0 <= i < |cs| - 1 ==> TableEntry(v, cs[i]) == cs[i + 1])
    && (TableEntry(v, cs[|cs| - 1]) == END_OF_CHAIN || TableEntry(v, cs[|cs| - 1]) == BAD_CLUSTER)
  }

  /** Clusters that follow one another. */
  predicate IsContiguous(v: Volume, first: nat, cs: seq<nat>) {
    forall i :: 0 <= i < |cs| ==> cs[i] == first + i && Located(v, cs[i])
  }

  /** The clusters of a file that starts at `first`: a contiguous file has a zero entry,
      and then its length says how many there are. */
  predicate FileClusters(v: Volume, first: nat, length: nat, cs: seq<nat>) {
    && Reachable(v, first)
    && if TableEntry(v, first) == 0 then |cs| == Count(v, length) && IsContiguous(v, first, cs)
       else IsChain(v, cs) && cs[0] == first
  }

  /** Files of two clusters: with a zero entry the second one follows the first; otherwise
      the entry names it, and 0xFFFFFFFF or 0xFFFFFFF7 ends the chain. */
  lemma TwoClusters(v: Volume, c: nat, d: nat, length: nat)
    requires Reachable(v, c) && Located(v, c) && Located(v, d)
    ensures TableEntry(v, c) == 0 && d == c + 1 && Count(v, length) == 2 ==> FileClusters(v, c, length, [c, d])
    ensures TableEntry(v, c) == d && d != 0 && Reachable(v, d) && TableEntry(v, d) in {0xFFFF_FFFF, 0xFFFF_FFF7} ==>
      FileClusters(v, c, length, [c, d])
  {
  }

  /** Two descriptions of one file agree: the drive determines the clusters. */
  lemma {:induction false} ClustersUnique(v: Volume, first: nat, length: nat, cs: seq<nat>, ds: seq<nat>)
    requires FileClusters(v, first, length, cs) && FileClusters(v, first, length, ds)
    ensures cs == ds
  {
    if TableEntry(v, first) != 0 {
      ChainNoLonger(v, cs, ds);
      ChainNoLonger(v, ds, cs);
      forall i | 0 <= i < |cs| ensures cs[i] == ds[i] { SameChain(v, cs, ds, i); }
    }
  }

  lemma {:induction false} SameChain(v: Volume, cs: seq<nat>, ds: seq<nat>, i: nat)
    requires IsChain(v, cs) && IsChain(v, ds) && cs[0] == ds[0] && i < |cs| && i < |ds|
    ensures cs[i] == ds[i]
  {
    if i > 0 { SameChain(v, cs, ds, i - 1); }
  }

  /** A chain ends where another one with the same start ends. */
  lemma ChainNoLonger(v: Volume, cs: seq<nat>, ds: seq<nat>)
    requires IsChain(v, cs) && IsChain(v, ds) && cs[0] == ds[0]
    ensures |ds| <= |cs|
  {
    var last := |cs| - 1;
    if last < |ds| { SameChain(v, cs, ds, last); }
    assert last + 1 < |ds| ==> TableEntry(v, ds[last]) == ds[last + 1] && Located(v, ds[last + 1]);
    if last + 1 < |ds| { HighClusterFar(v, ds[last + 1]); }
  }

  /** No cluster of a chain comes twice: the walk is acyclic. */
  lemma {:induction false} ChainAcyclic(v: Volume, cs: seq<nat>, i: nat, j: nat)
    requires IsChain(v, cs) && i < j < |cs|
    ensures cs[i] != cs[j]
    decreases |cs| - j
  {
    if j == |cs| - 1 {
      assert TableEntry(v, cs[i]) == cs[i + 1] && Located(v, cs[i + 1]);
      HighClusterFar(v, cs[i + 1]);
    } else if cs[i] == cs[j] {
      assert cs[i + 1] == cs[j + 1];
      ChainAcyclic(v, cs, i + 1, j + 1);
    }
  }

  /** The terminators are beyond every cluster that can be read. */
  lemma HighClusterFar(v: Volume, c: nat)
    requires Located(v, c)
    ensures c < 0x80_0002
  {
    MulGrows(c - 2, PerCluster(v));
  }

  function ClusterData(v: Volume, c: nat): (s: seq<Byte>)
    ensures |s| == ClusterBytes(v)
  {
    Sectors(v, ClusterSector(v, c), PerCluster(v))
  }

  /** The bytes of clusters in order. */
  function FileData(v: Volume, cs: seq<nat>): (s: seq<Byte>)
    ensures |s| == |cs| * ClusterBytes(v)
  {
    if cs == [] then [] else FileData(v, cs[..|cs| - 1]) + ClusterData(v, cs[|cs| - 1])
  }

  /** A file's bytes: those of its clusters' sectors, cluster after cluster. */
  lemma {:induction false} FileByte(v: Volume, cs: seq<nat>, k: nat, i: nat)
    requires k < |cs| && i < ClusterBytes(v)
    ensures k * ClusterBytes(v) + i < |FileData(v, cs)|
    ensures FileData(v, cs)[k * ClusterBytes(v) + i] == v.disk(512 * ClusterSector(v, cs[k]) + i)
    decreases |cs|
  {
    hide ClusterBytes, ClusterSector;
    var last := |cs| - 1;
    MulMonotone(k + 1, |cs|, ClusterBytes(v));
    assert (k + 1) * ClusterBytes(v) == k * ClusterBytes(v) + ClusterBytes(v);
    if k < last {
      FileByte(v, cs[..last], k, i);
    } else {
      assert FileData(v, cs)[k * ClusterBytes(v) + i] == ClusterData(v, cs[k])[i];
    }
  }

  /** Reading one more cluster behind the ones already in place. */
  lemma AppendCluster(v: Volume, before: seq<Byte>, cs: seq<nat>, k: nat)
    requires k < |cs|
    requires (k + 1) * ClusterBytes(v) <= |before|
    ensures k * ClusterBytes(v) + ClusterBytes(v) <= |before|
    ensures Overwrite(Overwrite(before, 0, FileData(v, cs[..k])), k * ClusterBytes(v), ClusterData(v, cs[k]))
         == Overwrite(before, 0, FileData(v, cs[..k + 1]))
  {
    assert cs[..k + 1][..k] == cs[..k];
    assert (k + 1) * ClusterBytes(v) == k * ClusterBytes(v) + ClusterBytes(v);
  }

  /** The first `k` clusters are in place at the start of the buffer. */
  ghost predicate Loaded(v: Volume, before: seq<Byte>, now: seq<Byte>, cs: seq<nat>, k: nat) {
    k <= |cs| && var data := FileData(v, cs[..k]); |data| <= |before| && now == Overwrite(before, 0, data)
  }

  lemma LoadedNone(v: Volume, before: seq<Byte>, cs: seq<nat>)
    ensures Loaded(v, before, before, cs, 0)
  {
  }

  /** One cluster read to its place (boot/x86/fs/exfat.c:140 and 149). */
  method ReadCluster(v: Volume, dest: array<Byte>, ghost before: seq<Byte>, ghost cs: seq<nat>, k: nat, c: Word)
    requires ValidVolume(v) && k < |cs| && c == cs[k] && Located(v, c)
    requires |cs| * ClusterBytes(v) <= |before| == dest.Length < WORD
    requires Loaded(v, before, dest[..], cs, k)
    modifies dest
    ensures Loaded(v, before, dest[..], cs, k + 1)
  {
    OneCluster(v);
    HeapLbaExact(v, c);
    var n := ClusterSize(v, 1);
    MulMonotone(k + 1, |cs|, ClusterBytes(v));
    AppendCluster(v, before, cs, k);
    BiosRead(v, dest, SECTOR * n * k, HeapLba(v, c), n);
  }

  /** The table sectors for `c` read into the lookup buffer. */
  method ReadTable(v: Volume, fat: array<Byte>, c: Word)
    requires ValidVolume(v) && fat.Length == 4 * PerBuffer(v) && Reachable(v, c)
    modifies fat
    ensures var i := Mod(c, PerBuffer(v)); WordAt(fat[..], i) == TableEntry(v, c)
  {
    OneCluster(v);
    BiosRead(v, fat, 0, FatLba(v, c), ClusterSize(v, 1));
    assert fat[..] == Sectors(v, FatLba(v, c), PerCluster(v));
    LookupExact(v, c, fat[..]);
  }

  /** The contiguous case (boot/x86/fs/exfat.c:139-141). */
  method LoadContiguous(v: Volume, dest: array<Byte>, first: Word, length: nat, ghost cs: seq<nat>)
    requires ValidVolume(v) && |cs| == Count(v, length) && IsContiguous(v, first, cs)
    requires |cs| * ClusterBytes(v) <= dest.Length < WORD
    modifies dest
    ensures Loaded(v, old(dest[..]), dest[..], cs, |cs|)
  {
    hide Loaded, PerBuffer, TableEntry, WordAt, TableSector, ClusterSector, ClusterBytes, ValidVolume;
    ghost var before := dest[..];
    LoadedNone(v, before, cs);
    var j := 0;
    while j < Count(v, length)
      invariant 0 <= j <= |cs| && Loaded(v, before, dest[..], cs, j)
    {
      assert cs[j] == first + j && Located(v, cs[j]);
      ReadCluster(v, dest, before, cs, j, first + j);
      j := j + 1;
    }
  }

  /** The chain walk (boot/x86/fs/exfat.c:143-160); the table entry of `first` is already
      in the lookup buffer. */
  method LoadChain(v: Volume, dest: array<Byte>, fat: array<Byte>, first: Word, ghost cs: seq<nat>)
    requires ValidVolume(v) && IsChain(v, cs) && cs[0] == first && dest != fat
    requires |cs| * ClusterBytes(v) <= dest.Length < WORD && fat.Length == 4 * PerBuffer(v)
    requires WordAt(fat[..], Mod(first, PerBuffer(v))) == TableEntry(v, first)
    modifies dest, fat
    ensures Loaded(v, old(dest[..]), dest[..], cs, |cs|)
  {
    hide Loaded, PerBuffer, TableEntry, WordAt, TableSector, ClusterSector, ClusterBytes, ValidVolume;
    ghost var before := dest[..];
    LoadedNone(v, before, cs);
    var clustersRead, current := 0, first;
    while true
      invariant 0 <= clustersRead < |cs| && current == cs[clustersRead]
      invariant Loaded(v, before, dest[..], cs, clustersRead)
      invariant WordAt(fat[..], Mod(current, PerBuffer(v))) == TableEntry(v, current)
      decreases |cs| - clustersRead
    {
      ReadCluster(v, dest, before, cs, clustersRead, current);
      clustersRead := clustersRead + 1;
      current := WordAt(fat[..], Mod(current, PerBuffer(v)));
      assert current == TableEntry(v, cs[clustersRead - 1]);
      assert clustersRead < |cs| ==> current == cs[clustersRead] && Reachable(v, cs[clustersRead]);
      if current == END_OF_CHAIN || current == BAD_CLUSTER {
        if clustersRead < |cs| { HighClusterFar(v, cs[clustersRead]); }
        break;
      }
      ReadTable(v, fat, current);
    }
  }

  /** Loading a file from its directory entry (boot/x86/fs/exfat.c:124-164): the buffer
      starts with the file's clusters in order; the number returned is that of its length. */
  method LoadFile(v: Volume, dest: array<Byte>, first: Word, length: nat, ghost cs: seq<nat>) returns (n: nat)
    requires ValidVolume(v) && FileClusters(v, first, length, cs)
    requires |cs| * ClusterBytes(v) <= dest.Length < WORD
    modifies dest
    ensures n == Count(v, length) && Loaded(v, old(dest[..]), dest[..], cs, |cs|)
  {
    var fat := new Byte[4 * PerBuffer(v)];
    ReadTable(v, fat, first);
    if WordAt(fat[..], Mod(first, PerBuffer(v))) == 0 {
      LoadContiguous(v, dest, first, length, cs);
    } else {
      LoadChain(v, dest, fat, first, cs);
    }
    n := Count(v, length);
  }
}
