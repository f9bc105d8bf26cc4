/** Resolving a path (boot/x86/fs/exfat.c:177-209): each component is looked up in the
    directory at the start of the buffer, and the file found replaces it there. */
module ExfatPath {
  import opened Options
  import opened Bits
  import opened Division
  import opened ExfatVolume
  import opened ExfatFile
  import opened ExfatDirectory

  // ----- Components of a path

  function ComponentLength(p: string): (n: nat)
    ensures n <= |p| && (n == |p| || p[n] == '/') && forall i :: 0 <= i < n ==> p[i] != '/'
  {
    if p == "" || p[0] == '/' then 0 else 1 + ComponentLength(p[1..])
  }

  /** The non-empty parts between separators. */
  function Components(p: string): (cs: seq<string>)
    ensures forall c :: c in cs ==> c != "" && '/' !in c
    decreases |p|
  {
    if p == "" then []
    else if p[0] == '/' then Components(p[1..])
    else
      var n := ComponentLength(p);
      [p[..n]] + Components(p[n..])
  }

  lemma {:induction false} ComponentLengthIs(c: string, rest: string)
    requires '/' !in c && (rest == "" || rest[0] == '/')
    ensures ComponentLength(c + rest) == |c|
  {
    if c == "" {
      assert c + rest == rest;
    } else {
      assert (c + rest)[1..] == c[1..] + rest;
      ComponentLengthIs(c[1..], rest);
    }
  }

  lemma ComponentsFirst(c: string, rest: string)
    requires c != "" && '/' !in c && (rest == "" || rest[0] == '/')
    ensures Components(c + rest) == [c] + Components(rest)
  {
    ComponentLengthIs(c, rest);
    assert (c + rest)[..|c|] == c && (c + rest)[|c|..] == rest;
  }

  /** Separators, repeated, leading or trailing, make no difference: a path's components
      are those of its two sides wherever it has a separator. */
  lemma {:induction false} ComponentsSplit(p: string, q: string)
    ensures Components(p + "/" + q) == Components(p) + Components(q)
    decreases |p|
  {
    if p == "" {
      assert p + "/" + q == "/" + q && ("/" + q)[1..] == q;
      assert Components(p) + Components(q) == Components(q);
    } else if p[0] == '/' {
      assert (p + "/" + q)[1..] == p[1..] + "/" + q;
      ComponentsSplit(p[1..], q);
    } else {
      var c, rest := p[..ComponentLength(p)], p[ComponentLength(p)..];
      SplitBehind(c, rest, q);
      ComponentsSplit(rest, q);
      assert p == c + rest;
    }
  }

  lemma SplitBehind(c: string, rest: string, q: string)
    requires c != "" && '/' !in c && (rest == "" || rest[0] == '/')
    ensures Components(c + rest + "/" + q) == [c] + Components(rest + "/" + q)
    ensures Components(c + rest) == [c] + Components(rest)
  {
    assert c + rest + "/" + q == c + (rest + "/" + q);
    ComponentsFirst(c, rest + "/" + q);
    ComponentsFirst(c, rest);
  }

  lemma OneComponent(c: string)
    requires c != "" && '/' !in c
    ensures Components(c) == [c]
  {
    assert c + "" == c;
    ComponentsFirst(c, "");
  }

  lemma NoComponents()
    ensures Components("") == []
  {
  }

  /** The path of the kernel (boot/x86/stage2.c:43), with separators in every place. */
  lemma KernelPath()
    ensures Components("/system//kernel/") == ["system", "kernel"]
  {
    NoComponents();
    hide Components, ComponentLength;
    assert "/system//kernel/" == "" + "/" + "system//kernel/";
    assert "system//kernel/" == "system" + "/" + "/kernel/";
    assert "/kernel/" == "" + "/" + "kernel/";
    assert "kernel/" == "kernel" + "/" + "";
    ComponentsSplit("", "system//kernel/");
    ComponentsSplit("system", "/kernel/");
    ComponentsSplit("", "kernel/");
    ComponentsSplit("kernel", "");
    OneComponent("system");
    OneComponent("kernel");
  }

  // ----- Meaning of a path

  /** A file whose clusters can be followed on the drive. */
  ghost predicate Loadable(v: Volume, f: FileSet) {
    exists cs :: FileClusters(v, f.first, f.length, cs)
  }

  /** An empty file as formatters write it starts at cluster 0. It can be followed exactly
      when the table's entry 0 is zero: any other value is taken for a chain. */
  lemma EmptyFile(v: Volume, f: FileSet)
    requires f.first == 0
    ensures Loadable(v, f) <==> Reachable(v, 0) && TableEntry(v, 0) == 0 && Count(v, f.length) == 0
  {
    if Reachable(v, 0) && TableEntry(v, 0) == 0 && Count(v, f.length) == 0 {
      assert FileClusters(v, 0, f.length, []);
    }
    if Loadable(v, f) {
      var cs :| FileClusters(v, 0, f.length, cs);
      assert cs != [] ==> cs[0] == 0 && !Located(v, cs[0]);
    }
  }

  /** The byte of a drive whose table starts with the media word 0xFFFFFFF8 (section 4.1.1 of
      the exFAT specification). */
  function MediaDrive(x: nat): Byte {
    if x == 0x2_0000 then 0xF8 else if 0x2_0001 <= x < 0x2_0004 then 0xFF else 0
  }

  /** There the source takes an empty file for a chain: it loads the sector two before the
      first cluster and goes on from cluster 0xFFFFFFF8, which is no terminator. */
  lemma EmptyFileInput(name: seq<nat>)
    ensures var v := Volume(MediaDrive, 0, 0x100, 0, 2, Ascii());
      && ValidVolume(v) && !Loadable(v, FileSet(name, 0, 0))
      && TableEntry(v, 0) == 0xFFFF_FFF8 && TableEntry(v, 0) != END_OF_CHAIN && TableEntry(v, 0) != BAD_CLUSTER
      && HeapLba(v, 0) == ClusterSector(v, 2) - 2
  {
    var v := Volume(MediaDrive, 0, 0x100, 0, 2, Ascii());
    EmptyFile(v, FileSet(name, 0, 0));
  }

  /** The clusters of a file; `ClustersUnique` says there is no choice. */
  ghost function ClustersOf(v: Volume, f: FileSet): (cs: seq<nat>)
    requires Loadable(v, f)
    ensures FileClusters(v, f.first, f.length, cs)
  {
    var cs :| FileClusters(v, f.first, f.length, cs);
    cs
  }

  /** `n` clusters of a directory or file at the start of the buffer. */
  predicate InBuffer(v: Volume, buffer: seq<Byte>, n: nat) {
    n > 0 && n * ClusterBytes(v) <= |buffer|
  }

  /** The files of the directory in the first `n` clusters of the buffer. */
  function Listing(v: Volume, buffer: seq<Byte>, n: nat): seq<FileSet>
    requires InBuffer(v, buffer, n)
  {
    var dir := buffer[..n * ClusterBytes(v)];
    Files(dir, |dir| / ENTRY, 0)
  }

  /** The buffer with a file loaded over its start. The clusters of the file's chain are
      loaded, however many its length says there are. */
  ghost function After(v: Volume, buffer: seq<Byte>, f: FileSet): (b: seq<Byte>)
    requires Loadable(v, f) && |ClustersOf(v, f)| * ClusterBytes(v) <= |buffer|
    ensures |b| == |buffer|
  {
    Overwrite(buffer, 0, FileData(v, ClustersOf(v, f)))
  }

  /** Every directory on the way is well formed, and every file found fits the buffer,
      both by its chain and by its length. */
  ghost predicate Sound(v: Volume, buffer: seq<Byte>, n: nat, comps: seq<string>)
    requires ValidVolume(v) && InBuffer(v, buffer, n)
    decreases |comps|
  {
    comps == [] ||
    (&& WellFormed(buffer[..n * ClusterBytes(v)], n * ClusterBytes(v) / ENTRY)
     && match Lookup(v, Listing(v, buffer, n), comps[0])
        case None => true
        case Some(f) =>
          && Loadable(v, f) && |ClustersOf(v, f)| * ClusterBytes(v) <= |buffer|
          && Count(v, f.length) * ClusterBytes(v) <= |buffer|
          && (Count(v, f.length) > 0 ==> Sound(v, After(v, buffer, f), Count(v, f.length), comps[1..])))
  }

  /** The buffer, and how many of its clusters are the file, once components have been
      resolved from the directory in the first `n` clusters. Each file found is loaded
      over its directory and is the directory for the rest; an empty file counts as
      missing. */
  ghost function Resolve(v: Volume, buffer: seq<Byte>, n: nat, comps: seq<string>): (r: Option<(seq<Byte>, nat)>)
    requires ValidVolume(v) && InBuffer(v, buffer, n) && Sound(v, buffer, n, comps)
    ensures r.Some? ==> |r.value.0| == |buffer| && InBuffer(v, r.value.0, r.value.1)
    decreases |comps|
  {
    if comps == [] then Some((buffer, n))
    else
      match Lookup(v, Listing(v, buffer, n), comps[0])
      case None => None
      case Some(f) =>
        if Count(v, f.length) == 0 then None else Resolve(v, After(v, buffer, f), Count(v, f.length), comps[1..])
  }

  // ----- The buffer holds more than the directory

  lemma PrefixSet(p: seq<Byte>, d: seq<Byte>, entries: nat, i: nat)
    requires p <= d && ENTRY * entries <= |p| && i < entries
    ensures At(d, ENTRY * i) == At(p, ENTRY * i) && Secondaries(d, i) == Secondaries(p, i)
    ensures var n := Secondaries(p, i);
      2 <= n && i + n < entries && NameLength(p, i) <= NAME_CHARS * (n - 1) ==>
        && NameLength(d, i) == NameLength(p, i) && SetAt(d, i) == SetAt(p, i)
        && forall k :: 0 <= k < NAME_CHARS * (n - 1) ==> NameChar(d, i, k) == NameChar(p, i, k)
  {
  }

  lemma {:induction false} PrefixFiles(p: seq<Byte>, d: seq<Byte>, entries: nat, i: nat)
    requires p <= d && ENTRY * entries <= |p| && WellFormedFrom(p, entries, i)
    ensures WellFormedFrom(d, entries, i) && Files(d, entries, i) == Files(p, entries, i)
    decreases entries - i
  {
    if i < entries {
      PrefixSet(p, d, entries, i);
      if At(p, ENTRY * i) != FILE_ENTRY {
        PrefixFiles(p, d, entries, i + 1);
      } else {
        PrefixFiles(p, d, entries, i + Secondaries(p, i) + 1);
      }
    }
  }

  // ----- The code

  /** `_read_file_exfat_helper` (boot/x86/fs/exfat.c:81-175). The directory is scanned in
      the buffer that the file is then loaded into; the scan is over by then. */
  method ReadFileHelper(v: Volume, name: string, clusters: nat, dest: array<Byte>) returns (n: nat)
    requires ValidVolume(v) && InBuffer(v, dest[..], clusters) && dest.Length < WORD
    requires Sound(v, dest[..], clusters, [name])
    modifies dest
    ensures match Lookup(v, old(Listing(v, dest[..], clusters)), name)
      case None => n == 0 && dest[..] == old(dest[..])
      case Some(f) => n == Count(v, f.length) && dest[..] == After(v, old(dest[..]), f)
  {
    hide Files, FileClusters;
    ghost var whole := dest[..];
    ghost var dir := whole[..clusters * ClusterBytes(v)];
    var entries := Entries(v, clusters, dest.Length);
    PrefixFiles(dir, whole, entries, 0);
    var found := FindFile(v, dest, entries, name);
    if found == None { return 0; }
    var (first, length) := found.value;
    ghost var f := Lookup(v, Listing(v, whole, clusters), name).value;
    n := LoadFile(v, dest, first, length, ClustersOf(v, f));
    LoadedAll(v, whole, dest[..], ClustersOf(v, f));
  }

  /** The number of entries to scan (boot/x86/fs/exfat.c:86). */
  method Entries(v: Volume, clusters: nat, room: nat) returns (n: nat)
    requires ValidVolume(v) && clusters * ClusterBytes(v) <= room < WORD
    ensures n == clusters * ClusterBytes(v) / ENTRY && ENTRY * n <= room
  {
    hide ClusterSize, ValidVolume;
    MulGrows(clusters, ClusterBytes(v));
    ClusterSizeExact(v, clusters);
    SectorsOf(clusters, PerCluster(v));
    n := SECTOR * ClusterSize(v, clusters) % WORD / ENTRY;
  }

  lemma SectorsOf(n: nat, m: nat)
    ensures SECTOR * (n * m) == n * (SECTOR * m)
  {
  }

  lemma LoadedAll(v: Volume, before: seq<Byte>, now: seq<Byte>, cs: seq<nat>)
    requires Loaded(v, before, now, cs, |cs|)
    ensures |cs| * ClusterBytes(v) <= |before| && now == Overwrite(before, 0, FileData(v, cs))
  {
    assert cs[..|cs|] == cs;
  }

  /** The buffer with the root directory's first cluster over its start. */
  function Rooted(v: Volume, buffer: seq<Byte>): (b: seq<Byte>)
    requires ClusterBytes(v) <= |buffer|
    ensures InBuffer(v, b, 1)
  {
    Overwrite(buffer, 0, ClusterData(v, v.root))
  }

  /** `read_file_exfat` (boot/x86/fs/exfat.c:179-209): the buffer that resolving the path
      leaves, and the number of bytes of the file it names, or zero. */
  method ReadFile(v: Volume, path: string, dest: array<Byte>) returns (n: nat)
    requires ValidVolume(v) && Located(v, v.root) && ClusterBytes(v) <= dest.Length < WORD
    requires Sound(v, Rooted(v, dest[..]), 1, Components(path))
    modifies dest
    ensures match Resolve(v, Rooted(v, old(dest[..])), 1, Components(path))
      case None => n == 0
      case Some((buffer, k)) => n == k * ClusterBytes(v) && dest[..] == buffer
  {
    hide Sound, Resolve, Components, ClusterData;
    ghost var goal := Resolve(v, Rooted(v, dest[..]), 1, Components(path));
    ReadRoot(v, dest);
    var dirsClusters: nat := 1;
    var i := 0;
    assert path[0..] == path;
    while i < |path|
      invariant 0 <= i <= |path| && InBuffer(v, dest[..], dirsClusters)
      invariant Sound(v, dest[..], dirsClusters, Components(path[i..]))
      invariant goal == Resolve(v, dest[..], dirsClusters, Components(path[i..]))
      decreases |path| - i
    {
      if path[i] != '/' {
        var pathLength := PathLength(path, i);
        NextComponent(path, i, pathLength);
        dirsClusters := Descend(v, path[i..i + pathLength], dirsClusters, dest, Components(path[i + pathLength..]));
        if dirsClusters == 0 { return 0; }
        i := i + pathLength - 1;
      } else {
        SkipSeparator(path, i);
      }
      i := i + 1;
    }
    EndOfPath(v, dest[..], dirsClusters, path[i..]);
    n := dirsClusters * ClusterBytes(v);
  }

  /** The root directory's first cluster (boot/x86/fs/exfat.c:186). */
  method ReadRoot(v: Volume, dest: array<Byte>)
    requires ValidVolume(v) && Located(v, v.root) && ClusterBytes(v) <= dest.Length
    modifies dest
    ensures dest[..] == Rooted(v, old(dest[..]))
  {
    OneCluster(v);
    HeapLbaExact(v, v.root);
    BiosRead(v, dest, 0, HeapLba(v, v.root), ClusterSize(v, 1));
  }

  /** Length of the component at `i` (boot/x86/fs/exfat.c:193). */
  method PathLength(path: string, i: nat) returns (n: nat)
    requires i < |path| && path[i] != '/'
    ensures 0 < n && i + n <= |path| && (i + n == |path| || path[i + n] == '/')
    ensures forall k :: i <= k < i + n ==> path[k] != '/'
  {
    n := 0;
    while i + n < |path| && path[i + n] != '/'
      invariant i + n <= |path| && forall k :: i <= k < i + n ==> path[k] != '/'
    {
      n := n + 1;
    }
  }

  /** One component: the file found becomes the directory for the rest. */
  method Descend(v: Volume, name: string, clusters: nat, dest: array<Byte>, ghost rest: seq<string>) returns (n: nat)
    requires ValidVolume(v) && InBuffer(v, dest[..], clusters) && dest.Length < WORD
    requires Sound(v, dest[..], clusters, [name] + rest)
    modifies dest
    ensures var goal := old(Resolve(v, dest[..], clusters, [name] + rest));
      if n == 0 then goal == None
      else InBuffer(v, dest[..], n) && Sound(v, dest[..], n, rest) && goal == Resolve(v, dest[..], n, rest)
  {
    assert ([name] + rest)[1..] == rest;
    SoundFirst(v, dest[..], clusters, name, rest);
    n := ReadFileHelper(v, name, clusters, dest);
  }

  lemma SoundFirst(v: Volume, buffer: seq<Byte>, n: nat, name: string, rest: seq<string>)
    requires ValidVolume(v) && InBuffer(v, buffer, n) && Sound(v, buffer, n, [name] + rest)
    ensures Sound(v, buffer, n, [name])
  {
  }

  lemma SkipSeparator(path: string, i: nat)
    requires i < |path| && path[i] == '/'
    ensures Components(path[i..]) == Components(path[i + 1..])
  {
    assert path[i..][1..] == path[i + 1..];
  }

  lemma EndOfPath(v: Volume, buffer: seq<Byte>, n: nat, p: string)
    requires ValidVolume(v) && InBuffer(v, buffer, n) && p == "" && Sound(v, buffer, n, Components(p))
    ensures Resolve(v, buffer, n, Components(p)) == Some((buffer, n))
  {
  }

  lemma NextComponent(path: string, i: nat, n: nat)
    requires 0 < n && i + n <= |path| && (i + n == |path| || path[i + n] == '/')
    requires forall k :: i <= k < i + n ==> path[k] != '/'
    ensures Components(path[i..]) == [path[i..i + n]] + Components(path[i + n..])
  {
    assert path[i..] == path[i..i + n] + path[i + n..];
    ComponentsFirst(path[i..i + n], path[i + n..]);
  }
}
