/** Directory trees laid out on a volume in the exFAT format, and that reading a path gives
    the bytes of the file it names. */
module ExfatTree {
  import opened Options
  import opened Bits
  import opened Division
  import opened ExfatVolume
  import opened ExfatFile
  import opened ExfatDirectory
  import opened ExfatFormat
  import opened ExfatPath

  /** A file's bytes, or a directory's entries in order. */
  datatype Node = Data(bytes: seq<Byte>) | Directory(entries: seq<Entry>)

  /** A named child, with the bytes of its entry set that the source does not look at, or a
      directory entry of another kind. */
  datatype Entry = Child(file: FileSet, spare: nat -> Byte, node: Node) | Filler(bytes: seq<Byte>)

  function ItemOf(e: Entry): Item {
    match e
    case Child(f, spare, _) => File(f, spare)
    case Filler(b) => Other(b)
  }

  function Items(es: seq<Entry>): (r: seq<Item>)
    ensures |r| == |es| && forall i :: 0 <= i < |es| ==> r[i] == ItemOf(es[i])
  {
    seq(|es|, i requires 0 <= i < |es| => ItemOf(es[i]))
  }

  predicate EncodableEntries(es: seq<Entry>) {
    forall i :: 0 <= i < |es| ==> Encodable(ItemOf(es[i]))
  }

  /** What the drive holds for a node: a file's bytes, or a directory in the format. */
  ghost function Content(x: Node): seq<Byte>
    requires x.Directory? ==> EncodableEntries(x.entries)
  {
    match x
    case Data(bytes) => bytes
    case Directory(es) => Encode(Items(es))
  }

  /** The source can load the file into a buffer of `room` bytes. */
  ghost predicate Readable(v: Volume, f: FileSet, room: nat) {
    Loadable(v, f) && |ClustersOf(v, f)| == Count(v, f.length) && |ClustersOf(v, f)| * ClusterBytes(v) <= room
  }

  /** `x` is on the volume in the clusters `cs`, and so is everything below it that the
      source can load, where its entry set says. */
  ghost predicate Laid(v: Volume, x: Node, cs: seq<nat>, room: nat)
    requires ValidVolume(v)
    decreases x
  {
    match x
    case Data(bytes) => bytes <= FileData(v, cs) && |cs| * ClusterBytes(v) < |bytes| + ClusterBytes(v)
    case Directory(es) =>
      && EncodableEntries(es) && FileData(v, cs) == Encode(Items(es))
      && forall i :: 0 <= i < |es| && es[i].Child? ==> LaidChild(v, es[i], room)
  }

  ghost predicate LaidChild(v: Volume, e: Entry, room: nat)
    requires ValidVolume(v) && e.Child?
    decreases e
  {
    Readable(v, e.file, room) ==> Laid(v, e.node, ClustersOf(v, e.file), room)
  }

  // ----- Paths in the tree

  /** What a path leads to; `Unreadable` when it meets a file that the source cannot load or
      goes on behind a file that is no directory. */
  datatype Target = Missing | Unreadable | Found(node: Node)

  /** The first child with a name. */
  function FindChild(v: Volume, es: seq<Entry>, name: string): (r: Option<Entry>)
    requires ValidVolume(v)
    ensures r.Some? ==> r.value in es && r.value.Child?
  {
    if es == [] then None
    else if es[0].Child? && Named(v, es[0].file, name) then Some(es[0])
    else FindChild(v, es[1..], name)
  }

  ghost function Find(v: Volume, x: Node, comps: seq<string>, room: nat): Target
    requires ValidVolume(v)
    decreases |comps|
  {
    if comps == [] then Found(x)
    else
      match x
      case Data(_) => Unreadable
      case Directory(es) =>
        match FindChild(v, es, comps[0])
        case None => Missing
        case Some(e) => if Readable(v, e.file, room) then Find(v, e.node, comps[1..], room) else Unreadable
  }

  // ----- The scan of a laid directory

  lemma {:induction false} FilesAreChildren(v: Volume, es: seq<Entry>, name: string)
    requires ValidVolume(v)
    ensures match FindChild(v, es, name)
      case None => Lookup(v, FilesOf(Items(es)), name) == None
      case Some(e) => Lookup(v, FilesOf(Items(es)), name) == Some(e.file)
  {
    if es != [] {
      assert Items(es)[1..] == Items(es[1..]);
      FilesAreChildren(v, es[1..], name);
      if es[0].Child? {
        assert FilesOf(Items(es)) == [es[0].file] + FilesOf(Items(es[1..]));
      }
    }
  }

  /** The directory in the first clusters of the buffer is well formed, and its files are
      the children. */
  lemma LaidListing(v: Volume, buffer: seq<Byte>, n: nat, es: seq<Entry>)
    requires InBuffer(v, buffer, n) && EncodableEntries(es)
    requires buffer[..n * ClusterBytes(v)] == Encode(Items(es))
    ensures WellFormed(buffer[..n * ClusterBytes(v)], n * ClusterBytes(v) / ENTRY)
    ensures Listing(v, buffer, n) == FilesOf(Items(es))
  {
    hide WellFormedFrom, Files, Encode;
    var dir := Encode(Items(es));
    assert [] + dir == dir;
    ScanReadsBack([], Items(es), 0);
  }

  /** The answer to a path holds what the tree has there. */
  ghost predicate Answers(v: Volume, x: Node, r: Option<(seq<Byte>, nat)>)
    requires x.Directory? ==> EncodableEntries(x.entries)
  {
    match r
    case None => Content(x) == []
    case Some((buffer, k)) =>
      && Content(x) <= buffer && |Content(x)| <= k * ClusterBytes(v) < |Content(x)| + ClusterBytes(v)
  }

  /** Loading a child brings its clusters to the start of the buffer. */
  lemma ChildLoads(v: Volume, buffer: seq<Byte>, e: Entry)
    requires ValidVolume(v) && e.Child? && LaidChild(v, e, |buffer|) && Readable(v, e.file, |buffer|)
    ensures Loadable(v, e.file)
    ensures var cs := ClustersOf(v, e.file);
      && |cs| == Count(v, e.file.length) && |cs| * ClusterBytes(v) <= |buffer|
      && Laid(v, e.node, cs, |buffer|)
      && FileData(v, cs) <= After(v, buffer, e.file)
  {
    var cs := ClustersOf(v, e.file);
    assert After(v, buffer, e.file)[..|FileData(v, cs)|] == FileData(v, cs);
  }

  /** One component of a path. */
  lemma ResolveStep(v: Volume, buffer: seq<Byte>, n: nat, comps: seq<string>)
    requires ValidVolume(v) && InBuffer(v, buffer, n) && comps != []
    requires WellFormed(buffer[..n * ClusterBytes(v)], n * ClusterBytes(v) / ENTRY)
    ensures match Lookup(v, Listing(v, buffer, n), comps[0])
      case None => Sound(v, buffer, n, comps) && Resolve(v, buffer, n, comps) == None
      case Some(f) =>
        var k := Count(v, f.length);
        Loadable(v, f) && |ClustersOf(v, f)| == k && k * ClusterBytes(v) <= |buffer| ==>
          && (k == 0 ==> Sound(v, buffer, n, comps) && Resolve(v, buffer, n, comps) == None)
          && (k > 0 && Sound(v, After(v, buffer, f), k, comps[1..]) ==>
              && Sound(v, buffer, n, comps)
              && Resolve(v, buffer, n, comps) == Resolve(v, After(v, buffer, f), k, comps[1..]))
  {
    hide WellFormed, Listing, Lookup, Count, FileClusters, Loadable, Overwrite;
  }

  /** On a laid tree a path that meets nothing unreadable can be read, and the answer is the
      content of what it leads to; it is missing exactly when the tree has nothing there,
      or something empty. */
  lemma {:induction false} TreeResolves(v: Volume, buffer: seq<Byte>, n: nat, x: Node, cs: seq<nat>, comps: seq<string>)
    requires ValidVolume(v) && Laid(v, x, cs, |buffer|) && |cs| == n && InBuffer(v, buffer, n)
    requires FileData(v, cs) <= buffer && Find(v, x, comps, |buffer|) != Unreadable
    ensures Sound(v, buffer, n, comps)
    ensures match Find(v, x, comps, |buffer|)
      case Missing => Resolve(v, buffer, n, comps) == None
      case Found(y) =>
        && (y.Directory? ==> EncodableEntries(y.entries))
        && Answers(v, y, Resolve(v, buffer, n, comps))
    decreases |comps|
  {
    hide WellFormed, Listing, Encode, Named, Count, Lookup, Items, Answers, Loadable, FilesOf, LaidChild;
    if comps == [] {
      HereAnswers(v, buffer, n, x, cs);
    } else {
      var es := x.entries;
      assert buffer[..n * ClusterBytes(v)] == FileData(v, cs);
      LaidListing(v, buffer, n, es);
      FilesAreChildren(v, es, comps[0]);
      ResolveStep(v, buffer, n, comps);
      if FindChild(v, es, comps[0]).Some? {
        var e := FindChild(v, es, comps[0]).value;
        ChildLoads(v, buffer, e);
        Below(v, buffer, n, e, comps);
      }
    }
  }

  /** The rest of the path, from a child. */
  lemma {:induction false} Below(v: Volume, buffer: seq<Byte>, n: nat, e: Entry, comps: seq<string>)
    requires ValidVolume(v) && e.Child? && Loadable(v, e.file) && comps != []
    requires var cs := ClustersOf(v, e.file);
      && |cs| == Count(v, e.file.length) && |cs| * ClusterBytes(v) <= |buffer|
      && Laid(v, e.node, cs, |buffer|) && FileData(v, cs) <= After(v, buffer, e.file)
    requires Find(v, e.node, comps[1..], |buffer|) != Unreadable
    ensures var k, y := Count(v, e.file.length), Find(v, e.node, comps[1..], |buffer|);
      && (k > 0 ==> Sound(v, After(v, buffer, e.file), k, comps[1..]))
      && (y.Found? && y.node.Directory? ==> EncodableEntries(y.node.entries))
      && var r := if k == 0 then None else Resolve(v, After(v, buffer, e.file), k, comps[1..]);
        if y == Missing then r == None else Answers(v, y.node, r)
    decreases |comps|, 0
  {
    hide Encode, Named, Count, Items, Loadable, Laid, EncodableEntries, Answers;
    var cs := ClustersOf(v, e.file);
    if cs == [] {
      EmptyNode(v, e.node, |buffer|, comps[1..]);
      EmptyAnswers(v, e.node);
    } else {
      TreeResolves(v, After(v, buffer, e.file), |cs|, e.node, cs, comps[1..]);
    }
  }

  lemma EmptyAnswers(v: Volume, x: Node)
    requires x.Directory? ==> EncodableEntries(x.entries)
    ensures Answers(v, x, None) <==> Content(x) == []
  {
  }

  lemma HereAnswers(v: Volume, buffer: seq<Byte>, n: nat, x: Node, cs: seq<nat>)
    requires ValidVolume(v) && Laid(v, x, cs, |buffer|) && |cs| == n && InBuffer(v, buffer, n)
    requires FileData(v, cs) <= buffer
    ensures (x.Directory? ==> EncodableEntries(x.entries)) && Answers(v, x, Some((buffer, n)))
  {
  }

  /** A node without clusters is an empty file or an empty directory. */
  lemma EmptyNode(v: Volume, x: Node, room: nat, comps: seq<string>)
    requires ValidVolume(v) && Laid(v, x, [], room) && Find(v, x, comps, room) != Unreadable
    ensures x.Directory? ==> EncodableEntries(x.entries)
    ensures Find(v, x, comps, room) == Missing || (Find(v, x, comps, room) == Found(x) && Content(x) == [])
  {
    if x.Directory? { NothingEncoded(Items(x.entries)); }
  }

  lemma NothingEncoded(items: seq<Item>)
    requires forall i :: 0 <= i < |items| ==> Encodable(items[i])
    ensures Encode(items) == [] <==> items == []
  {
    assert |Encode(items)| == ENTRY * Total(items);
  }

  /** Reading a path from a volume that holds a tree under its root: the buffer starts with
      the content of what the path leads to, and the number returned is its size rounded up
      to whole clusters; zero when there is nothing there. */
  method ReadFromTree(v: Volume, ghost root: Node, path: string, dest: array<Byte>) returns (n: nat)
    requires ValidVolume(v) && Located(v, v.root) && ClusterBytes(v) <= dest.Length < WORD
    requires root.Directory? && Laid(v, root, [v.root], dest.Length)
    requires Find(v, root, Components(path), dest.Length) != Unreadable
    modifies dest
    ensures match Find(v, root, Components(path), dest.Length)
      case Missing => n == 0
      case Found(x) =>
        && (x.Directory? ==> EncodableEntries(x.entries))
        && |Content(x)| <= n < |Content(x)| + ClusterBytes(v) && n <= dest.Length
        && Content(x) <= dest[..]
  {
    ghost var buffer := Rooted(v, dest[..]);
    RootData(v);
    TreeResolves(v, buffer, 1, root, [v.root], Components(path));
    n := ReadFile(v, path, dest);
  }

  lemma RootData(v: Volume)
    ensures FileData(v, [v.root]) == ClusterData(v, v.root)
  {
    assert [v.root][..0] == [];
  }
}
