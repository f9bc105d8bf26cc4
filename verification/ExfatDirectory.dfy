/** Scanning a directory for a name (boot/x86/fs/exfat.c:81-170). */
module ExfatDirectory {
  import opened Options
  import opened Bits
  import opened ExfatVolume

  const ENTRY: nat := 32
  /** Entry type of a file directory entry (section 7.4 of the exFAT specification). */
  const FILE_ENTRY: Byte := 0x85
  /** Characters in one file name entry (section 7.7). */
  const NAME_CHARS: nat := 15
  const NAME_BUFFER: nat := 255

  /** A byte of a directory; zero beyond its end. */
  function At(dir: seq<Byte>, x: nat): nat {
    if x < |dir| then dir[x] else 0
  }

  function Secondaries(dir: seq<Byte>, i: nat): nat {
    At(dir, ENTRY * i + 1)
  }

  /** Fields of the stream extension entry behind the file entry `i` (section 7.6). */
  function NameLength(dir: seq<Byte>, i: nat): nat {
    At(dir, ENTRY * (i + 1) + 3)
  }

  function Word32(dir: seq<Byte>, x: nat): Word {
    At(dir, x) + 0x100 * At(dir, x + 1) + 0x1_0000 * At(dir, x + 2) + 0x100_0000 * At(dir, x + 3)
  }

  function FirstCluster(dir: seq<Byte>, i: nat): Word {
    Word32(dir, ENTRY * (i + 1) + 20)
  }

  function DataLength(dir: seq<Byte>, i: nat): nat {
    Word32(dir, ENTRY * (i + 1) + 24) + WORD * Word32(dir, ENTRY * (i + 1) + 28)
  }

  /** Character `k` of the name entries behind the file entry `i`. */
  function NameChar(dir: seq<Byte>, i: nat, k: nat): nat {
    var x := ENTRY * (i + 2 + k / NAME_CHARS) + 2 + 2 * (k % NAME_CHARS);
    At(dir, x) + 0x100 * At(dir, x + 1)
  }

  /** One file of a directory: its own name, and where its data is. */
  datatype FileSet = FileSet(name: seq<nat>, first: Word, length: nat)

  function SetAt(dir: seq<Byte>, i: nat): FileSet {
    FileSet(seq(NameLength(dir, i), k requires k >= 0 => NameChar(dir, i, k)), FirstCluster(dir, i), DataLength(dir, i))
  }

  /** The files of a directory from entry `i` on: each entry set is taken as a whole. */
  function Files(dir: seq<Byte>, entries: nat, i: nat): seq<FileSet>
    decreases entries - i
  {
    if i >= entries then []
    else if At(dir, ENTRY * i) != FILE_ENTRY then Files(dir, entries, i + 1)
    else [SetAt(dir, i)] + Files(dir, entries, i + Secondaries(dir, i) + 1)
  }

  /** Entry sets are whole, with 2 to 18 secondary entries (section 7.4.2), enough name
      entries for the name, and names in ASCII. */
  predicate WellFormedFrom(dir: seq<Byte>, entries: nat, i: nat)
    decreases entries - i
  {
    if i >= entries then true
    else if At(dir, ENTRY * i) != FILE_ENTRY then WellFormedFrom(dir, entries, i + 1)
    else
      var n := Secondaries(dir, i);
      && 2 <= n <= 18 && i + n < entries
      && NameLength(dir, i) <= NAME_CHARS * (n - 1)
      && (forall k :: 0 <= k < NAME_CHARS * (n - 1) ==> NameChar(dir, i, k) < 128)
      && WellFormedFrom(dir, entries, i + n + 1)
  }

  predicate WellFormed(dir: seq<Byte>, entries: nat) {
    ENTRY * entries <= |dir| && WellFormedFrom(dir, entries, 0)
  }

  /** The file's name in upper case is `name`. */
  predicate Named(v: Volume, f: FileSet, name: string)
    requires ValidVolume(v)
  {
    && |f.name| == |name|
    && forall k :: 0 <= k < |name| ==> f.name[k] < 128 && v.upcase[f.name[k]] == name[k] as int
  }

  /** The first file with a name. */
  function Lookup(v: Volume, files: seq<FileSet>, name: string): (r: Option<FileSet>)
    requires ValidVolume(v)
    ensures r.Some? ==> r.value in files && Named(v, r.value, name)
    ensures r == None ==> forall f :: f in files ==> !Named(v, f, name)
  {
    if files == [] then None
    else if Named(v, files[0], name) then Some(files[0])
    else Lookup(v, files[1..], name)
  }

  lemma LookupFirst(v: Volume, files: seq<FileSet>, name: string, i: nat)
    requires ValidVolume(v) && i < |files| && Named(v, files[i], name)
    requires forall j :: 0 <= j < i ==> !Named(v, files[j], name)
    ensures Lookup(v, files, name) == Some(files[i])
  {
    if i > 0 { LookupFirst(v, files[1..], name, i - 1); }
  }

  /** A name is compared in upper case: with a table that maps 'a' to 'A', the file "a" is
      found as "A" and not as "a". */
  lemma NamedInNumbers(v: Volume, f: FileSet)
    requires ValidVolume(v) && f.name == [97] && v.upcase[97] == 65
    ensures Named(v, f, "A") && !Named(v, f, "a") && !Named(v, f, "AA")
  {
    assert v.upcase[f.name[0]] != "a"[0] as int;
  }

  // ----- A directory byte by byte

  /** A volume label, then one file: its entry (0x85) with three more, the stream extension
      (0xC0) with the name length, the first cluster and the length, and two name entries
      (0xC1) with fifteen characters and one. */
  function SampleByte(x: nat): Byte {
    if x == 0 then 0x83
    else if x == 32 then 0x85
    else if x == 33 then 3
    else if x == 64 then 0xC0
    else if x == 67 then 16
    else if 84 <= x < 96 then x - 83
    else if x == 96 || x == 128 then 0xC1
    else if 98 <= x < 128 && x % 2 == 0 then 65 + (x - 98) / 2
    else if x == 130 then 80
    else 0
  }

  lemma DirectoryInNumbers(dir: seq<Byte>)
    requires |dir| == 160 && forall x :: 0 <= x < 160 ==> dir[x] == SampleByte(x)
    ensures WellFormed(dir, 5)
    ensures Files(dir, 5, 0) ==
      [FileSet([65, 66, 67, 68, 69, 70, 71, 72, 73, 74, 75, 76, 77, 78, 79, 80], 0x0403_0201, 0x0C0B_0A09_0807_0605)]
  {
    SampleFields(dir);
    var f := SetAt(dir, 1);
    forall k | 0 <= k < 16 ensures f.name[k] == 65 + k { SampleName(dir, k); }
    forall k | 0 <= k < 30 ensures NameChar(dir, 1, k) < 128 { SampleName(dir, k); }
    assert f.name == [65, 66, 67, 68, 69, 70, 71, 72, 73, 74, 75, 76, 77, 78, 79, 80];
    assert Files(dir, 5, 5) == [] && WellFormedFrom(dir, 5, 5);
    assert Files(dir, 5, 1) == [f] + Files(dir, 5, 5);
    assert WellFormedFrom(dir, 5, 1);
  }

  lemma SampleFields(dir: seq<Byte>)
    requires |dir| == 160 && forall x :: 0 <= x < 160 ==> dir[x] == SampleByte(x)
    ensures At(dir, 0) == 0x83 && At(dir, ENTRY) == 0x85 && Secondaries(dir, 1) == 3 && NameLength(dir, 1) == 16
    ensures FirstCluster(dir, 1) == 0x0403_0201 && DataLength(dir, 1) == 0x0C0B_0A09_0807_0605
  {
  }

  lemma SampleName(dir: seq<Byte>, k: nat)
    requires |dir| == 160 && (forall x :: 0 <= x < 160 ==> dir[x] == SampleByte(x)) && k < 30
    ensures NameChar(dir, 1, k) == if k < 16 then 65 + k else 0
  {
  }

  method CopyName(dir: array<Byte>, i: nat, count: nat, filename: array<int>)
    requires filename.Length == NAME_BUFFER && count <= 17 && ENTRY * (i + 2 + count) <= dir.Length
    modifies filename
    ensures forall k :: 0 <= k < NAME_BUFFER ==>
      filename[k] == if k < NAME_CHARS * count then NameChar(dir[..], i, k) else old(filename[k])
  {
    for j := 0 to count
      invariant forall k :: 0 <= k < NAME_BUFFER ==>
        filename[k] == if k < NAME_CHARS * j then NameChar(dir[..], i, k) else old(filename[k])
    {
      for x := 0 to NAME_CHARS
        invariant forall k :: 0 <= k < NAME_BUFFER ==>
          filename[k] == if k < NAME_CHARS * j + x then NameChar(dir[..], i, k) else old(filename[k])
      {
        var at := ENTRY * (i + j + 2) + 2 + 2 * x;
        filename[j * NAME_CHARS + x] := dir[at] as int + 0x100 * dir[at + 1] as int;
      }
    }
  }

  method ApplyUpcase(v: Volume, filename: array<int>)
    requires ValidVolume(v) && filename.Length == NAME_BUFFER
    requires forall k :: 0 <= k < NAME_BUFFER ==> 0 <= filename[k] < 128
    modifies filename
    ensures forall k :: 0 <= k < NAME_BUFFER ==> filename[k] == v.upcase[old(filename[k])]
  {
    for j := 0 to NAME_BUFFER
      invariant forall k :: 0 <= k < NAME_BUFFER ==>
        filename[k] == if k < j then v.upcase[old(filename[k])] else old(filename[k])
    {
      filename[j] := v.upcase[filename[j]];
    }
  }

  method SameName(filename: array<int>, name: string) returns (equal: bool)
    requires |name| <= filename.Length
    ensures equal <==> forall k :: 0 <= k < |name| ==> filename[k] == name[k] as int
  {
    equal := true;
    for j := 0 to |name|
      invariant equal && forall k :: 0 <= k < j ==> filename[k] == name[k] as int
    {
      if filename[j] != name[j] as int {
        equal := false;
        return;
      }
    }
  }

  /** The name test of one entry set (boot/x86/fs/exfat.c:90-120). Whatever the buffer
      holds of earlier names, the answer is about this file's own name. */
  method MatchSet(v: Volume, dir: array<Byte>, i: nat, filename: array<int>, name: string) returns (equal: bool)
    requires ValidVolume(v) && filename.Length == NAME_BUFFER
    requires forall k :: 0 <= k < NAME_BUFFER ==> 0 <= filename[k] < 128
    requires var n := Secondaries(dir[..], i);
      && 2 <= n <= 18 && ENTRY * (i + n + 1) <= dir.Length
      && NameLength(dir[..], i) <= NAME_CHARS * (n - 1)
      && forall k :: 0 <= k < NAME_CHARS * (n - 1) ==> NameChar(dir[..], i, k) < 128
    modifies filename
    ensures forall k :: 0 <= k < NAME_BUFFER ==> 0 <= filename[k] < 128
    ensures equal <==> Named(v, SetAt(dir[..], i), name)
  {
    var nameEntryCount := dir[ENTRY * i + 1] - 1;
    CopyName(dir, i, nameEntryCount, filename);
    ApplyUpcase(v, filename);
    equal := false;
    if dir[ENTRY * (i + 1) + 3] == |name| {
      equal := SameName(filename, name);
    }
  }

  /** The scan loop (boot/x86/fs/exfat.c:83-122 and 168): the first file with the name. */
  method FindFile(v: Volume, dir: array<Byte>, entries: nat, name: string) returns (r: Option<(Word, nat)>)
    requires ValidVolume(v) && WellFormed(dir[..], entries)
    ensures match Lookup(v, Files(dir[..], entries, 0), name)
      case None => r == None
      case Some(f) => r == Some((f.first, f.length))
  {
    hide SetAt, Named, NameChar, ValidVolume;
    var filename := new int[NAME_BUFFER](_ => 0);
    var i := 0;
    while i < entries
      invariant 0 <= i && WellFormedFrom(dir[..], entries, i)
      invariant forall k :: 0 <= k < NAME_BUFFER ==> 0 <= filename[k] < 128
      invariant Lookup(v, Files(dir[..], entries, i), name) == Lookup(v, Files(dir[..], entries, 0), name)
      decreases entries - i
    {
      if dir[ENTRY * i] == FILE_ENTRY {
        var equal := MatchSet(v, dir, i, filename, name);
        if equal {
          SetFields(dir[..], i);
          return Some((FirstCluster(dir[..], i), DataLength(dir[..], i)));
        }
        var nameEntryCount := dir[ENTRY * i + 1] - 1;
        i := i + nameEntryCount + 1;
      }
      i := i + 1;
    }
    r := None;
  }

  lemma SetFields(dir: seq<Byte>, i: nat)
    ensures SetAt(dir, i).first == FirstCluster(dir, i) && SetAt(dir, i).length == DataLength(dir, i)
  {
  }
}
