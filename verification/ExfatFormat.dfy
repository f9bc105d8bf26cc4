/** The on-disk form of a directory (sections 7.4, 7.6 and 7.7 of the Microsoft exFAT
    specification), and that the scan reads it back. */
module ExfatFormat {
  import opened Bits
  import opened Division
  import opened ExfatDirectory

  /** Characters in a file name entry (section 7.7.3). */
  const NAME_PART: nat := 15

  /** A directory holds the entry sets of files and single entries of other kinds. `spare`
      gives every byte of an entry set that the source never looks at, by its offset in the
      set: checksum, attributes, time stamps, flags, name hash, valid data length. */
  datatype Item = File(f: FileSet, spare: nat -> Byte) | Other(entry: seq<Byte>)

  predicate Encodable(item: Item) {
    match item
    case File(f, _) =>
      && 1 <= |f.name| <= 255 && f.length < WORD * WORD
      && forall k :: 0 <= k < |f.name| ==> f.name[k] < 128
    case Other(e) => |e| == 32 && e[0] != 0x85
  }

  /** Name entries of a file. */
  function NameEntries(f: FileSet): nat {
    (|f.name| + NAME_PART - 1) / NAME_PART
  }

  /** Entries an item takes. */
  function Size(item: Item): (n: nat)
    ensures n > 0
  {
    match item
    case File(f, _) => 2 + NameEntries(f)
    case Other(_) => 1
  }

  /** Byte `k` of a little-endian number. */
  function NumberByte(x: nat, k: nat): Byte {
    if k == 0 then x % 0x100 else NumberByte(x / 0x100, k - 1)
  }

  /** Byte `o` of entry `e` of a file's entry set: file entry, stream extension, names. */
  function SetByte(f: FileSet, spare: nat -> Byte, e: nat, o: nat): Byte
    requires Encodable(File(f, spare))
  {
    if e == 0 then
      if o == 0 then 0x85 else if o == 1 then 1 + NameEntries(f) else spare(o)
    else if e == 1 then
      if o == 0 then 0xC0
      else if o == 3 then |f.name|
      else if 20 <= o < 24 then NumberByte(f.first, o - 20)
      else if 24 <= o < 28 then NumberByte(f.length % WORD, o - 24)
      else if 28 <= o < 32 then NumberByte(f.length / WORD, o - 28)
      else spare(ENTRY + o)
    else if o == 0 then 0xC1
    else if o == 1 then spare(ENTRY * e + o)
    else
      var k := (e - 2) * NAME_PART + (o - 2) / 2;
      if k < |f.name| && o % 2 == 0 then f.name[k] else 0
  }

  function EncodeItem(item: Item): (s: seq<Byte>)
    requires Encodable(item)
    ensures |s| == ENTRY * Size(item)
  {
    match item
    case File(f, spare) => seq(ENTRY * Size(item), x requires 0 <= x => SetByte(f, spare, x / ENTRY, x % ENTRY))
    case Other(e) => e
  }

  function Total(items: seq<Item>): nat {
    if items == [] then 0 else Size(items[0]) + Total(items[1..])
  }

  function Encode(items: seq<Item>): (s: seq<Byte>)
    requires forall i :: 0 <= i < |items| ==> Encodable(items[i])
    ensures |s| == ENTRY * Total(items)
  {
    if items == [] then [] else EncodeItem(items[0]) + Encode(items[1..])
  }

  /** The files among the items. */
  function FilesOf(items: seq<Item>): seq<FileSet> {
    if items == [] then []
    else match items[0]
      case File(f, _) => [f] + FilesOf(items[1..])
      case Other(_) => FilesOf(items[1..])
  }

  lemma FourBytes(x: Word)
    ensures x == NumberByte(x, 0) + 0x100 * NumberByte(x, 1)
              + 0x1_0000 * NumberByte(x, 2) + 0x100_0000 * NumberByte(x, 3)
  {
    assert NumberByte(x, 1) == x / 0x100 % 0x100;
    assert NumberByte(x, 2) == x / 0x100 / 0x100 % 0x100;
    assert NumberByte(x, 3) == NumberByte(x / 0x100, 2) == x / 0x100 / 0x100 / 0x100 % 0x100;
  }

  /** A byte of an entry set inside a directory. */
  lemma ByteRead(pre: seq<Byte>, f: FileSet, spare: nat -> Byte, post: seq<Byte>, i: nat, e: nat, o: nat)
    requires Encodable(File(f, spare)) && |pre| == ENTRY * i && e < Size(File(f, spare)) && o < ENTRY
    ensures At(pre + EncodeItem(File(f, spare)) + post, ENTRY * (i + e) + o) == SetByte(f, spare, e, o)
  {
    hide SetByte;
    var s := EncodeItem(File(f, spare));
    DivUnique(ENTRY * e + o, ENTRY, e, o);
    assert s[ENTRY * e + o] == SetByte(f, spare, e, o);
    assert (pre + s + post)[ENTRY * (i + e) + o] == s[ENTRY * e + o];
  }

  lemma NameRead(pre: seq<Byte>, f: FileSet, spare: nat -> Byte, post: seq<Byte>, i: nat, k: nat)
    requires Encodable(File(f, spare)) && |pre| == ENTRY * i && k < NAME_CHARS * NameEntries(f)
    ensures NameChar(pre + EncodeItem(File(f, spare)) + post, i, k) == if k < |f.name| then f.name[k] else 0
  {
    hide SetByte, EncodeItem;
    var e, o := 2 + k / NAME_CHARS, 2 + 2 * (k % NAME_CHARS);
    NameBytes(f, spare, k);
    ByteRead(pre, f, spare, post, i, e, o);
    ByteRead(pre, f, spare, post, i, e, o + 1);
  }

  lemma NameBytes(f: FileSet, spare: nat -> Byte, k: nat)
    requires Encodable(File(f, spare)) && k < NAME_CHARS * NameEntries(f)
    ensures var e, o := 2 + k / NAME_CHARS, 2 + 2 * (k % NAME_CHARS);
      && e < Size(File(f, spare)) && o + 1 < ENTRY
      && SetByte(f, spare, e, o) == (if k < |f.name| then f.name[k] else 0) && SetByte(f, spare, e, o + 1) == 0
  {
    assert k / NAME_CHARS * NAME_CHARS + k % NAME_CHARS == k;
  }

  lemma WordRead(pre: seq<Byte>, f: FileSet, spare: nat -> Byte, post: seq<Byte>, i: nat, o: nat, w: Word)
    requires Encodable(File(f, spare)) && |pre| == ENTRY * i && o + 4 <= ENTRY
    requires forall k :: 0 <= k < 4 ==> SetByte(f, spare, 1, o + k) == NumberByte(w, k)
    ensures Word32(pre + EncodeItem(File(f, spare)) + post, ENTRY * (i + 1) + o) == w
  {
    hide SetByte, NumberByte, EncodeItem;
    ByteRead(pre, f, spare, post, i, 1, o);
    ByteRead(pre, f, spare, post, i, 1, o + 1);
    ByteRead(pre, f, spare, post, i, 1, o + 2);
    ByteRead(pre, f, spare, post, i, 1, o + 3);
    FourBytes(w);
  }

  lemma FieldBytes(f: FileSet, spare: nat -> Byte)
    requires Encodable(File(f, spare))
    ensures SetByte(f, spare, 0, 0) == FILE_ENTRY && SetByte(f, spare, 0, 1) == 1 + NameEntries(f)
    ensures SetByte(f, spare, 1, 3) == |f.name|
    ensures forall k :: 0 <= k < 4 ==>
      && SetByte(f, spare, 1, 20 + k) == NumberByte(f.first, k)
      && SetByte(f, spare, 1, 24 + k) == NumberByte(f.length % WORD, k)
      && SetByte(f, spare, 1, 28 + k) == NumberByte(f.length / WORD, k)
  {
    hide NumberByte;
  }

  /** The scan reads an entry set as the file it encodes. */
  lemma SetRead(pre: seq<Byte>, f: FileSet, spare: nat -> Byte, post: seq<Byte>, i: nat)
    requires Encodable(File(f, spare)) && |pre| == ENTRY * i
    ensures var dir := pre + EncodeItem(File(f, spare)) + post;
      && At(dir, ENTRY * i) == FILE_ENTRY && Secondaries(dir, i) == 1 + NameEntries(f)
      && NameLength(dir, i) == |f.name| && SetAt(dir, i) == f
  {
    hide SetByte, NumberByte, EncodeItem;
    var dir := pre + EncodeItem(File(f, spare)) + post;
    FieldBytes(f, spare);
    ByteRead(pre, f, spare, post, i, 0, 0);
    ByteRead(pre, f, spare, post, i, 0, 1);
    ByteRead(pre, f, spare, post, i, 1, 3);
    WordRead(pre, f, spare, post, i, 20, f.first);
    WordRead(pre, f, spare, post, i, 24, f.length % WORD);
    WordRead(pre, f, spare, post, i, 28, f.length / WORD);
    forall k | 0 <= k < |f.name| ensures NameChar(dir, i, k) == f.name[k] { NameRead(pre, f, spare, post, i, k); }
    assert SetAt(dir, i).name == f.name;
  }

  lemma NamesRead(pre: seq<Byte>, f: FileSet, spare: nat -> Byte, post: seq<Byte>, i: nat)
    requires Encodable(File(f, spare)) && |pre| == ENTRY * i
    ensures forall k :: 0 <= k < NAME_CHARS * NameEntries(f) ==>
      NameChar(pre + EncodeItem(File(f, spare)) + post, i, k) < 128
  {
    forall k | 0 <= k < NAME_CHARS * NameEntries(f)
      ensures NameChar(pre + EncodeItem(File(f, spare)) + post, i, k) < 128
    {
      NameRead(pre, f, spare, post, i, k);
    }
  }

  lemma OtherRead(pre: seq<Byte>, e: seq<Byte>, post: seq<Byte>, i: nat)
    requires Encodable(Other(e)) && |pre| == ENTRY * i
    ensures At(pre + EncodeItem(Other(e)) + post, ENTRY * i) != FILE_ENTRY
  {
  }

  /** A directory written in the exFAT format is well formed, and scanning it gives its
      files in order: nothing else in it is taken for a file. */
  lemma {:induction false} ScanReadsBack(pre: seq<Byte>, items: seq<Item>, i: nat)
    requires (forall k :: 0 <= k < |items| ==> Encodable(items[k])) && |pre| == ENTRY * i
    ensures var dir := pre + Encode(items);
      && WellFormedFrom(dir, |dir| / ENTRY, i) && Files(dir, |dir| / ENTRY, i) == FilesOf(items)
    decreases |items|
  {
    hide SetAt, NameChar, EncodeItem, SetByte, NameLength;
    var dir := pre + Encode(items);
    assert |dir| / ENTRY == i + Total(items);
    if items != [] {
      var first, rest := EncodeItem(items[0]), Encode(items[1..]);
      assert dir == pre + first + rest && |pre + first| == ENTRY * (i + Size(items[0]));
      ScanReadsBack(pre + first, items[1..], i + Size(items[0]));
      match items[0]
      case File(f, spare) =>
        SetRead(pre, f, spare, rest, i);
        NamesRead(pre, f, spare, rest, i);
      case Other(e) =>
        OtherRead(pre, e, rest, i);
    }
  }
}
