/** Page directories, page tables and the stack of free page frames
    (arch/x86/mm/paging.c), as values: the entry formats, the invariant that ties the
    words in memory to a plain map from virtual pages to frames, and the steps of the
    allocator. */
module PageTables {
  import opened Options
  import opened Bits

  const KERNEL_BASE: nat := 0xC000_0000
  const PAGE_SIZE: nat := 0x1000
  const LARGE_PAGE: nat := 0x40_0000
  /** Physical address of the first user frame. */
  const PAGE_OFFSET: nat := 0x4000_0000
  /** Number of user frames. */
  const FRAMES: nat := 0xC_0000
  /** Entries per directory or table, and the first one of the kernel half. */
  const ENTRIES: nat := 1024
  const KERNEL_ENTRY: nat := 768

  // ----- Entries (32-bit paging, section 4.3 of the Intel SDM, Volume 3A)

  predicate Present(e: Word) { e % 2 == 1 }

  predicate Large(e: Word) { e / 128 % 2 == 1 }

  /** Present, writable, user; `addr` holds bits 31:12 of the table's physical address. */
  function TableEntry(table: nat): Word
    requires KERNEL_BASE <= table < WORD
  {
    7 + (table - KERNEL_BASE) / PAGE_SIZE * PAGE_SIZE
  }

  /** The virtual address the kernel computes from a table entry. */
  function TableAddress(e: Word): nat {
    e / PAGE_SIZE * PAGE_SIZE + KERNEL_BASE
  }

  function PageEntry(frame: nat): Word
    requires frame < FRAMES
  {
    7 + (frame * PAGE_SIZE + PAGE_OFFSET) / PAGE_SIZE * PAGE_SIZE
  }

  /** A 4 MiB supervisor page: present, writable, page size bit, optionally global. */
  function LargeEntry(low: nat, global: bool): Word
    requires low < 1024
  {
    0x83 + (if global then 0x100 else 0) + low * LARGE_PAGE
  }

  /** Kernel directory entries as `init_paging` leaves them: user addresses one GiB up,
      the kernel half at the bottom of physical memory. */
  function KernelEntry(i: nat): Word
    requires i < ENTRIES
  {
    if i < KERNEL_ENTRY then LargeEntry(i + 256, false) else LargeEntry(i - KERNEL_ENTRY, true)
  }

  function Zeros(): (r: seq<Word>)
    ensures |r| == ENTRIES && forall i :: 0 <= i < ENTRIES ==> r[i] == 0
  {
    seq(ENTRIES, _ => 0)
  }

  /** A virtual page of a directory. */
  datatype Key = Key(dir: nat, page: nat)

  /** A directory entry. */
  datatype Slot = Slot(dir: nat, index: nat)

  function SlotOf(key: Key): Slot {
    Slot(key.dir, key.page / ENTRIES)
  }

  /** Paging state. `words` holds directories and tables by virtual address; `links[f]`
      is the first word of frame `f`, and `bytes` the rest of the frames by physical
      address (zero where it has no entry). `dirs`, `tables`, `pages` and `stack` say what
      these mean: which addresses are directories, which table serves a slot, which
      frame backs a page, which frames are free (top first). */
  datatype State = State(
    kernelDir: nat,
    words: map<nat, seq<Word>>,
    links: seq<Word>,
    bytes: map<nat, Byte>,
    freelist: nat,
    dirs: set<nat>,
    tables: map<Slot, nat>,
    pages: map<Key, nat>,
    stack: seq<nat>)

  // ----- Invariant

  /** Virtual address of the frame on top of a stack, or the end mark. */
  function TopAddress(stack: seq<nat>): nat {
    if stack == [] then KERNEL_BASE else stack[0] * PAGE_SIZE
  }

  /** The intrusive stack: each free frame's first word points to the next one. */
  predicate Chain(stack: seq<nat>, links: seq<Word>) {
    && |links| == FRAMES
    && forall i :: 0 <= i < |stack| ==> stack[i] < FRAMES && links[stack[i]] == TopAddress(stack[i + 1..])
  }

  /** The word of directory `d` at index `i`. */
  function DirWord(s: State, d: nat, i: nat): Option<Word>
    requires i < ENTRIES
  {
    if i >= KERNEL_ENTRY || d == s.kernelDir then Some(KernelEntry(i))
    else if Slot(d, i) !in s.tables then Some(0)
    else
      var t := s.tables[Slot(d, i)];
      if KERNEL_BASE <= t < WORD then Some(TableEntry(t)) else None
  }

  /** The word of the table that serves slot `k`, at index `j`. */
  function TableWord(s: State, k: Slot, j: nat): Option<Word> {
    var key := Key(k.dir, k.index * ENTRIES + j);
    if key !in s.pages then Some(0)
    else if s.pages[key] < FRAMES then Some(PageEntry(s.pages[key]))
    else None
  }

  predicate DirOk(s: State, d: nat) {
    && d in s.words && |s.words[d]| == ENTRIES
    && forall i :: 0 <= i < ENTRIES ==> DirWord(s, d, i) == Some(s.words[d][i])
  }

  predicate TableOk(s: State, k: Slot)
    requires k in s.tables
  {
    var t := s.tables[k];
    && k.dir in s.dirs && k.dir != s.kernelDir && k.index < KERNEL_ENTRY
    && KERNEL_BASE <= t < WORD && t % PAGE_SIZE == 0 && t !in s.dirs
    && t in s.words && |s.words[t]| == ENTRIES
    && forall j :: 0 <= j < ENTRIES ==> TableWord(s, k, j) == Some(s.words[t][j])
  }

  predicate DirsAndTables(s: State) {
    && s.kernelDir in s.dirs
    && (forall d :: d in s.dirs ==> DirOk(s, d))
    && (forall k :: k in s.tables ==> TableOk(s, k))
    && (forall k, l :: k in s.tables && l in s.tables && s.tables[k] == s.tables[l] ==> k == l)
    && (forall k :: k in s.pages ==> SlotOf(k) in s.tables)
  }

  /** Free and mapped frames partition the user frames, and none backs two pages. */
  ghost predicate Frames(s: State) {
    && (forall i, j :: 0 <= i < j < |s.stack| ==> s.stack[i] != s.stack[j])
    && (forall k :: k in s.pages ==> s.pages[k] < FRAMES && s.pages[k] !in s.stack)
    && (forall k, l :: k in s.pages && l in s.pages && s.pages[k] == s.pages[l] ==> k == l)
    && (forall f :: 0 <= f < FRAMES ==> f in s.stack || f in s.pages.Values)
  }

  ghost predicate Inv(s: State) {
    DirsAndTables(s) && Chain(s.stack, s.links) && s.freelist == TopAddress(s.stack) && Frames(s)
  }

  // ----- The contents of frames

  function FromBytes(a: Byte, b: Byte, c: Byte, d: Byte): Word {
    a + 0x100 * b + 0x1_0000 * c + 0x100_0000 * d
  }

  /** Byte `k` of a word in memory. */
  function WordByte(w: Word, k: nat): Byte {
    if k == 0 then w % 0x100
    else if k == 1 then w / 0x100 % 0x100
    else if k == 2 then w / 0x1_0000 % 0x100
    else w / 0x100_0000
  }

  function SetWordByte(w: Word, k: nat, b: Byte): Word {
    FromBytes(if k == 0 then b else WordByte(w, 0), if k == 1 then b else WordByte(w, 1),
              if k == 2 then b else WordByte(w, 2), if k == 3 then b else WordByte(w, 3))
  }

  lemma WordBytes(a: Byte, b: Byte, c: Byte, d: Byte)
    ensures var w := FromBytes(a, b, c, d);
      WordByte(w, 0) == a && WordByte(w, 1) == b && WordByte(w, 2) == c && WordByte(w, 3) == d
  {
  }

  /** The user frame that a physical address lies in. */
  function FrameOf(p: nat): (f: nat)
    requires PAGE_OFFSET <= p < WORD
    ensures f < FRAMES
  {
    (p - PAGE_OFFSET) / PAGE_SIZE
  }

  /** The byte at a physical address of the user frames. */
  function ByteAt(s: State, p: nat): Byte
    requires PAGE_OFFSET <= p < WORD && |s.links| == FRAMES
  {
    if p % PAGE_SIZE < 4 then WordByte(s.links[FrameOf(p)], p % PAGE_SIZE)
    else if p in s.bytes then s.bytes[p] else 0
  }

  function PutByte(s: State, p: nat, b: Byte): State
    requires PAGE_OFFSET <= p < WORD && |s.links| == FRAMES
  {
    if p % PAGE_SIZE < 4 then
      var f := FrameOf(p);
      s.(links := Put(s.links, f, SetWordByte(s.links[f], p % PAGE_SIZE, b)))
    else s.(bytes := s.bytes[p := b])
  }

  lemma WordBytePut(w: Word, k: nat, b: Byte, j: nat)
    requires k < 4 && j < 4
    ensures WordByte(SetWordByte(w, k, b), j) == if j == k then b else WordByte(w, j)
  {
    WordBytes(if k == 0 then b else WordByte(w, 0), if k == 1 then b else WordByte(w, 1),
              if k == 2 then b else WordByte(w, 2), if k == 3 then b else WordByte(w, 3));
  }

  lemma ByteAtPut(s: State, p: nat, b: Byte, q: nat)
    requires PAGE_OFFSET <= p < WORD && PAGE_OFFSET <= q < WORD && |s.links| == FRAMES
    ensures ByteAt(PutByte(s, p, b), q) == if q == p then b else ByteAt(s, q)
  {
    hide SetWordByte, WordByte;
    var i, j := p % PAGE_SIZE, q % PAGE_SIZE;
    assert p == PAGE_OFFSET + FrameOf(p) * PAGE_SIZE + i && q == PAGE_OFFSET + FrameOf(q) * PAGE_SIZE + j;
    if i < 4 && j < 4 { WordBytePut(s.links[FrameOf(p)], i, b, j); }
  }

  /** The link of a frame is its first four bytes, lowest first. */
  lemma LinkBytes(s: State, f: nat)
    requires |s.links| == FRAMES && f < 0xC_0000
    ensures var p := 0x4000_0000 + 0x1000 * f;
      s.links[f] == ByteAt(s, p) + 0x100 * ByteAt(s, p + 1)
                    + 0x1_0000 * ByteAt(s, p + 2) + 0x100_0000 * ByteAt(s, p + 3)
  {
    hide WordByte, FromBytes;
    ByteInFrame(f, 0);
    ByteInFrame(f, 1);
    ByteInFrame(f, 2);
    ByteInFrame(f, 3);
    SplitWord(s.links[f]);
    assert FromBytes(WordByte(s.links[f], 0), WordByte(s.links[f], 1), WordByte(s.links[f], 2), WordByte(s.links[f], 3))
      == s.links[f];
    LowestFirst(WordByte(s.links[f], 0), WordByte(s.links[f], 1), WordByte(s.links[f], 2), WordByte(s.links[f], 3));
  }

  lemma ByteInFrame(f: nat, k: nat)
    requires f < 0xC_0000 && k < 4
    ensures FrameOf(0x4000_0000 + 0x1000 * f + k) == f && (0x4000_0000 + 0x1000 * f + k) % PAGE_SIZE == k
  {
  }

  lemma LowestFirst(a: Byte, b: Byte, c: Byte, d: Byte)
    ensures FromBytes(a, b, c, d) == a + 0x100 * b + 0x1_0000 * c + 0x100_0000 * d
  {
  }

  lemma SplitWord(w: Word)
    ensures w == FromBytes(WordByte(w, 0), WordByte(w, 1), WordByte(w, 2), WordByte(w, 3))
  {
    hide WordByte;
    var x, y := w / 0x100, w / 0x100 / 0x100;
    WordBytes(w % 0x100, x % 0x100, y % 0x100, y / 0x100);
  }

  /** Overwriting a byte of a frame that is not free disturbs nothing. */
  lemma PutByteKeepsInv(s: State, p: nat, b: Byte)
    requires Inv(s) && PAGE_OFFSET <= p < WORD && FrameOf(p) !in s.stack
    ensures Inv(PutByte(s, p, b))
  {
    var r := PutByte(s, p, b);
    forall d | d in r.dirs ensures DirOk(r, d) {
      assert DirOk(s, d);
      forall i | 0 <= i < ENTRIES ensures DirWord(r, d, i) == Some(r.words[d][i]) {
        assert DirWord(s, d, i) == Some(s.words[d][i]);
      }
    }
    forall k | k in r.tables ensures TableOk(r, k) {
      assert TableOk(s, k);
      forall j | 0 <= j < ENTRIES ensures TableWord(r, k, j) == Some(r.words[r.tables[k]][j]) {
        assert TableWord(s, k, j) == Some(s.words[s.tables[k]][j]);
      }
    }
    forall i | 0 <= i < |r.stack| ensures r.links[r.stack[i]] == TopAddress(r.stack[i + 1..]) {
      assert r.stack[i] in r.stack;
    }
  }

  // ----- Steps

  /** One word of a directory or table overwritten. */
  function Put(w: seq<Word>, i: nat, e: Word): seq<Word>
    requires i < |w|
  {
    w[i := e]
  }

  /** A fresh page of kernel memory. */
  predicate FreshPage(s: State, p: nat) {
    KERNEL_BASE <= p < WORD && p % PAGE_SIZE == 0 && p !in s.words
  }

  /** A cleared table put in an empty slot (arch/x86/mm/paging.c:79-80). */
  function AddTable(s: State, k: Slot, t: nat): State
    requires k.dir in s.words && k.index < |s.words[k.dir]| && KERNEL_BASE <= t < WORD
  {
    s.(words := s.words[t := Zeros()][k.dir := Put(s.words[k.dir], k.index, TableEntry(t))],
       tables := s.tables[k := t])
  }

  ghost predicate TableAdded(s: State, r: State, k: Slot, t: nat) {
    FreshPage(s, t) && k.dir in s.words && k.index < |s.words[k.dir]| && r == AddTable(s, k, t)
  }

  /** The top frame mapped at a page (arch/x86/mm/paging.c:90-95). */
  function MapPage(s: State, key: Key): State
    requires s.stack != [] && s.stack[0] < FRAMES && s.stack[0] < |s.links|
    requires SlotOf(key) in s.tables
    requires var t := s.tables[SlotOf(key)]; t in s.words && |s.words[t]| == ENTRIES
  {
    var t, f := s.tables[SlotOf(key)], s.stack[0];
    s.(words := s.words[t := Put(s.words[t], key.page % ENTRIES, PageEntry(f))],
       freelist := s.links[f],
       pages := s.pages[key := f],
       stack := s.stack[1..])
  }

  /** The frame of a mapped page pushed back (arch/x86/mm/paging.c:115-119). */
  function UnmapPage(s: State, key: Key): State
    requires key in s.pages && s.pages[key] < |s.links| && s.freelist < WORD
    requires SlotOf(key) in s.tables
    requires var t := s.tables[SlotOf(key)]; t in s.words && |s.words[t]| == ENTRIES
  {
    var t, f := s.tables[SlotOf(key)], s.pages[key];
    s.(words := s.words[t := Put(s.words[t], key.page % ENTRIES, 0)],
       links := Put(s.links, f, s.freelist),
       freelist := f * PAGE_SIZE,
       pages := s.pages - {key},
       stack := [f] + s.stack)
  }

  /** A cleared directory with the kernel half copied in (kernel/proc/process.c:129-133). */
  function ProcessDirectory(): (r: seq<Word>)
    ensures |r| == ENTRIES
  {
    seq(ENTRIES, i requires 0 <= i < ENTRIES => if i < KERNEL_ENTRY then 0 else KernelEntry(i))
  }

  function AddDirectory(s: State, d: nat): State {
    s.(words := s.words[d := ProcessDirectory()], dirs := s.dirs + {d})
  }

  lemma AddTableKeepsInv(s: State, k: Slot, t: nat)
    requires Inv(s) && FreshPage(s, t)
    requires k.dir in s.dirs && k.dir != s.kernelDir && k.index < KERNEL_ENTRY && k !in s.tables
    ensures DirOk(s, k.dir) && Inv(AddTable(s, k, t))
  {
    hide DirOk, TableOk, Chain;
    DirHasWords(s, k.dir);
    AddTableDirs(s, k, t);
    AddTableTables(s, k, t);
    TablesApart(s, t);
  }

  lemma TablesApart(s: State, t: nat)
    requires DirsAndTables(s) && t !in s.words
    ensures forall k :: k in s.tables ==> s.tables[k] != t
  {
    forall k | k in s.tables ensures s.tables[k] != t { assert TableOk(s, k); }
  }

  lemma AddTableDirs(s: State, k: Slot, t: nat)
    requires DirsAndTables(s) && FreshPage(s, t)
    requires k.dir in s.dirs && k.dir != s.kernelDir && k.index < KERNEL_ENTRY && k !in s.tables
    ensures DirOk(s, k.dir) && forall d :: d in s.dirs ==> DirOk(AddTable(s, k, t), d)
  {
    hide TableOk, TableEntry, KernelEntry;
    assert DirOk(s, k.dir);
    var r := AddTable(s, k, t);
    forall d | d in r.dirs ensures DirOk(r, d) {
      assert DirOk(s, d);
      forall i | 0 <= i < ENTRIES ensures DirWord(r, d, i) == Some(r.words[d][i]) {
        assert DirWord(s, d, i) == Some(s.words[d][i]);
      }
    }
  }

  lemma AddTableTables(s: State, k: Slot, t: nat)
    requires DirsAndTables(s) && FreshPage(s, t) && k.dir in s.words && |s.words[k.dir]| == ENTRIES
    requires k.dir in s.dirs && k.dir != s.kernelDir && k.index < KERNEL_ENTRY && k !in s.tables
    ensures forall l :: l in AddTable(s, k, t).tables ==> TableOk(AddTable(s, k, t), l)
  {
    hide DirOk, TableEntry, PageEntry;
    var r := AddTable(s, k, t);
    assert t !in s.dirs by { if t in s.dirs { DirHasWords(s, t); } }
    forall l | l in r.tables ensures TableOk(r, l) {
      if l == k {
        forall j | 0 <= j < ENTRIES ensures TableWord(r, k, j) == Some(0) {
          assert (k.index * ENTRIES + j) / ENTRIES == k.index;
        }
      } else {
        assert TableOk(s, l);
        forall j | 0 <= j < ENTRIES ensures TableWord(r, l, j) == Some(r.words[r.tables[l]][j]) {
          assert TableWord(s, l, j) == Some(s.words[s.tables[l]][j]);
        }
      }
    }
  }

  lemma DirHasWords(s: State, d: nat)
    requires DirsAndTables(s) && d in s.dirs
    ensures d in s.words && |s.words[d]| == ENTRIES
  {
    assert DirOk(s, d);
  }

  /** The slot and the table word of a page determine the page. */
  lemma PageSlot(k: Slot, key: Key, j: nat)
    requires j < ENTRIES
    ensures Key(k.dir, k.index * ENTRIES + j) == key <==> SlotOf(key) == k && key.page % ENTRIES == j
  {
  }

  /** Rewriting the table word of one page, and only that page's mapping, keeps
      directories and tables consistent. */
  lemma RewordKeepsTables(s: State, r: State, key: Key, e: Word)
    requires DirsAndTables(s) && SlotOf(key) in s.tables
    requires TableOk(s, SlotOf(key))
    requires var t := s.tables[SlotOf(key)]; r.words == s.words[t := Put(s.words[t], key.page % ENTRIES, e)]
    requires r.kernelDir == s.kernelDir && r.dirs == s.dirs && r.tables == s.tables
    requires forall k :: k != key ==> (k in r.pages <==> k in s.pages) && (k in r.pages ==> r.pages[k] == s.pages[k])
    requires TableWord(r, SlotOf(key), key.page % ENTRIES) == Some(e)
    ensures DirsAndTables(r)
  {
    var at := SlotOf(key);
    forall d | d in r.dirs ensures DirOk(r, d) {
      assert DirOk(s, d);
      forall i | 0 <= i < ENTRIES ensures DirWord(r, d, i) == Some(r.words[d][i]) {
        assert DirWord(s, d, i) == Some(s.words[d][i]);
      }
    }
    forall l | l in r.tables ensures TableOk(r, l) {
      assert TableOk(s, l);
      forall j | 0 <= j < ENTRIES ensures TableWord(r, l, j) == Some(r.words[r.tables[l]][j]) {
        assert TableWord(s, l, j) == Some(s.words[s.tables[l]][j]);
        PageSlot(l, key, j);
      }
    }
  }

  lemma PopChain(stack: seq<nat>, links: seq<Word>)
    requires Chain(stack, links) && stack != []
    ensures Chain(stack[1..], links) && stack[0] < FRAMES && links[stack[0]] == TopAddress(stack[1..])
  {
    assert stack[0 + 1..] == stack[1..];
    forall i | 0 <= i < |stack[1..]|
      ensures stack[1..][i] < FRAMES && links[stack[1..][i]] == TopAddress(stack[1..][i + 1..])
    {
      assert stack[1..][i] == stack[i + 1] && stack[1..][i + 1..] == stack[i + 1 + 1..];
    }
  }

  lemma PushChain(stack: seq<nat>, links: seq<Word>, f: nat)
    requires Chain(stack, links) && f < FRAMES && f !in stack && TopAddress(stack) < WORD
    ensures Chain([f] + stack, Put(links, f, TopAddress(stack)))
  {
    var st, ln := [f] + stack, Put(links, f, TopAddress(stack));
    forall i | 0 <= i < |st| ensures st[i] < FRAMES && ln[st[i]] == TopAddress(st[i + 1..]) {
      if i == 0 {
        assert st[1..] == stack;
      } else {
        assert st[i] == stack[i - 1] && st[i + 1..] == stack[i - 1 + 1..];
      }
    }
  }

  lemma MapPageKeepsInv(s: State, key: Key)
    requires Inv(s) && s.stack != [] && key !in s.pages && SlotOf(key) in s.tables
    ensures TableOk(s, SlotOf(key)) && Inv(MapPage(s, key))
  {
    var at := SlotOf(key);
    assert TableOk(s, at);
    PopChain(s.stack, s.links);
    var r := MapPage(s, key);
    PageSlot(at, key, key.page % ENTRIES);
    RewordKeepsTables(s, r, key, PageEntry(s.stack[0]));
    MapPageFrames(s, r, key);
  }

  lemma MapPageFrames(s: State, r: State, key: Key)
    requires Frames(s) && s.stack != [] && s.stack[0] < FRAMES && key !in s.pages
    requires r.stack == s.stack[1..] && r.pages == s.pages[key := s.stack[0]]
    ensures Frames(r)
  {
    assert s.stack == [s.stack[0]] + r.stack;
    forall f | 0 <= f < FRAMES ensures f in r.stack || f in r.pages.Values {
      assert key in r.pages;
      if f in s.pages.Values {
        var k :| k in s.pages && s.pages[k] == f;
        assert k in r.pages && r.pages[k] == f;
      }
    }
  }

  lemma UnmapPageKeepsInv(s: State, key: Key)
    requires Inv(s) && key in s.pages
    ensures SlotOf(key) in s.tables && TableOk(s, SlotOf(key))
    ensures s.pages[key] < FRAMES == |s.links| && s.freelist < WORD && Inv(UnmapPage(s, key))
  {
    hide DirOk, PageEntry;
    var at := SlotOf(key);
    assert TableOk(s, at);
    if s.stack != [] { PopChain(s.stack, s.links); }
    var r := UnmapPage(s, key);
    PageSlot(at, key, key.page % ENTRIES);
    RewordKeepsTables(s, r, key, 0);
    PushChain(s.stack, s.links, s.pages[key]);
    UnmapPageFrames(s, r, key);
  }

  lemma UnmapPageFrames(s: State, r: State, key: Key)
    requires Frames(s) && key in s.pages && r.stack == [s.pages[key]] + s.stack && r.pages == s.pages - {key}
    ensures Frames(r)
  {
    forall f | 0 <= f < FRAMES ensures f in r.stack || f in r.pages.Values {
      if f in s.pages.Values && f != s.pages[key] {
        var k :| k in s.pages && s.pages[k] == f;
        assert k in r.pages && r.pages[k] == f;
      }
    }
  }

  lemma AddDirectoryKeepsInv(s: State, d: nat)
    requires Inv(s) && FreshPage(s, d)
    ensures d !in s.dirs && Inv(AddDirectory(s, d))
  {
    var r := AddDirectory(s, d);
    assert d in s.dirs ==> DirOk(s, d);
    forall e | e in r.dirs ensures DirOk(r, e) {
      if e == d {
        forall i | 0 <= i < ENTRIES ensures DirWord(r, d, i) == Some(r.words[d][i]) {
          assert Slot(d, i) in s.tables ==> TableOk(s, Slot(d, i));
        }
      } else {
        assert DirOk(s, e);
        forall i | 0 <= i < ENTRIES ensures DirWord(r, e, i) == Some(r.words[e][i]) {
          assert DirWord(s, e, i) == Some(s.words[e][i]);
        }
      }
    }
    forall l | l in r.tables ensures TableOk(r, l) {
      assert TableOk(s, l);
      forall j | 0 <= j < ENTRIES ensures TableWord(r, l, j) == Some(r.words[r.tables[l]][j]) {
        assert TableWord(s, l, j) == Some(s.words[s.tables[l]][j]);
      }
    }
  }
}
