/** What the paging invariant means to the processor: address translation, isolation
    of address spaces, and conservation of frames. */
module AddressSpaces {
  import opened Options
  import opened Bits
  import opened Division
  import opened PageTables

  /** The two-level walk of 32-bit paging (section 4.3 of the Intel SDM, Volume 3A):
      the physical address of `v` under directory `d`, if any. */
  function Walk(words: map<nat, seq<Word>>, d: nat, v: Word): Option<nat>
    requires d in words && |words[d]| == ENTRIES
  {
    var pde := words[d][v / LARGE_PAGE];
    if !Present(pde) then None
    else if Large(pde) then Some(pde / LARGE_PAGE * LARGE_PAGE + v % LARGE_PAGE)
    else
      var t := TableAddress(pde);
      if t !in words || |words[t]| != ENTRIES then None
      else
        var pte := words[t][v / PAGE_SIZE % ENTRIES];
        if Present(pte) then Some(pte / PAGE_SIZE * PAGE_SIZE + v % PAGE_SIZE) else None
  }

  function Translate(s: State, d: nat, v: Word): Option<nat>
    requires d in s.words && |s.words[d]| == ENTRIES
  {
    Walk(s.words, d, v)
  }

  /** Present, writable and open to user mode. */
  predicate UserEntry(e: Word) { e % 8 == 7 }

  /** The walk for a store in user mode: both entries must be open to it (section 4.6). */
  function UserWalk(words: map<nat, seq<Word>>, d: nat, v: Word): Option<nat>
    requires d in words && |words[d]| == ENTRIES
  {
    var pde := words[d][v / LARGE_PAGE];
    if !UserEntry(pde) then None
    else if Large(pde) then Some(pde / LARGE_PAGE * LARGE_PAGE + v % LARGE_PAGE)
    else
      var t := TableAddress(pde);
      if t !in words || |words[t]| != ENTRIES then None
      else
        var pte := words[t][v / PAGE_SIZE % ENTRIES];
        if UserEntry(pte) then Some(pte / PAGE_SIZE * PAGE_SIZE + v % PAGE_SIZE) else None
  }

  /** The walk in numbers: a present entry with the size bit 0x80 maps 4 MiB, one without it
      leads to a table, whose present entry maps 4 KiB; an even entry maps nothing. */
  lemma WalkInNumbers(words: map<nat, seq<Word>>, d: nat, v: Word, m: nat)
    requires d in words && |words[d]| == 1024 && m < 0x4_0000
    ensures var e := words[d][v / 0x40_0000];
      && (e % 2 == 0 ==> Walk(words, d, v) == None)
      && (m < 0x400 && e == m * 0x40_0000 + 0x83 ==> Walk(words, d, v) == Some(m * 0x40_0000 + v % 0x40_0000))
      && (e == m * 0x1000 + 7 ==>
        var t := 0xC000_0000 + m * 0x1000;
        t in words && |words[t]| == 1024 ==>
          var p := words[t][v / 0x1000 % 1024];
          && (p % 2 == 0 ==> Walk(words, d, v) == None)
          && forall f :: 0 <= f < 0x10_0000 && p == f * 0x1000 + 7 ==>
            Walk(words, d, v) == Some(f * 0x1000 + v % 0x1000))
  {
    hide Walk;
    WalkCases(words, d, v);
    FieldsOf(m);
    LargeFields(m);
    forall f: nat ensures (f * 0x1000 + 7) % 2 == 1 && (f * 0x1000 + 7) / 0x1000 == f { FieldsOf(f); }
  }

  lemma LargeFields(m: nat)
    ensures var e := m * 0x40_0000 + 0x83; e % 2 == 1 && e / 128 % 2 == 1 && e / 0x40_0000 == m
  {
    DivUnique(m * 0x40_0000 + 0x83, 0x40_0000, m, 0x83);
    DivUnique(m * 0x40_0000 + 0x83, 128, 32768 * m + 1, 3);
    DivUnique(32768 * m + 1, 2, 16384 * m, 1);
    DivUnique(m * 0x40_0000 + 0x83, 2, 2097152 * m + 65, 1);
  }

  /** One unfolding of `Walk`. */
  lemma WalkCases(words: map<nat, seq<Word>>, d: nat, v: Word)
    requires d in words && |words[d]| == ENTRIES
    ensures var pde := words[d][v / LARGE_PAGE];
      var t := TableAddress(pde);
      && (pde % 2 == 0 ==> Walk(words, d, v) == None)
      && (pde % 2 == 1 && pde / 128 % 2 == 1 ==>
          Walk(words, d, v) == Some(pde / LARGE_PAGE * LARGE_PAGE + v % LARGE_PAGE))
      && (pde % 2 == 1 && pde / 128 % 2 == 0 && t in words && |words[t]| == ENTRIES ==>
          var pte := words[t][v / PAGE_SIZE % ENTRIES];
          && (pte % 2 == 0 ==> Walk(words, d, v) == None)
          && (pte % 2 == 1 ==> Walk(words, d, v) == Some(pte / PAGE_SIZE * PAGE_SIZE + v % PAGE_SIZE)))
  {
  }

  /** The words that the code writes, in numbers: 7 is present, writable and open to user
      mode; 0x83 is present, writable and 4 MiB, 0x100 more makes it global. */
  lemma EntryWords(t: nat, f: nat, i: nat)
    requires t < 0x4_0000 && f < 0xC_0000 && i < 1024
    ensures TableEntry(0xC000_0000 + t * 0x1000) == t * 0x1000 + 7
    ensures PageEntry(f) == 0x4000_0000 + f * 0x1000 + 7
    ensures KernelEntry(i) ==
      if i < 768 then 0x4000_0083 + i * 0x40_0000 else 0x183 + (i - 768) * 0x40_0000
  {
    assert f * 0x1000 + 0x4000_0000 == (f + 0x4_0000) * 0x1000;
    FieldsOf(t);
    FieldsOf(f + 0x4_0000);
  }

  /** The plain map the two-level tables refine. */
  function Mapped(s: State, d: nat, v: Word): Option<nat> {
    var key := Key(d, v / PAGE_SIZE);
    if key in s.pages then Some(PAGE_OFFSET + s.pages[key] * PAGE_SIZE + v % PAGE_SIZE) else None
  }

  lemma TableEntryFields(t: nat)
    requires KERNEL_BASE <= t < WORD && t % PAGE_SIZE == 0
    ensures Present(TableEntry(t)) && !Large(TableEntry(t)) && TableAddress(TableEntry(t)) == t
  {
    FieldsOf((t - KERNEL_BASE) / PAGE_SIZE);
  }

  /** Flags 7 under a 20-bit address field. */
  lemma FieldsOf(m: nat)
    ensures var e := 7 + m * PAGE_SIZE; e % 2 == 1 && e % 8 == 7 && e / 128 % 2 == 0 && e / PAGE_SIZE == m
  {
    var e := 7 + m * PAGE_SIZE;
    DivUnique(e, PAGE_SIZE, m, 7);
    DivUnique(e, 128, 32 * m, 7);
    DivUnique(32 * m, 2, 16 * m, 0);
    DivUnique(e, 2, 2048 * m + 3, 1);
    DivUnique(e, 8, 512 * m, 7);
  }

  lemma PageEntryFields(f: nat)
    requires f < FRAMES
    ensures Present(PageEntry(f)) && PageEntry(f) / PAGE_SIZE * PAGE_SIZE == PAGE_OFFSET + f * PAGE_SIZE
  {
    assert f * PAGE_SIZE + PAGE_OFFSET == (f + 0x4_0000) * PAGE_SIZE;
    FieldsOf(f + 0x4_0000);
  }

  lemma LargeEntryFields(low: nat, global: bool)
    requires low < 1024
    ensures Present(LargeEntry(low, global)) && Large(LargeEntry(low, global))
    ensures LargeEntry(low, global) / LARGE_PAGE == low
  {
  }

  /** The free list's top address is a user address exactly when some frame is free. */
  lemma TopInRange(s: State)
    requires Inv(s)
    ensures s.freelist <= KERNEL_BASE && (s.freelist < KERNEL_BASE <==> s.stack != [])
  {
    if s.stack != [] { PopChain(s.stack, s.links); }
  }

  lemma PageHasSlot(s: State, key: Key)
    requires Inv(s)
    ensures key in s.pages ==> SlotOf(key) in s.tables
  {
  }

  /** What a directory entry read by the code says about the slot. */
  lemma EntryCases(s: State, d: nat, i: nat)
    requires Inv(s) && d in s.dirs && i < ENTRIES
    ensures DirOk(s, d)
    ensures var e := s.words[d][i];
      if i >= KERNEL_ENTRY || d == s.kernelDir then Present(e) && Large(e) && Slot(d, i) !in s.tables
      else if Slot(d, i) in s.tables then Present(e) && !Large(e) && TableAddress(e) == s.tables[Slot(d, i)]
      else !Present(e)
  {
    assert DirOk(s, d) && DirWord(s, d, i) == Some(s.words[d][i]);
    assert Slot(d, i) in s.tables ==> TableOk(s, Slot(d, i));
    if i >= KERNEL_ENTRY {
      LargeEntryFields(i - KERNEL_ENTRY, true);
    } else if d == s.kernelDir {
      LargeEntryFields(i + 256, false);
    } else if Slot(d, i) in s.tables {
      TableEntryFields(s.tables[Slot(d, i)]);
    }
  }

  /** What a table entry read by the code says about the page. */
  lemma TableCases(s: State, key: Key)
    requires Inv(s) && SlotOf(key) in s.tables
    ensures TableOk(s, SlotOf(key))
    ensures var e := s.words[s.tables[SlotOf(key)]][key.page % ENTRIES];
      if key in s.pages then
        && Present(e) && s.pages[key] < FRAMES
        && e / PAGE_SIZE * PAGE_SIZE == PAGE_OFFSET + s.pages[key] * PAGE_SIZE
      else !Present(e)
  {
    var k, j := SlotOf(key), key.page % ENTRIES;
    assert TableOk(s, k) && TableWord(s, k, j) == Some(s.words[s.tables[k]][j]);
    PageSlot(k, key, j);
    if key in s.pages { PageEntryFields(s.pages[key]); }
  }

  /** Every word of a directory's kernel half, and of the kernel's whole directory, is
      present and writable, and closed to user mode. */
  lemma KernelOnly(s: State, d: nat, i: nat)
    requires Inv(s) && d in s.dirs && i < 1024 && (i >= 768 || d == s.kernelDir)
    ensures DirOk(s, d) && s.words[d][i] % 8 == 3
  {
    assert DirOk(s, d) && DirWord(s, d, i) == Some(s.words[d][i]);
    EntryWords(0, 0, i);
  }

  /** Every address space translates the kernel half alike: `v` to `v - KERNEL_BASE`. */
  lemma KernelHalf(s: State, d: nat, v: Word)
    requires Inv(s) && d in s.dirs && v >= KERNEL_BASE
    ensures DirOk(s, d) && Translate(s, d, v) == Some(v - KERNEL_BASE)
  {
    var i := v / LARGE_PAGE;
    assert DirOk(s, d) && DirWord(s, d, i) == Some(s.words[d][i]);
    LargeEntryFields(i - KERNEL_ENTRY, true);
  }

  /** The kernel directory maps user addresses linearly onto the user frames. */
  lemma KernelLinearMap(s: State, v: Word)
    requires Inv(s) && v < KERNEL_BASE
    ensures DirOk(s, s.kernelDir) && Translate(s, s.kernelDir, v) == Some(v + PAGE_OFFSET)
  {
    var i := v / LARGE_PAGE;
    assert DirOk(s, s.kernelDir) && DirWord(s, s.kernelDir, i) == Some(s.words[s.kernelDir][i]);
    LargeEntryFields(i + 256, false);
  }

  /** In a process directory the user half translates exactly as the plain map says. */
  lemma UserHalf(s: State, d: nat, v: Word)
    requires Inv(s) && d in s.dirs && d != s.kernelDir && v < KERNEL_BASE
    ensures DirOk(s, d) && Translate(s, d, v) == Mapped(s, d, v)
  {
    var key, i, j := Key(d, v / PAGE_SIZE), v / LARGE_PAGE, v / PAGE_SIZE % ENTRIES;
    var k := Slot(d, i);
    assert i == key.page / ENTRIES && i < KERNEL_ENTRY;
    assert DirOk(s, d) && DirWord(s, d, i) == Some(s.words[d][i]);
    if k in s.tables {
      assert TableOk(s, k) && TableWord(s, k, j) == Some(s.words[s.tables[k]][j]);
      TableEntryFields(s.tables[k]);
      PageSlot(k, key, j);
      if key in s.pages { PageEntryFields(s.pages[key]); }
    }
  }

  lemma TableEntryUser(t: nat)
    requires KERNEL_BASE <= t < WORD && t % PAGE_SIZE == 0
    ensures UserEntry(TableEntry(t))
  {
    FieldsOf((t - KERNEL_BASE) / PAGE_SIZE);
  }

  lemma PageEntryUser(f: nat)
    requires f < FRAMES
    ensures UserEntry(PageEntry(f))
  {
    assert f * PAGE_SIZE + PAGE_OFFSET == (f + 0x4_0000) * PAGE_SIZE;
    FieldsOf(f + 0x4_0000);
  }

  lemma UserIsPresent(e: Word)
    ensures UserEntry(e) ==> Present(e)
  {
    assert e % 8 == 7 ==> e % 2 == 1;
  }

  /** In user mode a process reaches exactly the pages it was granted: nothing in the kernel
      half, and nothing at all under the kernel's directory. */
  lemma UserReach(s: State, d: nat, v: Word)
    requires Inv(s) && d in s.dirs
    ensures DirOk(s, d)
    ensures UserWalk(s.words, d, v) == if v < KERNEL_BASE && d != s.kernelDir then Mapped(s, d, v) else None
  {
    hide UserEntry, Frames, Chain;
    var i := v / LARGE_PAGE;
    assert DirOk(s, d) && DirWord(s, d, i) == Some(s.words[d][i]);
    UserIsPresent(s.words[d][i]);
    if v >= KERNEL_BASE {
      LargeNotUser(i - KERNEL_ENTRY, true);
    } else if d == s.kernelDir {
      LargeNotUser(i + 256, false);
    } else {
      UserHalf(s, d, v);
      if Slot(d, i) in s.tables { UserTable(s, d, v); }
    }
  }

  lemma LargeNotUser(low: nat, global: bool)
    requires low < 1024
    ensures !UserEntry(LargeEntry(low, global))
  {
  }

  lemma UserTable(s: State, d: nat, v: Word)
    requires Inv(s) && d in s.dirs && d != s.kernelDir && v < KERNEL_BASE && Slot(d, v / LARGE_PAGE) in s.tables
    requires d in s.words && |s.words[d]| == ENTRIES
    ensures UserWalk(s.words, d, v) == Walk(s.words, d, v)
  {
    hide UserEntry, Frames, Chain;
    var key, k, j := Key(d, v / PAGE_SIZE), Slot(d, v / LARGE_PAGE), v / PAGE_SIZE % ENTRIES;
    assert k == SlotOf(key);
    EntryCases(s, d, v / LARGE_PAGE);
    assert TableOk(s, k) && DirWord(s, d, k.index) == Some(s.words[d][k.index]);
    TableEntryUser(s.tables[k]);
    TableCases(s, key);
    assert TableWord(s, k, j) == Some(s.words[s.tables[k]][j]);
    PageSlot(k, key, j);
    if key in s.pages { PageEntryUser(s.pages[key]); }
    UserIsPresent(s.words[s.tables[k]][j]);
  }

  // ----- Links of free frames

  /** The code reaches the link of frame `f` at the address `f * PAGE_SIZE`, through whatever
      directory is active: that is the frame exactly under the kernel's directory, or where
      the active one happens to map page `f` to frame `f`. */
  lemma LinkReached(s: State, d: nat, f: nat)
    requires Inv(s) && d in s.dirs && f < FRAMES
    ensures DirOk(s, d)
    ensures Translate(s, d, f * PAGE_SIZE) == Some(PAGE_OFFSET + f * PAGE_SIZE) <==>
      d == s.kernelDir || (Key(d, f) in s.pages && s.pages[Key(d, f)] == f)
  {
    var v := f * PAGE_SIZE;
    assert v / PAGE_SIZE == f && v % PAGE_SIZE == 0;
    if d == s.kernelDir { KernelLinearMap(s, v); } else { UserHalf(s, d, v); }
  }

  /** So the link of the top free frame is reached exactly under the kernel's directory. */
  lemma FreeListReached(s: State, d: nat)
    requires Inv(s) && d in s.dirs && s.stack != []
    ensures DirOk(s, d) && s.freelist < KERNEL_BASE
    ensures Translate(s, d, s.freelist) == Some(PAGE_OFFSET + s.stack[0] * PAGE_SIZE) <==> d == s.kernelDir
  {
    TopInRange(s);
    PopChain(s.stack, s.links);
    LinkReached(s, d, s.stack[0]);
  }

  // ----- What a process sees

  /** The byte a process finds at `v` in user mode, if it may look there. */
  function Seen(s: State, d: nat, v: Word): Option<Byte>
    requires d in s.words && |s.words[d]| == ENTRIES && |s.links| == FRAMES
  {
    match UserWalk(s.words, d, v)
    case None => None
    case Some(p) => if PAGE_OFFSET <= p < WORD then Some(ByteAt(s, p)) else None
  }

  /** The physical address of a granted page's byte is in a frame that is not free. */
  lemma MappedFrame(s: State, d: nat, v: Word)
    requires Inv(s) && Mapped(s, d, v).Some?
    ensures var p := Mapped(s, d, v).value;
      && PAGE_OFFSET <= p < WORD && FrameOf(p) == s.pages[Key(d, v / PAGE_SIZE)] && FrameOf(p) !in s.stack
      && p % PAGE_SIZE == v % PAGE_SIZE
    ensures |s.links| == FRAMES
  {
    hide DirsAndTables;
    var f, o := s.pages[Key(d, v / PAGE_SIZE)], v % PAGE_SIZE;
    DivUnique(f * PAGE_SIZE + o, PAGE_SIZE, f, o);
    DivUnique(PAGE_OFFSET + f * PAGE_SIZE + o, PAGE_SIZE, 0x4_0000 + f, o);
  }

  /** What a process sees is the contents of the frame that the plain map names. */
  lemma SeenIs(s: State, d: nat, v: Word)
    requires Inv(s) && d in s.dirs
    ensures DirOk(s, d) && |s.links| == FRAMES
    ensures if v < KERNEL_BASE && d != s.kernelDir && Mapped(s, d, v).Some?
      then
        && PAGE_OFFSET <= Mapped(s, d, v).value < WORD
        && Seen(s, d, v) == Some(ByteAt(s, Mapped(s, d, v).value))
      else Seen(s, d, v) == None
  {
    hide ByteAt, Mapped, UserWalk, DirsAndTables, Frames;
    UserReach(s, d, v);
    if Mapped(s, d, v).Some? { MappedFrame(s, d, v); }
  }

  /** A write through a user mapping lands in the frame that backs the page: at or above
      `PAGE_OFFSET`, so never in a directory, a table or a heap header, and never in a
      free frame, so never on a link of the free stack. */
  lemma UserWritesStayInFrames(s: State, d: nat, v: Word)
    requires Inv(s) && d in s.dirs && d != s.kernelDir && v < KERNEL_BASE
    requires DirOk(s, d) && Translate(s, d, v).Some?
    ensures var p := Translate(s, d, v).value;
      && PAGE_OFFSET <= p < WORD
      && (p - PAGE_OFFSET) / PAGE_SIZE !in s.stack
  {
    UserHalf(s, d, v);
  }

  /** No physical byte is visible at two user addresses, of one or of two processes. */
  lemma NoSharing(s: State, d: nat, v: Word, e: nat, w: Word)
    requires Inv(s) && d in s.dirs && e in s.dirs && d != s.kernelDir && e != s.kernelDir
    requires v < KERNEL_BASE && w < KERNEL_BASE
    requires DirOk(s, d) && DirOk(s, e) && Translate(s, d, v).Some? && Translate(s, d, v) == Translate(s, e, w)
    ensures d == e && v == w
  {
    UserHalf(s, d, v);
    UserHalf(s, e, w);
    var k, l := Key(d, v / PAGE_SIZE), Key(e, w / PAGE_SIZE);
    assert s.pages[k] * PAGE_SIZE + v % PAGE_SIZE == s.pages[l] * PAGE_SIZE + w % PAGE_SIZE;
    assert s.pages[k] == s.pages[l];
  }

  // ----- Round trips

  /** Mapping a page whose table exists and freeing it again restores everything: the
      table word, the free stack, its links and its top. */
  lemma MapThenUnmap(s: State, key: Key)
    requires Inv(s) && s.stack != [] && key !in s.pages && SlotOf(key) in s.tables
    ensures TableOk(s, SlotOf(key)) && s.stack[0] < FRAMES == |s.links|
    ensures Inv(MapPage(s, key)) && UnmapPage(MapPage(s, key), key) == s
  {
    hide DirOk, Frames, TableEntry;
    var at, j := SlotOf(key), key.page % ENTRIES;
    MapPageKeepsInv(s, key);
    PopChain(s.stack, s.links);
    PageSlot(at, key, j);
    assert TableOk(s, at) && TableWord(s, at, j) == Some(s.words[s.tables[at]][j]);
    MapUnmapValues(s, key);
  }

  lemma MapUnmapValues(s: State, key: Key)
    requires s.stack != [] && s.stack[0] < FRAMES == |s.links| && s.freelist == s.stack[0] * PAGE_SIZE
    requires key !in s.pages && SlotOf(key) in s.tables
    requires var t := s.tables[SlotOf(key)];
      t in s.words && |s.words[t]| == ENTRIES && s.words[t][key.page % ENTRIES] == 0
    ensures UnmapPage(MapPage(s, key), key) == s
  {
    var t := s.tables[SlotOf(key)];
    var q := UnmapPage(MapPage(s, key), key);
    assert q.words[t] == s.words[t];
    assert q.words == s.words;
    assert q.links == s.links;
    assert q.pages == s.pages;
    assert q.stack == s.stack;
  }

  /** Freeing a page and mapping it again gives the same frame back. */
  lemma UnmapThenMap(s: State, key: Key)
    requires Inv(s) && key in s.pages
    ensures SlotOf(key) in s.tables && TableOk(s, SlotOf(key))
    ensures s.pages[key] < FRAMES == |s.links| && s.freelist < WORD && Inv(UnmapPage(s, key))
    ensures var r := UnmapPage(s, key);
      MapPage(r, key) == s.(links := r.links)
  {
    var at, j := SlotOf(key), key.page % ENTRIES;
    hide DirOk, Frames, TableEntry;
    UnmapPageKeepsInv(s, key);
    PageSlot(at, key, j);
    assert TableOk(s, at) && TableWord(s, at, j) == Some(s.words[s.tables[at]][j]);
    UnmapMapValues(s, key);
  }

  lemma UnmapMapValues(s: State, key: Key)
    requires key in s.pages && s.pages[key] < FRAMES == |s.links| && s.freelist < WORD && SlotOf(key) in s.tables
    requires var t := s.tables[SlotOf(key)];
      t in s.words && |s.words[t]| == ENTRIES && s.words[t][key.page % ENTRIES] == PageEntry(s.pages[key])
    ensures MapPage(UnmapPage(s, key), key) == s.(links := UnmapPage(s, key).links)
  {
    var t := s.tables[SlotOf(key)];
    var q := MapPage(UnmapPage(s, key), key);
    assert q.words[t] == s.words[t];
    assert q.words == s.words;
    assert q.pages == s.pages;
    assert q.stack == s.stack;
  }

  // ----- Conservation

  lemma {:induction false} SeqAsSet(st: seq<nat>) returns (r: set<nat>)
    requires forall i, j :: 0 <= i < j < |st| ==> st[i] != st[j]
    ensures |r| == |st| && forall f :: f in r <==> f in st
  {
    if st == [] {
      r := {};
    } else {
      var q := SeqAsSet(st[1..]);
      r := q + {st[0]};
      assert st == [st[0]] + st[1..];
    }
  }

  /** The first `n` frames. */
  function Range(n: nat): (r: set<nat>)
    ensures |r| == n && forall f :: f in r <==> 0 <= f < n
  {
    if n == 0 then {} else Range(n - 1) + {n - 1}
  }

  lemma {:induction false} InjectiveValues(m: map<Key, nat>)
    requires forall k, l :: k in m && l in m && m[k] == m[l] ==> k == l
    ensures |m.Values| == |m|
    decreases |m|
  {
    if m != map[] {
      var k :| k in m;
      var n := m - {k};
      assert n.Keys == m.Keys - {k};
      InjectiveValues(n);
      forall v ensures v in m.Values <==> v in n.Values + {m[k]} {
        if v in m.Values {
          var l :| l in m && m[l] == v;
          assert l == k || (l in n && n[l] == v);
        }
        if v in n.Values {
          var l :| l in n && n[l] == v;
          assert l in m && m[l] == v;
        }
      }
      assert m.Values == n.Values + {m[k]};
      assert m[k] !in n.Values;
    }
  }

  /** Free frames and mapped pages always add up to all the user frames. */
  lemma FramesConserved(s: State)
    requires Inv(s)
    ensures |s.stack| + |s.pages| == FRAMES
    ensures forall f :: 0 <= f < FRAMES ==> (f in s.stack) != (f in s.pages.Values)
  {
    var free := SeqAsSet(s.stack);
    InjectiveValues(s.pages);
    assert forall i :: 0 <= i < |s.stack| ==> s.stack[i] < FRAMES;
    Partition(s, free);
  }

  lemma Partition(s: State, free: set<nat>)
    requires Frames(s) && forall f :: f in free <==> f in s.stack
    requires forall i :: 0 <= i < |s.stack| ==> s.stack[i] < FRAMES
    ensures |free| + |s.pages.Values| == FRAMES
    ensures forall f :: 0 <= f < FRAMES ==> (f in s.stack) != (f in s.pages.Values)
  {
    var used := s.pages.Values;
    forall f | f in used ensures f < FRAMES && f !in free {
      var k :| k in s.pages && s.pages[k] == f;
    }
    assert free !! used;
    assert free + used == Range(FRAMES);
  }
}
