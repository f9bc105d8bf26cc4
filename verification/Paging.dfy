/** The paging code of arch/x86/mm/paging.c, with its tables taken from the kernel's
    buddy heap. */
module Paging {
  import opened Options
  import opened Bits
  import opened PageTables
  import opened AddressSpaces
  import opened BuddyTree
  import BuddyLaws
  import opened BuddyHeap
  import opened BuddyMemory
  import PagingRuns

  /** The kernel heap (arch/x86/mm/alloc.c:11): the header of the first block sits one
      byte below a 256 MiB boundary, so that payloads are aligned. */
  const HEAP_START: nat := KERNEL_BASE + 0x1000_0000 - 1
  const HEAP_ORDER: nat := 29
  /** Order of the block that serves a request for one page. */
  const PAGE_ORDER: nat := 13

  lemma KernelHeapSize()
    ensures Pow2(HEAP_ORDER) == 0x2000_0000
  {
    assert Pow2(9) == 0x200;
    assert Pow2(10) == 0x400;
    Pow2Add(10, 10);
    Pow2Add(20, 9);
  }

  /** A page is served by an 8 KiB block: with its header it does not fit 4 KiB. */
  lemma PageRequest()
    ensures Shiftable(PAGE_SIZE) && RequestOrder(PAGE_SIZE) == PAGE_ORDER
  {
    WordSize();
    assert Pow2(13) == 0x2000 && Pow2(12) == 0x1000;
    RoundOrderUnique(PAGE_SIZE + 1, PAGE_ORDER);
  }

  /** Payloads of the kernel heap are multiples of their block size, up to 2^28. */
  lemma KernelPayloadAligned(t: Tree, b: Block) returns (q: nat)
    requires Fits(t, HEAP_ORDER) && LiveAt(t, HEAP_ORDER, b)
    ensures HEAP_START + 1 + b.off == q * Pow2(if b.order < 28 then b.order else 28)
  {
    HeadWindow(t, HEAP_ORDER, b.off);
    var p := WindowAligned(t, HEAP_ORDER, b.off, b.order);
    KernelHeapSize();
    Pow2Step(28);
    if b.order <= 28 {
      q := HighBaseMultiple(p, b.order);
    } else {
      q := 13 + 2 * p;
    }
  }

  lemma HighBaseMultiple(p: nat, k: nat) returns (q: nat)
    requires k <= 28 && Pow2(28) == 0x1000_0000
    ensures q * Pow2(k) == 0xD000_0000 + p * Pow2(k)
  {
    hide Pow2;
    var a, m := Pow2(28 - k), Pow2(k);
    Pow2Add(28 - k, k);
    q := 13 * a + p;
    assert (13 * a + p) * m == 13 * (a * m) + p * m;
  }

  /** Start-up's two requests of four bytes (kernel/kernel.c:18-19) get the addresses
      0xD0000000 and 0xD0000008, and a first request for a page would get 0xD0000000. */
  lemma FirstAddresses()
    ensures Shiftable(4) && Shiftable(0x1000)
    ensures match AllocTree(Leaf(false), HEAP_ORDER, RequestOrder(4))
      case None => false
      case Some((t, off)) =>
        && HEAP_START + off + 1 == 0xD000_0000
        && match AllocTree(t, HEAP_ORDER, RequestOrder(4))
           case None => false
           case Some((_, more)) => HEAP_START + more + 1 == 0xD000_0008
    ensures match AllocTree(Leaf(false), HEAP_ORDER, RequestOrder(0x1000))
      case None => false
      case Some((_, off)) => HEAP_START + off + 1 == 0xD000_0000
  {
    hide AllocTree;
    ShiftableIs(4);
    PageRequest();
    assert Pow2(3) == 8;
    RequestOrderIs(4, 3);
    FirstGrants(HEAP_ORDER, 3);
    FirstGrants(HEAP_ORDER, PAGE_ORDER);
  }

  /** The heap block whose payload is the page at `p`. */
  function PageBlock(p: nat): Block
    requires p > HEAP_START
  {
    Block(p - 1 - HEAP_START, PAGE_ORDER, true)
  }

  function KernelDirectory(): (r: seq<Word>)
    ensures |r| == ENTRIES && forall i :: 0 <= i < ENTRIES ==> r[i] == KernelEntry(i)
  {
    seq(ENTRIES, i requires 0 <= i < ENTRIES => KernelEntry(i))
  }

  function InitialLinks(): (r: seq<Word>)
    ensures |r| == FRAMES && forall f :: 0 <= f < FRAMES ==> r[f] == (f + 1) * PAGE_SIZE
  {
    seq(FRAMES, f requires 0 <= f < FRAMES => (f + 1) * PAGE_SIZE)
  }

  function InitialStack(): (r: seq<nat>)
    ensures |r| == FRAMES && forall f :: 0 <= f < FRAMES ==> r[f] == f
  {
    seq(FRAMES, f requires 0 <= f < FRAMES => f)
  }

  /** Only the kernel directory exists and every user frame is free, lowest on top. */
  function InitialState(kernelDir: nat, bytes: map<nat, Byte>): State {
    State(kernelDir, map[kernelDir := KernelDirectory()], InitialLinks(), bytes, 0, {kernelDir}, map[], map[],
          InitialStack())
  }

  lemma InitialInv(kernelDir: nat, bytes: map<nat, Byte>)
    ensures Inv(InitialState(kernelDir, bytes))
  {
    var s := InitialState(kernelDir, bytes);
    forall i | 0 <= i < FRAMES ensures s.links[s.stack[i]] == TopAddress(s.stack[i + 1..]) {
      if i + 1 < FRAMES { assert s.stack[i + 1..][0] == s.stack[i + 1]; }
    }
    forall f | 0 <= f < FRAMES ensures f in s.stack { assert s.stack[f] == f; }
  }

  /** The first two pages granted after start are backed by the frames at 0x40000000 and
      0x40001000. */
  lemma FirstFrames(kernelDir: nat, bytes: map<nat, Byte>, d: nat, s1: State,
                    p: Key, t: nat, s2: State, q: Key, u: nat, s3: State, v: Word, w: Word)
    requires PagingRuns.Next(InitialState(kernelDir, bytes), PagingRuns.NewDirectory(d), s1)
    requires PagingRuns.Next(s1, PagingRuns.Map(p, t), s2) && PagingRuns.Next(s2, PagingRuns.Map(q, u), s3)
    requires p.dir == q.dir == d && v / 0x1000 == p.page && w / 0x1000 == q.page
    ensures DirOk(s3, d)
    ensures Translate(s3, d, v) == Some(0x4000_0000 + v % 0x1000)
    ensures Translate(s3, d, w) == Some(0x4000_1000 + w % 0x1000)
  {
    hide Inv, PagingRuns.Apply, Translate, DirOk, InitialState;
    StartOrder(kernelDir, bytes);
    PagingRuns.ApplyRefinesMap(InitialState(kernelDir, bytes), PagingRuns.NewDirectory(d));
    PagingRuns.ApplyRefinesMap(s1, PagingRuns.Map(p, t));
    PagingRuns.ApplyRefinesMap(s2, PagingRuns.Map(q, u));
    PagingRuns.PagesHaveDirs(s3);
    PagingRuns.AddressMap(s3, d, v);
    PagingRuns.AddressMap(s3, d, w);
  }

  lemma StartOrder(kernelDir: nat, bytes: map<nat, Byte>)
    ensures var s := InitialState(kernelDir, bytes);
      |s.stack| == 0xC_0000 && (forall i :: 0 <= i < 0xC_0000 ==> s.stack[i] == i) && s.freelist == 0
  {
  }

  /** Right after start, with one process directory: under that directory the first request
      for a page faults on the free stack. */
  lemma FaultInput(kernelDir: nat, bytes: map<nat, Byte>, d: nat)
    requires FreshPage(InitialState(kernelDir, bytes), d)
    ensures var s := AddDirectory(InitialState(kernelDir, bytes), d);
      Inv(s) && DirOk(s, d) && s.stack != [] && s.freelist < KERNEL_BASE && Translate(s, d, s.freelist) == None
  {
    hide Inv, Translate;
    var s := AddDirectory(InitialState(kernelDir, bytes), d);
    InitialInv(kernelDir, bytes);
    AddDirectoryKeepsInv(InitialState(kernelDir, bytes), d);
    UserHalf(s, d, s.freelist);
  }

  lemma PageAligned(t: Tree, p: Word)
    requires p > HEAP_START && Fits(t, HEAP_ORDER) && LiveAt(t, HEAP_ORDER, PageBlock(p))
    ensures p % PAGE_SIZE == 0 && p + 2 * PAGE_SIZE < WORD
  {
    hide Fits;
    KernelHeapSize();
    var q := KernelPayloadAligned(t, PageBlock(p));
    assert q * Pow2(PAGE_ORDER) == q * 0x2000 by { assert Pow2(13) == 0x2000; }
  }

  /** Every block in use stays in use. */
  ghost predicate HeapGrows(t: Tree, t': Tree) {
    && Fits(t, HEAP_ORDER) && Fits(t', HEAP_ORDER)
    && forall b :: LiveAt(t, HEAP_ORDER, b) ==> LiveAt(t', HEAP_ORDER, b)
  }

  /** No block in use starts at `off`. */
  ghost predicate NotInUse(t: Tree, off: nat) {
    Fits(t, HEAP_ORDER) && forall b :: LiveAt(t, HEAP_ORDER, b) ==> b.off != off
  }

  /** The heap's first block for a page is the one at `p`, and `t'` is the heap without it. */
  ghost predicate PageTaken(t: Tree, t': Tree, p: nat) {
    p > HEAP_START && Fits(t, HEAP_ORDER) && AllocTree(t, HEAP_ORDER, PAGE_ORDER) == Some((t', p - 1 - HEAP_START))
  }

  class Pager {
    const heap: Heap
    /** Address of the static kernel directory, below the heap. */
    const kernelMemory: nat
    /** Directories and tables by virtual address: one object of 1024 words for each
        page the heap handed out, and the kernel directory. */
    var words: map<nat, seq<Word>>
    /** `frames[f]` is the first word of user frame `f`, the `next` field of a free one. */
    const frames: array<Word>
    /** The other bytes of the user frames, by physical address. */
    var bytes: map<nat, Byte>
    /** `page_freelist`: virtual address of the top free frame. */
    var freelist: Word
    ghost var dirs: set<nat>
    ghost var tables: map<Slot, nat>
    ghost var pages: map<Key, nat>
    ghost var stack: seq<nat>

    ghost function Abs(): State
      reads this, frames
    {
      State(kernelMemory, words, frames[..], bytes, freelist, dirs, tables, pages, stack)
    }

    ghost predicate HeapOk()
      reads this, heap, heap.mem
    {
      && heap.start == HEAP_START && heap.order == HEAP_ORDER && heap.Valid()
      && KERNEL_BASE <= kernelMemory && kernelMemory + 4 * ENTRIES <= HEAP_START
      && forall p :: p in words && p != kernelMemory ==> p > HEAP_START && LiveAt(heap.tree, HEAP_ORDER, PageBlock(p))
    }

    ghost predicate Valid()
      reads this, heap, heap.mem, frames
    {
      HeapOk() && frames as object != heap.mem && Inv(Abs())
    }

    /** `init_paging` (arch/x86/mm/paging.c:19-46). `memory` is what `kernel_memory`
        holds before, `frames` and `bytes` what the user frames hold. */
    constructor (heap: Heap, kernelMemory: nat, frames: array<Word>, bytes: map<nat, Byte>, memory: seq<Word>)
      requires heap.start == HEAP_START && heap.order == HEAP_ORDER && heap.Valid()
      requires KERNEL_BASE <= kernelMemory && kernelMemory + 4 * ENTRIES <= HEAP_START && |memory| == ENTRIES
      requires frames.Length == FRAMES && frames as object != heap.mem
      modifies frames
      ensures Valid() && this.heap == heap && this.frames == frames
      ensures Abs() == InitialState(kernelMemory, bytes)
    {
      var dir := memory;
      for i := 0 to ENTRIES
        invariant |dir| == ENTRIES
      {
        dir := Put(dir, i, 0);
      }
      for i := 0 to KERNEL_ENTRY
        invariant |dir| == ENTRIES && forall j :: 0 <= j < i ==> dir[j] == KernelEntry(j)
      {
        dir := Put(dir, i, LargeEntry(i + ENTRIES / 4, false));
      }
      for i := 0 to ENTRIES / 4
        invariant |dir| == ENTRIES && forall j :: 0 <= j < KERNEL_ENTRY + i ==> dir[j] == KernelEntry(j)
      {
        dir := Put(dir, i + KERNEL_ENTRY, LargeEntry(i, true));
      }
      assert dir == KernelDirectory();

      var block := 0;
      while block < KERNEL_BASE
        invariant block % PAGE_SIZE == 0 && 0 <= block <= KERNEL_BASE
        invariant forall f :: 0 <= f < block / PAGE_SIZE ==> frames[f] == (f + 1) * PAGE_SIZE
      {
        frames[block / PAGE_SIZE] := block + PAGE_SIZE;
        block := block + PAGE_SIZE;
      }

      this.heap, this.kernelMemory, this.frames := heap, kernelMemory, frames;
      this.words := map[kernelMemory := dir];
      this.bytes, this.freelist := bytes, 0;
      this.dirs, this.tables, this.pages := {kernelMemory}, map[], map[];
      this.stack := InitialStack();
      new;
      assert frames[..] == InitialLinks();
      InitialInv(kernelMemory, bytes);
    }

    /** The kernel heap can serve a request for one page. */
    ghost predicate HeapHasPage()
      reads this, heap
    {
      Fits(heap.tree, HEAP_ORDER) && AllocTree(heap.tree, HEAP_ORDER, PAGE_ORDER).Some?
    }

    /** No user address of any process reaches a byte of the kernel heap, of its headers,
        of a directory or of a table. */
    lemma UserMissesKernelMemory(d: nat, v: Word, p: nat)
      requires Valid() && d in dirs && d != kernelMemory && v < KERNEL_BASE
      requires HEAP_START <= p < HEAP_START + heap.mem.Length
        || exists w :: w in words && w <= p < w + 4 * ENTRIES
      ensures DirOk(Abs(), d) && Translate(Abs(), d, v) != Some(p - KERNEL_BASE)
    {
      hide Inv, Fits, Owner, Layout, Coalesced;
      KernelHeapSize();
      if exists w :: w in words && w <= p < w + 4 * ENTRIES {
        var w :| w in words && w <= p < w + 4 * ENTRIES;
        if w != kernelMemory { PageAligned(heap.tree, w); }
      }
      UserHalf(Abs(), d, v);
    }

    /** A block of the kernel heap for anything but a directory or table. */
    method KernelAllocate(size: Word) returns (p: Word)
      requires Valid() && Shiftable(size)
      modifies heap, heap.mem
      ensures Valid() && Abs() == old(Abs()) && HeapGrows(old(heap.tree), heap.tree)
      ensures match AllocTree(old(heap.tree), HEAP_ORDER, RequestOrder(size))
        case None => p == 0 && heap.tree == old(heap.tree)
        case Some((t, off)) =>
          && heap.tree == t && p == HEAP_START + off + 1 && p !in words
          && NotInUse(old(heap.tree), off)
          && LiveAt(t, HEAP_ORDER, Block(off, RequestOrder(size), true))
    {
      hide Inv, Owner, FirstFit, Fits, RequestOrder, LiveAt, AllocTree;
      ghost var t0 := heap.tree;
      p := heap.Allocate(size);
      GrantKeepsPages(t0, RequestOrder(size));
    }

    /** A grant leaves every page block in use and is at none of their addresses. */
    lemma GrantKeepsPages(t: Tree, k: nat)
      requires Fits(t, HEAP_ORDER) && k >= MIN_ORDER
      requires forall p :: p in words && p != kernelMemory ==> p > HEAP_START && LiveAt(t, HEAP_ORDER, PageBlock(p))
      requires kernelMemory <= HEAP_START
      ensures AllocTree(t, HEAP_ORDER, k) == None ==> HeapGrows(t, t)
      ensures AllocTree(t, HEAP_ORDER, k).Some? ==> HeapGrows(t, AllocTree(t, HEAP_ORDER, k).value.0)
      ensures AllocTree(t, HEAP_ORDER, k).Some? ==> NotInUse(t, AllocTree(t, HEAP_ORDER, k).value.1)
      ensures match AllocTree(t, HEAP_ORDER, k)
        case None => true
        case Some((r, off)) => LiveAt(r, HEAP_ORDER, Block(off, k, true)) && HEAP_START + off + 1 !in words
    {
      if AllocTree(t, HEAP_ORDER, k).Some? {
        var (r, off) := AllocTree(t, HEAP_ORDER, k).value;
        BuddyLaws.AllocLive(t, HEAP_ORDER, k);
        BuddyLaws.AllocOwner(t, HEAP_ORDER, k, off);
        forall b | LiveAt(t, HEAP_ORDER, b) ensures LiveAt(r, HEAP_ORDER, b) && b.off != off {
          BuddyLaws.AllocOwner(t, HEAP_ORDER, k, b.off);
        }
      }
    }

    /** A page of the kernel heap, for a table, a directory or a stack; zero when the heap
        has none. */
    method FreshKernelPage() returns (p: Word)
      requires Valid()
      modifies heap, heap.mem
      ensures Valid() && Abs() == old(Abs()) && HeapGrows(old(heap.tree), heap.tree)
      ensures p == 0 <==> !old(HeapHasPage())
      ensures p == 0 ==> heap.tree == old(heap.tree)
      ensures p != 0 ==> PageTaken(old(heap.tree), heap.tree, p) && p + 2 * PAGE_SIZE < WORD
      ensures p != 0 ==> FreshPage(Abs(), p) && LiveAt(heap.tree, HEAP_ORDER, PageBlock(p))
    {
      hide Inv, Fits, Owner, FirstFit, LiveAt, AllocTree;
      PageRequest();
      p := KernelAllocate(PAGE_SIZE);
      if p != 0 { PageAligned(heap.tree, p); }
    }

    /** A request that `allocate_page` does not refuse. */
    ghost predicate CanMap(d: nat, addr: Word)
      reads this, heap
    {
      var key := Key(d, addr / PAGE_SIZE);
      && stack != [] && addr < KERNEL_BASE && d != kernelMemory && key !in pages
      && (SlotOf(key) in tables || HeapHasPage())
    }

    /** The table of a user slot, made and entered in the directory when there is none
        (arch/x86/mm/paging.c:70-81). Two departures from the source: a new table is
        cleared, and zero is returned when the heap has no page. */
    method TableFor(pageDir: nat, dirIndex: nat) returns (pageTable: nat)
      requires Valid() && pageDir in dirs && pageDir != kernelMemory && dirIndex < KERNEL_ENTRY
      requires pageDir in words && |words[pageDir]| == ENTRIES
      requires !(Present(words[pageDir][dirIndex]) && Large(words[pageDir][dirIndex]))
      modifies this, heap, heap.mem
      ensures Valid() && HeapGrows(old(heap.tree), heap.tree)
      ensures var slot := Slot(pageDir, dirIndex);
        if slot in old(tables) then pageTable == old(tables)[slot] && Abs() == old(Abs()) && heap.tree == old(heap.tree)
        else if !old(HeapHasPage()) then
          pageTable == 0 && Abs() == old(Abs()) && heap.tree == old(heap.tree)
        else
          && pageTable != 0 && TableAdded(old(Abs()), Abs(), slot, pageTable)
          && PageTaken(old(heap.tree), heap.tree, pageTable)
    {
      hide Fits, Owner, FirstFit, LiveAt, AllocTree, Chain, Frames, PageTaken;
      ghost var s, slot := Abs(), Slot(pageDir, dirIndex);
      EntryCases(s, pageDir, dirIndex);
      if Present(words[pageDir][dirIndex]) {
        assert TableOk(s, slot);
        pageTable := TableAddress(words[pageDir][dirIndex]);
      } else {
        pageTable := FreshKernelPage();
        if pageTable == 0 { return; }
        words := words[pageTable := Zeros()];
        words := words[pageDir := Put(words[pageDir], dirIndex, TableEntry(pageTable))];
        tables := tables[slot := pageTable];
        AddTableKeepsInv(s, slot, pageTable);
        assert Abs() == AddTable(s, slot, pageTable);
      }
    }

    // The `next` field of a free frame is read and written at the frame's virtual address,
    // through whatever directory is active.

    method ReadLink(active: nat, addr: Word) returns (w: Word)
      requires frames.Length == FRAMES && active in words && |words[active]| == ENTRIES && addr < KERNEL_BASE
      requires Walk(words, active, addr) == Some(PAGE_OFFSET + addr) && addr % PAGE_SIZE == 0
      ensures w == frames[addr / PAGE_SIZE]
    {
      var p := Walk(words, active, addr).value;
      w := frames[FrameOf(p)];
    }

    method WriteLink(active: nat, addr: Word, w: Word)
      requires frames.Length == FRAMES && active in words && |words[active]| == ENTRIES && addr < KERNEL_BASE
      requires Walk(words, active, addr) == Some(PAGE_OFFSET + addr) && addr % PAGE_SIZE == 0
      modifies frames
      ensures frames[..] == Put(old(frames[..]), addr / PAGE_SIZE, w)
    {
      var p := Walk(words, active, addr).value;
      frames[FrameOf(p)] := w;
    }

    /** The top frame popped and entered in a table (arch/x86/mm/paging.c:89-95). */
    method MapTop(ghost key: Key, pageTable: nat, tableIndex: nat, active: nat)
      requires Valid() && stack != [] && key !in pages && SlotOf(key) in tables && active == kernelMemory
      requires pageTable == tables[SlotOf(key)] && tableIndex == key.page % ENTRIES
      modifies this
      ensures Valid() && TableOk(old(Abs()), SlotOf(key)) && old(stack)[0] < FRAMES == frames.Length
      ensures Abs() == MapPage(old(Abs()), key)
    {
      hide Fits, Owner, LiveAt, DirsAndTables, Frames, Chain, Walk;
      ghost var s := Abs();
      MapPageKeepsInv(s, key);
      PopChain(stack, frames[..]);
      PagingRuns.PagesHaveDirs(s);
      FreeListReached(s, active);
      var availablePage := freelist + PAGE_OFFSET;
      freelist := ReadLink(active, freelist);
      words := words[pageTable := Put(words[pageTable], tableIndex, 7 + availablePage / PAGE_SIZE * PAGE_SIZE)];
      pages := pages[key := stack[0]];
      stack := stack[1..];
      assert Abs() == MapPage(s, key);
    }

    /** `allocate_page` (arch/x86/mm/paging.c:54-96). `active` is the directory in CR3: a
        request that is not refused pops the free stack through it (line 92), and
        `FreeListReached` says that only the kernel's leads there. */
    method AllocatePage(pageDir: nat, addr: Word, active: nat)
      requires Valid() && pageDir in dirs && (CanMap(pageDir, addr) ==> active == kernelMemory)
      modifies this, heap, heap.mem
      ensures Valid() && HeapGrows(old(heap.tree), heap.tree)
      ensures var key := Key(pageDir, addr / PAGE_SIZE);
        if old(CanMap(pageDir, addr)) then
          SlotOf(key) in tables && PagingRuns.Next(old(Abs()), PagingRuns.Map(key, tables[SlotOf(key)]), Abs())
        else Abs() == old(Abs())
      ensures var slot := SlotOf(Key(pageDir, addr / PAGE_SIZE));
        if old(CanMap(pageDir, addr)) && slot !in old(tables)
        then slot in tables && PageTaken(old(heap.tree), heap.tree, tables[slot])
        else heap.tree == old(heap.tree)
    {
      hide Fits, Owner, FirstFit, LiveAt, AllocTree, Frames, Chain, DirsAndTables, PageTaken;
      ghost var s, key := Abs(), Key(pageDir, addr / PAGE_SIZE);
      TopInRange(s);
      if freelist >= KERNEL_BASE || addr >= KERNEL_BASE {
        return;
      }
      var dirIndex := addr / LARGE_PAGE;
      var tableIndex := addr / PAGE_SIZE % ENTRIES;
      EntryCases(s, pageDir, dirIndex);
      if Present(words[pageDir][dirIndex]) && Large(words[pageDir][dirIndex]) {
        return;
      }
      var pageTable := TableFor(pageDir, dirIndex);
      if pageTable == 0 { return; }
      TableCases(Abs(), key);
      if Present(words[pageTable][tableIndex]) { return; }
      MapTop(key, pageTable, tableIndex, active);
    }

    /** Directory `d` maps page `f` to frame `f`. */
    ghost predicate MapsOnto(d: nat, f: nat)
      reads this
    {
      Key(d, f) in pages && pages[Key(d, f)] == f
    }

    /** The frame of a page pushed back and the table word erased
        (arch/x86/mm/paging.c:115-119). */
    method UnmapAt(ghost key: Key, pageTable: nat, tableIndex: nat, active: nat)
      requires Valid() && key in pages && SlotOf(key) in tables
      requires pageTable == tables[SlotOf(key)] && tableIndex == key.page % ENTRIES
      requires active in dirs && (active == kernelMemory || MapsOnto(active, pages[key]))
      modifies this, frames
      ensures Valid() && PagingRuns.Next(old(Abs()), PagingRuns.Unmap(key), Abs())
    {
      hide Fits, Owner, LiveAt, DirsAndTables, Frames, Chain, Walk, DirOk, TableWord, PageBlock, Pow2;
      ghost var s := Abs();
      UnmapPageKeepsInv(s, key);
      TableCases(s, key);
      LinkReached(s, active, pages[key]);
      var freedPage := words[pageTable][tableIndex] / PAGE_SIZE * PAGE_SIZE - PAGE_OFFSET;
      WriteLink(active, freedPage, freelist);
      freelist := freedPage;
      words := words[pageTable := Put(words[pageTable], tableIndex, 0)];
      stack := [pages[key]] + stack;
      pages := pages - {key};
      assert Abs() == UnmapPage(s, key);
    }

    /** `free_page` (arch/x86/mm/paging.c:100-122). The source turns the table's physical
        address into a virtual one with the wrong sign (line 110) and does not test for
        4 MiB pages, which its comment (line 99) promises to leave alone; the model does
        both as intended. The frame's link is written through the directory in CR3 (line
        116); `LinkReached` says which ones lead there. */
    method FreePage(pageDir: nat, addr: Word, active: nat)
      requires Valid() && pageDir in dirs && active in dirs
      requires var key := Key(pageDir, addr / PAGE_SIZE);
        key in pages ==> active == kernelMemory || MapsOnto(active, pages[key])
      modifies this, frames
      ensures Valid()
      ensures var key := Key(pageDir, addr / PAGE_SIZE);
        if key in old(pages) then PagingRuns.Next(old(Abs()), PagingRuns.Unmap(key), Abs())
        else Abs() == old(Abs())
    {
      hide Fits, Owner, LiveAt, DirsAndTables, Frames, Chain, Walk;
      ghost var s, key := Abs(), Key(pageDir, addr / PAGE_SIZE);
      var dirIndex := addr / LARGE_PAGE;
      var tableIndex := addr / PAGE_SIZE % ENTRIES;
      EntryCases(s, pageDir, dirIndex);
      PageHasSlot(s, key);
      if Present(words[pageDir][dirIndex]) {
        if Large(words[pageDir][dirIndex]) { return; }
        var pageTable := TableAddress(words[pageDir][dirIndex]);
        TableCases(s, key);
        if Present(words[pageTable][tableIndex]) {
          UnmapAt(key, pageTable, tableIndex, active);
        }
      }
    }

    /** A byte stored in user mode while directory `d` is active. A store that the directory
        does not allow faults. */
    method StoreUser(d: nat, v: Word, b: Byte) returns (stored: bool)
      requires Valid() && d in dirs
      modifies this, frames
      ensures Valid()
      ensures stored <==> v < KERNEL_BASE && d != kernelMemory && Mapped(old(Abs()), d, v).Some?
      ensures if stored then PagingRuns.Next(old(Abs()), PagingRuns.Store(d, v, b), Abs()) else Abs() == old(Abs())
    {
      hide Fits, Owner, LiveAt, DirsAndTables, Frames, Chain, UserWalk, Mapped, SetWordByte;
      ghost var s := Abs();
      UserReach(s, d, v);
      match UserWalk(words, d, v)
      case None =>
        stored := false;
      case Some(p) =>
        MappedFrame(s, d, v);
        PutByteKeepsInv(s, p, b);
        if p % PAGE_SIZE < 4 {
          frames[FrameOf(p)] := SetWordByte(frames[FrameOf(p)], p % PAGE_SIZE, b);
          assert frames[..] == Put(s.links, FrameOf(p), SetWordByte(s.links[FrameOf(p)], p % PAGE_SIZE, b));
        } else {
          bytes := bytes[p := b];
        }
        assert Abs() == PutByte(s, p, b);
        stored := true;
    }

    /** A new process directory: cleared, with the kernel half copied from the kernel's
        (kernel/proc/process.c:129-133); zero when the heap has no page. The source does
        not clear the user half. */
    method NewDirectory() returns (d: nat)
      requires Valid()
      modifies this, heap, heap.mem
      ensures Valid() && HeapGrows(old(heap.tree), heap.tree)
      ensures d == 0 <==> !old(HeapHasPage())
      ensures if d == 0 then Abs() == old(Abs()) && heap.tree == old(heap.tree)
        else
          && PagingRuns.Next(old(Abs()), PagingRuns.NewDirectory(d), Abs())
          && PageTaken(old(heap.tree), heap.tree, d)
    {
      hide Fits, Owner, LiveAt, Frames, Chain, PageTaken;
      d := FreshKernelPage();
      if d == 0 { return; }
      ghost var s := Abs();
      assert DirOk(s, kernelMemory);
      var dir := Zeros();
      for i := 0 to ENTRIES - KERNEL_ENTRY
        invariant |dir| == ENTRIES
        invariant forall j :: 0 <= j < KERNEL_ENTRY ==> dir[j] == 0
        invariant forall j :: KERNEL_ENTRY <= j < KERNEL_ENTRY + i ==> dir[j] == KernelEntry(j)
      {
        assert DirWord(s, kernelMemory, i + KERNEL_ENTRY) == Some(words[kernelMemory][i + KERNEL_ENTRY]);
        dir := Put(dir, i + KERNEL_ENTRY, words[kernelMemory][i + KERNEL_ENTRY]);
      }
      assert dir == ProcessDirectory();
      words := words[d := dir];
      dirs := dirs + {d};
      AddDirectoryKeepsInv(s, d);
      assert Abs() == AddDirectory(s, d);
    }
  }
}
