/** What the kernel's processes hold: a descriptor, a kernel stack and a page directory
    each, all taken from the kernel heap; and how that survives every operation. */
module KernelState {
  import opened Options
  import opened Bits
  import opened BuddyTree
  import BuddyLaws
  import BuddyRuns
  import opened BuddyHeap
  import opened PageTables
  import opened AddressSpaces
  import opened Paging
  import PagingRuns
  import opened Context
  import opened Ring
  import Timer

  /** `sizeof(process_desc)` (kernel/proc/process.h:22-31), and the order of its block. */
  const DESCRIPTOR_SIZE: nat := 85
  const DESCRIPTOR_ORDER: nat := 7
  /** Offset of the first word pushed in a kernel stack (kernel/proc/process.c:127). */
  const STACK_TOP: nat := 4092

  lemma DescriptorRequest()
    ensures Shiftable(DESCRIPTOR_SIZE) && RequestOrder(DESCRIPTOR_SIZE) == DESCRIPTOR_ORDER
    ensures DESCRIPTOR_SIZE == 20 + 32 + 16 + 4 + 4 + 4 + 4 + 1 && DESCRIPTOR_ORDER == 7
  {
    WordSize();
    assert Pow2(7) == 0x80 && Pow2(6) == 0x40;
    RoundOrderUnique(DESCRIPTOR_SIZE + 1, DESCRIPTOR_ORDER);
  }

  /** A process as `create_process` sets it up: user segments, interrupts enabled, the
      stack at the top of the user half (kernel/proc/process.c:96-127). */
  function NewProcess(addr: nat, eip: Word, esp0: Word, directory: nat): Desc {
    Desc(addr, Frame(eip, 0x1B, 0x200, KERNEL_BASE - 4, 0x23), General(0, 0, KERNEL_BASE - 4, 0, 0, 0, 0, 0),
         Segments(0x23, 0x23, 0x23, 0x23), esp0, directory, Running)
  }

  /** The two pages a new process gets. */
  function StackPage(d: nat): Key { Key(d, KERNEL_BASE / PAGE_SIZE - 1) }

  function FirstPage(d: nat): Key { Key(d, 0) }

  /** Loaded for the first time, a new process starts at its entry point in user mode with
      interrupts enabled, every register as the source sets it; its stack pointer and its
      instruction pointer, when that is in the first page, translate exactly when their pages
      were granted. */
  lemma FirstRun(m: Machine, s: State, addr: nat, eip: Word, esp0: Word, directory: nat)
    requires Timer.Loaded(m, NewProcess(addr, eip, esp0, directory))
    requires Inv(s) && directory in s.dirs && directory != s.kernelDir
    ensures m.eip == eip && m.cs == 0x18 + 3 && m.ss == 0x20 + 3 && m.eflags == 0x200
    ensures m.ds == m.es == m.fs == m.gs == 0x20 + 3 && m.esp == 0xBFFF_FFFC == m.ebp
    ensures m.edi == m.esi == m.ebx == m.edx == m.ecx == m.eax == 0
    ensures m.cr3 == directory - KERNEL_BASE && m.tss == esp0 && DirOk(s, directory)
    ensures Translate(s, directory, m.esp).Some? <==> StackPage(directory) in s.pages
    ensures eip < PAGE_SIZE ==> (Translate(s, directory, m.eip).Some? <==> FirstPage(directory) in s.pages)
  {
    hide Inv, Translate, DirWord;
    assert m.Running() == Thread(m.Running().seg, m.Running().gen, NewProcess(addr, eip, esp0, directory).frame);
    UserHalf(s, directory, m.esp);
    if eip < PAGE_SIZE { UserHalf(s, directory, m.eip); }
  }

  /** The code of a new process is a jump to itself: opcode 0xE9 with the distance -5 from
      its end. */
  lemma CodeIsLoop(s: State, d: nat)
    requires HasCode(s, d)
    ensures DirOk(s, d) && |s.links| == FRAMES && Seen(s, d, 0) == Some(0xE9)
    ensures Seen(s, d, 1).Some? && Seen(s, d, 2).Some? && Seen(s, d, 3).Some? && Seen(s, d, 4).Some?
    ensures var distance := Seen(s, d, 1).value + 0x100 * Seen(s, d, 2).value
                            + 0x1_0000 * Seen(s, d, 3).value + 0x100_0000 * Seen(s, d, 4).value;
      (0 + 5 + distance) % 0x1_0000_0000 == 0
  {
    hide DirWord, Seen;
    assert Seen(s, d, 0) == Some(CODE[0]) && Seen(s, d, 1) == Some(CODE[1]) && Seen(s, d, 2) == Some(CODE[2]);
    assert Seen(s, d, 3) == Some(CODE[3]) && Seen(s, d, 4) == Some(CODE[4]);
  }

  /** Every kernel stack starts four bytes below the end of its page. */
  lemma StackTopIs(ds: seq<Desc>, t: Tree, s: State, d: Desc)
    requires Fits(t, HEAP_ORDER) && ProcessesOk(ds, t, s) && d in ds
    ensures d.esp0 % 0x1000 == 0xFFC
  {
    hide LiveAt, Fits;
    assert ProcessOk(d, t, s);
    PageAligned(t, d.esp0 - STACK_TOP);
  }

  // ----- What a process holds

  ghost predicate ProcessOk(d: Desc, t: Tree, s: State)
    requires Fits(t, HEAP_ORDER)
  {
    && d.addr > HEAP_START && LiveAt(t, HEAP_ORDER, Block(d.addr - 1 - HEAP_START, DESCRIPTOR_ORDER, true))
    && d.directory in s.dirs && d.directory != s.kernelDir && KERNEL_BASE <= d.directory < WORD
    && d.esp0 > HEAP_START + STACK_TOP && d.esp0 + 0x1000 < WORD
    && d.esp0 - STACK_TOP !in s.words && LiveAt(t, HEAP_ORDER, PageBlock(d.esp0 - STACK_TOP))
    && d.gen.esp == 0 && UserMode(d.frame.cs)
  }

  /** Every descriptor is a block in use and describes a user process, with a page
      directory and a kernel stack of its own. */
  ghost predicate ProcessesOk(ds: seq<Desc>, t: Tree, s: State)
    requires Fits(t, HEAP_ORDER)
  {
    && (forall d :: d in ds ==> ProcessOk(d, t, s))
    && (forall d, e :: d in ds && e in ds && d.addr != e.addr ==> d.directory != e.directory && d.esp0 != e.esp0)
  }

  /** Kernel memory only grows: blocks in use stay in use, directories stay, and new
      directories and tables are at addresses that were not in use. */
  ghost predicate Grows(t: Tree, s: State, t': Tree, s': State) {
    && HeapGrows(t, t') && s.dirs <= s'.dirs && s'.kernelDir == s.kernelDir
    && forall p :: p in s'.words && p !in s.words ==> p > HEAP_START && NotInUse(t, p - 1 - HEAP_START)
  }

  lemma GrowsTrans(t: Tree, s: State, t1: Tree, s1: State, t2: Tree, s2: State)
    requires Grows(t, s, t1, s1) && Grows(t1, s1, t2, s2)
    ensures Grows(t, s, t2, s2)
  {
    hide LiveAt, Fits;
    forall p | p in s2.words && p !in s.words ensures p > HEAP_START && NotInUse(t, p - 1 - HEAP_START) {
      if p !in s1.words { assert NotInUse(t1, p - 1 - HEAP_START); }
    }
  }

  lemma ProcessesGrow(ds: seq<Desc>, t: Tree, s: State, t': Tree, s': State)
    requires Fits(t, HEAP_ORDER) && ProcessesOk(ds, t, s) && Grows(t, s, t', s')
    ensures Fits(t', HEAP_ORDER) && ProcessesOk(ds, t', s')
  {
    hide LiveAt;
    forall d | d in ds ensures ProcessOk(d, t', s') {
      assert ProcessOk(d, t, s);
      assert PageBlock(d.esp0 - STACK_TOP).off == d.esp0 - STACK_TOP - 1 - HEAP_START;
    }
  }

  /** One process less or more saved than before. */
  lemma SavedOk(ds: seq<Desc>, es: seq<Desc>, r: Interrupted, t: Tree, s: State)
    requires Fits(t, HEAP_ORDER) && ProcessesOk(ds, t, s) && ds != [] && UserMode(r.frame.cs)
    requires forall d :: d in es ==> d in ds || d == Save(ds[0], r)
    ensures ProcessesOk(es, t, s)
  {
    hide LiveAt;
    assert ds[0] in ds;
    forall d | d in es ensures ProcessOk(d, t, s) { assert ProcessOk(if d in ds then d else ds[0], t, s); }
  }

  /** A timer interrupt of a user thread keeps what the processes hold, and so does one
      whose skip loop never ends. */
  lemma SwitchOk(ds: seq<Desc>, r: Interrupted, t: Tree, s: State)
    requires Fits(t, HEAP_ORDER) && ProcessesOk(ds, t, s) && UserMode(r.frame.cs)
    ensures ds != [] ==> ProcessesOk(Candidates(ds, r), t, s)
    ensures Legal(ds, Tick(r)) ==> ProcessesOk(Step(ds, Tick(r)), t, s)
  {
    hide ProcessesOk;
    if ds != [] {
      forall d | d in Candidates(ds, r) ensures d in ds || d == Save(ds[0], r) { CandidatesFrom(ds, r, d); }
      SavedOk(ds, Candidates(ds, r), r, t, s);
      if |ds| >= 2 && Legal(ds, Tick(r)) {
        forall d | d in Step(ds, Tick(r)) ensures d in ds || d == Save(ds[0], r) { SwitchFrom(ds, r, d); }
        SavedOk(ds, Step(ds, Tick(r)), r, t, s);
      }
    }
  }

  lemma UpdateOk(ds: seq<Desc>, st: ProcessState, t: Tree, s: State)
    requires Fits(t, HEAP_ORDER) && ProcessesOk(ds, t, s) && ds != []
    ensures ProcessesOk(Step(ds, Update(st)), t, s)
  {
    hide LiveAt;
    var es := Step(ds, Update(st));
    assert ds[0] in ds;
    forall d | d in es ensures d in ds || d == ds[0].(state := st) {
      var i :| 0 <= i < |es| && es[i] == d;
      assert i > 0 ==> ds[i] == d;
    }
    forall d | d in es ensures ProcessOk(d, t, s) { assert ProcessOk(if d in ds then d else ds[0], t, s); }
  }

  // ----- Kernel stacks

  /** Bytes of a kernel stack. */
  predicate InStack(d: Desc, x: int) {
    d.esp0 - STACK_TOP <= x < d.esp0 + 4
  }

  /** Of the kernel's stack memory, only words in the stack of `d` change. */
  ghost predicate StackOnly(d: Desc, m: Memory, m': Memory) {
    forall x: nat :: !InStack(d, x) ==> Load(m', x) == Load(m, x)
  }

  lemma SameStacks(d: Desc, m: Memory)
    ensures StackOnly(d, m, m)
  {
  }

  /** The kernel stacks of two processes share no byte. */
  lemma StacksApart(ds: seq<Desc>, t: Tree, s: State, d: Desc, e: Desc, x: int)
    requires Fits(t, HEAP_ORDER) && ProcessesOk(ds, t, s) && d in ds && e in ds && e.addr != d.addr
    ensures !(InStack(d, x) && InStack(e, x))
  {
    hide LiveAt, Fits;
    assert ProcessOk(d, t, s) && ProcessOk(e, t, s);
    if InStack(d, x) && InStack(e, x) { SharedPage(t, d.esp0 - STACK_TOP, e.esp0 - STACK_TOP, x); }
  }

  /** A kernel stack holds no block's header and no byte of a descriptor. */
  lemma StackHasNoBlock(ds: seq<Desc>, t: Tree, s: State, d: Desc, e: Desc, x: int)
    requires Fits(t, HEAP_ORDER) && ProcessesOk(ds, t, s) && d in ds && e in ds && InStack(d, x)
    ensures HEAP_START <= x && !IsHead(t, HEAP_ORDER, x - HEAP_START)
    ensures !(e.addr <= x < e.addr + DESCRIPTOR_SIZE)
  {
    hide LiveAt, Fits, IsHead;
    assert ProcessOk(d, t, s) && ProcessOk(e, t, s);
    assert Pow2(PAGE_ORDER) == 0x2000 && Pow2(DESCRIPTOR_ORDER) == 0x80;
    BuddyRuns.PayloadsApart(t, HEAP_ORDER, PageBlock(d.esp0 - STACK_TOP),
                            Block(e.addr - 1 - HEAP_START, DESCRIPTOR_ORDER, true), x - HEAP_START);
  }

  /** A kernel stack shares no byte with a directory or a table. */
  lemma StackApart(ds: seq<Desc>, t: Tree, s: State, d: Desc, x: int)
    requires Fits(t, HEAP_ORDER) && ProcessesOk(ds, t, s) && d in ds && InStack(d, x)
    requires forall p :: p in s.words && p != s.kernelDir ==> p > HEAP_START && LiveAt(t, HEAP_ORDER, PageBlock(p))
    requires s.kernelDir + 4 * ENTRIES <= HEAP_START
    ensures forall p :: p in s.words ==> !(p <= x < p + 4 * ENTRIES)
  {
    hide LiveAt, Fits;
    assert ProcessOk(d, t, s);
    forall p | p in s.words && p <= x < p + 4 * ENTRIES ensures false {
      if p != s.kernelDir { SharedPage(t, d.esp0 - STACK_TOP, p, x); }
    }
  }

  /** Two pages of the heap that share a byte are the same. */
  lemma SharedPage(t: Tree, p: nat, q: nat, x: int)
    requires Fits(t, HEAP_ORDER) && p > HEAP_START && q > HEAP_START
    requires LiveAt(t, HEAP_ORDER, PageBlock(p)) && LiveAt(t, HEAP_ORDER, PageBlock(q))
    requires p <= x < p + PAGE_SIZE && q <= x < q + PAGE_SIZE
    ensures p == q
  {
    hide LiveAt, Fits;
    assert Pow2(PAGE_ORDER) == 0x2000;
    BuddyRuns.PayloadsApart(t, HEAP_ORDER, PageBlock(p), PageBlock(q), x - HEAP_START);
  }

  // ----- What is left of the heap

  /** `n` pages can be taken from the heap one after another. */
  ghost predicate HasPages(t: Tree, n: nat)
    requires Fits(t, HEAP_ORDER)
    decreases n
  {
    n == 0 || match AllocTree(t, HEAP_ORDER, PAGE_ORDER) case None => false case Some((r, _)) => HasPages(r, n - 1)
  }

  /** A descriptor and then `n` pages can be taken. */
  ghost predicate HasProcess(t: Tree, n: nat)
    requires Fits(t, HEAP_ORDER)
  {
    match AllocTree(t, HEAP_ORDER, DESCRIPTOR_ORDER) case None => false case Some((r, _)) => HasPages(r, n)
  }

  lemma SomePages(t: Tree)
    requires Fits(t, HEAP_ORDER)
    ensures HasPages(t, 1) <==> AllocTree(t, HEAP_ORDER, PAGE_ORDER).Some?
    ensures HasPages(t, 2) ==> HasPages(t, 1)
  {
  }

  lemma ProcessPages(t: Tree)
    requires Fits(t, HEAP_ORDER)
    ensures HasProcess(t, 4) ==> HasProcess(t, 3)
    ensures HasProcess(t, 3) ==> HasProcess(t, 2)
  {
    hide AllocTree, Fits;
    if HasProcess(t, 4) { MorePages(AllocTree(t, HEAP_ORDER, DESCRIPTOR_ORDER).value.0, 3); }
    if HasProcess(t, 3) { MorePages(AllocTree(t, HEAP_ORDER, DESCRIPTOR_ORDER).value.0, 2); }
  }

  lemma {:induction false} MorePages(t: Tree, n: nat)
    requires Fits(t, HEAP_ORDER) && HasPages(t, n + 1)
    ensures HasPages(t, n)
    decreases n
  {
    hide AllocTree, Fits;
    if n > 0 {
      var (r, _) := AllocTree(t, HEAP_ORDER, PAGE_ORDER).value;
      MorePages(r, n - 1);
    }
  }

  lemma TakenPages(t: Tree, t': Tree, p: nat, n: nat)
    requires PageTaken(t, t', p) && n > 0
    ensures Fits(t', HEAP_ORDER) && (HasPages(t, n) <==> HasPages(t', n - 1))
  {
  }

  // ----- Enough heap for more

  /** At most `j` times the largest free block was halved. */
  ghost predicate Shrinks(t: Tree, t': Tree, j: nat) {
    && Fits(t, HEAP_ORDER) && Fits(t', HEAP_ORDER)
    && forall m :: m > PAGE_ORDER + j && BuddyLaws.LargeFree(t, HEAP_ORDER, m) ==>
        BuddyLaws.LargeFree(t', HEAP_ORDER, m - j)
  }

  lemma ShrinksTaken(t: Tree, t': Tree, p: nat)
    requires PageTaken(t, t', p)
    ensures Shrinks(t, t', 1)
  {
    hide Fits, AllocTree, BuddyLaws.LargeFree;
    forall m | m > PAGE_ORDER + 1 && BuddyLaws.LargeFree(t, HEAP_ORDER, m)
      ensures BuddyLaws.LargeFree(t', HEAP_ORDER, m - 1)
    {
      BuddyLaws.AllocKeepsLarge(t, HEAP_ORDER, PAGE_ORDER, m);
    }
  }

  lemma ShrinksDescriptor(t: Tree)
    requires Fits(t, HEAP_ORDER) && AllocTree(t, HEAP_ORDER, DESCRIPTOR_ORDER).Some?
    ensures Shrinks(t, AllocTree(t, HEAP_ORDER, DESCRIPTOR_ORDER).value.0, 1)
  {
    hide Fits, AllocTree, BuddyLaws.LargeFree;
    var r := AllocTree(t, HEAP_ORDER, DESCRIPTOR_ORDER).value.0;
    forall m | m > PAGE_ORDER + 1 && BuddyLaws.LargeFree(t, HEAP_ORDER, m)
      ensures BuddyLaws.LargeFree(r, HEAP_ORDER, m - 1)
    {
      BuddyLaws.AllocKeepsLarge(t, HEAP_ORDER, DESCRIPTOR_ORDER, m);
    }
  }

  lemma ShrinksSame(t: Tree, j: nat)
    requires Fits(t, HEAP_ORDER)
    ensures Shrinks(t, t, j)
  {
    hide Fits, Owner, Pow2;
  }

  lemma ShrinksTrans(t: Tree, t1: Tree, t2: Tree, i: nat, j: nat)
    requires Shrinks(t, t1, i) && Shrinks(t1, t2, j)
    ensures Shrinks(t, t2, i + j)
  {
    hide Fits, BuddyLaws.LargeFree;
    forall m | m > PAGE_ORDER + i + j && BuddyLaws.LargeFree(t, HEAP_ORDER, m)
      ensures BuddyLaws.LargeFree(t2, HEAP_ORDER, m - (i + j))
    {
      assert BuddyLaws.LargeFree(t1, HEAP_ORDER, m - i);
    }
  }

  /** A large free block has room for a process. */
  lemma LargeHasProcess(t: Tree, m: nat)
    requires Fits(t, HEAP_ORDER) && BuddyLaws.LargeFree(t, HEAP_ORDER, m) && m >= PAGE_ORDER + 6
    ensures HasProcess(t, 4)
  {
    hide Fits, AllocTree, BuddyLaws.LargeFree, HasPages;
    BuddyLaws.AllocKeepsLarge(t, HEAP_ORDER, DESCRIPTOR_ORDER, m);
    LargeHasPages(AllocTree(t, HEAP_ORDER, DESCRIPTOR_ORDER).value.0, m - 1, 4);
  }

  lemma {:induction false} LargeHasPages(t: Tree, m: nat, n: nat)
    requires Fits(t, HEAP_ORDER) && BuddyLaws.LargeFree(t, HEAP_ORDER, m) && m >= PAGE_ORDER + n
    ensures HasPages(t, n)
    decreases n
  {
    hide Fits, AllocTree, BuddyLaws.LargeFree;
    if n > 0 {
      BuddyLaws.AllocKeepsLarge(t, HEAP_ORDER, PAGE_ORDER, m);
      LargeHasPages(AllocTree(t, HEAP_ORDER, PAGE_ORDER).value.0, m - 1, n - 1);
    }
  }

  /** What `create_process` takes from the kernel heap before it fills in the descriptor:
      the descriptor, the kernel stack and the address space, each of them new. */
  ghost predicate Grabbed(t: Tree, s: State, t': Tree, s': State, addr: nat, stack: nat, directory: nat) {
    && Grows(t, s, t', s')
    && addr > HEAP_START && NotInUse(t, addr - 1 - HEAP_START)
    && LiveAt(t', HEAP_ORDER, Block(addr - 1 - HEAP_START, DESCRIPTOR_ORDER, true))
    && stack > HEAP_START && NotInUse(t, stack - 1 - HEAP_START) && stack !in s'.words
    && LiveAt(t', HEAP_ORDER, PageBlock(stack)) && stack + 0x2000 < WORD
    && directory !in s.dirs && directory in s'.dirs && directory != s'.kernelDir && KERNEL_BASE <= directory < WORD
    && SpacesKept(s, s', directory) && PagesGranted(s, s', directory, HasProcess(t, 3), HasProcess(t, 4))
  }

  /** The pages of a new process, in numbers: its stack pointer 0xBFFFFFFC leads to the last
      word of the frame that was on top of the free stack, address 0 to the start of the
      next one. */
  lemma NewPages(t: Tree, s: State, t': Tree, s': State, addr: nat, stack: nat, d: nat)
    requires Grabbed(t, s, t', s', addr, stack, d) && Inv(s') && HasProcess(t, 4) && |s.stack| >= 2
    ensures DirOk(s', d)
    ensures Translate(s', d, 0xBFFF_FFFC) == Some(0x4000_0000 + 0x1000 * s.stack[0] + 0xFFC)
    ensures Translate(s', d, 0) == Some(0x4000_0000 + 0x1000 * s.stack[1])
  {
    hide Inv, Translate, DirWord, SpacesKept, LiveAt, Fits, HasProcess;
    ProcessPages(t);
    PagingRuns.AddressMap(s', d, 0xBFFF_FFFC);
    PagingRuns.AddressMap(s', d, 0);
  }

  /** A process set up on what was grabbed. */
  lemma GrabbedOk(ds: seq<Desc>, t: Tree, s: State, t': Tree, s': State,
                  addr: nat, stack: nat, directory: nat, d: Desc)
    requires Fits(t, HEAP_ORDER) && ProcessesOk(ds, t, s)
    requires Grabbed(t, s, t', s', addr, stack, directory)
    requires d.addr == addr && d.esp0 == stack + STACK_TOP && d.directory == directory
    requires d.state == Running && d.gen.esp == 0 && UserMode(d.frame.cs)
    ensures Fits(t', HEAP_ORDER) && ProcessesOk(ds + [d], t', s') && Legal(ds, Create(d))
  {
    hide LiveAt, PagesGranted, SpacesKept, Fits;
    ProcessesGrow(ds, t, s, t', s');
    assert PageBlock(stack).off == stack - 1 - HEAP_START && ProcessOk(d, t', s');
    forall e | e in ds ensures e.addr != addr && e.esp0 != d.esp0 && e.directory != directory {
      assert ProcessOk(e, t, s);
    }
  }

  /** A jump to itself (kernel/proc/process.c:143-148). */
  const CODE: seq<Byte> := [0xE9, 0xFB, 0xFF, 0xFF, 0xFF]

  /** The first `n` bytes of the code stand at address zero of the directory. */
  ghost predicate CodeUpTo(s: State, d: nat, n: nat) {
    && DirOk(s, d) && |s.links| == FRAMES
    && forall j: nat :: j < n && j < |CODE| ==> Seen(s, d, j) == Some(CODE[j])
  }

  ghost predicate HasCode(s: State, d: nat) {
    CodeUpTo(s, d, |CODE|)
  }

  lemma CodeStored(s: State, e: PagingRuns.Event, r: State, d: nat, i: nat)
    requires PagingRuns.Next(s, e, r) && i < |CODE| && e == PagingRuns.Store(d, i, CODE[i]) && CodeUpTo(s, d, i)
    ensures CodeUpTo(r, d, i + 1)
  {
    hide Inv, PagingRuns.Apply, DirWord, Seen;
    assert d in s.dirs;
    SeenIs(r, d, 0);
    forall j: nat | j < i + 1 ensures Seen(r, d, j) == Some(CODE[j]) { PagingRuns.StepSees(s, e, d, j); }
  }

  lemma NoCode(s: State, d: nat)
    requires Inv(s) && d in s.dirs
    ensures CodeUpTo(s, d, 0)
  {
    SeenIs(s, d, 0);
  }

  /** Stores in the new address space change none of that. */
  lemma GrabbedStore(t: Tree, s: State, t': Tree, s': State, addr: nat, stack: nat, directory: nat,
                     e: PagingRuns.Event, r: State)
    requires Grabbed(t, s, t', s', addr, stack, directory)
    requires PagingRuns.Next(s', e, r) && e.Store? && e.user == directory
    ensures Grabbed(t, s, t', r, addr, stack, directory)
  {
    hide Inv, LiveAt, Fits, PagingRuns.Apply, PagingRuns.Enabled, SpaceKept, HasProcess;
    StepSpaces(s', e, r, directory);
    SpacesTrans(s, s', r, directory);
    PagingRuns.OtherKeys(s', e);
    PagingRuns.ApplyRefinesMap(s', e);
  }

  /** A page taken from the heap was in no block in use. */
  lemma TakenFresh(t: Tree, t': Tree, p: nat)
    requires PageTaken(t, t', p)
    ensures p > HEAP_START && NotInUse(t, p - 1 - HEAP_START)
  {
    hide Fits, Owner, AllocTree, Pow2;
    var off := p - 1 - HEAP_START;
    BuddyLaws.AllocOwner(t, HEAP_ORDER, PAGE_ORDER, 0);
    BuddyLaws.AllocOwner(t, HEAP_ORDER, PAGE_ORDER, off);
  }

  /** A step of the paging code that takes its new directory or table from the heap. */
  lemma StepGrows(t: Tree, s: State, t': Tree, s': State, e: PagingRuns.Event)
    requires HeapGrows(t, t') && PagingRuns.Next(s, e, s')
    requires e.Map? && SlotOf(e.key) !in s.tables ==> PageTaken(t, t', e.table)
    requires e.NewDirectory? ==> PageTaken(t, t', e.dir)
    ensures Grows(t, s, t', s')
  {
    hide Inv, PagingRuns.Apply, PagingRuns.Enabled, PageTaken;
    if e.Map? { PagingRuns.MapKeys(s, e.key, e.table); } else { PagingRuns.OtherKeys(s, e); }
    forall p | p in s'.words && p !in s.words ensures p > HEAP_START && NotInUse(t, p - 1 - HEAP_START) {
      TakenFresh(t, t', p);
    }
  }

  /** Exactly which pages of a new address space `d` are backed, and by which frames:
      the top of the free stack for the stack page and the next one for the first page,
      as far as there are frames and the heap has pages for the tables. */
  ghost predicate PagesGranted(s: State, r: State, d: nat, oneTable: bool, twoTables: bool) {
    && (forall key: Key :: key in r.pages && key.dir == d ==> key == StackPage(d) || key == FirstPage(d))
    && |r.stack| + 2 >= |s.stack|
    && (StackPage(d) in r.pages <==> |s.stack| >= 1 && oneTable)
    && (FirstPage(d) in r.pages <==> |s.stack| >= 2 && twoTables)
    && (StackPage(d) in r.pages ==> r.pages[StackPage(d)] == s.stack[0])
    && (FirstPage(d) in r.pages && |s.stack| >= 2 ==> r.pages[FirstPage(d)] == s.stack[1])
  }

  /** The map and the free stack after a request that was granted or not. */
  ghost predicate Given(s: State, r: State, key: Key, granted: bool) {
    if granted then s.stack != [] && r.pages == s.pages[key := s.stack[0]] && r.stack == s.stack[1..]
    else r.pages == s.pages && r.stack == s.stack
  }

  /** The whole paging state after a request for a page, or after freeing one. */
  ghost predicate Requested(s: State, r: State, key: Key, granted: bool) {
    if granted then SlotOf(key) in r.tables && PagingRuns.Next(s, PagingRuns.Map(key, r.tables[SlotOf(key)]), r)
    else r == s
  }

  ghost predicate Freed(s: State, r: State, key: Key) {
    if key in s.pages then PagingRuns.Next(s, PagingRuns.Unmap(key), r) else r == s
  }

  lemma TwoRequests(s: State, s1: State, s2: State, d: nat, oneTable: bool, twoTables: bool)
    requires (forall key :: key in s.pages ==> key.dir != d) && (twoTables ==> oneTable)
    requires Given(s, s1, StackPage(d), |s.stack| >= 1 && oneTable)
    requires Given(s1, s2, FirstPage(d), |s.stack| >= 2 && twoTables)
    ensures PagesGranted(s, s2, d, oneTable, twoTables)
  {
  }

  /** The paging state after user code under directory `d` has stored bytes one after
      another; a store that the directory does not allow has no effect. */
  ghost function AfterStores(s: State, d: nat, stores: seq<(Word, Byte)>): (r: State)
    requires Inv(s) && d in s.dirs
    ensures Inv(r) && r.dirs == s.dirs && r.kernelDir == s.kernelDir
    decreases |stores|
  {
    if stores == [] then s
    else
      var q := AfterStores(s, d, stores[..|stores| - 1]);
      var (v, b) := stores[|stores| - 1];
      var e := if v < 0xC000_0000 && d != q.kernelDir && Mapped(q, d, v).Some?
               then PagingRuns.Store(d, v, b) else PagingRuns.Refused;
      PagingRuns.ApplyRefinesMap(q, e);
      PagingRuns.Apply(q, e)
  }

  /** The byte last stored at an address. */
  function LastStore(stores: seq<(Word, Byte)>, v: Word): Option<Byte> {
    if stores == [] then None
    else if stores[|stores| - 1].0 == v then Some(stores[|stores| - 1].1)
    else LastStore(stores[..|stores| - 1], v)
  }

  /** What user code then finds: what it stored last at each address that it may use, and at
      the others what was there. */
  lemma {:induction false} StoresSeen(s: State, d: nat, stores: seq<(Word, Byte)>, v: Word)
    requires Inv(s) && d in s.dirs
    ensures DirOk(s, d) && DirOk(AfterStores(s, d, stores), d)
    ensures |s.links| == |AfterStores(s, d, stores).links| == FRAMES
    ensures Seen(AfterStores(s, d, stores), d, v) ==
      if Seen(s, d, v).Some? && LastStore(stores, v).Some? then LastStore(stores, v) else Seen(s, d, v)
    decreases |stores|
  {
    hide Inv, DirWord, Seen, PagingRuns.Apply, Mapped;
    SeenIs(s, d, v);
    if stores != [] {
      var q := AfterStores(s, d, stores[..|stores| - 1]);
      var (w, b) := stores[|stores| - 1];
      StoresSeen(s, d, stores[..|stores| - 1], v);
      var e := if w < 0xC000_0000 && d != q.kernelDir && Mapped(q, d, w).Some?
               then PagingRuns.Store(d, w, b) else PagingRuns.Refused;
      PagingRuns.StepSees(q, e, d, v);
      SeenIs(q, d, v);
      SeenIs(PagingRuns.Apply(q, e), d, v);
    }
  }

  // ----- Address spaces

  /** Under directory `d` every address leads where it did, and user code finds the same
      bytes there. */
  ghost predicate SpaceKept(s: State, s': State, d: nat) {
    && DirOk(s, d) && DirOk(s', d) && |s.links| == |s'.links| == FRAMES
    && forall v: Word :: Translate(s', d, v) == Translate(s, d, v) && Seen(s', d, v) == Seen(s, d, v)
  }

  /** No address space but that of the directory `c` changes. */
  ghost predicate SpacesKept(s: State, s': State, c: nat) {
    && s.dirs <= s'.dirs && s'.kernelDir == s.kernelDir
    && forall d :: d in s.dirs && d != c ==> SpaceKept(s, s', d)
  }

  /** The directory that a step is about. */
  ghost predicate About(e: PagingRuns.Event, c: nat) {
    match e
    case Map(key, _) => key.dir == c
    case Unmap(key) => key.dir == c
    case NewDirectory(d) => d == c
    case Store(d, _, _) => d == c
    case Refused => true
  }

  lemma StepSpaces(s: State, e: PagingRuns.Event, s': State, c: nat)
    requires PagingRuns.Next(s, e, s') && About(e, c)
    ensures SpacesKept(s, s', c)
  {
    hide Inv, PagingRuns.Apply, DirWord, Translate, Seen, PagingRuns.Enabled;
    forall d | d in s.dirs && d != c ensures SpaceKept(s, s', d) {
      SeenIs(s, d, 0);
      SeenIs(s', d, 0);
      forall v: Word ensures Translate(s', d, v) == Translate(s, d, v) && Seen(s', d, v) == Seen(s, d, v) {
        PagingRuns.StepTranslates(s, e, d, v);
        PagingRuns.StepSees(s, e, d, v);
      }
    }
  }

  lemma SpacesTrans(s: State, s1: State, s2: State, c: nat)
    requires SpacesKept(s, s1, c) && SpacesKept(s1, s2, c)
    ensures SpacesKept(s, s2, c)
  {
    hide DirOk, Translate, Seen;
    forall d | d in s.dirs && d != c ensures SpaceKept(s, s2, d) {
      assert SpaceKept(s, s1, d) && SpaceKept(s1, s2, d);
    }
  }

  /** No address space that existed changes. */
  ghost predicate AllKept(s: State, s': State) {
    && s.dirs <= s'.dirs && s'.kernelDir == s.kernelDir
    && forall d :: d in s.dirs ==> SpaceKept(s, s', d)
  }

  /** Changes to a new address space leave all others. */
  lemma NewSpace(s: State, s': State, d: nat)
    requires SpacesKept(s, s', d) && d !in s.dirs
    ensures AllKept(s, s')
  {
    hide SpaceKept;
  }

  lemma AllSpaces(s: State, s': State, c: nat)
    requires AllKept(s, s')
    ensures SpacesKept(s, s', c)
  {
    hide SpaceKept;
  }

  lemma SameSpaces(s: State)
    requires Inv(s)
    ensures AllKept(s, s)
  {
    hide Inv, DirOk, Translate, Seen;
    forall d | d in s.dirs ensures SpaceKept(s, s, d) { SeenIs(s, d, 0); }
  }
}
