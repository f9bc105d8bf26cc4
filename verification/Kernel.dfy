/** The parts together: memory, process queue and processor, with process creation, page
    requests and the timer interrupt as operations on all three, and whole runs of them. */
module Kernel {
  import opened Options
  import opened Bits
  import opened BuddyTree
  import opened BuddyHeap
  import opened PageTables
  import opened AddressSpaces
  import opened Paging
  import PagingRuns
  import opened Context
  import opened Ring
  import opened Process
  import opened KernelState
  import Timer

  class Kernel {
    const pager: Pager
    const scheduler: Scheduler
    const machine: Machine

    constructor (pager: Pager, scheduler: Scheduler, machine: Machine)
      requires pager.Valid() && scheduler.Valid() && scheduler.ring == []
      ensures Valid() && this.pager == pager && this.scheduler == scheduler && this.machine == machine
    {
      this.pager, this.scheduler, this.machine := pager, scheduler, machine;
    }

    /** Everything that a run may change. */
    ghost function Objects(): set<object>
      reads this, pager, scheduler
    {
      {machine, scheduler, pager, pager.heap, pager.heap.mem, pager.frames} + set p: Process | p in scheduler.ring :: p
    }

    ghost predicate Valid()
      reads this, pager, pager.heap, pager.heap.mem, pager.frames, scheduler, scheduler.ring
    {
      && pager.Valid() && scheduler.Valid()
      && ProcessesOk(Values(scheduler.ring), pager.heap.tree, pager.Abs())
    }

    /** The processor uses the kernel's directory. */
    ghost predicate KernelActive()
      reads this, machine
    {
      machine.cr3 == pager.kernelMemory - KERNEL_BASE
    }

    /** A user thread of the current process was interrupted or runs, with that process's
        kernel stack for interrupts. */
    ghost predicate Current()
      reads this, pager, pager.heap, pager.heap.mem, pager.frames, scheduler, scheduler.ring, machine
    {
      Valid() && scheduler.ring != [] && UserMode(machine.cs) && machine.tss == scheduler.ring[0].esp0
    }

    /** A user thread runs in the current process's address space. */
    ghost predicate Ready()
      reads this, pager, pager.heap, pager.heap.mem, pager.frames, scheduler, scheduler.ring, machine
    {
      Current() && machine.cr3 == scheduler.ring[0].directory - KERNEL_BASE
    }

    /** In every process's address space the kernel half is where the kernel has it, and
        the user half is that process's own. */
    lemma AddressSpacesAgree(i: nat, v: Word)
      requires Valid() && i < |scheduler.ring|
      ensures var s, d := pager.Abs(), scheduler.ring[i].directory;
        && DirOk(s, d)
        && Translate(s, d, v) == if v >= KERNEL_BASE then Some(v - KERNEL_BASE) else Mapped(s, d, v)
    {
      var s, d := pager.Abs(), scheduler.ring[i].directory;
      assert Values(scheduler.ring)[i].directory == d;
      assert ProcessOk(Values(scheduler.ring)[i], pager.heap.tree, s);
      PagingRuns.TranslateIs(s, d, v);
    }

    /** A byte of a process's kernel stack lies in no other kernel stack, in no directory or
        table, in no descriptor and in no header of the heap, and no user address of any
        process reaches it. */
    lemma KernelStacksApart(i: nat, j: nat, v: Word, x: nat)
      requires Valid() && i < |scheduler.ring| && j < |scheduler.ring| && InStack(Values(scheduler.ring)[i], x)
      ensures i != j ==> !InStack(Values(scheduler.ring)[j], x)
      ensures forall p :: p in pager.words ==> !(p <= x < p + 4 * ENTRIES)
      ensures !(scheduler.ring[j].addr <= x < scheduler.ring[j].addr + DESCRIPTOR_SIZE)
      ensures HEAP_START <= x && !IsHead(pager.heap.tree, HEAP_ORDER, x - HEAP_START)
      ensures var s, d := pager.Abs(), scheduler.ring[j].directory;
        v < KERNEL_BASE ==> DirOk(s, d) && Translate(s, d, v) != Some(x - KERNEL_BASE)
    {
      hide Inv, Translate, IsHead, Linked, LiveAt, Fits;
      var ds, s := Values(scheduler.ring), pager.Abs();
      assert ds[i] in ds && ds[j] in ds;
      assert ProcessOk(ds[i], pager.heap.tree, s) && ProcessOk(ds[j], pager.heap.tree, s);
      StackApart(ds, pager.heap.tree, s, ds[i], x);
      StackHasNoBlock(ds, pager.heap.tree, s, ds[i], ds[j], x);
      if i != j { StacksApart(ds, pager.heap.tree, s, ds[i], ds[j], x); }
      if v < KERNEL_BASE {
        assert ds[j].directory == scheduler.ring[j].directory;
        StackInHeap(ds[i].esp0 - STACK_TOP, x);
        pager.UserMissesKernelMemory(ds[j].directory, v, x);
      }
    }

    lemma StackInHeap(p: nat, x: nat)
      requires Valid() && p > HEAP_START && LiveAt(pager.heap.tree, HEAP_ORDER, PageBlock(p)) && p <= x < p + PAGE_SIZE
      ensures x < HEAP_START + pager.heap.mem.Length
    {
      hide Inv, WellFormed, Linked, ProcessesOk;
      assert Pow2(PAGE_ORDER) == 0x2000;
    }

    // ----- Page requests

    /** `allocate_page` (arch/x86/mm/paging.c:54-96) touches the requesting directory only. */
    method AllocateOwn(d: nat, addr: Word)
      requires pager.Valid() && d in pager.dirs && KernelActive()
      modifies pager, pager.heap, pager.heap.mem
      ensures pager.Valid() && Grows(old(pager.heap.tree), old(pager.Abs()), pager.heap.tree, pager.Abs())
      ensures pager.dirs == old(pager.dirs) && SpacesKept(old(pager.Abs()), pager.Abs(), d)
      ensures Given(old(pager.Abs()), pager.Abs(), Key(d, addr / PAGE_SIZE), old(pager.CanMap(d, addr)))
      ensures Requested(old(pager.Abs()), pager.Abs(), Key(d, addr / PAGE_SIZE), old(pager.CanMap(d, addr)))
      ensures forall k :: k in pager.tables ==> k in old(pager.tables) || k == SlotOf(Key(d, addr / PAGE_SIZE))
      ensures var slot := SlotOf(Key(d, addr / PAGE_SIZE));
        if old(pager.CanMap(d, addr)) && slot !in old(pager.tables)
        then slot in pager.tables && PageTaken(old(pager.heap.tree), pager.heap.tree, pager.tables[slot])
        else pager.heap.tree == old(pager.heap.tree)
      ensures Shrinks(old(pager.heap.tree), pager.heap.tree, 1)
    {
      hide Inv, LiveAt, Fits, PageTaken, SpacesKept, Shrinks;
      ghost var t, s, key := pager.heap.tree, pager.Abs(), Key(d, addr / PAGE_SIZE);
      ghost var mapped := pager.CanMap(d, addr);
      pager.AllocatePage(d, addr, machine.cr3 + KERNEL_BASE);
      ghost var e := if mapped then PagingRuns.Map(key, pager.tables[SlotOf(key)]) else PagingRuns.Refused;
      StepGrows(t, s, pager.heap.tree, pager.Abs(), e);
      StepSpaces(s, e, pager.Abs(), d);
      ShrinksSame(t, 1);
      if mapped && SlotOf(key) !in s.tables { ShrinksTaken(t, pager.heap.tree, pager.tables[SlotOf(key)]); }
      if mapped {
        PagingRuns.ApplyRefinesMap(s, e);
        PagingRuns.MapKeys(s, key, e.table);
      }
    }

    /** `free_page` (arch/x86/mm/paging.c:100-122) for the requesting directory. */
    method FreeOwn(d: nat, addr: Word)
      requires pager.Valid() && d in pager.dirs && KernelActive()
      modifies pager, pager.frames
      ensures pager.Valid() && Grows(old(pager.heap.tree), old(pager.Abs()), pager.heap.tree, pager.Abs())
      ensures SpacesKept(old(pager.Abs()), pager.Abs(), d)
      ensures pager.pages == old(pager.pages) - {Key(d, addr / PAGE_SIZE)}
      ensures Freed(old(pager.Abs()), pager.Abs(), Key(d, addr / PAGE_SIZE))
    {
      hide Inv, LiveAt, Fits, SpacesKept;
      ghost var t, s, key := pager.heap.tree, pager.Abs(), Key(d, addr / PAGE_SIZE);
      PagingRuns.PagesHaveDirs(s);
      pager.FreePage(d, addr, machine.cr3 + KERNEL_BASE);
      ghost var e := if key in s.pages then PagingRuns.Unmap(key) else PagingRuns.Refused;
      StepGrows(t, s, pager.heap.tree, pager.Abs(), e);
      StepSpaces(s, e, pager.Abs(), d);
      PagingRuns.ApplyRefinesMap(s, e);
    }

    /** A byte stored through directory `d`, in a page that user code may write. */
    method StoreOwn(d: nat, v: Word, b: Byte) returns (stored: bool, ghost e: PagingRuns.Event)
      requires pager.Valid() && d in pager.dirs
      modifies pager, pager.frames
      ensures pager.Valid() && Grows(old(pager.heap.tree), old(pager.Abs()), pager.heap.tree, pager.Abs())
      ensures SpacesKept(old(pager.Abs()), pager.Abs(), d) && pager.heap.tree == old(pager.heap.tree)
      ensures stored <==> v < KERNEL_BASE && d != pager.kernelMemory && Mapped(old(pager.Abs()), d, v).Some?
      ensures PagingRuns.Next(old(pager.Abs()), e, pager.Abs())
      ensures e == if stored then PagingRuns.Store(d, v, b) else PagingRuns.Refused
    {
      hide Inv, LiveAt, Fits, SpacesKept, Mapped;
      ghost var t, s := pager.heap.tree, pager.Abs();
      stored := pager.StoreUser(d, v, b);
      e := if stored then PagingRuns.Store(d, v, b) else PagingRuns.Refused;
      StepGrows(t, s, pager.heap.tree, pager.Abs(), e);
      StepSpaces(s, e, pager.Abs(), d);
    }

    // ----- Process creation

    /** A new directory has no page and no table yet; zero when the heap has no page. */
    method NewOwnDirectory() returns (d: nat)
      requires pager.Valid()
      modifies pager, pager.heap, pager.heap.mem
      ensures pager.Valid() && Grows(old(pager.heap.tree), old(pager.Abs()), pager.heap.tree, pager.Abs())
      ensures d != 0 <==> HasPages(old(pager.heap.tree), 1)
      ensures d == 0 ==> pager.Abs() == old(pager.Abs())
      ensures d != 0 ==> d !in old(pager.dirs) && pager.dirs == old(pager.dirs) + {d} && d != pager.kernelMemory
      ensures d != 0 ==> KERNEL_BASE <= d < WORD && PageTaken(old(pager.heap.tree), pager.heap.tree, d)
      ensures d != 0 ==> Shrinks(old(pager.heap.tree), pager.heap.tree, 1)
      ensures pager.pages == old(pager.pages) && pager.stack == old(pager.stack)
      ensures SpacesKept(old(pager.Abs()), pager.Abs(), d)
      ensures d != 0 ==> forall k :: k in pager.tables ==> k.dir != d
      ensures d != 0 ==> forall key :: key in pager.pages ==> key.dir != d
    {
      hide Inv, LiveAt, Fits, AllocTree, PageTaken, SpacesKept, Shrinks;
      ghost var t, s := pager.heap.tree, pager.Abs();
      SomePages(t);
      d := pager.NewDirectory();
      ghost var e := if d == 0 then PagingRuns.Refused else PagingRuns.NewDirectory(d);
      StepGrows(t, s, pager.heap.tree, pager.Abs(), e);
      StepSpaces(s, e, pager.Abs(), d);
      if d != 0 { ShrinksTaken(t, pager.heap.tree, d); }
      PagingRuns.ApplyRefinesMap(s, e);
      PagingRuns.OtherKeys(s, e);
      PagingRuns.PagesHaveDirs(s);
    }

    /** The directory of a new process, with its stack page and its first page
        (kernel/proc/process.c:129-139); zero when the heap has no page. */
    method NewAddressSpace() returns (d: nat)
      requires pager.Valid() && KernelActive()
      modifies pager, pager.heap, pager.heap.mem
      ensures pager.Valid() && Grows(old(pager.heap.tree), old(pager.Abs()), pager.heap.tree, pager.Abs())
      ensures d != 0 <==> HasPages(old(pager.heap.tree), 1)
      ensures d == 0 ==> pager.Abs() == old(pager.Abs())
      ensures d != 0 ==> d !in old(pager.dirs) && pager.dirs == old(pager.dirs) + {d}
      ensures d != 0 ==> KERNEL_BASE <= d < WORD && d != pager.kernelMemory
      ensures SpacesKept(old(pager.Abs()), pager.Abs(), d)
      ensures d != 0 ==> PagesGranted(old(pager.Abs()), pager.Abs(), d,
                                      HasPages(old(pager.heap.tree), 2), HasPages(old(pager.heap.tree), 3))
      ensures d != 0 ==> Shrinks(old(pager.heap.tree), pager.heap.tree, 3)
    {
      hide Inv, LiveAt, Fits, AllocTree, PageTaken, HasPages, Grows, PagesGranted, SpacesKept, Shrinks;
      hide Requested, Pow2, Owner, Coalesced, PageBlock;
      ghost var t, s := pager.heap.tree, pager.Abs();
      d := NewOwnDirectory();
      if d == 0 { return; }
      ghost var t1, s1 := pager.heap.tree, pager.Abs();
      TakenPages(t, t1, d, 2);
      TakenPages(t, t1, d, 3);
      SomePages(t1);
      ghost var first := pager.CanMap(d, KERNEL_BASE - PAGE_SIZE);
      assert first <==> |s.stack| >= 1 && HasPages(t, 2);
      AllocateOwn(d, KERNEL_BASE - PAGE_SIZE);
      ghost var t2, s2 := pager.heap.tree, pager.Abs();
      GrowsTrans(t, s, t1, s1, t2, s2);
      SpacesTrans(s, s1, s2, d);
      ShrinksTrans(t, t1, t2, 1, 1);
      if first { TakenPages(t1, t2, pager.tables[SlotOf(StackPage(d))], 2); }
      SomePages(t2);
      assert pager.CanMap(d, 0) <==> |s.stack| >= 2 && HasPages(t, 3);
      AllocateOwn(d, 0);
      GrowsTrans(t, s, t2, s2, pager.heap.tree, pager.Abs());
      SpacesTrans(s, s2, pager.Abs(), d);
      ShrinksTrans(t, t2, pager.heap.tree, 2, 1);
      TwoRequests(s1, s2, pager.Abs(), d, HasPages(t, 2), HasPages(t, 3));
      SameStart(s, s1, pager.Abs(), d, HasPages(t, 2), HasPages(t, 3));
    }

    static lemma SameStart(s: State, s1: State, r: State, d: nat, oneTable: bool, twoTables: bool)
      requires s1.pages == s.pages && s1.stack == s.stack
      requires PagesGranted(s1, r, d, oneTable, twoTables)
      ensures PagesGranted(s, r, d, oneTable, twoTables)
    {
    }

    /** The allocations of `create_process` (kernel/proc/process.c:95 and 127-139): the
        directory is zero when any of them fails. */
    method AllocateProcess() returns (addr: nat, stack: nat, directory: nat)
      requires pager.Valid() && KernelActive()
      modifies pager, pager.heap, pager.heap.mem
      ensures pager.Valid() && Grows(old(pager.heap.tree), old(pager.Abs()), pager.heap.tree, pager.Abs())
      ensures directory != 0 <==> HasProcess(old(pager.heap.tree), 2)
      ensures directory == 0 ==> pager.Abs() == old(pager.Abs())
      ensures directory != 0 ==>
        Grabbed(old(pager.heap.tree), old(pager.Abs()), pager.heap.tree, pager.Abs(), addr, stack, directory)
      ensures directory != 0 ==> Shrinks(old(pager.heap.tree), pager.heap.tree, 5)
    {
      hide Inv, LiveAt, Fits, SpacesKept, AllocTree, PagesGranted, HasPages, Shrinks;
      ghost var t, s := pager.heap.tree, pager.Abs();
      DescriptorRequest();
      stack, directory := 0, 0;
      addr := pager.KernelAllocate(DESCRIPTOR_SIZE);
      if addr == 0 { return; }
      ghost var t1 := pager.heap.tree;
      SomePages(t1);
      stack := pager.FreshKernelPage();
      if stack == 0 { return; }
      ghost var t2 := pager.heap.tree;
      GrowsTrans(t, s, t1, s, t2, s);
      TakenFresh(t1, t2, stack);
      TakenPages(t1, t2, stack, 2);
      TakenPages(t1, t2, stack, 3);
      TakenPages(t1, t2, stack, 4);
      directory := NewAddressSpace();
      if directory != 0 {
        ShrinksDescriptor(t);
        ShrinksTaken(t1, t2, stack);
        ShrinksTrans(t, t1, t2, 1, 1);
        ShrinksTrans(t, t2, pager.heap.tree, 2, 3);
      }
      GrowsTrans(t, s, t2, s, pager.heap.tree, pager.Abs());
    }

    /** The descriptor filled in and inserted (kernel/proc/process.c:99-127 and 153-165). */
    method Enqueue(addr: nat, eip: Word, esp0: Word, directory: nat)
      requires scheduler.Valid()
      requires Legal(Values(scheduler.ring), Create(NewProcess(addr, eip, esp0, directory)))
      modifies scheduler, scheduler.ring
      ensures scheduler.Valid()
      ensures forall p :: p in scheduler.ring ==> p in old(scheduler.ring) || fresh(p)
      ensures Values(scheduler.ring) == old(Values(scheduler.ring)) + [NewProcess(addr, eip, esp0, directory)]
    {
      hide WellFormed, Linked;
      var frame := Frame(eip, 0x1B, 0x200, KERNEL_BASE - 4, 0x23);
      var gen := General(0, 0, frame.esp, 0, 0, 0, 0, 0);
      var seg := Segments(0x23, 0x23, 0x23, 0x23);
      var p := new Process(addr, frame, gen, seg, esp0, directory);
      CreateStep(Values(scheduler.ring), p.Value());
      scheduler.Insert(p);
    }

    /** The first instruction of a new process, a jump to itself, written under its own
        directory (kernel/proc/process.c:141-150); false when its first page is not backed,
        where the source halts in the page fault handler. */
    method WriteCode(directory: nat, ghost t: Tree, ghost s: State, ghost addr: nat, ghost stack: nat)
      returns (written: bool)
      requires pager.Valid() && directory in pager.dirs && KERNEL_BASE <= directory < WORD
      requires directory != pager.kernelMemory
      requires Grabbed(t, s, pager.heap.tree, pager.Abs(), addr, stack, directory)
      modifies pager, pager.frames, machine`cr3
      ensures pager.Valid() && KernelActive() && pager.heap.tree == old(pager.heap.tree)
      ensures Grabbed(t, s, pager.heap.tree, pager.Abs(), addr, stack, directory)
      ensures written <==> FirstPage(directory) in old(pager.pages)
      ensures written ==> HasCode(pager.Abs(), directory)
    {
      hide Inv, LiveAt, Fits, Grabbed, Grows, SpacesKept, DirOk, Seen, Pow2, Owner, Coalesced, PageBlock, UserWalk;
      machine.cr3 := directory - KERNEL_BASE;
      NoCode(pager.Abs(), directory);
      written := true;
      var i := 0;
      while i < |CODE| && written
        invariant 0 <= i <= |CODE| && pager.Valid() && directory in pager.dirs
        invariant pager.heap.tree == old(pager.heap.tree)
        invariant Grabbed(t, s, pager.heap.tree, pager.Abs(), addr, stack, directory)
        invariant FirstPage(directory) in pager.pages <==> FirstPage(directory) in old(pager.pages)
        invariant written ==> CodeUpTo(pager.Abs(), directory, i) && (i > 0 ==> FirstPage(directory) in pager.pages)
        invariant !written ==> FirstPage(directory) !in pager.pages
        invariant machine.cr3 == directory - KERNEL_BASE
        decreases |CODE| - i, written
      {
        ghost var s1 := pager.Abs();
        ghost var e;
        written, e := StoreOwn(machine.cr3 + KERNEL_BASE, i, CODE[i]);
        if written {
          GrabbedStore(t, s, pager.heap.tree, s1, addr, stack, directory, e, pager.Abs());
          CodeStored(s1, e, pager.Abs(), directory, i);
          i := i + 1;
        }
      }
      machine.cr3 := pager.kernelMemory - KERNEL_BASE;
    }

    /** The memory of a new process: what it holds in the kernel heap, its two pages and its
        code (kernel/proc/process.c:95 and 127-150). */
    method BuildProcess() returns (built: bool, addr: nat, stack: nat, directory: nat)
      requires pager.Valid() && KernelActive()
      modifies pager, pager.heap, pager.heap.mem, pager.frames, machine`cr3
      ensures pager.Valid() && KernelActive() && AllKept(old(pager.Abs()), pager.Abs())
      ensures Grows(old(pager.heap.tree), old(pager.Abs()), pager.heap.tree, pager.Abs())
      ensures built <==> HasProcess(old(pager.heap.tree), 4) && |old(pager.stack)| >= 2
      ensures built ==>
        && stack + STACK_TOP < WORD
        && Grabbed(old(pager.heap.tree), old(pager.Abs()), pager.heap.tree, pager.Abs(), addr, stack, directory)
        && StackPage(directory) in pager.pages && HasCode(pager.Abs(), directory)
        && Shrinks(old(pager.heap.tree), pager.heap.tree, 5) && |pager.stack| + 2 >= |old(pager.stack)|
    {
      hide Inv, LiveAt, Fits, Grabbed, Grows, HasProcess, HasPages, Pow2, Owner, Coalesced;
      hide SpacesKept, AllKept, HasCode, PageBlock, Shrinks;
      ghost var t, s := pager.heap.tree, pager.Abs();
      ProcessPages(t);
      SameSpaces(s);
      addr, stack, directory := AllocateProcess();
      built := false;
      if directory == 0 { return; }
      GrabbedFacts(t, s, pager.heap.tree, pager.Abs(), addr, stack, directory);
      built := WriteCode(directory, t, s, addr, stack);
      GrabbedFacts(t, s, pager.heap.tree, pager.Abs(), addr, stack, directory);
      NewSpace(s, pager.Abs(), directory);
    }

    /** `create_process` (kernel/proc/process.c:94-166), with the kernel's directory active
        before and after. It is refused when the heap is short of pages or the free stack of
        frames; the source does not test for either. */
    method CreateProcess(eip: Word) returns (created: bool, ghost d: Desc)
      requires Valid() && KernelActive()
      modifies pager, pager.heap, pager.heap.mem, pager.frames, scheduler, scheduler.ring, machine`cr3
      ensures Valid() && KernelActive() && Grows(old(pager.heap.tree), old(pager.Abs()), pager.heap.tree, pager.Abs())
      ensures forall p :: p in scheduler.ring ==> p in old(scheduler.ring) || fresh(p)
      ensures created <==> HasProcess(old(pager.heap.tree), 4) && |old(pager.stack)| >= 2
      ensures AllKept(old(pager.Abs()), pager.Abs())
      ensures if created then
          && d == NewProcess(d.addr, eip, d.esp0, d.directory)
          && Legal(old(Values(scheduler.ring)), Create(d))
          && Values(scheduler.ring) == old(Values(scheduler.ring)) + [d]
          && d.esp0 >= STACK_TOP && Grabbed(old(pager.heap.tree), old(pager.Abs()), pager.heap.tree, pager.Abs(),
                                            d.addr, d.esp0 - STACK_TOP, d.directory)
          && StackPage(d.directory) in pager.pages && HasCode(pager.Abs(), d.directory)
          && Shrinks(old(pager.heap.tree), pager.heap.tree, 5) && |pager.stack| + 2 >= |old(pager.stack)|
        else Values(scheduler.ring) == old(Values(scheduler.ring))
    {
      hide Inv, LiveAt, Fits, WellFormed, Linked, Grabbed, Step, Legal, ProcessOk, Grows, ProcessesOk, HasProcess;
      hide AllKept, HasCode, PageBlock, Shrinks, Pow2, Owner, Coalesced;
      ghost var ds, t, s := Values(scheduler.ring), pager.heap.tree, pager.Abs();
      var addr, stack, directory;
      created, addr, stack, directory := BuildProcess();
      ProcessesGrow(ds, t, s, pager.heap.tree, pager.Abs());
      d := NewProcess(addr, eip, if created then stack + STACK_TOP else 0, directory);
      if !created { return; }
      GrabbedOk(ds, t, s, pager.heap.tree, pager.Abs(), addr, stack, directory, d);
      Enqueue(addr, eip, stack + STACK_TOP, directory);
    }

    static lemma GrabbedFacts(t: Tree, s: State, t': Tree, s': State, addr: nat, stack: nat, directory: nat)
      requires Grabbed(t, s, t', s', addr, stack, directory)
      ensures stack + STACK_TOP < WORD && Grows(t, s, t', s') && directory !in s.dirs && directory in s'.dirs
      ensures SpacesKept(s, s', directory) && directory != s'.kernelDir && KERNEL_BASE <= directory < WORD
      ensures FirstPage(directory) in s'.pages <==> HasProcess(t, 4) && |s.stack| >= 2
      ensures FirstPage(directory) in s'.pages ==> StackPage(directory) in s'.pages
      ensures |s'.stack| + 2 >= |s.stack|
    {
      hide HasPages, AllocTree, Fits;
      ProcessPages(t);
    }

    // ----- The processor

    /** `force_enter_userland` (kernel/proc/process.c:21-24). */
    method EnterUserland()
      requires Valid() && scheduler.ring != [] && 76 <= machine.esp < WORD - 20
      modifies machine
      ensures Ready() && Timer.Loaded(machine, Values(scheduler.ring)[0])
      ensures machine.Running().frame == Values(scheduler.ring)[0].frame
    {
      hide Inv, LiveAt, Fits, WellFormed, Linked;
      assert ProcessOk(Values(scheduler.ring)[0], pager.heap.tree, pager.Abs());
      Timer.LoadProcess(machine, scheduler.current);
    }

    /** The timer interrupt of a user thread. What it pushes stays in the kernel stack of the
        process that it interrupts. */
    method TimerInterrupt(enabled: bool) returns (ghost r: Interrupted, ended: bool)
      requires Ready()
      modifies machine, scheduler, scheduler.ring
      ensures Valid() && (ended ==> Ready()) && forall p :: p in scheduler.ring ==> p in old(scheduler.ring)
      ensures old(machine.tss) >= 20 && Timer.Trapped(old(machine.Running()), old(machine.tss) - 20, r)
      ensures ended <==> !enabled || Legal(old(Values(scheduler.ring)), Tick(r))
      ensures ended ==>
        if enabled && |old(scheduler.ring)| >= 2
        then
          && Values(scheduler.ring) == Step(old(Values(scheduler.ring)), Tick(r))
          && scheduler.ring != [] && Timer.Loaded(machine, Values(scheduler.ring)[0])
        else
          && Values(scheduler.ring) == old(Values(scheduler.ring))
          && machine.Running() == old(machine.Running()) && machine.cr3 == old(machine.cr3)
      ensures StackOnly(old(Values(scheduler.ring)[0]), old(machine.mem), machine.mem)
    {
      hide Inv, LiveAt, Fits, WellFormed, Linked, Legal, Step, Candidates, ProcessOk, ProcessesOk;
      ghost var ds, t, s := Values(scheduler.ring), pager.heap.tree, pager.Abs();
      OkLoadable(ds, t, s);
      r, ended := Timer.TimerInterrupt(machine, scheduler, enabled);
      SwitchOk(ds, r, t, s);
      OkLoadable(Values(scheduler.ring), t, s);
    }

    static lemma OkLoadable(ds: seq<Desc>, t: Tree, s: State)
      requires Fits(t, HEAP_ORDER) && ProcessesOk(ds, t, s)
      ensures Timer.AllLoadable(ds)
      ensures ds != [] ==>
        && ds[0].gen.esp == 0 && UserMode(ds[0].frame.cs)
        && HEAP_START + STACK_TOP < ds[0].esp0 && ds[0].esp0 + 0x1000 < WORD
    {
      forall d | d in ds ensures Timer.Loadable(d) { assert ProcessOk(d, t, s); }
      assert ds != [] ==> ProcessOk(ds[0], t, s);
    }

    /** `update_process` (kernel/proc/process.c:169-171). */
    method UpdateState(st: ProcessState)
      requires Valid() && scheduler.ring != []
      modifies scheduler.ring
      ensures Valid() && (old(Ready()) ==> Ready())
      ensures Values(scheduler.ring) == Step(old(Values(scheduler.ring)), Update(st))
    {
      hide Inv, LiveAt, Fits, WellFormed, Linked, ProcessOk, ProcessesOk;
      ghost var ds := Values(scheduler.ring);
      scheduler.UpdateProcess(st);
      UpdateOk(ds, st, pager.heap.tree, pager.Abs());
    }

    /** `enable_paging` (arch/x86/mm/paging.s:3) for the kernel's directory. */
    method EnableKernel()
      requires Valid()
      modifies machine`cr3
      ensures KernelActive()
    {
      machine.cr3 := pager.kernelMemory - KERNEL_BASE;
    }

    /** And for the current process's. */
    method EnableCurrent()
      requires Current()
      modifies machine`cr3
      ensures Ready()
    {
      hide Inv, LiveAt, Fits, WellFormed, Linked;
      assert ProcessOk(Values(scheduler.ring)[0], pager.heap.tree, pager.Abs());
      machine.cr3 := scheduler.current.directory - KERNEL_BASE;
    }

    /** A page request by the current process. */
    method MapOwn(addr: Word)
      requires Valid() && scheduler.ring != [] && KernelActive()
      modifies pager, pager.heap, pager.heap.mem
      ensures Valid() && (old(Current()) ==> Current())
      ensures Grows(old(pager.heap.tree), old(pager.Abs()), pager.heap.tree, pager.Abs())
      ensures var d := scheduler.ring[0].directory;
        && SpacesKept(old(pager.Abs()), pager.Abs(), d)
        && Given(old(pager.Abs()), pager.Abs(), Key(d, addr / PAGE_SIZE), old(pager.CanMap(d, addr)))
        && Requested(old(pager.Abs()), pager.Abs(), Key(d, addr / PAGE_SIZE), old(pager.CanMap(d, addr)))
        && var slot := SlotOf(Key(d, addr / PAGE_SIZE));
          if old(pager.CanMap(d, addr)) && slot !in old(pager.tables)
          then slot in pager.tables && PageTaken(old(pager.heap.tree), pager.heap.tree, pager.tables[slot])
          else pager.heap.tree == old(pager.heap.tree)
    {
      hide Inv, LiveAt, Fits, WellFormed, Linked, ProcessesOk, SpacesKept, Requested, Given, PageTaken;
      ghost var ds, t, s := Values(scheduler.ring), pager.heap.tree, pager.Abs();
      HeadOk();
      AllocateOwn(scheduler.current.directory, addr);
      ProcessesGrow(ds, t, s, pager.heap.tree, pager.Abs());
    }

    /** A page freed by the current process. */
    method DropOwn(addr: Word)
      requires Valid() && scheduler.ring != [] && KernelActive()
      modifies pager, pager.frames
      ensures Valid() && (old(Current()) ==> Current())
      ensures Grows(old(pager.heap.tree), old(pager.Abs()), pager.heap.tree, pager.Abs())
      ensures var d := scheduler.ring[0].directory;
        && SpacesKept(old(pager.Abs()), pager.Abs(), d)
        && pager.pages == old(pager.pages) - {Key(d, addr / PAGE_SIZE)}
        && Freed(old(pager.Abs()), pager.Abs(), Key(d, addr / PAGE_SIZE))
    {
      hide Inv, LiveAt, Fits, WellFormed, Linked, ProcessesOk, SpacesKept, Freed;
      ghost var ds, t, s := Values(scheduler.ring), pager.heap.tree, pager.Abs();
      HeadOk();
      FreeOwn(scheduler.current.directory, addr);
      ProcessesGrow(ds, t, s, pager.heap.tree, pager.Abs());
    }

    /** A byte stored by user code of the current process, through the active directory. */
    method StoreByte(v: Word, b: Byte) returns (stored: bool)
      requires Ready()
      modifies pager, pager.frames
      ensures Ready() && Grows(old(pager.heap.tree), old(pager.Abs()), pager.heap.tree, pager.Abs())
      ensures var d := scheduler.ring[0].directory;
        && SpacesKept(old(pager.Abs()), pager.Abs(), d)
        && DirOk(pager.Abs(), d) && |pager.Abs().links| == FRAMES
        && (stored <==> v < KERNEL_BASE && Mapped(old(pager.Abs()), d, v).Some?)
        && (stored ==> Seen(pager.Abs(), d, v) == Some(b))
        && PagingRuns.Next(old(pager.Abs()), if stored then PagingRuns.Store(d, v, b) else PagingRuns.Refused,
                           pager.Abs())
    {
      hide Inv, LiveAt, Fits, WellFormed, Linked, ProcessesOk, SpacesKept, Mapped, Seen;
      ghost var ds, t, s := Values(scheduler.ring), pager.heap.tree, pager.Abs();
      HeadOk();
      ghost var e;
      stored, e := StoreOwn(machine.cr3 + KERNEL_BASE, v, b);
      PagingRuns.StepSees(s, e, scheduler.ring[0].directory, v);
      SeenIs(pager.Abs(), scheduler.ring[0].directory, v);
      ProcessesGrow(ds, t, s, pager.heap.tree, pager.Abs());
    }

    lemma HeadOk()
      requires Valid() && scheduler.ring != []
      ensures scheduler.current != null && scheduler.current.directory in pager.dirs
      ensures scheduler.current.directory != pager.kernelMemory
      ensures scheduler.current.directory == scheduler.ring[0].directory
    {
      assert ProcessOk(Values(scheduler.ring)[0], pager.heap.tree, pager.Abs());
    }
  }
}
