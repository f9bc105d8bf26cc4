/** Whole runs of the kernel: user threads compute, the timer interrupts them, and processes
    are created, halted, ended and given pages in any order. */
module KernelRuns {
  import opened Options
  import opened Bits
  import opened BuddyTree
  import opened BuddyHeap
  import BuddyLaws
  import opened PageTables
  import opened AddressSpaces
  import opened Paging
  import PagingRuns
  import opened Context
  import opened Ring
  import opened Process
  import opened KernelState
  import opened Kernel
  import Timer

  /** What happens next. `Work` is user code: it stores bytes wherever its directory lets it,
      leaves any registers, and stays in user mode. The others but `Interrupt` are done by
      the kernel for the current process. */
  datatype Act =
    | Work(thread: Thread, stores: seq<(Word, Byte)>)
    | Interrupt
    | SetState(state: ProcessState)
    | Spawn(eip: Word)
    | MapPage(addr: Word)
    | DropPage(addr: Word)

  predicate Allowed(a: Act) {
    a.Work? ==> UserMode(a.thread.frame.cs)
  }

  /** `e` is what act `a` does to the process queue. An act that leaves it alone counts as
      setting the state the current process has. */
  ghost predicate Means(ds: seq<Desc>, a: Act, e: Event)
    requires ds != []
  {
    match a
    case Interrupt => e.Tick?
    case SetState(st) => e == Update(st)
    case Spawn(eip) =>
      || e == Update(ds[0].state)
      || (e.Create? && e.desc == NewProcess(e.desc.addr, eip, e.desc.esp0, e.desc.directory))
    case _ => e == Update(ds[0].state)
  }

  lemma NoChange(ds: seq<Desc>)
    requires ds != []
    ensures forall st :: Legal(ds, Update(st))
    ensures Step(ds, Update(ds[0].state)) == ds
  {
  }

  /** The queue, the kernel heap, the paging state and the running thread. */
  datatype Snapshot = Snapshot(ds: seq<Desc>, tree: Tree, s: State, thread: Thread)

  ghost function Now(k: Kernel): Snapshot
    reads k, k.scheduler, k.scheduler.ring, k.pager, k.pager.heap, k.pager.frames, k.machine
  {
    Snapshot(Values(k.scheduler.ring), k.pager.heap.tree, k.pager.Abs(), k.machine.Running())
  }

  /** The memory of a created process. */
  ghost predicate Spawned(p: Snapshot, d: Desc, q: Snapshot) {
    && HasCode(q.s, d.directory) && d.esp0 >= STACK_TOP
    && Grabbed(p.tree, p.s, q.tree, q.s, d.addr, d.esp0 - STACK_TOP, d.directory)
  }

  /** The event of an act that leaves the queue alone. */
  ghost function Idle(ds: seq<Desc>): Event
    requires ds != []
  {
    Update(ds[0].state)
  }

  /** What an act does, whole: from `p` to `q`, with the event `e` on the queue. */
  ghost predicate Does(a: Act, p: Snapshot, e: Event, q: Snapshot)
    requires p.ds != []
  {
    var d := p.ds[0].directory;
    && Means(p.ds, a, e) && Legal(p.ds, e) && q.ds == Step(p.ds, e)
    && Fits(p.tree, HEAP_ORDER) && Inv(p.s) && d in p.s.dirs
    && match a
       case Work(t, stores) =>
         q.s == AfterStores(p.s, d, stores) && q.tree == p.tree && q.thread == t.(gen := t.gen.(esp := 0))
       case Interrupt =>
         && q.s == p.s && q.tree == p.tree
         && (exists at: Word :: Timer.Trapped(p.thread, at, e.regs))
         && if |p.ds| < 2 then q.thread == p.thread
            else q.ds != [] && q.thread == Thread(q.ds[0].seg, q.ds[0].gen, q.ds[0].frame)
       case SetState(_) => q.s == p.s && q.tree == p.tree && q.thread == p.thread
       case Spawn(_) =>
         && q.thread == p.thread && (e.Create? <==> HasProcess(p.tree, 4) && |p.s.stack| >= 2)
         && (e.Create? ==> Spawned(p, e.desc, q))
       case MapPage(addr) =>
         var key := Key(d, addr / 0x1000);
         var granted := p.s.stack != [] && addr < 0xC000_0000 && key !in p.s.pages
           && (SlotOf(key) in p.s.tables || HasPages(p.tree, 1));
         && q.thread == p.thread && Requested(p.s, q.s, key, granted)
         && if granted && SlotOf(key) !in p.s.tables
            then SlotOf(key) in q.s.tables && PageTaken(p.tree, q.tree, q.s.tables[SlotOf(key)])
            else q.tree == p.tree
       case DropPage(addr) =>
         q.thread == p.thread && q.tree == p.tree && Freed(p.s, q.s, Key(d, addr / 0x1000))
  }

  lemma DoesSpawn(eip: Word, p: Snapshot, e: Event, q: Snapshot)
    requires p.ds != [] && Means(p.ds, Spawn(eip), e) && Legal(p.ds, e) && q.ds == Step(p.ds, e)
    requires Fits(p.tree, HEAP_ORDER) && Inv(p.s) && p.ds[0].directory in p.s.dirs && q.thread == p.thread
    requires e.Create? <==> HasProcess(p.tree, 4) && |p.s.stack| >= 2
    requires e.Create? ==> Spawned(p, e.desc, q)
    ensures Does(Spawn(eip), p, e, q)
  {
  }

  lemma DoesParts(a: Act, p: Snapshot, e: Event, q: Snapshot)
    requires p.ds != [] && Does(a, p, e, q)
    ensures Means(p.ds, a, e) && Legal(p.ds, e) && q.ds == Step(p.ds, e)
  {
  }

  lemma DoesMap(addr: Word, p: Snapshot, q: Snapshot, granted: bool)
    requires p.ds != [] && q.ds == p.ds && q.thread == p.thread
    requires Fits(p.tree, HEAP_ORDER) && Inv(p.s) && p.ds[0].directory in p.s.dirs
    requires var key := Key(p.ds[0].directory, addr / PAGE_SIZE);
      && granted == (&& p.s.stack != [] && addr < KERNEL_BASE && key !in p.s.pages
                     && (SlotOf(key) in p.s.tables || HasPages(p.tree, 1)))
      && Requested(p.s, q.s, key, granted)
      && if granted && SlotOf(key) !in p.s.tables
         then SlotOf(key) in q.s.tables && PageTaken(p.tree, q.tree, q.s.tables[SlotOf(key)])
         else q.tree == p.tree
    ensures Does(MapPage(addr), p, Idle(p.ds), q)
  {
    hide Inv, Fits, HasPages, Requested, PageTaken;
    NoChange(p.ds);
  }

  lemma DoesDrop(addr: Word, p: Snapshot, q: Snapshot)
    requires p.ds != [] && q.ds == p.ds && q.thread == p.thread && q.tree == p.tree
    requires Fits(p.tree, HEAP_ORDER) && Inv(p.s) && p.ds[0].directory in p.s.dirs
    requires Freed(p.s, q.s, Key(p.ds[0].directory, addr / PAGE_SIZE))
    ensures Does(DropPage(addr), p, Idle(p.ds), q)
  {
    hide Inv, Fits, Freed;
    NoChange(p.ds);
  }

  lemma DoesState(st: ProcessState, p: Snapshot, q: Snapshot)
    requires p.ds != [] && Legal(p.ds, Update(st)) && q == p.(ds := Step(p.ds, Update(st)))
    requires Fits(p.tree, HEAP_ORDER) && Inv(p.s) && p.ds[0].directory in p.s.dirs
    ensures Does(SetState(st), p, Update(st), q)
  {
  }

  lemma DoesTick(p: Snapshot, r: Interrupted, at: Word, q: Snapshot)
    requires p.ds != [] && Legal(p.ds, Tick(r)) && q.ds == Step(p.ds, Tick(r))
    requires Fits(p.tree, HEAP_ORDER) && Inv(p.s) && p.ds[0].directory in p.s.dirs
    requires q.s == p.s && q.tree == p.tree && Timer.Trapped(p.thread, at, r)
    requires if |p.ds| < 2 then q.thread == p.thread
      else q.ds != [] && q.thread == Thread(q.ds[0].seg, q.ds[0].gen, q.ds[0].frame)
    ensures Does(Interrupt, p, Tick(r), q)
  {
    hide Inv, Fits, Step, Legal, Timer.Trapped;
  }

  /** User code stores its bytes one after another; a store that its directory does not
      allow has no effect. */
  method StoreAll(k: Kernel, stores: seq<(Word, Byte)>)
    requires k.Ready()
    modifies k.pager, k.pager.frames
    ensures k.Ready() && SpacesKept(old(k.pager.Abs()), k.pager.Abs(), k.scheduler.ring[0].directory)
    ensures Inv(old(k.pager.Abs())) && k.scheduler.ring[0].directory in old(k.pager.dirs)
    ensures k.pager.Abs() == AfterStores(old(k.pager.Abs()), k.scheduler.ring[0].directory, stores)
  {
    hide Inv, LiveAt, Fits, WellFormed, Linked, ProcessesOk, SpacesKept, Grows, Seen, Mapped, PagingRuns.Apply;
    ghost var s, c := k.pager.Abs(), k.scheduler.ring[0].directory;
    k.HeadOk();
    SameSpaces(s);
    AllSpaces(s, s, c);
    for i := 0 to |stores|
      invariant k.Ready() && SpacesKept(s, k.pager.Abs(), c)
      invariant k.pager.Abs() == AfterStores(s, c, stores[..i])
    {
      ghost var s1 := k.pager.Abs();
      var _ := k.StoreByte(stores[i].0, stores[i].1);
      SpacesTrans(s, s1, k.pager.Abs(), c);
      assert stores[..i + 1][..i] == stores[..i];
    }
    assert stores[..|stores|] == stores;
  }

  /** User code runs. */
  method Compute(k: Kernel, thread: Thread, stores: seq<(Word, Byte)>)
    requires k.Ready() && UserMode(thread.frame.cs)
    modifies k.machine, k.pager, k.pager.frames
    ensures k.Ready() && k.machine.mem == old(k.machine.mem)
    ensures SpacesKept(old(k.pager.Abs()), k.pager.Abs(), k.scheduler.ring[0].directory)
    ensures Does(Work(thread, stores), old(Now(k)), Idle(old(Values(k.scheduler.ring))), Now(k))
  {
    hide Inv, LiveAt, Fits, WellFormed, Linked, ProcessesOk, SpacesKept, Step, Legal;
    NoChange(Values(k.scheduler.ring));
    StoreAll(k, stores);
    k.machine.Compute(thread);
  }

  /** Every process is running and has its code. */
  ghost predicate Started(ds: seq<Desc>, s: State) {
    forall d :: d in ds ==> d.state == Running && HasCode(s, d.directory)
  }

  lemma StartedMore(ds: seq<Desc>, s: State, s': State, d: Desc)
    requires Started(ds, s) && AllKept(s, s') && forall e :: e in ds ==> e.directory in s.dirs
    requires d.state == Running && HasCode(s', d.directory)
    ensures Started(ds + [d], s')
  {
    hide HasCode, AllKept;
    forall e | e in ds + [d] ensures e.state == Running && HasCode(s', e.directory) {
      if e in ds { CodeKept(s, s', e.directory); }
    }
  }

  /** One more process to start with. */
  method CreateStarted(k: Kernel, eip: Word) returns (ok: bool)
    requires k.Valid() && k.KernelActive() && Started(Values(k.scheduler.ring), k.pager.Abs())
    modifies k.Objects()
    ensures k.Valid() && k.KernelActive() && fresh(k.Objects() - old(k.Objects()))
    ensures k.machine.esp == old(k.machine.esp)
    ensures ok <==> HasProcess(old(k.pager.heap.tree), 4) && |old(k.pager.stack)| >= 2
    ensures ok ==> Shrinks(old(k.pager.heap.tree), k.pager.heap.tree, 5) && |k.pager.stack| + 2 >= |old(k.pager.stack)|
    ensures ok ==> Started(Values(k.scheduler.ring), k.pager.Abs())
    ensures ok ==>
      exists d: Desc :: d == NewProcess(d.addr, eip, d.esp0, d.directory)
        && Values(k.scheduler.ring) == old(Values(k.scheduler.ring)) + [d]
  {
    hide Inv, LiveAt, Fits, WellFormed, Linked, ProcessesOk, Legal, HasProcess, Grows, Grabbed;
    hide AllKept, HasCode, Started, Shrinks;
    ghost var ds, s := Values(k.scheduler.ring), k.pager.Abs();
    AllInDirs(k);
    assert forall o: object :: o in k.scheduler.ring ==> o in k.Objects();
    ghost var d;
    ok, d := k.CreateProcess(eip);
    if ok { StartedMore(ds, s, k.pager.Abs(), d); }
  }

  /** The two calls of `create_process` at start (kernel/kernel.c:43-44). */
  method CreateTwo(k: Kernel) returns (ok: bool)
    requires k.Valid() && k.KernelActive() && k.scheduler.ring == []
    modifies k.Objects()
    ensures k.Valid() && k.KernelActive() && fresh(k.Objects() - old(k.Objects()))
    ensures k.machine.esp == old(k.machine.esp)
    ensures ok ==> Started(Values(k.scheduler.ring), k.pager.Abs())
    ensures ok ==> |k.scheduler.ring| == 2 && forall i :: 0 <= i < 2 ==>
      Values(k.scheduler.ring)[i].frame == Frame(0, 0x1B, 0x200, 0xBFFF_FFFC, 0x23)
    ensures BuddyLaws.LargeFree(old(k.pager.heap.tree), HEAP_ORDER, 24) && |old(k.pager.stack)| >= 4 ==> ok
  {
    hide Inv, LiveAt, Fits, WellFormed, Linked, ProcessesOk, HasCode, Pager.Valid;
    hide HasProcess, Shrinks, BuddyLaws.LargeFree, Pow2, Owner;
    ghost var t := k.pager.heap.tree;
    HeapFits(k);
    RoomForTwo(t);
    assert Values(k.scheduler.ring) == [];
    ok := CreateStarted(k, 0);
    if !ok { return; }
    RoomForOne(t, k.pager.heap.tree);
    ok := CreateStarted(k, 0);
  }

  lemma HeapFits(k: Kernel)
    requires k.Valid()
    ensures Fits(k.pager.heap.tree, HEAP_ORDER)
  {
  }

  /** Starting the first two processes (kernel/kernel.c:43-51). From the memory that start-up
      leaves, or from any with a free block of 16 MiB and four free frames, both are created,
      and the processor runs the first one's code in user mode. */
  method Boot(k: Kernel) returns (ok: bool)
    requires k.Valid() && k.KernelActive() && k.scheduler.ring == [] && 76 <= k.machine.esp < WORD - 20
    modifies k.Objects()
    ensures k.Valid() && (!ok ==> k.KernelActive())
    ensures ok ==> k.Ready() && Started(Values(k.scheduler.ring), k.pager.Abs())
    ensures ok ==> |k.scheduler.ring| == 2 && k.machine.eip == 0
    ensures ok ==> forall i :: 0 <= i < 2 ==>
      Values(k.scheduler.ring)[i].frame == Frame(0, 0x1B, 0x200, 0xBFFF_FFFC, 0x23)
    ensures old(k.pager.heap.tree) == Leaf(false) && |old(k.pager.stack)| == FRAMES ==> ok
    ensures StartHeap(old(k.pager.heap.tree)) && |old(k.pager.stack)| == FRAMES ==> ok
    ensures BuddyLaws.LargeFree(old(k.pager.heap.tree), HEAP_ORDER, 24) && |old(k.pager.stack)| >= 4 ==> ok
  {
    hide Inv, LiveAt, Fits, WellFormed, Linked, ProcessesOk, HasCode, Pager.Valid;
    hide Timer.Loaded, BuddyLaws.LargeFree, Pow2, Owner, Started;
    FreshHeap(k.pager.heap.tree);
    ok := CreateTwo(k);
    if !ok { return; }
    k.EnterUserland();
  }

  /** The heap behind the two requests of four bytes that start-up makes
      (kernel/kernel.c:18-19). */
  ghost predicate StartHeap(t: Tree) {
    && Shiftable(4)
    && match AllocTree(Leaf(false), HEAP_ORDER, RequestOrder(4))
       case None => false
       case Some((u, _)) =>
         match AllocTree(u, HEAP_ORDER, RequestOrder(4)) case None => false case Some((w, _)) => t == w
  }

  lemma FreshHeap(t: Tree)
    ensures t == Leaf(false) || StartHeap(t) ==> Fits(t, HEAP_ORDER) && BuddyLaws.LargeFree(t, HEAP_ORDER, 24)
  {
    assert Owner(Leaf(false), HEAP_ORDER, 0) == Block(0, HEAP_ORDER, false);
    if StartHeap(t) { UsedHeap(t); }
  }

  lemma UsedHeap(t: Tree)
    requires StartHeap(t) && BuddyLaws.LargeFree(Leaf(false), HEAP_ORDER, 26)
    ensures Fits(t, HEAP_ORDER) && BuddyLaws.LargeFree(t, HEAP_ORDER, 24)
  {
    hide AllocTree, BuddyLaws.LargeFree;
    RequestOrderIs(4, 3);
    assert Pow2(3) == 8;
    BuddyLaws.AllocKeepsLarge(Leaf(false), HEAP_ORDER, RequestOrder(4), 26);
    var u := AllocTree(Leaf(false), HEAP_ORDER, RequestOrder(4)).value.0;
    BuddyLaws.AllocKeepsLarge(u, HEAP_ORDER, RequestOrder(4), 25);
  }

  lemma RoomForTwo(t: Tree)
    requires Fits(t, HEAP_ORDER)
    ensures BuddyLaws.LargeFree(t, HEAP_ORDER, 24) ==> HasProcess(t, 4)
  {
    hide Fits, BuddyLaws.LargeFree;
    if BuddyLaws.LargeFree(t, HEAP_ORDER, 24) { LargeHasProcess(t, 24); }
  }

  lemma RoomForOne(t: Tree, t': Tree)
    requires Shrinks(t, t', 5)
    ensures BuddyLaws.LargeFree(t, HEAP_ORDER, 24) ==> HasProcess(t', 4)
  {
    hide Fits, BuddyLaws.LargeFree;
    if BuddyLaws.LargeFree(t, HEAP_ORDER, 24) { LargeHasProcess(t', 19); }
  }

  lemma AllInDirs(k: Kernel)
    requires k.Valid()
    ensures forall d :: d in Values(k.scheduler.ring) ==> d.directory in k.pager.dirs
  {
    forall d | d in Values(k.scheduler.ring) ensures d.directory in k.pager.dirs {
      assert ProcessOk(d, k.pager.heap.tree, k.pager.Abs());
    }
  }

  lemma CodeKept(s: State, s': State, d: nat)
    requires AllKept(s, s') && d in s.dirs && HasCode(s, d)
    ensures HasCode(s', d)
  {
    hide DirOk, Seen, Translate;
    assert SpaceKept(s, s', d);
  }

  // A page is granted to or taken from the current process under the kernel's directory.

  method PerformMap(k: Kernel, addr: Word)
    requires k.Ready()
    modifies k.machine`cr3, k.pager, k.pager.heap, k.pager.heap.mem
    ensures k.Ready() && SpacesKept(old(k.pager.Abs()), k.pager.Abs(), k.scheduler.ring[0].directory)
    ensures Does(MapPage(addr), old(Now(k)), Idle(old(Values(k.scheduler.ring))), Now(k))
  {
    hide Inv, LiveAt, Fits, WellFormed, Linked, ProcessesOk, Step, Legal;
    hide Grows, Given, SpacesKept, Requested, PageTaken, HasPages, AllocTree, Does, SlotOf, Pow2, Owner;
    ghost var p := Now(k);
    SomePages(k.pager.heap.tree);
    k.HeadOk();
    k.EnableKernel();
    ghost var granted := k.pager.CanMap(k.scheduler.ring[0].directory, addr);
    k.MapOwn(addr);
    k.EnableCurrent();
    DoesMap(addr, p, Now(k), granted);
  }

  method PerformDrop(k: Kernel, addr: Word)
    requires k.Ready()
    modifies k.machine`cr3, k.pager, k.pager.frames
    ensures k.Ready() && SpacesKept(old(k.pager.Abs()), k.pager.Abs(), k.scheduler.ring[0].directory)
    ensures Does(DropPage(addr), old(Now(k)), Idle(old(Values(k.scheduler.ring))), Now(k))
  {
    hide Inv, LiveAt, Fits, WellFormed, Linked, ProcessesOk, Step, Legal;
    hide Grows, SpacesKept, Freed, Does, SlotOf, Pow2, Owner;
    ghost var p := Now(k);
    k.HeadOk();
    k.EnableKernel();
    k.DropOwn(addr);
    k.EnableCurrent();
    DoesDrop(addr, p, Now(k));
  }

  /** A process created while another one is current. */
  method SpawnProcess(k: Kernel, eip: Word) returns (ghost e: Event)
    requires k.Ready()
    modifies k.machine`cr3, k.scheduler, k.scheduler.ring, k.pager, k.pager.heap, k.pager.heap.mem, k.pager.frames
    ensures k.Ready() && forall p :: p in k.scheduler.ring ==> p in old(k.scheduler.ring) || fresh(p)
    ensures Means(old(Values(k.scheduler.ring)), Spawn(eip), e) && Legal(old(Values(k.scheduler.ring)), e)
    ensures Values(k.scheduler.ring) == Step(old(Values(k.scheduler.ring)), e)
    ensures SpacesKept(old(k.pager.Abs()), k.pager.Abs(), old(k.scheduler.ring[0].directory))
    ensures e.Create? <==> HasProcess(old(k.pager.heap.tree), 4) && |old(k.pager.stack)| >= 2
    ensures e.Create? ==> Spawned(old(Now(k)), e.desc, Now(k))
  {
    hide Inv, LiveAt, Fits, WellFormed, Linked, ProcessesOk, Legal, Step, NewProcess, HasProcess, UserMode;
    hide Grows, Grabbed, SpacesKept, AllKept, HasCode;
    ghost var ds, s, c := Values(k.scheduler.ring), k.pager.Abs(), k.scheduler.ring[0].directory;
    NoChange(ds);
    e := Update(ds[0].state);
    k.EnableKernel();
    var created, d := k.CreateProcess(eip);
    AllSpaces(s, k.pager.Abs(), c);
    if created {
      e := Create(d);
      CreateStep(ds, d);
    }
    k.EnableCurrent();
  }

  method PerformSpawn(k: Kernel, eip: Word) returns (ghost e: Event)
    requires k.Ready()
    modifies k.machine`cr3, k.scheduler, k.scheduler.ring, k.pager, k.pager.heap, k.pager.heap.mem, k.pager.frames
    ensures k.Ready() && forall p :: p in k.scheduler.ring ==> p in old(k.scheduler.ring) || fresh(p)
    ensures SpacesKept(old(k.pager.Abs()), k.pager.Abs(), old(k.scheduler.ring[0].directory))
    ensures Does(Spawn(eip), old(Now(k)), e, Now(k))
  {
    hide Inv, LiveAt, Fits, WellFormed, Linked, ProcessesOk, Legal, Step, HasProcess, Means;
    hide SpacesKept, Spawned, Does;
    ghost var p := Now(k);
    k.HeadOk();
    e := SpawnProcess(k, eip);
    DoesSpawn(eip, p, e, Now(k));
  }

  /** The current process's state set. */
  method PerformState(k: Kernel, st: ProcessState)
    requires k.Ready()
    modifies k.scheduler.ring
    ensures k.Ready() && SpacesKept(old(k.pager.Abs()), k.pager.Abs(), old(k.scheduler.ring[0].directory))
    ensures Does(SetState(st), old(Now(k)), Update(st), Now(k))
  {
    hide Inv, LiveAt, Fits, WellFormed, Linked, ProcessesOk, Legal, Step, SpacesKept, AllKept, Does;
    ghost var p, s := Now(k), k.pager.Abs();
    SameSpaces(s);
    AllSpaces(s, s, k.scheduler.ring[0].directory);
    k.HeadOk();
    NoChange(p.ds);
    k.UpdateState(st);
    DoesState(st, p, Now(k));
  }

  /** An act other than an interrupt. */
  method PerformOther(k: Kernel, a: Act) returns (ghost e: Event)
    requires k.Ready() && Allowed(a) && a != Interrupt
    modifies k.machine, k.scheduler, k.scheduler.ring, k.pager, k.pager.heap, k.pager.heap.mem, k.pager.frames
    ensures k.Ready() && forall p :: p in k.scheduler.ring ==> p in old(k.scheduler.ring) || fresh(p)
    ensures SpacesKept(old(k.pager.Abs()), k.pager.Abs(), old(k.scheduler.ring[0].directory))
    ensures k.machine.mem == old(k.machine.mem)
    ensures Does(a, old(Now(k)), e, Now(k))
  {
    hide Pager.Valid, Scheduler.Valid, ProcessesOk, SpacesKept, Does, Inv, Fits;
    e := Idle(Values(k.scheduler.ring));
    match a
    case Work(thread, stores) =>
      Compute(k, thread, stores);
    case SetState(st) =>
      PerformState(k, st);
      e := Update(st);
    case Spawn(eip) =>
      e := PerformSpawn(k, eip);
    case MapPage(addr) =>
      PerformMap(k, addr);
    case DropPage(addr) =>
      PerformDrop(k, addr);
  }

  /** The timer interrupt, as an act. */
  method PerformTick(k: Kernel) returns (ghost r: Interrupted, ended: bool)
    requires k.Ready()
    modifies k.machine, k.scheduler, k.scheduler.ring
    ensures k.Valid() && forall p :: p in k.scheduler.ring ==> p in old(k.scheduler.ring)
    ensures ended <==> Legal(old(Values(k.scheduler.ring)), Tick(r))
    ensures ended ==> k.Ready() && Values(k.scheduler.ring) == Step(old(Values(k.scheduler.ring)), Tick(r))
    ensures old(k.machine.tss) >= 20 && Timer.Trapped(old(k.machine.Running()), old(k.machine.tss) - 20, r)
    ensures ended && |old(k.scheduler.ring)| >= 2 ==> Timer.Loaded(k.machine, Values(k.scheduler.ring)[0])
    ensures StackOnly(old(Values(k.scheduler.ring)[0]), old(k.machine.mem), k.machine.mem)
    ensures fresh(k.Objects() - old(k.Objects()))
    ensures ended ==> Does(Interrupt, old(Now(k)), Tick(r), Now(k))
  {
    hide Inv, LiveAt, Fits, WellFormed, Linked, ProcessesOk, Legal, Step, StackOnly, Timer.Loaded, Timer.Trapped, Does;
    ghost var ds, p, at := Values(k.scheduler.ring), Now(k), k.machine.tss - 20;
    k.HeadOk();
    r, ended := k.TimerInterrupt(true);
    if ended {
      if |ds| < 2 { Timer.StepAlone(ds, r); } else { LoadedThread(k); }
      DoesTick(p, r, at, Now(k));
    }
  }

  lemma LoadedThread(k: Kernel)
    requires k.Ready() && Timer.Loaded(k.machine, Values(k.scheduler.ring)[0])
    ensures var d := Values(k.scheduler.ring)[0]; k.machine.Running() == Thread(d.seg, d.gen, d.frame)
  {
    hide Inv, LiveAt, Fits, WellFormed, Linked;
    assert ProcessOk(Values(k.scheduler.ring)[0], k.pager.heap.tree, k.pager.Abs());
  }

  /** One act. It fails to end only as an interrupt whose skip loop goes round for ever. */
  method Perform(k: Kernel, a: Act) returns (ended: bool, ghost e: Event)
    requires k.Ready() && Allowed(a)
    modifies k.machine, k.scheduler, k.scheduler.ring, k.pager, k.pager.heap, k.pager.heap.mem, k.pager.frames
    ensures k.Valid() && forall p :: p in k.scheduler.ring ==> p in old(k.scheduler.ring) || fresh(p)
    ensures Means(old(Values(k.scheduler.ring)), a, e)
    ensures ended <==> Legal(old(Values(k.scheduler.ring)), e)
    ensures !ended ==> a == Interrupt && e.Tick? && k.pager.Abs() == old(k.pager.Abs())
    ensures ended ==> k.Ready() && Values(k.scheduler.ring) == Step(old(Values(k.scheduler.ring)), e)
    ensures SpacesKept(old(k.pager.Abs()), k.pager.Abs(), old(k.scheduler.ring[0].directory))
    ensures StackOnly(old(Values(k.scheduler.ring)[0]), old(k.machine.mem), k.machine.mem)
    ensures ended ==> Does(a, old(Now(k)), e, Now(k))
  {
    hide Inv, LiveAt, Fits, WellFormed, Linked, ProcessesOk, Legal, Step;
    hide SpacesKept, AllKept, StackOnly, Timer.Loaded, Timer.Trapped, Does;
    ghost var ds, s := Values(k.scheduler.ring), k.pager.Abs();
    if a == Interrupt {
      SameSpaces(s);
      AllSpaces(s, s, k.scheduler.ring[0].directory);
      ghost var r;
      r, ended := PerformTick(k);
      e := Tick(r);
    } else {
      SameStacks(ds[0], k.machine.mem);
      ghost var p := Now(k);
      e := PerformOther(k, a);
      DoesParts(a, p, e, Now(k));
      ended := true;
    }
  }

  // ----- Runs

  /** `es` is what the first acts did, one event for each. */
  ghost predicate Traced(ds: seq<Desc>, acts: seq<Act>, es: seq<Event>)
    requires LegalRun(ds, es)
  {
    && |es| <= |acts|
    && forall i :: 0 <= i < |es| ==> DoneAt(ds, acts[i], es, i)
  }

  ghost predicate DoneAt(ds: seq<Desc>, a: Act, es: seq<Event>, i: nat)
    requires i < |es|
  {
    LegalRun(ds, es[..i]) && After(ds, es[..i]) != [] && Means(After(ds, es[..i]), a, es[i])
  }

  lemma TracedAppend(ds: seq<Desc>, acts: seq<Act>, es: seq<Event>, e: Event)
    requires LegalRun(ds, es) && Traced(ds, acts, es) && |es| < |acts|
    requires After(ds, es) != [] && Legal(After(ds, es), e) && Means(After(ds, es), acts[|es|], e)
    ensures LegalRun(ds, es + [e]) && Traced(ds, acts, es + [e])
  {
    hide Legal, Means, After;
    RunAppend(ds, es, e);
    var fs := es + [e];
    forall i | 0 <= i < |fs| ensures DoneAt(ds, acts[i], fs, i) {
      if i < |es| {
        assert DoneAt(ds, acts[i], es, i) && fs[..i] == es[..i];
      } else {
        assert fs[..i] == es;
      }
    }
  }

  /** What a process has in memory: its address space with the contents of its pages, and its
      kernel stack. */
  ghost predicate MemoryKept(d: Desc, s: State, m: Memory, s': State, m': Memory) {
    SpaceKept(s, s', d.directory) && forall x: nat :: InStack(d, x) ==> Load(m', x) == Load(m, x)
  }

  /** Processes of `ds` that were never current in the run keep all their memory. */
  ghost predicate MemorySurvives(ds: seq<Desc>, es: seq<Event>, s: State, m: Memory, s': State, m': Memory)
    requires LegalRun(ds, es)
  {
    forall d :: d in ds && NeverCurrent(ds, es, d.addr) ==> MemoryKept(d, s, m, s', m')
  }

  /** One act of another process. */
  lemma OtherMemory(q: seq<Desc>, d: Desc, t1: Tree, s1: State, m1: Memory, s2: State, m2: Memory)
    requires Fits(t1, HEAP_ORDER) && ProcessesOk(q, t1, s1) && d in q && q[0].addr != d.addr
    requires SpacesKept(s1, s2, q[0].directory) && StackOnly(q[0], m1, m2)
    ensures MemoryKept(d, s1, m1, s2, m2)
  {
    hide LiveAt, SpaceKept, InStack;
    assert q[0] in q && ProcessOk(d, t1, s1);
    forall x: nat | InStack(d, x) ensures Load(m2, x) == Load(m1, x) { StacksApart(q, t1, s1, d, q[0], x); }
  }

  lemma MemoryTrans(d: Desc, s: State, m: Memory, s1: State, m1: Memory, s2: State, m2: Memory)
    requires MemoryKept(d, s, m, s1, m1) && MemoryKept(d, s1, m1, s2, m2)
    ensures MemoryKept(d, s, m, s2, m2)
  {
    hide DirOk, Translate, Seen;
  }

  lemma SurviveStep(ds: seq<Desc>, es: seq<Event>, e: Event, t1: Tree,
                    s: State, m: Memory, s1: State, m1: Memory, s2: State, m2: Memory)
    requires WellFormed(ds) && LegalRun(ds, es) && MemorySurvives(ds, es, s, m, s1, m1)
    requires Fits(t1, HEAP_ORDER) && ProcessesOk(After(ds, es), t1, s1)
    requires After(ds, es) != [] && Legal(After(ds, es), e)
    requires SpacesKept(s1, s2, After(ds, es)[0].directory) && StackOnly(After(ds, es)[0], m1, m2)
    ensures LegalRun(ds, es + [e]) && MemorySurvives(ds, es + [e], s, m, s2, m2)
  {
    hide Legal, After, LiveAt, WellFormed, MemoryKept, SpacesKept, StackOnly, ProcessesOk;
    RunAppend(ds, es, e);
    forall d | d in ds && NeverCurrent(ds, es + [e], d.addr) ensures MemoryKept(d, s, m, s2, m2) {
      RunKeepsDescriptor(ds, es, d);
      OtherMemory(After(ds, es), d, t1, s1, m1, s2, m2);
      MemoryTrans(d, s, m, s1, m1, s2, m2);
    }
  }

  /** The acts lead from state to state, each doing what it should. */
  ghost predicate Through(acts: seq<Act>, ps: seq<Snapshot>, es: seq<Event>) {
    && |ps| == |es| + 1 && |es| <= |acts|
    && forall i :: 0 <= i < |es| ==> ps[i].ds != [] && Does(acts[i], ps[i], es[i], ps[i + 1])
  }

  lemma ThroughAppend(acts: seq<Act>, ps: seq<Snapshot>, es: seq<Event>, e: Event, q: Snapshot)
    requires Through(acts, ps, es) && |es| < |acts|
    requires ps[|es|].ds != [] && Does(acts[|es|], ps[|es|], e, q)
    ensures Through(acts, ps + [q], es + [e])
  {
    hide Does;
    var rs, fs := ps + [q], es + [e];
    forall i | 0 <= i < |fs| ensures rs[i].ds != [] && Does(acts[i], rs[i], fs[i], rs[i + 1]) {
      assert rs[i] == ps[i] && (i < |es| ==> rs[i + 1] == ps[i + 1] && fs[i] == es[i]);
    }
  }

  lemma StartThrough(acts: seq<Act>, p: Snapshot)
    ensures Through(acts, [p], [])
  {
  }

  /** Performs acts until one never ends: `n` of them, with events `es`, through the states
      `ps`; `m` is the kernel's stack memory after them. */
  method Run(k: Kernel, acts: seq<Act>)
    returns (n: nat, ghost es: seq<Event>, ghost m: Memory, ghost ps: seq<Snapshot>)
    requires k.Ready() && forall a :: a in acts ==> Allowed(a)
    modifies k.Objects()
    ensures k.Valid() && fresh(k.Objects() - old(k.Objects()))
    ensures n == |es| <= |acts|
    ensures var ds := old(Values(k.scheduler.ring)); LegalRun(ds, es) && Traced(ds, acts, es)
    ensures var ds := old(Values(k.scheduler.ring));
      if n == |acts| then k.Ready() && Values(k.scheduler.ring) == After(ds, es)
      else acts[n] == Interrupt && exists r :: !Legal(After(ds, es), Tick(r))
    ensures MemorySurvives(old(Values(k.scheduler.ring)), es, old(k.pager.Abs()), old(k.machine.mem), k.pager.Abs(), m)
    ensures var q := After(old(Values(k.scheduler.ring)), es);
      if n == |acts| then k.machine.mem == m else q != [] && StackOnly(q[0], m, k.machine.mem)
    ensures Through(acts, ps, es) && ps[0] == old(Now(k)) && (n == |acts| ==> ps[n] == Now(k))
  {
    hide Inv, LiveAt, Fits, WellFormed, Linked, ProcessesOk, Legal, Step, After, LegalRun, Means, NeverCurrent;
    hide SpacesKept, StackOnly, MemorySurvives, Traced, Timer.Loaded, Timer.Trapped, Does, Through;
    ghost var ds, s, m0 := Values(k.scheduler.ring), k.pager.Abs(), k.machine.mem;
    ghost var p0 := Now(k);
    n, es, m, ps := 0, [], m0, [p0];
    StartThrough(acts, p0);
    EmptyRun(ds, acts, k.pager.heap.tree, s, m0);
    while n < |acts|
      invariant n == |es| <= |acts| && k.Ready() && m == k.machine.mem
      invariant fresh(k.Objects() - old(k.Objects()))
      invariant LegalRun(ds, es) && Traced(ds, acts, es) && Values(k.scheduler.ring) == After(ds, es)
      invariant MemorySurvives(ds, es, s, m0, k.pager.Abs(), m)
      invariant Through(acts, ps, es) && |ps| == n + 1 && ps[0] == p0 && ps[n] == Now(k)
    {
      ghost var t1, s1 := k.pager.heap.tree, k.pager.Abs();
      ghost var e;
      var ended;
      assert forall o: object :: o in k.scheduler.ring ==> o in k.Objects();
      ended, e := Perform(k, acts[n]);
      if !ended {
        assert !Legal(After(ds, es), Tick(e.regs));
        return;
      }
      Extend(ds, acts, es, e, t1, s, m0, s1, m, k.pager.Abs(), k.machine.mem);
      ThroughAppend(acts, ps, es, e, Now(k));
      n, es, m, ps := n + 1, es + [e], k.machine.mem, ps + [Now(k)];
    }
  }

  /** What one more act adds to a run. */
  lemma Extend(ds: seq<Desc>, acts: seq<Act>, es: seq<Event>, e: Event, t1: Tree,
               s: State, m: Memory, s1: State, m1: Memory, s2: State, m2: Memory)
    requires WellFormed(ds) && LegalRun(ds, es) && MemorySurvives(ds, es, s, m, s1, m1)
    requires Traced(ds, acts, es) && |es| < |acts|
    requires Fits(t1, HEAP_ORDER) && ProcessesOk(After(ds, es), t1, s1)
    requires After(ds, es) != [] && Legal(After(ds, es), e) && Means(After(ds, es), acts[|es|], e)
    requires SpacesKept(s1, s2, After(ds, es)[0].directory) && StackOnly(After(ds, es)[0], m1, m2)
    ensures LegalRun(ds, es + [e]) && Traced(ds, acts, es + [e]) && MemorySurvives(ds, es + [e], s, m, s2, m2)
    ensures After(ds, es + [e]) == Step(After(ds, es), e)
  {
    hide *;
    TracedAppend(ds, acts, es, e);
    RunAppend(ds, es, e);
    SurviveStep(ds, es, e, t1, s, m, s1, m1, s2, m2);
  }

  lemma EmptyRun(ds: seq<Desc>, acts: seq<Act>, t: Tree, s: State, m: Memory)
    requires Inv(s) && Fits(t, HEAP_ORDER) && ProcessesOk(ds, t, s)
    ensures LegalRun(ds, []) && Traced(ds, acts, []) && After(ds, []) == ds && MemorySurvives(ds, [], s, m, s, m)
  {
    hide Inv, SpaceKept, LiveAt;
    SameSpaces(s);
    forall d | d in ds ensures MemoryKept(d, s, m, s, m) { assert ProcessOk(d, t, s); }
  }

  function Interrupts(acts: seq<Act>): nat {
    if acts == [] then 0 else (if acts[0] == Interrupt then 1 else 0) + Interrupts(acts[1..])
  }

  lemma {:induction false} TicksAreInterrupts(acts: seq<Act>, es: seq<Event>)
    requires |es| == |acts| && forall i :: 0 <= i < |es| ==> (es[i].Tick? <==> acts[i] == Interrupt)
    ensures Ticks(es) == Interrupts(acts)
    decreases |acts|
  {
    if acts != [] {
      assert forall i :: 0 <= i < |es| - 1 ==> es[1..][i] == es[i + 1] && acts[1..][i] == acts[i + 1];
      TicksAreInterrupts(acts[1..], es[1..]);
    }
  }

  /** A running process `d` places behind the current one is current at some point of any
      completed run with `d` timer interrupts, whatever else happens in it. */
  lemma ServedInTime(ds: seq<Desc>, acts: seq<Act>, es: seq<Event>, a: nat, d: nat) returns (n: nat)
    requires LegalRun(ds, es) && Traced(ds, acts, es) && |es| == |acts|
    requires Waits(ds, a, d) && Interrupts(acts) >= d
    ensures n <= |acts| && LegalRun(ds, es[..n]) && Interrupts(acts[..n]) <= d
    ensures Waits(After(ds, es[..n]), a, 0)
  {
    hide LegalRun, After, Waits;
    forall i | 0 <= i < |es| ensures es[i].Tick? <==> acts[i] == Interrupt {
      assert DoneAt(ds, acts[i], es, i);
    }
    TicksAreInterrupts(acts, es);
    n := BoundedWaiting(ds, es, a, d);
    TicksAreInterrupts(acts[..n], es[..n]);
  }

  /** When the process of an interrupted user thread, not current in between, is current
      again after a timer interrupt. */
  lemma BackAgain(ds: seq<Desc>, r: Interrupted, t: Thread, a: Word, es: seq<Event>, e: Event, m: Machine)
    requires WellFormed(ds) && |ds| >= 2 && ds[0].state == Running && Legal(ds, Tick(r))
    requires Timer.Trapped(t, a, r) && UserMode(t.frame.cs) && t.gen.esp == 0
    requires var next := Step(ds, Tick(r));
      && LegalRun(next, es) && Legal(After(next, es), e) && LegalRun(next, es + [e])
      && NeverCurrent(next, es + [e], ds[0].addr)
      && var last := Step(After(next, es), e);
        && last != [] && last[0].addr == ds[0].addr
        && (|After(next, es)| >= 2 ==> Timer.Loaded(m, last[0]))
    ensures m.Running() == t && m.cr3 == ds[0].directory - KERNEL_BASE
    ensures Save(ds[0], r) in Step(ds, Tick(r)) && NeverCurrent(Step(ds, Tick(r)), es, ds[0].addr)
    ensures Step(After(Step(ds, Tick(r)), es), e)[0].directory == ds[0].directory
  {
    hide Timer.Loaded, Timer.Trapped, Step, Legal, Save, WellFormed, NeverCurrent;
    var next := Step(ds, Tick(r));
    RunAppend(next, es, e);
    SavedStays(ds, r);
    StepWellFormed(ds, Tick(r));
    SavedAddr(ds[0], r);
    RunKeepsDescriptor(next, es, Save(ds[0], r));
    assert |After(next, es)| >= 2;
    Timer.UserThreadResumes(ds, r, t, a, es + [e], m);
    ContextPreserved(ds, r, es + [e]);
  }

  lemma SavedAddr(d: Desc, r: Interrupted)
    ensures Save(d, r).addr == d.addr && Save(d, r).directory == d.directory
  {
  }

  lemma Survived(ds: seq<Desc>, d: Desc, es: seq<Event>, s: State, m: Memory, s': State, m': Memory)
    requires LegalRun(ds, es) && MemorySurvives(ds, es, s, m, s', m') && d in ds && NeverCurrent(ds, es, d.addr)
    ensures SpaceKept(s, s', d.directory)
  {
    hide SpaceKept, NeverCurrent;
    assert MemoryKept(d, s, m, s', m');
  }

  /** Acts, and then a timer interrupt `x`; `m` is the kernel's stack memory before it. */
  method RunThenTick(k: Kernel, acts: seq<Act>)
    returns (ended: bool, ghost es: seq<Event>, ghost x: Interrupted, ghost m: Memory)
    requires k.Ready() && forall a :: a in acts ==> Allowed(a)
    modifies k.Objects()
    ensures ended ==> k.Ready()
    ensures ended ==>
      var ds := old(Values(k.scheduler.ring));
      && LegalRun(ds, es) && Traced(ds, acts, es) && |es| == |acts| && After(ds, es) != []
      && Legal(After(ds, es), Tick(x)) && Values(k.scheduler.ring) == Step(After(ds, es), Tick(x))
      && MemorySurvives(ds, es, old(k.pager.Abs()), old(k.machine.mem), k.pager.Abs(), m)
      && (|After(ds, es)| >= 2 ==> Timer.Loaded(k.machine, Values(k.scheduler.ring)[0]))
  {
    hide Inv, LiveAt, Fits, WellFormed, Linked, ProcessesOk, Legal, Step, After, LegalRun, Means, NeverCurrent;
    hide SpacesKept, StackOnly, MemorySurvives, Traced, Timer.Loaded, Timer.Trapped;
    var n;
    ghost var ps;
    n, es, m, ps := Run(k, acts);
    if n < |acts| {
      x := Interrupted(Segments(0, 0, 0, 0), General(0, 0, 0, 0, 0, 0, 0, 0), Frame(0, 0, 0, 0, 0));
      return false, es, x, m;
    }
    assert forall o: object :: o in k.scheduler.ring ==> o in k.Objects();
    x, ended := PerformTick(k);
  }

  /** A user thread is interrupted, anything happens, and the timer interrupts again. If its
      process was not current in between and is now, the thread goes on with every register
      it had, in the same address space and with the same bytes everywhere in it, whatever
      the others did and stored. */
  method RoundTrip(k: Kernel, acts: seq<Act>) returns (ended: bool, ghost r: Interrupted, ghost es: seq<Event>)
    requires k.Ready() && forall a :: a in acts ==> Allowed(a)
    requires |k.scheduler.ring| >= 2 && k.scheduler.ring[0].state == Running
    modifies k.Objects()
    ensures ended ==> k.Ready() && Legal(old(Values(k.scheduler.ring)), Tick(r))
    ensures ended ==>
      var ds := Step(old(Values(k.scheduler.ring)), Tick(r));
      && LegalRun(ds, es) && Traced(ds, acts + [Interrupt], es) && |es| == |acts| + 1
      && Values(k.scheduler.ring) == After(ds, es)
    ensures ended ==>
      var ds, addr := Step(old(Values(k.scheduler.ring)), Tick(r)), old(k.scheduler.ring[0].addr);
      NeverCurrent(ds, es, addr) && k.scheduler.ring[0].addr == addr ==>
        && k.machine.Running() == old(k.machine.Running()) && k.machine.cr3 == old(k.machine.cr3)
        && SpaceKept(old(k.pager.Abs()), k.pager.Abs(), old(k.scheduler.ring[0].directory))
  {
    hide Inv, LiveAt, Fits, WellFormed, Linked, ProcessesOk, Legal, Step, After, LegalRun, Means, NeverCurrent;
    hide SpacesKept, StackOnly, MemorySurvives, Traced, Timer.Loaded, Timer.Trapped, SpaceKept, Save;
    ghost var ds, s, t := Values(k.scheduler.ring), k.pager.Abs(), k.machine.Running();
    es := [];
    ghost var a := k.machine.tss - 20;
    assert forall o: object :: o in k.scheduler.ring ==> o in k.Objects();
    r, ended := PerformTick(k);
    if !ended { return; }
    ghost var ds1, m1 := Values(k.scheduler.ring), k.machine.mem;
    ghost var x, m2;
    ended, es, x, m2 := RunThenTick(k, acts);
    if !ended { return; }
    RunTraced(ds1, acts, es, Tick(x));
    Conclude(ds, r, t, a, es, Tick(x), k.machine, s, m1, k.pager.Abs(), m2);
    es := es + [Tick(x)];
  }

  /** What holds when the second interrupt of a round trip has ended. */
  lemma Conclude(ds: seq<Desc>, r: Interrupted, t: Thread, a: Word, es: seq<Event>, e: Event, m: Machine,
                 s: State, m1: Memory, s': State, m2: Memory)
    requires WellFormed(ds) && |ds| >= 2 && ds[0].state == Running && Legal(ds, Tick(r))
    requires Timer.Trapped(t, a, r) && UserMode(t.frame.cs) && t.gen.esp == 0
    requires var next := Step(ds, Tick(r));
      && LegalRun(next, es) && Legal(After(next, es), e) && LegalRun(next, es + [e])
      && MemorySurvives(next, es, s, m1, s', m2)
      && var last := Step(After(next, es), e);
        last != [] && (|After(next, es)| >= 2 ==> Timer.Loaded(m, last[0]))
    ensures var next := Step(ds, Tick(r));
      NeverCurrent(next, es + [e], ds[0].addr) && Step(After(next, es), e)[0].addr == ds[0].addr ==>
        && m.Running() == t && m.cr3 == ds[0].directory - KERNEL_BASE
        && SpaceKept(s, s', ds[0].directory)
  {
    hide Timer.Loaded, Timer.Trapped, Step, Legal, Save, WellFormed, NeverCurrent, SpaceKept, MemorySurvives, After;
    var next := Step(ds, Tick(r));
    if NeverCurrent(next, es + [e], ds[0].addr) && Step(After(next, es), e)[0].addr == ds[0].addr {
      BackAgain(ds, r, t, a, es, e, m);
      SavedAddr(ds[0], r);
      Survived(next, Save(ds[0], r), es, s, m1, s', m2);
    }
  }

  lemma RunTraced(ds: seq<Desc>, acts: seq<Act>, es: seq<Event>, e: Event)
    requires LegalRun(ds, es) && Traced(ds, acts, es) && |es| == |acts|
    requires After(ds, es) != [] && Legal(After(ds, es), e) && e.Tick?
    ensures LegalRun(ds, es + [e]) && Traced(ds, acts + [Interrupt], es + [e])
    ensures After(ds, es + [e]) == Step(After(ds, es), e)
  {
    hide Legal, After;
    RunAppend(ds, es, e);
    forall i | 0 <= i < |es| ensures DoneAt(ds, (acts + [Interrupt])[i], es, i) { assert DoneAt(ds, acts[i], es, i); }
    TracedAppend(ds, acts + [Interrupt], es, e);
  }
}
