/** A whole timer interrupt: processor entry, `timer_handler_wrapper`, `timer_handler`
    (arch/x86/drivers/timer.c:40-49), `switch_process` and `switch_context`. */
module Timer {
  import opened Bits
  import PageTables
  import opened Context
  import opened Ring
  import opened Process

  /** What the handler gets for an interrupted thread whose frame is at address `a`. The
      stack fields of a kernel thread's frame are whatever lies above it. */
  ghost predicate Trapped(t: Thread, a: Word, r: Interrupted) {
    && r.seg == t.seg && r.gen == t.gen.(esp := a)
    && r.frame.eip == t.frame.eip && r.frame.cs == t.frame.cs && r.frame.eflags == t.frame.eflags
    && (UserMode(t.frame.cs) ==> r.frame == t.frame)
  }

  /** Where the interrupt frame of the running thread is put. */
  ghost function FrameAddress(m: Machine): int
    reads m
  {
    if UserMode(m.cs) then m.tss - 20 else m.esp - 12
  }

  /** Top of the stack that an interrupt uses. */
  ghost function StackTop(m: Machine): nat
    reads m
  {
    if UserMode(m.cs) then m.tss else m.esp
  }

  /** The processor runs what descriptor `d` describes. */
  ghost predicate Loaded(m: Machine, d: Desc)
    reads m
  {
    && m.Seg() == d.seg && m.Gen(0) == d.gen.(esp := 0)
    && m.cr3 == d.directory - PageTables.KERNEL_BASE && m.tss == d.esp0
    && (d.gen.esp == 0 && UserMode(d.frame.cs) ==> m.Running() == Thread(d.seg, d.gen, d.frame))
    && (d.gen.esp != 0 ==>
      var f := FrameAt(m.mem, d.gen.esp);
      && m.eip == f.eip && m.cs == f.cs && m.eflags == f.eflags
      && (!UserMode(f.cs) ==> m.esp == d.gen.esp + 12))
  }

  /** The handler's arguments lie on the stack. */
  ghost predicate Arguments(m: Machine, r: Interrupted)
    reads m
  {
    && SegmentsAt(m.mem, m.esp) == r.seg && GeneralAt(m.mem, m.esp + 16) == r.gen
    && FrameAt(m.mem, m.esp + 48) == r.frame
  }

  /** Words that fit the registers they are loaded into. */
  predicate Loadable(d: Desc) {
    PageTables.KERNEL_BASE <= d.directory < WORD && d.gen.esp + 20 < WORD
  }

  /** Entry and register saving: the handler's arguments describe the interrupted thread. */
  method Enter(m: Machine) returns (r: Interrupted)
    requires 200 <= FrameAddress(m)
    modifies m
    ensures m.esp == old(FrameAddress(m)) - 48
    ensures Trapped(old(m.Running()), m.esp + 48, r)
    ensures Arguments(m, r) && m.Seg() == Segments(0x10, 0x10, 0x10, 0x10)
    ensures m.Gen(0).(eax := 0) == old(m.Gen(0)).(eax := 0) && m.eax % 0x1_0000 == 0x10
    ensures m.ss == old(m.ss) && m.cr3 == old(m.cr3) && m.tss == old(m.tss)
    ensures SameBut(old(m.mem), m.mem, m.esp, old(StackTop(m)))
  {
    hide SameBut, GeneralAt, SegmentsAt;
    ghost var mem0, top := m.mem, StackTop(m);
    m.Interrupt();
    ghost var mem, a := m.mem, m.esp;
    m.SaveRegisters();
    FrameKept(mem, m.mem, m.esp, a);
    SameButBelow(mem0, mem, m.mem, m.esp, a, top);
    r := Interrupted(SegmentsAt(m.mem, m.esp), GeneralAt(m.mem, m.esp + 16), FrameAt(m.mem, m.esp + 48));
  }

  /** The kernel stack set and `switch_context` called for a process
      (kernel/proc/process.c:22-23 and 86-88). */
  method LoadProcess(m: Machine, p: Process)
    requires 76 <= m.esp < WORD - 20 && Loadable(p.Value())
    modifies m
    ensures Loaded(m, p.Value()) && SameBut(old(m.mem), m.mem, old(m.esp) - 76, old(m.esp))
  {
    m.tss := p.esp0;
    m.CallSwitchContext(p.seg, p.gen, p.frame, p.directory - PageTables.KERNEL_BASE, 0);
  }

  /** The way back out when the handler did not switch. */
  method Leave(m: Machine, r: Interrupted, ghost t: Thread)
    requires 200 <= m.esp + 48 < WORD - 100 && Trapped(t, m.esp + 48, r) && t.gen.esp == 0
    requires Arguments(m, r)
    requires UserMode(t.frame.cs) || (t.frame.esp == m.esp + 60 && t.frame.ss == m.ss)
    modifies m
    ensures m.Running() == t && m.cr3 == old(m.cr3) && m.tss == old(m.tss) && m.mem == old(m.mem)
  {
    assert Load(m.mem, m.esp + 44) == GeneralAt(m.mem, m.esp + 16).esp;
    m.RestoreRegisters();
  }

  /** The timer interrupt. Without a switch the interrupted thread goes on unchanged;
      with one, the process that the ring's step makes current is loaded. It never ends,
      and false is returned, exactly when a switch has no process to run. Of memory, only
      the 124 bytes below the interrupt frame and the frame itself change. */
  method TimerInterrupt(m: Machine, s: Scheduler, enabled: bool) returns (ghost r: Interrupted, ended: bool)
    requires s.Valid() && AllLoadable(Values(s.ring))
    requires 200 <= FrameAddress(m) < WORD - 100
    modifies m, s, s.ring
    ensures s.Valid() && AllLoadable(Values(s.ring)) && forall p :: p in s.ring ==> p in old(s.ring)
    ensures Trapped(old(m.Running()), old(FrameAddress(m)), r)
    ensures ended <==> !enabled || Legal(old(Values(s.ring)), Tick(r))
    ensures ended ==>
      if enabled && |old(s.ring)| >= 2
      then Values(s.ring) == Step(old(Values(s.ring)), Tick(r)) && s.ring != [] && Loaded(m, Values(s.ring)[0])
      else
        && Values(s.ring) == old(Values(s.ring))
        && m.Running() == old(m.Running()) && m.cr3 == old(m.cr3) && m.tss == old(m.tss)
    ensures !ended ==> Values(s.ring) == Candidates(old(Values(s.ring)), r)
    ensures SameBut(old(m.mem), m.mem, old(FrameAddress(m)) - 124, old(StackTop(m)))
  {
    hide Linked, WellFormed, Step, Legal, Candidates, Loadable, SameBut, Loaded, Trapped, Arguments;
    ghost var t, mem, top := m.Running(), m.mem, StackTop(m);
    var regs := Enter(m);
    ghost var mem1, a := m.mem, m.esp;
    r, ended := regs, true;
    if enabled {
      ghost var ds := Values(s.ring);
      var outcome := s.SwitchProcess(regs);
      TrappedStack(t, a + 48, regs);
      if outcome != Alone { SwitchLoadable(ds, regs); }
      match outcome
      case Skipping =>
        SameButSlack(mem, mem1, a, top);
        return r, false;
      case Switched =>
        assert Values(s.ring)[0] == s.current.Value();
        LoadProcess(m, s.current);
        SameButBelow(mem, mem1, m.mem, a - 76, a, top);
        return;
      case Alone => StepAlone(ds, regs);
    }
    Leave(m, regs, t);
    SameButSlack(mem, mem1, a, top);
  }

  /** Changes above `a`, then below it. */
  lemma SameButBelow(m: Memory, m1: Memory, m2: Memory, b: nat, a: nat, top: nat)
    requires b <= a <= top && SameBut(m, m1, a, top) && SameBut(m1, m2, b, a)
    ensures SameBut(m, m2, b, top)
  {
  }

  lemma TrappedStack(t: Thread, a: Word, r: Interrupted)
    requires Trapped(t, a, r)
    ensures r.gen.esp == a
  {
  }

  lemma FrameKept(m: Memory, m': Memory, b: nat, a: nat)
    requires SameBut(m, m', b, a)
    ensures FrameAt(m', a) == FrameAt(m, a)
  {
  }

  lemma SameButSlack(m: Memory, m1: Memory, a: nat, top: nat)
    requires 76 <= a && SameBut(m, m1, a, top)
    ensures SameBut(m, m1, a - 76, top)
  {
  }

  lemma StepAlone(ds: seq<Desc>, r: Interrupted)
    requires |ds| <= 1 && Legal(ds, Tick(r))
    ensures Step(ds, Tick(r)) == ds
  {
  }

  ghost predicate AllLoadable(ds: seq<Desc>) {
    forall d :: d in ds ==> Loadable(d)
  }

  /** A switch keeps directories, and the stack words it saves are the interrupted one's
      or zero. */
  lemma SwitchLoadable(ds: seq<Desc>, r: Interrupted)
    requires |ds| >= 2 && AllLoadable(ds) && r.gen.esp + 20 < WORD
    ensures AllLoadable(Candidates(ds, r))
    ensures Legal(ds, Tick(r)) ==> Step(ds, Tick(r)) != [] && AllLoadable(Step(ds, Tick(r)))
  {
    assert ds[0] in ds;
    forall d | d in Candidates(ds, r) ensures Loadable(d) { CandidatesFrom(ds, r, d); }
    if Legal(ds, Tick(r)) {
      forall d | d in Step(ds, Tick(r)) ensures Loadable(d) { SwitchFrom(ds, r, d); }
    }
  }

  /** A user thread that was interrupted while its process ran is on the processor again,
      register for register, once that process's descriptor is loaded, however many
      switches, creations and state changes lie between. */
  lemma UserThreadResumes(ring: seq<Desc>, r: Interrupted, t: Thread, a: Word, es: seq<Event>, m: Machine)
    requires WellFormed(ring) && |ring| >= 2 && ring[0].state == Running && Legal(ring, Tick(r))
    requires Trapped(t, a, r) && UserMode(t.frame.cs) && t.gen.esp == 0
    requires var next := Step(ring, Tick(r));
      && LegalRun(next, es) && NeverCurrent(next, es, ring[0].addr)
      && After(next, es) != [] && After(next, es)[0].addr == ring[0].addr
    requires Loaded(m, After(Step(ring, Tick(r)), es)[0])
    ensures m.Running() == t && m.cr3 == ring[0].directory - PageTables.KERNEL_BASE
  {
    ContextPreserved(ring, r, es);
  }

  /** A kernel thread resumes with its segment and general registers on its own stack,
      where the interrupt left its frame, exactly when those three words are intact. */
  lemma KernelThreadResumes(ring: seq<Desc>, r: Interrupted, t: Thread, a: Word, es: seq<Event>, m: Machine)
    requires WellFormed(ring) && |ring| >= 2 && ring[0].state == Running && Legal(ring, Tick(r))
    requires Trapped(t, a, r) && !UserMode(t.frame.cs) && t.gen.esp == 0
    requires 0 < a && t.frame.esp == a + 12
    requires var next := Step(ring, Tick(r));
      && LegalRun(next, es) && NeverCurrent(next, es, ring[0].addr)
      && After(next, es) != [] && After(next, es)[0].addr == ring[0].addr
    requires Loaded(m, After(Step(ring, Tick(r)), es)[0])
    ensures m.cr3 == ring[0].directory - PageTables.KERNEL_BASE && m.Seg() == t.seg && m.Gen(0) == t.gen
    ensures m.Running() == t.(frame := t.frame.(ss := m.ss)) <==>
      Load(m.mem, a) == t.frame.eip && Load(m.mem, a + 4) == t.frame.cs && Load(m.mem, a + 8) == t.frame.eflags
  {
    ContextPreserved(ring, r, es);
  }
}
