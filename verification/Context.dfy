/** Saving and restoring processor state: the interrupt entry, `timer_handler_wrapper`
    (arch/x86/drivers/timer.s) and `switch_context` (kernel/proc/process.s). */
module Context {
  import opened Bits

  datatype Segments = Segments(ds: Word, es: Word, fs: Word, gs: Word)

  /** arch/x86/core/registers.h:7-16, in memory order. */
  datatype General = General(edi: Word, esi: Word, ebp: Word, ebx: Word, edx: Word, ecx: Word, eax: Word, esp: Word)

  /** The words an interrupt pushes, in memory order; `esp` and `ss` only when it came
      from user mode. */
  datatype Frame = Frame(eip: Word, cs: Word, eflags: Word, esp: Word, ss: Word)

  /** Registers of the interrupted or resumed thread. `gen.esp` is not a register of its
      own here: the stack pointer is `frame.esp`. */
  datatype Thread = Thread(seg: Segments, gen: General, frame: Frame)

  type Memory = map<nat, Word>

  /** The word at an address; memory never written reads as zero. */
  function Load(m: Memory, a: nat): Word {
    if a in m then m[a] else 0
  }

  function SegmentsAt(m: Memory, a: nat): Segments {
    Segments(Load(m, a), Load(m, a + 4), Load(m, a + 8), Load(m, a + 12))
  }

  function GeneralAt(m: Memory, a: nat): General {
    General(Load(m, a), Load(m, a + 4), Load(m, a + 8), Load(m, a + 12),
            Load(m, a + 16), Load(m, a + 20), Load(m, a + 24), Load(m, a + 28))
  }

  function FrameAt(m: Memory, a: nat): Frame {
    Frame(Load(m, a), Load(m, a + 4), Load(m, a + 8), Load(m, a + 12), Load(m, a + 16))
  }

  /** The structs in memory, field by field at their byte offsets
      (arch/x86/core/registers.h:6-23). */
  lemma StructLayout(m: Memory, a: nat)
    ensures var s, g, f := SegmentsAt(m, a), GeneralAt(m, a), FrameAt(m, a);
      && s.ds == Load(m, a) && s.es == Load(m, a + 4) && s.fs == Load(m, a + 8) && s.gs == Load(m, a + 12)
      && g.edi == Load(m, a) && g.esi == Load(m, a + 4) && g.ebp == Load(m, a + 8) && g.ebx == Load(m, a + 12)
      && g.edx == Load(m, a + 16) && g.ecx == Load(m, a + 20) && g.eax == Load(m, a + 24)
      && g.esp == Load(m, a + 28)
      && f.eip == Load(m, a) && f.cs == Load(m, a + 4) && f.eflags == Load(m, a + 8)
      && f.esp == Load(m, a + 12) && f.ss == Load(m, a + 16)
  {
  }

  /** An outer privilege level: the interrupt changes stacks. */
  predicate UserMode(cs: Word) {
    cs % 4 != 0
  }

  /** Bytes `[a, e)` of two memories may differ, nothing else. */
  ghost predicate SameBut(m: Memory, m': Memory, a: nat, e: nat) {
    forall x: nat :: !(a <= x < e) ==> Load(m', x) == Load(m, x)
  }

  class Machine {
    var ds: Word var es: Word var fs: Word var gs: Word
    var edi: Word var esi: Word var ebp: Word var ebx: Word
    var edx: Word var ecx: Word var eax: Word var esp: Word
    var eip: Word var cs: Word var eflags: Word var ss: Word
    var cr3: Word
    /** `tss.esp0`: the kernel stack for interrupts from user mode. */
    var tss: Word
    var mem: Memory

    constructor () {
      ds, es, fs, gs, edi, esi, ebp, ebx := 0, 0, 0, 0, 0, 0, 0, 0;
      edx, ecx, eax, esp, eip, cs, eflags, ss, cr3, tss := 0, 0, 0, 0, 0, 0, 0, 0, 0, 0;
      mem := map[];
    }

    ghost function Seg(): Segments
      reads this
    {
      Segments(ds, es, fs, gs)
    }

    /** The general registers, with `sp` in the extra stack slot. */
    ghost function Gen(sp: Word): General
      reads this
    {
      General(edi, esi, ebp, ebx, edx, ecx, eax, sp)
    }

    /** The running thread. */
    ghost function Running(): Thread
      reads this
    {
      Thread(Seg(), Gen(0), Frame(eip, cs, eflags, esp, ss))
    }

    /** User code runs: it leaves any registers, but keeps the page directory and the task
        state segment. */
    method Compute(t: Thread)
      modifies this
      ensures Running() == t.(gen := t.gen.(esp := 0))
      ensures mem == old(mem) && cr3 == old(cr3) && tss == old(tss)
    {
      SetRegisters(t.seg, t.gen);
      eip, cs, eflags, esp, ss := t.frame.eip, t.frame.cs, t.frame.eflags, t.frame.esp, t.frame.ss;
    }

    method SetRegisters(seg: Segments, gen: General)
      modifies this`ds, this`es, this`fs, this`gs, this`edi, this`esi, this`ebp, this`ebx, this`edx, this`ecx, this`eax
      ensures Seg() == seg && Gen(0) == gen.(esp := 0)
    {
      ds, es, fs, gs := seg.ds, seg.es, seg.fs, seg.gs;
      edi, esi, ebp, ebx := gen.edi, gen.esi, gen.ebp, gen.ebx;
      edx, ecx, eax := gen.edx, gen.ecx, gen.eax;
    }

    method Push(v: Word)
      requires esp >= 4
      modifies this`esp, this`mem
      ensures esp == old(esp) - 4 && mem == old(mem)[esp := v]
    {
      esp := esp - 4;
      mem := mem[esp := v];
    }

    method Pop() returns (v: Word)
      requires esp + 4 < WORD
      modifies this`esp
      ensures v == Load(mem, old(esp)) && esp == old(esp) + 4
    {
      v := if esp in mem then mem[esp] else 0;
      esp := esp + 4;
    }

    /** The processor's interrupt entry: from user mode it moves to the kernel stack and
        saves the user stack first; then flags, code segment and instruction pointer. The
        handler's own `cs` and `eip` are not modelled. */
    method Interrupt()
      requires (if UserMode(cs) then tss else esp) >= 20
      modifies this`esp, this`mem
      ensures var top := old(if UserMode(cs) then tss else esp);
        && esp == (if UserMode(cs) then top - 20 else top - 12)
        && Load(mem, esp) == eip && Load(mem, esp + 4) == cs && Load(mem, esp + 8) == eflags
        && (UserMode(cs) ==> Load(mem, esp + 12) == old(esp) && Load(mem, esp + 16) == ss)
        && SameBut(old(mem), mem, esp, top)
    {
      if UserMode(cs) {
        var sp := esp;
        esp := tss;
        Push(ss);
        Push(sp);
      }
      Push(eflags);
      Push(cs);
      Push(eip);
    }

    /** Four pushes in a row. */
    method PushFour(a: Word, b: Word, c: Word, d: Word)
      requires esp >= 16
      modifies this`esp, this`mem
      ensures esp == old(esp) - 16
      ensures Load(mem, esp) == d && Load(mem, esp + 4) == c && Load(mem, esp + 8) == b && Load(mem, esp + 12) == a
      ensures SameBut(old(mem), mem, esp, old(esp))
    {
      Push(a);
      Push(b);
      Push(c);
      Push(d);
    }

    /** The general registers pushed in the order of `gen_register_set`. `push esp`
        stores the value before the push: the address of the interrupt frame. */
    method PushGeneral()
      requires esp >= 32
      modifies this`esp, this`mem
      ensures esp == old(esp) - 32 && GeneralAt(mem, esp) == Gen(old(esp))
      ensures SameBut(old(mem), mem, esp, old(esp))
    {
      PushFour(esp, eax, ecx, edx);
      PushFour(ebx, ebp, esi, edi);
    }

    method PushSegments()
      requires esp >= 16
      modifies this`esp, this`mem
      ensures esp == old(esp) - 16 && SegmentsAt(mem, esp) == Seg()
      ensures SameBut(old(mem), mem, esp, old(esp))
    {
      PushFour(gs, fs, es, ds);
    }

    method PopSegments()
      requires esp + 16 < WORD
      modifies this`esp, this`ds, this`es, this`fs, this`gs
      ensures esp == old(esp) + 16 && Seg() == SegmentsAt(mem, old(esp))
    {
      ds := Pop();
      es := Pop();
      fs := Pop();
      gs := Pop();
    }

    /** All general registers but the stack pointer. */
    method PopGeneral()
      requires esp + 28 < WORD
      modifies this`esp, this`edi, this`esi, this`ebp, this`ebx, this`edx, this`ecx, this`eax
      ensures esp == old(esp) + 28 && Gen(0) == GeneralAt(mem, old(esp)).(esp := 0)
    {
      PopIndex();
      edx := Pop();
      ecx := Pop();
      eax := Pop();
    }

    method PopIndex()
      requires esp + 16 < WORD
      modifies this`esp, this`edi, this`esi, this`ebp, this`ebx
      ensures esp == old(esp) + 16
      ensures edi == Load(mem, old(esp)) && esi == Load(mem, old(esp) + 4)
      ensures ebp == Load(mem, old(esp) + 8) && ebx == Load(mem, old(esp) + 12)
    {
      edi := Pop();
      esi := Pop();
      ebp := Pop();
      ebx := Pop();
    }

    /** The pops that both ways out share. */
    method PopRegisters()
      requires esp + 44 < WORD
      modifies this`esp, this`edi, this`esi, this`ebp, this`ebx, this`edx, this`ecx, this`eax,
        this`ds, this`es, this`fs, this`gs
      ensures esp == old(esp) + 44
      ensures Seg() == SegmentsAt(mem, old(esp)) && Gen(0) == GeneralAt(mem, old(esp) + 16).(esp := 0)
    {
      PopSegments();
      PopGeneral();
    }

    /** `timer_handler_wrapper` up to its call (arch/x86/drivers/timer.s:3-28). */
    method SaveRegisters()
      requires esp >= 48
      modifies this`esp, this`mem, this`eax, this`ds, this`es, this`fs, this`gs
      ensures esp == old(esp) - 48
      ensures SegmentsAt(mem, esp) == old(Seg()) && GeneralAt(mem, esp + 16) == old(Gen(esp))
      ensures Seg() == Segments(0x10, 0x10, 0x10, 0x10) && eax == old(eax) / 0x1_0000 * 0x1_0000 + 0x10
      ensures SameBut(old(mem), mem, esp, old(esp))
    {
      PushGeneral();
      PushSegments();
      eax := eax / 0x1_0000 * 0x1_0000 + 0x10;
      ds, es, fs, gs := 0x10, 0x10, 0x10, 0x10;
    }

    /** `iret`: back to user mode it also restores the user's stack. */
    method InterruptReturn()
      requires esp + 20 < WORD
      modifies this`esp, this`eip, this`cs, this`eflags, this`ss
      ensures Resumes(FrameAt(mem, old(esp)), old(esp) + 12, old(ss))
    {
      eip := Pop();
      cs := Pop();
      eflags := Pop();
      if UserMode(cs) {
        var sp := Pop();
        ss := Pop();
        esp := sp;
      }
    }

    /** Execution continues where frame `f` says; `sp` and `stackSegment` are the stack
        when `f` is a kernel frame. */
    ghost predicate Resumes(f: Frame, sp: nat, stackSegment: Word)
      reads this
    {
      && eip == f.eip && cs == f.cs && eflags == f.eflags
      && if UserMode(f.cs) then esp == f.esp && ss == f.ss else esp == sp && ss == stackSegment
    }

    /** The wrapper after a handler that did not switch (arch/x86/drivers/timer.s:30-46). */
    method RestoreRegisters()
      requires esp + 48 < WORD && Load(mem, esp + 44) + 20 < WORD
      modifies this`esp, this`edi, this`esi, this`ebp, this`ebx, this`edx, this`ecx, this`eax,
        this`ds, this`es, this`fs, this`gs, this`eip, this`cs, this`eflags, this`ss
      ensures Seg() == SegmentsAt(mem, old(esp)) && Gen(0) == GeneralAt(mem, old(esp) + 16).(esp := 0)
      ensures var sp := Load(mem, old(esp) + 44); Resumes(FrameAt(mem, sp), sp + 12, old(ss))
    {
      PopRegisters();
      var sp := Pop();
      esp := sp;
      InterruptReturn();
    }

    /** Drops the return address and activates the page directory passed last
        (kernel/proc/process.s:5-37). */
    method LoadDirectory()
      requires esp + 72 < WORD
      modifies this`esp, this`ebp, this`eax, this`cr3
      ensures esp == old(esp) + 4 && cr3 == Load(mem, esp + 68)
    {
      esp := esp + 4;
      ebp := esp;
      eax := eax / 0x100 * 0x100 + 0x20;
      eax := if ebp + 68 in mem then mem[ebp + 68] else 0;
      cr3 := eax;
    }

    /** Steps over a zero stack word, or moves to the stack it names
        (kernel/proc/process.s:54-60). */
    method ChooseFrame()
      requires esp + 4 < WORD
      modifies this`esp
      ensures esp == if Load(mem, old(esp)) == 0 then old(esp) + 4 else Load(mem, old(esp))
    {
      if (if esp in mem then mem[esp] else 0) == 0 {
        esp := esp + 4;
      } else {
        var sp := Pop();
        esp := sp;
      }
    }

    /** `switch_context` (kernel/proc/process.s:4-63), entered with its arguments above
        the return address: segments, general registers, frame, page directory. A zero
        stack word means the frame to return through is the argument itself; otherwise
        the word points to the frame left on a kernel thread's own stack. */
    method SwitchContext()
      requires esp + 76 < WORD && Load(mem, esp + 48) + 20 < WORD
      modifies this`esp, this`edi, this`esi, this`ebp, this`ebx, this`edx, this`ecx, this`eax,
        this`ds, this`es, this`fs, this`gs, this`eip, this`cs, this`eflags, this`ss, this`cr3
      ensures var a := old(esp) + 4;
        var sp := if Load(mem, a + 44) == 0 then a + 48 else Load(mem, a + 44);
        && Seg() == SegmentsAt(mem, a) && Gen(0) == GeneralAt(mem, a + 16).(esp := 0)
        && Resumes(FrameAt(mem, sp), sp + 12, old(ss))
        && cr3 == Load(mem, a + 68)
    {
      LoadDirectory();
      PopRegisters();
      ChooseFrame();
      InterruptReturn();
    }

    /** A C call of `switch_context` with its arguments by value, last one first. */
    method CallSwitchContext(seg: Segments, gen: General, frame: Frame, directory: Word, ret: Word)
      requires 76 <= esp < WORD - 20 && gen.esp + 20 < WORD
      modifies this
      ensures Seg() == seg && Gen(0) == gen.(esp := 0) && cr3 == directory && tss == old(tss)
      ensures if gen.esp == 0 then Resumes(frame, old(esp) - 12, old(ss))
        else Resumes(FrameAt(mem, gen.esp), gen.esp + 12, old(ss))
      ensures SameBut(old(mem), mem, old(esp) - 76, old(esp))
    {
      PushArguments(seg, gen, frame, directory);
      ghost var m0, a := mem, esp;
      Push(ret);
      KeptAbove(m0, mem, a);
      SwitchContext();
    }

    static lemma KeptAbove(m: Memory, m': Memory, a: nat)
      requires a >= 4 && SameBut(m, m', a - 4, a)
      ensures SegmentsAt(m', a) == SegmentsAt(m, a) && GeneralAt(m', a + 16) == GeneralAt(m, a + 16)
      ensures FrameAt(m', a + 48) == FrameAt(m, a + 48) && Load(m', a + 68) == Load(m, a + 68)
    {
    }

    method PushArguments(seg: Segments, gen: General, frame: Frame, directory: Word)
      requires esp >= 72
      modifies this`esp, this`mem
      ensures esp == old(esp) - 72
      ensures SegmentsAt(mem, esp) == seg && GeneralAt(mem, esp + 16) == gen
      ensures FrameAt(mem, esp + 48) == frame && Load(mem, esp + 68) == directory
      ensures SameBut(old(mem), mem, esp, old(esp))
    {
      Push(directory);
      PushFrame(frame);
      PushSet(gen);
      PushFour(seg.gs, seg.fs, seg.es, seg.ds);
    }

    method PushFrame(f: Frame)
      requires esp >= 20
      modifies this`esp, this`mem
      ensures esp == old(esp) - 20 && FrameAt(mem, esp) == f
      ensures SameBut(old(mem), mem, esp, old(esp))
    {
      Push(f.ss);
      PushFour(f.esp, f.eflags, f.cs, f.eip);
    }

    method PushSet(g: General)
      requires esp >= 32
      modifies this`esp, this`mem
      ensures esp == old(esp) - 32 && GeneralAt(mem, esp) == g
      ensures SameBut(old(mem), mem, esp, old(esp))
    {
      PushFour(g.esp, g.eax, g.ecx, g.edx);
      PushFour(g.ebx, g.ebp, g.esi, g.edi);
    }
  }
}
