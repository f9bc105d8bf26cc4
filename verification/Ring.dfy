/** The round-robin ring as a sequence of descriptors, the current process first and the
    others in the order `next` visits them (kernel/proc/process.c). */
module Ring {
  import opened Bits
  import opened Context

  /** kernel/proc/process.h:16 and 30. */
  datatype ProcessState = Running | Halted | Ended

  /** `addr` is the descriptor's address, which tells processes apart. */
  datatype Desc = Desc(
    addr: nat, frame: Frame, gen: General, seg: Segments, esp0: Word, directory: nat, state: ProcessState)

  /** What the timer interrupted, as `timer_handler` gets it. */
  datatype Interrupted = Interrupted(seg: Segments, gen: General, frame: Frame)

  /** Lines 35-76 of `switch_process` on the current descriptor. */
  function Save(d: Desc, r: Interrupted): (s: Desc)
    ensures s.addr == d.addr && s.state == d.state && s.directory == d.directory && s.esp0 == d.esp0
  {
    var d1 := if d.state == Running then d.(frame := r.frame, seg := r.seg, gen := r.gen) else d;
    if r.frame.cs % 4 == 0 then d1.(frame := d1.frame.(ss := 0x10, esp := d1.gen.esp))
    else d1.(gen := d1.gen.(esp := 0))
  }

  /** The processes the skip loop visits, in order: the current one comes last, unless
      it has ended and is unlinked. */
  function Candidates(ring: seq<Desc>, r: Interrupted): seq<Desc>
    requires ring != []
  {
    if ring[0].state == Ended then ring[1..] else ring[1..] + [Save(ring[0], r)]
  }

  predicate SomeAwake(ring: seq<Desc>) {
    exists i :: 0 <= i < |ring| && ring[i].state != Halted
  }

  /** Index of the first process that is not halted. */
  function FirstAwake(ring: seq<Desc>): (k: nat)
    requires SomeAwake(ring)
    ensures k < |ring| && ring[k].state != Halted
    ensures forall i :: 0 <= i < k ==> ring[i].state == Halted
  {
    if ring[0].state != Halted then 0
    else
      var i :| 0 <= i < |ring| && ring[i].state != Halted;
      assert ring[1..][i - 1] == ring[i];
      1 + FirstAwake(ring[1..])
  }

  /** Where the skip loop stands after `n` steps along a ring of `len`. */
  function Position(len: nat, n: nat): (p: nat)
    requires len > 0
    ensures p < len && (n < len ==> p == n)
  {
    if n == 0 then 0
    else
      var p := Position(len, n - 1);
      if p + 1 == len then 0 else p + 1
  }

  function Rotate(ring: seq<Desc>, k: nat): seq<Desc>
    requires k <= |ring|
  {
    ring[k..] + ring[..k]
  }

  /** A process created, the current one's state set, or a timer interrupt with switching
      enabled. */
  datatype Event = Create(desc: Desc) | Update(state: ProcessState) | Tick(regs: Interrupted)

  /** When the skip loop of a timer interrupt stops. */
  predicate Legal(ring: seq<Desc>, e: Event) {
    match e
    case Create(d) => d.state == Running && forall i :: 0 <= i < |ring| ==> ring[i].addr != d.addr
    case Update(_) => ring != []
    case Tick(r) => |ring| >= 2 ==> SomeAwake(Candidates(ring, r))
  }

  function Step(ring: seq<Desc>, e: Event): seq<Desc>
    requires Legal(ring, e)
  {
    match e
    case Create(d) => ring + [d]
    case Update(st) => ring[0 := ring[0].(state := st)]
    case Tick(r) =>
      if |ring| <= 1 then ring
      else
        var c := Candidates(ring, r);
        Rotate(c, FirstAwake(c))
  }

  predicate LegalRun(ring: seq<Desc>, es: seq<Event>)
    decreases |es|
  {
    es == [] || (Legal(ring, es[0]) && LegalRun(Step(ring, es[0]), es[1..]))
  }

  function After(ring: seq<Desc>, es: seq<Event>): seq<Desc>
    requires LegalRun(ring, es)
    decreases |es|
  {
    if es == [] then ring else After(Step(ring, es[0]), es[1..])
  }

  // ----- Invariant

  /** Descriptors are distinct, and only the current process can be in the ended state. */
  predicate WellFormed(ring: seq<Desc>) {
    && (forall i, j :: 0 <= i < j < |ring| ==> ring[i].addr != ring[j].addr)
    && (forall i :: 1 <= i < |ring| ==> ring[i].state != Ended)
  }

  /** Only the current process can be ended, so with another process in the ring the skip
      loop of a timer interrupt stops exactly when the current or another process runs. */
  lemma LegalTickIff(ring: seq<Desc>, r: Interrupted)
    requires WellFormed(ring) && |ring| >= 2
    ensures Legal(ring, Tick(r)) <==>
      ring[0].state == Running || exists i :: 1 <= i < |ring| && ring[i].state == Running
  {
    var c := Candidates(ring, r);
    assert forall i :: 1 <= i < |ring| ==> c[i - 1] == ring[i];
    if ring[0].state != Ended { assert c[|ring| - 1] == Save(ring[0], r); }
  }

  /** Two processes that halt in turn: the second switch never ends. */
  lemma HangInput(a: Desc, b: Desc, r: Interrupted, x: Interrupted)
    requires a.state == b.state == Running && a.addr != b.addr
    ensures var es := [Create(a), Create(b), Update(Halted), Tick(r), Update(Halted)];
      LegalRun([], es) && !Legal(After([], es), Tick(x))
  {
    var es := [Create(a), Create(b), Update(Halted), Tick(r), Update(Halted)];
    var h, k := a.(state := Halted), b.(state := Halted);
    var c := [b, Save(h, r)];
    assert Candidates([h, b], r) == c && c[0].state != Halted && FirstAwake(c) == 0;
    assert Step([h, b], Tick(r)) == c;
    assert Step(c, Update(Halted)) == [k, Save(h, r)];
    FinishRun([h, b], r, c, [k, Save(h, r)]);
    StartRun(a, b, es);
    assert es[3..] == [Tick(r), Update(Halted)];
    var d := [k, Save(h, r)];
    assert Candidates(d, x) == [Save(h, r), Save(k, x)];
  }

  lemma StartRun(a: Desc, b: Desc, es: seq<Event>)
    requires a.state == b.state == Running && a.addr != b.addr
    requires |es| >= 3 && es[..3] == [Create(a), Create(b), Update(Halted)]
    requires LegalRun([a.(state := Halted), b], es[3..])
    ensures LegalRun([], es) && After([], es) == After([a.(state := Halted), b], es[3..])
  {
    assert es[0] == es[..3][0] && es[1..][0] == es[..3][1] && es[1..][1..][0] == es[..3][2];
    assert es[1..][1..][1..] == es[3..];
    assert [] + [a] == [a] && [a] + [b] == [a, b];
    assert Step([a, b], Update(Halted)) == [a.(state := Halted), b];
    assert Step([], Create(a)) == [a] && Step([a], Create(b)) == [a, b];
    assert LegalRun([a, b], es[1..][1..]);
    assert After([a, b], es[1..][1..]) == After([a.(state := Halted), b], es[3..]);
    assert LegalRun([a], es[1..]) && After([a], es[1..]) == After([a, b], es[1..][1..]);
  }

  lemma FinishRun(ring: seq<Desc>, r: Interrupted, c: seq<Desc>, d: seq<Desc>)
    requires Legal(ring, Tick(r)) && Step(ring, Tick(r)) == c
    requires Legal(c, Update(Halted)) && Step(c, Update(Halted)) == d
    ensures LegalRun(ring, [Tick(r), Update(Halted)]) && After(ring, [Tick(r), Update(Halted)]) == d
  {
    var es := [Tick(r), Update(Halted)];
    assert es[1..] == [Update(Halted)] && es[1..][1..] == [];
    assert After(c, [Update(Halted)]) == d;
  }

  lemma RotateWellFormed(c: seq<Desc>, k: nat)
    requires k < |c|
    requires forall i, j :: 0 <= i < j < |c| ==> c[i].addr != c[j].addr
    requires forall i :: 0 <= i < |c| ==> c[i].state != Ended
    ensures WellFormed(Rotate(c, k)) && Rotate(c, k)[0] == c[k]
    ensures forall d :: d in Rotate(c, k) <==> d in c
  {
    var r := Rotate(c, k);
    assert forall i :: 0 <= i < |c| ==> r[i] == if i < |c| - k then c[i + k] else c[i - (|c| - k)];
    assert c == c[..k] + c[k..];
  }

  lemma CandidatesDistinct(ring: seq<Desc>, r: Interrupted)
    requires WellFormed(ring) && ring != []
    ensures var c := Candidates(ring, r);
      && (forall i, j :: 0 <= i < j < |c| ==> c[i].addr != c[j].addr)
      && (forall i :: 0 <= i < |c| ==> c[i].state != Ended)
  {
  }

  lemma CandidatesWellFormed(ring: seq<Desc>, r: Interrupted)
    requires WellFormed(ring) && ring != []
    ensures WellFormed(Candidates(ring, r))
  {
    CandidatesDistinct(ring, r);
  }

  /** Every event keeps the invariant; a completed switch leaves a running process
      current, although the loop only tests for halted ones. */
  lemma StepWellFormed(ring: seq<Desc>, e: Event)
    requires WellFormed(ring) && Legal(ring, e)
    ensures WellFormed(Step(ring, e))
    ensures e.Tick? && |ring| >= 2 ==> Step(ring, e) != [] && Step(ring, e)[0].state == Running
  {
    if e.Tick? && |ring| >= 2 {
      var c := Candidates(ring, e.regs);
      CandidatesDistinct(ring, e.regs);
      RotateWellFormed(c, FirstAwake(c));
    }
  }

  /** A created process goes behind all others: just before the current one. */
  lemma CreateStep(ring: seq<Desc>, d: Desc)
    requires WellFormed(ring) && Legal(ring, Create(d))
    ensures Step(ring, Create(d)) == ring + [d] && WellFormed(ring + [d])
  {
  }

  lemma {:induction false} RunWellFormed(ring: seq<Desc>, es: seq<Event>)
    requires WellFormed(ring) && LegalRun(ring, es)
    ensures WellFormed(After(ring, es))
    decreases |es|
  {
    if es != [] {
      StepWellFormed(ring, es[0]);
      RunWellFormed(Step(ring, es[0]), es[1..]);
    }
  }

  /** The processes the skip loop visits are those of the ring, the current one as saved. */
  lemma CandidatesFrom(ring: seq<Desc>, r: Interrupted, d: Desc)
    requires ring != [] && d in Candidates(ring, r)
    ensures d in ring || d == Save(ring[0], r)
  {
    if d in ring[1..] {
      var i :| 0 <= i < |ring| - 1 && ring[1..][i] == d;
      assert ring[i + 1] == d;
    }
  }

  lemma SwitchFrom(ring: seq<Desc>, r: Interrupted, d: Desc)
    requires |ring| >= 2 && Legal(ring, Tick(r)) && d in Step(ring, Tick(r))
    ensures d in ring || d == Save(ring[0], r)
  {
    var c := Candidates(ring, r);
    assert c == c[..FirstAwake(c)] + c[FirstAwake(c)..];
    CandidatesFrom(ring, r, d);
  }

  // ----- What each event does

  /** Where the code saves a process (kernel/proc/process.c:35-76), field by field: the
      registers only when it is running; then, from kernel mode, the kernel's stack segment
      and the address of the frame; from user mode, a zero stack word. */
  lemma Saved(d: Desc, r: Interrupted)
    ensures var s, running := Save(d, r), d.state == Running;
      && s.addr == d.addr && s.esp0 == d.esp0 && s.directory == d.directory && s.state == d.state
      && s.seg == (if running then r.seg else d.seg)
      && s.gen.(esp := 0) == (if running then r.gen else d.gen).(esp := 0)
      && s.frame.eip == (if running then r.frame else d.frame).eip
      && s.frame.cs == (if running then r.frame else d.frame).cs
      && s.frame.eflags == (if running then r.frame else d.frame).eflags
      && if r.frame.cs % 4 == 0
         then
           && s.gen.esp == (if running then r.gen else d.gen).esp
           && s.frame.ss == 0x10 && s.frame.esp == s.gen.esp
         else s.gen.esp == 0 && s.frame == if running then r.frame else d.frame
  {
  }

  /** Round robin: a switch goes to the nearest running process behind the current one; the
      processes passed over and, unless it has ended, the one left go to the end in order. */
  lemma RoundRobin(ring: seq<Desc>, r: Interrupted, i: nat)
    requires WellFormed(ring) && 1 <= i < |ring| && ring[i].state == Running
    requires forall j :: 1 <= j < i ==> ring[j].state != Running
    ensures Legal(ring, Tick(r))
    ensures Step(ring, Tick(r)) ==
      ring[i..] + (if ring[0].state == Ended then [] else [Save(ring[0], r)]) + ring[1..i]
  {
    var c, k := Candidates(ring, r), i - 1;
    assert forall j :: 1 <= j < |ring| ==> c[j - 1] == ring[j];
    assert c[k].state != Halted;
    FirstAwakeIs(c, k);
    assert c[..k] == ring[1..i];
    assert c[k..] == ring[i..] + (if ring[0].state == Ended then [] else [Save(ring[0], r)]);
  }

  /** With no other running process the current one, when it runs, goes on. */
  lemma RoundRobinAlone(ring: seq<Desc>, r: Interrupted)
    requires WellFormed(ring) && |ring| >= 2 && ring[0].state == Running
    requires forall j :: 1 <= j < |ring| ==> ring[j].state != Running
    ensures Legal(ring, Tick(r)) && Step(ring, Tick(r)) == [Save(ring[0], r)] + ring[1..]
  {
    var c, k := Candidates(ring, r), |ring| - 1;
    assert forall j :: 1 <= j < |ring| ==> c[j - 1] == ring[j];
    assert c[k] == Save(ring[0], r);
    FirstAwakeIs(c, k);
    assert c[..k] == ring[1..] && c[k..] == [Save(ring[0], r)];
  }

  lemma FirstAwakeIs(c: seq<Desc>, k: nat)
    requires k < |c| && c[k].state != Halted && forall j :: 0 <= j < k ==> c[j].state == Halted
    ensures SomeAwake(c) && FirstAwake(c) == k
  {
    var f := FirstAwake(c);
    assert c[f].state != Halted;
  }

  /** A state change sets the current process's state and nothing else; with fewer than two
      processes a timer interrupt does nothing. */
  lemma UpdateStep(ring: seq<Desc>, st: ProcessState, r: Interrupted)
    requires ring != []
    ensures var q := Step(ring, Update(st));
      |q| == |ring| && q[1..] == ring[1..] && q[0].state == st && q[0].(state := ring[0].state) == ring[0]
    ensures |ring| == 1 ==> Legal(ring, Tick(r)) && Step(ring, Tick(r)) == ring
  {
  }

  // ----- Bounded waiting

  /** Process `a` is running, `d` places behind the current one. */
  predicate Waits(ring: seq<Desc>, a: nat, d: nat) {
    d < |ring| && ring[d].addr == a && ring[d].state == Running
  }

  /** Creation and state changes keep a waiting process's distance; a switch shortens it.
      A waiting running process also makes every timer interrupt legal. */
  lemma StepCloser(ring: seq<Desc>, e: Event, a: nat, d: nat)
    requires Waits(ring, a, d) && d > 0
    ensures e.Tick? ==> Legal(ring, e)
    ensures Legal(ring, e) ==>
      if e.Tick? then exists d' :: 0 <= d' < d && Waits(Step(ring, e), a, d') else Waits(Step(ring, e), a, d)
  {
    if e.Tick? {
      var c := Candidates(ring, e.regs);
      assert c[d - 1] == ring[d];
      assert SomeAwake(c);
      var k := FirstAwake(c);
      assert k <= d - 1;
      assert Rotate(c, k)[d - 1 - k] == c[d - 1];
      assert Waits(Step(ring, e), a, d - 1 - k);
    }
  }

  function Ticks(es: seq<Event>): nat {
    if es == [] then 0 else (if es[0].Tick? then 1 else 0) + Ticks(es[1..])
  }

  /** A running process at distance `d` is current within `d` timer interrupts. */
  lemma {:induction false} BoundedWaiting(ring: seq<Desc>, es: seq<Event>, a: nat, d: nat) returns (n: nat)
    requires Waits(ring, a, d) && LegalRun(ring, es) && Ticks(es) >= d
    ensures n <= |es| && LegalRun(ring, es[..n]) && Ticks(es[..n]) <= d
    ensures Waits(After(ring, es[..n]), a, 0)
    decreases |es|
  {
    if d == 0 {
      n := 0;
    } else {
      StepCloser(ring, es[0], a, d);
      var next := Step(ring, es[0]);
      var d' := d;
      if es[0].Tick? { d' :| 0 <= d' < d && Waits(next, a, d'); }
      var m := BoundedWaiting(next, es[1..], a, d');
      n := m + 1;
      assert es[..n][0] == es[0] && es[..n][1..] == es[1..][..m];
    }
  }

  // ----- Context preservation

  /** A process that is not current keeps its whole descriptor. */
  lemma StepKeepsOthers(ring: seq<Desc>, e: Event, i: nat)
    requires Legal(ring, e) && 0 < i < |ring|
    ensures ring[i] in Step(ring, e)
  {
    match e
    case Create(d) => assert Step(ring, e)[i] == ring[i];
    case Update(_) => assert Step(ring, e)[i] == ring[i];
    case Tick(r) =>
      var c := Candidates(ring, r);
      assert c[i - 1] == ring[i];
      assert c == c[..FirstAwake(c)] + c[FirstAwake(c)..];
  }

  /** `a` is not current at any point of the run before its end. */
  predicate NeverCurrent(ring: seq<Desc>, es: seq<Event>, a: nat)
    requires LegalRun(ring, es)
    decreases |es|
  {
    es == [] || (ring != [] && ring[0].addr != a && NeverCurrent(Step(ring, es[0]), es[1..], a))
  }

  lemma {:induction false} RunKeepsDescriptor(ring: seq<Desc>, es: seq<Event>, d: Desc)
    requires WellFormed(ring) && LegalRun(ring, es) && d in ring && NeverCurrent(ring, es, d.addr)
    ensures d in After(ring, es)
    decreases |es|
  {
    if es != [] {
      var i :| 0 <= i < |ring| && ring[i] == d;
      StepKeepsOthers(ring, es[0], i);
      StepWellFormed(ring, es[0]);
      RunKeepsDescriptor(Step(ring, es[0]), es[1..], d);
    }
  }

  lemma SavedStays(ring: seq<Desc>, r: Interrupted)
    requires |ring| >= 2 && ring[0].state == Running && Legal(ring, Tick(r))
    ensures Save(ring[0], r) in Step(ring, Tick(r))
  {
    var c := Candidates(ring, r);
    assert c[|c| - 1] == Save(ring[0], r);
    assert c == c[..FirstAwake(c)] + c[FirstAwake(c)..];
  }

  /** A run extended by one event. */
  lemma {:induction false} RunAppend(ring: seq<Desc>, es: seq<Event>, e: Event)
    requires LegalRun(ring, es) && Legal(After(ring, es), e)
    ensures LegalRun(ring, es + [e]) && After(ring, es + [e]) == Step(After(ring, es), e)
    ensures forall a :: NeverCurrent(ring, es + [e], a) <==>
      NeverCurrent(ring, es, a) && After(ring, es) != [] && After(ring, es)[0].addr != a
    decreases |es|
  {
    if es == [] {
      assert es + [e] == [e] && [e][1..] == [];
    } else {
      RunAppend(Step(ring, es[0]), es[1..], e);
      assert (es + [e])[0] == es[0] && (es + [e])[1..] == es[1..] + [e];
    }
  }

  /** The registers of a running process that the timer interrupts are exactly those in
      its descriptor when it is current again, whatever happened in between: in user
      mode with a zero stack word, in kernel mode with the saved stack pointer. */
  lemma ContextPreserved(ring: seq<Desc>, r: Interrupted, es: seq<Event>)
    requires WellFormed(ring) && |ring| >= 2 && ring[0].state == Running && Legal(ring, Tick(r))
    requires var next := Step(ring, Tick(r));
      LegalRun(next, es) && NeverCurrent(next, es, ring[0].addr)
      && After(next, es) != [] && After(next, es)[0].addr == ring[0].addr
    ensures var d := After(Step(ring, Tick(r)), es)[0];
      && d.directory == ring[0].directory && d.seg == r.seg
      && (r.frame.cs % 4 != 0 ==> d.gen == r.gen.(esp := 0) && d.frame == r.frame)
      && (r.frame.cs % 4 == 0 ==> d.gen == r.gen && d.frame == r.frame.(ss := 0x10, esp := r.gen.esp))
      && d.esp0 == ring[0].esp0 && d.state == Running
  {
    var next := Step(ring, Tick(r));
    var d := Save(ring[0], r);
    var c := Candidates(ring, r);
    CandidatesDistinct(ring, r);
    RotateWellFormed(c, FirstAwake(c));
    assert c[|c| - 1] == d;
    RunKeepsDescriptor(next, es, d);
    RunWellFormed(next, es);
    var last := After(next, es);
    var i :| 0 <= i < |last| && last[i] == d;
    assert i == 0;
  }
}
