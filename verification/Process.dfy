/** The process queue of kernel/proc/process.c: descriptors linked into a ring, proved to
    move as the sequence of module Ring says. */
module Process {
  import opened Bits
  import opened Context
  import opened Ring

  class Process {
    const addr: nat
    var frame: Frame
    var gen: General
    var seg: Segments
    var esp0: Word
    var directory: nat
    var state: ProcessState
    var prev: Process?
    var next: Process?

    constructor (addr: nat, frame: Frame, gen: General, seg: Segments, esp0: Word, directory: nat)
      ensures Value() == Desc(addr, frame, gen, seg, esp0, directory, Running)
    {
      this.addr := addr;
      this.frame, this.gen, this.seg, this.esp0, this.directory := frame, gen, seg, esp0, directory;
      this.state := Running;
      this.prev, this.next := null, null;
    }

    ghost function Value(): Desc
      reads this
    {
      Desc(addr, frame, gen, seg, esp0, directory, state)
    }
  }

  /** Neighbours in a ring of `n`. */
  function Succ(i: nat, n: nat): nat {
    if i + 1 >= n then 0 else i + 1
  }

  ghost function Values(ring: seq<Process>): (r: seq<Desc>)
    reads ring
    ensures |r| == |ring| && forall i :: 0 <= i < |ring| ==> r[i] == ring[i].Value()
  {
    seq(|ring|, i requires 0 <= i < |ring| reads ring => ring[i].Value())
  }

  /** `next` and `prev` are inverse and visit every process of the ring once. */
  ghost predicate Linked(ring: seq<Process>)
    reads ring
  {
    && (forall i, j :: 0 <= i < j < |ring| ==> ring[i] != ring[j])
    && (forall i :: 0 <= i < |ring| ==> ring[i].next == ring[Succ(i, |ring|)])
    && (forall i :: 0 <= i < |ring| ==> ring[Succ(i, |ring|)].prev == ring[i])
  }

  // ----- The skip loop on the links

  /** Where `next` leads from the first process in `n` steps. */
  ghost function Follow(c: seq<Process>, n: nat): (p: Process)
    requires Linked(c) && c != []
    reads c
    ensures p == c[Position(|c|, n)]
  {
    if n == 0 then c[0]
    else
      assert c[Position(|c|, n - 1)].next == c[Succ(Position(|c|, n - 1), |c|)];
      Follow(c, n - 1).next
  }

  /** Following `next` round a ring meets a process that is not halted exactly when the
      ring has one: otherwise the skip loop goes round for ever. */
  lemma SkipLoopStops(c: seq<Process>)
    requires Linked(c) && c != []
    ensures (exists n: nat :: Follow(c, n).state != Halted) <==> SomeAwake(Values(c))
  {
    if SomeAwake(Values(c)) {
      var i :| 0 <= i < |c| && Values(c)[i].state != Halted;
      assert Follow(c, i).state != Halted;
    }
    forall n: nat | Follow(c, n).state != Halted ensures SomeAwake(Values(c)) {
      assert Values(c)[Position(|c|, n)].state != Halted;
    }
  }

  /** How a timer interrupt leaves `switch_process`: there is no other process; another
      process is current now; or never, the skip loop going round for ever. */
  datatype Outcome = Alone | Switched | Skipping

  class Scheduler {
    var current: Process?
    ghost var ring: seq<Process>

    ghost predicate Valid()
      reads this, ring
    {
      && Linked(ring)
      && (if ring == [] then current == null else current == ring[0])
      && WellFormed(Values(ring))
    }

    /** `init_processes` (kernel/proc/process.c:15-18). */
    constructor ()
      ensures Valid() && ring == []
    {
      current := null;
      ring := [];
    }

    /** Insertion just before the current process (kernel/proc/process.c:156-165). */
    method Insert(p: Process)
      requires Valid() && p !in ring && Legal(Values(ring), Create(p.Value()))
      modifies this, ring, p
      ensures Valid() && ring == old(ring) + [p]
      ensures Values(ring) == Step(old(Values(ring)), Create(old(p.Value())))
    {
      hide WellFormed, Legal, Step;
      ghost var values, d := Values(ring), p.Value();
      CreateStep(values, d);
      if current == null {
        current := p;
        current.next := p;
        current.prev := p;
      } else {
        LinkBefore(p);
      }
      ring := ring + [p];
      assert Values(ring) == values + [d];
    }

    /** The pointer writes of an insertion into a ring (kernel/proc/process.c:161-164). */
    method LinkBefore(p: Process)
      requires Linked(ring) && ring != [] && current == ring[0] && p !in ring
      modifies ring, p
      ensures Linked(ring + [p]) && Values(ring) == old(Values(ring)) && p.Value() == old(p.Value())
    {
      ghost var n := |ring|;
      assert ring[Succ(n - 1, n)].prev == ring[n - 1];
      p.next := current;
      p.prev := current.prev;
      current.prev.next := p;
      current.prev := p;
      InsertLinked(ring, p);
    }

    /** The four pointer writes of an insertion, seen from the state after them. */
    twostate lemma InsertLinked(was: seq<Process>, new p: Process)
      requires was != [] && p !in was && old(Linked(was)) && forall i :: 0 <= i < |was| ==> allocated(was[i])
      requires p.next == was[0] && p.prev == was[|was| - 1]
      requires was[|was| - 1].next == p && was[0].prev == p
      requires forall i :: 0 <= i < |was| - 1 ==> was[i].next == old(was[i].next)
      requires forall i :: 1 <= i < |was| ==> was[i].prev == old(was[i].prev)
      ensures Linked(was + [p])
    {
      var n, r := |was|, was + [p];
      forall i | 0 <= i <= n ensures r[i].next == r[Succ(i, n + 1)] && r[Succ(i, n + 1)].prev == r[i] {
        if i < n - 1 {
          assert old(was[i].next) == was[Succ(i, n)];
          assert old(was[Succ(i, n)].prev) == was[i];
        }
      }
    }

    /** `update_process` (kernel/proc/process.c:169-171). */
    method UpdateProcess(st: ProcessState)
      requires Valid() && ring != []
      modifies ring
      ensures Valid() && Values(ring) == Step(old(Values(ring)), Update(st))
    {
      current.state := st;
      assert Values(ring) == Step(old(Values(ring)), Update(st));
    }

    /** Lines 35-46 and 63-76: the interrupted registers stored in the descriptor. */
    method SaveCurrent(r: Interrupted)
      requires Valid() && ring != []
      modifies current`frame, current`seg, current`gen
      ensures Linked(ring) && current == ring[0]
      ensures Values(ring) == old(Values(ring))[0 := Save(old(Values(ring)[0]), r)]
    {
      if current.state == Running {
        current.frame := r.frame;
        current.seg := r.seg;
        current.gen := r.gen;
      }
      if r.frame.cs % 4 == 0 {
        current.frame := current.frame.(ss := 0x10);
        current.frame := current.frame.(esp := current.gen.esp);
      } else {
        current.gen := current.gen.(esp := 0);
      }
    }

    /** Unlinks the current process and leaves `current` on it (kernel/proc/process.c:57-58).
        The source has freed the descriptor before (lines 49-50); the model only unlinks. */
    method Unlink()
      requires Linked(ring) && |ring| >= 2 && current == ring[0]
      modifies ring
      ensures Linked(ring[1..]) && current.next == ring[1]
      ensures Values(ring) == old(Values(ring))
    {
      ghost var n := |ring|;
      assert ring[Succ(n - 1, n)].prev == ring[n - 1] && ring[Succ(0, n)].prev == ring[0];
      assert current.next == ring[1];
      current.prev.next := current.next;
      current.next.prev := current.prev;
      UnlinkLinked(ring);
    }

    twostate lemma UnlinkLinked(was: seq<Process>)
      requires |was| >= 2 && old(Linked(was)) && forall i :: 0 <= i < |was| ==> allocated(was[i])
      requires was[|was| - 1].next == was[1] && was[1].prev == was[|was| - 1]
      requires forall i :: 1 <= i < |was| - 1 ==> was[i].next == old(was[i].next)
      requires forall i :: 2 <= i < |was| ==> was[i].prev == old(was[i].prev)
      ensures Linked(was[1..])
    {
      var n, r := |was|, was[1..];
      forall i | 0 <= i < n - 1 ensures r[i].next == r[Succ(i, n - 1)] && r[Succ(i, n - 1)].prev == r[i] {
        if i < n - 2 {
          assert old(was[i + 1].next) == was[Succ(i + 1, n)];
          assert old(was[Succ(i + 1, n)].prev) == was[i + 1];
        }
      }
    }

    /** The skip loop (kernel/proc/process.c:80-83): from the predecessor of `c[0]` it
        stops on the first candidate that is not halted. Back at its first candidate it
        has met none, and the source goes on for ever; the model returns false. */
    method SkipHalted(ghost c: seq<Process>) returns (stopped: bool)
      requires Linked(c) && c != [] && current != null && current.next == c[0]
      modifies this`current
      ensures stopped <==> SomeAwake(Values(c))
      ensures current == c[if stopped then FirstAwake(Values(c)) else 0]
    {
      ghost var k := 0;
      current := current.next;
      var first := current;
      while current.state == Halted
        invariant 0 <= k < |c| && current == c[k]
        invariant forall i :: 0 <= i < k ==> Values(c)[i].state == Halted
        decreases |c| - k
      {
        assert Values(c)[k] == c[k].Value();
        assert c[k].next == c[Succ(k, |c|)];
        current := current.next;
        if current == first { return false; }
        k := k + 1;
      }
      assert Values(c)[k] == c[k].Value();
      stopped := true;
    }

    /** Lines 35-76: the interrupted process is saved, and unlinked if it has ended; `c`
        are the processes the skip loop visits from here. The two parts touch different
        fields, so saving first is the same. */
    method Leave(r: Interrupted) returns (ghost c: seq<Process>)
      requires Valid() && |ring| >= 2
      modifies ring
      ensures Linked(c) && c != [] && current.next == c[0]
      ensures Values(c) == Candidates(old(Values(ring)), r)
      ensures forall p :: p in c ==> p in ring
    {
      ghost var was := Values(ring);
      assert ring[0].next == ring[Succ(0, |ring|)];
      var ended := current.state == Ended;
      SaveCurrent(r);
      if ended {
        Unlink();
        c := ring[1..];
      } else {
        c := ring[1..] + ring[..1];
        LinkedRotate(ring, 1);
      }
      assert Values(c) == Candidates(was, r);
    }

    /** The skip loop, and the ring read from where it stops or came round to. */
    method EnterNext(ghost c: seq<Process>) returns (stopped: bool)
      requires Linked(c) && c != [] && current != null && current.next == c[0]
      modifies this
      ensures stopped <==> SomeAwake(Values(c))
      ensures stopped ==> Values(ring) == Rotate(Values(c), FirstAwake(Values(c)))
      ensures !stopped ==> ring == c
      ensures forall p :: p in ring ==> p in c
      ensures Linked(ring) && ring != [] && current == ring[0]
    {
      hide FirstAwake;
      stopped := SkipHalted(c);
      ghost var k := if stopped then FirstAwake(Values(c)) else 0;
      LinkedRotate(c, k);
      RotateValues(c, k);
      ring := c[k..] + c[..k];
    }

    static lemma RotateValues(c: seq<Process>, k: nat)
      requires k <= |c|
      ensures Values(c[k..] + c[..k]) == Rotate(Values(c), k)
    {
    }

    /** `switch_process` (kernel/proc/process.c:29-88). After a switch the caller loads the
        current descriptor. */
    method SwitchProcess(r: Interrupted) returns (o: Outcome)
      requires Valid()
      modifies this, ring
      ensures Valid() && forall p :: p in ring ==> p in old(ring)
      ensures o == Alone <==> |old(ring)| <= 1
      ensures o == Skipping <==> !Legal(old(Values(ring)), Tick(r))
      ensures if o == Skipping then Values(ring) == Candidates(old(Values(ring)), r)
        else Values(ring) == Step(old(Values(ring)), Tick(r))
    {
      hide SomeAwake, FirstAwake, WellFormed, Candidates;
      ghost var was := Values(ring);
      if current == null {
        return Alone;
      }
      assert ring[0].next == ring[Succ(0, |ring|)];
      if current.next == current {
        return Alone;
      }
      ghost var c := Leave(r);
      CandidatesWellFormed(was, r);
      var stopped := EnterNext(c);
      if stopped { StepWellFormed(was, Tick(r)); }
      o := if stopped then Switched else Skipping;
    }

    /** A ring may be read from any of its processes. */
    static lemma LinkedRotate(c: seq<Process>, k: nat)
      requires Linked(c) && k <= |c|
      ensures Linked(c[k..] + c[..k])
    {
      var n, r := |c|, c[k..] + c[..k];
      assert forall i :: 0 <= i < n ==> r[i] == c[if i < n - k then i + k else i - (n - k)];
      assert forall i, j :: 0 <= i < j < n ==> r[i] != r[j];
      forall i | 0 <= i < n ensures r[i].next == r[Succ(i, n)] && r[Succ(i, n)].prev == r[i] {
        var x := if i < n - k then i + k else i - (n - k);
        assert r[i] == c[x] && r[Succ(i, n)] == c[Succ(x, n)];
      }
    }
  }
}
