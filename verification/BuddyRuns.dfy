/** Whole runs of the allocator: any sequence of requests, releases and client stores. */
module BuddyRuns {
  import opened Options
  import opened Bits
  import opened BuddyTree
  import opened BuddyLaws
  import opened BuddyMemory
  import opened BuddyList
  import opened BuddyHeap

  datatype Event = Request(size: Word) | Release(off: nat) | Write(x: nat, v: Byte)

  /** What the allocator's callers owe: a release names a live block, and a write stays
      off block headers. */
  predicate Legal(t: Tree, n: nat, e: Event)
    requires Fits(t, n)
  {
    match e
    case Request(size) => Shiftable(size)
    case Release(off) => IsHead(t, n, off) && Owner(t, n, off).used
    case Write(x, v) => x < Pow2(n) && !IsHead(t, n, x)
  }

  function Step(t: Tree, n: nat, e: Event): (r: Tree)
    requires Fits(t, n) && Legal(t, n, e)
    ensures Fits(r, n)
  {
    match e
    case Request(size) => (match AllocTree(t, n, RequestOrder(size)) case None => t case Some((r, _)) => r)
    case Release(off) => FreeTree(t, n, off)
    case Write(_, _) => t
  }

  predicate LegalRun(t: Tree, n: nat, es: seq<Event>)
    requires Fits(t, n)
    decreases |es|
  {
    es == [] || (Legal(t, n, es[0]) && LegalRun(Step(t, n, es[0]), n, es[1..]))
  }

  function RunTree(t: Tree, n: nat, es: seq<Event>): (r: Tree)
    requires Fits(t, n) && LegalRun(t, n, es)
    ensures Fits(r, n)
    decreases |es|
  {
    if es == [] then t else RunTree(Step(t, n, es[0]), n, es[1..])
  }

  lemma StepCoalesced(t: Tree, n: nat, e: Event)
    requires Fits(t, n) && Legal(t, n, e) && Coalesced(t)
    ensures Coalesced(Step(t, n, e))
  {
    match e
    case Request(size) =>
      if AllocTree(t, n, RequestOrder(size)).Some? { AllocCoalesced(t, n, RequestOrder(size)); }
    case Release(off) => FreeCoalesced(t, n, off);
    case Write(_, _) =>
  }

  /** Every reachable heap satisfies the list invariant. */
  lemma {:induction false} RunKeepsInvariant(t: Tree, n: nat, es: seq<Event>)
    requires Fits(t, n) && Coalesced(t) && LegalRun(t, n, es)
    ensures Coalesced(RunTree(t, n, es)) && ListInvariant(BlockList(RunTree(t, n, es), 0, n), n)
    decreases |es|
  {
    if es == [] {
      TreeGivesInvariant(t, n);
    } else {
      StepCoalesced(t, n, es[0]);
      RunKeepsInvariant(Step(t, n, es[0]), n, es[1..]);
    }
  }

  /** A used block stays exactly as it is until it is released. */
  lemma StepKeepsLive(t: Tree, n: nat, e: Event, b: Block)
    requires Fits(t, n) && Legal(t, n, e) && LiveAt(t, n, b) && e != Release(b.off)
    ensures LiveAt(Step(t, n, e), n, b)
  {
    match e
    case Request(size) =>
      if AllocTree(t, n, RequestOrder(size)).Some? { AllocOwner(t, n, RequestOrder(size), b.off); }
    case Release(off) => FreeOwner(t, n, off, b.off);
    case Write(_, _) =>
  }

  lemma {:induction false} RunKeepsLive(t: Tree, n: nat, es: seq<Event>, b: Block)
    requires Fits(t, n) && LegalRun(t, n, es) && LiveAt(t, n, b) && Release(b.off) !in es
    ensures LiveAt(RunTree(t, n, es), n, b)
    decreases |es|
  {
    if es != [] {
      StepKeepsLive(t, n, es[0], b);
      RunKeepsLive(Step(t, n, es[0]), n, es[1..], b);
    }
  }

  /** History does not matter: two runs that leave the same used blocks leave the same
      heap, free blocks included. */
  lemma RunsAreCanonical(n: nat, es: seq<Event>, fs: seq<Event>)
    requires MIN_ORDER <= n && LegalRun(Leaf(false), n, es) && LegalRun(Leaf(false), n, fs)
    requires Live(RunTree(Leaf(false), n, es), n) == Live(RunTree(Leaf(false), n, fs), n)
    ensures RunTree(Leaf(false), n, es) == RunTree(Leaf(false), n, fs)
  {
    RunKeepsInvariant(Leaf(false), n, es);
    RunKeepsInvariant(Leaf(false), n, fs);
    Canonical(RunTree(Leaf(false), n, es), RunTree(Leaf(false), n, fs), n);
  }

  // ----- Payloads

  /** Byte `x` belongs to the client that holds `b`: inside the block, past its header. */
  predicate InPayload(b: Block, x: int) {
    b.off < x < b.off + Pow2(b.order)
  }

  /** Payloads of different used blocks share no byte, no payload byte is a header of
      any block, and the byte at `end` is in no payload. */
  lemma PayloadsApart(t: Tree, n: nat, b: Block, c: Block, x: int)
    requires Fits(t, n) && LiveAt(t, n, b) && LiveAt(t, n, c) && InPayload(b, x)
    ensures InPayload(c, x) ==> b == c
    ensures x < Pow2(n) && !IsHead(t, n, x)
  {
    SameOwner(t, n, b.off, x);
    if InPayload(c, x) { SameOwner(t, n, c.off, x); }
  }

  /** The byte last written at `i`; `b` when none is. */
  function Latest(es: seq<Event>, i: int, b: Byte): Byte {
    if es == [] then b
    else Latest(es[1..], i, if es[0].Write? && es[0].x == i then es[0].v else b)
  }

  lemma LatestFirst(es: seq<Event>, i: int, b: Byte)
    requires es != []
    ensures Latest(es, i, b) == Latest(es[1..], i, Latest([es[0]], i, b))
  {
    assert [es[0]][1..] == [];
  }

  /** Every payload byte of a block that `es` does not release is in `m'` what `es` wrote
      there last, and otherwise what it is in `m`. */
  ghost predicate Kept(t: Tree, n: nat, m: seq<Byte>, m': seq<Byte>, es: seq<Event>)
    requires Fits(t, n) && |m| == |m'| == Pow2(n) + 1
  {
    forall b, i :: LiveAt(t, n, b) && Release(b.off) !in es && InPayload(b, i) ==>
      i < |m| && m'[i] == Latest(es, i, m[i])
  }

  lemma StepKeeps(t: Tree, n: nat, m: seq<Byte>, m': seq<Byte>, e: Event)
    requires Fits(t, n) && Legal(t, n, e) && |m| == |m'| == Pow2(n) + 1
    requires match e
      case Request(_) => OnlyFree(m, m', t, n)
      case Release(_) => OnlyFree(m, m', Step(t, n, e), n)
      case Write(x, v) => m' == m[x := v]
    ensures Kept(t, n, m, m', [e])
  {
    hide Step, Legal;
    assert [e][0] == e && [e][1..] == [];
    forall b, i | LiveAt(t, n, b) && Release(b.off) !in [e] && InPayload(b, i)
      ensures i < |m| && m'[i] == Latest([e], i, m[i])
    {
      PayloadsApart(t, n, b, b, i);
      SameOwner(t, n, b.off, i);
      if e.Release? {
        StepKeepsLive(t, n, e, b);
        SameOwner(Step(t, n, e), n, b.off, i);
      }
    }
  }

  lemma KeptTrans(t: Tree, n: nat, m: seq<Byte>, m1: seq<Byte>, m2: seq<Byte>, es: seq<Event>)
    requires Fits(t, n) && es != [] && Legal(t, n, es[0]) && |m| == |m1| == |m2| == Pow2(n) + 1
    requires Kept(t, n, m, m1, [es[0]]) && Kept(Step(t, n, es[0]), n, m1, m2, es[1..])
    ensures Kept(t, n, m, m2, es)
  {
    hide Step, Legal, LiveAt;
    forall b, i | LiveAt(t, n, b) && Release(b.off) !in es && InPayload(b, i)
      ensures i < |m| && m2[i] == Latest(es, i, m[i])
    {
      StepKeepsLive(t, n, es[0], b);
      assert m1[i] == Latest([es[0]], i, m[i]);
      assert m2[i] == Latest(es[1..], i, m1[i]);
      LatestFirst(es, i, m[i]);
    }
  }

  /** Performs one event on the heap bytes. */
  method Perform(h: Heap, e: Event)
    requires h.Valid() && Legal(h.tree, h.order, e)
    modifies h, h.mem
    ensures h.Valid() && h.tree == Step(old(h.tree), h.order, e)
    ensures Kept(old(h.tree), h.order, old(h.mem[..]), h.mem[..], [e])
  {
    ghost var t, m := h.tree, h.mem[..];
    match e
    case Request(size) =>
      var _ := h.Allocate(size);
      StepKeeps(t, h.order, m, h.mem[..], e);
    case Release(off) =>
      h.Free(h.start + off + 1);
      StepKeeps(t, h.order, m, h.mem[..], e);
    case Write(x, v) =>
      h.Store(x, v);
      StepKeeps(t, h.order, m, h.mem[..], e);
  }

  /** Over any run, every byte of a payload that is not released is what its holder wrote
      there last, or keeps its value, and the headers go on spelling out the specified tree. */
  method Replay(h: Heap, es: seq<Event>)
    requires h.Valid() && LegalRun(h.tree, h.order, es)
    modifies h, h.mem
    ensures h.Valid() && h.tree == RunTree(old(h.tree), h.order, es)
    ensures Kept(old(h.tree), h.order, old(h.mem[..]), h.mem[..], es)
    decreases |es|
  {
    ghost var t, m := h.tree, h.mem[..];
    if es == [] {
      forall b, i | LiveAt(t, h.order, b) && InPayload(b, i) ensures i < |m| { PayloadsApart(t, h.order, b, b, i); }
    } else {
      Perform(h, es[0]);
      ghost var m1 := h.mem[..];
      Replay(h, es[1..]);
      KeptTrans(t, h.order, m, m1, h.mem[..], es);
    }
  }
}
