/** The kernel's buddy allocator (arch/x86/mm/alloc.c) over a mutable byte array. */
module BuddyHeap {
  import opened Options
  import opened Bits
  import opened BuddyTree
  import opened BuddyLaws
  import opened BuddyMemory
  import opened BuddyList
  import opened BuddyInit

  // ----- Rounding a request

  /** The least order, not below the minimum, whose block is larger than `size`. */
  ghost predicate IsRoundOrder(size: nat, k: nat) {
    k >= MIN_ORDER && size < Pow2(k) && (k > MIN_ORDER ==> Pow2(k - 1) <= size)
  }

  /** The order `RoundBlockSize` computes, as a recursion upwards from `k`. */
  function RoundFrom(size: nat, k: nat): (r: nat)
    requires size < Pow2(31) && k <= 31
    ensures k <= r <= 31 && size < Pow2(r) && (r > k ==> Pow2(r - 1) <= size)
    decreases 31 - k
  {
    if size < Pow2(k) then k else RoundFrom(size, k + 1)
  }

  function RoundOrder(size: nat): (r: nat)
    requires size < Pow2(31)
    ensures IsRoundOrder(size, r) && r <= 31
  {
    RoundFrom(size, MIN_ORDER)
  }

  lemma RoundUnique(size: nat, k: nat, r: nat)
    requires IsRoundOrder(size, k) && IsRoundOrder(size, r)
    ensures k == r
  {
    if k < r { Pow2Monotone(k, r - 1); } else if r < k { Pow2Monotone(r, k - 1); }
  }

  lemma RoundOrderUnique(size: nat, k: nat)
    requires size < Pow2(31) && IsRoundOrder(size, k)
    ensures k == RoundOrder(size)
  {
    RoundUnique(size, k, RoundOrder(size));
  }

  /** Requests that C defines the shifts for: beyond them `size >> 32` is undefined. */
  predicate Shiftable(size: Word) {
    (size + 1) % WORD < Pow2(31)
  }

  /** The order a request is served with; `size + 1` wraps around at 32 bits. */
  function RequestOrder(size: Word): (k: nat)
    requires Shiftable(size)
    ensures MIN_ORDER <= k <= 31
  {
    RoundOrder((size + 1) % WORD)
  }

  /** The order of a request, in numbers: the least one from 3 up whose block is larger than
      `size + 1` modulo 2^32. */
  lemma RequestOrderIs(size: Word, k: nat)
    requires Shiftable(size)
    ensures var n := (size + 1) % 0x1_0000_0000;
      k == RequestOrder(size) <==> k >= 3 && n < Pow2(k) && (k > 3 ==> Pow2(k - 1) <= n)
  {
    if IsRoundOrder((size + 1) % WORD, k) { RoundOrderUnique((size + 1) % WORD, k); }
  }

  lemma ShiftableIs(size: Word)
    ensures Shiftable(size) <==> size < 0x7FFF_FFFF || size == 0xFFFF_FFFF
  {
    WordSize();
  }

  /** A block of the request's order has room for its header byte and `size` payload
      bytes for every request except the one whose `size + 1` wraps to zero. */
  lemma RequestHasRoom(size: Word)
    requires Shiftable(size)
    ensures 1 + size <= Pow2(RequestOrder(size)) <==> size != WORD - 1
  {
    if size == WORD - 1 { RoundOrderUnique(0, MIN_ORDER); }
  }

  /** Once the shift has come to zero, the size no longer exceeds the power of two, so the
      last comparison of `round_block_size` never raises the order. */
  lemma LastComparison(size: nat, k: nat)
    requires Shr(size, k) == 0
    ensures !(size > Pow2(k))
  {
    ShrZero(size, k);
  }

  method RoundBlockSize(size: Word) returns (r: nat)
    requires size < Pow2(31)
    ensures IsRoundOrder(size, r) && r == RoundOrder(size)
  {
    var blockSize := MIN_ORDER - 1;
    blockSize := blockSize + 1;
    ShrZero(size, blockSize);
    while Shr(size, blockSize) != 0
      invariant MIN_ORDER <= blockSize <= 31
      invariant Shr(size, blockSize) == 0 <==> size < Pow2(blockSize)
      invariant blockSize > MIN_ORDER ==> Pow2(blockSize - 1) <= size
      decreases 31 - blockSize
    {
      blockSize := blockSize + 1;
      ShrZero(size, blockSize);
    }
    LastComparison(size, blockSize);
    var extra: int := if size > Pow2(blockSize) then 1 else 0;
    r := blockSize + extra;
    RoundOrderUnique(size, r);
  }

  // ----- Splitting in memory

  /** The bytes `split_block` writes. */
  function SplitBytes(m: seq<Byte>, off: nat): (r: seq<Byte>)
    requires off < |m| && 0 < SizeField(m[off]) && off + Pow2(SizeField(m[off]) - 1) < |m|
    ensures |r| == |m|
  {
    var j := SizeField(m[off]) - 1;
    m[off + Pow2(j) := Header(j, false)][off := Header(j, UsedField(m[off]))]
  }

  /** Each split carves the leading block one order smaller. */
  lemma {:induction false} CarveSplit(m: seq<Byte>, off: nat, n: nat, j: nat)
    requires MIN_ORDER < j <= n < 128 && off + Pow2(n) <= |m|
    requires Layout(m, off, n, Carve(n, j, false))
    ensures m[off] == Header(j, false)
    ensures off + Pow2(j - 1) < |m| && SameOutside(m, SplitBytes(m, off), off, off + Pow2(n))
    ensures Layout(SplitBytes(m, off), off, n, Carve(n, j - 1, false))
  {
    if n == j {
      var r := SplitBytes(m, off);
      assert Carve(n, j - 1, false) == Node(Leaf(false), Leaf(false));
      assert Layout(r, off, n - 1, Leaf(false)) && Layout(r, off + Pow2(j - 1), n - 1, Leaf(false));
    } else {
      CarveSplit(m, off, n - 1, j);
      LayoutFrame(m, SplitBytes(m, off), off + Pow2(n - 1), n - 1, Leaf(false));
    }
  }

  /** Marking the leading block used. */
  lemma {:induction false} CarveMark(m: seq<Byte>, off: nat, n: nat, k: nat)
    requires MIN_ORDER <= k <= n < 128 && off + Pow2(n) <= |m|
    requires Layout(m, off, n, Carve(n, k, false))
    ensures m[off] == Header(k, false)
    ensures Layout(m[off := Header(k, true)], off, n, Carve(n, k, true))
  {
    if n > k {
      CarveMark(m, off, n - 1, k);
      LayoutFrame(m, m[off := Header(k, true)], off + Pow2(n - 1), n - 1, Leaf(false));
    }
  }

  // ----- The first requests

  lemma {:induction false} CarveNext(n: nat, k: nat)
    requires MIN_ORDER <= k < n
    ensures Pow2(k) < Pow2(n) && Owner(Carve(n, k, true), n, Pow2(k)) == Block(Pow2(k), k, false)
  {
    Pow2Monotone(k, n - 1);
    if k < n - 1 {
      CarveNext(n - 1, k);
      OwnerNode(Carve(n - 1, k, true), Leaf(false), n, Pow2(k));
    }
  }

  /** On a fresh heap the first request gets the lowest block, and a second one of the same
      order the block behind it. */
  lemma FirstGrants(n: nat, k: nat)
    requires 3 <= k < n
    ensures AllocTree(Leaf(false), n, k) == Some((Carve(n, k, true), 0))
    ensures AllocTree(Carve(n, k, true), n, k).Some? && AllocTree(Carve(n, k, true), n, k).value.1 == Pow2(k)
  {
    var t := Carve(n, k, true);
    CarveNext(n, k);
    CarveOwner(n, k, true, 0);
    forall y | 0 <= y < Pow2(k) ensures !Owner(t, n, y).Suits(k) { CarveOwner(n, k, true, y); }
    FirstFitIs(t, n, k, Pow2(k));
  }

  /** The header bytes after the first request: the block's order with the used bit 0x80,
      and behind it one free block of each order up to the heap's. */
  lemma {:induction false} FirstHeaders(m: seq<Byte>, n: nat, k: nat, j: nat)
    requires 3 <= k <= n < 128 && Pow2(n) <= |m| && Layout(m, 0, n, Carve(n, k, true))
    ensures m[0] == k + 0x80
    ensures k <= j < n ==> Pow2(j) < |m| && m[Pow2(j)] == j
  {
    if k < n {
      if j < n - 1 { Pow2Monotone(j, n - 1); }
      FirstHeaders(m, n - 1, k, j);
    }
  }

  // ----- Coalescing on the tree

  /** The window `[c, c + 2^j)`, which held the released block at `x`, is now one
      free block. */
  ghost predicate Collapsed(t: Tree, n: nat, x: nat, c: nat, j: nat)
    requires Fits(t, n)
  {
    && Window(t, n, c, j) && c <= x < c + Pow2(j)
    && FreeTree(Sub(t, n, c, j), j, x - c) == Leaf(false)
  }

  lemma CollapsedStart(t: Tree, n: nat, x: nat)
    requires Fits(t, n) && IsHead(t, n, x)
    ensures Collapsed(t, n, x, x, Owner(t, n, x).order)
  {
    HeadWindow(t, n, x);
  }

  /** One round of the loop: a free undivided buddy doubles the collapsed window. */
  lemma CollapsedMerge(t: Tree, n: nat, x: nat, c: nat, j: nat)
    requires Fits(t, n) && Collapsed(t, n, x, c, j) && j < n
    requires Window(t, n, Xor(c, Pow2(j)), j) && Sub(t, n, Xor(c, Pow2(j)), j) == Leaf(false)
    ensures var b := Xor(c, Pow2(j)); Collapsed(t, n, x, if b > c then c else b, j + 1)
  {
    BuddyWindow(t, n, c, j);
  }

  /** The loop's exit: when no further merge is possible the tree is `FreeTree`'s. */
  lemma {:induction false} CollapsedDone(t: Tree, n: nat, x: nat, c: nat, j: nat)
    requires Fits(t, n) && Collapsed(t, n, x, c, j) && x < Pow2(n)
    requires j < n ==> Window(t, n, Xor(c, Pow2(j)), j) && Sub(t, n, Xor(c, Pow2(j)), j) != Leaf(false)
    ensures FreeTree(t, n, x) == Plug(t, n, c, j, Leaf(false))
  {
    if j < n {
      var h := Pow2(n - 1);
      WindowLevel(t, n, c, j);
      if c < h { DoneLeft(t, n, x, c, j); } else { DoneRight(t, n, x, c, j); }
    }
  }

  lemma DoneLeft(t: Tree, n: nat, x: nat, c: nat, j: nat)
    requires Fits(t, n) && Collapsed(t, n, x, c, j) && x < Pow2(n) && j < n && c < Pow2(n - 1)
    requires Window(t, n, Xor(c, Pow2(j)), j) && Sub(t, n, Xor(c, Pow2(j)), j) != Leaf(false)
    ensures FreeTree(t, n, x) == Plug(t, n, c, j, Leaf(false))
    decreases t, 0
  {
    hide Xor, Pow2;
    var m := n - 1;
    Pow2Step(m);
    WindowLevel(t.left, m, c, j);
    BuddyWindow(t, n, c, j);
    if j < m {
      XorHighBit(c, m, j);
      BuddyWindow(t.left, m, c, j);
      CollapsedDone(t.left, m, x, c, j);
    }
  }

  lemma DoneRight(t: Tree, n: nat, x: nat, c: nat, j: nat)
    requires Fits(t, n) && Collapsed(t, n, x, c, j) && x < Pow2(n) && j < n && c >= Pow2(n - 1)
    requires Window(t, n, Xor(c, Pow2(j)), j) && Sub(t, n, Xor(c, Pow2(j)), j) != Leaf(false)
    ensures FreeTree(t, n, x) == Plug(t, n, c, j, Leaf(false))
    decreases t, 0
  {
    hide Xor, Pow2;
    var m := n - 1;
    var h := Pow2(m);
    Pow2Step(m);
    WindowLevel(t.right, m, c - h, j);
    BuddyWindow(t, n, c, j);
    if j < m {
      XorHighBit(c - h, m, j);
      BuddyWindow(t.right, m, c - h, j);
      CollapsedDone(t.right, m, x - h, c - h, j);
    }
  }

  // ----- The allocator

  /** A byte of a free block. */
  predicate FreeByte(t: Tree, n: nat, i: nat)
    requires Fits(t, n)
  {
    i < Pow2(n) && !Owner(t, n, i).used
  }

  /** The walk has reached offset `off`, the start of a block, the byte at `end` or the
      address after it, and no block passed so far suits. */
  ghost predicate Walked(t: Tree, n: nat, off: nat, k: nat)
    requires Fits(t, n)
  {
    && (off == Pow2(n) || off == Pow2(n) + 1 || IsHead(t, n, off))
    && forall y :: 0 <= y < off && y < Pow2(n) ==> !Owner(t, n, y).Suits(k)
  }

  /** One step of the walk: the header read there either suits, at a real block, or is
      stepped over. The zero byte at `end` never suits and has length one. */
  lemma WalkStep(m: seq<Byte>, t: Tree, n: nat, off: nat, k: nat)
    requires Fits(t, n) && n < 128 && |m| == Pow2(n) + 1 && Layout(m, 0, n, t) && m[Pow2(n)] == 0
    requires Walked(t, n, off, k) && off <= Pow2(n) && MIN_ORDER <= k
    ensures !UsedField(m[off]) && SizeField(m[off]) >= k ==> IsHead(t, n, off) && Owner(t, n, off).Suits(k)
    ensures !(!UsedField(m[off]) && SizeField(m[off]) >= k) ==> Walked(t, n, off + Pow2(SizeField(m[off])), k)
    ensures off + Pow2(SizeField(m[off])) <= Pow2(n) + 1
  {
    hide Owner, Layout, Fits, IsHead, Pow2;
    if off < Pow2(n) {
      WalkBlock(m, t, n, off);
    } else {
      assert Pow2(0) == 1 by { PowZero(); }
    }
  }

  lemma PowZero()
    ensures Pow2(0) == 1
  {
  }

  lemma WalkBlock(m: seq<Byte>, t: Tree, n: nat, off: nat)
    requires Fits(t, n) && n < 128 && Pow2(n) <= |m| && Layout(m, 0, n, t) && IsHead(t, n, off)
    ensures var b := Owner(t, n, off);
      && m[off] == Header(b.order, b.used)
      && off + Pow2(b.order) <= Pow2(n)
      && (off + Pow2(b.order) == Pow2(n) || IsHead(t, n, off + Pow2(b.order)))
      && forall y :: off <= y < off + Pow2(b.order) ==> Owner(t, n, y) == b
  {
    hide Owner, Layout, Fits;
    LayoutHead(m, 0, n, t, off);
    NextIsHead(t, n, off);
    forall y | off <= y < off + Pow2(Owner(t, n, off).order) ensures Owner(t, n, y) == Owner(t, n, off) {
      SameOwner(t, n, off, y);
    }
  }

  /** Two memories differ only in bytes of blocks that are free in `t`. */
  ghost predicate OnlyFree(m: seq<Byte>, m': seq<Byte>, t: Tree, n: nat)
    requires Fits(t, n)
  {
    |m| == |m'| && forall i :: 0 <= i < |m| && m'[i] != m[i] ==> FreeByte(t, n, i)
  }

  class Heap {
    /** Address of the first header (`alloc_info.start`). */
    const start: nat
    /** `end - start` is `2^order`, so the byte at `end` lies outside every block. */
    const order: nat
    const mem: array<Byte>
    /** The block structure that the header bytes spell out. */
    ghost var tree: Tree

    ghost predicate Valid()
      reads this, mem
    {
      && MIN_ORDER <= order <= 30
      && start + Pow2(order) + 1 < WORD
      && mem.Length == Pow2(order) + 1
      && Fits(tree, order) && Coalesced(tree)
      && Layout(mem[..], 0, order, tree)
      && mem[Pow2(order)] == 0
    }

    /** `init_memory` on a heap whose length is a power of two: one free block. The last
        byte is never written, so memory there must start zeroed. */
    constructor (mem: array<Byte>, start: nat, order: nat)
      requires MIN_ORDER <= order <= 30 && start + Pow2(order) + 1 < WORD
      requires mem.Length == Pow2(order) + 1 && mem[Pow2(order)] == 0
      modifies mem
      ensures Valid() && tree == Leaf(false)
      ensures this.mem == mem && this.start == start && this.order == order
    {
      this.mem, this.start, this.order, this.tree := mem, start, order, Leaf(false);
      new;
      WholeHeapUnits(order);
      InitMemory(mem, start);
      assert Block(0, order, false) in InitialBlocks(mem.Length / 8, MIN_ORDER, 0);
    }

    static lemma WholeHeapUnits(n: nat)
      requires MIN_ORDER <= n
      ensures InitialBlocks((Pow2(n) + 1) / 8, MIN_ORDER, 0) == [Block(0, n, false)]
    {
      hide Pow2, InitialBlocks;
      var u := Pow2(n - 3);
      Pow2Add(n - 3, 3);
      ShrThree(0);
      assert (8 * u + 1) / 8 == u;
      PowerOfTwoUnits(n - 3, MIN_ORDER, 0);
    }

    /** Walking the headers meets blocks that tile the heap, each aligned to its own
        size, with orders in range and no two free buddies. */
    lemma WalkInvariant()
      requires Valid()
      ensures ListInvariant(WalkMemory(mem[..], 0, Pow2(order)), order)
    {
      WalkReadsTree(mem[..], order, tree);
      TreeGivesInvariant(tree, order);
    }

    /** The block at a payload address is in use. */
    ghost predicate LivePayload(p: nat)
      requires Valid()
      reads this, mem
    {
      p > start && IsHead(tree, order, p - 1 - start) && Owner(tree, order, p - 1 - start).used
    }

    /** `split_block` (arch/x86/mm/alloc.c:14-24). */
    method SplitBlock(block: nat)
      requires start <= block < start + mem.Length && 0 < SizeField(mem[block - start])
      requires block - start + Pow2(SizeField(mem[block - start]) - 1) < mem.Length
      modifies mem
      ensures mem[..] == SplitBytes(old(mem[..]), block - start)
    {
      var newSize := SizeField(mem[block - start]) - 1;
      var newBuddy := block + Pow2(newSize);
      mem[newBuddy - start] := Header(newSize, false);
      mem[block - start] := Header(newSize, UsedField(mem[block - start]));
    }

    /** The inner loop of `memory_allocate`: splits the free block at `off` down to
        order `k` and marks it used (arch/x86/mm/alloc.c:75-81). */
    method SplitAndMark(off: nat, ghost j0: nat, k: nat)
      requires MIN_ORDER <= k <= j0 < 128 && off + Pow2(j0) <= mem.Length
      requires mem[off] == Header(j0, false)
      modifies mem
      ensures SameOutside(old(mem[..]), mem[..], off, off + Pow2(j0))
      ensures Layout(mem[..], off, j0, Carve(j0, k, true))
    {
      ghost var j := j0;
      while SizeField(mem[off]) > k
        invariant k <= j <= j0 && mem[off] == Header(j, false)
        invariant SameOutside(old(mem[..]), mem[..], off, off + Pow2(j0))
        invariant Layout(mem[..], off, j0, Carve(j0, j, false))
        decreases j
      {
        CarveSplit(mem[..], off, j0, j);
        SplitBlock(start + off);
        j := j - 1;
        CarveMark(mem[..], off, j0, j);
      }
      CarveMark(mem[..], off, j0, k);
      mem[off] := Header(SizeField(mem[off]), true);
    }

    /** Takes the first block that suits. */
    method Take(off: nat, k: nat)
      requires Valid() && MIN_ORDER <= k && IsHead(tree, order, off) && Owner(tree, order, off).Suits(k)
      requires forall y :: 0 <= y < off ==> !Owner(tree, order, y).Suits(k)
      modifies this, mem
      ensures Valid() && AllocTree(old(tree), order, k) == Some((tree, off))
      ensures IsHead(tree, order, off) && Owner(tree, order, off).used
      ensures OnlyFree(old(mem[..]), mem[..], old(tree), order)
    {
      ghost var j0 := Owner(tree, order, off).order;
      LayoutHead(mem[..], 0, order, tree, off);
      AllocHere(off, k);
      SplitAndMark(off, j0, k);
      LayoutPlug(old(mem[..]), mem[..], 0, order, tree, off, j0, Carve(j0, k, true));
      assert mem[..][Pow2(order)] == old(mem[..])[Pow2(order)];
      tree := Plug(tree, order, off, j0, Carve(j0, k, true));
    }

    /** `memory_allocate` (arch/x86/mm/alloc.c:68-93). */
    method Allocate(size: Word) returns (p: Word)
      requires Valid() && Shiftable(size)
      modifies this, mem
      ensures Valid()
      ensures match AllocTree(old(tree), order, RequestOrder(size))
        case None => p == 0 && tree == old(tree) && mem[..] == old(mem[..])
        case Some((t, off)) => tree == t && p == start + off + 1 && LivePayload(p)
      ensures OnlyFree(old(mem[..]), mem[..], old(tree), order)
    {
      hide Owner, Layout, Fits, Window, Pow2, Coalesced, FirstFit;
      ghost var m, t := mem[..], tree;
      var end := start + mem.Length - 1;
      var allocAddr := start;
      var actualSize := RoundBlockSize((size + 1) % WORD);
      ZeroIsHead(t, order);
      while allocAddr <= end
        invariant start <= allocAddr <= end + 1
        invariant Valid() && mem[..] == m && tree == t
        invariant Walked(t, order, allocAddr - start, actualSize)
        decreases end + 1 - allocAddr
      {
        var h := mem[allocAddr - start];
        assert h == m[allocAddr - start];
        WalkStep(m, t, order, allocAddr - start, actualSize);
        if !UsedField(h) && SizeField(h) >= actualSize {
          Take(allocAddr - start, actualSize);
          return allocAddr + 1;
        }
        allocAddr := allocAddr + Pow2(SizeField(h));
      }
      FirstFitSound(t, order, actualSize);
      p := 0;
    }

    /** The first head found to suit is where `AllocTree` allocates. */
    lemma AllocHere(off: nat, k: nat)
      requires Valid() && MIN_ORDER <= k && IsHead(tree, order, off) && Owner(tree, order, off).Suits(k)
      requires forall y :: 0 <= y < off ==> !Owner(tree, order, y).Suits(k)
      ensures var o := Owner(tree, order, off).order;
        && Window(tree, order, off, o)
        && AllocTree(tree, order, k) == Some((Plug(tree, order, off, o, Carve(o, k, true)), off))
        && Coalesced(AllocTree(tree, order, k).value.0)
        && IsHead(AllocTree(tree, order, k).value.0, order, off)
        && Owner(AllocTree(tree, order, k).value.0, order, off).used
        && forall i :: off <= i < off + Pow2(o) ==> FreeByte(tree, order, i)
    {
      FirstFitIs(tree, order, k, off);
      HeadWindow(tree, order, off);
      AllocCoalesced(tree, order, k);
      AllocLive(tree, order, k);
      var o := Owner(tree, order, off).order;
      forall i | off <= i < off + Pow2(o) ensures FreeByte(tree, order, i) { SameOwner(tree, order, off, i); }
    }

    // ----- Release

    /** `coalesce_block` (arch/x86/mm/alloc.c:27-52), called for the block whose used
        flag was just cleared. `oldTree` is the structure before the release. */
    method CoalesceBlock(block: nat, offset: nat, ghost m0: seq<Byte>, ghost oldTree: Tree)
      requires MIN_ORDER <= order <= 30 && mem.Length == Pow2(order) + 1 && offset == start
      requires Fits(oldTree, order) && |m0| == mem.Length && Layout(m0, 0, order, oldTree) && m0[Pow2(order)] == 0
      requires start <= block && IsHead(oldTree, order, block - start)
      requires mem[..] == m0[block - start := Header(Owner(oldTree, order, block - start).order, false)]
      modifies mem
      ensures Layout(mem[..], 0, order, FreeTree(oldTree, order, block - start))
      ensures OnlyFree(m0, mem[..], FreeTree(oldTree, order, block - start), order)
    {
      hide Owner, Layout, Fits, Window, Pow2, FreeTree, Sub, Plug, Xor, Collapsed, FreeByte, OnlyFree;
      ghost var x: nat := block - start;
      ghost var c: nat, j: nat := x, Owner(oldTree, order, x).order;
      var buddy1: nat := block;
      CollapsedStart(oldTree, order, x);
      while true
        invariant buddy1 == start + c && Collapsed(oldTree, order, x, c, j) && j <= order
        invariant c + Pow2(j) <= Pow2(order)
        invariant mem[c] == Header(j, false) && SameOutside(m0, mem[..], c, c + Pow2(j))
        decreases order - j
      {
        var buddy2 := Xor(buddy1 - offset, Pow2(SizeField(mem[buddy1 - start]))) + offset;
        CoalesceStep(mem[..], m0, oldTree, order, x, c, j);
        if !UsedField(mem[buddy2 - start]) && SizeField(mem[buddy2 - start]) == SizeField(mem[buddy1 - start]) {
          if buddy2 > buddy1 {
            mem[buddy1 - start] := Header(SizeField(mem[buddy1 - start]) + 1, UsedField(mem[buddy1 - start]));
          } else {
            mem[buddy2 - start] := Header(SizeField(mem[buddy2 - start]) + 1, UsedField(mem[buddy2 - start]));
            buddy1 := buddy2;
          }
          c, j := buddy1 - start, j + 1;
        } else {
          CoalesceExit(mem[..], m0, oldTree, order, x, c, j);
          return;
        }
      }
    }

    /** The block of the top order has the zero byte at `end` for its buddy. */
    static lemma TopStep(t: Tree, n: nat, x: nat, c: nat)
      requires Fits(t, n) && Collapsed(t, n, x, c, n)
      ensures c == 0 && Xor(c, Pow2(n)) == Pow2(n)
    {
      TopBuddy(n);
    }

    /** What one round of coalescing reads at the XOR address, and what it may do. */
    static lemma CoalesceStep(m: seq<Byte>, m0: seq<Byte>, t: Tree, n: nat, x: nat, c: nat, j: nat)
      requires MIN_ORDER <= n <= 30 && |m| == |m0| == Pow2(n) + 1
      requires Fits(t, n) && Layout(m0, 0, n, t) && m0[Pow2(n)] == 0
      requires Collapsed(t, n, x, c, j) && j <= n && c + Pow2(j) <= Pow2(n)
      requires m[c] == Header(j, false) && SameOutside(m0, m, c, c + Pow2(j))
      ensures var b := Xor(c, Pow2(j));
        && b <= Pow2(n)
        && if !UsedField(m[b]) && SizeField(m[b]) == j then
             var lo := if b > c then c else b;
             && j < n && (if b > c then b == c + Pow2(j) else c == b + Pow2(j))
             && Collapsed(t, n, x, lo, j + 1)
             && lo + Pow2(j + 1) <= Pow2(n) && Pow2(j + 1) == 2 * Pow2(j)
             && m[b] == Header(j, false)
           else j < n ==> Window(t, n, b, j) && Sub(t, n, b, j) != Leaf(false)
    {
      hide Owner, Layout, Fits, Window, Sub, FreeTree, Xor, IsHead, Pow2, Collapsed;
      Pow2Step(j);
      if j == n {
        TopStep(t, n, x, c);
      } else {
        BuddyRead(m0, t, n, x, c, j);
        if Sub(t, n, Xor(c, Pow2(j)), j) == Leaf(false) { MergedWindow(t, n, x, c, j); }
      }
    }

    /** The header at the XOR address below the top order, in memory as it was. */
    static lemma BuddyRead(m0: seq<Byte>, t: Tree, n: nat, x: nat, c: nat, j: nat)
      requires Fits(t, n) && n < 128 && Pow2(n) <= |m0| && Layout(m0, 0, n, t)
      requires Collapsed(t, n, x, c, j) && j < n
      ensures var b := Xor(c, Pow2(j));
        && Window(t, n, b, j) && b + Pow2(j) <= Pow2(n)
        && (if b > c then b == c + Pow2(j) else c == b + Pow2(j))
        && (!UsedField(m0[b]) && SizeField(m0[b]) == j <==> Sub(t, n, b, j) == Leaf(false))
        && (Sub(t, n, b, j) == Leaf(false) ==> m0[b] == Header(j, false))
    {
      hide Owner, Layout, Fits, Sub, Xor;
      var b := Xor(c, Pow2(j));
      BuddyWindow(t, n, c, j);
      BuddyIsHead(t, n, c, j);
      WindowLevel(t, n, b, j);
      LayoutHead(m0, 0, n, t, b);
    }

    static lemma MergedWindow(t: Tree, n: nat, x: nat, c: nat, j: nat)
      requires Fits(t, n) && Collapsed(t, n, x, c, j) && j < n
      requires Window(t, n, Xor(c, Pow2(j)), j) && Sub(t, n, Xor(c, Pow2(j)), j) == Leaf(false)
      ensures var b := Xor(c, Pow2(j));
        var lo := if b > c then c else b;
        Collapsed(t, n, x, lo, j + 1) && lo + Pow2(j + 1) <= Pow2(n)
    {
      CollapsedMerge(t, n, x, c, j);
      WindowLevel(t, n, if Xor(c, Pow2(j)) > c then c else Xor(c, Pow2(j)), j + 1);
    }

    static lemma LeafIs(m: seq<Byte>, base: nat, j: nat, used: bool)
      requires MIN_ORDER <= j < 128 && base + Pow2(j) <= |m| && m[base] == Header(j, used)
      ensures Layout(m, base, j, Leaf(used))
      ensures forall y :: 0 <= y < Pow2(j) ==> Owner(Leaf(used), j, y) == Block(0, j, used)
    {
    }

    static lemma CoalesceExit(m: seq<Byte>, m0: seq<Byte>, t: Tree, n: nat, x: nat, c: nat, j: nat)
      requires MIN_ORDER <= n <= 30 && |m| == |m0| == Pow2(n) + 1
      requires Fits(t, n) && Layout(m0, 0, n, t)
      requires Collapsed(t, n, x, c, j) && j <= n && c + Pow2(j) <= Pow2(n)
      requires m[c] == Header(j, false) && SameOutside(m0, m, c, c + Pow2(j))
      requires j < n ==> Window(t, n, Xor(c, Pow2(j)), j) && Sub(t, n, Xor(c, Pow2(j)), j) != Leaf(false)
      ensures x < Pow2(n) && Layout(m, 0, n, FreeTree(t, n, x))
      ensures OnlyFree(m0, m, FreeTree(t, n, x), n)
    {
      hide FreeTree, Window, Sub, Plug, Xor, Owner, Layout, Pow2;
      LeafIs(m, c, j, false);
      CollapsedDone(t, n, x, c, j);
      LayoutPlug(m0, m, 0, n, t, c, j, Leaf(false));
      forall i | 0 <= i < |m| && m[i] != m0[i] ensures FreeByte(FreeTree(t, n, x), n, i) {
        OwnerPlugInside(t, n, c, j, Leaf(false), i - c);
      }
    }

    /** `memory_free` (arch/x86/mm/alloc.c:96-104). The source passes `addr` where the
        header's address `free_addr` is meant (line 103); the model passes `free_addr`. */
    method Free(addr: nat)
      requires Valid() && LivePayload(addr)
      modifies this, mem
      ensures Valid() && tree == FreeTree(old(tree), order, addr - 1 - start)
      ensures OnlyFree(old(mem[..]), mem[..], tree, order)
    {
      var freeAddr := addr - 1;
      ghost var m0, t := mem[..], tree;
      LayoutHead(m0, 0, order, t, freeAddr - start);
      mem[freeAddr - start] := Header(SizeField(mem[freeAddr - start]), false);
      CoalesceBlock(freeAddr, start, m0, t);
      FreeCoalesced(t, order, freeAddr - start);
      tree := FreeTree(t, order, freeAddr - start);
      FreeOwner(t, order, freeAddr - start, freeAddr - start);
    }

    /** A client writes a byte that is no block's header. */
    method Store(x: nat, v: Byte)
      requires Valid() && x < Pow2(order) && !IsHead(tree, order, x)
      modifies mem
      ensures Valid() && mem[..] == old(mem[..])[x := v]
    {
      ghost var m := mem[..];
      mem[x] := v;
      LayoutFrame(m, mem[..], 0, order, tree);
    }
  }
}
