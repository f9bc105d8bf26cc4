/** The heap as the source sees it: the list of blocks met when walking from the first
    header by `2^order`. The list invariant is stated without the tree and proved to
    describe exactly the fully coalesced trees. */
module BuddyList {
  import opened Bits
  import opened BuddyTree
  import opened BuddyMemory

  /** The blocks of a window at `base`, in address order. */
  function BlockList(t: Tree, base: nat, n: nat): seq<Block>
    requires Fits(t, n)
    decreases t
  {
    match t
    case Leaf(u) => [Block(base, n, u)]
    case Node(l, r) => BlockList(l, base, n - 1) + BlockList(r, base + Pow2(n - 1), n - 1)
  }

  /** The walk of arch/x86/mm/alloc.c:73-89: read a header, step over its block. */
  function WalkMemory(m: seq<Byte>, off: nat, end: nat): seq<Block>
    requires end <= |m|
    decreases end - off
  {
    if off >= end then []
    else
      var b := Block(off, SizeField(m[off]), UsedField(m[off]));
      [b] + WalkMemory(m, off + Pow2(b.order), end)
  }

  /** Consecutive blocks that cover `[a, e)` exactly. */
  predicate Tiles(bs: seq<Block>, a: nat, e: nat) {
    if bs == [] then a == e
    else bs[0].off == a && Tiles(bs[1..], a + Pow2(bs[0].order), e)
  }

  predicate Multiple(x: nat, q: nat, k: nat) {
    x == q * Pow2(k)
  }

  ghost predicate Aligned(x: nat, k: nat) {
    exists q: nat :: Multiple(x, q, k)
  }

  /** `c` lies at the XOR address of `b` and both are free blocks of one order. */
  predicate FreeBuddies(b: Block, c: Block) {
    !b.used && !c.used && b.order == c.order && c.off == Xor(b.off, Pow2(b.order))
  }

  /** The allocator's global invariant on the walked list. */
  ghost predicate ListInvariant(bs: seq<Block>, n: nat) {
    && Tiles(bs, 0, Pow2(n))
    && (forall b :: b in bs ==> MIN_ORDER <= b.order <= n && Aligned(b.off, b.order))
    && (forall b, c :: b in bs && c in bs ==> !FreeBuddies(b, c))
  }

  // ----- The walk reads the tree

  lemma {:induction false} WalkAppend(m: seq<Byte>, base: nat, n: nat, t: Tree, end: nat)
    requires Fits(t, n) && n < 128 && base + Pow2(n) <= end <= |m| && Layout(m, base, n, t)
    ensures WalkMemory(m, base, end) == BlockList(t, base, n) + WalkMemory(m, base + Pow2(n), end)
    decreases t
  {
    if t.Node? {
      WalkAppend(m, base, n - 1, t.left, end);
      WalkAppend(m, base + Pow2(n - 1), n - 1, t.right, end);
    }
  }

  /** Walking the header bytes meets exactly the blocks of the tree. */
  lemma WalkReadsTree(m: seq<Byte>, n: nat, t: Tree)
    requires Fits(t, n) && n < 128 && Pow2(n) <= |m| && Layout(m, 0, n, t)
    ensures WalkMemory(m, 0, Pow2(n)) == BlockList(t, 0, n)
  {
    WalkAppend(m, 0, n, t, Pow2(n));
  }

  // ----- Every coalesced tree satisfies the list invariant

  lemma {:induction false} TilesAppend(xs: seq<Block>, ys: seq<Block>, a: nat, mid: nat, e: nat)
    requires Tiles(xs, a, mid) && Tiles(ys, mid, e)
    ensures Tiles(xs + ys, a, e)
    decreases |xs|
  {
    if xs == [] {
      assert xs + ys == ys;
    } else {
      assert (xs + ys)[1..] == xs[1..] + ys;
      TilesAppend(xs[1..], ys, a + Pow2(xs[0].order), mid, e);
    }
  }

  lemma {:induction false} ListTiles(t: Tree, base: nat, n: nat)
    requires Fits(t, n)
    ensures Tiles(BlockList(t, base, n), base, base + Pow2(n))
    decreases t
  {
    if t.Node? {
      var h := Pow2(n - 1);
      ListTiles(t.left, base, n - 1);
      ListTiles(t.right, base + h, n - 1);
      TilesAppend(BlockList(t.left, base, n - 1), BlockList(t.right, base + h, n - 1), base, base + h, base + 2 * h);
    }
  }

  lemma {:induction false} ListMember(t: Tree, base: nat, n: nat, b: Block)
    requires Fits(t, n) && b in BlockList(t, base, n)
    ensures base <= b.off && IsHead(t, n, b.off - base) && Owner(t, n, b.off - base).Shift(base) == b
    decreases t
  {
    if t.Node? {
      var h := Pow2(n - 1);
      if b in BlockList(t.left, base, n - 1) {
        ListMember(t.left, base, n - 1, b);
      } else {
        ListMember(t.right, base + h, n - 1, b);
      }
    }
  }

  lemma {:induction false} SubCoalesced(t: Tree, n: nat, c: nat, j: nat)
    requires Fits(t, n) && Window(t, n, c, j) && Coalesced(t)
    ensures Coalesced(Sub(t, n, c, j))
  {
    if n > j {
      var h := Pow2(n - 1);
      if c < h { SubCoalesced(t.left, n - 1, c, j); } else { SubCoalesced(t.right, n - 1, c - h, j); }
    }
  }

  /** In a coalesced heap the XOR address of a free block is never a free block of the
      same order. */
  lemma NoFreeBuddies(t: Tree, n: nat, b: Block, c: Block)
    requires Fits(t, n) && Coalesced(t) && b in BlockList(t, 0, n) && c in BlockList(t, 0, n)
    ensures !FreeBuddies(b, c)
  {
    ListMember(t, 0, n, b);
    ListMember(t, 0, n, c);
    HeadWindow(t, n, b.off);
    HeadWindow(t, n, c.off);
    if FreeBuddies(b, c) {
      if b.order == n {
        TopBuddy(n);
      } else {
        BuddyWindow(t, n, b.off, b.order);
        SubCoalesced(t, n, if c.off > b.off then b.off else c.off, b.order + 1);
      }
    }
  }

  lemma ListAligned(t: Tree, n: nat, b: Block)
    requires Fits(t, n) && b in BlockList(t, 0, n)
    ensures MIN_ORDER <= b.order <= n && Aligned(b.off, b.order)
  {
    ListMember(t, 0, n, b);
    HeadWindow(t, n, b.off);
    var q := WindowAligned(t, n, b.off, b.order);
    assert Multiple(b.off, q, b.order);
  }

  lemma TreeGivesInvariant(t: Tree, n: nat)
    requires Fits(t, n) && Coalesced(t)
    ensures ListInvariant(BlockList(t, 0, n), n)
  {
    hide Fits, Coalesced, FreeBuddies, Aligned, BlockList, Tiles;
    ListTiles(t, 0, n);
    forall b | b in BlockList(t, 0, n) ensures MIN_ORDER <= b.order <= n && Aligned(b.off, b.order) {
      ListAligned(t, n, b);
    }
    forall b, c | b in BlockList(t, 0, n) && c in BlockList(t, 0, n) ensures !FreeBuddies(b, c) {
      NoFreeBuddies(t, n, b, c);
    }
  }

  // ----- Every list with the invariant comes from a coalesced tree

  lemma {:induction false} TilesBounds(bs: seq<Block>, a: nat, e: nat, b: Block)
    requires Tiles(bs, a, e)
    ensures a <= e && (bs == [] <==> a == e)
    ensures b in bs ==> a <= b.off && b.off + Pow2(b.order) <= e
    decreases |bs|
  {
    if bs != [] { TilesBounds(bs[1..], a + Pow2(bs[0].order), e, b); }
  }

  /** A tiling in which no block straddles `mid` splits there. */
  lemma {:induction false} TilesSplit(bs: seq<Block>, a: nat, mid: nat, e: nat) returns (i: nat)
    requires Tiles(bs, a, e) && a <= mid <= e
    requires forall b :: b in bs && b.off < mid ==> b.off + Pow2(b.order) <= mid
    ensures i <= |bs| && Tiles(bs[..i], a, mid) && Tiles(bs[i..], mid, e)
    decreases |bs|
  {
    if a == mid {
      i := 0;
      assert bs[0..] == bs;
    } else {
      TilesBounds(bs, a, e, Block(0, 0, false));
      var j := TilesSplit(bs[1..], a + Pow2(bs[0].order), mid, e);
      i := j + 1;
      assert bs[..i] == [bs[0]] + bs[1..][..j];
      assert bs[i..] == bs[1..][j..];
    }
  }

  lemma NoStraddle(off: nat, k: nat, q: nat, base: nat, n: nat)
    requires Aligned(off, k) && k < n && base == q * Pow2(n) && off < base + Pow2(n - 1)
    ensures off + Pow2(k) <= base + Pow2(n - 1)
  {
    var p :| Multiple(off, p, k);
    Pow2Add(n - 1 - k, k);
    StraddleArithmetic(p, q, Pow2(n - 1 - k), Pow2(k));
  }

  lemma StraddleArithmetic(p: nat, q: nat, s: nat, m: nat)
    requires p * m < q * (2 * (s * m)) + s * m
    ensures p * m + m <= q * (2 * (s * m)) + s * m
  {
    var r := 2 * (q * s) + s;
    assert r * m == q * (2 * (s * m)) + s * m;
    MulOrder(p, r, m);
  }

  lemma MulOrder(a: nat, b: nat, m: nat)
    ensures if a < b then a * m + m <= b * m else b * m <= a * m
  {
    if a < b { assert (b - a - 1) * m >= 0; } else { assert (a - b) * m >= 0; }
  }

  /** A tiling by smaller blocks splits at the middle of its window. */
  lemma SplitAtHalf(bs: seq<Block>, q: nat, base: nat, n: nat) returns (i: nat)
    requires n > 0 && base == q * Pow2(n) && Tiles(bs, base, base + Pow2(n)) && bs != [] && bs[0].order < n
    requires forall b :: b in bs ==> Aligned(b.off, b.order)
    ensures i <= |bs| && Tiles(bs[..i], base, base + Pow2(n - 1)) && Tiles(bs[i..], base + Pow2(n - 1), base + Pow2(n))
  {
    var mid := base + Pow2(n - 1);
    forall b | b in bs && b.off < mid ensures b.off + Pow2(b.order) <= mid {
      SmallBlocks(bs, base, n, b);
      NoStraddle(b.off, b.order, q, base, n);
    }
    i := TilesSplit(bs, base, mid, base + Pow2(n));
  }

  lemma HalfBases(q: nat, h: nat)
    ensures 2 * q * h == q * (2 * h) && (2 * q + 1) * h == q * (2 * h) + h
  {
  }

  lemma FirstOrder(bs: seq<Block>, base: nat, n: nat)
    requires Tiles(bs, base, base + Pow2(n))
    ensures bs != [] && bs[0].order <= n
    ensures bs[0].order == n ==> bs == [bs[0]] && bs[0].off == base
  {
    TilesBounds(bs, base, base + Pow2(n), Block(0, 0, false));
    TilesBounds(bs, base, base + Pow2(n), bs[0]);
    if bs[0].order > n { Pow2Monotone(n, bs[0].order); }
    TilesBounds(bs[1..], base + Pow2(bs[0].order), base + Pow2(n), bs[0]);
  }

  /** Rebuilds the tree of an aligned tiling by halving. */
  lemma {:induction false} BuildTree(bs: seq<Block>, q: nat, base: nat, n: nat) returns (t: Tree)
    requires base == q * Pow2(n) && Tiles(bs, base, base + Pow2(n))
    requires forall b :: b in bs ==> MIN_ORDER <= b.order && Aligned(b.off, b.order)
    ensures Fits(t, n) && BlockList(t, base, n) == bs
    decreases n
  {
    hide Aligned, Tiles;
    FirstOrder(bs, base, n);
    if bs[0].order == n {
      t := Leaf(bs[0].used);
    } else {
      var h := Pow2(n - 1);
      var i := SplitAtHalf(bs, q, base, n);
      assert Pow2(n) == 2 * h;
      HalfBases(q, h);
      var l := BuildTree(bs[..i], 2 * q, base, n - 1);
      var r := BuildTree(bs[i..], 2 * q + 1, base + h, n - 1);
      assert bs == bs[..i] + bs[i..];
      t := Node(l, r);
    }
  }

  /** When the first block is smaller than the window, so are all the others. */
  lemma SmallBlocks(bs: seq<Block>, base: nat, n: nat, b: Block)
    requires Tiles(bs, base, base + Pow2(n)) && b in bs && bs[0].order < n
    ensures b.order < n
  {
    if b != bs[0] {
      assert b in bs[1..];
      TilesBounds(bs[1..], base + Pow2(bs[0].order), base + Pow2(n), b);
      if b.order >= n { Pow2Monotone(n, b.order); }
    }
  }

  lemma {:induction false} XorAligned(q: nat, k: nat)
    ensures Xor(q * Pow2(k + 1), Pow2(k)) == q * Pow2(k + 1) + Pow2(k)
  {
    hide Xor;
    var c := q * Pow2(k);
    assert q * Pow2(k + 1) == 2 * c && 2 * c / 2 == c;
    XorUnfold(2 * c, Pow2(k));
    if k == 0 {
      XorZero(c);
    } else {
      assert Pow2(k) % 2 == 0 && Pow2(k) / 2 == Pow2(k - 1);
      XorAligned(q, k - 1);
    }
  }

  lemma {:induction false} CoalescedFromList(t: Tree, q: nat, base: nat, n: nat)
    requires Fits(t, n) && base == q * Pow2(n)
    requires forall b, c :: b in BlockList(t, base, n) && c in BlockList(t, base, n) ==> !FreeBuddies(b, c)
    ensures Coalesced(t)
    decreases t
  {
    hide Xor;
    if t.Node? {
      var h := Pow2(n - 1);
      HalfBases(q, h);
      var xs, ys := BlockList(t.left, base, n - 1), BlockList(t.right, base + h, n - 1);
      assert BlockList(t, base, n) == xs + ys;
      assert forall b :: b in xs + ys <==> b in xs || b in ys;
      CoalescedFromList(t.left, 2 * q, base, n - 1);
      CoalescedFromList(t.right, 2 * q + 1, base + h, n - 1);
      XorAligned(q, n - 1);
      var bl, br := Block(base, n - 1, false), Block(base + h, n - 1, false);
      assert FreeBuddies(bl, br);
      assert t.left == Leaf(false) ==> bl in xs;
      assert t.right == Leaf(false) ==> br in ys;
    }
  }

  /** The list invariant holds of exactly the block lists of fully coalesced trees. */
  lemma InvariantIsTree(bs: seq<Block>, n: nat)
    ensures ListInvariant(bs, n) <==> exists t :: Fits(t, n) && Coalesced(t) && BlockList(t, 0, n) == bs
  {
    if ListInvariant(bs, n) {
      var t := BuildTree(bs, 0, 0, n);
      CoalescedFromList(t, 0, 0, n);
    } else if exists t :: Fits(t, n) && Coalesced(t) && BlockList(t, 0, n) == bs {
      var t :| Fits(t, n) && Coalesced(t) && BlockList(t, 0, n) == bs;
      TreeGivesInvariant(t, n);
    }
  }
}
