/** Laws of the buddy discipline: what a request and a release change, the canonical
    form that full coalescing gives the heap, and what follows for whole runs. */
module BuddyLaws {
  import opened Options
  import opened Bits
  import opened BuddyTree

  /** The used blocks of a window. */
  ghost function Live(t: Tree, n: nat): set<Block>
    requires Fits(t, n)
  {
    set x | 0 <= x < Pow2(n) && IsHead(t, n, x) && Owner(t, n, x).used :: Owner(t, n, x)
  }

  lemma LiveMember(t: Tree, n: nat, b: Block)
    requires Fits(t, n)
    ensures b in Live(t, n) <==> LiveAt(t, n, b)
  {
  }

  // ----- What one operation changes, byte by byte

  /** What becomes of a byte's owner `o` when the used block `gone` is released. */
  ghost predicate Released(gone: Block, o: Block, f: Block) {
    if o.used && o != gone then f == o else !f.used
  }

  /** A release frees the bytes of one block and keeps every other used block. */
  lemma {:induction false} FreeOwner(t: Tree, n: nat, x: nat, y: nat)
    requires Fits(t, n) && x < Pow2(n) && y < Pow2(n)
    ensures Released(Owner(t, n, x), Owner(t, n, y), Owner(FreeTree(t, n, x), n, y))
  {
    if t.Node? {
      var h := Pow2(n - 1);
      if x < h {
        if y < h { FreeOwner(t.left, n - 1, x, y); }
        FreeOwnerLeft(t.left, t.right, n, x, y);
      } else {
        if y >= h { FreeOwner(t.right, n - 1, x - h, y - h); }
        FreeOwnerRight(t.left, t.right, n, x - h, y);
      }
    }
  }

  lemma FreeOwnerLeft(l: Tree, r: Tree, n: nat, x: nat, y: nat)
    requires Fits(Node(l, r), n) && x < Pow2(n - 1) && y < Pow2(n)
    requires y < Pow2(n - 1) ==>
      Released(Owner(l, n - 1, x), Owner(l, n - 1, y), Owner(FreeTree(l, n - 1, x), n - 1, y))
    ensures Released(Owner(Node(l, r), n, x), Owner(Node(l, r), n, y), Owner(FreeTree(Node(l, r), n, x), n, y))
  {
    var l' := FreeTree(l, n - 1, x);
    assert FreeTree(Node(l, r), n, x) == Merge(l', r);
    MergeOwner(l', r, n, y);
    OwnerNode(l', r, n, y);
    OwnerNode(l, r, n, x);
    OwnerNode(l, r, n, y);
  }

  lemma FreeOwnerRight(l: Tree, r: Tree, n: nat, x: nat, y: nat)
    requires Fits(Node(l, r), n) && x < Pow2(n - 1) && y < Pow2(n)
    requires y >= Pow2(n - 1) ==>
      var z := y - Pow2(n - 1); Released(Owner(r, n - 1, x), Owner(r, n - 1, z), Owner(FreeTree(r, n - 1, x), n - 1, z))
    ensures var x' := x + Pow2(n - 1);
      Released(Owner(Node(l, r), n, x'), Owner(Node(l, r), n, y), Owner(FreeTree(Node(l, r), n, x'), n, y))
  {
    var x' := x + Pow2(n - 1);
    var r' := FreeTree(r, n - 1, x);
    assert FreeTree(Node(l, r), n, x') == Merge(l, r');
    MergeOwner(l, r', n, y);
    OwnerNode(l, r', n, y);
    OwnerNode(l, r, n, x');
    OwnerNode(l, r, n, y);
  }

  /** Merging two halves loses no used block and invents none. */
  lemma MergeOwner(l: Tree, r: Tree, n: nat, y: nat)
    requires Fits(Node(l, r), n) && y < Pow2(n)
    ensures var o, f := Owner(Node(l, r), n, y), Owner(Merge(l, r), n, y);
            if o.used then f == o else !f.used
  {
    OwnerNode(l, r, n, y);
  }

  lemma {:induction false} FreeCoalesced(t: Tree, n: nat, x: nat)
    requires Fits(t, n) && x < Pow2(n) && Coalesced(t)
    ensures Coalesced(FreeTree(t, n, x))
  {
    if t.Node? {
      var h := Pow2(n - 1);
      if x < h { FreeCoalesced(t.left, n - 1, x); } else { FreeCoalesced(t.right, n - 1, x - h); }
    }
  }

  /** What becomes of a byte's owner `o` when the block `b` is granted. */
  ghost predicate Granted(b: Block, y: nat, o: Block, f: Block) {
    if b.off <= y < b.off + Pow2(b.order) then !o.used && f == b
    else if o.used then f == o else !f.used
  }

  lemma CarveGranted(t: Tree, n: nat, x: nat, k: nat, y: nat)
    requires Fits(t, n) && IsHead(t, n, x) && MIN_ORDER <= k && Owner(t, n, x).Suits(k)
    requires var o := Owner(t, n, x).order; Window(t, n, x, o) && x <= y < x + Pow2(o)
    ensures var o := Owner(t, n, x).order;
      Granted(Block(x, k, true), y, Owner(t, n, y), Owner(Plug(t, n, x, o, Carve(o, k, true)), n, y))
  {
    var o := Owner(t, n, x).order;
    SameOwner(t, n, x, y);
    CarveOwner(o, k, true, y - x);
    OwnerPlugInside(t, n, x, o, Carve(o, k, true), y - x);
  }

  /** A served request takes exactly the block `[x, x + 2^k)`, which was free, and
      keeps every used block. */
  lemma AllocOwner(t: Tree, n: nat, k: nat, y: nat)
    requires Fits(t, n) && MIN_ORDER <= k && AllocTree(t, n, k).Some? && y < Pow2(n)
    ensures var (r, x) := AllocTree(t, n, k).value;
            && x + Pow2(k) <= Pow2(n)
            && Granted(Block(x, k, true), y, Owner(t, n, y), Owner(r, n, y))
  {
    FirstFitSound(t, n, k);
    var x := FirstFit(t, n, k).value;
    HeadWindow(t, n, x);
    var o := Owner(t, n, x).order;
    Pow2Monotone(k, o);
    if x <= y < x + Pow2(o) {
      CarveGranted(t, n, x, k, y);
    } else {
      OwnerPlugOutside(t, n, x, o, Carve(o, k, true), y);
    }
  }

  lemma AllocCoalesced(t: Tree, n: nat, k: nat)
    requires Fits(t, n) && MIN_ORDER <= k && AllocTree(t, n, k).Some? && Coalesced(t)
    ensures Coalesced(AllocTree(t, n, k).value.0)
  {
    FirstFitSound(t, n, k);
    var x := FirstFit(t, n, k).value;
    HeadWindow(t, n, x);
    var o := Owner(t, n, x).order;
    CarveOwner(o, k, true, 0);
    PlugCoalesced(t, n, x, o, Carve(o, k, true));
  }

  // ----- What one operation does to the set of used blocks

  lemma AllocLive(t: Tree, n: nat, k: nat)
    requires Fits(t, n) && MIN_ORDER <= k && AllocTree(t, n, k).Some?
    ensures var (r, x) := AllocTree(t, n, k).value;
      && LiveAt(r, n, Block(x, k, true))
      && Live(r, n) == Live(t, n) + {Block(x, k, true)}
      && Block(x, k, true) !in Live(t, n)
  {
    var (r, x) := AllocTree(t, n, k).value;
    var granted := Block(x, k, true);
    AllocOwner(t, n, k, 0);
    AllocOwner(t, n, k, x);
    forall b: Block ensures LiveAt(r, n, b) <==> LiveAt(t, n, b) || b == granted {
      if b.off < Pow2(n) { AllocOwner(t, n, k, b.off); }
    }
    forall b: Block ensures b in Live(r, n) <==> b in Live(t, n) || b == granted {
      LiveMember(r, n, b);
      LiveMember(t, n, b);
    }
  }

  lemma FreeLive(t: Tree, n: nat, x: nat)
    requires Fits(t, n) && IsHead(t, n, x)
    ensures Live(FreeTree(t, n, x), n) == Live(t, n) - {Owner(t, n, x)}
  {
    var r := FreeTree(t, n, x);
    forall b: Block ensures b in Live(r, n) <==> b in Live(t, n) && b != Owner(t, n, x) {
      LiveMember(r, n, b);
      LiveMember(t, n, b);
      if b.off < Pow2(n) { FreeOwner(t, n, x, b.off); }
    }
  }

  // ----- Canonical form

  lemma {:induction false} NothingLive(t: Tree, n: nat)
    requires Fits(t, n) && Coalesced(t)
    requires forall b :: !LiveAt(t, n, b)
    ensures t == Leaf(false)
  {
    match t
    case Leaf(u) => assert u ==> LiveAt(t, n, Block(0, n, true));
    case Node(l, r) =>
      var m := n - 1;
      forall b ensures !LiveAt(l, m, b) { LiveInLeft(t, n, b); }
      forall b ensures !LiveAt(r, m, b) { LiveInRight(t, n, b); }
      NothingLive(l, m);
      NothingLive(r, m);
  }

  lemma NodeHasNoFullBlock(t: Tree, n: nat, u: Tree)
    requires Fits(t, n) && Fits(u, n) && t == Leaf(true)
    requires forall b :: LiveAt(t, n, b) <==> LiveAt(u, n, b)
    ensures u == t
  {
    var b := Block(0, n, true);
    assert LiveAt(t, n, b);
    assert Owner(u, n, 0) == b;
  }

  lemma {:induction false} SameLive(t: Tree, u: Tree, n: nat)
    requires Fits(t, n) && Fits(u, n) && Coalesced(t) && Coalesced(u)
    requires forall b :: LiveAt(t, n, b) <==> LiveAt(u, n, b)
    ensures t == u
  {
    if t == Leaf(true) {
      NodeHasNoFullBlock(t, n, u);
    } else if u == Leaf(true) {
      NodeHasNoFullBlock(u, n, t);
    } else if t == Leaf(false) {
      assert forall b :: !LiveAt(t, n, b);
      NothingLive(u, n);
    } else if u == Leaf(false) {
      assert forall b :: !LiveAt(u, n, b);
      NothingLive(t, n);
    } else {
      var m := n - 1;
      forall b ensures LiveAt(t.left, m, b) <==> LiveAt(u.left, m, b) {
        LiveInLeft(t, n, b);
        LiveInLeft(u, n, b);
      }
      forall b ensures LiveAt(t.right, m, b) <==> LiveAt(u.right, m, b) {
        LiveInRight(t, n, b);
        LiveInRight(u, n, b);
      }
      SameLive(t.left, u.left, m);
      SameLive(t.right, u.right, m);
    }
  }

  lemma LiveInLeft(t: Tree, n: nat, b: Block)
    requires Fits(t, n) && t.Node?
    ensures LiveAt(t.left, n - 1, b) <==> LiveAt(t, n, b) && b.off < Pow2(n - 1)
  {
  }

  lemma LiveInRight(t: Tree, n: nat, b: Block)
    requires Fits(t, n) && t.Node?
    ensures LiveAt(t.right, n - 1, b) <==> LiveAt(t, n, b.Shift(Pow2(n - 1)))
  {
  }

  /** The used blocks alone determine the whole block structure. */
  lemma Canonical(t: Tree, u: Tree, n: nat)
    requires Fits(t, n) && Fits(u, n) && Coalesced(t) && Coalesced(u)
    ensures Live(t, n) == Live(u, n) <==> t == u
  {
    if Live(t, n) == Live(u, n) {
      forall b ensures LiveAt(t, n, b) <==> LiveAt(u, n, b) {
        LiveMember(t, n, b);
        LiveMember(u, n, b);
      }
      SameLive(t, u, n);
    }
  }

  /** Releases commute. */
  lemma {:induction false} FreesCommute(t: Tree, n: nat, x: nat, y: nat)
    requires Fits(t, n) && Coalesced(t)
    requires IsHead(t, n, x) && IsHead(t, n, y) && x != y
    requires Owner(t, n, x).used && Owner(t, n, y).used
    ensures FreeTree(FreeTree(t, n, x), n, y) == FreeTree(FreeTree(t, n, y), n, x)
  {
    var tx, ty := FreeTree(t, n, x), FreeTree(t, n, y);
    FreeOwner(t, n, x, y);
    FreeOwner(t, n, y, x);
    FreeLive(t, n, x);
    FreeLive(t, n, y);
    FreeLive(tx, n, y);
    FreeLive(ty, n, x);
    FreeCoalesced(t, n, x);
    FreeCoalesced(t, n, y);
    FreeCoalesced(tx, n, y);
    FreeCoalesced(ty, n, x);
    Canonical(FreeTree(tx, n, y), FreeTree(ty, n, x), n);
  }

  /** Releasing what was just granted restores the exact block structure. */
  lemma AllocThenFree(t: Tree, n: nat, k: nat)
    requires Fits(t, n) && MIN_ORDER <= k && Coalesced(t) && AllocTree(t, n, k).Some?
    ensures var (r, x) := AllocTree(t, n, k).value; IsHead(r, n, x) && FreeTree(r, n, x) == t
  {
    var (r, x) := AllocTree(t, n, k).value;
    AllocLive(t, n, k);
    AllocCoalesced(t, n, k);
    FreeLive(r, n, x);
    FreeCoalesced(r, n, x);
    Canonical(FreeTree(r, n, x), t, n);
  }

  ghost function FreeSeq(t: Tree, n: nat, bs: seq<Block>): (r: Tree)
    requires Fits(t, n) && forall b :: b in bs ==> b.off < Pow2(n)
    ensures Fits(r, n)
    decreases |bs|
  {
    if bs == [] then t else FreeSeq(FreeTree(t, n, bs[0].off), n, bs[1..])
  }

  /** Releasing all used blocks, in any order, gives back the single free block the
      heap started with. */
  lemma {:induction false} DrainInAnyOrder(t: Tree, n: nat, bs: seq<Block>)
    requires Fits(t, n) && Coalesced(t)
    requires forall i, j :: 0 <= i < j < |bs| ==> bs[i] != bs[j]
    requires forall b :: b in bs <==> b in Live(t, n)
    ensures (forall b :: b in bs ==> b.off < Pow2(n)) && FreeSeq(t, n, bs) == Leaf(false)
    decreases |bs|
  {
    forall b | b in bs ensures b.off < Pow2(n) { LiveMember(t, n, b); }
    if bs == [] {
      forall b ensures !LiveAt(t, n, b) { LiveMember(t, n, b); }
      NothingLive(t, n);
    } else {
      LiveMember(t, n, bs[0]);
      FreeLive(t, n, bs[0].off);
      FreeCoalesced(t, n, bs[0].off);
      assert forall b :: b in bs <==> b == bs[0] || b in bs[1..];
      DrainInAnyOrder(FreeTree(t, n, bs[0].off), n, bs[1..]);
    }
  }

  // ----- Completeness of allocation

  /** All `2^k` bytes from `c` on are free. */
  ghost predicate FreeWindow(t: Tree, n: nat, c: nat, k: nat)
    requires Fits(t, n)
  {
    c + Pow2(k) <= Pow2(n) && forall y :: c <= y < c + Pow2(k) ==> !Owner(t, n, y).used
  }

  /** The `q`-th aligned window of order `k` is free. */
  ghost predicate FreeSlot(t: Tree, n: nat, q: nat, k: nat)
    requires Fits(t, n)
  {
    FreeWindow(t, n, q * Pow2(k), k)
  }

  lemma AllFree(t: Tree, n: nat)
    requires Fits(t, n) && Coalesced(t) && FreeWindow(t, n, 0, n)
    ensures t == Leaf(false)
  {
    forall b ensures !LiveAt(t, n, b) {}
    NothingLive(t, n);
  }

  /** An aligned window inside a larger window of order `m + 1` lies in one half of it. */
  lemma AlignedInHalf(q: nat, k: nat, m: nat)
    requires k <= m
    ensures var half := Pow2(m - k);
            if q < half then q * Pow2(k) + Pow2(k) <= Pow2(m)
            else (q - half) * Pow2(k) == q * Pow2(k) - Pow2(m)
  {
    hide Pow2;
    var half := Pow2(m - k);
    Pow2Add(m - k, k);
    MulLess(q, half, Pow2(k));
  }

  lemma MulLess(q: nat, half: nat, p: nat)
    ensures if q < half then q * p + p <= half * p else (q - half) * p == q * p - half * p
  {
    if q < half { MulAtLeast(half, q + 1, p); }
  }

  lemma FreeWindowLeft(t: Tree, n: nat, c: nat, k: nat)
    requires Fits(t, n) && t.Node? && FreeWindow(t, n, c, k) && c + Pow2(k) <= Pow2(n - 1)
    ensures FreeWindow(t.left, n - 1, c, k)
  {
    var m := n - 1;
    forall y | c <= y < c + Pow2(k) ensures !Owner(t.left, m, y).used { OwnerNode(t.left, t.right, n, y); }
  }

  lemma FreeWindowRight(t: Tree, n: nat, c: nat, k: nat)
    requires Fits(t, n) && t.Node? && FreeWindow(t, n, c, k) && Pow2(n - 1) <= c
    ensures FreeWindow(t.right, n - 1, c - Pow2(n - 1), k)
  {
    var m := n - 1;
    var d := c - Pow2(m);
    forall y | d <= y < d + Pow2(k) ensures !Owner(t.right, m, y).used {
      OwnerNode(t.left, t.right, n, y + Pow2(m));
    }
  }

  /** An aligned window that is wholly free lies inside one free block. */
  lemma {:induction false} FreeWindowFits(t: Tree, n: nat, q: nat, k: nat)
    requires Fits(t, n) && Coalesced(t) && FreeSlot(t, n, q, k)
    ensures FirstFit(t, n, k).Some?
  {
    var c := q * Pow2(k);
    OrderFromSize(k, n);
    if t.Leaf? {
      assert !Owner(t, n, c).used;
    } else if k == n {
      AllFree(t, n);
    } else {
      AlignedInHalf(q, k, n - 1);
      if q < Pow2(n - 1 - k) {
        FreeWindowLeft(t, n, c, k);
        FreeWindowFits(t.left, n - 1, q, k);
      } else {
        var q' := q - Pow2(n - 1 - k);
        FreeWindowRight(t, n, c, k);
        assert q' * Pow2(k) == c - Pow2(n - 1);
        FreeWindowFits(t.right, n - 1, q', k);
      }
    }
  }

  lemma OrderFromSize(k: nat, n: nat)
    requires Pow2(k) <= Pow2(n)
    ensures k <= n
  {
    if k > n { Pow2Monotone(n, k); }
  }

  lemma MulAtLeast(a: nat, b: nat, m: nat)
    requires a >= b
    ensures a * m >= b * m
  {
  }

  /** A free block holds an aligned free window of every smaller order. */
  lemma FitHasFreeWindow(t: Tree, n: nat, x: nat, k: nat) returns (q: nat)
    requires Fits(t, n) && IsHead(t, n, x) && Owner(t, n, x).Suits(k)
    ensures FreeSlot(t, n, q, k)
  {
    var o := Owner(t, n, x).order;
    HeadWindow(t, n, x);
    var p := WindowAligned(t, n, x, o);
    Pow2Monotone(k, o);
    Pow2Add(o - k, k);
    MulAssoc(p, Pow2(o - k), Pow2(k));
    q := p * Pow2(o - k);
    forall y | x <= y < x + Pow2(k) ensures !Owner(t, n, y).used { SameOwner(t, n, x, y); }
  }

  /** A request of order `k` fails exactly when no aligned window of `2^k` bytes is
      wholly free. */
  lemma AllocComplete(t: Tree, n: nat, k: nat)
    requires Fits(t, n) && Coalesced(t) && MIN_ORDER <= k
    ensures AllocTree(t, n, k) == None <==> forall q: nat :: !FreeSlot(t, n, q, k)
  {
    if AllocTree(t, n, k) == None {
      forall q: nat ensures !FreeSlot(t, n, q, k) {
        if FreeSlot(t, n, q, k) { FreeWindowFits(t, n, q, k); }
      }
    } else {
      FirstFitSound(t, n, k);
      var q := FitHasFreeWindow(t, n, FirstFit(t, n, k).value, k);
    }
  }

  // ----- Room for further requests

  /** Some free block has at least order `m`. */
  ghost predicate LargeFree(t: Tree, n: nat, m: nat)
    requires Fits(t, n)
  {
    exists y :: 0 <= y < Pow2(n) && !Owner(t, n, y).used && Owner(t, n, y).order >= m
  }

  /** A smaller request is served, and costs the largest free block at most half its size. */
  lemma AllocKeepsLarge(t: Tree, n: nat, k: nat, m: nat)
    requires Fits(t, n) && MIN_ORDER <= k < m && LargeFree(t, n, m)
    ensures AllocTree(t, n, k).Some? && LargeFree(AllocTree(t, n, k).value.0, n, m - 1)
  {
    hide Pow2, Carve, Plug, FirstFit, Fits, Window, Sub;
    var y :| 0 <= y < Pow2(n) && !Owner(t, n, y).used && Owner(t, n, y).order >= m;
    FirstFitSound(t, n, k);
    assert Owner(t, n, y).Suits(k);
    var x := FirstFit(t, n, k).value;
    var o := Owner(t, n, x).order;
    HeadWindow(t, n, x);
    var r := AllocTree(t, n, k).value.0;
    if x <= y < x + Pow2(o) {
      SameOwner(t, n, x, y);
      CarveHalf(o, k);
      OwnerPlugInside(t, n, x, o, Carve(o, k, true), Pow2(o - 1));
      assert Owner(r, n, x + Pow2(o - 1)).order == o - 1;
    } else {
      OwnerPlugOutside(t, n, x, o, Carve(o, k, true), y);
      assert Owner(r, n, y) == Owner(t, n, y);
    }
  }

  lemma CarveHalf(o: nat, k: nat)
    requires MIN_ORDER <= k < o
    ensures Pow2(o - 1) < Pow2(o) && Owner(Carve(o, k, true), o, Pow2(o - 1)) == Block(Pow2(o - 1), o - 1, false)
  {
  }

  lemma MulAssoc(a: nat, b: nat, c: nat)
    ensures a * b * c == a * (b * c)
  {
  }
}
