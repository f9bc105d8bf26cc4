/** The shape of a buddy heap: a window of `2^n` bytes is either one block or two
    half windows. The tree is the specification that the header bytes in heap
    memory are proved to spell out; offsets are relative to the window. */
module BuddyTree {
  import opened Options
  import opened Bits

  /** Order of the smallest block (arch/x86/mm/alloc.h:8). */
  const MIN_ORDER: nat := 3

  datatype Tree = Leaf(used: bool) | Node(left: Tree, right: Tree)

  datatype Block = Block(off: nat, order: nat, used: bool) {
    function Shift(d: nat): Block {
      Block(off + d, order, used)
    }

    /** A block that can satisfy a request of order `k`. */
    predicate Suits(k: nat) {
      !used && order >= k
    }
  }

  /** Every leaf of `t`, laid over a window of order `n`, has at least the minimum order. */
  predicate Fits(t: Tree, n: nat) {
    match t
    case Leaf(_) => MIN_ORDER <= n
    case Node(l, r) => MIN_ORDER < n && Fits(l, n - 1) && Fits(r, n - 1)
  }

  /** No two buddies of the same order are both free. */
  predicate Coalesced(t: Tree) {
    match t
    case Leaf(_) => true
    case Node(l, r) => Coalesced(l) && Coalesced(r) && !(l == Leaf(false) && r == Leaf(false))
  }

  /** The block that byte `x` of the window lies in. */
  function Owner(t: Tree, n: nat, x: nat): (b: Block)
    requires Fits(t, n) && x < Pow2(n)
    ensures b.off <= x < b.off + Pow2(b.order) <= Pow2(n)
    ensures MIN_ORDER <= b.order <= n
    ensures b.order == n <==> t.Leaf?
  {
    match t
    case Leaf(u) => Block(0, n, u)
    case Node(l, r) =>
      var h := Pow2(n - 1);
      if x < h then Owner(l, n - 1, x) else Owner(r, n - 1, x - h).Shift(h)
  }

  /** Byte `x` is where some block starts, so it holds that block's header. */
  predicate IsHead(t: Tree, n: nat, x: nat)
    requires Fits(t, n)
  {
    x < Pow2(n) && Owner(t, n, x).off == x
  }

  /** `b` is a used block of the window. */
  predicate LiveAt(t: Tree, n: nat, b: Block)
    requires Fits(t, n)
  {
    b.used && b.off < Pow2(n) && Owner(t, n, b.off) == b
  }

  /** The window `[c, c + 2^j)` is a subtree of `t`. */
  predicate Window(t: Tree, n: nat, c: nat, j: nat)
    requires Fits(t, n)
  {
    if n <= j then n == j && c == 0
    else if t.Leaf? then false
    else if c < Pow2(n - 1) then Window(t.left, n - 1, c, j)
    else Window(t.right, n - 1, c - Pow2(n - 1), j)
  }

  /** The subtree at a window. */
  function Sub(t: Tree, n: nat, c: nat, j: nat): (s: Tree)
    requires Fits(t, n) && Window(t, n, c, j)
    ensures Fits(s, j) && j <= n && c + Pow2(j) <= Pow2(n)
  {
    if n == j then t
    else
      var h := Pow2(n - 1);
      if c < h then Sub(t.left, n - 1, c, j) else Sub(t.right, n - 1, c - h, j)
  }

  /** `t` with the subtree at a window replaced by `s`. */
  function Plug(t: Tree, n: nat, c: nat, j: nat, s: Tree): (r: Tree)
    requires Fits(t, n) && Window(t, n, c, j) && Fits(s, j)
    ensures Fits(r, n) && Window(r, n, c, j)
  {
    if n == j then s
    else
      var h := Pow2(n - 1);
      if c < h then Node(Plug(t.left, n - 1, c, j, s), t.right)
      else Node(t.left, Plug(t.right, n - 1, c - h, j, s))
  }

  /** Offset of the lowest block that suits a request of order `k`. */
  function FirstFit(t: Tree, n: nat, k: nat): Option<nat>
    requires Fits(t, n)
  {
    match t
    case Leaf(u) => if Block(0, n, u).Suits(k) then Some(0) else None
    case Node(l, r) =>
      match FirstFit(l, n - 1, k)
      case Some(x) => Some(x)
      case None =>
        match FirstFit(r, n - 1, k)
        case Some(x) => Some(x + Pow2(n - 1))
        case None => None
  }

  /** A window of order `n` split down to a leading block of order `k`. */
  function Carve(n: nat, k: nat, used: bool): (t: Tree)
    requires MIN_ORDER <= k <= n
    ensures Fits(t, n)
  {
    if n == k then Leaf(used) else Node(Carve(n - 1, k, used), Leaf(false))
  }

  /** Two halves as one window again: merged when both are free blocks. */
  function Merge(l: Tree, r: Tree): Tree {
    if l == Leaf(false) && r == Leaf(false) then Leaf(false) else Node(l, r)
  }

  /** The window after a request of order `k` is served by the lowest fit. */
  function AllocTree(t: Tree, n: nat, k: nat): (r: Option<(Tree, nat)>)
    requires Fits(t, n) && MIN_ORDER <= k
    ensures r.Some? ==> Fits(r.value.0, n)
  {
    match FirstFit(t, n, k)
    case None => None
    case Some(x) =>
      FirstFitSound(t, n, k);
      var o := Owner(t, n, x).order;
      HeadWindow(t, n, x);
      Some((Plug(t, n, x, o, Carve(o, k, true)), x))
  }

  /** The window after the used block at `x` is released and merged upwards. */
  function FreeTree(t: Tree, n: nat, x: nat): (r: Tree)
    requires Fits(t, n) && x < Pow2(n)
    ensures Fits(r, n)
  {
    match t
    case Leaf(_) => Leaf(false)
    case Node(l, r) =>
      var h := Pow2(n - 1);
      if x < h then Merge(FreeTree(l, n - 1, x), r) else Merge(l, FreeTree(r, n - 1, x - h))
  }

  // ----- Windows and block heads

  lemma {:induction false} HeadWindow(t: Tree, n: nat, x: nat)
    requires Fits(t, n) && IsHead(t, n, x)
    ensures var b := Owner(t, n, x); Window(t, n, x, b.order) && Sub(t, n, x, b.order) == Leaf(b.used)
  {
    if t.Node? {
      var h := Pow2(n - 1);
      if x < h { HeadWindow(t.left, n - 1, x); } else { HeadWindow(t.right, n - 1, x - h); }
    }
  }

  /** Where one block ends, the next one starts, or the window ends. */
  lemma {:induction false} NextIsHead(t: Tree, n: nat, x: nat)
    requires Fits(t, n) && x < Pow2(n)
    ensures var b := Owner(t, n, x); var e := b.off + Pow2(b.order); e == Pow2(n) || IsHead(t, n, e)
  {
    if t.Node? {
      var h := Pow2(n - 1);
      if x < h {
        NextIsHead(t.left, n - 1, x);
        ZeroIsHead(t.right, n - 1);
      } else {
        NextIsHead(t.right, n - 1, x - h);
      }
    }
  }

  lemma {:induction false} ZeroIsHead(t: Tree, n: nat)
    requires Fits(t, n)
    ensures IsHead(t, n, 0)
  {
    if t.Node? { ZeroIsHead(t.left, n - 1); }
  }

  /** All bytes of one block have the same owner. */
  lemma {:induction false} SameOwner(t: Tree, n: nat, x: nat, y: nat)
    requires Fits(t, n) && x < Pow2(n)
    requires var b := Owner(t, n, x); b.off <= y < b.off + Pow2(b.order)
    ensures Owner(t, n, y) == Owner(t, n, x)
  {
    if t.Node? {
      var h := Pow2(n - 1);
      if x < h { SameOwner(t.left, n - 1, x, y); } else { SameOwner(t.right, n - 1, x - h, y - h); }
    }
  }

  /** Every window, and so every block, starts at a multiple of its own size. */
  lemma {:induction false} WindowAligned(t: Tree, n: nat, c: nat, j: nat) returns (q: nat)
    requires Fits(t, n) && Window(t, n, c, j)
    ensures c == q * Pow2(j)
  {
    if n == j {
      q := 0;
    } else {
      var h := Pow2(n - 1);
      if c < h {
        q := WindowAligned(t.left, n - 1, c, j);
      } else {
        var p := WindowAligned(t.right, n - 1, c - h, j);
        WindowLevel(t.right, n - 1, c - h, j);
        Pow2Add(n - 1 - j, j);
        q := p + Pow2(n - 1 - j);
      }
    }
  }

  lemma {:induction false} WindowLevel(t: Tree, n: nat, c: nat, j: nat)
    requires Fits(t, n) && Window(t, n, c, j)
    ensures MIN_ORDER <= j <= n && c + Pow2(j) <= Pow2(n)
  {
    if n > j {
      var h := Pow2(n - 1);
      if c < h { WindowLevel(t.left, n - 1, c, j); } else { WindowLevel(t.right, n - 1, c - h, j); }
    }
  }

  /** Inside a replaced window the owners are the replacement's. */
  lemma {:induction false} OwnerPlugInside(t: Tree, n: nat, c: nat, j: nat, s: Tree, y: nat)
    requires Fits(t, n) && Window(t, n, c, j) && Fits(s, j) && y < Pow2(j)
    ensures c + Pow2(j) <= Pow2(n)
    ensures Owner(Plug(t, n, c, j, s), n, c + y) == Owner(s, j, y).Shift(c)
  {
    WindowLevel(t, n, c, j);
    if n > j {
      var h := Pow2(n - 1);
      if c < h {
        WindowLevel(t.left, n - 1, c, j);
        OwnerPlugInside(t.left, n - 1, c, j, s, y);
      } else {
        OwnerPlugInside(t.right, n - 1, c - h, j, s, y);
      }
    }
  }

  /** Outside a replaced window every byte keeps its owner. */
  lemma {:induction false} OwnerPlugOutside(t: Tree, n: nat, c: nat, j: nat, s: Tree, y: nat)
    requires Fits(t, n) && Window(t, n, c, j) && Fits(s, j) && y < Pow2(n)
    requires y < c || c + Pow2(j) <= y
    ensures Owner(Plug(t, n, c, j, s), n, y) == Owner(t, n, y)
  {
    if n > j {
      var h := Pow2(n - 1);
      if c < h {
        if y < h { OwnerPlugOutside(t.left, n - 1, c, j, s, y); }
      } else {
        if y >= h { OwnerPlugOutside(t.right, n - 1, c - h, j, s, y - h); }
      }
    }
  }

  lemma {:induction false} PlugCoalesced(t: Tree, n: nat, c: nat, j: nat, s: Tree)
    requires Fits(t, n) && Window(t, n, c, j) && Fits(s, j)
    requires Coalesced(t) && Coalesced(s) && s != Leaf(false)
    ensures Coalesced(Plug(t, n, c, j, s)) && Plug(t, n, c, j, s) != Leaf(false)
  {
    if n > j {
      var h := Pow2(n - 1);
      if c < h { PlugCoalesced(t.left, n - 1, c, j, s); } else { PlugCoalesced(t.right, n - 1, c - h, j, s); }
    }
  }

  /** One unfolding of `Owner`. */
  lemma OwnerNode(l: Tree, r: Tree, n: nat, y: nat)
    requires Fits(Node(l, r), n) && y < Pow2(n)
    ensures Pow2(n) == 2 * Pow2(n - 1)
    ensures y < Pow2(n - 1) ==> Owner(Node(l, r), n, y) == Owner(l, n - 1, y)
    ensures y >= Pow2(n - 1) ==> Owner(Node(l, r), n, y) == Owner(r, n - 1, y - Pow2(n - 1)).Shift(Pow2(n - 1))
  {
  }

  // ----- First fit

  /** `FirstFit` finds a suiting block and every lower block does not suit; when it
      finds none, no block suits. */
  lemma {:induction false} FirstFitSound(t: Tree, n: nat, k: nat)
    requires Fits(t, n)
    ensures match FirstFit(t, n, k)
      case Some(x) =>
        && IsHead(t, n, x) && Owner(t, n, x).Suits(k)
        && forall y :: 0 <= y < x ==> !Owner(t, n, y).Suits(k)
      case None => forall y :: 0 <= y < Pow2(n) ==> !Owner(t, n, y).Suits(k)
  {
    if t.Node? {
      var h := Pow2(n - 1);
      FirstFitSound(t.left, n - 1, k);
      FirstFitSound(t.right, n - 1, k);
      forall y | 0 <= y < Pow2(n)
        ensures Owner(t, n, y) == if y < h then Owner(t.left, n - 1, y) else Owner(t.right, n - 1, y - h).Shift(h)
      {
      }
    }
  }

  /** The lowest suiting block is the one `FirstFit` finds. */
  lemma FirstFitIs(t: Tree, n: nat, k: nat, x: nat)
    requires Fits(t, n) && IsHead(t, n, x) && Owner(t, n, x).Suits(k)
    requires forall y :: 0 <= y < x ==> !Owner(t, n, y).Suits(k)
    ensures FirstFit(t, n, k) == Some(x)
  {
    FirstFitSound(t, n, k);
  }

  lemma {:induction false} CarveOwner(n: nat, k: nat, used: bool, y: nat)
    requires MIN_ORDER <= k <= n && y < Pow2(n)
    ensures var t := Carve(n, k, used); var b := Owner(t, n, y);
      if y < Pow2(k) then b == Block(0, k, used) else b.off >= Pow2(k) && !b.used
    ensures used ==> Coalesced(Carve(n, k, used)) && Carve(n, k, used) != Leaf(false)
  {
    if n > k {
      var h := Pow2(n - 1);
      Pow2Monotone(k, n - 1);
      CarveOwner(n - 1, k, used, if y < h then y else 0);
    }
  }
}
