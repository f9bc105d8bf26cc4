/** Header bytes in heap memory, and the XOR address of a buddy. */
module BuddyMemory {
  import opened Bits
  import opened BuddyTree

  /** A header byte: order in the low seven bits, used flag in the top bit
      (arch/x86/mm/alloc.h:11-14). */
  function Header(order: nat, used: bool): Byte
    requires order < 128
  {
    order + if used then 128 else 0
  }

  function SizeField(h: Byte): nat {
    h % 128
  }

  predicate UsedField(h: Byte) {
    h >= 128
  }

  /** The bytes from `base` on spell out the tree `t` of order `n`. Only the first
      byte of each block is constrained. */
  predicate Layout(m: seq<Byte>, base: nat, n: nat, t: Tree)
    requires Fits(t, n) && n < 128 && base + Pow2(n) <= |m|
    decreases t
  {
    match t
    case Leaf(u) => m[base] == Header(n, u)
    case Node(l, r) => Layout(m, base, n - 1, l) && Layout(m, base + Pow2(n - 1), n - 1, r)
  }

  /** Two memories differ only inside `[a, e)`. */
  ghost predicate SameOutside(m: seq<Byte>, m': seq<Byte>, a: nat, e: nat) {
    |m| == |m'| && forall i :: 0 <= i < |m| && !(a <= i < e) ==> m'[i] == m[i]
  }

  lemma {:induction false} LayoutHead(m: seq<Byte>, base: nat, n: nat, t: Tree, x: nat)
    requires Fits(t, n) && n < 128 && base + Pow2(n) <= |m| && Layout(m, base, n, t)
    requires IsHead(t, n, x)
    ensures var b := Owner(t, n, x); m[base + x] == Header(b.order, b.used)
    decreases t
  {
    if t.Node? {
      var h := Pow2(n - 1);
      OwnerNode(t.left, t.right, n, x);
      if x < h { LayoutHead(m, base, n - 1, t.left, x); }
      else { LayoutHead(m, base + h, n - 1, t.right, x - h); }
    }
  }

  /** Writing bytes that are no block heads keeps the layout. */
  lemma {:induction false} LayoutFrame(m: seq<Byte>, m': seq<Byte>, base: nat, n: nat, t: Tree)
    requires Fits(t, n) && n < 128 && base + Pow2(n) <= |m| == |m'| && Layout(m, base, n, t)
    requires forall x :: 0 <= x < Pow2(n) && IsHead(t, n, x) ==> m'[base + x] == m[base + x]
    ensures Layout(m', base, n, t)
    decreases t
  {
    if t.Leaf? {
      assert IsHead(t, n, 0);
      assert m'[base + 0] == m[base + 0];
    } else {
      var k := n - 1;
      var h := Pow2(k);
      forall x | 0 <= x < h && IsHead(t.left, k, x) ensures m'[base + x] == m[base + x] {
        OwnerNode(t.left, t.right, n, x);
        assert IsHead(t, n, x);
      }
      var b := base + h;
      forall x | 0 <= x < h && IsHead(t.right, k, x) ensures m'[b + x] == m[b + x] {
        OwnerNode(t.left, t.right, n, h + x);
        assert IsHead(t, n, h + x);
        assert m'[base + (h + x)] == m[base + (h + x)];
      }
      LayoutFrame(m, m', base, k, t.left);
      LayoutFrame(m, m', b, k, t.right);
    }
  }

  lemma {:induction false} LayoutSub(m: seq<Byte>, base: nat, n: nat, t: Tree, c: nat, j: nat)
    requires Fits(t, n) && n < 128 && base + Pow2(n) <= |m| && Layout(m, base, n, t)
    requires Window(t, n, c, j)
    ensures j <= n && c + Pow2(j) <= Pow2(n) && Layout(m, base + c, j, Sub(t, n, c, j))
    decreases t
  {
    if n > j {
      var h := Pow2(n - 1);
      if c < h { LayoutSub(m, base, n - 1, t.left, c, j); }
      else { LayoutSub(m, base + h, n - 1, t.right, c - h, j); }
    }
  }

  /** Rewriting one window of memory replaces one subtree. */
  lemma {:induction false} LayoutPlug(m: seq<Byte>, m': seq<Byte>, base: nat, n: nat, t: Tree, c: nat, j: nat, s: Tree)
    requires Fits(t, n) && n < 128 && base + Pow2(n) <= |m| && Layout(m, base, n, t)
    requires Window(t, n, c, j) && Fits(s, j) && c + Pow2(j) <= Pow2(n) && j <= n
    requires SameOutside(m, m', base + c, base + c + Pow2(j)) && Layout(m', base + c, j, s)
    ensures Layout(m', base, n, Plug(t, n, c, j, s))
    decreases t
  {
    if n > j {
      var h := Pow2(n - 1);
      if c < h {
        WindowLevel(t.left, n - 1, c, j);
        LayoutPlug(m, m', base, n - 1, t.left, c, j, s);
        LayoutFrame(m, m', base + h, n - 1, t.right);
      } else {
        LayoutPlug(m, m', base + h, n - 1, t.right, c - h, j, s);
        LayoutFrame(m, m', base, n - 1, t.left);
      }
    }
  }

  // ----- Buddies

  /** Flipping bit `j` of a window's offset gives the other half of its parent. */
  lemma {:induction false} BuddyWindow(t: Tree, n: nat, c: nat, j: nat)
    requires Fits(t, n) && Window(t, n, c, j) && j < n
    ensures var b := Xor(c, Pow2(j));
      && Window(t, n, b, j)
      && (if b > c then b == c + Pow2(j) else c == b + Pow2(j))
      && var lo, hi := if b > c then c else b, if b > c then b else c;
      && Window(t, n, lo, j + 1)
      && Sub(t, n, lo, j + 1) == Node(Sub(t, n, lo, j), Sub(t, n, hi, j))
  {
    hide Xor;
    var h := Pow2(n - 1);
    if j == n - 1 {
      XorZero(h);
      XorSelf(h);
      Pow2Monotone(j, n);
    } else if c < h {
      XorHighBit(c, n - 1, j);
      BuddyWindow(t.left, n - 1, c, j);
    } else {
      WindowLevel(t.right, n - 1, c - h, j);
      XorHighBit(c - h, n - 1, j);
      BuddyWindow(t.right, n - 1, c - h, j);
    }
  }

  lemma {:induction false} OwnerSub(t: Tree, n: nat, c: nat, j: nat, y: nat)
    requires Fits(t, n) && Window(t, n, c, j) && y < Pow2(j)
    ensures c + y < Pow2(n)
    ensures Owner(t, n, c + y) == Owner(Sub(t, n, c, j), j, y).Shift(c)
  {
    WindowLevel(t, n, c, j);
    if n > j {
      var h := Pow2(n - 1);
      if c < h {
        WindowLevel(t.left, n - 1, c, j);
        OwnerSub(t.left, n - 1, c, j, y);
      } else {
        OwnerSub(t.right, n - 1, c - h, j, y);
      }
    }
  }

  /** The byte at a buddy's XOR address is the header of a real block, of order at
      most `j`; it has order `j` exactly when the buddy is one undivided block. */
  lemma BuddyIsHead(t: Tree, n: nat, c: nat, j: nat)
    requires Fits(t, n) && Window(t, n, c, j) && j < n
    ensures var b := Xor(c, Pow2(j));
      && Window(t, n, b, j) && IsHead(t, n, b)
      && Owner(t, n, b).order <= j
      && (Owner(t, n, b).order == j <==> Sub(t, n, b, j).Leaf?)
      && (Sub(t, n, b, j).Leaf? ==> Sub(t, n, b, j) == Leaf(Owner(t, n, b).used))
  {
    var b := Xor(c, Pow2(j));
    BuddyWindow(t, n, c, j);
    OwnerSub(t, n, b, j, 0);
    ZeroIsHead(Sub(t, n, b, j), j);
  }

  /** The block that fills the whole heap has its XOR address one byte past it. */
  lemma TopBuddy(n: nat)
    ensures Xor(0, Pow2(n)) == Pow2(n)
  {
    XorZero(Pow2(n));
  }
}
