/** Powers of two and bitwise operations on natural numbers, as the kernel's
    32-bit unsigned arithmetic uses them. */
module Bits {

  const WORD: nat := 0x1_0000_0000

  type Byte = x: int | 0 <= x < 0x100

  type Word = x: int | 0 <= x < WORD

  /** `1 << k`. */
  function Pow2(k: nat): (p: nat)
    ensures p > 0
  {
    if k == 0 then 1 else 2 * Pow2(k - 1)
  }

  /** `a >> k`. */
  function Shr(a: nat, k: nat): nat {
    if k == 0 then a else Shr(a / 2, k - 1)
  }

  /** `a ^ b`, bit by bit from the least significant end. */
  function Xor(a: nat, b: nat): nat
    decreases a + b
  {
    if a == 0 && b == 0 then 0
    else (a % 2 + b % 2) % 2 + 2 * Xor(a / 2, b / 2)
  }

  lemma Pow2Step(k: nat)
    ensures Pow2(k + 1) == 2 * Pow2(k)
  {
  }

  lemma {:induction false} Pow2Monotone(i: nat, j: nat)
    requires i <= j
    ensures Pow2(i) <= Pow2(j)
    ensures i < j ==> 2 * Pow2(i) <= Pow2(j)
  {
    if i < j { Pow2Monotone(i, j - 1); }
  }

  lemma {:induction false} Pow2Add(i: nat, j: nat)
    ensures Pow2(i + j) == Pow2(i) * Pow2(j)
  {
    if j > 0 { Pow2Add(i, j - 1); }
  }

  lemma WordSize()
    ensures Pow2(31) == 0x8000_0000 && Pow2(32) == WORD
  {
    assert Pow2(8) == 0x100;
    Pow2Add(8, 8);
    Pow2Add(16, 16);
    assert Pow2(32) == 2 * Pow2(31);
  }

  /** Shifting `a` right by `k` gives zero exactly when `a` has at most `k` bits. */
  lemma {:induction false} ShrZero(a: nat, k: nat)
    ensures Shr(a, k) == 0 <==> a < Pow2(k)
  {
    if k > 0 { ShrZero(a / 2, k - 1); }
  }

  lemma {:induction false} XorZero(a: nat)
    ensures Xor(a, 0) == a && Xor(0, a) == a
  {
    if a > 0 { XorZero(a / 2); }
  }

  lemma {:induction false} XorSelf(a: nat)
    ensures Xor(a, a) == 0
  {
    if a > 0 { XorSelf(a / 2); }
  }

  /** One unfolding of `Xor`, which also holds at zero. */
  lemma XorUnfold(a: nat, b: nat)
    ensures Xor(a, b) == (a % 2 + b % 2) % 2 + 2 * Xor(a / 2, b / 2)
  {
  }

  lemma HalfOfSum(a: nat, h: nat)
    ensures (a + 2 * h) / 2 == a / 2 + h && (a + 2 * h) % 2 == a % 2
  {
  }

  lemma Pow2Half(j: nat)
    ensures if j == 0 then Pow2(j) / 2 == 0 else Pow2(j) / 2 == Pow2(j - 1) && Pow2(j) % 2 == 0
  {
  }

  /** A bit above the flipped one is carried through the exclusive or. */
  lemma {:induction false} XorHighBit(a: nat, m: nat, j: nat)
    requires j < m && a < Pow2(m)
    ensures Xor(a + Pow2(m), Pow2(j)) == Xor(a, Pow2(j)) + Pow2(m)
    ensures Xor(a, Pow2(j)) < Pow2(m)
  {
    hide Xor;
    var h := Pow2(m - 1);
    assert Pow2(m) == 2 * h;
    XorUnfold(a + 2 * h, Pow2(j));
    XorUnfold(a, Pow2(j));
    HalfOfSum(a, h);
    Pow2Half(j);
    if j == 0 {
      XorZero(a / 2);
      XorZero(a / 2 + h);
    } else {
      XorHighBit(a / 2, m - 1, j - 1);
    }
  }
}
