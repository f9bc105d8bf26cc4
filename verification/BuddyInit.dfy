/** `init_memory` (arch/x86/mm/alloc.c:107-129): laying free blocks over a heap of any
    length, smallest first. */
module BuddyInit {
  import opened Bits
  import opened BuddyTree
  import opened BuddyMemory
  import opened BuddyList

  /** The free blocks for `units` units of `2^order` bytes from `off` on: one for each
      set bit of `units`. */
  function InitialBlocks(units: nat, order: nat, off: nat): seq<Block> {
    if units == 0 then []
    else if units % 2 == 1 then [Block(off, order, false)] + InitialBlocks(units / 2, order + 1, off + Pow2(order))
    else InitialBlocks(units / 2, order + 1, off)
  }

  predicate OrderPresent(bs: seq<Block>, k: nat) {
    exists i :: 0 <= i < |bs| && bs[i].order == k
  }

  predicate BitSet(units: nat, k: nat) {
    Shr(units, k) % 2 == 1
  }

  lemma {:induction false} NoHighBits(k: nat)
    ensures !BitSet(0, k)
  {
    if k > 0 { NoHighBits(k - 1); }
  }

  /** One unfolding of `InitialBlocks`, with indices. */
  lemma InitialUnfold(units: nat, order: nat, off: nat) returns (rest: seq<Block>)
    requires units > 0
    ensures var bs, u := InitialBlocks(units, order, off), units % 2;
      && rest == InitialBlocks(units / 2, order + 1, off + u * Pow2(order))
      && |bs| == |rest| + u
      && (u == 1 ==> bs[0] == Block(off, order, false))
      && forall i :: 0 <= i < |rest| ==> bs[i + u] == rest[i]
  {
    rest := InitialBlocks(units / 2, order + 1, off + units % 2 * Pow2(order));
  }

  /** Orders rise strictly, and no block is used. */
  lemma {:induction false} InitialOrders(units: nat, order: nat, off: nat)
    ensures var bs := InitialBlocks(units, order, off);
      && (forall i :: 0 <= i < |bs| ==> order <= bs[i].order && !bs[i].used)
      && (forall i, j :: 0 <= i < j < |bs| ==> bs[i].order < bs[j].order)
  {
    hide Pow2;
    if units > 0 {
      var u := units % 2;
      var rest := InitialUnfold(units, order, off);
      InitialOrders(units / 2, order + 1, off + u * Pow2(order));
      var bs := InitialBlocks(units, order, off);
      assert forall i :: u <= i < |bs| ==> bs[i] == rest[i - u];
    }
  }

  /** One block for each set bit, and only for set bits. */
  lemma {:induction false} InitialBits(units: nat, order: nat, off: nat, k: nat)
    requires order <= k
    ensures OrderPresent(InitialBlocks(units, order, off), k) <==> BitSet(units, k - order)
  {
    if units == 0 {
      NoHighBits(k - order);
    } else {
      var u := units % 2;
      var rest := InitialUnfold(units, order, off);
      var bs := InitialBlocks(units, order, off);
      var off' := off + u * Pow2(order);
      InitialOrders(units / 2, order + 1, off');
      if k > order { InitialBits(units / 2, order + 1, off', k); }
      PresentShift(bs, rest, u, order, k);
    }
  }

  lemma PresentShift(bs: seq<Block>, rest: seq<Block>, u: nat, order: nat, k: nat)
    requires |bs| == |rest| + u && u <= 1 && (u == 1 ==> bs[0].order == order)
    requires forall i :: 0 <= i < |rest| ==> bs[i + u] == rest[i] && rest[i].order > order
    ensures OrderPresent(bs, k) <==> OrderPresent(rest, k) || (u == 1 && k == order)
    ensures OrderPresent(rest, k) ==> k > order
  {
    if OrderPresent(bs, k) {
      var i :| 0 <= i < |bs| && bs[i].order == k;
      if i >= u { assert rest[i - u] == bs[i - u + u]; }
    }
  }

  /** The blocks cover exactly the units asked for, without gaps. */
  lemma {:induction false} InitialTiles(units: nat, order: nat, off: nat)
    ensures Tiles(InitialBlocks(units, order, off), off, off + units * Pow2(order))
  {
    if units > 0 {
      var p := Pow2(order);
      HalfUnits(units, p);
      if units % 2 == 1 {
        var bs := InitialBlocks(units, order, off);
        InitialTiles(units / 2, order + 1, off + p);
        assert bs[1..] == InitialBlocks(units / 2, order + 1, off + p);
      } else {
        InitialTiles(units / 2, order + 1, off);
      }
    }
  }

  lemma HalfUnits(units: nat, p: nat)
    ensures units * p == units / 2 * (2 * p) + units % 2 * p
  {
    assert units == units / 2 * 2 + units % 2;
  }

  lemma {:induction false} PowerOfTwoUnits(e: nat, order: nat, off: nat)
    ensures InitialBlocks(Pow2(e), order, off) == [Block(off, order + e, false)]
  {
    if e > 0 { PowerOfTwoUnits(e - 1, order + 1, off); }
  }

  /** Every block sits at a multiple of its own size exactly when the number of units
      is zero or a power of two. */
  lemma {:induction false} InitialAligned(units: nat, order: nat)
    ensures (forall b :: b in InitialBlocks(units, order, 0) ==> Aligned(b.off, b.order))
            <==> (units == 0 || exists e: nat :: units == Pow2(e))
  {
    var bs := InitialBlocks(units, order, 0);
    if units == 0 {
    } else if units % 2 == 0 {
      InitialAligned(units / 2, order + 1);
      if exists e: nat :: units == Pow2(e) {
        var e: nat :| units == Pow2(e);
        assert units / 2 == Pow2(e - 1);
      }
      if exists e: nat :: units / 2 == Pow2(e) {
        var e: nat :| units / 2 == Pow2(e);
        assert units == Pow2(e + 1);
      }
    } else {
      assert bs[0] == Block(0, order, false);
      if units == 1 {
        assert units == Pow2(0);
        assert Multiple(0, 0, order);
      } else {
        SecondMisaligned(units, order);
        forall e: nat ensures units != Pow2(e) { if e > 0 { assert Pow2(e) % 2 == 0; } }
      }
    }
  }

  lemma {:induction false} FirstInitial(units: nat, order: nat, off: nat) returns (b: Block)
    requires units > 0
    ensures b in InitialBlocks(units, order, off) && b.off == off && b.order >= order
  {
    if units % 2 == 1 { b := Block(off, order, false); } else { b := FirstInitial(units / 2, order + 1, off); }
  }

  /** A larger block after the first one cannot be aligned. */
  lemma SecondMisaligned(units: nat, order: nat)
    requires units % 2 == 1 && units > 1
    ensures exists b :: b in InitialBlocks(units, order, 0) && !Aligned(b.off, b.order)
  {
    var b := FirstInitial(units / 2, order + 1, Pow2(order));
    assert b in InitialBlocks(units, order, 0);
    Pow2Monotone(order, b.order);
    forall q: nat ensures !Multiple(b.off, q, b.order) {
      if q > 0 { MulOrder(0, q, Pow2(b.order)); }
    }
  }

  /** Three units of 8 bytes give a block of 16 bytes at offset 8. */
  lemma MisalignedInput()
    ensures Block(8, 4, false) in InitialBlocks(3, MIN_ORDER, 0) && !Aligned(8, 4)
  {
    assert Pow2(3) == 8 && Pow2(4) == 16;
    assert InitialBlocks(3, 3, 0) == [Block(0, 3, false)] + InitialBlocks(1, 4, 8);
    assert InitialBlocks(1, 4, 8) == [Block(8, 4, false)] + InitialBlocks(0, 5, 24);
    forall q: nat ensures !Multiple(8, q, 4) {}
  }

  /** Each block's header is in memory. */
  ghost predicate Spelled(m: seq<Byte>, bs: seq<Block>) {
    forall b :: b in bs ==> b.off < |m| && b.order < 128 && m[b.off] == Header(b.order, b.used)
  }

  /** The heap starts at `start` and `end` is the address of its last byte, `mem`'s. */
  method InitMemory(mem: array<Byte>, start: nat)
    requires 0 < mem.Length && start + mem.Length < WORD
    modifies mem
    ensures Spelled(mem[..], InitialBlocks(mem.Length / 8, MIN_ORDER, 0))
    ensures forall i :: 0 <= i < mem.Length && mem[i] != old(mem[i]) ==>
      exists b :: b in InitialBlocks(mem.Length / 8, MIN_ORDER, 0) && b.off == i
  {
    hide Pow2, Shr, BitSet;
    var end := start + mem.Length - 1;
    var block: nat := start;
    var heapLength: nat := end - start + 1;
    var allocSize: nat := MIN_ORDER;
    ShrThree(heapLength);
    heapLength := Shr(heapLength, allocSize);
    ghost var all := InitialBlocks(heapLength, MIN_ORDER, 0);
    ghost var done: seq<Block> := [];
    while block < end && heapLength > 0
      invariant MIN_ORDER <= allocSize && start <= block
      invariant block - start + heapLength * Pow2(allocSize) == mem.Length / 8 * 8
      invariant all == done + InitialBlocks(heapLength, allocSize, block - start)
      invariant forall b :: b in done ==> b.off < block - start
      invariant Spelled(mem[..], done)
      invariant forall i :: 0 <= i < mem.Length && mem[i] != old(mem[i]) ==> exists b :: b in done && b.off == i
      decreases heapLength
    {
      SizeFits(heapLength, allocSize, mem.Length);
      HalfUnits(heapLength, Pow2(allocSize));
      Pow2Step(allocSize);
      if heapLength % 2 == 1 {
        ghost var b := Block(block - start, allocSize, false);
        mem[block - start] := Header(allocSize, false);
        block := block + Pow2(allocSize);
        done := done + [b];
        assert all == done + InitialBlocks(heapLength / 2, allocSize + 1, block - start);
        assert b in done;
      }
      heapLength := heapLength / 2;
      allocSize := allocSize + 1;
    }
    if heapLength > 0 { Pow2Monotone(MIN_ORDER, allocSize); MulOrder(0, heapLength, Pow2(allocSize)); }
    assert heapLength == 0;
    assert all == done;
  }

  lemma ShrThree(a: nat)
    ensures Shr(a, MIN_ORDER) == a / 8 && Pow2(MIN_ORDER) == 8
  {
    assert Shr(a, 3) == Shr(a / 2, 2) && Shr(a / 2, 2) == Shr(a / 2 / 2, 1) && Shr(a / 2 / 2, 1) == a / 2 / 2 / 2;
    assert Pow2(3) == 8;
  }

  /** While units remain, the current order is far below the seven-bit limit. */
  lemma SizeFits(units: nat, order: nat, length: nat)
    requires units > 0 && units * Pow2(order) <= length < WORD
    ensures order < 32
  {
    hide Pow2;
    var p := Pow2(order);
    MulOrder(0, units, p);
    WordSize();
    if order >= 32 { Pow2Monotone(32, order); }
  }
}
