/** Position stores of pos_store.c: a masked ring buffer used both as stack and as queue. */
module PosStore {
  import opened CInt

  /** A two-dimensional position (position_t in include/global.h). */
  datatype Position = Position(x: int, y: int)

  /** The value of `i & mask` for an 8-bit pointer and a mask one below a power of two, on the range
      the ring pointers take: one subtraction or addition past either end. */
  function Masked(i: int, mask: nat): (r: nat)
    requires -(mask + 1) <= i < 2 * (mask + 1)
    ensures r <= mask
  {
    if i < 0 then i + mask + 1 else if i > mask then i - (mask + 1) else i
  }

  /** The sizes a position store can have, up to POS_STORE_SIZE. */
  predicate PowerOfTwo(n: nat) {
    n in {1, 2, 4, 8, 16, 32, 64}
  }

  lemma And1(x: bv8)
    ensures (x & 0) as int == 0 && (x & 1) as int == (x as int) % 2
  {
  }

  lemma And3(x: bv8)
    ensures (x & 3) as int == (x as int) % 4
  {
  }

  lemma And7(x: bv8)
    ensures (x & 7) as int == (x as int) % 8
  {
  }

  lemma And15(x: bv8)
    ensures (x & 15) as int == (x as int) % 16
  {
  }

  lemma And31(x: bv8)
    ensures (x & 31) as int == (x as int) % 32
  {
  }

  lemma And63(x: bv8)
    ensures (x & 63) as int == (x as int) % 64
  {
  }

  lemma MaskValues(m: bv8)
    requires PowerOfTwo(m as int + 1)
    ensures m in {0, 1, 3, 7, 15, 31, 63}
  {
  }

  /** Masking is reduction modulo the size because the size is a power of two. */
  lemma MaskIsModulo(x: bv8, m: bv8)
    requires PowerOfTwo(m as int + 1)
    ensures (x & m) as int == (x as int) % (m as int + 1)
  {
    MaskValues(m);
    And1(x);
    And3(x);
    And7(x);
    And15(x);
    And31(x);
    And63(x);
  }

  lemma MaskedIsModulo(i: int, mask: nat)
    requires -(mask + 1) <= i < 2 * (mask + 1)
    ensures Masked(i, mask) == i % (mask + 1)
  {
    Quotient(i, mask + 1, if i < 0 then -1 else if i > mask then 1 else 0, Masked(i, mask));
  }

  /** Reducing to eight bits first makes no difference. */
  lemma SameRemainder(i: int, size: nat, k: nat)
    requires size > 0 && size * k == 256
    ensures i % 256 % size == i % size
  {
    var q, y := i / 256, i % 256;
    assert (k * q) * size == 256 * q;
    assert (k * q + y / size) * size == 256 * q + (y / size) * size;
    Quotient(i, size, k * q + y / size, y % size);
  }

  /** The mask of the code, applied to a pointer moved past either end, in eight bits. */
  lemma MaskedIsAnd(i: int, mask: nat, x: bv8, m: bv8)
    requires PowerOfTwo(mask + 1) && -(mask + 1) <= i < 2 * (mask + 1)
    requires x as int == i % 256 && m as int == mask
    ensures Masked(i, mask) == (x & m) as int
  {
    MaskedIsModulo(i, mask);
    MaskIsModulo(x, m);
    var size := mask + 1;
    SameRemainder(i, size, if size <= 2 then 256 / size else if size <= 8 then (if size == 4 then 64 else 32)
                           else if size <= 32 then (if size == 16 then 16 else 8) else 4);
  }

  class Store {
    var data: array<Position>
    var sp: nat      // next free slot at the back
    var fp: nat      // front element
    var count: nat
    var mask: nat    // size - 1
    ghost var Items: seq<Position>  // front to back

    ghost predicate Valid()
      reads this, data
    {
      && data.Length == mask + 1
      && count == |Items| <= mask + 1
      && fp <= mask
      && sp == Masked(fp + count, mask)
      && forall i {:trigger Items[i]} :: 0 <= i < count ==> Items[i] == data[Masked(fp + i, mask)]
    }

    ghost function Capacity(): nat
      reads this
    {
      mask + 1
    }

    constructor (size: nat)
      requires PowerOfTwo(size)
      ensures Valid() && fresh(data)
      ensures Items == [] && Capacity() == size
    {
      data := new Position[size](_ => Position(0, 0));
      sp, fp, count, mask := 0, 0, 0, size - 1;
      Items := [];
    }

    method Clear()
      requires Valid()
      modifies this
      ensures Valid() && data == old(data) && mask == old(mask)
      ensures Items == []
    {
      sp, fp, count := 0, 0, 0;
      Items := [];
    }

    /** pos_store_insert: put a position in front. */
    method Insert(pos: Position) returns (ok: bool)
      requires Valid()
      modifies this, data
      ensures Valid() && data == old(data) && mask == old(mask)
      ensures ok == (|old(Items)| < Capacity())
      ensures Items == if ok then [pos] + old(Items) else old(Items)
    {
      if count > mask {
        return false;
      }
      var f := Masked(fp - 1, mask);
      data[f] := pos;
      fp := f;
      count := count + 1;
      Items := [pos] + Items;
      return true;
    }

    /** pos_store_push, which is also pos_store_queue: append at the back. */
    method Push(pos: Position) returns (ok: bool)
      requires Valid()
      modifies this, data
      ensures Valid() && data == old(data) && mask == old(mask)
      ensures ok == (|old(Items)| < Capacity())
      ensures Items == if ok then old(Items) + [pos] else old(Items)
    {
      if count > mask {
        return false;
      }
      data[sp] := pos;
      sp := Masked(sp + 1, mask);
      count := count + 1;
      Items := Items + [pos];
      return true;
    }

    /** pos_store_pop: take the last position; `pos` keeps its value when there is none. */
    method Pop(before: Position) returns (ok: bool, pos: Position)
      requires Valid()
      modifies this
      ensures Valid() && data == old(data) && mask == old(mask)
      ensures ok == (old(Items) != [])
      ensures ok ==> old(Items) == Items + [pos]
      ensures !ok ==> Items == old(Items) && pos == before
    {
      if count == 0 {
        return false, before;
      }
      count := count - 1;
      sp := Masked(sp - 1, mask);
      pos := data[sp];
      Items := Items[..count];
      return true, pos;
    }

    /** pos_store_dequeue: take the first position. */
    method Dequeue(before: Position) returns (ok: bool, pos: Position)
      requires Valid()
      modifies this
      ensures Valid() && data == old(data) && mask == old(mask)
      ensures ok == (old(Items) != [])
      ensures ok ==> old(Items) == [pos] + Items
      ensures !ok ==> Items == old(Items) && pos == before
    {
      if count == 0 {
        return false, before;
      }
      count := count - 1;
      pos := data[fp];
      fp := Masked(fp + 1, mask);
      Items := Items[1..];
      return true, pos;
    }

    /** pos_store_top: read the index-th position from the back, counting from 1, and keep it. Index 0 is
        answered with whatever lies behind the last one. */
    method Top(before: Position, index: nat) returns (ok: bool, pos: Position)
      requires Valid()
      requires index <= 255
      ensures ok == (index <= |Items|)
      ensures ok && index > 0 ==> pos == Items[|Items| - index]
      ensures !ok ==> pos == before
    {
      if index > count {
        return false, before;
      }
      pos := data[Masked(sp - index, mask)];
      return true, pos;
    }
  }
}
