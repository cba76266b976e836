/** The byte queue of fifo.c on its mutable fields. */
module ByteFifo {
  import opened CInt

  /** The k-th slot after p in a ring. */
  function Wrap(p: nat, k: nat, size: nat): int {
    if p + k < size then p + k else p + k - size
  }

  /** The first n bytes, read around the ring from p on. */
  predicate Holds(ring: seq<byte>, p: nat, bytes: seq<byte>, n: nat) {
    p < |ring| && n <= |ring| && n <= |bytes| && forall k :: 0 <= k < n ==> ring[Wrap(p, k, |ring|)] == bytes[k]
  }

  /** Both rings agree on the slots from the k-th after p on. */
  predicate SameFrom(ring: seq<byte>, ring': seq<byte>, p: nat, k: nat) {
    |ring| == |ring'| && p < |ring|
    && forall i :: k <= i < |ring| ==> ring[Wrap(p, i, |ring|)] == ring'[Wrap(p, i, |ring|)]
  }

  /** What was put behind the contents does not touch them, and continues them. */
  lemma Appended(ring: seq<byte>, ring': seq<byte>, p: nat, items: seq<byte>, data: seq<byte>)
    requires |items| + |data| <= |ring| && Holds(ring, p, items, |items|)
    requires var w := Wrap(p, |items|, |ring|);
      0 <= w < |ring| && Holds(ring', w, data, |data|) && SameFrom(ring, ring', w, |data|)
    ensures Holds(ring', p, items + data, |items| + |data|)
  {
    var w, size := Wrap(p, |items|, |ring|), |ring|;
    forall k | 0 <= k < |items| + |data|
      ensures ring'[Wrap(p, k, size)] == (items + data)[k]
    {
      if k < |items| {
        var i := if Wrap(p, k, size) >= w then Wrap(p, k, size) - w else Wrap(p, k, size) - w + size;
        assert Wrap(w, i, size) == Wrap(p, k, size) && |data| <= i < size;
      } else {
        assert Wrap(w, k - |items|, size) == Wrap(p, k, size);
      }
    }
  }

  /** ring' is ring with n bytes of data written from `at` on. */
  predicate CopiedIn(ring: seq<byte>, ring': seq<byte>, at: nat, data: seq<byte>, from: nat, n: nat)
    requires from + n <= |data|
  {
    |ring| == |ring'| && forall i :: 0 <= i < |ring| ==>
      ring'[i] == if at <= i < at + n then data[from + i - at] else ring[i]
  }

  /** A stretch copied in behind the first ones. */
  lemma CopiedOn(start: seq<byte>, ring: seq<byte>, ring': seq<byte>, p: nat, data: seq<byte>, from: nat, n: nat, at: nat)
    requires from + n <= |data| <= |ring| && CopiedIn(ring, ring', at, data, from, n)
    requires Holds(ring, p, data, from) && SameFrom(start, ring, p, from)
    requires at == Wrap(p, from, |ring|) && at + n <= |ring|
    ensures Holds(ring', p, data, from + n) && SameFrom(start, ring', p, from + n)
  {
    forall k | 0 <= k < from + n
      ensures ring'[Wrap(p, k, |ring|)] == data[k]
    {
    }
    forall k | from + n <= k < |ring|
      ensures ring'[Wrap(p, k, |ring|)] == start[Wrap(p, k, |ring|)]
    {
    }
  }

  /** What was got from the front leaves the rest. */
  lemma Removed(ring: seq<byte>, p: nat, items: seq<byte>, n: nat)
    requires n <= |items| <= |ring| && Holds(ring, p, items, |items|) && n > 0
    ensures 0 <= Wrap(p, n, |ring|) < |ring| && Holds(ring, Wrap(p, n, |ring|), items[n..], |items| - n)
  {
    var w := Wrap(p, n, |ring|);
    forall k | 0 <= k < |items| - n
      ensures ring[Wrap(w, k, |ring|)] == items[n..][k]
    {
      assert Wrap(w, k, |ring|) == Wrap(p, n + k, |ring|);
    }
  }

  class Fifo {
    const buffer: array<byte>
    var count: nat
    var pwrite: nat
    var write2end: nat
    var pread: nat
    var read2end: nat
    var overflow: bool
    ghost var Items: seq<byte>      // what waits to be read

    ghost predicate Valid()
      reads this, buffer
    {
      && 0 < buffer.Length < 256
      && count == |Items| <= buffer.Length
      && Holds(buffer[..], pread, Items, count)
      && pwrite == Wrap(pread, count, buffer.Length)
      && write2end == buffer.Length - pwrite && read2end == buffer.Length - pread
    }

    /** fifo_init. */
    constructor (memory: array<byte>)
      requires 0 < memory.Length < 256
      ensures Valid() && buffer == memory && Items == [] && !overflow
    {
      buffer := memory;
      count, pread, pwrite, overflow, Items := 0, 0, 0, false, [];
      read2end, write2end := memory.Length, memory.Length;
    }

    /** An inner loop of fifo_put_data. */
    method CopyIn(at: nat, data: seq<byte>, from: nat, n: nat)
      requires from + n <= |data| && at + n <= buffer.Length
      modifies buffer
      ensures CopiedIn(old(buffer[..]), buffer[..], at, data, from, n)
    {
      var i := 0;
      while i < n
        invariant i <= n
        invariant forall k :: 0 <= k < buffer.Length ==>
          buffer[k] == if at <= k < at + i then data[from + k - at] else old(buffer[k])
      {
        buffer[at + i] := data[from + i];
        i := i + 1;
      }
    }

    /** fifo_put_data: 0 if all was put, 1 for no data, 2 if there is too little room. */
    method Put(data: seq<byte>) returns (error: nat)
      requires Valid() && |data| < 256
      modifies this, buffer
      ensures Valid()
      ensures error == if data == [] then 1 else if |data| > buffer.Length - old(count) then 2 else 0
      ensures Items == if error == 0 then old(Items) + data else old(Items)
      ensures overflow == (old(overflow) || error == 2)
      ensures error != 0 ==> buffer[..] == old(buffer[..])
    {
      if |data| == 0 {
        return 1;
      }
      if |data| > buffer.Length - count {
        overflow := true;
        return 2;
      }
      var at, toEnd := CopyAround(data);
      Appended(old(buffer[..]), buffer[..], pread, Items, data);
      write2end, pwrite := toEnd, at;
      count := count + |data|;
      Items := Items + data;
      error := 0;
    }

    /** Where the copy loops are after `from` bytes. */
    predicate At(p: nat, from: nat, at: nat, toEnd: nat)
      reads this
    {
      at == Wrap(p, from, buffer.Length) && toEnd == buffer.Length - at
    }

    /** The two phases: up to the end of the buffer, then from its beginning. */
    method CopyAround(data: seq<byte>) returns (at: nat, toEnd: nat)
      requires 0 < |data| <= buffer.Length && pwrite < buffer.Length && write2end == buffer.Length - pwrite
      modifies buffer
      ensures Holds(buffer[..], pwrite, data, |data|) && SameFrom(old(buffer[..]), buffer[..], pwrite, |data|)
      ensures At(pwrite, |data|, at, toEnd)
    {
      at, toEnd := pwrite, write2end;
      var n: nat, j: nat, from: nat := Min(|data|, toEnd), 0, 0;
      while j < 2
        invariant j <= 2 && from <= |data| && At(pwrite, from, at, toEnd)
        invariant j == 0 ==> from == 0 && n == Min(|data|, toEnd)
        invariant j == 1 ==> from + n == |data| && (n > 0 ==> at == 0)
        invariant j == 2 ==> from == |data|
        invariant Holds(buffer[..], pwrite, data, from) && SameFrom(old(buffer[..]), buffer[..], pwrite, from)
      {
        CopyPhase(old(buffer[..]), at, data, from, n);
        from, at, toEnd := from + n, at + n, toEnd - n;
        if toEnd == 0 {
          toEnd := buffer.Length;
          at := at - toEnd;
        }
        n := |data| - n;
        j := j + 1;
      }
    }

    /** One phase. */
    method CopyPhase(ghost start: seq<byte>, at: nat, data: seq<byte>, from: nat, n: nat)
      requires from + n <= |data| <= buffer.Length && pwrite < buffer.Length
      requires at == Wrap(pwrite, from, buffer.Length) && at + n <= buffer.Length
      requires Holds(buffer[..], pwrite, data, from) && SameFrom(start, buffer[..], pwrite, from)
      modifies buffer
      ensures Holds(buffer[..], pwrite, data, from + n) && SameFrom(start, buffer[..], pwrite, from + n)
    {
      ghost var ring := buffer[..];
      CopyIn(at, data, from, n);
      CopiedOn(start, ring, buffer[..], pwrite, data, from, n, at);
    }

    /** The number of bytes fifo_get_data delivers: an int16_t cut to 8 bits. */
    static function Amount(length: int): nat {
      if length <= 255 then length % 256 else 255
    }

    /** An inner loop of fifo_get_data. */
    method CopyOut(at: nat, n: nat, got: seq<byte>) returns (more: seq<byte>)
      requires at + n <= buffer.Length
      ensures more == got + buffer[at..at + n]
    {
      more := got;
      var i := 0;
      while i < n
        invariant i <= n && more == got + buffer[at..at + i]
      {
        more := more + [buffer[at + i]];
        i := i + 1;
      }
    }

    /** fifo_get_data, once enough bytes are there; before, it blocks. */
    method Get(length: int) returns (data: seq<byte>)
      requires Valid() && (if length > 255 then 255 else length % 256) <= count
      modifies this
      ensures Valid() && buffer[..] == old(buffer[..]) && overflow == old(overflow)
      ensures old(Items) == data + Items
      ensures 0 <= length <= 255 ==> |data| == length && data == old(Items)[..length] && Items == old(Items)[length..]
      ensures length > 255 ==> |data| == 255
      ensures length < 0 ==> |data| == length % 256
    {
      var l := Amount(length);
      data := [];
      if l == 0 {
        return;
      }
      var at, toEnd;
      at, toEnd, data := TakeAround(l);
      Removed(buffer[..], pread, Items, l);
      pread, read2end := at, toEnd;
      count := count - l;
      Items := Items[l..];
    }

    /** The two phases of reading. */
    method TakeAround(l: nat) returns (at: nat, toEnd: nat, data: seq<byte>)
      requires Valid() && 0 < l <= count
      ensures data == Items[..l] && at == Wrap(pread, l, buffer.Length) && toEnd == buffer.Length - at
    {
      at, toEnd, data := pread, read2end, [];
      var n: nat, j: nat := Min(l, toEnd), 0;
      while j < 2
        invariant j <= 2 && |data| <= l && data == Items[..|data|]
        invariant j == 0 ==> data == [] && n == Min(l, toEnd)
        invariant j == 1 ==> |data| + n == l && (n > 0 ==> at == 0)
        invariant j == 2 ==> |data| == l
        invariant at == Wrap(pread, |data|, buffer.Length) && toEnd == buffer.Length - at
      {
        InOrder(at, n, data);
        data := CopyOut(at, n, data);
        at, toEnd := at + n, toEnd - n;
        if toEnd == 0 {
          toEnd := buffer.Length;
          at := at - toEnd;
        }
        n := l - n;
        j := j + 1;
      }
    }

    /** A stretch of the buffer is a stretch of the contents. */
    lemma InOrder(at: nat, n: nat, data: seq<byte>)
      requires Valid() && at + n <= buffer.Length && |data| + n <= count && at == Wrap(pread, |data|, buffer.Length)
      requires data == Items[..|data|]
      ensures data + buffer[at..at + n] == Items[..|data| + n]
    {
      forall i | at <= i < at + n
        ensures buffer[i] == Items[|data| + i - at]
      {
        assert Wrap(pread, |data| + i - at, buffer.Length) == i;
      }
    }
  }
}
