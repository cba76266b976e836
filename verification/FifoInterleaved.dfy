/** fifo_put_data and fifo_get_data (fifo.c), run by one producer and one consumer byte by byte; only the
    updates of count are atomic. */
module FifoInterleaved {

  import opened CInt

  /** A call in its copy loops: i of n bytes of phase j are copied; `moved` are the bytes copied so far by
      the consumer, or to be copied by the producer. */
  datatype Side = Idle | Copying(bytes: seq<byte>, length: nat, before: nat, j: nat, i: nat, n: nat, pos: nat, toEnd: nat)

  /** fifo_t, the calls under way, and as history the bytes put and got by completed calls. */
  datatype Fifo = Fifo(size: nat, buffer: seq<byte>, count: nat, pwrite: nat, write2end: nat, pread: nat, read2end: nat,
                       overflow: bool, producer: Side, consumer: Side, accepted: seq<byte>, obtained: seq<byte>)

  function Init(buffer: seq<byte>): Fifo {
    Fifo(|buffer|, buffer, 0, 0, |buffer|, 0, |buffer|, false, Idle, Idle, [], [])
  }

  datatype Event =
    | BeginPut(data: seq<byte>)
    | PutByte
    | PutPhase
    | Publish
    | BeginGet(length: nat)
    | GetByte
    | GetPhase
    | Release

  /** The end of a phase of the copy loops. */
  function NextPhase(s: Side, size: nat): Side
    requires s.Copying? && s.n <= s.toEnd && s.n <= s.length
  {
    var toEnd := s.toEnd - s.n;
    s.(j := s.j + 1, i := 0, before := s.before + s.n, n := s.length - s.n,
       toEnd := if toEnd == 0 then size else toEnd,
       pos := if toEnd == 0 && s.pos >= size then s.pos - size else s.pos)
  }

  predicate CopiesByte(s: Side) {
    s.Copying? && s.j < 2 && s.i < s.n
  }

  predicate EndsPhase(s: Side) {
    s.Copying? && s.j < 2 && s.i == s.n && s.n <= s.toEnd && s.n <= s.length
  }

  predicate Enabled(f: Fifo, e: Event) {
    match e
    case BeginPut(data) => f.producer.Idle? && 0 < |data| < 256
    case PutByte => CopiesByte(f.producer) && f.producer.before + f.producer.i < |f.producer.bytes| && f.producer.pos < |f.buffer|
    case PutPhase => EndsPhase(f.producer)
    case Publish => f.producer.Copying? && f.producer.j == 2
    case BeginGet(length) => f.consumer.Idle? && 0 < length < 256 && length <= f.count   // waits until then
    case GetByte => CopiesByte(f.consumer) && f.consumer.pos < |f.buffer|
    case GetPhase => EndsPhase(f.consumer)
    case Release => f.consumer.Copying? && f.consumer.j == 2 && f.consumer.length <= f.count
  }

  function Step(f: Fifo, e: Event): Fifo
    requires Enabled(f, e)
  {
    match e
    case BeginPut(data) =>
      if |data| + f.count > f.size then f.(overflow := true)
      else f.(producer := Copying(data, |data|, 0, 0, 0, Min(|data|, f.write2end), f.pwrite, f.write2end))
    case PutByte =>
      var s := f.producer;
      f.(buffer := f.buffer[s.pos := s.bytes[s.before + s.i]], producer := s.(i := s.i + 1, pos := s.pos + 1))
    case PutPhase => f.(producer := NextPhase(f.producer, f.size))
    case Publish =>
      var s := f.producer;
      f.(producer := Idle, pwrite := s.pos, write2end := s.toEnd, count := f.count + s.length, accepted := f.accepted + s.bytes)
    case BeginGet(length) =>
      f.(consumer := Copying([], length, 0, 0, 0, Min(length, f.read2end), f.pread, f.read2end))
    case GetByte =>
      var s := f.consumer;
      f.(consumer := s.(bytes := s.bytes + [f.buffer[s.pos]], i := s.i + 1, pos := s.pos + 1))
    case GetPhase => f.(consumer := NextPhase(f.consumer, f.size))
    case Release =>
      var s := f.consumer;
      f.(consumer := Idle, pread := s.pos, read2end := s.toEnd, count := f.count - s.length, obtained := f.obtained + s.bytes)
  }

  /* ---- The invariant ---- */

  /** Where the byte with number x, counted from the start, is kept. */
  function Slot(x: nat, size: nat): nat
    requires size > 0
  {
    x % size
  }

  lemma Wraps(x: nat, n: nat, size: nat)
    requires size > 0 && Slot(x, size) + n <= size
    ensures Slot(x + n, size) == if Slot(x, size) + n == size then 0 else Slot(x, size) + n
  {
    var q, r := x / size, x % size + n;
    assert x + n == q * size + r;
    if r == size {
      assert x + n == (q + 1) * size;
      Quotient(x + n, size, q + 1, 0);
    } else {
      Quotient(x + n, size, q, r);
    }
  }

  lemma Apart(x: nat, y: nat, size: nat)
    requires size > 0 && x < y < x + size
    ensures Slot(x, size) != Slot(y, size)
  {
    var d := y / size - x / size;
    assert y - x == d * size + (Slot(y, size) - Slot(x, size));
    assert d >= 1 ==> d * size >= size;
    assert d <= -1 ==> d * size <= 0 - size;
  }

  /** A copy loop that began at byte `start` is where it should be. */
  predicate Placed(s: Side, start: nat, size: nat)
    requires size > 0
  {
    s.Copying? ==>
      && 0 < s.length <= size && s.j <= 2
      && s.before + (if s.j < 2 then s.n else 0) <= s.length
      && (s.j == 0 ==> s.before == 0 && (s.n == s.length || s.n == s.toEnd))
      && (s.j == 1 ==> s.n == s.length - s.before && (s.n == 0 || s.toEnd == size))
      && (s.j == 2 ==> s.before == s.length && s.i == 0)
      && (s.j < 2 ==> s.i <= s.n <= s.toEnd)
      && s.toEnd == size - Slot(start + s.before, size)
      && s.pos == Slot(start + s.before, size) + s.i
  }

  /** The fields between two calls. */
  predicate Shape(f: Fifo) {
    var p, c := |f.accepted|, |f.obtained|;
    && 0 < f.size < 256 && |f.buffer| == f.size
    && f.count == p - c && f.count <= f.size
    && f.pwrite == Slot(p, f.size) && f.write2end == f.size - f.pwrite
    && f.pread == Slot(c, f.size) && f.read2end == f.size - f.pread
  }

  /** The producer fills free slots. */
  predicate Producing(s: Side, buffer: seq<byte>, size: nat, p: nat, c: nat)
    requires 0 < size == |buffer|
  {
    && Placed(s, p, size)
    && (s.Copying? ==> |s.bytes| == s.length && p + s.length <= c + size && Ready(buffer, size, p, s.bytes, Copied(s)))
  }

  /** The consumer takes published bytes. */
  predicate Consuming(s: Side, size: nat, accepted: seq<byte>, obtained: seq<byte>)
    requires size > 0
  {
    && Placed(s, |obtained|, size)
    && (s.Copying? ==> |obtained| + s.length <= |accepted| && |s.bytes| == Copied(s))
    && obtained + (if s.Copying? then s.bytes else []) <= accepted
  }

  predicate Inv(f: Fifo) {
    && Shape(f) && Kept(f.buffer, f.size, f.accepted, |f.obtained|)
    && Producing(f.producer, f.buffer, f.size, |f.accepted|, |f.obtained|)
    && Consuming(f.consumer, f.size, f.accepted, f.obtained)
  }

  /** Bytes a copy loop has copied. */
  function Copied(s: Side): nat {
    if s.Copying? then s.before + s.i else 0
  }

  /** The bytes from number `from` on are in their slots. */
  predicate Kept(buffer: seq<byte>, size: nat, accepted: seq<byte>, from: nat)
    requires 0 < size == |buffer|
  {
    forall x: nat :: from <= x < |accepted| ==> buffer[Slot(x, size)] == accepted[x]
  }

  /** So are the first n of those to be put after byte number `at`. */
  predicate Ready(buffer: seq<byte>, size: nat, at: nat, bytes: seq<byte>, n: nat)
    requires 0 < size == |buffer|
  {
    forall k: nat :: k < n && k < |bytes| ==> buffer[Slot(at + k, size)] == bytes[k]
  }

  lemma InitInv(buffer: seq<byte>)
    requires 0 < |buffer| < 256
    ensures Inv(Init(buffer))
  {
  }

  lemma PhasePlaced(s: Side, start: nat, size: nat)
    requires size > 0 && Placed(s, start, size) && EndsPhase(s)
    ensures Placed(NextPhase(s, size), start, size) && Copied(NextPhase(s, size)) == Copied(s)
  {
    Wraps(start + s.before, s.n, size);
  }

  lemma BeginPutKeeps(f: Fifo, data: seq<byte>)
    requires Inv(f) && Enabled(f, BeginPut(data))
    ensures Inv(Step(f, BeginPut(data)))
    ensures |data| > f.size - f.count ==> Step(f, BeginPut(data)) == f.(overflow := true)
  {
  }

  /** The byte written now is not one that is still to be read. */
  lemma PutByteKeeps(f: Fifo)
    requires Inv(f) && Enabled(f, PutByte)
    ensures Inv(Step(f, PutByte))
  {
    var s, p, g := f.producer, |f.accepted|, Step(f, PutByte);
    OneByteOn(s, p, f.size, s.bytes);
    WriteKeeps(f.buffer, f.size, f.accepted, |f.obtained|, p, s.bytes, Copied(s));
    assert g.buffer == f.buffer[Slot(p + Copied(s), f.size) := s.bytes[Copied(s)]];
    assert Producing(g.producer, g.buffer, g.size, p, |f.obtained|);
  }

  /** A byte on in a copy loop. */
  lemma OneByteOn(s: Side, start: nat, size: nat, bytes: seq<byte>)
    requires size > 0 && Placed(s, start, size) && CopiesByte(s)
    ensures s.pos == Slot(start + Copied(s), size)
    ensures Placed(s.(bytes := bytes, i := s.i + 1, pos := s.pos + 1), start, size)
  {
    Wraps(start + s.before, s.i, size);
  }

  lemma WriteKeeps(buffer: seq<byte>, size: nat, accepted: seq<byte>, from: nat, p: nat, bytes: seq<byte>, n: nat)
    requires 0 < size == |buffer| && Kept(buffer, size, accepted, from) && Ready(buffer, size, p, bytes, n)
    requires from <= p == |accepted| && n < |bytes| && p + |bytes| <= from + size
    ensures var buffer' := buffer[Slot(p + n, size) := bytes[n]];
      Kept(buffer', size, accepted, from) && Ready(buffer', size, p, bytes, n + 1)
  {
    var buffer' := buffer[Slot(p + n, size) := bytes[n]];
    forall x: nat | from <= x < p
      ensures buffer'[Slot(x, size)] == accepted[x]
    {
      Apart(x, p + n, size);
    }
    forall k: nat | k < n
      ensures buffer'[Slot(p + k, size)] == bytes[k]
    {
      Apart(p + k, p + n, size);
    }
  }

  lemma PublishKeeps(f: Fifo)
    requires Inv(f) && Enabled(f, Publish)
    ensures Inv(Step(f, Publish))
  {
    var s := f.producer;
    KeptMore(f.buffer, f.size, f.accepted, |f.obtained|, s.bytes);
    assert f.obtained + (if f.consumer.Copying? then f.consumer.bytes else []) <= f.accepted + s.bytes;
  }

  lemma KeptMore(buffer: seq<byte>, size: nat, accepted: seq<byte>, from: nat, bytes: seq<byte>)
    requires 0 < size == |buffer| && Kept(buffer, size, accepted, from)
    requires Ready(buffer, size, |accepted|, bytes, |bytes|)
    ensures Kept(buffer, size, accepted + bytes, from)
  {
    var p := |accepted|;
    forall x: nat | from <= x < p + |bytes|
      ensures buffer[Slot(x, size)] == (accepted + bytes)[x]
    {
      if x >= p {
        assert buffer[Slot(p + (x - p), size)] == bytes[x - p];
      }
    }
  }

  lemma GetByteKeeps(f: Fifo)
    requires Inv(f) && Enabled(f, GetByte)
    ensures Inv(Step(f, GetByte))
  {
    var g, s, x := Step(f, GetByte), f.consumer, |f.obtained| + Copied(f.consumer);
    OneByteOn(s, |f.obtained|, f.size, g.consumer.bytes);
    assert f.buffer[Slot(x, f.size)] == f.accepted[x];
    OneMore(f.obtained + s.bytes, f.accepted, x);
    assert f.obtained + g.consumer.bytes == f.obtained + s.bytes + [f.accepted[x]];
    assert Consuming(g.consumer, g.size, g.accepted, g.obtained);
  }

  lemma OneMore(some: seq<byte>, all: seq<byte>, x: nat)
    requires some <= all && |some| == x < |all|
    ensures some + [all[x]] <= all
  {
    assert some == all[..x];
  }

  lemma ReleaseKeeps(f: Fifo)
    requires Inv(f) && Enabled(f, Release)
    ensures Inv(Step(f, Release))
  {
  }

  lemma PutPhaseKeeps(f: Fifo)
    requires Inv(f) && Enabled(f, PutPhase)
    ensures Inv(Step(f, PutPhase))
  {
    PhasePlaced(f.producer, |f.accepted|, f.size);
  }

  lemma GetPhaseKeeps(f: Fifo)
    requires Inv(f) && Enabled(f, GetPhase)
    ensures Inv(Step(f, GetPhase))
  {
    PhasePlaced(f.consumer, |f.obtained|, f.size);
  }

  lemma BeginGetKeeps(f: Fifo, length: nat)
    requires Inv(f) && Enabled(f, BeginGet(length))
    ensures Inv(Step(f, BeginGet(length)))
  {
  }

  lemma StepKeeps(f: Fifo, e: Event)
    requires Inv(f) && Enabled(f, e)
    ensures Inv(Step(f, e))
  {
    match e
    case BeginPut(data) => BeginPutKeeps(f, data);
    case PutByte => PutByteKeeps(f);
    case PutPhase => PutPhaseKeeps(f);
    case Publish => PublishKeeps(f);
    case BeginGet(length) => BeginGetKeeps(f, length);
    case GetByte => GetByteKeeps(f);
    case GetPhase => GetPhaseKeeps(f);
    case Release => ReleaseKeeps(f);
  }

  /* ---- Every interleaving ---- */

  predicate Possible(f: Fifo, events: seq<Event>)
    decreases |events|
  {
    events == [] || (Enabled(f, events[0]) && Possible(Step(f, events[0]), events[1..]))
  }

  function Run(f: Fifo, events: seq<Event>): Fifo
    requires Possible(f, events)
    decreases |events|
  {
    if events == [] then f else Run(Step(f, events[0]), events[1..])
  }

  lemma {:induction false} RunKeeps(f: Fifo, events: seq<Event>)
    requires Inv(f) && Possible(f, events)
    ensures Inv(Run(f, events))
    decreases |events|
  {
    if events != [] {
      StepKeeps(f, events[0]);
      RunKeeps(Step(f, events[0]), events[1..]);
    }
  }

  /** Whatever the interleaving: the bytes got, those of an unfinished call included, are the first ones
      put, in order; the others wait in their slots. */
  lemma FirstInFirstOut(buffer: seq<byte>, events: seq<Event>)
    requires 0 < |buffer| < 256 && Possible(Init(buffer), events)
    ensures var f := Run(Init(buffer), events);
      && f.obtained + (if f.consumer.Copying? then f.consumer.bytes else []) <= f.accepted
      && f.count == |f.accepted| - |f.obtained| <= f.size && f.size == |f.buffer| > 0
      && forall x: nat :: |f.obtained| <= x < |f.accepted| ==> f.buffer[x % f.size] == f.accepted[x]
  {
    InitInv(buffer);
    RunKeeps(Init(buffer), events);
    var f := Run(Init(buffer), events);
    forall x: nat | |f.obtained| <= x < |f.accepted|
      ensures f.buffer[x % f.size] == f.accepted[x]
    {
      assert f.buffer[Slot(x, f.size)] == f.accepted[x];
    }
  }

  /** The consumer reads only what is published, the producer writes only what is not waiting to be read. */
  lemma NoClash(f: Fifo, x: nat)
    requires Inv(f) && |f.obtained| <= x < |f.accepted|
    ensures Enabled(f, PutByte) ==> f.producer.pos != Slot(x, f.size)
    ensures Enabled(f, GetByte) ==> f.buffer[f.consumer.pos] == f.accepted[|f.obtained| + Copied(f.consumer)]
  {
    if Enabled(f, PutByte) {
      var s := f.producer;
      OneByteOn(s, |f.accepted|, f.size, s.bytes);
      Apart(x, |f.accepted| + s.before + s.i, f.size);
    }
    if Enabled(f, GetByte) {
      var s := f.consumer;
      OneByteOn(s, |f.obtained|, f.size, s.bytes);
      assert f.buffer[Slot(|f.obtained| + s.before + s.i, f.size)] == f.accepted[|f.obtained| + s.before + s.i];
    }
  }

  /** A call under way always has a next step: neither side waits for the other inside its copy loops. */
  lemma NeverStuck(f: Fifo)
    requires Inv(f)
    ensures f.producer.Copying? ==> Enabled(f, PutByte) || Enabled(f, PutPhase) || Enabled(f, Publish)
    ensures f.consumer.Copying? ==> Enabled(f, GetByte) || Enabled(f, GetPhase) || Enabled(f, Release)
  {
  }
}
