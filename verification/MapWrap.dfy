/** How get_ratio fails for a strip of more than 65535 fields (map.c). */
module MapWrap {
  import opened CInt
  import opened MapAddress
  import opened MapStore
  import opened MapRatio

  /** What access_field can show of a map. */
  ghost predicate IsPlane(cells: Plane) {
    && (forall c: Cell :: c in cells <==> InMap(c))
    && (forall c: Cell :: c in cells ==> Int8(cells[c]))
  }

  /** get_ratio answers that the whole strip is in range. */
  ghost predicate SaysFull(cells: Plane, s: Strip) {
    Quota(CountAlong(InRange(cells, FREE), s, s.Steps()), s.Steps(), s.Breadth()) == FULL
  }

  ghost predicate IsFree(cells: Plane, s: Strip) {
    AllGood(InRange(cells, FREE), s, s.Steps())
  }

  /** The field at step k, w cells beside the line. */
  function FieldAt(s: Strip, k: nat, w: int): Cell {
    Beside(s.AlongX(), LineCell(s, k), w)
  }

  /** Every field of the strip lies in the map. */
  ghost predicate OnMap(s: Strip) {
    forall k: nat, w :: k < s.Steps() && -s.Reach() <= w < s.Reach() + s.Corr() ==> InMap(FieldAt(s, k, w))
  }

  /* ---- A map on which the count is 65536 short ---- */

  function StepOf(s: Strip, c: Cell): nat {
    if s.AlongX() then Abs(c.x - s.x1) else Abs(c.y - s.y1)
  }

  function BesideOf(s: Strip, c: Cell): int {
    if s.AlongX() then c.y - LineCell(s, StepOf(s, c)).y else c.x - LineCell(s, StepOf(s, c)).x
  }

  /** Step and place of a field can be read off its cell: no cell is counted twice. */
  lemma FieldsAreDistinct(s: Strip, k: nat, w: int)
    requires k <= s.Steps()
    ensures StepOf(s, FieldAt(s, k, w)) == k && BesideOf(s, FieldAt(s, k, w)) == w
  {
  }

  /** The first n fields of the strip are free, everything else is an obstacle. */
  ghost function FirstFree(s: Strip, n: nat): Plane {
    imap c: Cell | InMap(c) :: if StepOf(s, c) * s.Fields() + BesideOf(s, c) + s.Reach() < n then 0 else -127
  }

  lemma FirstFreeIsPlane(s: Strip, n: nat)
    ensures IsPlane(FirstFree(s, n))
  {
  }

  lemma FieldIsFree(s: Strip, n: nat, k: nat, w: int)
    requires OnMap(s) && s.width >= 0 && k < s.Steps() && -s.Reach() <= w < s.Reach() + s.Corr()
    ensures FieldAt(s, k, w) in InRange(FirstFree(s, n), FREE) <==> w + s.Reach() < n - k * s.Fields()
  {
    FieldsAreDistinct(s, k, w);
    assert InMap(FieldAt(s, k, w));
  }

  lemma {:induction false} CountsUpTo(good: iset<Cell>, alongX: bool, at: Cell, from: int, n: nat, room: int)
    requires forall w :: from <= w < from + n ==> (Beside(alongX, at, w) in good <==> w - from < room)
    ensures CountAcross(good, alongX, at, from, n) == Min(Max(room, 0), n)
    decreases n
  {
    OneFieldMore(good, alongX, at, from, 0);
    if n > 0 {
      CountsUpTo(good, alongX, at, from, n - 1, room);
      OneFieldMore(good, alongX, at, from, n - 1);
    }
  }

  lemma CountsAcross(s: Strip, n: nat, k: nat)
    requires OnMap(s) && s.width >= 0 && k < s.Steps()
    ensures CountRow(InRange(FirstFree(s, n), FREE), s, k) == Min(Max(n - k * s.Fields(), 0), s.Fields())
  {
    var good := InRange(FirstFree(s, n), FREE);
    forall w | -s.Reach() <= w < -s.Reach() + s.Fields()
      ensures Beside(s.AlongX(), LineCell(s, k), w) in good <==> w + s.Reach() < n - k * s.Fields()
    {
      FieldIsFree(s, n, k, w);
    }
    CountsUpTo(good, s.AlongX(), LineCell(s, k), -s.Reach(), s.Fields(), n - k * s.Fields());
  }

  lemma {:induction false} CountsAlong(s: Strip, n: nat, i: nat)
    requires OnMap(s) && s.width >= 0 && i <= s.Steps()
    ensures CountAlong(InRange(FirstFree(s, n), FREE), s, i) == Min(n, i * s.Fields())
    decreases i
  {
    if i > 0 {
      CountsAlong(s, n, i - 1);
      CountsAcross(s, n, i - 1);
      OneMore(i, s.Fields());
    }
  }

  /** Every strip on the map with more than 65535 fields has a map that gives 255 although 65536 of its fields
      are obstacles. */
  lemma WrappedStrip(s: Strip)
    requires OnMap(s) && s.width >= 0 && s.Steps() * s.Breadth() > 65535
    ensures var cells := FirstFree(s, s.Steps() * s.Breadth() - 65536);
      && IsPlane(cells) && SaysFull(cells, s) && !IsFree(cells, s)
      && CountAlong(InRange(cells, FREE), s, s.Steps()) == s.Steps() * s.Breadth() - 65536
  {
    var n := s.Steps() * s.Breadth() - 65536;
    FirstFreeIsPlane(s, n);
    CountsAlong(s, n, s.Steps());
    QuotaWraps(s.Steps(), s.Breadth());
    AlongFull(InRange(FirstFree(s, n), FREE), s, s.Steps(), s.Breadth());
  }

  /** On a strip on the map, 255 means a free strip for every map exactly if its fields fit 16 bits. */
  lemma RatioExact(s: Strip)
    requires OnMap(s) && s.width >= 0
    ensures (forall cells | IsPlane(cells) :: SaysFull(cells, s) <==> IsFree(cells, s))
      <==> s.Steps() * s.Breadth() <= 65535
  {
    if s.Steps() * s.Breadth() <= 65535 {
      forall cells | IsPlane(cells)
        ensures SaysFull(cells, s) <==> IsFree(cells, s)
      {
        RatioFull(InRange(cells, FREE), s);
      }
    } else {
      WrappedStrip(s);
    }
  }

  /* ---- A way that is free whatever lies on it ---- */

  lemma NoFields(count: nat, steps: nat, breadth: nat)
    requires steps * breadth == 65536
    ensures Quota(count, steps, breadth) == FULL
  {
    assert U16(steps * breadth) == 0;
  }

  lemma WrappedWay()
    ensures Way(-6144, 0, 2048, 0, 196) == Strip(0, 768, 1024, 768, 64)
  {
  }

  /** A way of 8.192 m with a margin of 196 mm has 65536 fields: on every map it counts as free. */
  lemma WrappedWayIsFree(cells: Plane, s: Strip)
    requires s == Strip(0, 768, 1024, 768, 64)
    ensures SaysFull(cells, s)
  {
    assert s.Steps() == 1024 && s.Breadth() == 64;
    NoFields(CountAlong(InRange(cells, FREE), s, 1024), 1024, 64);
  }

  ghost function Obstacles(): (cells: Plane)
    ensures IsPlane(cells)
  {
    imap c: Cell | InMap(c) :: -127
  }

  lemma NothingFree(good: iset<Cell>)
    requires good == InRange(Obstacles(), FREE)
    ensures forall c: Cell :: InMap(c) ==> c !in good
  {
  }

  /** Also on a map on which every field is an obstacle. */
  lemma WrappedWayIsBlocked(s: Strip, good: iset<Cell>)
    requires s == Strip(0, 768, 1024, 768, 64) && good == InRange(Obstacles(), FREE)
    ensures SaysFull(Obstacles(), s) && OnMap(s) && CountAlong(good, s, s.Steps()) == 0
  {
    WrappedWayIsFree(Obstacles(), s);
    WrappedWayOnMap(s);
    NothingFree(good);
    NoneAlong(good, s, s.Steps());
  }

  lemma WrappedWayOnMap(s: Strip)
    requires s == Strip(0, 768, 1024, 768, 64)
    ensures OnMap(s)
  {
    forall k: nat, w | k < 1024 && -32 <= w < 32
      ensures InMap(FieldAt(s, k, w))
    {
      MinorBounded(1024, 0, k);
    }
  }

  lemma {:induction false} NoneAlong(good: iset<Cell>, s: Strip, i: nat)
    requires i <= s.Steps() && s.width >= 0 && OnMap(s) && forall c: Cell :: InMap(c) ==> c !in good
    ensures CountAlong(good, s, i) == 0
    decreases i
  {
    if i > 0 {
      NoneAlong(good, s, i - 1);
      var row := Across(good, s.AlongX(), LineCell(s, i - 1), -s.Reach(), s.Fields());
      if row != {} {
        var w :| w in row;
        NotCounted(good, s, i - 1, w);
      }
    }
  }

  lemma NotCounted(good: iset<Cell>, s: Strip, k: nat, w: int)
    requires k < s.Steps() && OnMap(s) && forall c: Cell :: InMap(c) ==> c !in good
    requires -s.Reach() <= w < s.Reach() + s.Corr()
    ensures FieldAt(s, k, w) !in good
  {
    assert InMap(FieldAt(s, k, w));
  }
}
