/** The walk along a strip of the map, get_ratio and map_way_free (map.c). */
module MapRatio {
  import opened CInt
  import opened MapAddress
  import opened MapStore

  const FULL := 255                 // MAP_RATIO_FULL
  const OBSTACLE_THRESHOLD := -20   // MAP_OBSTACLE_THRESHOLD
  const BOT_DIAMETER := 120

  /** A line in map coordinates, and the width of the strip around it. */
  datatype Strip = Strip(x1: int, y1: int, x2: int, y2: int, width: int) {

    function DX(): nat { if x2 < x1 then x1 - x2 else x2 - x1 }

    function DY(): nat { if y2 < y1 then y1 - y2 else y2 - y1 }

    predicate AlongX() { DX() >= DY() }

    /** Steps along the longer axis, and how far the shorter one has to come. */
    function Steps(): nat { if AlongX() then DX() else DY() }

    function Rise(): nat { if AlongX() then DY() else DX() }

    /** Across the line, the strip reaches from -Reach() to Reach() + Corr(), exclusive. */
    function Corr(): nat { width % 2 }

    function Reach(): int { if TruncDiv(width, 2) == 0 then 1 else TruncDiv(width, 2) }

    function Breadth(): int { 2 * Reach() + Corr() }

    /** Fields in a row of the strip; none if the width is negative. */
    function Fields(): nat { if Breadth() < 0 then 0 else Breadth() }

    /** Coordinates from world_to_map, a width that was an int16 divided by 8. */
    predicate Sane() {
      -3328 <= x1 <= 4863 && -3328 <= y1 <= 4863 && -3328 <= x2 <= 4863 && -3328 <= y2 <= 4863 && -4096 <= width <= 4095
    }
  }

  /** How far the shorter axis has come after i steps, rounded. */
  function Minor(d: nat, m: nat, i: nat): nat {
    if d == 0 then 0 else (d / 2 + i * m) / d
  }

  function Remainder(d: nat, m: nat, i: nat): nat {
    if d == 0 then 0 else (d / 2 + i * m) % d
  }

  /** n cells from a coordinate towards another. */
  function Towards(from: int, to: int, n: nat): int {
    if to < from then from - n else from + n
  }

  /** The cell of the line at step i, and those of the strip beside it. */
  function LineCell(s: Strip, i: nat): Cell {
    var offset := Minor(s.Steps(), s.Rise(), i);
    if s.AlongX() then Cell(Towards(s.x1, s.x2, i), Towards(s.y1, s.y2, offset))
    else Cell(Towards(s.x1, s.x2, offset), Towards(s.y1, s.y2, i))
  }

  function Beside(alongX: bool, at: Cell, w: int): Cell {
    if alongX then Cell(at.x, at.y + w) else Cell(at.x + w, at.y)
  }

  datatype Range = Range(low: int, high: int)

  /** What access_field reads at a cell. */
  ghost function Field(cells: Plane, c: Cell): int {
    if c in cells then cells[c] else 0
  }

  ghost predicate Good(cells: Plane, c: Cell, r: Range) {
    r.low <= Field(cells, c) <= r.high
  }

  /** The cells whose values are in range. */
  ghost function InRange(cells: Plane, r: Range): iset<Cell> {
    iset c: Cell | Good(cells, c, r)
  }

  /** The good ones among the first n fields beside a cell of the line, by their place across. */
  ghost function Across(good: iset<Cell>, alongX: bool, at: Cell, from: int, n: nat): set<int> {
    set w | from <= w < from + n && Beside(alongX, at, w) in good
  }

  /** Their number. */
  ghost function CountAcross(good: iset<Cell>, alongX: bool, at: Cell, from: int, n: nat): nat {
    |Across(good, alongX, at, from, n)|
  }

  lemma OneFieldMore(good: iset<Cell>, alongX: bool, at: Cell, from: int, n: nat)
    ensures CountAcross(good, alongX, at, from, 0) == 0
    ensures CountAcross(good, alongX, at, from, n + 1) ==
      CountAcross(good, alongX, at, from, n) + Tick(good, Beside(alongX, at, from + n))
  {
    var some, more := Across(good, alongX, at, from, n), Across(good, alongX, at, from, n + 1);
    assert Across(good, alongX, at, from, 0) == {};
    if Beside(alongX, at, from + n) in good {
      assert more == some + {from + n};
    } else {
      assert more == some;
    }
  }

  ghost function Tick(good: iset<Cell>, c: Cell): nat {
    if c in good then 1 else 0
  }

  ghost function CountRow(good: iset<Cell>, s: Strip, i: nat): nat {
    CountAcross(good, s.AlongX(), LineCell(s, i), -s.Reach(), s.Fields())
  }

  ghost function CountAlong(good: iset<Cell>, s: Strip, i: nat): nat {
    if i == 0 then 0 else CountAlong(good, s, i - 1) + CountRow(good, s, i - 1)
  }

  function Share(count: nat, fields: nat): nat {
    if fields == 0 then FULL else count * 255 / fields % 256
  }

  /** The quotient get_ratio returns, on 16 bit counters. */
  function Quota(count: nat, steps: nat, breadth: int): nat {
    Share(U16(count), U16(steps * breadth))
  }

  /* ---- The line ---- */

  /** One step of the walk: the remainder lh and the offset stay quotient and remainder of d / 2 + i * m. */
  lemma LineStep(d: nat, m: nat, i: nat, offset: nat, lh: nat)
    requires d > 0 && m <= d && offset == Minor(d, m, i) && lh == Remainder(d, m, i)
    ensures lh + m < 2 * d
    ensures Minor(d, m, i + 1) == if lh + m >= d then offset + 1 else offset
    ensures Remainder(d, m, i + 1) == if lh + m >= d then lh + m - d else lh + m
  {
    assert d / 2 + (i + 1) * m == offset * d + (lh + m);
    if lh + m >= d {
      assert d / 2 + (i + 1) * m == (offset + 1) * d + (lh + m - d);
      Quotient(d / 2 + (i + 1) * m, d, offset + 1, lh + m - d);
    } else {
      Quotient(d / 2 + (i + 1) * m, d, offset, lh + m);
    }
  }

  /** The walk begins and ends on the end points of the line. */
  lemma LineEnds(s: Strip)
    ensures LineCell(s, 0) == Cell(s.x1, s.y1) && LineCell(s, s.Steps()) == Cell(s.x2, s.y2)
    ensures Remainder(s.Steps(), s.Rise(), 0) == s.Steps() / 2
  {
    var d, m := s.Steps(), s.Rise();
    if d > 0 {
      Quotient(d / 2 + d * m, d, m, d / 2);
      Quotient(d / 2, d, 0, d / 2);
    }
  }

  /** Every step goes one cell along the longer axis and at most one along the other. */
  lemma LineIsConnected(s: Strip, i: nat)
    requires i < s.Steps()
    ensures var a, b := LineCell(s, i), LineCell(s, i + 1);
      && -1 <= b.x - a.x <= 1 && -1 <= b.y - a.y <= 1
      && (if s.AlongX() then b.x == Towards(a.x, s.x2, 1) else b.y == Towards(a.y, s.y2, 1))
  {
    var d, m := s.Steps(), s.Rise();
    LineStep(d, m, i, Minor(d, m, i), Remainder(d, m, i));
  }

  lemma MinorBounded(d: nat, m: nat, i: nat)
    requires i <= d && m <= d
    ensures Minor(d, m, i) <= m
  {
    if d > 0 {
      assert i * m <= d * m;
      QuotientAtMost(d / 2 + i * m, d, m);
    }
  }

  lemma QuotientAtMost(a: nat, d: nat, m: nat)
    requires d > 0 && a < d * m + d
    ensures a / d <= m
  {
    var q := a / d;
    assert q * d <= a;
    assert q >= m + 1 ==> q * d >= (m + 1) * d == d + d * m;
  }

  lemma LineIsSane(s: Strip, i: nat)
    requires s.Sane() && i <= s.Steps()
    ensures -3328 <= LineCell(s, i).x <= 4863 && -3328 <= LineCell(s, i).y <= 4863
  {
    MinorBounded(s.Steps(), s.Rise(), i);
  }

  /* ---- The ratio ---- */

  ghost predicate AllAcross(good: iset<Cell>, alongX: bool, at: Cell, from: int, n: nat) {
    forall w :: from <= w < from + n ==> Beside(alongX, at, w) in good
  }

  ghost predicate AllRow(good: iset<Cell>, s: Strip, i: nat) {
    AllAcross(good, s.AlongX(), LineCell(s, i), -s.Reach(), s.Fields())
  }

  /** All fields of the strip up to step i are good. */
  ghost predicate AllGood(good: iset<Cell>, s: Strip, i: nat) {
    forall k :: 0 <= k < i ==> AllRow(good, s, k)
  }

  lemma {:induction false} AcrossFull(good: iset<Cell>, alongX: bool, at: Cell, from: int, n: nat)
    ensures CountAcross(good, alongX, at, from, n) <= n
    ensures CountAcross(good, alongX, at, from, n) == n <==> AllAcross(good, alongX, at, from, n)
    decreases n
  {
    OneFieldMore(good, alongX, at, from, 0);
    if n > 0 {
      OneFieldMore(good, alongX, at, from, n - 1);
      AcrossFull(good, alongX, at, from, n - 1);
      var last := Beside(alongX, at, from + n - 1) in good;
      assert AllAcross(good, alongX, at, from, n) <==> AllAcross(good, alongX, at, from, n - 1) && last;
    }
  }

  lemma {:induction false} AlongFull(good: iset<Cell>, s: Strip, i: nat, breadth: nat)
    requires s.width >= 0 && breadth == s.Breadth()
    ensures CountAlong(good, s, i) <= i * breadth
    ensures CountAlong(good, s, i) == i * breadth <==> AllGood(good, s, i)
    decreases i
  {
    if i > 0 {
      AlongFull(good, s, i - 1, breadth);
      RowFull(good, s, i - 1, breadth);
      OneMore(i, breadth);
      assert AllGood(good, s, i) <==> AllGood(good, s, i - 1) && AllRow(good, s, i - 1);
    }
  }

  lemma RowFull(good: iset<Cell>, s: Strip, i: nat, breadth: nat)
    requires s.width >= 0 && breadth == s.Breadth()
    ensures CountRow(good, s, i) <= breadth
    ensures CountRow(good, s, i) == breadth <==> AllRow(good, s, i)
  {
    AcrossFull(good, s.AlongX(), LineCell(s, i), -s.Reach(), s.Fields());
  }

  lemma OneMore(i: nat, breadth: nat)
    requires i > 0
    ensures i * breadth == (i - 1) * breadth + breadth
  {
  }

  /** The good fields of the first i rows, each by its step and its place across. */
  ghost function GoodFields(good: iset<Cell>, s: Strip, i: nat): set<(nat, int)> {
    set k: nat, w: int | 0 <= k < i && -s.Reach() <= w < s.Reach() + s.Corr()
                         && Beside(s.AlongX(), LineCell(s, k), w) in good :: (k, w)
  }

  /** A field is good and belongs to the strip. */
  ghost predicate IsGoodField(good: iset<Cell>, s: Strip, k: nat, w: int) {
    -s.Reach() <= w < s.Reach() + s.Corr() && Beside(s.AlongX(), LineCell(s, k), w) in good
  }

  lemma InGoodFields(good: iset<Cell>, s: Strip, i: nat, p: (nat, int))
    ensures p in GoodFields(good, s, i) <==> p.0 < i && IsGoodField(good, s, p.0, p.1)
  {
  }

  lemma InRow(good: iset<Cell>, s: Strip, k: nat, p: (nat, int))
    ensures p in RowFields(good, s.AlongX(), LineCell(s, k), -s.Reach(), s.Fields(), k)
      <==> p.0 == k && IsGoodField(good, s, p.0, p.1)
  {
  }

  lemma SizesAdd(a: set<(nat, int)>, b: set<(nat, int)>, c: set<(nat, int)>)
    requires forall p :: p in c <==> p in a || p in b
    requires forall p :: p in a ==> p !in b
    ensures |c| == |a| + |b|
  {
    assert c == a + b && a !! b;
  }

  lemma OneRowMore(good: iset<Cell>, s: Strip, k: nat, a: set<(nat, int)>, row: set<(nat, int)>, c: set<(nat, int)>)
    requires row == RowFields(good, s.AlongX(), LineCell(s, k), -s.Reach(), s.Fields(), k)
    requires a == GoodFields(good, s, k) && c == GoodFields(good, s, k + 1)
    ensures |c| == |a| + |row|
  {
    forall p: (nat, int)
      ensures (p in c <==> p in a || p in row) && (p in a ==> p !in row)
    {
      InGoodFields(good, s, k, p);
      InGoodFields(good, s, k + 1, p);
      InRow(good, s, k, p);
    }
    SizesAdd(a, row, c);
  }

  lemma SizeOfRow(good: iset<Cell>, s: Strip, k: nat)
    ensures |GoodFields(good, s, k + 1)| == |GoodFields(good, s, k)| + CountRow(good, s, k)
  {
    var row := RowFields(good, s.AlongX(), LineCell(s, k), -s.Reach(), s.Fields(), k);
    OneRowMore(good, s, k, GoodFields(good, s, k), row, GoodFields(good, s, k + 1));
    RowIsNumber(good, s.AlongX(), LineCell(s, k), -s.Reach(), s.Fields(), k);
  }

  /** What is counted is their number. */
  lemma {:induction false} CountIsNumber(good: iset<Cell>, s: Strip, i: nat)
    ensures CountAlong(good, s, i) == |GoodFields(good, s, i)|
    decreases i
  {
    if i == 0 {
      assert GoodFields(good, s, 0) == {};
    } else {
      CountIsNumber(good, s, i - 1);
      SizeOfRow(good, s, i - 1);
    }
  }

  ghost function RowFields(good: iset<Cell>, alongX: bool, at: Cell, from: int, n: nat, k: nat): set<(nat, int)> {
    set w: int | from <= w < from + n && Beside(alongX, at, w) in good :: (k, w)
  }

  lemma {:induction false} RowIsNumber(good: iset<Cell>, alongX: bool, at: Cell, from: int, n: nat, k: nat)
    ensures |RowFields(good, alongX, at, from, n, k)| == CountAcross(good, alongX, at, from, n)
    decreases n
  {
    OneFieldMore(good, alongX, at, from, 0);
    if n == 0 {
      assert RowFields(good, alongX, at, from, 0, k) == {};
    } else {
      RowIsNumber(good, alongX, at, from, n - 1, k);
      OneFieldMore(good, alongX, at, from, n - 1);
      var last := from + n - 1;
      assert RowFields(good, alongX, at, from, n, k)
          == RowFields(good, alongX, at, from, n - 1, k) + if Beside(alongX, at, last) in good then {(k, last)} else {};
    }
  }

  /** The quotient is 255 exactly for a full count if the number of fields fits 16 bits ... */
  lemma QuotaFull(count: nat, steps: nat, breadth: nat)
    requires count <= steps * breadth <= 65535
    ensures Quota(count, steps, breadth) == FULL <==> count == steps * breadth
  {
    var fields := steps * breadth;
    SmallIsItself(fields);
    SmallIsItself(count);
    if fields > 0 {
      SharePercent(count, fields);
    }
  }

  lemma SharePercent(count: nat, fields: nat)
    requires count <= fields && fields > 0
    ensures count * 255 / fields <= 255 && (count * 255 / fields == 255 <==> count == fields)
  {
    var q := count * 255 / fields;
    assert q >= 256 ==> q * fields >= 256 * fields;
    assert q == 255 ==> q * fields == 255 * fields;
    if count == fields {
      Quotient(count * 255, fields, 255, 0);
    }
  }

  lemma ShareBetween(count: nat, fields: nat)
    requires count <= fields && fields > 0
    ensures var r := Share(count, fields); r * fields <= 255 * count < (r + 1) * fields
  {
    var q := count * 255 / fields;
    SharePercent(count, fields);
    assert Share(count, fields) == q;
    assert q * fields <= count * 255 < (q + 1) * fields;
  }

  /** Within 16 bits the quotient is the share of the count in 255ths, rounded down; without fields it is 255. */
  lemma QuotaIsShare(count: nat, steps: nat, breadth: nat, n: nat)
    requires n == steps * breadth && count <= n <= 65535
    ensures var r := Quota(count, steps, breadth);
      if n == 0 then r == 255 else r * n <= 255 * count < (r + 1) * n
  {
    SmallIsItself(n);
    SmallIsItself(count);
    if n > 0 {
      ShareBetween(count, n);
    }
  }

  /** ... and otherwise also for 65536 fewer, because the counters wrap. */
  lemma QuotaWraps(steps: nat, breadth: nat)
    requires steps * breadth > 65535
    ensures Quota(steps * breadth - 65536, steps, breadth) == FULL
  {
    var count := steps * breadth - 65536;
    var fields := U16(steps * breadth);
    assert U16(count) == fields;
    if fields > 0 {
      Quotient(fields * 255, fields, 255, 0);
    }
  }

  /** The shape of a strip in its own terms: the longer axis leads, with the x axis first; the breadth is the
      width, or two and three fields for the widths 0 and 1, half of it on the lower side. */
  lemma StripShape(s: Strip)
    ensures s.AlongX() <==> Abs(s.x2 - s.x1) >= Abs(s.y2 - s.y1)
    ensures s.Steps() == Max(Abs(s.x2 - s.x1), Abs(s.y2 - s.y1)) && s.Rise() == Min(Abs(s.x2 - s.x1), Abs(s.y2 - s.y1))
    ensures s.width >= 2 ==> s.Breadth() == s.width && s.Reach() == s.width / 2
    ensures 0 <= s.width <= 1 ==> s.Breadth() == s.width + 2 && s.Reach() == 1
  {
  }

  function Way(fromX: int, fromY: int, toX: int, toY: int, margin: nat): Strip {
    Strip(WorldToMap(fromX), WorldToMap(fromY), WorldToMap(toX), WorldToMap(toY), (BOT_DIAMETER + 2 * margin) / 8)
  }

  lemma WaySane(fromX: int, fromY: int, toX: int, toY: int, margin: nat)
    requires Int16(fromX) && Int16(fromY) && Int16(toX) && Int16(toY) && margin < 256
    ensures Way(fromX, fromY, toX, toY, margin).Sane() && Way(fromX, fromY, toX, toY, margin).width >= 0
  {
    WorldToMapVariants(fromX);
    WorldToMapVariants(fromY);
    WorldToMapVariants(toX);
    WorldToMapVariants(toY);
  }

  /** x is the cell of the world coordinate k: 8 mm wide, counted from -6144 mm; in front of that the bounds
      of a cell are on the other side. */
  predicate CellOf(k: int, x: int) {
    if k >= -6144 then 8 * x <= k + 6144 < 8 * x + 8 else 8 * x - 8 < k + 6144 <= 8 * x
  }

  /** The strip of a way: from the cell of the one world point to that of the other, as broad as the bot with
      the margin on either side. */
  lemma WayIsThere(fromX: int, fromY: int, toX: int, toY: int, margin: nat)
    ensures var s := Way(fromX, fromY, toX, toY, margin);
      && CellOf(fromX, s.x1) && CellOf(fromY, s.y1) && CellOf(toX, s.x2) && CellOf(toY, s.y2)
      && 8 * s.width <= 120 + 2 * margin < 8 * s.width + 8
  {
    CellOfWorld(fromX);
    CellOfWorld(fromY);
    CellOfWorld(toX);
    CellOfWorld(toY);
  }

  lemma CellOfWorld(k: int)
    ensures CellOf(k, WorldToMap(k))
  {
    if k < -6144 {
      var n := -(k + 6144);
      assert WorldToMap(k) == -(n / 8);
    }
  }

  const FREE := Range(OBSTACLE_THRESHOLD, 127)

  /** get_ratio is 255 exactly if the whole strip is in range, for every map. */
  lemma RatioFull(good: iset<Cell>, s: Strip)
    requires s.width >= 0 && s.Steps() * s.Breadth() <= 65535
    ensures Quota(CountAlong(good, s, s.Steps()), s.Steps(), s.Breadth()) == FULL <==> AllGood(good, s, s.Steps())
  {
    AlongFull(good, s, s.Steps(), s.Breadth());
    QuotaFull(CountAlong(good, s, s.Steps()), s.Steps(), s.Breadth());
  }

  /* ---- The walk itself ---- */

  /** A 16 bit counter and how often it wrapped around stand for a number. */
  predicate Counts(count: nat, wraps: nat, n: nat) {
    count < 65536 && n == count + 65536 * wraps
  }

  /** A set of cells is that of the fields in range. */
  ghost predicate Matches(good: iset<Cell>, cells: Plane, r: Range) {
    forall c: Cell {:trigger Good(cells, c, r)} :: c in good <==> Good(cells, c, r)
  }

  /** One field: counted if it is in range. */
  method CountField(map_: MapCache, ghost good: iset<Cell>, c: Cell, r: Range, count0: nat, ghost wraps0: nat, ghost n: nat)
    returns (count: nat, ghost wraps: nat)
    requires map_.Valid() && Matches(good, map_.cells, r) && Int16(c.x) && Int16(c.y) && Counts(count0, wraps0, n)
    modifies map_, map_.buffer
    ensures map_.Valid() && map_.cells == old(map_.cells) && map_.header == old(map_.header)
    ensures Counts(count, wraps, n + Tick(good, c))
  {
    count, wraps := count0, wraps0;
    ghost var cells := map_.cells;
    var field := map_.AccessField(c.x, c.y, 0, false);
    assert field == Field(cells, c);
    assert c in good <==> Good(cells, c, r);
    if r.low <= field && field <= r.high {
      if count == 65535 {
        count, wraps := 0, wraps + 1;
      } else {
        count := count + 1;
      }
    }
  }

  /** The inner loops: the fields across the line at one of its cells. */
  method CountFields(map_: MapCache, ghost good: iset<Cell>, alongX: bool, at: Cell, r: Range, from: int, to: int,
                     count0: nat, ghost wraps0: nat, ghost n0: nat)
    returns (count: nat, ghost wraps: nat, ghost fields: nat)
    requires map_.Valid() && Matches(good, map_.cells, r) && Counts(count0, wraps0, n0)
    requires -3328 <= at.x <= 4863 && -3328 <= at.y <= 4863 && -4096 <= from && to <= 4096
    modifies map_, map_.buffer
    ensures map_.Valid() && map_.cells == old(map_.cells) && map_.header == old(map_.header)
    ensures fields == (if to < from then 0 else to - from)
    ensures Counts(count, wraps, n0 + CountAcross(good, alongX, at, from, fields))
  {
    count, wraps, fields := count0, wraps0, 0;
    ghost var cells := map_.cells;
    var w := from;
    OneFieldMore(good, alongX, at, from, 0);
    while w < to
      invariant map_.Valid() && map_.cells == cells && map_.header == old(map_.header)
      invariant w == from + fields && (w <= to || fields == 0)
      invariant Counts(count, wraps, n0 + CountAcross(good, alongX, at, from, fields))
    {
      OneFieldMore(good, alongX, at, from, fields);
      count, wraps := CountField(map_, good, Beside(alongX, at, w), r, count, wraps,
                                 n0 + CountAcross(good, alongX, at, from, fields));
      w, fields := w + 1, fields + 1;
    }
  }

  /** One round of the outer loops. */
  method WalkOn(map_: MapCache, ghost good: iset<Cell>, s: Strip, r: Range, ghost i: nat, at0: Cell, lh0: nat,
                count0: nat, ghost wraps0: nat)
    returns (at: Cell, lh: nat, count: nat, ghost wraps: nat)
    requires map_.Valid() && Matches(good, map_.cells, r) && s.Sane() && i < s.Steps()
    requires at0 == LineCell(s, i) && lh0 == Remainder(s.Steps(), s.Rise(), i)
    requires Counts(count0, wraps0, CountAlong(good, s, i))
    modifies map_, map_.buffer
    ensures map_.Valid() && map_.cells == old(map_.cells) && map_.header == old(map_.header)
    ensures at == LineCell(s, i + 1) && lh == Remainder(s.Steps(), s.Rise(), i + 1)
    ensures Counts(count, wraps, CountAlong(good, s, i + 1))
  {
    LineIsSane(s, i);
    ghost var fields: nat;
    count, wraps, fields := CountFields(map_, good, s.AlongX(), at0, r, -s.Reach(), s.Reach() + s.Corr(), count0, wraps0,
                                        CountAlong(good, s, i));
    assert fields == s.Fields();
    assert CountAlong(good, s, i + 1) == CountAlong(good, s, i) + CountRow(good, s, i);
    at, lh := NextCell(s, i, at0, lh0);
  }

  /** The end of a round of the outer loops. */
  method NextCell(s: Strip, ghost i: nat, at: Cell, lh0: nat) returns (next: Cell, lh: nat)
    requires i < s.Steps() && at == LineCell(s, i) && lh0 == Remainder(s.Steps(), s.Rise(), i)
    ensures next == LineCell(s, i + 1) && lh == Remainder(s.Steps(), s.Rise(), i + 1)
  {
    LineStep(s.Steps(), s.Rise(), i, Minor(s.Steps(), s.Rise(), i), lh0);
    var sX, sY := Towards(s.x1, s.x2, 1) - s.x1, Towards(s.y1, s.y2, 1) - s.y1;
    next := if s.AlongX() then Cell(at.x + sX, at.y) else Cell(at.x, at.y + sY);
    lh := lh0 + s.Rise();
    if lh >= s.Steps() {
      lh := lh - s.Steps();
      next := if s.AlongX() then Cell(next.x, next.y + sY) else Cell(next.x + sX, next.y);
    }
  }

  method GetRatio(map_: MapCache, s: Strip, r: Range) returns (result: nat)
    requires map_.Valid() && s.Sane()
    modifies map_, map_.buffer
    ensures map_.Valid() && map_.cells == old(map_.cells) && map_.header == old(map_.header)
    ensures result == Quota(CountAlong(InRange(old(map_.cells), r), s, s.Steps()), s.Steps(), s.Breadth())
    ensures var n, c := s.Steps() * s.Breadth(), |GoodFields(InRange(old(map_.cells), r), s, s.Steps())|;
      && (n == 0 ==> result == 255)
      && (1 <= n <= 65535 ==> result * n <= 255 * c < (result + 1) * n)
  {
    var count, i, at, lh := 0, 0, Cell(s.x1, s.y1), s.Steps() / 2;
    ghost var cells, wraps := map_.cells, 0;
    ghost var good := InRange(cells, r);
    assert Matches(good, cells, r);
    LineEnds(s);
    while i < s.Steps()
      invariant map_.Valid() && map_.cells == cells && map_.header == old(map_.header)
      invariant i <= s.Steps() && at == LineCell(s, i) && lh == Remainder(s.Steps(), s.Rise(), i)
      invariant Counts(count, wraps, CountAlong(good, s, i))
    {
      at, lh, count, wraps := WalkOn(map_, good, s, r, i, at, lh, count, wraps);
      i := i + 1;
    }
    Quotient(CountAlong(good, s, i), 65536, wraps, count);
    result := Share(count, U16(i * s.Breadth()));
    RatioIsShare(good, s, result);
  }

  lemma RatioIsShare(good: iset<Cell>, s: Strip, result: nat)
    requires result == Quota(CountAlong(good, s, s.Steps()), s.Steps(), s.Breadth())
    ensures var n, c := s.Steps() * s.Breadth(), |GoodFields(good, s, s.Steps())|;
      && (n == 0 ==> result == 255)
      && (1 <= n <= 65535 ==> result * n <= 255 * c < (result + 1) * n)
  {
    CountIsNumber(good, s, s.Steps());
    if 1 <= s.Steps() * s.Breadth() <= 65535 {
      PositiveFactor(s.Steps(), s.Breadth());
      AlongWithin(good, s, s.Steps(), s.Breadth());
      QuotaIsShare(CountAlong(good, s, s.Steps()), s.Steps(), s.Breadth(), s.Steps() * s.Breadth());
    }
  }

  lemma PositiveFactor(a: nat, b: int)
    requires a * b >= 1
    ensures b >= 1
  {
  }

  lemma {:induction false} AlongWithin(good: iset<Cell>, s: Strip, i: nat, breadth: nat)
    requires breadth == s.Breadth()
    ensures CountAlong(good, s, i) <= i * breadth
    decreases i
  {
    if i > 0 {
      AlongWithin(good, s, i - 1, breadth);
      AcrossFull(good, s.AlongX(), LineCell(s, i - 1), -s.Reach(), s.Fields());
      OneMore(i, breadth);
    }
  }

  /** map_way_free: flushes the map, then looks at the strip. */
  method WayFree(map_: MapCache, fromX: int, fromY: int, toX: int, toY: int, margin: nat) returns (free: bool)
    requires map_.Valid() && Int16(fromX) && Int16(fromY) && Int16(toX) && Int16(toY) && margin < 256
    modifies map_, map_.buffer
    ensures map_.Valid() && map_.cells == Overlay(old(map_.file), old(map_.file)[old(map_.block)], old(map_.block))
    ensures map_.cells == old(map_.cells) <==> old(map_.buffer[..]) == old(map_.file[map_.block])
    ensures var s := Way(fromX, fromY, toX, toY, margin);
      free <==> Quota(CountAlong(InRange(map_.cells, FREE), s, s.Steps()), s.Steps(), s.Breadth()) == FULL
    ensures var s := Way(fromX, fromY, toX, toY, margin);
      s.Steps() * s.Breadth() <= 65535 ==> (free <==> AllGood(InRange(map_.cells, FREE), s, s.Steps()))
    ensures var s := Way(fromX, fromY, toX, toY, margin);
      s.Steps() * s.Breadth() <= 65535 ==> (free <==> NoObstacle(map_.cells, s))
  {
    map_.FlushCache();
    WaySane(fromX, fromY, toX, toY, margin);
    var s := Way(fromX, fromY, toX, toY, margin);
    ghost var good := InRange(map_.cells, FREE);
    var result := GetRatio(map_, s, FREE);
    free := result == FULL;
    if s.Steps() * s.Breadth() <= 65535 {
      RatioFull(good, s);
      FreeIsNoObstacle(map_.cells, s);
    }
  }

  /** No cell of the strip is below -20. */
  ghost predicate NoObstacle(cells: Plane, s: Strip) {
    forall k: nat, w :: k < s.Steps() && -s.Reach() <= w < s.Reach() + s.Corr() ==>
      var c := Beside(s.AlongX(), LineCell(s, k), w);
      c in cells ==> cells[c] >= -20
  }

  lemma FreeIsNoObstacle(cells: Plane, s: Strip)
    requires s.width >= 0 && forall c: Cell :: c in cells ==> Int8(cells[c])
    ensures AllGood(InRange(cells, FREE), s, s.Steps()) <==> NoObstacle(cells, s)
  {
    var good := InRange(cells, FREE);
    if NoObstacle(cells, s) {
      forall k | 0 <= k < s.Steps()
        ensures AllRow(good, s, k)
      {
      }
    }
    if AllGood(good, s, s.Steps()) {
      forall k: nat, w | k < s.Steps() && -s.Reach() <= w < s.Reach() + s.Corr()
        ensures var c := Beside(s.AlongX(), LineCell(s, k), w); c in cells ==> cells[c] >= -20
      {
        assert AllRow(good, s, k);
      }
    }
  }
}
