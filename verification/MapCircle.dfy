/** The circle update of map.c, section by section, against the circle it stands for. */
module MapCircle {
  import opened CInt
  import opened MapAddress
  import opened MapStore

  datatype Circle = Circle(x: int, y: int, radius: int)

  /** Coordinates world_to_map can produce (WorldToMapVariants). */
  predicate Coordinate(n: int) {
    -3328 <= n <= 4863
  }

  predicate IsCircle(k: Circle) {
    Coordinate(k.x) && Coordinate(k.y) && Int8(k.radius)
  }

  /** The cells update_field_circle means: of the half-open box, those not further off than the radius. */
  predicate InDisc(k: Circle, c: Cell) {
    (k.x - c.x) * (k.x - c.x) + (k.y - c.y) * (k.y - c.y) <= k.radius * k.radius
  }

  predicate InBox(k: Circle, c: Cell) {
    k.x - k.radius <= c.x < k.x + k.radius && k.y - k.radius <= c.y < k.y + k.radius
  }

  /** One field after the update: a hole stays, others take the saturated sum. */
  function Raised(old_: int, value: int): int {
    if old_ == HOLE then HOLE else Clamp(old_ + value)
  }

  ghost function CircleApplied(cells: Plane, k: Circle, value: int): Plane
    requires forall c :: InMap(c) ==> c in cells
  {
    imap c: Cell | InMap(c) :: if InBox(k, c) && InDisc(k, c) then Raised(cells[c], value) else cells[c]
  }

  /** Every cell of the half-open box no further off than the radius is raised once, all others stay. */
  ghost predicate RaisedInCircle(cells: Plane, cells': Plane, k: Circle, value: int) {
    && (forall c :: c in cells' <==> InMap(c))
    && forall c :: c in cells && c in cells' ==>
         var dx, dy := c.x - k.x, c.y - k.y;
         if -k.radius <= dx < k.radius && -k.radius <= dy < k.radius && dx * dx + dy * dy <= k.radius * k.radius
         then IsRaised(cells[c], value, cells'[c]) else cells'[c] == cells[c]
  }

  lemma CircleOnCells(cells: Plane, k: Circle, value: int)
    requires forall c :: InMap(c) ==> c in cells
    ensures RaisedInCircle(cells, CircleApplied(cells, k, value), k, value)
  {
    forall c: Cell
      ensures InDisc(k, c) <==> (c.x - k.x) * (c.x - k.x) + (c.y - k.y) * (c.y - k.y) <= k.radius * k.radius
    {
      assert (k.x - c.x) * (k.x - c.x) == (c.x - k.x) * (c.x - k.x);
      assert (k.y - c.y) * (k.y - c.y) == (c.y - k.y) * (c.y - k.y);
    }
  }

  /* ---- The tiles ---- */

  /** The part of a section between start and stop, along one axis. */
  function Start(at: int, radius: int, sec: int): int {
    Max(sec * SECTION, at - radius)
  }

  function Stop(at: int, radius: int, sec: int): int {
    Min((sec + 1) * SECTION, at + radius)
  }

  /** Where the four loops are. */
  datatype Progress = Progress(secY: int, secX: int, y: int, x: int)

  /** The cells of the map passed so far. */
  predicate Passed(p: Progress, c: Cell) {
    c.y < p.secY * SECTION
    || (c.y < (p.secY + 1) * SECTION
        && (c.x < p.secX * SECTION
            || (c.x < (p.secX + 1) * SECTION && (c.y < p.y || (c.y == p.y && c.x < p.x)))))
  }

  predicate Done(k: Circle, p: Progress, c: Cell) {
    InBox(k, c) && InDisc(k, c) && Passed(p, c)
  }

  ghost function Part(cells: Plane, k: Circle, value: int, p: Progress): Plane
    requires forall c :: InMap(c) ==> c in cells
  {
    imap c: Cell | InMap(c) :: if Done(k, p, c) then Raised(cells[c], value) else cells[c]
  }

  /** The loop bounds are right: progress that passes the same cells of the box has done the same. */
  lemma SamePart(cells: Plane, k: Circle, value: int, p: Progress, q: Progress)
    requires forall c :: InMap(c) ==> c in cells
    requires forall c :: InMap(c) && InBox(k, c) ==> (Passed(p, c) <==> Passed(q, c))
    ensures Part(cells, k, value, p) == Part(cells, k, value, q)
  {
    forall c | InMap(c)
      ensures Done(k, p, c) == Done(k, q, c)
    {
    }
  }

  /** Before the first section. */
  lemma Nothing(cells: Plane, k: Circle, value: int, secY: int)
    requires IsCircle(k) && secY == TruncDiv(k.y - k.radius, SECTION)
    requires forall c :: c in cells <==> InMap(c)
    ensures Part(cells, k, value, Rows(k, secY)) == cells
  {
    var p := Rows(k, secY);
    forall c | InMap(c)
      ensures !Done(k, p, c)
    {
    }
  }

  /** The start of a row of sections, of a section and of a row of cells. */
  function Rows(k: Circle, secY: int): Progress {
    Columns(k, secY, TruncDiv(k.x - k.radius, SECTION))
  }

  function Columns(k: Circle, secY: int, secX: int): Progress {
    Line(k, secY, secX, Start(k.y, k.radius, secY))
  }

  function Line(k: Circle, secY: int, secX: int, y: int): Progress {
    Progress(secY, secX, y, Start(k.x, k.radius, secX))
  }

  lemma EndOfLine(cells: Plane, k: Circle, value: int, secY: int, secX: int, y: int, x: int)
    requires forall c :: InMap(c) ==> c in cells
    requires x >= Stop(k.x, k.radius, secX) && Start(k.y, k.radius, secY) <= y < Stop(k.y, k.radius, secY)
    ensures Part(cells, k, value, Progress(secY, secX, y, x)) == Part(cells, k, value, Line(k, secY, secX, y + 1))
  {
    SamePart(cells, k, value, Progress(secY, secX, y, x), Line(k, secY, secX, y + 1));
  }

  lemma EndOfSection(cells: Plane, k: Circle, value: int, secY: int, secX: int, y: int)
    requires forall c :: InMap(c) ==> c in cells
    requires y >= Stop(k.y, k.radius, secY)
    ensures Part(cells, k, value, Line(k, secY, secX, y)) == Part(cells, k, value, Columns(k, secY, secX + 1))
  {
    SamePart(cells, k, value, Line(k, secY, secX, y), Columns(k, secY, secX + 1));
  }

  lemma EndOfRow(cells: Plane, k: Circle, value: int, secY: int, secX: int)
    requires forall c :: InMap(c) ==> c in cells
    requires secX > TruncDiv(k.x + k.radius, SECTION)
    ensures Part(cells, k, value, Columns(k, secY, secX)) == Part(cells, k, value, Rows(k, secY + 1))
  {
    SamePart(cells, k, value, Columns(k, secY, secX), Rows(k, secY + 1));
  }

  lemma Everything(cells: Plane, k: Circle, value: int, secY: int)
    requires forall c :: InMap(c) ==> c in cells
    requires secY > TruncDiv(k.y + k.radius, SECTION)
    ensures Part(cells, k, value, Rows(k, secY)) == CircleApplied(cells, k, value)
  {
    var p := Rows(k, secY);
    forall c | InMap(c)
      ensures Done(k, p, c) == (InBox(k, c) && InDisc(k, c))
    {
    }
  }

  /** One step of the innermost loop meets one cell, for the first and only time. */
  lemma OneCell(cells: Plane, k: Circle, value: int, p: Progress, c: Cell)
    requires forall c :: c in cells <==> InMap(c)
    requires c == Cell(p.x, p.y)
    requires Start(k.y, k.radius, p.secY) <= p.y < Stop(k.y, k.radius, p.secY)
    requires Start(k.x, k.radius, p.secX) <= p.x < Stop(k.x, k.radius, p.secX)
    ensures InDisc(k, c) ==> Part(cells, k, value, p.(x := p.x + 1)) == Bumped(Part(cells, k, value, p), c, value)
    ensures !InDisc(k, c) ==> Part(cells, k, value, p.(x := p.x + 1)) == Part(cells, k, value, p)
  {
    var q := p.(x := p.x + 1);
    assert !Passed(p, c) && Passed(q, c) && InBox(k, c);
    forall d | InMap(d) && d != c
      ensures Done(k, p, d) == Done(k, q, d)
    {
    }
  }

  /** muls8 of an 8 bit difference. */
  function Square8(difference: int): int {
    ToInt8(difference) * ToInt8(difference)
  }

  /** In the box, the differences fit 8 bits and the test of the source is that of the disc. */
  lemma DiscTest(k: Circle, c: Cell)
    requires IsCircle(k) && InBox(k, c)
    ensures Square8(k.x - c.x) + Square8(k.y - c.y) <= k.radius * k.radius <==> InDisc(k, c)
  {
    assert ToInt8(k.x - c.x) == k.x - c.x && ToInt8(k.y - c.y) == k.y - c.y;
  }

  /** The body of the innermost loop. */
  method VisitCell(map_: MapCache, ghost cells: Plane, k: Circle, ghost p: Progress,
                   cellX: int, cellY: int, dY: int, value: int)
    requires map_.Valid() && IsCircle(k) && Int8(value)
    requires forall c :: c in cells <==> InMap(c)
    requires Start(k.y, k.radius, p.secY) <= p.y < Stop(k.y, k.radius, p.secY)
    requires Start(k.x, k.radius, p.secX) <= p.x < Stop(k.x, k.radius, p.secX)
    requires cellX == p.x && cellY == p.y && dY == Square8(k.y - cellY)
    requires map_.cells == Part(cells, k, value, p)
    modifies map_, map_.buffer
    ensures map_.Valid() && map_.header == old(map_.header)
    ensures map_.cells == Part(cells, k, value, p.(x := p.x + 1))
  {
    var square := k.radius * k.radius;
    ghost var c := Cell(cellX, cellY);
    DiscTest(k, c);
    OneCell(cells, k, value, p, c);
    if Square8(k.x - cellX) + dY <= square {
      assert InDisc(k, c);
      map_.UpdateField(cellX, cellY, value);
    } else {
      assert !InDisc(k, c);
    }
  }

  /** One row of cells in a section. */
  method UpdateLine(map_: MapCache, ghost cells: Plane, k: Circle, value: int, ghost secY: int, secX: int, cellY: int)
    requires map_.Valid() && IsCircle(k) && Int8(value)
    requires forall c :: c in cells <==> InMap(c)
    requires Start(k.y, k.radius, secY) <= cellY < Stop(k.y, k.radius, secY)
    requires map_.cells == Part(cells, k, value, Line(k, secY, secX, cellY))
    modifies map_, map_.buffer
    ensures map_.Valid() && map_.header == old(map_.header)
    ensures map_.cells == Part(cells, k, value, Line(k, secY, secX, cellY + 1))
  {
    var dY := Square8(k.y - cellY);
    var cellX := Start(k.x, k.radius, secX);
    while cellX < Stop(k.x, k.radius, secX)
      invariant map_.Valid() && map_.header == old(map_.header)
      invariant Start(k.x, k.radius, secX) <= cellX
      invariant map_.cells == Part(cells, k, value, Progress(secY, secX, cellY, cellX))
    {
      VisitCell(map_, cells, k, Progress(secY, secX, cellY, cellX), cellX, cellY, dY, value);
      cellX := cellX + 1;
    }
    EndOfLine(cells, k, value, secY, secX, cellY, cellX);
  }

  /** The cells of one section. */
  method UpdateTile(map_: MapCache, ghost cells: Plane, k: Circle, value: int, secY: int, secX: int)
    requires map_.Valid() && IsCircle(k) && Int8(value)
    requires forall c :: c in cells <==> InMap(c)
    requires map_.cells == Part(cells, k, value, Columns(k, secY, secX))
    modifies map_, map_.buffer
    ensures map_.Valid() && map_.header == old(map_.header)
    ensures map_.cells == Part(cells, k, value, Columns(k, secY, secX + 1))
  {
    var cellY := Start(k.y, k.radius, secY);
    while cellY < Stop(k.y, k.radius, secY)
      invariant map_.Valid() && map_.header == old(map_.header)
      invariant Start(k.y, k.radius, secY) <= cellY
      invariant map_.cells == Part(cells, k, value, Line(k, secY, secX, cellY))
    {
      UpdateLine(map_, cells, k, value, secY, secX, cellY);
      cellY := cellY + 1;
    }
    EndOfSection(cells, k, value, secY, secX, cellY);
  }

  /** A row of sections. */
  method UpdateRow(map_: MapCache, ghost cells: Plane, k: Circle, value: int, secY: int)
    requires map_.Valid() && IsCircle(k) && Int8(value)
    requires forall c :: c in cells <==> InMap(c)
    requires map_.cells == Part(cells, k, value, Rows(k, secY))
    modifies map_, map_.buffer
    ensures map_.Valid() && map_.header == old(map_.header)
    ensures map_.cells == Part(cells, k, value, Rows(k, secY + 1))
  {
    var secX := TruncDiv(k.x - k.radius, SECTION);
    while secX <= TruncDiv(k.x + k.radius, SECTION)
      invariant map_.Valid() && map_.header == old(map_.header)
      invariant map_.cells == Part(cells, k, value, Columns(k, secY, secX))
    {
      UpdateTile(map_, cells, k, value, secY, secX);
      secX := secX + 1;
    }
    EndOfRow(cells, k, value, secY, secX);
  }

  /** All sections the circle touches. */
  method UpdateSections(map_: MapCache, k: Circle, value: int)
    requires map_.Valid() && IsCircle(k) && Int8(value)
    modifies map_, map_.buffer
    ensures map_.Valid() && map_.header == old(map_.header)
    ensures map_.cells == CircleApplied(old(map_.cells), k, value)
  {
    ghost var cells := map_.cells;
    var secYMin, secYMax := TruncDiv(k.y - k.radius, SECTION), TruncDiv(k.y + k.radius, SECTION);
    var secY := secYMin;
    Nothing(cells, k, value, secY);
    while secY <= secYMax
      invariant map_.Valid() && map_.header == old(map_.header)
      invariant map_.cells == Part(cells, k, value, Rows(k, secY))
    {
      UpdateRow(map_, cells, k, value, secY);
      secY := secY + 1;
    }
    Everything(cells, k, value, secY);
  }

  /** update_field_circle. */
  method UpdateFieldCircle(map_: MapCache, k: Circle, value: int)
    requires map_.Valid() && IsCircle(k) && Int8(value)
    modifies map_, map_.buffer
    ensures map_.Valid() && map_.header == old(map_.header)
    ensures map_.cells == CircleApplied(old(map_.cells), k, value)
    ensures RaisedInCircle(old(map_.cells), map_.cells, k, value)
  {
    CircleOnCells(map_.cells, k, value);
    UpdateSections(map_, k, value);
  }
}
