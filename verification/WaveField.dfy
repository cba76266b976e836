/** The low-resolution planning grid and the breadth-first wave of behaviour_pathplanning.c, as values.
    WavePlanner.dfy holds the code that works on them in place. */
module WaveField {
  import opened CInt
  import opened PosStore

  /** What stays fixed while a path is planned: the grid size in sections, the rectangle of used cells,
      where the wave starts (the drive target), where it must arrive (the robot) and the queue size.
      `beyond` is what a read at a negative coordinate happens to find, in memory outside the grid. */
  datatype World = World(sections: nat, minX: int, minY: int, maxX: int, maxY: int,
                         start: Position, end: Position, capacity: nat, beyond: Position -> int)

  const SECTION_POINTS := 32

  /** The mark that separates two wave fronts in the queue. */
  const FRONT_MARK := Position(999, 999)

  type Grid = map<Position, int>

  predicate InGrid(w: World, p: Position) {
    0 <= p.x < SECTION_POINTS * w.sections && 0 <= p.y < SECTION_POINTS * w.sections
  }

  predicate InRect(w: World, p: Position) {
    !(p.x < 0 || p.y < 0 || p.x < w.minX || p.x > w.maxX || p.y < w.minY || p.y > w.maxY)
  }

  /** The section test of access_field_lowres, by truncating division of the coordinates. */
  predicate PastLastSection(w: World, p: Position): (past: bool)
    requires p.x >= 0 && p.y >= 0
    ensures past == !InGrid(w, p)
  {
    p.x / SECTION_POINTS >= w.sections || p.y / SECTION_POINTS >= w.sections
  }

  /** In front of the grid: access_field_lowres does not notice a negative coordinate. */
  predicate Outside(p: Position) {
    p.x < 0 || p.y < 0
  }

  /** access_field_lowres, reading: 0 past the last section and for cells never written. */
  function Read(w: World, g: Grid, p: Position): int {
    if Outside(p) then w.beyond(p)
    else if PastLastSection(w, p) then 0
    else if p in g then g[p] else 0
  }

  /** access_field_lowres, writing: nothing happens past the last section. */
  function Write(w: World, g: Grid, p: Position, v: int): Grid
    requires !Outside(p)
  {
    if PastLastSection(w, p) then g else g[p := v]
  }

  lemma ReadAfterWrite(w: World, g: Grid, p: Position, v: int, q: Position)
    requires !Outside(p)
    ensures Read(w, Write(w, g, p, v), q) == if q == p && InGrid(w, p) then v else Read(w, g, q)
  {
  }

  /** What the caller of the wave must have set up: a grid of 32 or 96 cells, a wave start inside it, and
      a rectangle of used cells, never negative, that does not reach past it. */
  ghost predicate Sound(w: World) {
    && (w.sections == 1 || w.sections == 3)
    && w.capacity >= 2
    && InGrid(w, w.start)
    && w.minX >= 0 && w.minY >= 0
    && w.maxX < SECTION_POINTS * w.sections
    && w.maxY < SECTION_POINTS * w.sections
  }

  /** The state of the wave loop. `layer` counts finished fronts and `exact` turns false when the queue
      refuses an entry or the counter wraps to 0; both only serve the specification. */
  datatype Wave = Wave(grid: Grid, queue: seq<Position>, counter: int, found: bool, ended: bool,
                       layer: nat, exact: bool)

  /** pos_store_queue: a full queue drops the entry. */
  function Enqueue(w: World, s: Wave, p: Position): Wave {
    if |s.queue| < w.capacity then s.(queue := s.queue + [p]) else s.(exact := false)
  }

  /** get_neighbour: label a cell that is still initial, queue it, and notice the robot's cell. */
  function Visit(w: World, s: Wave, c: Position): Wave {
    if !InRect(w, c) then s
    else
      var s1 := if Read(w, s.grid, c) == 0
                then Enqueue(w, s.(grid := Write(w, s.grid, c, ToInt8(s.counter)), found := true), c)
                else s;
      if c == w.end then s1.(ended := true) else s1
  }

  /** The four neighbours in the order the two loops over j and i meet them. */
  function Neighbour(p: Position, d: nat): Position
    requires d < 4
  {
    if d == 0 then Position(p.x, p.y - 1)
    else if d == 1 then Position(p.x - 1, p.y)
    else if d == 2 then Position(p.x + 1, p.y)
    else Position(p.x, p.y + 1)
  }

  /** They are the four cells beside p, row by row and from left to right. */
  lemma NeighboursInOrder(p: Position, d: nat, e: nat)
    requires d < e < 4
    ensures var a, b := Neighbour(p, d), Neighbour(p, e);
      && Adjacent(p, a) && Adjacent(p, b)
      && (a.y < b.y || (a.y == b.y && a.x < b.x))
  {
  }

  /** The state after the first `t` neighbours of `p` were visited. */
  function VisitUpTo(w: World, s: Wave, p: Position, t: nat): Wave
    requires t <= 4
  {
    if t == 0 then s else Visit(w, VisitUpTo(w, s, p, t - 1), Neighbour(p, t - 1))
  }

  /** One turn of the wave loop: take an entry and either close the front or expand a cell. */
  function Step(w: World, s: Wave): Wave
    requires s.queue != []
  {
    var p := s.queue[0];
    var s1 := s.(queue := s.queue[1..]);
    if p == FRONT_MARK then
      var s2 := s1.(counter := (s1.counter + 1) % 256, layer := s1.layer + 1,
                    exact := s1.exact && s1.counter + 1 <= 255);
      var s3 := if s2.found then Enqueue(w, s2, FRONT_MARK) else s2;
      s3.(found := false)
    else
      VisitUpTo(w, s1, p, 4)
  }

  /* ---- Distances in the free part of the rectangle: the independent reference ---- */

  predicate Adjacent(p: Position, c: Position) {
    || (p.x == c.x && (p.y == c.y + 1 || p.y == c.y - 1))
    || (p.y == c.y && (p.x == c.x + 1 || p.x == c.x - 1))
  }

  /** A cell the wave may label: inside the rectangle and initial in the grid g0 the wave found. */
  predicate IsFree(w: World, g0: Grid, c: Position) {
    InRect(w, c) && Read(w, g0, c) == 0
  }

  /** c is at most n orthogonal moves over free cells away from the wave start. */
  predicate Within(w: World, g0: Grid, c: Position, n: nat): (reached: bool)
    ensures reached && Sound(w) ==> InGrid(w, c)
    decreases n
  {
    if n == 0 then c == w.start
    else
      || Within(w, g0, c, n - 1)
      || (IsFree(w, g0, c) && (|| Within(w, g0, Neighbour(c, 0), n - 1)
                               || Within(w, g0, Neighbour(c, 1), n - 1)
                               || Within(w, g0, Neighbour(c, 2), n - 1)
                               || Within(w, g0, Neighbour(c, 3), n - 1)))
  }

  predicate AtDistance(w: World, g0: Grid, c: Position, d: nat) {
    Within(w, g0, c, d) && (d > 0 ==> !Within(w, g0, c, d - 1))
  }

  /** A walk from the wave start over free cells. */
  predicate IsWalk(w: World, g0: Grid, path: seq<Position>) {
    && |path| >= 1
    && path[0] == w.start
    && (forall i :: 1 <= i < |path| ==> IsFree(w, g0, path[i]))
    && (forall i :: 1 <= i < |path| ==> Adjacent(path[i - 1], path[i]))
  }

  lemma {:induction false} WithinGrows(w: World, g0: Grid, c: Position, m: nat, n: nat)
    requires m <= n && Within(w, g0, c, m)
    ensures Within(w, g0, c, n)
    decreases n - m
  {
    if m < n {
      WithinGrows(w, g0, c, m + 1, n);
    }
  }

  /** Within n moves means: some walk of at most n moves ends there. */
  lemma {:induction false} WithinIsWalk(w: World, g0: Grid, c: Position, n: nat)
    ensures Within(w, g0, c, n)
      <==> exists path :: IsWalk(w, g0, path) && path[|path| - 1] == c && |path| <= n + 1
  {
    if Within(w, g0, c, n) {
      var path := WalkWithin(w, g0, c, n);
    }
    forall path | IsWalk(w, g0, path) && path[|path| - 1] == c && |path| <= n + 1
      ensures Within(w, g0, c, n)
    {
      WalkStaysWithin(w, g0, path);
      WithinGrows(w, g0, c, |path| - 1, n);
    }
  }

  lemma {:induction false} WalkWithin(w: World, g0: Grid, c: Position, n: nat) returns (path: seq<Position>)
    requires Within(w, g0, c, n)
    ensures IsWalk(w, g0, path) && path[|path| - 1] == c && |path| <= n + 1
    decreases n
  {
    if n == 0 {
      path := [c];
    } else if Within(w, g0, c, n - 1) {
      path := WalkWithin(w, g0, c, n - 1);
    } else {
      var d :| 0 <= d < 4 && Within(w, g0, Neighbour(c, d), n - 1);
      path := WalkWithin(w, g0, Neighbour(c, d), n - 1);
      path := path + [c];
    }
  }

  lemma {:induction false} WalkStaysWithin(w: World, g0: Grid, path: seq<Position>)
    requires IsWalk(w, g0, path)
    ensures Within(w, g0, path[|path| - 1], |path| - 1)
  {
    var n := |path| - 1;
    if n > 0 {
      var shorter := path[..n];
      WalkStaysWithin(w, g0, shorter);
      AdjacentIsNeighbour(path[n], shorter[n - 1]);
    }
  }

  lemma AdjacentIsNeighbour(c: Position, q: Position)
    requires Adjacent(q, c)
    ensures q == Neighbour(c, 0) || q == Neighbour(c, 1) || q == Neighbour(c, 2) || q == Neighbour(c, 3)
    ensures c == Neighbour(q, 0) || c == Neighbour(q, 1) || c == Neighbour(q, 2) || c == Neighbour(q, 3)
  {
  }

  lemma DistanceUnique(w: World, g0: Grid, c: Position, d: nat, e: nat)
    requires AtDistance(w, g0, c, d) && AtDistance(w, g0, c, e)
    ensures d == e
  {
    if d < e {
      WithinGrows(w, g0, c, d, e - 1);
    } else if e < d {
      WithinGrows(w, g0, c, e, d - 1);
    }
  }
}
