/** Dropping collinear way points while the path is being queued (behaviour_pathplanning.c). */
module PathPruning {
  import opened CInt
  import opened PosStore

  const CELL_SIZE := 128  // width of a low-resolution cell in mm
  const MAX_SKIP := 3

  /** The slope the code compares; 100 stands for a vertical. */
  function Slope(a: Position, b: Position): int {
    if b.x == a.x then 100 else ToInt8(TruncDiv(b.y - a.y, b.x - a.x))
  }

  /** One way point is appended; the last one goes if it lies on a line with its neighbours and fewer
      than three were dropped in a row. */
  function Append(stored: seq<Position>, skip: nat, p: Position): (seq<Position>, nat) {
    var n := |stored|;
    if n < 2 then (stored + [p], skip)
    else if Slope(stored[n - 2], stored[n - 1]) != Slope(stored[n - 1], p) then (stored + [p], 0)
    else if skip < MAX_SKIP then (stored[..n - 1] + [p], skip + 1)
    else (stored + [p], 0)
  }

  /* ---- The polyline a list of way points draws on the cell lattice ---- */

  /** A direction to one of the eight neighbours. */
  predicate Unit(d: Position) {
    -1 <= d.x <= 1 && -1 <= d.y <= 1 && d != Position(0, 0)
  }

  function Move(p: Position, d: Position): Position {
    Position(p.x + CELL_SIZE * d.x, p.y + CELL_SIZE * d.y)
  }

  function Along(a: Position, d: Position, k: nat): Position {
    if k == 0 then a else Move(Along(a, d, k - 1), d)
  }

  /** b lies k >= 1 cells from a in direction d. */
  predicate Ray(a: Position, d: Position, k: nat, b: Position) {
    Unit(d) && k >= 1 && b == Along(a, d, k)
  }

  function Sign(n: int): int {
    if n < 0 then -1 else if n > 0 then 1 else 0
  }

  function Dir(a: Position, b: Position): Position {
    Position(Sign(b.x - a.x), Sign(b.y - a.y))
  }

  function Cells(a: Position, b: Position): nat {
    (if Abs(b.x - a.x) >= Abs(b.y - a.y) then Abs(b.x - a.x) else Abs(b.y - a.y)) / CELL_SIZE
  }

  /** The k cells after a in direction d. */
  function Line(a: Position, d: Position, k: nat): seq<Position> {
    if k == 0 then [] else Line(a, d, k - 1) + [Along(a, d, k)]
  }

  /** All cells on the way through the given way points. */
  function Draw(points: seq<Position>): seq<Position> {
    var n := |points|;
    if n <= 1 then points
    else Draw(points[..n - 1]) + Line(points[n - 2], Dir(points[n - 2], points[n - 1]), Cells(points[n - 2], points[n - 1]))
  }

  /** Every leg runs straight along one of the eight directions. */
  predicate Straight(points: seq<Position>) {
    forall i :: 1 <= i < |points| ==>
      Ray(points[i - 1], Dir(points[i - 1], points[i]), Cells(points[i - 1], points[i]), points[i])
  }

  lemma {:induction false} AlongOffset(a: Position, d: Position, k: nat)
    requires Unit(d)
    ensures Along(a, d, k).x == a.x + (if d.x == 0 then 0 else if d.x == 1 then CELL_SIZE * k else -CELL_SIZE * k)
    ensures Along(a, d, k).y == a.y + (if d.y == 0 then 0 else if d.y == 1 then CELL_SIZE * k else -CELL_SIZE * k)
  {
    if k > 0 {
      AlongOffset(a, d, k - 1);
    }
  }

  lemma UnitSlope(n: int)
    requires n != 0
    ensures TruncDiv(n, n) == 1 && TruncDiv(-n, n) == -1 && TruncDiv(0, n) == 0
  {
    var m := Abs(n);
    assert m / m == 1 && 0 / m == 0;
  }

  /** Direction and length of a leg can be read off its end points. */
  lemma RayShape(a: Position, d: Position, k: nat, b: Position)
    requires Ray(a, d, k, b)
    ensures Dir(a, b) == d && Cells(a, b) == k
  {
    AlongOffset(a, d, k);
  }

  lemma RaySlope(a: Position, d: Position, k: nat, b: Position)
    requires Ray(a, d, k, b)
    ensures Slope(a, b) == if d.x == 0 then 100 else d.x * d.y
  {
    AlongOffset(a, d, k);
    if d.x != 0 {
      UnitSlope(b.x - a.x);
      assert b.y - a.y == 0 || b.y - a.y == b.x - a.x || b.y - a.y == -(b.x - a.x);
    }
  }

  lemma SlopesAgree(a: Position, d: Position, k: nat, b: Position, e: Position)
    requires Ray(a, d, k, b) && Unit(e) && Slope(a, b) == Slope(b, Move(b, e))
    ensures e == d || e == Position(-d.x, -d.y)
  {
    RaySlope(a, d, k, b);
    assert Along(b, e, 0) == b && Ray(b, e, 1, Move(b, e));
    RaySlope(b, e, 1, Move(b, e));
    assert d.x != 0 ==> d.x == 1 || d.x == -1;
    assert d.y == 0 || d.y == 1 || d.y == -1;
    assert e.x == 0 || e.x == 1 || e.x == -1;
  }

  lemma {:induction false} DrawEndsAtLast(points: seq<Position>)
    requires points != [] && Straight(points)
    ensures Draw(points) != [] && Draw(points)[0] == points[0]
    ensures Draw(points)[|Draw(points)| - 1] == points[|points| - 1]
  {
    var n := |points|;
    if n > 1 {
      DrawEndsAtLast(points[..n - 1]);
      assert Ray(points[n - 2], Dir(points[n - 2], points[n - 1]), Cells(points[n - 2], points[n - 1]), points[n - 1]);
    }
  }

  /** The cell before the last one has been drawn too. */
  lemma BackwardsIsDrawn(stored: seq<Position>, d: Position, k: nat)
    requires |stored| >= 2 && Straight(stored) && Ray(stored[|stored| - 2], d, k, stored[|stored| - 1])
    ensures Along(stored[|stored| - 2], d, k - 1) in Draw(stored)
  {
    var n := |stored|;
    var a := stored[n - 2];
    RayShape(a, d, k, stored[n - 1]);
    DrawEndsAtLast(stored[..n - 1]);
    var head := Draw(stored[..n - 1]);
    assert Draw(stored) == head + Line(a, d, k);
    if k == 1 {
      assert Draw(stored)[|head| - 1] == a;
    } else {
      assert Line(a, d, k - 1)[|Line(a, d, k - 1)| - 1] == Along(a, d, k - 1);
      assert Line(a, d, k) == Line(a, d, k - 1) + [Along(a, d, k)];
    }
  }

  /** With no cell visited twice, equal slopes mean equal directions: the path cannot turn back. */
  lemma SameDirection(stored: seq<Position>, d: Position, k: nat, e: Position)
    requires |stored| >= 2 && Straight(stored) && Ray(stored[|stored| - 2], d, k, stored[|stored| - 1])
    requires Unit(e) && Move(stored[|stored| - 1], e) !in Draw(stored)
    requires Slope(stored[|stored| - 2], stored[|stored| - 1])
          == Slope(stored[|stored| - 1], Move(stored[|stored| - 1], e))
    ensures e == d
  {
    var n := |stored|;
    SlopesAgree(stored[n - 2], d, k, stored[n - 1], e);
    if e == Position(-d.x, -d.y) {
      assert stored[n - 1] == Move(Along(stored[n - 2], d, k - 1), d);
      assert Move(stored[n - 1], e) == Along(stored[n - 2], d, k - 1);
      BackwardsIsDrawn(stored, d, k);
    }
  }

  lemma StraightExtends(stored: seq<Position>, p: Position)
    requires stored != [] && Straight(stored)
    requires var a := stored[|stored| - 1]; Ray(a, Dir(a, p), Cells(a, p), p)
    ensures Straight(stored + [p])
  {
    var s := stored + [p];
    forall i | 1 <= i < |s|
      ensures Ray(s[i - 1], Dir(s[i - 1], s[i]), Cells(s[i - 1], s[i]), s[i])
    {
      if i < |stored| {
        assert Ray(stored[i - 1], Dir(stored[i - 1], stored[i]), Cells(stored[i - 1], stored[i]), stored[i]);
      }
    }
  }

  lemma DrawOneMore(stored: seq<Position>, e: Position)
    requires stored != [] && Straight(stored) && Unit(e)
    ensures var p := Move(stored[|stored| - 1], e);
      Straight(stored + [p]) && Draw(stored + [p]) == Draw(stored) + [p]
  {
    var n := |stored|;
    var a := stored[n - 1];
    var p := Move(a, e);
    assert Along(a, e, 0) == a && Ray(a, e, 1, p);
    RayShape(a, e, 1, p);
    assert Line(a, e, 0) == [] && Line(a, e, 1) == [p];
    assert (stored + [p])[..n] == stored;
    StraightExtends(stored, p);
  }

  lemma DrawLonger(stored: seq<Position>, d: Position, k: nat)
    requires |stored| >= 2 && Straight(stored) && Ray(stored[|stored| - 2], d, k, stored[|stored| - 1])
    ensures var p := Move(stored[|stored| - 1], d);
      var longer := stored[..|stored| - 1] + [p];
      Straight(longer) && Draw(longer) == Draw(stored) + [p]
  {
    var n := |stored|;
    var a, b := stored[n - 2], stored[n - 1];
    var p := Move(b, d);
    var longer := stored[..n - 1] + [p];
    RayShape(a, d, k, b);
    assert Along(a, d, k + 1) == p && Ray(a, d, k + 1, p);
    RayShape(a, d, k + 1, p);
    assert longer[..n - 1] == stored[..n - 1];
    assert Line(a, d, k + 1) == Line(a, d, k) + [p];
    assert Draw(longer) == Draw(stored[..n - 1]) + (Line(a, d, k) + [p]);
    forall i | 1 <= i < n
      ensures Ray(longer[i - 1], Dir(longer[i - 1], longer[i]), Cells(longer[i - 1], longer[i]), longer[i])
    {
      if i < n - 1 {
        assert Ray(stored[i - 1], Dir(stored[i - 1], stored[i]), Cells(stored[i - 1], stored[i]), stored[i]);
      }
    }
  }

  /** Pruning preserves meaning: after every append the way points draw exactly the full path. */
  lemma AppendDraws(path: seq<Position>, stored: seq<Position>, skip: nat, p: Position)
    requires Straight(stored) && Draw(stored) == path && p !in path
    requires path != [] ==> exists e :: Unit(e) && p == Move(path[|path| - 1], e)
    ensures var stored' := Append(stored, skip, p).0;
      && Straight(stored') && Draw(stored') == path + [p]
      && |stored| <= |stored'| <= |stored| + 1
      && stored'[0] == (path + [p])[0] && stored'[|stored'| - 1] == p
  {
    var n := |stored|;
    var stored' := Append(stored, skip, p).0;
    if n > 0 {
      DrawEndsAtLast(stored);
      var e :| Unit(e) && p == Move(stored[n - 1], e);
      if |stored'| == n + 1 {
        DrawOneMore(stored, e);
      } else {
        var d, k := Dir(stored[n - 2], stored[n - 1]), Cells(stored[n - 2], stored[n - 1]);
        assert Ray(stored[n - 2], d, k, stored[n - 1]);
        SameDirection(stored, d, k, e);
        DrawLonger(stored, d, k);
      }
    }
  }

  /** How far pruning goes: the last way point is dropped exactly if the path goes straight on over it and
      fewer than three were dropped in a row. */
  lemma AppendDrops(stored: seq<Position>, skip: nat, e: Position)
    requires |stored| >= 2 && Straight(stored) && Unit(e)
    requires Move(stored[|stored| - 1], e) !in Draw(stored)
    ensures var n := |stored|;
      var straight := e == Dir(stored[n - 2], stored[n - 1]);
      var (stored', skip') := Append(stored, skip, Move(stored[n - 1], e));
      && (|stored'| == n <==> straight && skip < 3) && (|stored'| == n + 1 <==> !(straight && skip < 3))
      && skip' == (if straight && skip < 3 then skip + 1 else 0)
  {
    var n := |stored|;
    var d, k := Dir(stored[n - 2], stored[n - 1]), Cells(stored[n - 2], stored[n - 1]);
    var b := stored[n - 1];
    assert Ray(stored[n - 2], d, k, b);
    if Slope(stored[n - 2], b) == Slope(b, Move(b, e)) {
      SameDirection(stored, d, k, e);
    }
    if e == d {
      RaySlope(stored[n - 2], d, k, b);
      assert Along(b, e, 0) == b && Ray(b, e, 1, Move(b, e));
      RaySlope(b, e, 1, Move(b, e));
    }
  }
}
