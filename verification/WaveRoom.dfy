/** When the queue of the wave is large enough: never more than two neighbouring fronts wait in it. */
module WaveRoom {
  import opened CInt
  import opened PosStore
  import opened WaveField
  import opened WaveSearch

  /** The cells d moves away from the start. */
  ghost function Ring(w: World, g0: Grid, d: nat): (cells: set<Position>)
    ensures forall c :: c in cells <==> AtDistance(w, g0, c, d)
  {
    if d == 0 then {w.start} else
      var cells := set x: int, y: int | 0 <= x <= w.maxX && 0 <= y <= w.maxY
                     && AtDistance(w, g0, Position(x, y), d) :: Position(x, y);
      assert forall c :: AtDistance(w, g0, c, d) ==> c in cells by {
        forall c | AtDistance(w, g0, c, d)
          ensures c in cells
        {
          NewlyWithin(w, g0, c, d);
          assert Position(c.x, c.y) == c;
        }
      }
      cells
  }

  /** The queue has room for any two neighbouring fronts. */
  ghost predicate Narrow(w: World, g0: Grid) {
    forall d: nat :: |Ring(w, g0, d)| + |Ring(w, g0, d + 1)| <= w.capacity
  }

  /** No cell the wave can get to is n or more moves away. */
  ghost predicate Near(w: World, g0: Grid, n: nat) {
    forall c, d: nat :: AtDistance(w, g0, c, d) ==> d < n
  }

  ghost predicate Distinct(cells: seq<Position>) {
    forall i, j :: 0 <= i < j < |cells| ==> cells[i] != cells[j]
  }

  lemma {:induction false} DistinctFits(cells: seq<Position>, all: set<Position>)
    requires Distinct(cells) && forall c :: c in cells ==> c in all
    ensures |cells| <= |all|
  {
    if cells != [] {
      var n := |cells| - 1;
      assert cells[n] in all && forall c :: c in cells[..n] ==> c in cells && c != cells[n];
      DistinctFits(cells[..n], all - {cells[n]});
    }
  }

  /** Nothing was refused so far, no cell waits twice, and the fronts are numbered by distances below n. */
  ghost predicate Roomy(s: Wave, front: seq<Position>, next: seq<Position>, n: nat) {
    && s.exact && Distinct(front) && Distinct(next)
    && (s.queue != [] ==> s.layer <= n)
    && (s.found && s.layer >= 1 ==> next != [])
    && (s.ended ==> s.layer < n)
  }

  lemma NextFits(w: World, g0: Grid, s: Wave, front: seq<Position>, next: seq<Position>, c: Position)
    requires Labels(w, g0, s) && Fronts(w, g0, s, front, next) && Distinct(next)
    requires AtDistance(w, g0, c, s.layer + 1) && Read(w, s.grid, c) == 0
    ensures Distinct(next + [c]) && |next| + 1 <= |Ring(w, g0, s.layer + 1)|
  {
    LabelMoves(s.layer + 1);
    forall q | q in next
      ensures q != c && q in Ring(w, g0, s.layer + 1)
    {
      assert Read(w, s.grid, q) == LabelOf(s.layer + 1);
    }
    DistinctFits(next + [c], Ring(w, g0, s.layer + 1));
  }

  lemma VisitRoomy(w: World, g0: Grid, s: Wave, front: seq<Position>, next: seq<Position>, p: Position, t: nat)
    requires Sound(w) && Narrow(w, g0) && t < 4 && Shape(w, g0, s, front, next) && s.queue != []
    requires Expanding(w, g0, s, front, next, p, t) && s.exact && Distinct(next)
    requires |front| + 1 <= |Ring(w, g0, s.layer)|
    ensures var c := Neighbour(p, t);
      && Visit(w, s, c).exact && Distinct(NextAfter(w, s, next, c)) && Visit(w, s, c).layer == s.layer
      && (Visit(w, s, c).found && !s.found ==> NextAfter(w, s, next, c) != [])
      && |next| <= |NextAfter(w, s, next, c)|
  {
    var c := Neighbour(p, t);
    if InRect(w, c) && Read(w, s.grid, c) == 0 {
      VisitLabels(w, g0, s, c);
      assert IsFree(w, g0, c) && !Within(w, g0, c, s.layer);
      NewDistance(w, g0, p, t, s.layer);
      NextFits(w, g0, s, front, next, c);
      assert |Ring(w, g0, s.layer)| + |Ring(w, g0, s.layer + 1)| <= w.capacity;
    } else {
      VisitIdle(w, g0, s, c);
    }
  }

  lemma {:induction false} ExpandRoomy(w: World, g0: Grid, s: Wave, front: seq<Position>, next: seq<Position>,
                                       p: Position, t: nat)
    requires Sound(w) && Narrow(w, g0) && t <= 4 && Shape(w, g0, s, front, next) && s.queue != []
    requires Expanding(w, g0, s, front, next, p, 0) && s.exact && Distinct(next)
    requires |front| + 1 <= |Ring(w, g0, s.layer)| && (s.found && s.layer >= 1 ==> next != [])
    ensures var s', next' := VisitUpTo(w, s, p, t), NextUpTo(w, s, next, p, t);
      && s'.exact && Distinct(next') && s'.layer == s.layer && (s'.found && s.layer >= 1 ==> next' != [])
  {
    if t > 0 {
      ExpandRoomy(w, g0, s, front, next, p, t - 1);
      ExpandShape(w, g0, s, front, next, p, t - 1);
      ExpandBreadth(w, g0, s, front, next, p, t - 1);
      VisitRoomy(w, g0, VisitUpTo(w, s, p, t - 1), front, NextUpTo(w, s, next, p, t - 1), p, t - 1);
    }
  }

  lemma FrontFits(w: World, g0: Grid, s: Wave, front: seq<Position>, next: seq<Position>)
    requires Fronts(w, g0, s, front, next) && Distinct(front)
    ensures |front| <= |Ring(w, g0, s.layer)|
  {
    DistinctFits(front, Ring(w, g0, s.layer));
  }

  /** The state in which front[0] was taken and its neighbours are visited. */
  lemma TakenFront(w: World, g0: Grid, s: Wave, front: seq<Position>, next: seq<Position>)
    requires Sound(w) && Invariant(w, g0, s, front, next) && s.exact && s.queue != [] && !s.ended && front != []
    ensures var s1 := s.(queue := s.queue[1..]);
      && s.queue[0] == front[0] != FRONT_MARK
      && Shape(w, g0, s1, front[1..], next) && s1.queue != []
      && Expanding(w, g0, s1, front[1..], next, front[0], 0)
  {
    var s1 := s.(queue := s.queue[1..]);
    assert s1.queue == front[1..] + [FRONT_MARK] + next;
    assert InGrid(w, front[0]);
    assert forall q | q in front[1..] :: q in front;
  }

  lemma ExpandFrontRoomy(w: World, g0: Grid, s: Wave, front: seq<Position>, next: seq<Position>, n: nat)
    requires Sound(w) && Narrow(w, g0) && Near(w, g0, n)
    requires Invariant(w, g0, s, front, next) && s.queue != [] && !s.ended && front != []
    requires Roomy(s, front, next, n)
    ensures Roomy(Step(w, s), front[1..], NextAfterStep(w, s, front, next), n)
  {
    FrontFits(w, g0, s, front, next);
    assert AtDistance(w, g0, front[0], s.layer);
    TakenFront(w, g0, s, front, next);
    ExpandRoomy(w, g0, s.(queue := s.queue[1..]), front[1..], next, front[0], 4);
  }

  /** With room for two neighbouring fronts, no turn of the loop refuses an entry. */
  lemma StepRoomy(w: World, g0: Grid, s: Wave, front: seq<Position>, next: seq<Position>, n: nat)
    requires Sound(w) && Narrow(w, g0) && Near(w, g0, n) && n <= 251
    requires Invariant(w, g0, s, front, next) && s.queue != [] && !s.ended
    requires Roomy(s, front, next, n)
    ensures Roomy(Step(w, s), FrontAfter(front, next), NextAfterStep(w, s, front, next), n)
  {
    if front == [] {
      assert s.queue[0] == FRONT_MARK && s.queue[1..] == next;
      StartIsNear(w, g0, n);
      if next != [] {
        LabelMoves(s.layer + 1);
        assert Read(w, s.grid, next[0]) == LabelOf(s.layer + 1);
        assert AtDistance(w, g0, next[0], s.layer + 1);
      }
    } else {
      ExpandFrontRoomy(w, g0, s, front, next, n);
    }
  }

  lemma StartIsNear(w: World, g0: Grid, n: nat)
    requires Near(w, g0, n)
    ensures n > 0
  {
    assert AtDistance(w, g0, w.start, 0);
  }
}
