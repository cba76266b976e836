/** What the way back relies on: every label was written next to a label one smaller. It holds whether or
    not the queue refused cells. */
module WaveDescent {
  import opened CInt
  import opened PosStore
  import opened WaveField
  import opened WaveSearch

  /** c is labelled as m moves away; the start counts as 0 moves whatever it holds. */
  predicate Carries(w: World, g0: Grid, g: Grid, c: Position, m: int) {
    if c == w.start then m == 0 else IsFree(w, g0, c) && Read(w, g, c) == LabelOf(m)
  }

  /** A neighbour of c is labelled as m moves away. */
  ghost predicate Touches(w: World, g0: Grid, g: Grid, c: Position, m: int) {
    exists d: nat :: d < 4 && Carries(w, g0, g, Neighbour(c, d), m)
  }

  /** The label of c, if it has one, has its predecessor next to it. */
  ghost predicate Stems(w: World, g0: Grid, g: Grid, c: Position, most: int) {
    IsFree(w, g0, c) && Read(w, g, c) != 0 ==>
      IsLabel(Read(w, g, c), most) && Touches(w, g0, g, c, Moves(Read(w, g, c)) - 1)
  }

  /** Every label, up to the given number of moves, does. */
  ghost predicate Stepwise(w: World, g0: Grid, g: Grid, most: int) {
    forall c :: Stems(w, g0, g, c, most)
  }

  lemma StepwiseMore(w: World, g0: Grid, g: Grid, most: int)
    requires Stepwise(w, g0, g, most)
    ensures Stepwise(w, g0, g, most + 1)
  {
    var more := most + 1;
    forall c
      ensures Stems(w, g0, g, c, more)
    {
      assert Stems(w, g0, g, c, most);
    }
  }

  ghost predicate AllCarry(w: World, g0: Grid, g: Grid, cells: seq<Position>, m: int) {
    forall c :: c in cells ==> Carries(w, g0, g, c, m)
  }

  /** The invariant of the wave loop as long as the counter has not wrapped. */
  ghost predicate Descends(w: World, g0: Grid, s: Wave, front: seq<Position>, next: seq<Position>) {
    s.layer + 3 <= 255 ==>
      && s.counter == s.layer + 3
      && Stepwise(w, g0, s.grid, s.layer + 1)
      && AllCarry(w, g0, s.grid, front, s.layer)
      && AllCarry(w, g0, s.grid, next, s.layer + 1)
      && (s.ended ==> InRect(w, w.end) && Touches(w, g0, s.grid, w.end, s.layer))
  }

  /** Writing a label to an initial cell changes no other label. */
  lemma CarriesKept(w: World, g0: Grid, g: Grid, g': Grid, c: Position, q: Position, m: nat)
    requires Read(w, g, c) == 0 && m <= 253 && Carries(w, g0, g, q, m)
    requires forall q: Position {:trigger Read(w, g', q)} | q != c :: Read(w, g', q) == Read(w, g, q)
    ensures Carries(w, g0, g', q, m)
  {
    if q != w.start && m > 0 {
      LabelMoves(m);
    }
  }

  lemma TouchesKept(w: World, g0: Grid, g: Grid, g': Grid, c: Position, q: Position, m: nat)
    requires Read(w, g, c) == 0 && m <= 253 && Touches(w, g0, g, q, m)
    requires forall q: Position {:trigger Read(w, g', q)} | q != c :: Read(w, g', q) == Read(w, g, q)
    ensures Touches(w, g0, g', q, m)
  {
    var d: nat :| d < 4 && Carries(w, g0, g, Neighbour(q, d), m);
    CarriesKept(w, g0, g, g', c, Neighbour(q, d), m);
  }

  lemma AllCarryKept(w: World, g0: Grid, g: Grid, g': Grid, c: Position, cells: seq<Position>, m: nat)
    requires Read(w, g, c) == 0 && m <= 253 && AllCarry(w, g0, g, cells, m)
    requires forall q: Position {:trigger Read(w, g', q)} | q != c :: Read(w, g', q) == Read(w, g, q)
    ensures AllCarry(w, g0, g', cells, m)
  {
    forall q | q in cells
      ensures Carries(w, g0, g', q, m)
    {
      CarriesKept(w, g0, g, g', c, q, m);
    }
  }

  /** A new label at c, a neighbour of a cell of the current front. */
  lemma NewStep(w: World, g0: Grid, g: Grid, g': Grid, c: Position, m: nat)
    requires Stepwise(w, g0, g, m + 1) && m + 1 <= 253 && Touches(w, g0, g, c, m)
    requires Read(w, g, c) == 0 && Read(w, g', c) == LabelOf(m + 1)
    requires forall q: Position {:trigger Read(w, g', q)} | q != c :: Read(w, g', q) == Read(w, g, q)
    ensures Stepwise(w, g0, g', m + 1)
  {
    var most := m + 1;
    forall q
      ensures Stems(w, g0, g', q, most)
    {
      if q == c {
        LabelMoves(m + 1);
        TouchesKept(w, g0, g, g', c, c, m);
      } else if IsFree(w, g0, q) && Read(w, g', q) != 0 {
        assert Read(w, g', q) == Read(w, g, q) && Stems(w, g0, g, q, most);
        TouchesKept(w, g0, g, g', c, q, Moves(Read(w, g, q)) - 1);
      }
    }
  }

  lemma TouchesBack(w: World, g0: Grid, g: Grid, p: Position, t: nat, m: int)
    requires t < 4 && Carries(w, g0, g, p, m)
    ensures Touches(w, g0, g, Neighbour(p, t), m)
  {
    assert Neighbour(Neighbour(p, t), 3 - t) == p;
  }

  /** c is labelled, a neighbour of a cell of the current front. */
  lemma LabelDescends(w: World, g0: Grid, s: Wave, s': Wave, front: seq<Position>, next: seq<Position>,
                      next': seq<Position>, c: Position)
    requires s.layer + 3 <= 255 && Descends(w, g0, s, front, next) && Touches(w, g0, s.grid, c, s.layer)
    requires InRect(w, c) && IsFree(w, g0, c) && c != w.start && Read(w, s.grid, c) == 0
    requires s'.layer == s.layer && s'.counter == s.counter && Read(w, s'.grid, c) == LabelOf(s.layer + 1)
    requires forall q: Position {:trigger Read(w, s'.grid, q)} | q != c :: Read(w, s'.grid, q) == Read(w, s.grid, q)
    requires s'.ended == (s.ended || c == w.end) && (next' == next || next' == next + [c])
    ensures Descends(w, g0, s', front, next')
  {
    NewStep(w, g0, s.grid, s'.grid, c, s.layer);
    AllCarryKept(w, g0, s.grid, s'.grid, c, front, s.layer);
    AllCarryKept(w, g0, s.grid, s'.grid, c, next, s.layer + 1);
    TouchesKept(w, g0, s.grid, s'.grid, c, if s.ended then w.end else c, s.layer);
  }

  /** Visiting the neighbour c of a cell p of the current front. */
  lemma VisitDescends(w: World, g0: Grid, s: Wave, front: seq<Position>, next: seq<Position>, p: Position, t: nat)
    requires Sound(w) && Read(w, g0, w.start) != 0 && Untouched(w, g0, s.grid) && t < 4 && s.layer + 3 <= 255
    requires Descends(w, g0, s, front, next) && Carries(w, g0, s.grid, p, s.layer)
    ensures var c := Neighbour(p, t);
      && Descends(w, g0, Visit(w, s, c), front, NextAfter(w, s, next, c))
      && Visit(w, s, c).layer == s.layer && Carries(w, g0, Visit(w, s, c).grid, p, s.layer)
  {
    var c := Neighbour(p, t);
    TouchesBack(w, g0, s.grid, p, t, s.layer);
    if InRect(w, c) && Read(w, s.grid, c) == 0 {
      VisitLabels(w, g0, s, c);
      assert IsFree(w, g0, c);
      CarriesKept(w, g0, s.grid, Visit(w, s, c).grid, c, p, s.layer);
      LabelDescends(w, g0, s, Visit(w, s, c), front, next, NextAfter(w, s, next, c), c);
    } else {
      VisitIdle(w, g0, s, c);
    }
  }

  lemma {:induction false} ExpandDescends(w: World, g0: Grid, s: Wave, front: seq<Position>, next: seq<Position>,
                                          p: Position, t: nat)
    requires Sound(w) && Shape(w, g0, s, front, next) && s.queue != [] && t <= 4
    requires Read(w, g0, w.start) != 0 && s.layer + 3 <= 255
    requires Descends(w, g0, s, front, next) && Carries(w, g0, s.grid, p, s.layer)
    ensures var s' := VisitUpTo(w, s, p, t);
      && Descends(w, g0, s', front, NextUpTo(w, s, next, p, t))
      && s'.layer == s.layer && Carries(w, g0, s'.grid, p, s.layer)
  {
    if t > 0 {
      ExpandDescends(w, g0, s, front, next, p, t - 1);
      ExpandShape(w, g0, s, front, next, p, t - 1);
      VisitDescends(w, g0, VisitUpTo(w, s, p, t - 1), front, NextUpTo(w, s, next, p, t - 1), p, t - 1);
    }
  }

  /** The number of a front never falls. */
  lemma {:induction false} SameLayer(w: World, s: Wave, p: Position, t: nat)
    requires t <= 4
    ensures VisitUpTo(w, s, p, t).layer == s.layer
  {
    if t > 0 {
      SameLayer(w, s, p, t - 1);
    }
  }

  lemma ExpandFrontDescends(w: World, g0: Grid, s: Wave, front: seq<Position>, next: seq<Position>)
    requires Sound(w) && Shape(w, g0, s, front, next) && s.queue != [] && !s.ended && front != []
    requires Read(w, g0, w.start) != 0 && Descends(w, g0, s, front, next) && s.layer + 3 <= 255
    ensures Descends(w, g0, Step(w, s), front[1..], NextAfterStep(w, s, front, next))
  {
    var p := front[0];
    var s1 := s.(queue := s.queue[1..]);
    assert s.queue[0] == p && s1.queue == front[1..] + [FRONT_MARK] + next;
    assert InGrid(w, p) && p != FRONT_MARK;
    assert forall q | q in front[1..] :: q in front;
    ExpandDescends(w, g0, s1, front[1..], next, p, 4);
  }

  /** Every turn of the loop keeps the labels stepwise, on every grid and for every size of the queue. */
  lemma StepDescends(w: World, g0: Grid, s: Wave, front: seq<Position>, next: seq<Position>)
    requires Sound(w) && Shape(w, g0, s, front, next) && s.queue != [] && !s.ended
    requires Read(w, g0, w.start) != 0 && Descends(w, g0, s, front, next)
    ensures Descends(w, g0, Step(w, s), FrontAfter(front, next), NextAfterStep(w, s, front, next))
  {
    if front == [] {
      assert s.queue[0] == FRONT_MARK && s.queue[1..] == next;
      if s.layer + 4 <= 255 {
        StepwiseMore(w, g0, s.grid, s.layer + 1);
      }
    } else if s.layer + 3 <= 255 {
      ExpandFrontDescends(w, g0, s, front, next);
    } else {
      assert s.queue[0] == front[0] && InGrid(w, front[0]) && front[0] != FRONT_MARK;
      SameLayer(w, s.(queue := s.queue[1..]), front[0], 4);
    }
  }

  lemma BeginDescends(w: World, g0: Grid, found: bool)
    requires Sound(w)
    ensures Descends(w, g0, Begin(w, g0, 2, found), [w.start], [])
  {
    assert forall c :: Stems(w, g0, g0, c, 1);
  }

  /** A wave that has noticed the robot before its counter wrapped. */
  ghost predicate Arrived(w: World, g0: Grid, s: Wave) {
    && Untouched(w, g0, s.grid)
    && s.counter == s.layer + 3 <= 255
    && Stepwise(w, g0, s.grid, s.layer + 1)
    && InRect(w, w.end) && Touches(w, g0, s.grid, w.end, s.layer)
  }

  lemma EndedArrives(w: World, g0: Grid, s: Wave, front: seq<Position>, next: seq<Position>)
    requires Shape(w, g0, s, front, next) && Descends(w, g0, s, front, next) && s.ended && s.layer + 3 <= 255
    ensures Arrived(w, g0, s) && Arrived(w, g0, s.(queue := []))
  {
  }
}
