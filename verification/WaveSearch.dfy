/** The wave of behaviour_pathplanning.c is a breadth-first search: invariants of its loop, its
    termination on every grid, and what holds when it stops. */
module WaveSearch {
  import opened CInt
  import opened PosStore
  import opened WaveField

  /* ---- Shape of the queue, and the termination measure ---- */

  /** The queue is the rest of the current front, the mark and the next front, or it has run empty. */
  ghost predicate Shape(w: World, g0: Grid, s: Wave, front: seq<Position>, next: seq<Position>) {
    && |s.queue| <= w.capacity
    && (s.queue == front + [FRONT_MARK] + next || (s.queue == [] && front == [] && next == []))
    && (forall c :: c in front ==> InGrid(w, c))
    && (forall c :: c in next ==> InGrid(w, c))
    && (next != [] ==> s.found)
    && 0 <= s.counter < 256
    && Untouched(w, g0, s.grid)
  }

  /** Cells the wave may not label keep their value. */
  ghost predicate Untouched(w: World, g0: Grid, g: Grid) {
    forall c: Position {:trigger Read(w, g, c)} | !IsFree(w, g0, c) ::
      Read(w, g, c) == Read(w, g0, c)
  }

  /** The free cells that still carry the initial value. */
  ghost function Unlabelled(w: World, g0: Grid, g: Grid): (cells: set<Position>)
    ensures forall c :: c in cells <==> IsFree(w, g0, c) && Read(w, g, c) == 0
  {
    var cells := set x: int, y: int | 0 <= x <= w.maxX && 0 <= y <= w.maxY
                   && IsFree(w, g0, Position(x, y)) && Read(w, g, Position(x, y)) == 0 :: Position(x, y);
    assert forall c :: IsFree(w, g0, c) && Read(w, g, c) == 0 ==> Position(c.x, c.y) in cells;
    cells
  }

  /** How many fronts can still follow without a new label: only the front labelled 0, after the 8-bit
      counter has wrapped, can find cells without using up initial ones. */
  function Rank(s: Wave): nat {
    if s.queue == [] then 0 else if s.counter == 0 then 4 else if !s.found then 1 else if s.counter == 255 then 5 else 2
  }

  function Pending(s: Wave, front: seq<Position>): nat {
    if s.queue == [] then 0 else |front| + 1
  }

  /** The measure (initial cells, rank, entries before the mark) drops from s to s'. */
  ghost predicate Drops(w: World, g0: Grid, s: Wave, front: seq<Position>, s': Wave, front': seq<Position>) {
    var u, u' := |Unlabelled(w, g0, s.grid)|, |Unlabelled(w, g0, s'.grid)|;
    u' < u || (u' == u && (Rank(s') < Rank(s) || (Rank(s') == Rank(s) && Pending(s', front') < Pending(s, front))))
  }

  /** The next front after a visit of c. */
  function NextAfter(w: World, s: Wave, next: seq<Position>, c: Position): seq<Position> {
    if InRect(w, c) && Read(w, s.grid, c) == 0 && |s.queue| < w.capacity then next + [c] else next
  }

  /** The next front after the first t neighbours of p. */
  function NextUpTo(w: World, s: Wave, next: seq<Position>, p: Position, t: nat): seq<Position>
    requires t <= 4
  {
    if t == 0 then next
    else NextAfter(w, VisitUpTo(w, s, p, t - 1), NextUpTo(w, s, next, p, t - 1), Neighbour(p, t - 1))
  }

  /** A visit outside the free initial cells changes nothing but possibly `ended`. */
  lemma VisitIdle(w: World, g0: Grid, s: Wave, c: Position)
    requires !(InRect(w, c) && Read(w, s.grid, c) == 0)
    ensures var s' := Visit(w, s, c); s' == s || s' == s.(ended := true)
  {
  }

  lemma VisitLabels(w: World, g0: Grid, s: Wave, c: Position)
    requires Sound(w) && InRect(w, c) && Read(w, s.grid, c) == 0
    ensures Visit(w, s, c).grid == s.grid[c := ToInt8(s.counter)] && InGrid(w, c)
    ensures Visit(w, s, c).found && Visit(w, s, c).counter == s.counter
    ensures Visit(w, s, c).queue == if |s.queue| < w.capacity then s.queue + [c] else s.queue
    ensures Visit(w, s, c).exact == (s.exact && |s.queue| < w.capacity)
    ensures Visit(w, s, c).layer == s.layer
    ensures Visit(w, s, c).ended == (s.ended || c == w.end)
    ensures forall q: Position {:trigger Read(w, Visit(w, s, c).grid, q)} | q != c ::
              Read(w, Visit(w, s, c).grid, q) == Read(w, s.grid, q)
    ensures Read(w, Visit(w, s, c).grid, c) == ToInt8(s.counter)
  {
  }

  /** A visited cell stops being initial exactly if it lies in the grid: past the last section writes are
      lost, so a rectangle reaching over the grid would queue such a cell again and again. */
  lemma SettlesIffInGrid(w: World, s: Wave, c: Position)
    requires InRect(w, c) && Read(w, s.grid, c) == 0 && ToInt8(s.counter) != 0
    ensures Read(w, Visit(w, s, c).grid, c) != 0 <==> InGrid(w, c)
  {
    ReadAfterWrite(w, s.grid, c, ToInt8(s.counter), c);
  }

  lemma VisitShape(w: World, g0: Grid, s: Wave, front: seq<Position>, next: seq<Position>, c: Position)
    requires Sound(w) && Shape(w, g0, s, front, next) && s.queue != []
    ensures var s' := Visit(w, s, c);
      && Shape(w, g0, s', front, NextAfter(w, s, next, c)) && s'.queue != []
      && s'.counter == s.counter
      && Unlabelled(w, g0, s'.grid) <= Unlabelled(w, g0, s.grid)
      && (s.counter != 0 && s'.found != s.found ==> Unlabelled(w, g0, s'.grid) != Unlabelled(w, g0, s.grid))
  {
    if InRect(w, c) && Read(w, s.grid, c) == 0 {
      VisitLabels(w, g0, s, c);
      assert IsFree(w, g0, c);
      if |s.queue| < w.capacity {
        assert s.queue + [c] == front + [FRONT_MARK] + (next + [c]);
      }
      if s.counter != 0 {
        assert c in Unlabelled(w, g0, s.grid) && c !in Unlabelled(w, g0, Visit(w, s, c).grid);
      }
    } else {
      VisitIdle(w, g0, s, c);
    }
  }

  lemma {:induction false} ExpandShape(w: World, g0: Grid, s: Wave, front: seq<Position>, next: seq<Position>,
                                       p: Position, t: nat)
    requires Sound(w) && Shape(w, g0, s, front, next) && s.queue != [] && t <= 4
    ensures var s' := VisitUpTo(w, s, p, t);
      && Shape(w, g0, s', front, NextUpTo(w, s, next, p, t)) && s'.queue != []
      && s'.counter == s.counter
      && Unlabelled(w, g0, s'.grid) <= Unlabelled(w, g0, s.grid)
      && (s.counter != 0 && s'.found != s.found ==> Unlabelled(w, g0, s'.grid) != Unlabelled(w, g0, s.grid))
  {
    if t > 0 {
      ExpandShape(w, g0, s, front, next, p, t - 1);
      VisitShape(w, g0, VisitUpTo(w, s, p, t - 1), front, NextUpTo(w, s, next, p, t - 1), Neighbour(p, t - 1));
    }
  }

  /** The current front and the next one after a turn of the loop. */
  function FrontAfter(front: seq<Position>, next: seq<Position>): seq<Position> {
    if front == [] then next else front[1..]
  }

  function NextAfterStep(w: World, s: Wave, front: seq<Position>, next: seq<Position>): seq<Position>
    requires s.queue != []
  {
    if front == [] then [] else NextUpTo(w, s.(queue := s.queue[1..]), next, front[0], 4)
  }

  /** Every turn of the loop keeps the queue's shape and drops the measure, whatever the grid holds, even
      when the queue refuses cells or the 8-bit label wraps to 0. */
  lemma StepShape(w: World, g0: Grid, s: Wave, front: seq<Position>, next: seq<Position>)
    requires Sound(w) && Shape(w, g0, s, front, next) && s.queue != []
    ensures Shape(w, g0, Step(w, s), FrontAfter(front, next), NextAfterStep(w, s, front, next))
    ensures Drops(w, g0, s, front, Step(w, s), FrontAfter(front, next))
  {
    var s' := Step(w, s);
    if front == [] {
      assert s.queue[0] == FRONT_MARK && s.queue[1..] == next;
      assert s.found ==> s'.queue == next + [FRONT_MARK] + [];
    } else {
      var p := front[0];
      assert s.queue[0] == p && s.queue[1..] == front[1..] + [FRONT_MARK] + next;
      assert InGrid(w, p);
      ExpandShape(w, g0, s.(queue := s.queue[1..]), front[1..], next, p, 4);
      var u, u' := Unlabelled(w, g0, s.grid), Unlabelled(w, g0, s'.grid);
      SubsetSize(u', u);
      assert |u'| < |u| || (u' == u && Rank(s') == Rank(s));
    }
  }

  lemma SubsetSize(a: set<Position>, b: set<Position>)
    requires a <= b
    ensures |a| <= |b| && (a != b ==> |a| < |b|)
  {
    assert b == a + (b - a);
  }

  /* ---- Breadth-first order ---- */

  /** The first t neighbours of p are labelled where free, and the end was noticed among them. */
  ghost predicate Settled(w: World, g0: Grid, s: Wave, p: Position, t: nat)
    requires t <= 4
  {
    forall d | 0 <= d < t :: var c := Neighbour(p, d);
      (IsFree(w, g0, c) ==> Read(w, s.grid, c) != 0) && (c == w.end && InRect(w, c) ==> s.ended)
  }

  /** The number of moves a label stands for; labels of 128 and more are stored as negative int8. */
  function Moves(v: int): int {
    v % 256 - 2
  }

  /** The label of a cell a number of moves away from the start. */
  function LabelOf(moves: int): int {
    ToInt8(moves + 2)
  }

  lemma LabelMoves(d: int)
    requires 1 <= d <= 253
    ensures Moves(LabelOf(d)) == d && LabelOf(d) != 0 && (d <= 125 <==> LabelOf(d) > 1) && (d <= 125 ==> LabelOf(d) == d + 2)
  {
  }

  predicate IsLabel(v: int, most: int) {
    1 <= Moves(v) <= most && v == LabelOf(Moves(v))
  }

  /** Labels are 2 plus the distance, up to the next front, and every cell up to this front has one. */
  ghost predicate Labels(w: World, g0: Grid, s: Wave) {
    && s.counter == s.layer + 3 <= 255
    && (forall c {:trigger Read(w, s.grid, c)} | IsFree(w, g0, c) && Read(w, s.grid, c) != 0 ::
          IsLabel(Read(w, s.grid, c), s.layer + 1) && AtDistance(w, g0, c, Moves(Read(w, s.grid, c))))
    && (forall c {:trigger Read(w, s.grid, c)} | IsFree(w, g0, c) && Within(w, g0, c, s.layer) :: Read(w, s.grid, c) != 0)
    && (s.ended ==> InRect(w, w.end) && exists q :: Within(w, g0, q, s.layer) && Adjacent(q, w.end))
  }

  /** `front` waits at the current distance, `next` holds exactly the cells one move further. */
  ghost predicate Fronts(w: World, g0: Grid, s: Wave, front: seq<Position>, next: seq<Position>) {
    && (forall c | c in front :: AtDistance(w, g0, c, s.layer))
    && (forall c | c in next :: IsFree(w, g0, c) && Read(w, s.grid, c) == LabelOf(s.layer + 1))
    && (forall c {:trigger Read(w, s.grid, c)} | IsFree(w, g0, c) && Read(w, s.grid, c) == LabelOf(s.layer + 1) :: c in next)
  }

  /** The loop is expanding p, whose first t neighbours are done. */
  ghost predicate Expanding(w: World, g0: Grid, s: Wave, front: seq<Position>, next: seq<Position>,
                            p: Position, t: nat)
    requires t <= 4
  {
    s.exact ==>
      && Labels(w, g0, s)
      && Fronts(w, g0, s, front, next)
      && AtDistance(w, g0, p, s.layer)
      && Settled(w, g0, s, p, t)
      && forall q | Within(w, g0, q, s.layer) && q !in front && q != p :: Settled(w, g0, s, q, 4)
  }

  /** The invariant of the wave loop. */
  ghost predicate Breadth(w: World, g0: Grid, s: Wave, front: seq<Position>, next: seq<Position>) {
    s.exact ==>
      && Labels(w, g0, s)
      && Fronts(w, g0, s, front, next)
      && forall q | Within(w, g0, q, s.layer) && q !in front :: Settled(w, g0, s, q, 4)
  }

  /** s' carries every label of s and noticed the end if s did. */
  ghost predicate Extends(w: World, s: Wave, s': Wave) {
    && (forall c: Position {:trigger Read(w, s'.grid, c)} | Read(w, s.grid, c) != 0 ::
          Read(w, s'.grid, c) != 0)
    && (s.ended ==> s'.ended)
  }

  lemma SettledKept(w: World, g0: Grid, s: Wave, s': Wave, p: Position, t: nat)
    requires t <= 4 && Extends(w, s, s') && Settled(w, g0, s, p, t)
    ensures Settled(w, g0, s', p, t)
  {
  }

  lemma NewDistance(w: World, g0: Grid, p: Position, t: nat, d: nat)
    requires t < 4 && Within(w, g0, p, d)
    requires IsFree(w, g0, Neighbour(p, t)) && !Within(w, g0, Neighbour(p, t), d)
    ensures AtDistance(w, g0, Neighbour(p, t), d + 1)
  {
    assert p == Neighbour(Neighbour(p, t), 3 - t);
  }

  /** A new label at c, one move further than the current front. */
  lemma NewLabel(w: World, g0: Grid, s: Wave, s': Wave, c: Position)
    requires Labels(w, g0, s) && s'.counter == s.counter && s'.layer == s.layer
    requires IsFree(w, g0, c) && AtDistance(w, g0, c, s.layer + 1) && Read(w, s'.grid, c) == LabelOf(s.layer + 1)
    requires forall q: Position {:trigger Read(w, s'.grid, q)} | q != c ::
      Read(w, s'.grid, q) == Read(w, s.grid, q)
    requires s'.ended ==> InRect(w, w.end) && exists q :: Within(w, g0, q, s.layer) && Adjacent(q, w.end)
    ensures Labels(w, g0, s')
  {
    LabelMoves(s.layer + 1);
    forall q | IsFree(w, g0, q) && Read(w, s'.grid, q) != 0
      ensures IsLabel(Read(w, s'.grid, q), s.layer + 1) && AtDistance(w, g0, q, Moves(Read(w, s'.grid, q)))
    {
      if q != c {
        assert Read(w, s'.grid, q) == Read(w, s.grid, q);
      }
    }
  }

  lemma VisitKeepsLabels(w: World, g0: Grid, s: Wave, p: Position, t: nat)
    requires Sound(w) && t < 4 && Visit(w, s, Neighbour(p, t)).exact
    requires Labels(w, g0, s) && AtDistance(w, g0, p, s.layer)
    requires Untouched(w, g0, s.grid)
    ensures Labels(w, g0, Visit(w, s, Neighbour(p, t)))
  {
    var c := Neighbour(p, t);
    assert Adjacent(p, c) && Within(w, g0, p, s.layer);
    if InRect(w, c) && Read(w, s.grid, c) == 0 {
      VisitKeepsNewLabel(w, g0, s, p, t, c);
    } else {
      VisitIdle(w, g0, s, c);
    }
  }

  lemma VisitKeepsNewLabel(w: World, g0: Grid, s: Wave, p: Position, t: nat, c: Position)
    requires Sound(w) && t < 4 && c == Neighbour(p, t) && Visit(w, s, c).exact
    requires Labels(w, g0, s) && AtDistance(w, g0, p, s.layer) && Untouched(w, g0, s.grid)
    requires InRect(w, c) && Read(w, s.grid, c) == 0
    ensures Labels(w, g0, Visit(w, s, c))
  {
    VisitLabels(w, g0, s, c);
    assert IsFree(w, g0, c) && !Within(w, g0, c, s.layer);
    NewDistance(w, g0, p, t, s.layer);
    NewLabel(w, g0, s, Visit(w, s, c), c);
  }

  lemma VisitKeepsFronts(w: World, g0: Grid, s: Wave, front: seq<Position>, next: seq<Position>, c: Position)
    requires Sound(w) && Visit(w, s, c).exact && 0 < s.layer + 3 <= 255 && s.counter == s.layer + 3
    requires Fronts(w, g0, s, front, next)
    requires Untouched(w, g0, s.grid)
    ensures Fronts(w, g0, Visit(w, s, c), front, NextAfter(w, s, next, c))
    ensures Extends(w, s, Visit(w, s, c))
  {
    if InRect(w, c) && Read(w, s.grid, c) == 0 {
      VisitLabels(w, g0, s, c);
    } else {
      VisitIdle(w, g0, s, c);
    }
  }

  lemma VisitBreadth(w: World, g0: Grid, s: Wave, front: seq<Position>, next: seq<Position>, p: Position, t: nat)
    requires Sound(w) && t < 4 && Shape(w, g0, s, front, next) && s.queue != []
    requires Expanding(w, g0, s, front, next, p, t)
    ensures var c := Neighbour(p, t);
      Expanding(w, g0, Visit(w, s, c), front, NextAfter(w, s, next, c), p, t + 1)
  {
    var c := Neighbour(p, t);
    var s' := Visit(w, s, c);
    if s'.exact {
      VisitKeepsLabels(w, g0, s, p, t);
      VisitKeepsFronts(w, g0, s, front, next, c);
      assert s'.layer == s.layer;
      forall q | Within(w, g0, q, s.layer) && q !in front && q != p
        ensures Settled(w, g0, s', q, 4)
      {
        SettledKept(w, g0, s, s', q, 4);
      }
      SettledKept(w, g0, s, s', p, t);
      assert Settled(w, g0, s', p, t + 1);
    }
  }

  lemma {:induction false} ExpandBreadth(w: World, g0: Grid, s: Wave, front: seq<Position>, next: seq<Position>,
                                         p: Position, t: nat)
    requires Sound(w) && t <= 4 && Shape(w, g0, s, front, next) && s.queue != []
    requires Expanding(w, g0, s, front, next, p, 0)
    ensures Expanding(w, g0, VisitUpTo(w, s, p, t), front, NextUpTo(w, s, next, p, t), p, t)
  {
    if t > 0 {
      ExpandShape(w, g0, s, front, next, p, t - 1);
      ExpandBreadth(w, g0, s, front, next, p, t - 1);
      VisitBreadth(w, g0, VisitUpTo(w, s, p, t - 1), front, NextUpTo(w, s, next, p, t - 1), p, t - 1);
    }
  }

  /** Once a whole front is settled, every cell one move further is labelled, */
  lemma NextFrontLabelled(w: World, g0: Grid, s: Wave, c: Position)
    requires Labels(w, g0, s)
    requires forall q | Within(w, g0, q, s.layer) :: Settled(w, g0, s, q, 4)
    requires IsFree(w, g0, c) && Within(w, g0, c, s.layer + 1)
    ensures Read(w, s.grid, c) != 0
  {
    if !Within(w, g0, c, s.layer) {
      var d :| 0 <= d < 4 && Within(w, g0, Neighbour(c, d), s.layer);
      assert Settled(w, g0, s, Neighbour(c, d), 4);
      assert c == Neighbour(Neighbour(c, d), 3 - d);
    }
  }

  lemma NewlyWithin(w: World, g0: Grid, c: Position, n: nat)
    requires n > 0 && Within(w, g0, c, n) && !Within(w, g0, c, n - 1)
    ensures IsFree(w, g0, c) && AtDistance(w, g0, c, n)
  {
  }

  lemma LabelIsDistance(w: World, g0: Grid, s: Wave, c: Position, d: nat)
    requires Labels(w, g0, s) && IsFree(w, g0, c) && Read(w, s.grid, c) != 0 && AtDistance(w, g0, c, d)
    ensures Read(w, s.grid, c) == LabelOf(d)
  {
    DistanceUnique(w, g0, c, d, Moves(Read(w, s.grid, c)));
  }

  /** and the cells exactly one move further are the next front. */
  lemma NextFrontComplete(w: World, g0: Grid, s: Wave, next: seq<Position>, c: Position)
    requires Labels(w, g0, s) && Fronts(w, g0, s, [], next)
    requires forall q | Within(w, g0, q, s.layer) :: Settled(w, g0, s, q, 4)
    requires Within(w, g0, c, s.layer + 1) && !Within(w, g0, c, s.layer)
    ensures c in next
  {
    NewlyWithin(w, g0, c, s.layer + 1);
    NextFrontLabelled(w, g0, s, c);
    LabelIsDistance(w, g0, s, c, s.layer + 1);
  }

  lemma CloseLabels(w: World, g0: Grid, s: Wave, s': Wave)
    requires Labels(w, g0, s) && s'.grid == s.grid && s'.layer == s.layer + 1 && s'.counter == s.counter + 1 <= 255
    requires forall c {:trigger Read(w, s.grid, c)} | IsFree(w, g0, c) && Within(w, g0, c, s.layer + 1) ::
      Read(w, s.grid, c) != 0
    requires !s'.ended
    ensures Labels(w, g0, s')
  {
  }

  lemma CloseFronts(w: World, g0: Grid, s: Wave, s': Wave, next: seq<Position>)
    requires Labels(w, g0, s) && Fronts(w, g0, s, [], next) && s'.grid == s.grid
    requires s'.layer == s.layer + 1 && s.layer + 4 <= 255
    ensures Fronts(w, g0, s', next, [])
  {
    LabelMoves(s.layer + 1);
    forall c | c in next
      ensures AtDistance(w, g0, c, s.layer + 1)
    {
      assert Read(w, s.grid, c) == LabelOf(s.layer + 1);
    }
    forall c | IsFree(w, g0, c) && Read(w, s.grid, c) == LabelOf(s.layer + 2)
      ensures false
    {
      LabelMoves(s.layer + 2);
    }
  }

  lemma SettledBefore(w: World, g0: Grid, s: Wave, next: seq<Position>, q: Position)
    requires Labels(w, g0, s) && Fronts(w, g0, s, [], next)
    requires forall q | Within(w, g0, q, s.layer) :: Settled(w, g0, s, q, 4)
    requires Within(w, g0, q, s.layer + 1) && q !in next
    ensures Settled(w, g0, s, q, 4)
  {
    if !Within(w, g0, q, s.layer) {
      NextFrontComplete(w, g0, s, next, q);
    }
  }

  lemma CloseSettled(w: World, g0: Grid, s: Wave, s': Wave, next: seq<Position>)
    requires Labels(w, g0, s) && Fronts(w, g0, s, [], next) && s'.grid == s.grid && s'.ended == s.ended
    requires forall q | Within(w, g0, q, s.layer) :: Settled(w, g0, s, q, 4)
    ensures forall q | Within(w, g0, q, s.layer + 1) && q !in next :: Settled(w, g0, s', q, 4)
    ensures forall c {:trigger Read(w, s.grid, c)} | IsFree(w, g0, c) && Within(w, g0, c, s.layer + 1) ::
      Read(w, s.grid, c) != 0
  {
    forall q | Within(w, g0, q, s.layer + 1) && q !in next
      ensures Settled(w, g0, s', q, 4)
    {
      SettledBefore(w, g0, s, next, q);
      SettledKept(w, g0, s, s', q, 4);
    }
    forall c | IsFree(w, g0, c) && Within(w, g0, c, s.layer + 1)
      ensures Read(w, s.grid, c) != 0
    {
      NextFrontLabelled(w, g0, s, c);
    }
  }

  lemma ClosedBreadth(w: World, g0: Grid, s: Wave, s': Wave, next: seq<Position>)
    requires Breadth(w, g0, s, [], next) && s.exact && !s'.ended && s'.ended == s.ended && s'.grid == s.grid
    requires s'.layer == s.layer + 1 && s'.counter == s.counter + 1 <= 255
    ensures Breadth(w, g0, s', next, [])
  {
    CloseSettled(w, g0, s, s', next);
    CloseLabels(w, g0, s, s');
    CloseFronts(w, g0, s, s', next);
  }

  lemma CloseFront(w: World, g0: Grid, s: Wave, next: seq<Position>)
    requires Sound(w) && Shape(w, g0, s, [], next) && s.queue != [] && !s.ended
    requires Breadth(w, g0, s, [], next)
    ensures Breadth(w, g0, Step(w, s), next, [])
  {
    assert s.queue[0] == FRONT_MARK;
    if Step(w, s).exact {
      ClosedBreadth(w, g0, s, Step(w, s), next);
    }
  }

  lemma ExpandFront(w: World, g0: Grid, s: Wave, front: seq<Position>, next: seq<Position>)
    requires Sound(w) && Shape(w, g0, s, front, next) && s.queue != [] && !s.ended && front != []
    requires Breadth(w, g0, s, front, next)
    ensures Breadth(w, g0, Step(w, s), front[1..], NextAfterStep(w, s, front, next))
  {
    var p := front[0];
    var s1 := s.(queue := s.queue[1..]);
    assert s.queue[0] == p && s1.queue == front[1..] + [FRONT_MARK] + next;
    assert InGrid(w, p);
    assert forall q | q in front[1..] :: q in front;
    assert Expanding(w, g0, s1, front[1..], next, p, 0);
    ExpandBreadth(w, g0, s1, front[1..], next, p, 4);
  }

  /** Every turn of the loop keeps the breadth-first order. */
  lemma StepBreadth(w: World, g0: Grid, s: Wave, front: seq<Position>, next: seq<Position>)
    requires Sound(w) && Shape(w, g0, s, front, next) && s.queue != [] && !s.ended
    requires Breadth(w, g0, s, front, next)
    ensures Breadth(w, g0, Step(w, s), FrontAfter(front, next), NextAfterStep(w, s, front, next))
  {
    if front == [] {
      CloseFront(w, g0, s, next);
    } else {
      ExpandFront(w, g0, s, front, next);
    }
  }

  /** The invariant of the wave loop and its step, in one. */
  ghost predicate Invariant(w: World, g0: Grid, s: Wave, front: seq<Position>, next: seq<Position>) {
    Shape(w, g0, s, front, next) && Breadth(w, g0, s, front, next)
  }

  lemma StepKeepsInvariant(w: World, g0: Grid, s: Wave, front: seq<Position>, next: seq<Position>)
    requires Sound(w) && Invariant(w, g0, s, front, next) && s.queue != [] && !s.ended
    ensures Invariant(w, g0, Step(w, s), FrontAfter(front, next), NextAfterStep(w, s, front, next))
    ensures Drops(w, g0, s, front, Step(w, s), FrontAfter(front, next))
  {
    StepShape(w, g0, s, front, next);
    StepBreadth(w, g0, s, front, next);
  }

  /* ---- The result ---- */

  predicate Finished(s: Wave) {
    s.ended || s.queue == []
  }

  /** A free cell, or the start, that the wave can get to. */
  ghost predicate Reachable(w: World, g0: Grid, c: Position) {
    exists n: nat :: Within(w, g0, c, n)
  }

  lemma {:induction false} Closure(w: World, g0: Grid, s: Wave, c: Position, n: nat)
    requires s.exact && Breadth(w, g0, s, [], []) && Within(w, g0, c, n)
    ensures Within(w, g0, c, s.layer)
    decreases n
  {
    if n == 0 {
      WithinGrows(w, g0, c, 0, s.layer);
    } else if Within(w, g0, c, n - 1) {
      Closure(w, g0, s, c, n - 1);
    } else {
      var d :| 0 <= d < 4 && Within(w, g0, Neighbour(c, d), n - 1);
      Closure(w, g0, s, Neighbour(c, d), n - 1);
      if !Within(w, g0, c, s.layer) {
        assert Within(w, g0, c, s.layer + 1);
        NextFrontComplete(w, g0, s, [], c);
      }
    }
  }

  /** What a finished wave has found out about the grid g0. */
  ghost predicate Result(w: World, g0: Grid, s: Wave) {
    // labels are 2 plus the distance from the wave start, as an int8
    && (forall c {:trigger Read(w, s.grid, c)} | IsFree(w, g0, c) && Read(w, s.grid, c) != 0 ::
          IsLabel(Read(w, s.grid, c), 253) && AtDistance(w, g0, c, Moves(Read(w, s.grid, c))))
    // hazards, the start and cells outside the rectangle are as before
    && Untouched(w, g0, s.grid)
    // success means: the end lies next to a cell the wave can get to
    && (s.ended <==> InRect(w, w.end) && exists q :: Reachable(w, g0, q) && Adjacent(q, w.end))
    // without success everything reachable is labelled; with it, everything nearer than the last front
    && (!s.ended ==> forall c | IsFree(w, g0, c) && Reachable(w, g0, c) :: Read(w, s.grid, c) != 0)
    && (s.ended ==>
          && 3 <= s.counter <= 255
          && (forall c | IsFree(w, g0, c) && Within(w, g0, c, s.counter - 3) :: Read(w, s.grid, c) != 0)
          && exists q :: Within(w, g0, q, s.counter - 3) && Adjacent(q, w.end))
  }

  /** The result does not depend on what is left in the queue, which is cleared after the loop. */
  lemma ResultWithoutQueue(w: World, g0: Grid, s: Wave)
    requires Result(w, g0, s)
    ensures Result(w, g0, s.(queue := []))
  {
  }

  /** The wave is a breadth-first search. */
  lemma FinishedIsResult(w: World, g0: Grid, s: Wave, front: seq<Position>, next: seq<Position>)
    requires Sound(w) && Shape(w, g0, s, front, next) && Breadth(w, g0, s, front, next)
    requires Finished(s) && s.exact
    ensures Result(w, g0, s)
  {
    if !s.ended {
      forall q, n: nat | Within(w, g0, q, n)
        ensures Settled(w, g0, s, q, 4) && (IsFree(w, g0, q) ==> Read(w, s.grid, q) != 0)
      {
        Closure(w, g0, s, q, n);
      }
      forall q | Reachable(w, g0, q) && Adjacent(q, w.end)
        ensures !InRect(w, w.end)
      {
        AdjacentIsNeighbour(w.end, q);
        assert Settled(w, g0, s, q, 4);
      }
    }
  }

  /** The state in which the source enters the loop: the start and a mark are queued. */
  function Begin(w: World, g0: Grid, counter: int, found: bool): Wave {
    Wave(g0, [w.start, FRONT_MARK], (counter + 1) % 256, found, false, 0, true)
  }

  lemma BeginHolds(w: World, g0: Grid, found: bool)
    requires Sound(w) && Read(w, g0, w.start) != 0
    ensures Invariant(w, g0, Begin(w, g0, 2, found), [w.start], [])
  {
    var s := Begin(w, g0, 2, found);
    assert s.queue == [w.start] + [FRONT_MARK] + [];
  }
}
