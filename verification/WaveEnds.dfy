/** Exactly when the loop of the wave ends: the rectangle of used cells must lie inside the grid. */
module WaveEnds {
  import opened CInt
  import opened PosStore
  import opened WaveField
  import opened WaveSearch

  /** The state after n turns of the loop, which stands still once it has stopped. */
  function Turns(w: World, s: Wave, n: nat): Wave
    decreases n
  {
    if n == 0 || Finished(s) then s else Turns(w, Step(w, s), n - 1)
  }

  ghost predicate Ends(w: World, s: Wave) {
    exists n: nat :: Finished(Turns(w, s, n))
  }

  /** With the rectangle inside the grid the loop ends, whatever the grid holds. */
  lemma {:induction false} SoundEnds(w: World, g0: Grid, s: Wave, front: seq<Position>, next: seq<Position>)
    requires Sound(w) && Shape(w, g0, s, front, next)
    ensures Ends(w, s)
    decreases |Unlabelled(w, g0, s.grid)|, Rank(s), Pending(s, front)
  {
    if Finished(s) {
      assert Finished(Turns(w, s, 0));
    } else {
      StepShape(w, g0, s, front, next);
      SoundEnds(w, g0, Step(w, s), FrontAfter(front, next), NextAfterStep(w, s, front, next));
      var n: nat :| Finished(Turns(w, Step(w, s), n));
      assert Finished(Turns(w, s, n + 1));
    }
  }

  /* ---- The trap past the last section ---- */

  /** A cell of the rectangle on which every label is lost. */
  predicate Past(w: World, p: Position) {
    InRect(w, p) && !InGrid(w, p)
  }

  ghost predicate Paired(w: World, p: Position) {
    Past(w, p) && p != FRONT_MARK && exists d: nat :: d < 4 && Past(w, Neighbour(p, d))
  }

  /** No initial cell of the grid touches a cell past it. */
  ghost predicate Closed(w: World, g: Grid) {
    forall c, d: nat {:trigger Past(w, c), Neighbour(c, d)} |
      Past(w, c) && d < 4 && InRect(w, Neighbour(c, d)) && InGrid(w, Neighbour(c, d)) :: Read(w, g, Neighbour(c, d)) != 0
  }

  /** The wave cannot come next to the robot. */
  ghost predicate OutOfReach(w: World, g0: Grid) {
    forall q :: Reachable(w, g0, q) && Adjacent(q, w.end) ==> !InRect(w, w.end)
  }

  ghost predicate AllReachable(w: World, g0: Grid, cells: seq<Position>) {
    forall p :: p in cells && p != FRONT_MARK ==> Reachable(w, g0, p)
  }

  ghost predicate HoldsPaired(w: World, cells: seq<Position>) {
    exists p :: p in cells && Paired(w, p)
  }

  /** What every turn keeps, trapped or not. */
  ghost predicate Wandering(w: World, g0: Grid, s: Wave) {
    && !s.ended && |s.queue| <= w.capacity
    && Untouched(w, g0, s.grid) && Closed(w, s.grid) && AllReachable(w, g0, s.queue)
  }

  ghost predicate Trapped(w: World, g0: Grid, s: Wave) {
    Wandering(w, g0, s) && HoldsPaired(w, s.queue)
  }

  lemma ReachNeighbour(w: World, g0: Grid, p: Position, t: nat)
    requires t < 4 && Reachable(w, g0, p) && IsFree(w, g0, Neighbour(p, t))
    ensures Reachable(w, g0, Neighbour(p, t))
  {
    var n: nat :| Within(w, g0, p, n);
    assert p == Neighbour(Neighbour(p, t), 3 - t);
    assert Within(w, g0, Neighbour(p, t), n + 1);
  }

  lemma VisitWanders(w: World, g0: Grid, s: Wave, p: Position, t: nat)
    requires t < 4 && OutOfReach(w, g0) && Wandering(w, g0, s) && Reachable(w, g0, p)
    ensures var s' := Visit(w, s, Neighbour(p, t));
      && Wandering(w, g0, s') && s.queue <= s'.queue
      && (Past(w, Neighbour(p, t)) && |s.queue| < w.capacity ==> s'.queue == s.queue + [Neighbour(p, t)])
      && (Past(w, p) && !Past(w, Neighbour(p, t)) ==> s'.queue == s.queue)
  {
    var c := Neighbour(p, t);
    assert Adjacent(p, c);
    if InRect(w, c) && Read(w, s.grid, c) == 0 {
      assert IsFree(w, g0, c);
      ReachNeighbour(w, g0, p, t);
      forall q: Position
        ensures Read(w, s.grid, q) != 0 ==> Read(w, Visit(w, s, c).grid, q) == Read(w, s.grid, q)
        ensures q != c ==> Read(w, Visit(w, s, c).grid, q) == Read(w, s.grid, q)
      {
        ReadAfterWrite(w, s.grid, c, ToInt8(s.counter), q);
      }
    }
  }

  /** Expanding a cell p keeps what waits; from a paired p the queue gets a paired cell again. */
  lemma {:induction false} ExpandWanders(w: World, g0: Grid, s: Wave, p: Position, t: nat)
    requires t <= 4 && OutOfReach(w, g0) && Wandering(w, g0, s) && Reachable(w, g0, p)
    requires |s.queue| < w.capacity && w.maxX < 999
    ensures var s' := VisitUpTo(w, s, p, t);
      && Wandering(w, g0, s') && s.queue <= s'.queue
      && (Past(w, p) ==>
            || (s'.queue == s.queue && forall d: nat | d < t :: !Past(w, Neighbour(p, d)))
            || HoldsPaired(w, s'.queue))
  {
    if t > 0 {
      ExpandWanders(w, g0, s, p, t - 1);
      var s1, c := VisitUpTo(w, s, p, t - 1), Neighbour(p, t - 1);
      VisitWanders(w, g0, s1, p, t - 1);
      var s' := Visit(w, s1, c);
      if Past(w, p) && HoldsPaired(w, s1.queue) {
        PairedStays(w, s1.queue, s'.queue);
      } else if Past(w, p) && Past(w, c) {
        assert Neighbour(c, 4 - t) == p;
        assert Paired(w, c) && c in s'.queue;
      }
    }
  }

  lemma PairedStays(w: World, a: seq<Position>, b: seq<Position>)
    requires HoldsPaired(w, a) && a <= b
    ensures HoldsPaired(w, b)
  {
    var p :| p in a && Paired(w, p);
    assert p in b;
  }

  /** Once a pair of cells past the last section has caught the wave, no turn frees it. */
  lemma StepTrapped(w: World, g0: Grid, s: Wave)
    requires OutOfReach(w, g0) && Trapped(w, g0, s) && w.maxX < 999
    ensures Trapped(w, g0, Step(w, s))
  {
    var h, s1 := s.queue[0], s.(queue := s.queue[1..]);
    var p :| p in s.queue && Paired(w, p);
    assert s.queue == [h] + s1.queue;
    assert Wandering(w, g0, s1);
    if h == FRONT_MARK {
      assert p in s1.queue && p in Step(w, s).queue;
    } else {
      ExpandWanders(w, g0, s1, h, 4);
      if p in s1.queue {
        PairedStays(w, s1.queue, Step(w, s).queue);
      }
    }
  }

  lemma {:induction false} TrappedForever(w: World, g0: Grid, s: Wave, n: nat)
    requires OutOfReach(w, g0) && Trapped(w, g0, s) && w.maxX < 999
    ensures Turns(w, s, n).queue != [] && !Turns(w, s, n).ended
    decreases n
  {
    if n > 0 {
      StepTrapped(w, g0, s);
      TrappedForever(w, g0, Step(w, s), n - 1);
    }
  }

  lemma {:induction false} StartPushes(w: World, g0: Grid, s: Wave, d: nat, t: nat)
    requires t <= 4 && d < 4 && Past(w, Neighbour(w.start, d)) && |s.queue| + 4 <= w.capacity
    requires OutOfReach(w, g0) && Wandering(w, g0, s) && Reachable(w, g0, w.start)
    ensures var s' := VisitUpTo(w, s, w.start, t);
      && Wandering(w, g0, s') && |s'.queue| <= |s.queue| + t
      && (d < t ==> Neighbour(w.start, d) in s'.queue)
  {
    if t > 0 {
      StartPushes(w, g0, s, d, t - 1);
      VisitWanders(w, g0, VisitUpTo(w, s, w.start, t - 1), w.start, t - 1);
    }
  }

  /** A wave that starts beside a pair of cells past the last section, while no other cell of the grid next
      to such cells is free, never ends if it cannot come next to the robot. */
  lemma EndlessWave(w: World, g0: Grid, found: bool, d: nat)
    requires w.sections <= 3 && w.capacity >= 5 && w.maxX < 999 && InGrid(w, w.start) && Read(w, g0, w.start) != 0
    requires d < 4 && Paired(w, Neighbour(w.start, d))
    requires Closed(w, g0) && OutOfReach(w, g0)
    ensures forall n: nat :: Turns(w, Begin(w, g0, 2, found), n).queue != [] && !Finished(Turns(w, Begin(w, g0, 2, found), n))
  {
    var s := Begin(w, g0, 2, found);
    var s1, c := s.(queue := [FRONT_MARK]), Neighbour(w.start, d);
    assert s.queue[1..] == [FRONT_MARK] && w.start != FRONT_MARK;
    assert Within(w, g0, w.start, 0);
    assert Wandering(w, g0, s1);
    StartPushes(w, g0, s1, d, 4);
    assert Trapped(w, g0, Step(w, s));
    forall n: nat
      ensures Turns(w, s, n).queue != [] && !Finished(Turns(w, s, n))
    {
      if n > 0 {
        TrappedForever(w, g0, Step(w, s), n - 1);
      }
    }
  }

  /* ---- The rectangle decides ---- */

  /** What the code guarantees of the rectangle (lines 230 to 238): it is cut at 0, begins inside the grid and
      is more than one cell wide and high. It may end past the grid. */
  ghost predicate Usable(w: World) {
    && (w.sections == 1 || w.sections == 3) && w.capacity >= 5
    && 0 <= w.minX < SECTION_POINTS * w.sections && 0 <= w.minY < SECTION_POINTS * w.sections
    && w.minX < w.maxX < 999 && w.minY < w.maxY < 999
  }

  /** The loop ends for every target in the grid, every robot and every content of the grid. */
  ghost predicate AlwaysEnds(w: World) {
    forall start, end, g0, found ::
      InGrid(w, start) && Read(w, g0, start) != 0 ==>
        Ends(w.(start := start, end := end), Begin(w.(start := start, end := end), g0, 2, found))
  }

  lemma EndsInside(w: World, g0: Grid, found: bool)
    requires Usable(w) && InGrid(w, w.start) && Read(w, g0, w.start) != 0
    requires w.maxX < SECTION_POINTS * w.sections && w.maxY < SECTION_POINTS * w.sections
    ensures Ends(w, Begin(w, g0, 2, found))
  {
    BeginHolds(w, g0, found);
    SoundEnds(w, g0, Begin(w, g0, 2, found), [w.start], []);
  }

  /** Hazards everywhere in the grid. */
  function Walled(w: World): Grid {
    map x: int, y: int | 0 <= x < SECTION_POINTS * w.sections && 0 <= y < SECTION_POINTS * w.sections :: Position(x, y) := 1
  }

  lemma WalledReads(w: World, c: Position)
    ensures InGrid(w, c) ==> Read(w, Walled(w), c) == 1
  {
    assert InGrid(w, c) ==> Position(c.x, c.y) in Walled(w);
  }

  lemma {:induction false} WalledReach(w: World, q: Position, n: nat)
    requires InGrid(w, w.start) && Within(w, Walled(w), q, n)
    ensures q == w.start || Past(w, q)
  {
    WalledReads(w, q);
    if n > 0 && Within(w, Walled(w), q, n - 1) {
      WalledReach(w, q, n - 1);
    }
  }

  /** The target beside the first cell past the last section, the robot in the corner, walls everywhere. */
  lemma EndlessInput(w: World, d: nat)
    requires Usable(w) && InGrid(w, w.start) && w.end == Position(0, 0)
    requires d < 4 && Paired(w, Neighbour(w.start, d))
    requires w.start.x >= 2 || w.start.y >= 2
    ensures !Ends(w, Begin(w, Walled(w), 2, false))
  {
    var g0 := Walled(w);
    WalledReads(w, w.start);
    forall c, d: nat | Past(w, c) && d < 4 && InRect(w, Neighbour(c, d)) && InGrid(w, Neighbour(c, d))
      ensures Read(w, g0, Neighbour(c, d)) != 0
    {
      WalledReads(w, Neighbour(c, d));
    }
    forall q | Reachable(w, g0, q)
      ensures !Adjacent(q, w.end)
    {
      var n: nat :| Within(w, g0, q, n);
      WalledReach(w, q, n);
    }
    EndlessWave(w, g0, false, d);
  }

  /** The loop ends on every input exactly if the rectangle lies inside the grid. */
  lemma EndsIffInGrid(w: World)
    requires Usable(w)
    ensures AlwaysEnds(w) <==> w.maxX < SECTION_POINTS * w.sections && w.maxY < SECTION_POINTS * w.sections
  {
    var edge := SECTION_POINTS * w.sections;
    if w.maxX < edge && w.maxY < edge {
      forall start, end, g0, found | InGrid(w, start) && Read(w, g0, start) != 0
        ensures Ends(w.(start := start, end := end), Begin(w.(start := start, end := end), g0, 2, found))
      {
        EndsInside(w.(start := start, end := end), g0, found);
      }
    } else {
      var start := if w.maxX >= edge then Position(edge - 1, w.minY) else Position(w.minX, edge - 1);
      var d: nat := if w.maxX >= edge then 2 else 3;
      var w' := w.(start := start, end := Position(0, 0));
      var c := Neighbour(start, d);
      assert Past(w', c) && Past(w', Neighbour(c, if w.maxX >= edge then 3 else 2));
      EndlessInput(w', d);
      WalledReads(w', start);
      assert InGrid(w, start) && Read(w, Walled(w'), start) != 0;
    }
  }
}
