/** The wave path planner of behaviour_pathplanning.c: the code over its grid, counters and queue. */
module WavePlanner {
  import opened CInt
  import opened PosStore
  import opened WaveField
  import opened WaveSearch
  import opened WaveDescent
  import opened WaveRoom
  import opened PathTrace
  import Pruning = PathPruning

  /** The value a cell gets before the wave, hazards counting once they are entered. */
  function Prescribed(w: World, hazard: set<Position>, c: Position, entered: bool): int {
    if !InGrid(w, c) then 0
    else if InRect(w, c) && c in hazard && entered then 1
    else if c == w.start then 2 else 0
  }

  /** The grid in front of the wave. */
  ghost predicate Prepared(w: World, hazard: set<Position>, g: Grid) {
    forall c: Position {:trigger Read(w, g, c)} | !Outside(c) ::
      Read(w, g, c) == Prescribed(w, hazard, c, true)
  }

  /** Rows above y are entered, and row y up to column x. */
  ghost predicate Entered(w: World, hazard: set<Position>, g: Grid, x: int, y: int) {
    forall c: Position {:trigger Read(w, g, c)} | !Outside(c) ::
      Read(w, g, c) == Prescribed(w, hazard, c, c.y > y || (c.y == y && c.x < x))
  }

  lemma EnterHazard(w: World, hazard: set<Position>, g: Grid, x: int, y: int)
    requires Sound(w) && InRect(w, Position(x, y)) && Position(x, y) in hazard && Entered(w, hazard, g, x, y)
    ensures Entered(w, hazard, Write(w, g, Position(x, y), 1), x + 1, y)
  {
    forall c: Position | !Outside(c)
      ensures Read(w, Write(w, g, Position(x, y), 1), c) == Prescribed(w, hazard, c, c.y > y || (c.y == y && c.x < x + 1))
    {
      ReadAfterWrite(w, g, Position(x, y), 1, c);
    }
  }

  /** The wave may label the cells of the rectangle that are neither hazard nor target. */
  lemma FreeIsUnlabelled(w: World, hazard: set<Position>, g0: Grid, c: Position)
    requires Sound(w) && Prepared(w, hazard, g0)
    ensures IsFree(w, g0, c) <==> InRect(w, c) && c !in hazard && c != w.start
    ensures !Outside(c) && c != w.start ==> 0 <= Read(w, g0, c) <= 1
    ensures Read(w, g0, w.start) == if InRect(w, w.start) && w.start in hazard then 1 else 2
  {
    assert !Outside(c) ==> Read(w, g0, c) == Prescribed(w, hazard, c, true);
    assert Read(w, g0, w.start) == Prescribed(w, hazard, w.start, true);
  }

  lemma PreparedReady(w: World, hazard: set<Position>, g0: Grid, s: Wave)
    requires Sound(w) && Prepared(w, hazard, g0) && Arrived(w, g0, s) && w.start != w.end
    ensures Ready(w, g0, s)
  {
    forall c: Position | !Outside(c) && c != w.start
      ensures 0 <= Read(w, g0, c) <= 1
    {
      FreeIsUnlabelled(w, hazard, g0, c);
    }
    FreeIsUnlabelled(w, hazard, g0, w.start);
  }

  /** When the whole plan surely works: the robot is off the target, which is no hazard, the rectangle is off
      the first row and column, two neighbouring fronts always fit into the queue, and no cell the wave can get to
      is too far for the queue or the limit of the way back. */
  ghost predicate Plannable(w: World, hazard: set<Position>, g0: Grid, reach: nat) {
    && w.start != w.end && !(InRect(w, w.start) && w.start in hazard)
    && w.minX >= 1 && w.minY >= 1
    && Narrow(w, g0) && Near(w, g0, reach) && reach <= w.capacity && reach < 120
  }

  lemma PlanSucceeds(w: World, hazard: set<Position>, g0: Grid, s: Wave, reach: nat)
    requires Sound(w) && Prepared(w, hazard, g0) && Plannable(w, hazard, g0, reach)
    requires Arrived(w, g0, s) && s.counter <= reach + 2
    ensures Run(w, s.grid, Start(w, s)).ended
  {
    PreparedReady(w, hazard, g0, s);
    FreeIsUnlabelled(w, hazard, g0, w.start);
    StartTraces(w, g0, s);
    RunTraces(w, g0, s, Start(w, s));
  }

  lemma PlanIsPath(w: World, hazard: set<Position>, g0: Grid, s: Wave)
    requires Sound(w) && Prepared(w, hazard, g0) && w.start != w.end && !(InRect(w, w.start) && w.start in hazard)
    requires Arrived(w, g0, s) && s.counter <= 126
    ensures var e := Run(w, s.grid, Start(w, s));
      e.ended && !e.strayed ==> PathFound(w, g0, e.path, e.stored)
  {
    PreparedReady(w, hazard, g0, s);
    FreeIsUnlabelled(w, hazard, g0, w.start);
    SuccessIsPath(w, g0, s);
  }

  lemma CandidateAt(p: Position, i: int, j: int)
    requires -1 <= i <= 1 && -1 <= j <= 1
    ensures Candidate(p, 3 * (j + 1) + i + 1) == Position(p.x + i, p.y + j)
  {
  }

  /** The invariant of the wave loop. */
  ghost predicate Kept(w: World, g0: Grid, s: Wave, front: seq<Position>, next: seq<Position>, reach: nat) {
    && Invariant(w, g0, s, front, next)
    && Descends(w, g0, s, front, next)
    && (Fits(w, g0, reach) ==> Roomy(s, front, next, reach))
  }

  ghost predicate Fits(w: World, g0: Grid, reach: nat) {
    Narrow(w, g0) && Near(w, g0, reach) && reach <= 251
  }

  lemma BeginKept(w: World, g0: Grid, found: bool, reach: nat)
    requires Sound(w) && Read(w, g0, w.start) != 0
    ensures Kept(w, g0, Begin(w, g0, 2, found), [w.start], [], reach)
  {
    BeginHolds(w, g0, found);
    BeginDescends(w, g0, found);
  }

  lemma StepKept(w: World, g0: Grid, s: Wave, front: seq<Position>, next: seq<Position>, reach: nat)
    requires Sound(w) && Read(w, g0, w.start) != 0 && Kept(w, g0, s, front, next, reach) && s.queue != [] && !s.ended
    ensures Kept(w, g0, Step(w, s), FrontAfter(front, next), NextAfterStep(w, s, front, next), reach)
    ensures Drops(w, g0, s, front, Step(w, s), FrontAfter(front, next))
  {
    StepKeepsInvariant(w, g0, s, front, next);
    StepDescends(w, g0, s, front, next);
    if Fits(w, g0, reach) {
      StepRoomy(w, g0, s, front, next, reach);
    }
  }

  lemma FinishedKept(w: World, g0: Grid, s: Wave, front: seq<Position>, next: seq<Position>, reach: nat)
    requires Sound(w) && Kept(w, g0, s, front, next, reach) && Finished(s)
    ensures s.exact ==> Result(w, g0, s.(queue := []))
    ensures s.ended && s.layer <= 252 ==> Arrived(w, g0, s.(queue := []))
    ensures Fits(w, g0, reach) ==> s.exact && (s.ended ==> s.layer < reach)
  {
    if s.exact {
      FinishedIsResult(w, g0, s, front, next);
      ResultWithoutQueue(w, g0, s);
    }
    if s.ended && s.layer <= 252 {
      EndedArrives(w, g0, s, front, next);
    }
  }

  class Planner {
    const world: World
    const store: Store          // planning_pos_store
    var lowres: Grid            // map_lowres, flattened: cells never written read 0
    var wavecounter: int        // uint8_t
    var neighbourFound: bool    // keeps its value between calls
    var endreached: bool
    ghost var layer: nat
    ghost var exact: bool

    constructor (w: World, size: nat)
      requires PowerOfTwo(size) && w.capacity == size
      ensures Valid() && fresh(store) && fresh(store.data) && world == w && lowres == map[]
    {
      world := w;
      store := new Store(size);
      lowres, wavecounter, neighbourFound, endreached := map[], 0, false, false;
      layer, exact := 0, true;
    }

    ghost predicate Valid()
      reads this, store, store.data
    {
      store.Valid() && store.Capacity() == world.capacity
    }

    ghost function Snapshot(): Wave
      reads this, store
    {
      Wave(lowres, store.Items, wavecounter, neighbourFound, endreached, layer, exact)
    }

    /** get_neighbour. */
    method GetNeighbour(c: Position, actualWave: int, endReached: bool) returns (end: bool)
      requires Valid() && actualWave == ToInt8(wavecounter)
      modifies this`lowres, this`neighbourFound, this`exact, store, store.data
      ensures Valid() && store.data == old(store.data)
      ensures Snapshot().(ended := end) == Visit(world, old(Snapshot()).(ended := endReached), c)
    {
      if c.x < 0 || c.y < 0 || c.x < world.minX || c.x > world.maxX || c.y < world.minY || c.y > world.maxY {
        return endReached;
      }
      var mapval := Read(world, lowres, c);
      if mapval == 0 {
        lowres := Write(world, lowres, c, actualWave);
        neighbourFound := true;
        var ok := store.Push(c);
        exact := exact && ok;
      }
      if c.x == world.end.x && c.y == world.end.y {
        return true;
      }
      return endReached;
    }

    /** The two loops over j and i: all four neighbours of a queue entry. */
    method ExpandCell(pos: Position)
      requires Valid()
      modifies this`lowres, this`neighbourFound, this`endreached, this`exact, store, store.data
      ensures Valid() && store.data == old(store.data)
      ensures Snapshot() == VisitUpTo(world, old(Snapshot()), pos, 4)
    {
      ghost var s := Snapshot();
      ghost var t: nat := 0;
      var j := -1;
      while j <= 1
        invariant -1 <= j <= 2 && t == (if j == -1 then 0 else if j == 0 then 1 else if j == 1 then 3 else 4)
        invariant Valid() && store.data == old(store.data)
        invariant Snapshot() == VisitUpTo(world, s, pos, t)
        invariant unchanged(`wavecounter) && unchanged(`layer)
      {
        var i := -1;
        while i <= 1
          invariant -1 <= i <= 2 && -1 <= j <= 1
          invariant t == (if j == -1 then (if i <= 0 then 0 else 1)
                          else if j == 0 then (if i == -1 then 1 else if i <= 1 then 2 else 3)
                          else (if i <= 0 then 3 else 4))
          invariant Valid() && store.data == old(store.data)
          invariant Snapshot() == VisitUpTo(world, s, pos, t)
          invariant unchanged(`wavecounter) && unchanged(`layer)
        {
          if (j == 0 && i != 0) || (i == 0 && j != 0) {
            var tmp := Position(pos.x + i, pos.y + j);
            assert tmp == Neighbour(pos, t);
            endreached := GetNeighbour(tmp, ToInt8(wavecounter), endreached);
            t := t + 1;
          }
          i := i + 1;
        }
        j := j + 1;
      }
    }

    /** The body of the wave loop: take an entry and close the front or expand a cell. */
    method WaveStep(last: Position) returns (pos: Position)
      requires Valid() && store.Items != [] && !endreached
      modifies this`lowres, this`neighbourFound, this`endreached, this`exact, this`wavecounter, this`layer,
               store, store.data
      ensures Valid() && store.data == old(store.data)
      ensures Snapshot() == Step(world, old(Snapshot()))
      ensures pos == old(store.Items[0])
      ensures pos == Position(999, 999) ==>
        && wavecounter == (old(wavecounter) + 1) % 256 && !neighbourFound && lowres == old(lowres) && !endreached
        && store.Items == old(store.Items)[1..] + if old(neighbourFound) then [Position(999, 999)] else []
      ensures pos != Position(999, 999) ==> wavecounter == old(wavecounter)
    {
      var taken;
      taken, pos := store.Dequeue(last);
      if pos.x == 999 && pos.y == 999 {
        exact := exact && wavecounter + 1 <= 255;
        wavecounter := (wavecounter + 1) % 256;
        layer := layer + 1;
        if !endreached && neighbourFound {
          var ok := store.Push(FRONT_MARK);
          exact := exact && ok;
        }
        neighbourFound := false;
      } else {
        ExpandCell(pos);
      }
    }

    /** State NEIGHBOURS_FROM_FIFO: run the wave. It always terminates; unless the queue refused an entry or
        the counter wrapped it is an exact breadth-first search, and in any case it leaves stepwise labels
        when it has noticed the robot before the counter wrapped. */
    method RunWave(ghost g0: Grid, ghost reach: nat)
      requires Valid() && Sound(world)
      requires lowres == g0 && Read(world, g0, world.start) != 0 && wavecounter == 2 && store.Items == []
      modifies this`lowres, this`neighbourFound, this`endreached, this`exact, this`wavecounter, this`layer,
               store, store.data
      ensures Valid() && store.data == old(store.data) && store.Items == []
      ensures exact ==> Result(world, g0, Snapshot())
      ensures endreached && layer <= 252 ==> Arrived(world, g0, Snapshot())
      ensures Fits(world, g0, reach) ==> exact && (endreached ==> layer < reach)
    {
      wavecounter := (wavecounter + 1) % 256;
      endreached := false;
      layer, exact := 0, true;
      var ok := store.Push(world.start);
      ok := store.Push(FRONT_MARK);
      ghost var front, next: seq<Position> := [world.start], [];
      ghost var s := Begin(world, g0, 2, neighbourFound);
      BeginKept(world, g0, neighbourFound, reach);
      var pos := world.start;
      while !endreached && store.count != 0
        invariant Valid() && store.data == old(store.data)
        invariant s == Snapshot() && Kept(world, g0, s, front, next, reach)
        decreases |Unlabelled(world, g0, s.grid)|, Rank(s), Pending(s, front)
      {
        StepKept(world, g0, s, front, next, reach);
        pos := WaveStep(pos);
        front, next, s := FrontAfter(front, next), NextAfterStep(world, s, front, next), Step(world, s);
      }
      FinishedKept(world, g0, s, front, next, reach);
      store.Clear();
      assert Snapshot() == s.(queue := []);
    }

    /** The body of the loops over j and i of the way back: compare one neighbour. */
    method Compare(pos: Position, i: int, j: int, ghost t: nat, ghost l: Look, next0: Position, bound0: int, found0: bool)
      returns (next: Position, bound: int, found: bool, ended: bool, ghost strayed: bool)
      requires -1 <= i <= 1 && -1 <= j <= 1 && t == 3 * (j + 1) + i + 1
      requires l == Look(next0, bound0, found0, false, l.strayed)
      ensures var l' := LookAt(world, lowres, pos, t, l);
        next == l'.next && bound == l'.bound && found == l'.found && ended == l'.ended
      ensures strayed == LookAt(world, lowres, pos, t, l).strayed
    {
      CandidateAt(pos, i, j);
      next, bound, found, ended, strayed := next0, bound0, found0, false, l.strayed;
      if !(i == 0 && j == 0) && !(pos.x + i == world.end.x && pos.y + j == world.end.y) {
        var tmp := Position(pos.x + i, pos.y + j);
        var minval := Read(world, lowres, tmp);
        strayed := strayed || Outside(tmp);
        if tmp.x == world.start.x && tmp.y == world.start.y {
          ended := true;
        }
        if minval > 1 && minval < bound {
          next := Position(pos.x + i, pos.y + j);
          bound := minval;
          found := true;
        }
      }
    }

    /** The loops over j and i of the way back: choose among the eight neighbours. */
    method LookRound(pos: Position, nextdest: Position, mapvalMin: int)
      returns (next: Position, bound: int, found: bool, ended: bool, ghost strayed: bool)
      ensures var l' := LookAround(world, lowres, pos, 9, Glance(nextdest, mapvalMin));
        next == l'.next && bound == l'.bound && found == l'.found && ended == l'.ended
      ensures strayed == LookAround(world, lowres, pos, 9, Glance(nextdest, mapvalMin)).strayed
    {
      ghost var l := Glance(nextdest, mapvalMin);
      ghost var t: nat := 0;
      next, bound, found, ended, strayed := nextdest, mapvalMin, false, false, false;
      var j := -1;
      while j <= 1 && !ended
        invariant -1 <= j <= 2 && t <= 9 && (!ended ==> t == 3 * (j + 1))
        invariant Look(next, bound, found, ended, strayed) == LookAround(world, lowres, pos, t, l)
      {
        var i := -1;
        while i <= 1 && !ended
          invariant -1 <= i <= 2 && -1 <= j <= 1 && t <= 9 && (!ended ==> t == 3 * (j + 1) + i + 1)
          invariant Look(next, bound, found, ended, strayed) == LookAround(world, lowres, pos, t, l)
        {
          next, bound, found, ended, strayed :=
            Compare(pos, i, j, t, LookAround(world, lowres, pos, t, l), next, bound, found);
          t := t + 1;
          i := i + 1;
        }
        j := j + 1;
      }
      if ended {
        EndedStays(world, lowres, pos, t, 9, l);
      }
    }

    /** Drop the last way point if the new one lies on a line behind it. */
    method Prune(p: Position, skip: nat) returns (skipCount: nat)
      requires Valid()
      modifies store, store.data
      ensures Valid() && store.data == old(store.data)
      ensures (store.Items + [p], skipCount) == Pruning.Append(old(store.Items), skip, p)
    {
      ghost var before := store.Items;
      skipCount := skip;
      var nil := Position(0, 0);
      var have1, pos1 := store.Top(nil, 1);
      var have2, pos2 := store.Top(nil, 2);
      if have1 && have2 {
        var m1 := Pruning.Slope(pos2, pos1);
        var m := Pruning.Slope(pos1, p);
        if m1 == m {
          if skipCount < 3 {
            have1, pos1 := store.Pop(pos1);
            assert store.Items == before[..|before| - 1];
            skipCount := skipCount + 1;
          } else {
            skipCount := 0;
          }
        } else {
          skipCount := 0;
        }
      }
    }

    /** Prune and queue one way point; false when the queue is full. */
    method QueueWayPoint(p: Position, skip: nat) returns (ok: bool, skipCount: nat)
      requires Valid()
      modifies store, store.data
      ensures Valid() && store.data == old(store.data)
      ensures skipCount == Pruning.Append(old(store.Items), skip, p).1
      ensures var stored := Pruning.Append(old(store.Items), skip, p).0;
        ok == (|stored| <= world.capacity) && store.Items == if ok then stored else stored[..|stored| - 1]
    {
      skipCount := Prune(p, skip);
      ghost var kept := store.Items;
      assert (kept + [p])[..|kept|] == kept;
      ok := store.Push(p);
    }

    /** The fields that stand for the trace. */
    ghost predicate Shows(tr: Trace, pos: Position, next: Position, bound: int, skip: nat)
      reads this, store
    {
      && tr.pos == pos && tr.next == next && tr.bound == bound && tr.skip == skip
      && tr.rounds == wavecounter && tr.stored == store.Items && tr.ended == endreached
    }

    /** The second half of the way-back loop: queue the cell chosen and count the round. */
    method FinishRound(ghost tr: Trace, ghost l: Look, next: Position, skip: nat) returns (skipCount: nat, failed: bool)
      requires Valid() && tr.stored == store.Items && tr.skip == skip && tr.rounds == wavecounter && !tr.failed
      requires l.next == next && l.found == neighbourFound && l.ended == endreached
      modifies this`wavecounter, this`endreached, store, store.data
      ensures Valid() && store.data == old(store.data)
      ensures var tr' := Finish(world, tr, l);
        tr'.failed == failed && Shows(tr', tr'.pos, next, l.bound, skipCount) && (!failed ==> tr'.pos == next)
    {
      skipCount, failed := skip, false;
      if neighbourFound || endreached {
        var ok;
        ok, skipCount := QueueWayPoint(ToWorld(world, next), skip);
        if !ok {
          endreached, failed := false, true;
          return;
        }
      }
      wavecounter := wavecounter + 1;
      if wavecounter >= MAX_WAVECOUNTER {
        endreached, failed := false, true;
      }
    }

    /** The body of the way-back loop. */
    method TraceRound(ghost tr: Trace, pos: Position, nextdest: Position, mapvalMin: int, skip: nat)
      returns (next: Position, bound: int, skipCount: nat, failed: bool)
      requires Valid() && Shows(tr, pos, nextdest, mapvalMin, skip) && !tr.ended && !tr.failed
      modifies this`wavecounter, this`neighbourFound, this`endreached, store, store.data
      ensures Valid() && store.data == old(store.data)
      ensures var tr' := Round(world, lowres, tr);
        && tr'.failed == failed && Shows(tr', tr'.pos, next, bound, skipCount) && (!failed ==> tr'.pos == next)
    {
      ghost var strayed;
      next, bound, neighbourFound, endreached, strayed := LookRound(pos, nextdest, mapvalMin);
      ghost var l := Look(next, bound, neighbourFound, endreached, strayed);
      skipCount, failed := FinishRound(tr, l, next, skip);
    }

    /** State SEARCH_STACKPATH_AND_QUEUE: trace the wave back and queue the way points. */
    method SearchStackPath() returns (ghost tr: Trace)
      requires Valid() && store.Items == []
      modifies this`wavecounter, this`neighbourFound, this`endreached, store, store.data
      ensures Valid() && store.data == old(store.data)
      ensures tr == Run(world, lowres, Start(world, old(Snapshot())))
      ensures tr.ended == endreached == !tr.failed && tr.stored == store.Items && tr.rounds == wavecounter
    {
      tr := Start(world, Snapshot());
      ghost var start := tr;
      var nextdest, pos := Position(0, 0), world.end;
      var mapvalMin := ToInt8(wavecounter + 1);
      endreached := false;
      wavecounter := 0;
      var skipCount: nat := 0;
      while !endreached
        invariant Valid() && store.data == old(store.data)
        invariant Shows(tr, pos, nextdest, mapvalMin, skipCount) && !tr.failed && tr.rounds < MAX_WAVECOUNTER
        invariant Run(world, lowres, tr) == Run(world, lowres, start)
        decreases MAX_WAVECOUNTER - tr.rounds
      {
        var failed;
        ghost var tr' := Round(world, lowres, tr);
        RunGoesOn(world, lowres, tr);
        nextdest, mapvalMin, skipCount, failed := TraceRound(tr, pos, nextdest, mapvalMin, skipCount);
        tr := tr';
        if failed {
          return;
        }
        pos := nextdest;
      }
    }

    /** States START and SET_HAZARDS_TO_LOWRES: clear the grid and the queue, mark the target with 2 and
        the hazards of the rectangle with 1. */
    method Prepare(hazard: set<Position>)
      requires Valid() && Sound(world)
      modifies this`lowres, this`wavecounter, store, store.data
      ensures Valid() && store.data == old(store.data) && store.Items == [] && wavecounter == 2
      ensures Prepared(world, hazard, lowres)
    {
      store.Clear();
      wavecounter := 2;
      lowres := Write(world, map[], world.start, 2);
      var y := world.maxY;
      while y >= world.minY
        invariant Valid() && store.data == old(store.data) && store.Items == [] && wavecounter == 2
        invariant Entered(world, hazard, lowres, world.minX, y)
      {
        var x := world.minX;
        while x <= world.maxX
          invariant world.minX <= x
          invariant Valid() && store.data == old(store.data) && store.Items == [] && wavecounter == 2
          invariant Entered(world, hazard, lowres, x, y)
        {
          if Position(x, y) in hazard {
            EnterHazard(world, hazard, lowres, x, y);
            lowres := Write(world, lowres, Position(x, y), 1);
          }
          x := x + 1;
        }
        y := y - 1;
      }
    }

    /** The whole plan, from the hazards to the queued way points. Whenever a path is reported without reading
        outside the grid, for a counter of at most 126, the way points draw a hazard-free path to the target;
        and on a plannable input a path is reported exactly if the robot touches a cell the wave can get to. */
    method PlanPath(hazard: set<Position>, ghost reach: nat)
      returns (ghost g0: Grid, ghost s: Wave, ghost tr: Trace)
      requires Valid() && Sound(world)
      modifies this, store, store.data
      ensures Prepared(world, hazard, g0)
      ensures s.exact ==> Result(world, g0, s)
      ensures tr == if s.ended then Run(world, s.grid, Start(world, s)) else Start(world, s)
      ensures tr.ended == endreached && tr.stored == store.Items
      ensures world.start == world.end ==> !endreached
      ensures world.start != world.end && !(InRect(world, world.start) && world.start in hazard) ==>
                (endreached && !tr.strayed && s.layer <= 252 && s.counter <= 126 ==>
                   PathFound(world, g0, tr.path, store.Items))
      ensures Plannable(world, hazard, g0, reach) ==>
                (endreached <==> InRect(world, world.end) && exists q :: Reachable(world, g0, q) && Adjacent(q, world.end))
    {
      Prepare(hazard);
      g0 := lowres;
      FreeIsUnlabelled(world, hazard, g0, world.start);
      RunWave(g0, reach);
      s := Snapshot();
      tr := Start(world, s);
      if endreached {
        tr := SearchStackPath();
        if world.start == world.end {
          NoPathToOwnCell(world, s.grid, Start(world, s));
        } else if s.layer <= 252 && s.counter <= 126 && !(InRect(world, world.start) && world.start in hazard) {
          PlanIsPath(world, hazard, g0, s);
        }
        if Plannable(world, hazard, g0, reach) {
          PlanSucceeds(world, hazard, g0, s, reach);
        }
      }
    }
  }
}
