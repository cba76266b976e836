/** Tracing the labels back from the robot to the drive target (behaviour_pathplanning.c, state
    SEARCH_STACKPATH_AND_QUEUE), as values. */
module PathTrace {
  import opened CInt
  import opened PosStore
  import opened WaveField
  import opened WaveSearch
  import opened WaveDescent
  import Pruning = PathPruning

  const MAX_WAVECOUNTER := 120

  /** Two cells that touch along an edge or at a corner. */
  predicate King(p: Position, c: Position) {
    -1 <= c.x - p.x <= 1 && -1 <= c.y - p.y <= 1 && p != c
  }

  /** The t-th cell of the loops over j and i, row by row; t == 4 is p itself. */
  function Candidate(p: Position, t: nat): Position
    requires t < 9
  {
    Position(p.x + t % 3 - 1, p.y + t / 3 - 1)
  }

  /** What one round knows while it looks around; `strayed` tells that it read in front of the grid. */
  datatype Look = Look(next: Position, bound: int, found: bool, ended: bool, strayed: bool)

  /** Before the first comparison. */
  function Glance(next: Position, bound: int): Look {
    Look(next, bound, false, false, false)
  }

  /** The body of the two loops: compare one neighbour. */
  function LookAt(w: World, g: Grid, p: Position, t: nat, l: Look): Look
    requires t < 9
  {
    var c := Candidate(p, t);
    if l.ended || t == 4 || c == w.end then l
    else
      var l1 := l.(ended := c == w.start, strayed := l.strayed || Outside(c));
      var v := Read(w, g, c);
      if v > 1 && v < l.bound then l1.(next := c, bound := v, found := true) else l1
  }

  function LookAround(w: World, g: Grid, p: Position, t: nat, l: Look): Look
    requires t <= 9
  {
    if t == 0 then l else LookAt(w, g, p, t - 1, LookAround(w, g, p, t - 1, l))
  }

  lemma {:induction false} EndedStays(w: World, g: Grid, p: Position, t: nat, u: nat, l: Look)
    requires t <= u <= 9 && LookAround(w, g, p, t, l).ended
    ensures LookAround(w, g, p, u, l) == LookAround(w, g, p, t, l)
  {
    if t < u {
      EndedStays(w, g, p, t, u - 1, l);
    }
  }

  /** The middle of a cell in world coordinates. */
  function ToWorld(w: World, p: Position): Position {
    Position((p.x - 16 * w.sections) * Pruning.CELL_SIZE + Pruning.CELL_SIZE / 2,
             (p.y - 16 * w.sections) * Pruning.CELL_SIZE + Pruning.CELL_SIZE / 2)
  }

  /** world_to_map_lowres, on a grid of 32 cells per section, 128 mm wide. */
  function ToLowres(w: World, k: int): int {
    TruncDiv(k + 32 * w.sections * (128 / 2), 128)
  }

  /** p is the middle of cell c: from 64 mm in front of it up to 63 mm behind, every point lies in c. */
  ghost predicate Centre(w: World, p: Position, c: Position) {
    && (forall k :: p.x - 64 <= k < p.x + 64 ==> ToLowres(w, k) == c.x)
    && (forall k :: p.y - 64 <= k < p.y + 64 ==> ToLowres(w, k) == c.y)
  }

  lemma LowresOf(w: World, cell: int, k: int)
    requires cell >= 0 && 0 <= k + 2048 * w.sections - 128 * cell < 128
    ensures ToLowres(w, k) == cell
  {
    Quotient(k + 2048 * w.sections, 128, cell, k + 2048 * w.sections - 128 * cell);
  }

  /** The way point of a cell is its middle: both conversions fit together. */
  lemma WayPointIsCentre(w: World, c: Position)
    requires !Outside(c)
    ensures Centre(w, ToWorld(w, c), c)
  {
    var p := ToWorld(w, c);
    forall k | p.x - 64 <= k < p.x + 64
      ensures ToLowres(w, k) == c.x
    {
      LowresOf(w, c.x, k);
    }
    forall k | p.y - 64 <= k < p.y + 64
      ensures ToLowres(w, k) == c.y
    {
      LowresOf(w, c.y, k);
    }
  }

  function AllToWorld(w: World, path: seq<Position>): (points: seq<Position>)
    ensures |points| == |path| && forall i :: 0 <= i < |path| ==> points[i] == ToWorld(w, path[i])
  {
    if path == [] then [] else AllToWorld(w, path[..|path| - 1]) + [ToWorld(w, path[|path| - 1])]
  }

  /** The state between two rounds. `path` lists every cell chosen so far, `from` the positions the rounds
      looked around from; these and `strayed` serve the specification. */
  datatype Trace = Trace(pos: Position, next: Position, bound: int, rounds: int, stored: seq<Position>, skip: nat,
                         ended: bool, failed: bool, path: seq<Position>, from: seq<Position>, strayed: bool)

  /** The second half of a round: queue the chosen cell, which makes `stored` of the way points, and
      count the round. */
  function Choose(w: World, tr: Trace, l: Look, stored: seq<Position>, skip: nat): Trace
    requires stored != []
  {
    var tr1 := tr.(next := l.next, bound := l.bound, ended := l.ended,
                   from := tr.from + [tr.pos], strayed := tr.strayed || l.strayed);
    var tr2 := if l.found || l.ended then tr1.(stored := stored, skip := skip, path := tr.path + [l.next]) else tr1;
    if |tr2.stored| > w.capacity then
      tr2.(stored := stored[..|stored| - 1], ended := false, failed := true)
    else if tr.rounds + 1 >= MAX_WAVECOUNTER then
      tr2.(rounds := tr.rounds + 1, ended := false, failed := true)
    else
      tr2.(rounds := tr.rounds + 1, pos := l.next)
  }

  function Finish(w: World, tr: Trace, l: Look): Trace {
    var (stored, skip) := Pruning.Append(tr.stored, tr.skip, ToWorld(w, l.next));
    Choose(w, tr, l, stored, skip)
  }

  /** One round. */
  function Round(w: World, g: Grid, tr: Trace): Trace {
    Finish(w, tr, LookAround(w, g, tr.pos, 9, Glance(tr.next, tr.bound)))
  }

  /** All rounds until the target is noticed or the trace fails. */
  function Run(w: World, g: Grid, tr: Trace): Trace
    requires tr.rounds < MAX_WAVECOUNTER
    decreases MAX_WAVECOUNTER - tr.rounds
  {
    if tr.ended || tr.failed then tr
    else
      var tr' := Round(w, g, tr);
      if tr'.failed then tr' else Run(w, g, tr')
  }

  lemma RunGoesOn(w: World, g: Grid, tr: Trace)
    requires tr.rounds < MAX_WAVECOUNTER && !tr.ended && !tr.failed
    ensures var tr' := Round(w, g, tr);
      if tr'.failed then Run(w, g, tr) == tr' && !tr'.ended
      else tr'.rounds == tr.rounds + 1 < MAX_WAVECOUNTER && Run(w, g, tr) == Run(w, g, tr')
  {
  }

  /** Where the trace starts: at the robot, with a bound one above the last label, as an int8. */
  function Start(w: World, s: Wave): Trace {
    Trace(w.end, Position(0, 0), ToInt8(s.counter + 1), 0, [], 0, false, false, [], [], false)
  }

  /* ---- One round ---- */

  /** c is a cell the round may choose: next to p, not the robot's, labelled below the bound. */
  predicate Eligible(w: World, g: Grid, p: Position, bound: int, c: Position) {
    King(p, c) && c != w.end && 1 < Read(w, g, c) < bound
  }

  /** When the loops over j and i come to the neighbour c of p. */
  function Index(p: Position, c: Position): int {
    3 * (c.y - p.y + 1) + (c.x - p.x + 1)
  }

  /** The target is among the compared neighbours. */
  predicate Noticed(w: World, p: Position) {
    King(p, w.start) && w.start != w.end
  }

  /** c is compared before the target ends the loops. */
  predicate Compared(w: World, p: Position, c: Position) {
    Noticed(w, p) ==> Index(p, c) <= Index(p, w.start)
  }

  /** What the first t cells have shown. */
  ghost predicate Looked(w: World, g: Grid, p: Position, t: nat, bound: int, next: Position, l: Look) {
    && (l.ended <==> Noticed(w, p) && Index(p, w.start) < t)
    && (if l.found then Eligible(w, g, p, bound, l.next) && Compared(w, p, l.next) && l.bound == Read(w, g, l.next)
                        && Index(p, l.next) < t
        else l.bound == bound && l.next == next)
    && forall c :: Eligible(w, g, p, bound, c) && Compared(w, p, c) && Index(p, c) < t ==>
         l.found && Better(w, g, p, l.next, c)
  }

  /** c has the smaller label, or the same one and is compared first. */
  predicate Better(w: World, g: Grid, p: Position, c: Position, q: Position) {
    Read(w, g, c) < Read(w, g, q) || (Read(w, g, c) == Read(w, g, q) && Index(p, c) <= Index(p, q))
  }

  lemma IndexOfCandidate(p: Position, t: nat)
    requires t < 9
    ensures Index(p, Candidate(p, t)) == t && (t != 4 <==> King(p, Candidate(p, t)))
  {
  }

  lemma IndexIsUnique(p: Position, c: Position, t: nat)
    requires t < 9 && King(p, c) && Index(p, c) == t
    ensures c == Candidate(p, t)
  {
  }

  lemma LookAtLooks(w: World, g: Grid, p: Position, t: nat, bound: int, next: Position, l: Look)
    requires t < 9 && Looked(w, g, p, t, bound, next, l)
    ensures Looked(w, g, p, t + 1, bound, next, LookAt(w, g, p, t, l))
  {
    IndexOfCandidate(p, t);
    var c, l' := Candidate(p, t), LookAt(w, g, p, t, l);
    if King(p, w.start) && Index(p, w.start) == t {
      IndexIsUnique(p, w.start, t);
    }
    forall q | Eligible(w, g, p, bound, q) && Compared(w, p, q) && Index(p, q) < t + 1
      ensures l'.found && Better(w, g, p, l'.next, q)
    {
      if Index(p, q) == t {
        IndexIsUnique(p, q, t);
      }
    }
  }

  lemma {:induction false} LookAroundLooks(w: World, g: Grid, p: Position, t: nat, bound: int, next: Position)
    requires t <= 9
    ensures Looked(w, g, p, t, bound, next, LookAround(w, g, p, t, Glance(next, bound)))
  {
    if t > 0 {
      LookAroundLooks(w, g, p, t - 1, bound, next);
      LookAtLooks(w, g, p, t - 1, bound, next, LookAround(w, g, p, t - 1, Glance(next, bound)));
    } else {
      forall q | King(p, q)
        ensures Index(p, q) >= 0
      {
      }
    }
  }

  /** A round notices the target exactly if it touches it, and takes the first neighbour with the least label
      below the bound among those compared up to the target; if there is none, nothing changes. */
  lemma RoundLooks(w: World, g: Grid, p: Position, bound: int, next: Position)
    ensures var l := LookAround(w, g, p, 9, Glance(next, bound));
      && (l.ended <==> Noticed(w, p))
      && (if l.found then Eligible(w, g, p, bound, l.next) && Compared(w, p, l.next) && l.bound == Read(w, g, l.next)
          else l.bound == bound && l.next == next)
      && forall c :: Eligible(w, g, p, bound, c) && Compared(w, p, c) ==> l.found && Better(w, g, p, l.next, c)
  {
    LookAroundLooks(w, g, p, 9, bound, next);
    assert forall c :: King(p, c) ==> Index(p, c) < 9;
  }

  /** 2 marks the wave start, larger labels all other cells. */
  ghost predicate Marked(w: World, g: Grid) {
    forall c: Position {:trigger Read(w, g, c)} | !Outside(c) && Read(w, g, c) > 1 ::
      if c == w.start then Read(w, g, c) == 2 else Read(w, g, c) >= 3
  }

  /** With 2 at the target: a round takes a neighbour with the least label, and ends exactly at the target. */
  lemma RoundPicks(w: World, g: Grid, p: Position, bound: int, next: Position, q: Position)
    requires Marked(w, g) && !OnRim(p) && bound >= 3 && w.start != w.end && Read(w, g, w.start) == 2
    requires Eligible(w, g, p, bound, q)
    ensures var l := LookAround(w, g, p, 9, Glance(next, bound));
      && l.found && Eligible(w, g, p, bound, l.next) && l.bound == Read(w, g, l.next) <= Read(w, g, q)
      && (l.ended <==> l.next == w.start)
  {
    RoundLooks(w, g, p, bound, next);
    if Noticed(w, p) {
      assert Eligible(w, g, p, bound, w.start);
    } else {
      assert Compared(w, p, q);
    }
  }

  /** A cell of the first row or column: some of its neighbours lie in front of the grid. */
  predicate OnRim(p: Position) {
    p.x <= 0 || p.y <= 0
  }

  /** The way back reads outside the grid exactly from the first row and column: the first neighbour is
      always read, and no coordinate is checked. */
  lemma StraysIffOnRim(w: World, g: Grid, p: Position, next: Position, bound: int)
    requires !Outside(w.end)
    ensures LookAround(w, g, p, 9, Glance(next, bound)).strayed <==> OnRim(p)
  {
    var l := Glance(next, bound);
    StraysOnlyFromRim(w, g, p, 9, l);
    assert LookAround(w, g, p, 1, l) == LookAt(w, g, p, 0, LookAround(w, g, p, 0, l));
    assert Candidate(p, 0) == Position(p.x - 1, p.y - 1);
    StrayedStays(w, g, p, 1, 9, l);
  }

  lemma {:induction false} StraysOnlyFromRim(w: World, g: Grid, p: Position, t: nat, l: Look)
    requires t <= 9 && !l.strayed
    ensures LookAround(w, g, p, t, l).strayed ==> OnRim(p)
  {
    if t > 0 {
      StraysOnlyFromRim(w, g, p, t - 1, l);
    }
  }

  lemma {:induction false} StrayedStays(w: World, g: Grid, p: Position, t: nat, u: nat, l: Look)
    requires t <= u <= 9
    ensures LookAround(w, g, p, t, l).strayed ==> LookAround(w, g, p, u, l).strayed
  {
    if t < u {
      StrayedStays(w, g, p, t, u - 1, l);
    }
  }

  /* ---- What the trace relies on ---- */

  /** A finished, successful wave over hazards (1) and initial cells (0), whose counter has not wrapped, and
      a robot away from the target. The queue may have refused cells. */
  ghost predicate Ready(w: World, g0: Grid, s: Wave) {
    && Sound(w) && w.start != w.end
    && (forall c: Position | !Outside(c) && c != w.start :: 0 <= Read(w, g0, c) <= 1)
    && 1 <= Read(w, g0, w.start) <= 2
    && Arrived(w, g0, s)
  }

  lemma SmallLabel(v: int, most: int)
    requires IsLabel(v, most) && v > 1 && most <= 253
    ensures v == Moves(v) + 2 >= 3 && v <= 127 && v - 2 <= most
  {
    LabelMoves(Moves(v));
  }

  /** Cells labelled above 1 are the target, or free. */
  lemma LabelMeaning(w: World, g0: Grid, s: Wave, c: Position)
    requires Ready(w, g0, s) && !Outside(c) && Read(w, s.grid, c) > 1
    ensures if c == w.start then Read(w, s.grid, c) == 2
            else IsFree(w, g0, c) && 3 <= Read(w, s.grid, c) <= s.counter
  {
    if c != w.start {
      assert Stems(w, g0, s.grid, c, s.layer + 1);
      SmallLabel(Read(w, s.grid, c), s.layer + 1);
    }
  }

  /** A cell labelled as m moves away, m small. */
  lemma CarriedLabel(w: World, g0: Grid, s: Wave, q: Position, m: int)
    requires Ready(w, g0, s) && Carries(w, g0, s.grid, q, m) && 0 <= m <= 125
    ensures !Outside(q) && (q == w.start <==> m == 0) && (m > 0 ==> Read(w, s.grid, q) == m + 2)
  {
    if q != w.start {
      assert IsFree(w, g0, q);
      assert m == 0 ==> Read(w, s.grid, q) == 2;
      if m == 0 {
        LabelMeaning(w, g0, s, q);
      } else {
        LabelMoves(m);
      }
    }
  }

  lemma TouchedCell(w: World, g0: Grid, g: Grid, c: Position, m: int) returns (q: Position)
    requires Touches(w, g0, g, c, m)
    ensures Carries(w, g0, g, q, m) && King(c, q)
  {
    var d: nat :| d < 4 && Carries(w, g0, g, Neighbour(c, d), m);
    q := Neighbour(c, d);
  }

  /** Every labelled cell has a neighbour one nearer to the start. */
  lemma Predecessor(w: World, g0: Grid, s: Wave, c: Position) returns (q: Position)
    requires Ready(w, g0, s) && IsFree(w, g0, c) && Read(w, s.grid, c) > 1
    ensures King(c, q) && !Outside(q)
    ensures if q == w.start then Read(w, s.grid, c) == 3 else Read(w, s.grid, q) == Read(w, s.grid, c) - 1 >= 3
  {
    var v := Read(w, s.grid, c);
    assert Stems(w, g0, s.grid, c, s.layer + 1);
    SmallLabel(v, s.layer + 1);
    q := TouchedCell(w, g0, s.grid, c, v - 3);
    CarriedLabel(w, g0, s, q, v - 3);
  }

  lemma ReadyIsMarked(w: World, g0: Grid, s: Wave)
    requires Ready(w, g0, s)
    ensures Marked(w, s.grid) && InGrid(w, w.start) && Read(w, s.grid, w.start) == Read(w, g0, w.start) && !Outside(w.end)
  {
    forall c: Position | !Outside(c) && Read(w, s.grid, c) > 1
      ensures if c == w.start then Read(w, s.grid, c) == 2 else Read(w, s.grid, c) >= 3
    {
      LabelMeaning(w, g0, s, c);
    }
  }

  /** The robot's cell touches a cell of the front that noticed it. */
  lemma NextToEnd(w: World, g0: Grid, s: Wave) returns (q: Position)
    requires Ready(w, g0, s) && s.counter <= 127
    ensures King(w.end, q) && !Outside(q)
    ensures if q == w.start then s.counter == 3 else 3 <= Read(w, s.grid, q) == s.counter - 1
  {
    q := TouchedCell(w, g0, s.grid, w.end, s.layer);
    CarriedLabel(w, g0, s, q, s.layer);
  }

  /* ---- The whole trace ---- */

  /** The path runs from cell to touching cell with strictly falling labels, starting next to the robot. */
  ghost predicate Falling(w: World, s: Wave, path: seq<Position>) {
    && (forall i :: 0 <= i < |path| ==> !Outside(path[i]) && path[i] != w.end)
    && (forall i :: 0 <= i < |path| ==> 1 < Read(w, s.grid, path[i]) <= s.counter - 1 - i)
    && (forall i, j :: 0 <= i < j < |path| ==> Read(w, s.grid, path[j]) < Read(w, s.grid, path[i]))
    && (forall i :: 1 <= i < |path| ==> King(path[i - 1], path[i]))
    && (path != [] ==> King(w.end, path[0]))
  }

  /** The stored way points draw exactly the path. */
  predicate Drawn(w: World, path: seq<Position>, stored: seq<Position>) {
    Pruning.Straight(stored) && Pruning.Draw(stored) == AllToWorld(w, path)
  }

  /** The invariant of the loop. */
  ghost predicate Tracing(w: World, g0: Grid, s: Wave, tr: Trace) {
    && !tr.failed && !tr.strayed && |tr.path| == tr.rounds < MAX_WAVECOUNTER
    && Falling(w, s, tr.path)
    && (if tr.path == [] then tr.pos == w.end && tr.bound == s.counter + 1
        else tr.pos == tr.path[tr.rounds - 1] && tr.bound == Read(w, s.grid, tr.pos))
    && (tr.ended <==> tr.path != [] && tr.pos == w.start)
    && (tr.path != [] && Read(w, s.grid, w.end) > 1 ==> Read(w, s.grid, tr.path[0]) < Read(w, s.grid, w.end))
    && Drawn(w, tr.path, tr.stored)
    && |tr.stored| <= |tr.path| && |tr.stored| <= w.capacity
    && tr.from == ([w.end] + tr.path)[..tr.rounds]
  }

  /** The wave start has kept its 2, so that the way back can choose it. */
  ghost predicate Open(w: World, g0: Grid, s: Wave) {
    Ready(w, g0, s) && Read(w, g0, w.start) == 2 && s.counter <= 126
  }

  /** There always is a neighbour to choose: completeness of the descent. */
  lemma NextExists(w: World, g0: Grid, s: Wave, tr: Trace) returns (q: Position)
    requires Open(w, g0, s) && Tracing(w, g0, s, tr) && !tr.ended
    ensures Eligible(w, s.grid, tr.pos, tr.bound, q) && !Outside(q) && tr.bound >= 3
    ensures tr.path == [] && Read(w, s.grid, w.end) > 1 ==> Read(w, s.grid, q) < Read(w, s.grid, w.end)
    ensures Read(w, s.grid, q) <= s.counter - 1 - tr.rounds
  {
    ReadyIsMarked(w, g0, s);
    if tr.path == [] && Read(w, s.grid, w.end) <= 1 {
      q := NextToEnd(w, g0, s);
    } else {
      LabelMeaning(w, g0, s, tr.pos);
      q := Predecessor(w, g0, s, tr.pos);
      assert tr.path != [] ==> Read(w, s.grid, tr.pos) <= s.counter - tr.rounds;
      assert tr.path != [] && Read(w, s.grid, w.end) > 1 ==> Read(w, s.grid, tr.pos) <= Read(w, s.grid, tr.path[0]);
    }
  }

  lemma ToWorldMoves(w: World, p: Position, c: Position)
    requires King(p, c)
    ensures Pruning.Unit(Position(c.x - p.x, c.y - p.y))
    ensures ToWorld(w, c) == Pruning.Move(ToWorld(w, p), Position(c.x - p.x, c.y - p.y))
  {
  }

  lemma FallingExtends(w: World, s: Wave, path: seq<Position>, c: Position)
    requires Falling(w, s, path) && c != w.end && !Outside(c)
    requires 1 < Read(w, s.grid, c) <= s.counter - 1 - |path|
    requires King(if path == [] then w.end else path[|path| - 1], c)
    requires path != [] ==> Read(w, s.grid, c) < Read(w, s.grid, path[|path| - 1])
    ensures Falling(w, s, path + [c]) && c !in path
  {
    forall i | 0 <= i < |path|
      ensures Read(w, s.grid, c) < Read(w, s.grid, path[i])
    {
      assert Read(w, s.grid, path[|path| - 1]) <= Read(w, s.grid, path[i]);
    }
  }

  lemma AllToWorldAppends(w: World, path: seq<Position>, c: Position)
    ensures AllToWorld(w, path + [c]) == AllToWorld(w, path) + [ToWorld(w, c)]
  {
    assert (path + [c])[..|path|] == path;
  }

  lemma NewInWorld(w: World, path: seq<Position>, c: Position)
    requires c !in path && (path != [] ==> King(path[|path| - 1], c))
    ensures ToWorld(w, c) !in AllToWorld(w, path)
    ensures path != [] ==>
      exists e :: Pruning.Unit(e) && ToWorld(w, c) == Pruning.Move(AllToWorld(w, path)[|path| - 1], e)
  {
    forall i | 0 <= i < |path|
      ensures ToWorld(w, path[i]) != ToWorld(w, c)
    {
      if ToWorld(w, path[i]) == ToWorld(w, c) {
        ToWorldIsInjective(w, path[i], c);
      }
    }
    if path != [] {
      ToWorldMoves(w, path[|path| - 1], c);
    }
  }

  lemma ToWorldIsInjective(w: World, p: Position, c: Position)
    requires ToWorld(w, p) == ToWorld(w, c)
    ensures p == c
  {
  }

  /** They still do when the next cell is appended. */
  lemma StoredDraws(w: World, path: seq<Position>, stored: seq<Position>, skip: nat, c: Position)
    requires Drawn(w, path, stored)
    requires c !in path && (path != [] ==> King(path[|path| - 1], c))
    ensures var stored' := Pruning.Append(stored, skip, ToWorld(w, c)).0;
      Drawn(w, path + [c], stored') && |stored| <= |stored'| <= |stored| + 1
  {
    NewInWorld(w, path, c);
    Pruning.AppendDraws(AllToWorld(w, path), stored, skip, ToWorld(w, c));
    AllToWorldAppends(w, path, c);
  }

  /** What a round that fails without straying can fail for. */
  predicate GaveUp(w: World, s: Wave, tr: Trace) {
    && tr.failed && !tr.ended && (|tr.stored| == w.capacity || tr.rounds == 120)
    && (s.counter - 2 >= 120 || s.counter - 2 > w.capacity)
  }

  /** Off the rim a round chooses a cell with a smaller label. */
  lemma RoundChooses(w: World, g0: Grid, s: Wave, tr: Trace) returns (l: Look)
    requires Open(w, g0, s) && Tracing(w, g0, s, tr) && !tr.ended && !OnRim(tr.pos)
    ensures l == LookAround(w, s.grid, tr.pos, 9, Glance(tr.next, tr.bound))
    ensures l.found && (l.ended <==> l.next == w.start)
    ensures Eligible(w, s.grid, tr.pos, tr.bound, l.next) && !Outside(l.next)
    ensures l.bound == Read(w, s.grid, l.next) <= s.counter - 1 - tr.rounds
    ensures tr.path == [] && Read(w, s.grid, w.end) > 1 ==> Read(w, s.grid, l.next) < Read(w, s.grid, w.end)
  {
    ReadyIsMarked(w, g0, s);
    var q := NextExists(w, g0, s, tr);
    RoundPicks(w, s.grid, tr.pos, tr.bound, tr.next, q);
    l := LookAround(w, s.grid, tr.pos, 9, Glance(tr.next, tr.bound));
  }

  lemma ChosenExtends(w: World, g0: Grid, s: Wave, tr: Trace, c: Position)
    requires Tracing(w, g0, s, tr) && Eligible(w, s.grid, tr.pos, tr.bound, c) && !Outside(c)
    requires Read(w, s.grid, c) <= s.counter - 1 - tr.rounds
    ensures Falling(w, s, tr.path + [c]) && c !in tr.path
    ensures tr.path != [] ==> King(tr.path[|tr.path| - 1], c)
  {
    FallingExtends(w, s, tr.path, c);
  }

  lemma FromAppends(w: World, path: seq<Position>, c: Position, pos: Position)
    requires pos == ([w.end] + path)[|path|]
    ensures ([w.end] + path)[..|path|] + [pos] == ([w.end] + (path + [c]))[..|path| + 1]
  {
  }

  /** The cell chosen in a round continues the path. */
  ghost predicate Continues(w: World, s: Wave, tr: Trace, l: Look, stored: seq<Position>) {
    && l.found && !l.strayed && (l.ended <==> l.next == w.start)
    && !Outside(l.next) && l.bound == Read(w, s.grid, l.next)
    && Falling(w, s, tr.path + [l.next])
    && (tr.path == [] && Read(w, s.grid, w.end) > 1 ==> Read(w, s.grid, l.next) < Read(w, s.grid, w.end))
    && Drawn(w, tr.path + [l.next], stored) && 0 < |stored| <= |tr.stored| + 1
  }

  lemma ChosenGoesOn(w: World, g0: Grid, s: Wave, tr: Trace, l: Look, stored: seq<Position>, skip: nat)
    requires Tracing(w, g0, s, tr) && !tr.ended && Continues(w, s, tr, l, stored)
    requires |stored| <= w.capacity && tr.rounds + 1 < MAX_WAVECOUNTER
    ensures Tracing(w, g0, s, Trace(l.next, l.next, l.bound, tr.rounds + 1, stored, skip, l.ended, false,
                                    tr.path + [l.next], tr.from + [tr.pos], false))
  {
    var path' := tr.path + [l.next];
    FromAppends(w, tr.path, l.next, tr.pos);
    assert path'[|tr.path|] == l.next;
    assert path'[0] == if tr.path == [] then l.next else tr.path[0];
  }

  lemma ChosenGivesUp(w: World, g0: Grid, s: Wave, tr: Trace, l: Look, stored: seq<Position>, skip: nat)
    requires Tracing(w, g0, s, tr) && !tr.ended && Continues(w, s, tr, l, stored)
    requires |stored| > w.capacity || tr.rounds + 1 >= MAX_WAVECOUNTER
    ensures GaveUp(w, s, Choose(w, tr, l, stored, skip))
  {
    var path' := tr.path + [l.next];
    assert 1 < Read(w, s.grid, path'[|tr.path|]) <= s.counter - 1 - |tr.path|;
  }

  lemma ChosenTraces(w: World, g0: Grid, s: Wave, tr: Trace, l: Look, stored: seq<Position>, skip: nat)
    requires Tracing(w, g0, s, tr) && !tr.ended && Continues(w, s, tr, l, stored)
    ensures var tr' := Choose(w, tr, l, stored, skip);
      if tr'.failed then GaveUp(w, s, tr')
      else Tracing(w, g0, s, tr') && tr'.rounds == tr.rounds + 1 < MAX_WAVECOUNTER
  {
    if |stored| <= w.capacity && tr.rounds + 1 < MAX_WAVECOUNTER {
      ChosenGoesOn(w, g0, s, tr, l, stored, skip);
    } else {
      ChosenGivesUp(w, g0, s, tr, l, stored, skip);
    }
  }

  lemma RoundOffTheRim(w: World, g0: Grid, s: Wave, tr: Trace)
    requires Open(w, g0, s) && Tracing(w, g0, s, tr) && !tr.ended && !OnRim(tr.pos)
    ensures var tr' := Round(w, s.grid, tr);
      if tr'.failed then GaveUp(w, s, tr')
      else Tracing(w, g0, s, tr') && tr'.rounds == tr.rounds + 1 < MAX_WAVECOUNTER
  {
    var l := RoundChooses(w, g0, s, tr);
    ReadyIsMarked(w, g0, s);
    StraysIffOnRim(w, s.grid, tr.pos, tr.next, tr.bound);
    ChosenExtends(w, g0, s, tr, l.next);
    StoredDraws(w, tr.path, tr.stored, tr.skip, l.next);
    var (stored, skip) := Pruning.Append(tr.stored, tr.skip, ToWorld(w, l.next));
    ChosenTraces(w, g0, s, tr, l, stored, skip);
  }

  /** A round keeps the invariant, or reads outside the grid, or fails because the queue is full or the rounds
      are used up. */
  lemma RoundTraces(w: World, g0: Grid, s: Wave, tr: Trace)
    requires Open(w, g0, s) && Tracing(w, g0, s, tr) && !tr.ended
    ensures var tr' := Round(w, s.grid, tr);
      && (tr'.strayed <==> OnRim(tr.pos))
      && (!tr'.strayed ==>
            if tr'.failed then GaveUp(w, s, tr')
            else Tracing(w, g0, s, tr') && tr'.rounds == tr.rounds + 1 < MAX_WAVECOUNTER)
  {
    assert !Outside(w.end);
    StraysIffOnRim(w, s.grid, tr.pos, tr.next, tr.bound);
    if !OnRim(tr.pos) {
      RoundOffTheRim(w, g0, s, tr);
    }
  }

  lemma StartTraces(w: World, g0: Grid, s: Wave)
    requires Open(w, g0, s)
    ensures Tracing(w, g0, s, Start(w, s))
  {
  }

  lemma {:induction false} StrayedRun(w: World, g: Grid, tr: Trace)
    requires tr.rounds < MAX_WAVECOUNTER && tr.strayed
    ensures Run(w, g, tr).strayed
    decreases MAX_WAVECOUNTER - tr.rounds
  {
    if !tr.ended && !tr.failed && !Round(w, g, tr).failed {
      StrayedRun(w, g, Round(w, g, tr));
    }
  }

  /** The way back reads outside the grid exactly if it looks around from a cell of the first row or column. */
  lemma {:induction false} RunStraysIffOnRim(w: World, g: Grid, tr: Trace)
    requires tr.rounds < MAX_WAVECOUNTER && !Outside(w.end)
    requires tr.strayed <==> exists p :: p in tr.from && OnRim(p)
    ensures var e := Run(w, g, tr);
      e.strayed <==> exists p :: p in e.from && OnRim(p)
    decreases MAX_WAVECOUNTER - tr.rounds
  {
    if !tr.ended && !tr.failed {
      var tr' := Round(w, g, tr);
      StraysIffOnRim(w, g, tr.pos, tr.next, tr.bound);
      assert tr'.from == tr.from + [tr.pos];
      assert tr.pos in tr'.from && forall p :: p in tr.from ==> p in tr'.from;
      if !tr'.failed {
        RunStraysIffOnRim(w, g, tr');
      }
    }
  }

  lemma OffTheRim(w: World, g0: Grid, s: Wave, tr: Trace)
    requires Open(w, g0, s) && Tracing(w, g0, s, tr) && !tr.ended && w.minX >= 1 && w.minY >= 1
    ensures !OnRim(tr.pos)
  {
    if tr.path != [] {
      LabelMeaning(w, g0, s, tr.pos);
    }
  }

  /** The whole way back over an open wave: it succeeds unless it strays or gives up, and it does not stray
      over a rectangle off the first row and column. */
  lemma {:induction false} RunTraces(w: World, g0: Grid, s: Wave, tr: Trace)
    requires Open(w, g0, s) && Tracing(w, g0, s, tr)
    ensures var e := Run(w, s.grid, tr);
      && (!e.strayed ==> if e.ended then Tracing(w, g0, s, e) else GaveUp(w, s, e))
      && (w.minX >= 1 && w.minY >= 1 ==> !e.strayed)
    decreases MAX_WAVECOUNTER - tr.rounds
  {
    if !tr.ended {
      RoundTraces(w, g0, s, tr);
      if w.minX >= 1 && w.minY >= 1 {
        OffTheRim(w, g0, s, tr);
      }
      var tr' := Round(w, s.grid, tr);
      assert Run(w, s.grid, tr) == if tr'.failed then tr' else Run(w, s.grid, tr');
      if !tr'.failed && tr'.strayed {
        StrayedRun(w, s.grid, tr');
      } else if !tr'.failed {
        RunTraces(w, g0, s, tr');
      }
    }
  }

  /** What a successful trace leaves behind. */
  ghost predicate PathFound(w: World, g0: Grid, path: seq<Position>, stored: seq<Position>) {
    // the path leads from next to the robot to the wave start, from cell to touching cell,
    && path != [] && King(w.end, path[0]) && path[|path| - 1] == w.start
    && (forall i :: 1 <= i < |path| ==> King(path[i - 1], path[i]))
    // over cells without hazards and never twice over the same one,
    && (forall i :: 0 <= i < |path| ==> path[i] == w.start || IsFree(w, g0, path[i]))
    && (forall i, j :: 0 <= i < j < |path| ==> path[i] != path[j])
    // and the queued way points draw exactly the middles of its cells, ending with that of the drive target
    && Drawn(w, path, stored) && DrawsCentres(w, path, stored)
    && stored != [] && Centre(w, stored[|stored| - 1], w.start)
  }

  ghost predicate DrawsCentres(w: World, path: seq<Position>, stored: seq<Position>) {
    var drawn := Pruning.Draw(stored);
    |drawn| == |path| && forall i :: 0 <= i < |path| ==> Centre(w, drawn[i], path[i])
  }

  lemma DrawnIsCentred(w: World, path: seq<Position>, stored: seq<Position>)
    requires Drawn(w, path, stored) && forall i :: 0 <= i < |path| ==> !Outside(path[i])
    ensures DrawsCentres(w, path, stored)
  {
    forall i | 0 <= i < |path|
      ensures Centre(w, Pruning.Draw(stored)[i], path[i])
    {
      WayPointIsCentre(w, path[i]);
    }
  }

  /** A trace that has noticed the target has found a path. */
  lemma EndedIsFound(w: World, g0: Grid, s: Wave, tr: Trace)
    requires Open(w, g0, s) && Tracing(w, g0, s, tr) && tr.ended
    ensures PathFound(w, g0, tr.path, tr.stored) && |tr.path| <= s.counter - 2
  {
    var path := tr.path;
    forall i | 0 <= i < |path|
      ensures path[i] == w.start || IsFree(w, g0, path[i])
    {
      LabelMeaning(w, g0, s, path[i]);
    }
    forall i, j | 0 <= i < j < |path|
      ensures path[i] != path[j]
    {
      assert Read(w, s.grid, path[j]) < Read(w, s.grid, path[i]);
    }
    assert |AllToWorld(w, path)| == |path|;
    assert tr.stored == [] ==> Pruning.Draw(tr.stored) == [];
    Pruning.DrawEndsAtLast(tr.stored);
    DrawnIsCentred(w, path, tr.stored);
    WayPointIsCentre(w, w.start);
  }

  /* ---- When the way back fails ---- */

  /** From a counter of 127 on (and after it has wrapped) no label lies below the bound. */
  lemma BoundOfCounter(counter: int)
    requires 0 <= counter < 256
    ensures ToInt8(counter + 1) <= 2 <==> counter <= 1 || counter >= 127
    ensures 2 <= counter <= 126 ==> ToInt8(counter + 1) == counter + 1
  {
  }

  /** The middle of cell (0, 0) is the only way point. */
  ghost predicate OnlyCorner(w: World, stored: seq<Position>) {
    stored == [ToWorld(w, Position(0, 0))] && Centre(w, stored[0], Position(0, 0))
  }

  lemma NothingBelow(w: World, g: Grid, p: Position, next: Position, bound: int)
    requires bound <= 2
    ensures var l := LookAround(w, g, p, 9, Glance(next, bound));
      !l.found && l.next == next && l.bound == bound && (l.ended <==> Noticed(w, p))
  {
    RoundLooks(w, g, p, bound, next);
  }

  /** Then the way back leaves the robot for cell (0, 0): as the only way point if the robot touches the
      target, and otherwise to read outside the grid from there. */
  lemma HighCounterFails(w: World, s: Wave)
    requires 127 <= s.counter < 256 && !Outside(w.end) && w.capacity >= 1
    ensures var e := Run(w, s.grid, Start(w, s));
      if Noticed(w, w.end) then
        e.ended && e.path == [Position(0, 0)] && OnlyCorner(w, e.stored)
      else e.strayed
  {
    WayPointIsCentre(w, Position(0, 0));
    var tr := Start(w, s);
    BoundOfCounter(s.counter);
    NothingBelow(w, s.grid, w.end, tr.next, tr.bound);
    var tr' := Round(w, s.grid, tr);
    if !Noticed(w, w.end) {
      assert tr'.pos == Position(0, 0) && !tr'.ended && !tr'.failed;
      StraysIffOnRim(w, s.grid, tr'.pos, tr'.next, tr'.bound);
      var tr'' := Round(w, s.grid, tr');
      if !tr''.failed {
        StrayedRun(w, s.grid, tr'');
      }
    }
  }

  /** The first round chooses a neighbour of the robot exactly up to a counter of 126. */
  lemma FirstRoundFinds(w: World, g0: Grid, s: Wave)
    requires Ready(w, g0, s) && Read(w, g0, w.start) == 2 && !OnRim(w.end)
    ensures LookAround(w, s.grid, w.end, 9, Glance(Position(0, 0), ToInt8(s.counter + 1))).found <==> s.counter <= 126
  {
    BoundOfCounter(s.counter);
    if s.counter <= 126 {
      StartTraces(w, g0, s);
      var l := RoundChooses(w, g0, s, Start(w, s));
    } else {
      NothingBelow(w, s.grid, w.end, Position(0, 0), ToInt8(s.counter + 1));
    }
  }

  lemma LowCounterIsPath(w: World, g0: Grid, s: Wave)
    requires Open(w, g0, s)
    ensures var e := Run(w, s.grid, Start(w, s));
      e.ended && !e.strayed ==> PathFound(w, g0, e.path, e.stored)
  {
    var e := Run(w, s.grid, Start(w, s));
    StartTraces(w, g0, s);
    RunTraces(w, g0, s, Start(w, s));
    if e.ended && !e.strayed {
      EndedIsFound(w, g0, s, e);
    }
  }

  lemma OnlyOrigin(w: World, g0: Grid, stored: seq<Position>)
    requires OnlyCorner(w, stored) && King(w.end, Position(0, 0))
    ensures PathFound(w, g0, [Position(0, 0)], stored) <==> w.start == Position(0, 0)
  {
    assert AllToWorld(w, [Position(0, 0)]) == stored;
    if w.start == Position(0, 0) {
      DrawnIsCentred(w, [Position(0, 0)], stored);
    }
  }

  lemma HighCounterIsLuck(w: World, g0: Grid, s: Wave)
    requires Ready(w, g0, s) && s.counter >= 127
    ensures var e := Run(w, s.grid, Start(w, s));
      e.ended && !e.strayed ==> (PathFound(w, g0, e.path, e.stored) <==> w.start == Position(0, 0))
  {
    var e := Run(w, s.grid, Start(w, s));
    HighCounterFails(w, s);
    if e.ended && !e.strayed {
      if King(w.end, Position(0, 0)) {
        OnlyOrigin(w, g0, e.stored);
      }
    }
  }

  /** The outcome of the way back, for a wave of up to 252 fronts: when it reports success without having
      read outside the grid, it has found a path exactly if the counter was at most 126 - or, by luck, if
      the target is the cell (0, 0) it falls back to. */
  lemma SuccessIsPath(w: World, g0: Grid, s: Wave)
    requires Ready(w, g0, s) && Read(w, g0, w.start) == 2
    ensures var e := Run(w, s.grid, Start(w, s));
      e.ended && !e.strayed ==> (PathFound(w, g0, e.path, e.stored) <==> s.counter <= 126 || w.start == Position(0, 0))
  {
    if s.counter <= 126 {
      LowCounterIsPath(w, g0, s);
    } else {
      HighCounterIsLuck(w, g0, s);
    }
  }

  /** The way back never notices the target in the robot's own cell: a robot that already stands on its
      target is told that there is no path, whatever the wave has written. */
  lemma {:induction false} NoPathToOwnCell(w: World, g: Grid, tr: Trace)
    requires w.start == w.end && tr.rounds < MAX_WAVECOUNTER && !tr.ended
    ensures Run(w, g, tr).failed && !Run(w, g, tr).ended
    decreases MAX_WAVECOUNTER - tr.rounds
  {
    if !tr.failed {
      RoundLooks(w, g, tr.pos, tr.bound, tr.next);
      if !Round(w, g, tr).failed {
        NoPathToOwnCell(w, g, Round(w, g, tr));
      }
    }
  }

  /* ---- A hazard on the target ---- */

  /** The last way point is a labelled neighbour of p, or p again, or cell (0, 0) if p is the robot's cell. */
  predicate Substitute(w: World, g: Grid, tr: Trace, p: Position, last: Position) {
    || (King(p, last) && Compared(w, p, last) && Read(w, g, last) > 1)
    || last == p
    || (|tr.from| == 1 && last == Position(0, 0))
  }

  /** How the trace over a target without a label ends, if with success. */
  predicate EndsBeside(w: World, g: Grid, e: Trace) {
    e.ended ==>
      && e.from != [] && e.path != [] && King(e.from[|e.from| - 1], w.start)
      && Substitute(w, g, e, e.from[|e.from| - 1], e.path[|e.path| - 1])
  }

  /** The cell chosen last is the position, except at the very start. */
  predicate Stands(tr: Trace) {
    tr.next == tr.pos || (tr.from == [] && tr.next == Position(0, 0))
  }

  lemma HazardRound(w: World, g: Grid, tr: Trace)
    requires Read(w, g, w.start) <= 1 && Stands(tr)
    ensures EndsBeside(w, g, Round(w, g, tr))
    ensures !Round(w, g, tr).failed ==> Stands(Round(w, g, tr))
  {
    RoundLooks(w, g, tr.pos, tr.bound, tr.next);
  }

  /** When the target holds no label, the way back still ends next to it, but the last way point is not the
      target: it is the best neighbour compared before the target or else the cell chosen before. */
  lemma {:induction false} HazardOnTarget(w: World, g: Grid, tr: Trace)
    requires Read(w, g, w.start) <= 1 && tr.rounds < MAX_WAVECOUNTER && !tr.ended && Stands(tr)
    ensures EndsBeside(w, g, Run(w, g, tr))
    decreases MAX_WAVECOUNTER - tr.rounds
  {
    if !tr.failed {
      HazardRound(w, g, tr);
      var tr' := Round(w, g, tr);
      if !tr'.failed && !tr'.ended {
        HazardOnTarget(w, g, tr');
      }
    }
  }

  lemma VisitElsewhere(w: World, s: Wave, c: Position, q: Position)
    requires c != q
    ensures Read(w, Visit(w, s, c).grid, q) == Read(w, s.grid, q)
  {
  }

  /** Expanding p writes to no cell but its neighbours. */
  lemma {:induction false} ExpandElsewhere(w: World, s: Wave, p: Position, t: nat, q: Position)
    requires t <= 4 && !Adjacent(p, q)
    ensures Read(w, VisitUpTo(w, s, p, t).grid, q) == Read(w, s.grid, q)
  {
    if t > 0 {
      ExpandElsewhere(w, s, p, t - 1, q);
      VisitElsewhere(w, VisitUpTo(w, s, p, t - 1), Neighbour(p, t - 1), q);
    }
  }

  lemma {:induction false} EndNoticed(w: World, s: Wave, p: Position, t: nat)
    requires 1 <= t <= 4 && Neighbour(p, 0) == w.end && InRect(w, w.end)
    ensures VisitUpTo(w, s, p, t).ended
  {
    if t > 1 {
      EndNoticed(w, s, p, t - 1);
    } else {
      assert VisitUpTo(w, s, p, 1) == Visit(w, VisitUpTo(w, s, p, 0), Neighbour(p, 0));
    }
  }

  lemma {:induction false} HazardStays(w: World, s: Wave, p: Position, t: nat, q: Position)
    requires t <= 4 && Read(w, s.grid, q) != 0
    ensures Read(w, VisitUpTo(w, s, p, t).grid, q) == Read(w, s.grid, q)
  {
    if t > 0 {
      HazardStays(w, s, p, t - 1, q);
    }
  }

  lemma NothingQueuedButOrigin(w: World, s: Wave)
    requires Noticed(w, w.end) && w.capacity >= 1
    requires forall c :: King(w.end, c) && Compared(w, w.end, c) ==> Read(w, s.grid, c) <= 1
    ensures var e := Run(w, s.grid, Start(w, s));
      e.ended && OnlyCorner(w, e.stored)
  {
    WayPointIsCentre(w, Position(0, 0));
    RoundLooks(w, s.grid, w.end, ToInt8(s.counter + 1), Position(0, 0));
  }

  /** With hazards on the target and beside it, the wave reaches the robot in its first turn, the way back
      ends with success, and its only way point is the middle of cell (0, 0). */
  lemma HazardExample(w: World, g0: Grid, found: bool)
    requires Sound(w) && w.start == Position(10, 10) && w.end == Position(10, 9) && InRect(w, w.end)
    requires forall c :: !Outside(c) ==> 0 <= Read(w, g0, c) <= 1
    requires Read(w, g0, Position(10, 10)) == 1 && Read(w, g0, Position(9, 10)) == 1
    ensures var s := Step(w, Begin(w, g0, 2, found));
      var e := Run(w, s.grid, Start(w, s));
      s.ended && e.ended && OnlyCorner(w, e.stored)
  {
    var s1 := Begin(w, g0, 2, found).(queue := [FRONT_MARK]);
    var s := VisitUpTo(w, s1, w.start, 4);
    assert s == Step(w, Begin(w, g0, 2, found)) by {
      assert Begin(w, g0, 2, found).queue[1..] == [FRONT_MARK];
    }
    EndNoticed(w, s1, w.start, 4);
    forall c | King(w.end, c) && Compared(w, w.end, c)
      ensures Read(w, s.grid, c) <= 1
    {
      HazardCells(w, s1, c);
    }
    NothingQueuedButOrigin(w, s);
  }

  lemma HazardCells(w: World, s: Wave, c: Position)
    requires w.start == Position(10, 10) && w.end == Position(10, 9)
    requires Read(w, s.grid, Position(10, 10)) == 1 && Read(w, s.grid, Position(9, 10)) == 1
    requires King(w.end, c) && Index(w.end, c) <= Index(w.end, w.start) && Read(w, s.grid, c) <= 1
    ensures Read(w, VisitUpTo(w, s, w.start, 4).grid, c) <= 1
  {
    if c == Position(9, 10) || c == w.start {
      HazardStays(w, s, w.start, 4, c);
    } else {
      ExpandElsewhere(w, s, w.start, 4, c);
    }
  }
}
