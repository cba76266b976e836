/** The line-maze explorer of behaviour_line_shortest_way.c: what it decides at a crossing, and what comes
    of it when the lines form a tree. */
module LineMaze {
  import opened CInt
  import opened PosStore

  /** What a line leads to: a line end, the goal, or an X-crossing with three more arms. */
  datatype Maze = DeadEnd | Goal | Crossing(left: Maze, ahead: Maze, right: Maze)

  /** Turns at a crossing, in quarters to the left. */
  const LEFT := 1
  const STRAIGHT := 0
  const RIGHT := -1

  /** The memory of the behaviour: directions taken at the crossings, and whether it drives back. */
  datatype Memory = Memory(stack: seq<int>, wayBack: bool)

  datatype Decision = Turn(memory: Memory, quarters: int) | Stop(memory: Memory)

  /** State TURN_SIDEWISH_ON_CROSSING while searching (go_stack_way is off). */
  function Search(m: Memory, capacity: nat): Decision {
    var n := |m.stack|;
    if m.wayBack then
      if n == 0 then Stop(m)
      else if m.stack[n - 1] + 1 <= 3 then Turn(Memory(m.stack[..n - 1] + [m.stack[n - 1] + 1], false), LEFT)
      else Turn(Memory(m.stack[..n - 1], true), LEFT)
    else
      Turn(Memory(if n < capacity then m.stack + [1] else m.stack, false), LEFT)
  }

  /** The same state while the stored way is driven (go_stack_way is on). `side` is the turn the variable
      sidewish asks for so far. */
  function Follow(m: Memory, side: int): Decision {
    var n := |m.stack|;
    if n == 0 then Stop(m)
    else if m.wayBack then
      var dir := m.stack[n - 1];
      Turn(Memory(m.stack[..n - 1], true), if dir == 1 then RIGHT else if dir == 3 then LEFT else if dir == 2 then STRAIGHT else side)
    else
      var dir := m.stack[0];
      Turn(Memory(m.stack[1..], false), if dir == 1 then LEFT else if dir == 3 then RIGHT else if dir == 2 then STRAIGHT else side)
  }

  /* ---- The robot in the maze ---- */

  /** A place is named by the arms taken from the start: 1 left, 2 ahead, 3 right of the direction in which
      a crossing is first reached; side 0 is where one came from. */
  type Path = seq<int>

  predicate IsPlace(m: Maze, p: Path)
    decreases |p|
  {
    p == [] || (m.Crossing? && 1 <= p[0] <= 3 && IsPlace(Arm(m, p[0]), p[1..]))
  }

  function Arm(m: Maze, k: int): Maze
    requires m.Crossing?
  {
    if k == 1 then m.left else if k == 2 then m.ahead else m.right
  }

  function Node(m: Maze, p: Path): Maze
    requires IsPlace(m, p)
    decreases |p|
  {
    if p == [] then m else Node(Arm(m, p[0]), p[1..])
  }

  /** Driving in through one side and turning by quarters to the left leads out through this side; sides
      count clockwise from where the crossing was first reached. */
  function ExitSide(side: int, quarters: int): int {
    (side + 2 - quarters) % 4
  }

  /** The robot drives towards the place `at` and will come in through `side`; `seen` lists the places it
      reached for the first time. */
  datatype Drive = Drive(at: Path, side: int, memory: Memory, seen: seq<Path>)
                 | AtGoal(at: Path, memory: Memory, seen: seq<Path>)
                 | GaveUp(memory: Memory, seen: seq<Path>)

  /** Leaving a place through a side. Behind the first place lies the start of the line, where the robot
      turns round, which sets way_back. */
  function Leave(at: Path, side: int, memory: Memory, seen: seq<Path>): Drive {
    if side != 0 then Drive(at + [side], 0, memory, seen)
    else if at == [] then Drive([], 0, memory.(wayBack := true), seen)
    else Drive(at[..|at| - 1], at[|at| - 1], memory, seen)
  }

  /** One place further while searching. */
  function Step(m: Maze, capacity: nat, d: Drive): Drive
    requires d.Drive? ==> IsPlace(m, d.at)
  {
    if !d.Drive? then d
    else
      var seen := if d.side == 0 && !d.memory.wayBack then d.seen + [d.at] else d.seen;
      match Node(m, d.at)
      case Goal => AtGoal(d.at, d.memory, seen)
      case DeadEnd => Leave(d.at, 0, d.memory.(wayBack := true), seen)
      case Crossing(_, _, _) =>
        match Search(d.memory, capacity)
        case Stop(memory) => GaveUp(memory, seen)
        case Turn(memory, quarters) => Leave(d.at, ExitSide(d.side, quarters), memory, seen)
  }

  /** d leads to d' in n steps, never leaving the maze. */
  predicate Steps(m: Maze, capacity: nat, d: Drive, n: nat, d': Drive)
    decreases n
  {
    if n == 0 then d == d'
    else d.Drive? && IsPlace(m, d.at) && Steps(m, capacity, Step(m, capacity, d), n - 1, d')
  }

  /* ---- The reference: depth-first search on the tree ---- */

  predicate HasGoal(m: Maze)
    decreases m, 4
  {
    m.Goal? || (m.Crossing? && HasGoalFrom(m, 1))
  }

  /** One of the arms k..3 of a crossing leads to a goal. */
  predicate HasGoalFrom(m: Maze, k: int)
    requires m.Crossing? && 1 <= k <= 4
    decreases m, 4 - k
  {
    k <= 3 && (HasGoal(Arm(m, k)) || HasGoalFrom(m, k + 1))
  }

  /** The way to the first goal in the order left, ahead, right. */
  function GoalWay(m: Maze): (p: Path)
    requires HasGoal(m)
    ensures IsPlace(m, p) && Node(m, p).Goal?
    decreases m, 4
  {
    if m.Goal? then [] else GoalWayFrom(m, 1)
  }

  function GoalWayFrom(m: Maze, k: int): (p: Path)
    requires m.Crossing? && 1 <= k <= 4 && HasGoalFrom(m, k)
    ensures IsPlace(m, p) && Node(m, p).Goal?
    decreases m, 4 - k
  {
    if HasGoal(Arm(m, k)) then [k] + GoalWay(Arm(m, k)) else GoalWayFrom(m, k + 1)
  }

  /** The places of the tree under `at` in depth-first order, up to the first goal. */
  function Explored(m: Maze, at: Path): seq<Path>
    decreases m, 4
  {
    [at] + if m.Crossing? then ExploredFrom(m, at, 1) else []
  }

  function ExploredFrom(m: Maze, at: Path, k: int): seq<Path>
    requires m.Crossing? && 1 <= k <= 4
    decreases m, 4 - k
  {
    if k > 3 then []
    else Explored(Arm(m, k), at + [k]) + if HasGoal(Arm(m, k)) then [] else ExploredFrom(m, at, k + 1)
  }

  /** The number of crossings on the longest way explored before the first goal is found. */
  function ExploredDepth(m: Maze): nat
    decreases m, 4
  {
    if m.Crossing? then 1 + ExploredDepthFrom(m, 1) else 0
  }

  function ExploredDepthFrom(m: Maze, k: int): nat
    requires m.Crossing? && 1 <= k <= 4
    decreases m, 4 - k
  {
    if k > 3 then 0
    else Max(ExploredDepth(Arm(m, k)), if HasGoal(Arm(m, k)) then 0 else ExploredDepthFrom(m, k + 1))
  }

  /* ---- Runs ---- */

  lemma {:induction false} StepsCompose(m: Maze, capacity: nat, d: Drive, i: nat, e: Drive, j: nat, f: Drive)
    requires Steps(m, capacity, d, i, e) && Steps(m, capacity, e, j, f)
    ensures Steps(m, capacity, d, i + j, f)
    decreases i
  {
    if i > 0 {
      StepsRest(m, capacity, d, i, e);
      StepsCompose(m, capacity, Step(m, capacity, d), i - 1, e, j, f);
      StepsFirst(m, capacity, d, Step(m, capacity, d), i - 1 + j, f);
    }
  }

  lemma StepsRest(m: Maze, capacity: nat, d: Drive, n: nat, f: Drive)
    requires n > 0 && Steps(m, capacity, d, n, f)
    ensures d.Drive? && IsPlace(m, d.at) && Steps(m, capacity, Step(m, capacity, d), n - 1, f)
  {
  }

  lemma StepsFirst(m: Maze, capacity: nat, d: Drive, next: Drive, n: nat, f: Drive)
    requires d.Drive? && IsPlace(m, d.at) && next == Step(m, capacity, d) && Steps(m, capacity, next, n, f)
    ensures Steps(m, capacity, d, n + 1, f)
  {
  }

  /** Driving on from d comes to f. */
  ghost predicate Reaches(m: Maze, capacity: nat, d: Drive, f: Drive) {
    exists n: nat :: Steps(m, capacity, d, n, f)
  }

  lemma OneStep(m: Maze, capacity: nat, d: Drive)
    requires d.Drive? && IsPlace(m, d.at)
    ensures Reaches(m, capacity, d, Step(m, capacity, d))
  {
    assert Steps(m, capacity, Step(m, capacity, d), 0, Step(m, capacity, d));
    assert Steps(m, capacity, d, 1, Step(m, capacity, d));
  }

  lemma DriveOn(m: Maze, capacity: nat, d: Drive, e: Drive, f: Drive)
    requires Reaches(m, capacity, d, e) && Reaches(m, capacity, e, f)
    ensures Reaches(m, capacity, d, f)
  {
    var i: nat :| Steps(m, capacity, d, i, e);
    var j: nat :| Steps(m, capacity, e, j, f);
    StepsCompose(m, capacity, d, i, e, j, f);
  }

  lemma {:induction false} PlaceExtends(m: Maze, p: Path, k: int)
    requires IsPlace(m, p) && Node(m, p).Crossing? && 1 <= k <= 3
    ensures IsPlace(m, p + [k]) && Node(m, p + [k]) == Arm(Node(m, p), k)
    decreases |p|
  {
    if p == [] {
      assert IsPlace(Arm(m, k), (p + [k])[1..]);
    } else {
      PlaceExtends(Arm(m, p[0]), p[1..], k);
      assert (p + [k])[1..] == p[1..] + [k];
    }
  }

  /** The reference means what it says: there is a goal exactly if some place is one, */
  lemma HasGoalMeaning(m: Maze)
    ensures HasGoal(m) <==> exists p: Path :: IsPlace(m, p) && Node(m, p).Goal?
  {
    if HasGoal(m) {
      var way := GoalWay(m);
      assert IsPlace(m, way) && Node(m, way).Goal?;
    }
    forall p: Path | IsPlace(m, p) && Node(m, p).Goal?
      ensures HasGoal(m)
    {
      GoalAt(m, p);
    }
  }

  lemma {:induction false} GoalAt(m: Maze, p: Path)
    requires IsPlace(m, p) && Node(m, p).Goal?
    ensures HasGoal(m)
    decreases |p|
  {
    if p != [] {
      GoalAt(Arm(m, p[0]), p[1..]);
      ArmGoal(m, p[0]);
    }
  }

  lemma ArmGoal(m: Maze, k: int)
    requires m.Crossing? && 1 <= k <= 3 && HasGoal(Arm(m, k))
    ensures HasGoal(m)
  {
    assert k >= 3 ==> HasGoalFrom(m, 3);
    assert k >= 2 ==> HasGoalFrom(m, 2);
    assert HasGoalFrom(m, 1);
  }

  /** and without a goal every place is explored. */
  lemma {:induction false} ExploredComplete(m: Maze, at: Path, p: Path)
    requires !HasGoal(m) && IsPlace(m, p)
    ensures at + p in Explored(m, at)
    decreases m, 4
  {
    if p == [] {
      assert at + [] == at;
    } else {
      ExploredArm(m, at, 1, p);
    }
  }

  lemma {:induction false} ExploredArm(m: Maze, at: Path, k: int, p: Path)
    requires m.Crossing? && 1 <= k <= 3 && !HasGoalFrom(m, k) && p != [] && IsPlace(m, p) && k <= p[0]
    ensures at + p in ExploredFrom(m, at, k)
    decreases m, 4 - k
  {
    if p[0] == k {
      ExploredComplete(Arm(m, k), at + [k], p[1..]);
      assert at + [k] + p[1..] == at + p;
    } else {
      ExploredArm(m, at, k + 1, p);
    }
  }

  /* ---- Driving the stored way ---- */

  /** One place further while following the stored way. */
  function FollowStep(m: Maze, side: int, d: Drive): Drive
    requires d.Drive? ==> IsPlace(m, d.at)
  {
    if !d.Drive? then d
    else
      match Node(m, d.at)
      case Goal => AtGoal(d.at, d.memory, d.seen)
      case DeadEnd => Leave(d.at, 0, d.memory.(wayBack := true), d.seen)
      case Crossing(_, _, _) =>
        match Follow(d.memory, side)
        case Stop(memory) => GaveUp(memory, d.seen)
        case Turn(memory, quarters) => Leave(d.at, ExitSide(d.side, quarters), memory, d.seen)
  }

  predicate FollowSteps(m: Maze, side: int, d: Drive, n: nat, d': Drive)
    decreases n
  {
    if n == 0 then d == d'
    else d.Drive? && IsPlace(m, d.at) && FollowSteps(m, side, FollowStep(m, side, d), n - 1, d')
  }

  /** Inner places of a way are crossings. */
  lemma {:induction false} WayInside(m: Maze, p: Path, i: nat)
    requires IsPlace(m, p) && i < |p|
    ensures IsPlace(m, p[..i]) && Node(m, p[..i]).Crossing? && 1 <= p[i] <= 3
    decreases |p|
  {
    if i > 0 {
      WayInside(Arm(m, p[0]), p[1..], i - 1);
      assert p[..i][1..] == p[1..][..i - 1];
    }
  }

  /** Taking the directions from the front drives from the start to the goal along exactly this way. */
  lemma {:induction false} ForwardReplay(m: Maze, side: int, p: Path, i: nat, seen: seq<Path>)
    requires IsPlace(m, p) && Node(m, p).Goal? && i <= |p|
    ensures FollowSteps(m, side, Drive(p[..i], 0, Memory(p[i..], false), seen), |p| - i + 1,
                        AtGoal(p, Memory([], false), seen))
    decreases |p| - i
  {
    var d := Drive(p[..i], 0, Memory(p[i..], false), seen);
    if i == |p| {
      assert p[..i] == p && p[i..] == [];
      assert FollowSteps(m, side, FollowStep(m, side, d), 0, AtGoal(p, Memory([], false), seen));
    } else {
      WayInside(m, p, i);
      assert p[i..][1..] == p[i + 1..] && p[..i] + [p[i]] == p[..i + 1];
      assert FollowStep(m, side, d) == Drive(p[..i + 1], 0, Memory(p[i + 1..], false), seen);
      ForwardReplay(m, side, p, i + 1, seen);
    }
  }

  /** Taking them from the back with left and right swapped drives from the goal back to the start. */
  lemma {:induction false} BackwardReplay(m: Maze, side: int, p: Path, i: nat, seen: seq<Path>)
    requires IsPlace(m, p) && i <= |p|
    ensures FollowSteps(m, side, Leave(p[..i], 0, Memory(p[..i], true), seen), i,
                        Leave([], 0, Memory([], true), seen))
  {
    if i > 0 {
      WayInside(m, p, i - 1);
      var d := Leave(p[..i], 0, Memory(p[..i], true), seen);
      assert p[..i][..i - 1] == p[..i - 1] && p[..i][i - 1] == p[i - 1];
      assert d == Drive(p[..i - 1], p[i - 1], Memory(p[..i], true), seen);
      assert FollowStep(m, side, d) == Leave(p[..i - 1], 0, Memory(p[..i - 1], true), seen);
      BackwardReplay(m, side, p, i - 1, seen);
    }
  }
}
