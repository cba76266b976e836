/** Searching the line maze is depth-first search exactly if the explored part is no deeper than the stack. */
module LineTour {
  import opened CInt
  import opened PosStore
  import opened LineMaze

  /* ---- The tour: turning left everywhere, whatever the memory holds ---- */

  /** How a visit of a subtree ends: the robot leaves it again, or the behaviour ends inside. */
  datatype Pass = Out(memory: Memory, seen: seq<Path>) | Final(end: Drive)

  function SeenOf(p: Pass): seq<Path> {
    match p
    case Out(_, seen) => seen
    case Final(end) => end.seen
  }

  /** A visit of the subtree t at the place `at`, coming from side 0. */
  function Walk(t: Maze, at: Path, capacity: nat, memory: Memory, seen: seq<Path>): (p: Pass)
    ensures p.Final? ==> !p.end.Drive?
    decreases t, 4
  {
    var seen' := if memory.wayBack then seen else seen + [at];
    match t
    case Goal => Final(AtGoal(at, memory, seen'))
    case DeadEnd => Out(memory.(wayBack := true), seen')
    case Crossing(_, _, _) => From(t, at, capacity, 0, memory, seen')
  }

  /** The same from an arrival at its first crossing on. */
  function From(t: Maze, at: Path, capacity: nat, side: int, memory: Memory, seen: seq<Path>): (p: Pass)
    requires t.Crossing? && 0 <= side <= 3
    ensures p.Final? ==> !p.end.Drive?
    decreases t, 3 - side, 0
  {
    match Search(memory, capacity)
    case Stop(memory') => Final(GaveUp(memory', seen))
    case Turn(memory', _) =>
      if side == 3 then Out(memory', seen)
      else Onward(t, at, capacity, side + 1, Walk(Arm(t, side + 1), at + [side + 1], capacity, memory', seen))
  }

  /** After the visit p of arm k. */
  function Onward(t: Maze, at: Path, capacity: nat, k: int, p: Pass): (next: Pass)
    requires t.Crossing? && 1 <= k <= 3
    ensures (p.Final? ==> !p.end.Drive?) && next.Final? ==> !next.end.Drive?
    decreases t, 3 - k, 1
  {
    match p
    case Final(_) => p
    case Out(memory, seen) => From(t, at, capacity, k, memory, seen)
  }

  /** What the robot does next. */
  function EndOf(at: Path, p: Pass): Drive {
    match p
    case Out(memory, seen) => Leave(at, 0, memory, seen)
    case Final(end) => end
  }

  lemma {:induction false} WalkIsDriven(m: Maze, at: Path, capacity: nat, memory: Memory, seen: seq<Path>)
    requires IsPlace(m, at)
    ensures Reaches(m, capacity, Drive(at, 0, memory, seen), EndOf(at, Walk(Node(m, at), at, capacity, memory, seen)))
    decreases Node(m, at), 4, 0
  {
    if Node(m, at).Crossing? {
      FromIsDriven(m, at, capacity, 0, memory, seen, if memory.wayBack then seen else seen + [at]);
    } else {
      OneStep(m, capacity, Drive(at, 0, memory, seen));
    }
  }

  lemma {:induction false} FromIsDriven(m: Maze, at: Path, capacity: nat, side: int, memory: Memory,
                                        before: seq<Path>, seen: seq<Path>)
    requires IsPlace(m, at) && Node(m, at).Crossing? && 0 <= side <= 3
    requires seen == if side == 0 && !memory.wayBack then before + [at] else before
    ensures Reaches(m, capacity, Drive(at, side, memory, before),
                    EndOf(at, From(Node(m, at), at, capacity, side, memory, seen)))
    decreases Node(m, at), 3 - side, 1
  {
    var d, t := Drive(at, side, memory, before), Node(m, at);
    OneStep(m, capacity, d);
    if !Search(memory, capacity).Stop? && side < 3 {
      var k, memory' := side + 1, Search(memory, capacity).memory;
      assert Step(m, capacity, d) == Drive(at + [k], 0, memory', seen);
      PlaceExtends(m, at, k);
      WalkIsDriven(m, at + [k], capacity, memory', seen);
      var p := Walk(Arm(t, k), at + [k], capacity, memory', seen);
      DriveOn(m, capacity, d, Drive(at + [k], 0, memory', seen), EndOf(at + [k], p));
      assert From(t, at, capacity, side, memory, seen) == Onward(t, at, capacity, k, p);
      if p.Out? {
        assert (at + [k])[..|at|] == at;
        FromIsDriven(m, at, capacity, k, p.memory, p.seen, p.seen);
        DriveOn(m, capacity, d, EndOf(at + [k], p), EndOf(at, From(t, at, capacity, k, p.memory, p.seen)));
      }
    }
  }

  /* ---- Places are only added to the list ---- */

  lemma {:induction false} WalkGrows(t: Maze, at: Path, capacity: nat, memory: Memory, seen: seq<Path>)
    ensures (if memory.wayBack then seen else seen + [at]) <= SeenOf(Walk(t, at, capacity, memory, seen))
    decreases t, 4, 0
  {
    if t.Crossing? {
      FromGrows(t, at, capacity, 0, memory, if memory.wayBack then seen else seen + [at]);
    }
  }

  lemma {:induction false} FromGrows(t: Maze, at: Path, capacity: nat, side: int, memory: Memory, seen: seq<Path>)
    requires t.Crossing? && 0 <= side <= 3
    ensures seen <= SeenOf(From(t, at, capacity, side, memory, seen))
    decreases t, 3 - side, 1
  {
    if !Search(memory, capacity).Stop? && side < 3 {
      var memory' := Search(memory, capacity).memory;
      WalkGrows(Arm(t, side + 1), at + [side + 1], capacity, memory', seen);
      var p := Walk(Arm(t, side + 1), at + [side + 1], capacity, memory', seen);
      if p.Out? {
        FromGrows(t, at, capacity, side + 1, p.memory, p.seen);
      }
    }
  }

  /* ---- As long as the stack has room ---- */

  /** The visit of a subtree whose explored part fits on the stack: the first goal in depth-first order with
      the way to it on the stack, or the way out with the stack as it was. */
  lemma {:induction false} ExploreTree(t: Maze, at: Path, capacity: nat, q: seq<int>, seen: seq<Path>)
    requires |q| + ExploredDepth(t) <= capacity
    ensures Walk(t, at, capacity, Memory(q, false), seen) ==
      if HasGoal(t) then Final(AtGoal(at + GoalWay(t), Memory(q + GoalWay(t), false), seen + Explored(t, at)))
      else Out(Memory(q, true), seen + Explored(t, at))
    decreases t, 4, 0
  {
    if t.Crossing? {
      ExploreArms(t, at, capacity, 1, q, seen + [at]);
      assert seen + Explored(t, at) == (seen + [at]) + ExploredFrom(t, at, 1);
    } else {
      assert at + [] == at && q + [] == q && Explored(t, at) == [at] + [] == [at];
    }
  }

  /** The memory with which arm k of a crossing is taken: for the first time, or back from arm k - 1. */
  function Before(q: seq<int>, k: int): Memory {
    if k == 1 then Memory(q, false) else Memory(q + [k - 1], true)
  }

  /** Counting up and always turning left takes the arms one after the other, then the way back. */
  lemma CountedUp(q: seq<int>, k: int, capacity: nat)
    requires 1 <= k <= 4 && |q| < capacity
    ensures Search(Before(q, k), capacity) == Turn(if k <= 3 then Memory(q + [k], false) else Memory(q, true), LEFT)
  {
    var stack := q + [k - 1];
    assert stack[|q|] == k - 1 && stack[..|q|] == q;
  }

  /** What exploring the arms from k on comes to. */
  function Arms(t: Maze, at: Path, k: int, q: seq<int>, seen: seq<Path>): Pass
    requires t.Crossing? && 1 <= k <= 4
  {
    if HasGoalFrom(t, k) then
      Final(AtGoal(at + GoalWayFrom(t, k), Memory(q + GoalWayFrom(t, k), false), seen + ExploredFrom(t, at, k)))
    else Out(Memory(q, true), seen + ExploredFrom(t, at, k))
  }

  lemma ArmThenRest(t: Maze, at: Path, k: int, q: seq<int>, seen: seq<Path>)
    requires t.Crossing? && 1 <= k <= 3
    ensures var arm := Arm(t, k);
      Arms(t, at, k, q, seen) == if HasGoal(arm)
        then Final(AtGoal(at + [k] + GoalWay(arm), Memory(q + [k] + GoalWay(arm), false), seen + Explored(arm, at + [k])))
        else Arms(t, at, k + 1, q, seen + Explored(arm, at + [k]))
  {
    var arm := Arm(t, k);
    if HasGoal(arm) {
      assert at + [k] + GoalWay(arm) == at + ([k] + GoalWay(arm));
      assert q + [k] + GoalWay(arm) == q + ([k] + GoalWay(arm));
      assert ExploredFrom(t, at, k) == Explored(arm, at + [k]);
    } else {
      assert seen + Explored(arm, at + [k]) + ExploredFrom(t, at, k + 1) == seen + ExploredFrom(t, at, k);
    }
  }

  lemma {:induction false} ExploreArms(t: Maze, at: Path, capacity: nat, k: int, q: seq<int>, seen: seq<Path>)
    requires t.Crossing? && 1 <= k <= 4 && |q| + 1 + ExploredDepthFrom(t, k) <= capacity
    ensures From(t, at, capacity, k - 1, Before(q, k), seen) == Arms(t, at, k, q, seen)
    decreases t, 4 - k, 1
  {
    CountedUp(q, k, capacity);
    if k == 4 {
      assert seen + [] == seen;
    } else {
      var arm := Arm(t, k);
      ExploreTree(arm, at + [k], capacity, q + [k], seen);
      ArmThenRest(t, at, k, q, seen);
      if !HasGoal(arm) {
        ExploreArms(t, at, capacity, k + 1, q, seen + Explored(arm, at + [k]));
      }
    }
  }

  /* ---- Once a place was passed without being noticed ---- */

  /** The list cannot become `all` any more. */
  predicate Fails(p: Pass, all: seq<Path>) {
    !(SeenOf(p) <= all) || (p.Final? && SeenOf(p) != all)
  }

  /** The list is a beginning of `all`, whose next place is x. */
  predicate Missing(seen: seq<Path>, all: seq<Path>, x: Path) {
    |seen| < |all| && seen <= all && all[|seen|] == x
  }

  /** The stack is short, or a 1 has just been pushed on the way up. */
  predicate Low(m: Memory, n: int) {
    |m.stack| <= n || (!m.wayBack && m.stack != [] && m.stack[|m.stack| - 1] == 1)
  }

  lemma WrongNext(seen: seq<Path>, all: seq<Path>, x: Path, y: Path, more: seq<Path>)
    requires Missing(seen, all, x) && y != x && seen + [y] <= more
    ensures !(more <= all)
  {
    assert more[|seen|] == (seen + [y])[|seen|] == y;
  }

  lemma BrokenStays(seen: seq<Path>, more: seq<Path>, all: seq<Path>)
    requires !(seen <= all) && seen <= more
    ensures !(more <= all)
  {
    if more <= all {
      PrefixOfPrefix(seen, more, all);
    }
  }

  lemma PrefixOfPrefix(a: seq<Path>, b: seq<Path>, c: seq<Path>)
    requires a <= b && b <= c
    ensures a <= c
  {
  }

  lemma FromFails(t: Maze, at: Path, capacity: nat, k: int, p: Pass, all: seq<Path>)
    requires t.Crossing? && 1 <= k <= 3 && Fails(p, all)
    ensures Fails(Onward(t, at, capacity, k, p), all)
  {
    if p.Out? {
      FromGrows(t, at, capacity, k, p.memory, p.seen);
      BrokenStays(p.seen, SeenOf(From(t, at, capacity, k, p.memory, p.seen)), all);
    }
  }

  /** A visit off the way to x, entered on the way back, notices no place or a wrong one. */
  lemma {:induction false} QuietTree(t: Maze, at: Path, capacity: nat, memory: Memory, seen: seq<Path>,
                                     all: seq<Path>, x: Path, n: int)
    requires Missing(seen, all, x) && !(at < x) && memory.wayBack && |memory.stack| <= n
    ensures var p := Walk(t, at, capacity, memory, seen);
      Fails(p, all) || (p.Out? && p.seen == seen && Low(p.memory, n))
    decreases t, 4, 0
  {
    if t.Crossing? {
      forall j | 0 < j <= 3
        ensures !(at + [j] <= x)
      {
        assert at + [j] <= x ==> at < x;
      }
      QuietFrom(t, at, capacity, 0, memory, seen, all, x, n);
    }
  }

  lemma {:induction false} QuietFrom(t: Maze, at: Path, capacity: nat, side: int, memory: Memory, seen: seq<Path>,
                                     all: seq<Path>, x: Path, n: int)
    requires t.Crossing? && 0 <= side <= 3 && Missing(seen, all, x) && Low(memory, n)
    requires forall j :: side < j <= 3 ==> !(at + [j] <= x)
    ensures var p := From(t, at, capacity, side, memory, seen);
      Fails(p, all) || (p.Out? && p.seen == seen && Low(p.memory, n))
    decreases t, 3 - side, 1
  {
    if !Search(memory, capacity).Stop? {
      var memory' := Search(memory, capacity).memory;
      SearchStaysLow(memory, capacity, n);
      if side < 3 {
        var k := side + 1;
        var p := Walk(Arm(t, k), at + [k], capacity, memory', seen);
        if memory'.wayBack {
          QuietTree(Arm(t, k), at + [k], capacity, memory', seen, all, x, n);
        } else {
          WalkGrows(Arm(t, k), at + [k], capacity, memory', seen);
          WrongNext(seen, all, x, at + [k], SeenOf(p));
        }
        if Fails(p, all) {
          FromFails(t, at, capacity, k, p, all);
        } else {
          QuietFrom(t, at, capacity, k, p.memory, seen, all, x, n);
        }
      }
    }
  }

  lemma SearchStaysLow(memory: Memory, capacity: nat, n: int)
    requires Low(memory, n) && !Search(memory, capacity).Stop?
    ensures var memory' := Search(memory, capacity).memory;
      Low(memory', n) && (memory'.wayBack ==> |memory'.stack| <= n - 1)
  {
  }

  /* ---- Once the stack was too small ---- */

  predicate Positive(q: seq<int>) {
    forall i :: 0 <= i < |q| ==> q[i] >= 1
  }

  /** Only ones from n on. */
  predicate Ones(q: seq<int>, n: nat) {
    n < |q| && forall i :: n <= i < |q| ==> q[i] == 1
  }

  /** Some place in the subtree at `at`, not the first arm of its crossing, was passed without being noticed. */
  ghost predicate Skipped(p: Pass, at: Path, all: seq<Path>) {
    p.Out? && exists x: Path :: Missing(p.seen, all, x) && Later(at, x) && Low(p.memory, |x| - 2)
  }

  predicate Later(at: Path, x: Path) {
    at < x && x[|x| - 1] >= 2
  }

  ghost predicate Derailed(p: Pass, at: Path, all: seq<Path>) {
    Fails(p, all) || Skipped(p, at, all)
  }

  /** At the goal with a stack shorter than the way. */
  predicate Short(p: Pass, n: nat) {
    p.Final? && p.end.AtGoal? && |p.end.memory.stack| < n
  }

  /** Out again with less on the stack than before: some ones are lost. */
  predicate Lost(p: Pass, q: seq<int>, n: nat, seen: seq<Path>) {
    Ones(q, n) && p == Out(Memory(q[..n], true), seen)
  }

  ghost predicate Loses(p: Pass, q: seq<int>, seen: seq<Path>) {
    exists n: nat :: Lost(p, q, n, seen)
  }

  /** What can come of a visit that began with the stack q, too long for what is explored. */
  ghost predicate Overrun(p: Pass, t: Maze, at: Path, q: seq<int>, seen: seq<Path>, all: seq<Path>) {
    || Derailed(p, at, all)
    || (HasGoal(t) && Short(p, |q| + |GoalWay(t)|))
    || (!HasGoal(t) && Loses(p, q, seen + Explored(t, at)))
  }

  /** The same for the arms behind arm k. */
  ghost predicate OverrunFrom(p: Pass, t: Maze, at: Path, k: int, q: seq<int>, seen: seq<Path>, all: seq<Path>)
    requires t.Crossing? && 1 <= k <= 4
  {
    || Derailed(p, at, all)
    || (HasGoalFrom(t, k) && Short(p, |q| + |GoalWayFrom(t, k)|))
    || (!HasGoalFrom(t, k) && Loses(p, q, seen + ExploredFrom(t, at, k)))
  }

  /** A derailed visit of arm k derails the visit of the crossing. */
  lemma DerailedOn(t: Maze, at: Path, capacity: nat, k: int, p: Pass, all: seq<Path>)
    requires t.Crossing? && 1 <= k <= 3 && Derailed(p, at + [k], all)
    ensures Derailed(Onward(t, at, capacity, k, p), at, all)
  {
    if Fails(p, all) {
      FromFails(t, at, capacity, k, p, all);
    } else {
      var x: Path :| Missing(p.seen, all, x) && Later(at + [k], x) && Low(p.memory, |x| - 2);
      SkippedOn(t, at, capacity, k, p, all, x);
    }
  }

  lemma ArmOf(at: Path, k: int, x: Path)
    requires at + [k] <= x
    ensures |x| > |at| && x[|at|] == k
  {
    assert x[|at|] == (at + [k])[|at|];
  }

  lemma SkippedOn(t: Maze, at: Path, capacity: nat, k: int, p: Pass, all: seq<Path>, x: Path)
    requires t.Crossing? && 1 <= k <= 3 && p.Out? && at + [k] <= x && x[|x| - 1] >= 2
    requires Missing(p.seen, all, x) && Low(p.memory, |x| - 2)
    ensures Derailed(Onward(t, at, capacity, k, p), at, all)
  {
    ArmOf(at, k, x);
    forall j | k < j <= 3
      ensures !(at + [j] <= x)
    {
      if at + [j] <= x {
        ArmOf(at, j, x);
      }
    }
    QuietFrom(t, at, capacity, k, p.memory, p.seen, all, x, |x| - 2);
    assert at < x by {
      assert (at + [k])[..|at|] == at && x[..|at|] == at;
    }
  }

  /** Arm k is taken on the way back: its place is passed without being noticed. */
  lemma Passed(t: Maze, at: Path, capacity: nat, k: int, memory: Memory, seen: seq<Path>, all: seq<Path>)
    requires t.Crossing? && 2 <= k <= 3 && memory.wayBack && |memory.stack| < |at|
    requires seen + ExploredFrom(t, at, k) <= all
    ensures var p := Walk(Arm(t, k), at + [k], capacity, memory, seen);
      Derailed(Onward(t, at, capacity, k, p), at, all)
  {
    var x := at + [k];
    var p := Walk(Arm(t, k), x, capacity, memory, seen);
    NextIsMissing(t, at, k, seen, all);
    QuietTree(Arm(t, k), x, capacity, memory, seen, all, x, |x| - 2);
    if Fails(p, all) {
      FromFails(t, at, capacity, k, p, all);
    } else {
      SkippedOn(t, at, capacity, k, p, all, x);
    }
  }

  lemma NextIsMissing(t: Maze, at: Path, k: int, seen: seq<Path>, all: seq<Path>)
    requires t.Crossing? && 1 <= k <= 3 && seen + ExploredFrom(t, at, k) <= all
    ensures Missing(seen, all, at + [k])
  {
    var arm := Explored(Arm(t, k), at + [k]);
    assert arm[0] == at + [k];
    assert ExploredFrom(t, at, k)[0] == arm[0];
    assert (seen + ExploredFrom(t, at, k))[|seen|] == at + [k];
    PrefixOfPrefix(seen, seen + ExploredFrom(t, at, k), all);
  }

  lemma ArmIsPrefix(t: Maze, at: Path, k: int, seen: seq<Path>, all: seq<Path>)
    requires t.Crossing? && 1 <= k <= 3 && seen + ExploredFrom(t, at, k) <= all
    ensures seen + Explored(Arm(t, k), at + [k]) <= all
    ensures !HasGoal(Arm(t, k)) ==> seen + Explored(Arm(t, k), at + [k]) + ExploredFrom(t, at, k + 1) <= all
    ensures !HasGoal(Arm(t, k)) ==>
      seen + Explored(Arm(t, k), at + [k]) + ExploredFrom(t, at, k + 1) == seen + ExploredFrom(t, at, k)
  {
    var arm := Explored(Arm(t, k), at + [k]);
    var rest := if HasGoal(Arm(t, k)) then [] else ExploredFrom(t, at, k + 1);
    assert ExploredFrom(t, at, k) == arm + rest;
    assert seen + ExploredFrom(t, at, k) == seen + arm + rest;
    PrefixOfPrefix(seen + arm, seen + arm + rest, all);
  }

  /** Arm k, taken in passing with the stack q' that ends in a number above 1, and what follows it. */
  lemma {:induction false} ArmOverruns(t: Maze, at: Path, capacity: nat, k: int, q': seq<int>, q: seq<int>,
                                       seen: seq<Path>, all: seq<Path>)
    requires t.Crossing? && 2 <= k <= 3 && Positive(q') && 1 <= |q'| <= |q| + 1 && q'[|q'| - 1] >= 2
    requires |q'| <= capacity && |q'| <= |at| + 1 && |q'| + ExploredDepth(Arm(t, k)) > capacity
    requires seen + ExploredFrom(t, at, k) <= all
    ensures OverrunFrom(Onward(t, at, capacity, k, Walk(Arm(t, k), at + [k], capacity, Memory(q', false), seen)),
                        t, at, k, q, seen, all)
    decreases t, 0, 0
  {
    var arm := Arm(t, k);
    var p := Walk(arm, at + [k], capacity, Memory(q', false), seen);
    ArmIsPrefix(t, at, k, seen, all);
    OverTree(arm, at + [k], capacity, q', seen, all);
    if Derailed(p, at + [k], all) {
      DerailedOn(t, at, capacity, k, p, all);
    } else {
      assert forall n: nat :: !Ones(q', n);
    }
  }

  /** Back at the crossing from arm k with less on the stack than belongs there: the top counts the arms of
      another crossing. */
  lemma {:induction false} Lagging(t: Maze, at: Path, capacity: nat, k: int, r: seq<int>, c: int, q: seq<int>,
                                   seen: seq<Path>, all: seq<Path>)
    requires t.Crossing? && 1 <= k <= 3 && c >= k && (k == 3 ==> c == 3) && Positive(r)
    requires |r| < |at| && |r| < capacity && |r| < |q| && r == q[..|r|] && (c == k ==> Ones(q, |r|))
    requires seen + ExploredFrom(t, at, k + 1) <= all
    ensures OverrunFrom(From(t, at, capacity, k, Memory(r + [c], true), seen), t, at, k + 1, q, seen, all)
    decreases t, 3 - k, 1
  {
    var stack := r + [c];
    assert stack[|r|] == c && stack[..|r|] == r;
    if k == 3 {
      assert seen + [] == seen;
      assert Lost(Out(Memory(r, true), seen), q, |r|, seen + ExploredFrom(t, at, 4));
    } else if c >= 3 {
      Passed(t, at, capacity, k + 1, Memory(r, true), seen, all);
    } else {
      LaggingArm(t, at, capacity, k, r, c, q, seen, all);
    }
  }

  lemma {:induction false} LaggingArm(t: Maze, at: Path, capacity: nat, k: int, r: seq<int>, c: int, q: seq<int>,
                                      seen: seq<Path>, all: seq<Path>)
    requires t.Crossing? && 1 <= k <= 2 && k <= c <= 2 && Positive(r)
    requires |r| < |at| && |r| < capacity && |r| < |q| && r == q[..|r|] && (c == k ==> Ones(q, |r|))
    requires seen + ExploredFrom(t, at, k + 1) <= all
    ensures OverrunFrom(Onward(t, at, capacity, k + 1,
                               Walk(Arm(t, k + 1), at + [k + 1], capacity, Memory(r + [c + 1], false), seen)),
                        t, at, k + 1, q, seen, all)
    decreases t, 3 - k, 0
  {
    var arm, q' := Arm(t, k + 1), r + [c + 1];
    if |q'| + ExploredDepth(arm) > capacity {
      ArmOverruns(t, at, capacity, k + 1, q', q, seen, all);
    } else {
      ExploreTree(arm, at + [k + 1], capacity, q', seen);
      ArmIsPrefix(t, at, k + 1, seen, all);
      if !HasGoal(arm) {
        Lagging(t, at, capacity, k + 1, r, c + 1, q, seen + Explored(arm, at + [k + 1]), all);
      }
    }
  }

  /** Back at the crossing from arm k with the right stack, when what is explored behind it does not fit. */
  lemma {:induction false} Crowded(t: Maze, at: Path, capacity: nat, k: int, q: seq<int>, seen: seq<Path>, all: seq<Path>)
    requires t.Crossing? && 1 <= k <= 3 && Positive(q) && |q| <= |at| && |q| < capacity
    requires |q| + 1 + ExploredDepthFrom(t, k + 1) > capacity
    requires seen + ExploredFrom(t, at, k + 1) <= all
    ensures OverrunFrom(From(t, at, capacity, k, Memory(q + [k], true), seen), t, at, k + 1, q, seen, all)
    decreases t, 3 - k, 1
  {
    CountedUp(q, k + 1, capacity);
    var arm, q' := Arm(t, k + 1), q + [k + 1];
    if |q'| + ExploredDepth(arm) > capacity {
      ArmOverruns(t, at, capacity, k + 1, q', q, seen, all);
    } else {
      ExploreTree(arm, at + [k + 1], capacity, q', seen);
      ArmIsPrefix(t, at, k + 1, seen, all);
      Crowded(t, at, capacity, k + 1, q, seen + Explored(arm, at + [k + 1]), all);
    }
  }

  /** The first arm of a crossing, whose own number found no room on the stack. */
  lemma {:induction false} FullStack(t: Maze, at: Path, capacity: nat, q: seq<int>, seen: seq<Path>, all: seq<Path>)
    requires t.Crossing? && Positive(q) && |q| == capacity && |q| <= |at| && seen + ExploredFrom(t, at, 1) <= all
    ensures OverrunFrom(From(t, at, capacity, 0, Memory(q, false), seen), t, at, 1, q, seen, all)
    decreases t, 3, 1
  {
    var arm := Arm(t, 1);
    var p := Walk(arm, at + [1], capacity, Memory(q, false), seen);
    ArmIsPrefix(t, at, 1, seen, all);
    match arm
    case Goal =>
    case DeadEnd =>
      assert Explored(arm, at + [1]) == [at + [1]];
      AfterFirst(t, at, capacity, q, q, p, seen, all);
    case Crossing(_, _, _) =>
      OverTree(arm, at + [1], capacity, q, seen, all);
      FirstOverruns(t, at, capacity, q, q, p, seen, all);
  }

  /** The first arm of a crossing whose number was stored, when what is explored in this arm does not fit. */
  lemma {:induction false} FullBelow(t: Maze, at: Path, capacity: nat, q: seq<int>, seen: seq<Path>, all: seq<Path>)
    requires t.Crossing? && Positive(q) && |q| < capacity && |q| <= |at| && seen + ExploredFrom(t, at, 1) <= all
    requires |q| + 1 + ExploredDepthFrom(t, 1) > capacity
    ensures OverrunFrom(From(t, at, capacity, 0, Memory(q, false), seen), t, at, 1, q, seen, all)
    decreases t, 3, 1
  {
    var arm, q' := Arm(t, 1), q + [1];
    var p := Walk(arm, at + [1], capacity, Memory(q', false), seen);
    CountedUp(q, 1, capacity);
    ArmIsPrefix(t, at, 1, seen, all);
    if |q'| + ExploredDepth(arm) > capacity {
      OverTree(arm, at + [1], capacity, q', seen, all);
      FirstOverruns(t, at, capacity, q', q, p, seen, all);
    } else {
      ExploreTree(arm, at + [1], capacity, q', seen);
      Crowded(t, at, capacity, 1, q, seen + Explored(arm, at + [1]), all);
    }
  }

  /** The first arm overran: what follows at the crossing. q' is q, or q and the stored 1. */
  lemma {:induction false} FirstOverruns(t: Maze, at: Path, capacity: nat, q': seq<int>, q: seq<int>, p: Pass,
                                         seen: seq<Path>, all: seq<Path>)
    requires t.Crossing? && Positive(q) && |q| <= |at| && |q| <= capacity && (q' == q || q' == q + [1])
    requires seen + ExploredFrom(t, at, 1) <= all && Overrun(p, Arm(t, 1), at + [1], q', seen, all)
    ensures OverrunFrom(Onward(t, at, capacity, 1, p), t, at, 1, q, seen, all)
    decreases t, 2, 3
  {
    var arm := Arm(t, 1);
    ArmIsPrefix(t, at, 1, seen, all);
    if Derailed(p, at + [1], all) {
      DerailedOn(t, at, capacity, 1, p, all);
    } else if !HasGoal(arm) {
      var n: nat :| Lost(p, q', n, seen + Explored(arm, at + [1]));
      assert q'[..n] == q[..n] && forall i :: n <= i < |q| ==> q[i] == q'[i];
      AfterFirst(t, at, capacity, q[..n], q, p, seen, all);
    }
  }

  /** Back from the first arm with the stack q1, a part of q with only ones behind it. */
  lemma {:induction false} AfterFirst(t: Maze, at: Path, capacity: nat, q1: seq<int>, q: seq<int>, p: Pass,
                                      seen: seq<Path>, all: seq<Path>)
    requires t.Crossing? && Positive(q) && |q| <= |at| && |q| <= capacity && !HasGoal(Arm(t, 1))
    requires |q1| <= |q| && q1 == q[..|q1|] && forall i :: |q1| <= i < |q| ==> q[i] == 1
    requires seen + ExploredFrom(t, at, 1) <= all && p == Out(Memory(q1, true), seen + Explored(Arm(t, 1), at + [1]))
    ensures OverrunFrom(Onward(t, at, capacity, 1, p), t, at, 1, q, seen, all)
    decreases t, 2, 2
  {
    ArmIsPrefix(t, at, 1, seen, all);
    if q1 == [] {
      NextIsMissing(t, at, 2, p.seen, all);
    } else {
      var r, c := q1[..|q1| - 1], q1[|q1| - 1];
      assert q1 == r + [c] && r == q[..|r|];
      Lagging(t, at, capacity, 1, r, c, q, p.seen, all);
    }
  }

  /** A visit of a subtree whose explored part does not fit on the stack. */
  lemma {:induction false} OverTree(t: Maze, at: Path, capacity: nat, q: seq<int>, seen: seq<Path>, all: seq<Path>)
    requires Positive(q) && |q| <= capacity && |q| <= |at| && |q| + ExploredDepth(t) > capacity
    requires seen + Explored(t, at) <= all
    ensures Overrun(Walk(t, at, capacity, Memory(q, false), seen), t, at, q, seen, all)
    decreases t, 4, 0
  {
    assert seen + Explored(t, at) == seen + [at] + ExploredFrom(t, at, 1);
    if |q| == capacity {
      FullStack(t, at, capacity, q, seen + [at], all);
    } else {
      FullBelow(t, at, capacity, q, seen + [at], all);
    }
  }

  /* ---- The second tour ---- */

  /** On the way to x with too short a stack, nothing right is noticed any more. */
  lemma {:induction false} SecondTour(t: Maze, at: Path, capacity: nat, memory: Memory, seen: seq<Path>,
                                      all: seq<Path>, x: Path)
    requires Missing(seen, all, x) && at < x && IsPlace(t, x[|at|..])
    requires memory.wayBack && |memory.stack| <= |x| - 2 - |at|
    ensures Fails(Walk(t, at, capacity, memory, seen), all)
    decreases t, 4, 0
  {
    assert x[|at|..][0] == x[|at|];
    if memory.stack != [] {
      SecondTourFrom(t, at, capacity, 0, memory, seen, all, x);
    }
  }

  lemma {:induction false} SecondTourFrom(t: Maze, at: Path, capacity: nat, side: int, memory: Memory, seen: seq<Path>,
                                          all: seq<Path>, x: Path)
    requires Missing(seen, all, x) && at < x && IsPlace(t, x[|at|..]) && t.Crossing? && 0 <= side < x[|at|]
    requires |x| >= |at| + 3 && Low(memory, |x| - 2 - |at| - if side == 0 then 0 else 1) && (side == 0 ==> memory.wayBack)
    ensures Fails(From(t, at, capacity, side, memory, seen), all)
    decreases t, 3 - side, 1
  {
    assert x[|at|..][0] == x[|at|] && x[|at|..][1..] == x[|at| + 1..];
    var n := |x| - 2 - |at| - if side == 0 then 0 else 1;
    if !Search(memory, capacity).Stop? {
      var memory' := Search(memory, capacity).memory;
      SearchStaysLow(memory, capacity, n);
      var k := side + 1;
      var p := Walk(Arm(t, k), at + [k], capacity, memory', seen);
      if !memory'.wayBack {
        WalkGrows(Arm(t, k), at + [k], capacity, memory', seen);
        WrongNext(seen, all, x, at + [k], SeenOf(p));
        FromFails(t, at, capacity, k, p, all);
      } else if k == x[|at|] {
        assert at + [k] == x[..|at| + 1];
        SecondTour(Arm(t, k), at + [k], capacity, memory', seen, all, x);
        FromFails(t, at, capacity, k, p, all);
      } else {
        if at + [k] < x {
          ArmOf(at, k, x);
        }
        QuietTree(Arm(t, k), at + [k], capacity, memory', seen, all, x, |x| - 3 - |at|);
        if Fails(p, all) {
          FromFails(t, at, capacity, k, p, all);
        } else {
          SecondTourFrom(t, at, capacity, k, p.memory, seen, all, x);
        }
      }
    }
  }

  /** After a tour that missed a place, the next one cannot make up for it. */
  lemma NoSecondChance(m: Maze, capacity: nat, p: Pass, all: seq<Path>)
    requires m.Crossing? && Skipped(p, [], all) && forall y :: y in all ==> IsPlace(m, y)
    ensures Fails(Walk(m, [], capacity, p.memory.(wayBack := true), p.seen), all)
  {
    var x: Path :| Missing(p.seen, all, x) && Later([], x) && Low(p.memory, |x| - 2);
    assert x == all[|p.seen|] && x[0..] == x;
    var memory := p.memory.(wayBack := true);
    if |memory.stack| <= |x| - 2 {
      SecondTour(m, [], capacity, memory, p.seen, all, x);
    } else {
      var memory' := Search(memory, capacity).memory;
      var q := Walk(Arm(m, 1), [] + [1], capacity, memory', p.seen);
      WalkGrows(Arm(m, 1), [] + [1], capacity, memory', p.seen);
      assert x != [1];
      WrongNext(p.seen, all, x, [] + [1], SeenOf(q));
      FromFails(m, [], capacity, 1, q, all);
    }
  }

  lemma {:induction false} ExploredPlaces(m: Maze, t: Maze, at: Path, y: Path)
    requires IsPlace(m, at) && Node(m, at) == t && y in Explored(t, at)
    ensures IsPlace(m, y)
    decreases t, 4
  {
    if y != at {
      ExploredArmPlaces(m, t, at, 1, y);
    }
  }

  lemma {:induction false} ExploredArmPlaces(m: Maze, t: Maze, at: Path, k: int, y: Path)
    requires IsPlace(m, at) && Node(m, at) == t && t.Crossing? && 1 <= k <= 4 && y in ExploredFrom(t, at, k)
    ensures IsPlace(m, y)
    decreases t, 4 - k
  {
    if y in Explored(Arm(t, k), at + [k]) {
      PlaceExtends(m, at, k);
      ExploredPlaces(m, Arm(t, k), at + [k], y);
    } else {
      ExploredArmPlaces(m, t, at, k + 1, y);
    }
  }

  /* ---- Runs have one end ---- */

  lemma {:induction false} OneEnd(m: Maze, capacity: nat, d: Drive, i: nat, e: Drive, j: nat, f: Drive)
    requires Steps(m, capacity, d, i, e) && Steps(m, capacity, d, j, f) && !f.Drive?
    ensures i <= j && Steps(m, capacity, e, j - i, f)
    decreases i
  {
    if i > 0 {
      var next := OneFirst(m, capacity, d, i, e, j, f);
      OneEnd(m, capacity, next, i - 1, e, j - 1, f);
    }
  }

  lemma OneFirst(m: Maze, capacity: nat, d: Drive, i: nat, e: Drive, j: nat, f: Drive) returns (next: Drive)
    requires i > 0 && Steps(m, capacity, d, i, e) && Steps(m, capacity, d, j, f) && !f.Drive?
    ensures j > 0 && Steps(m, capacity, next, i - 1, e) && Steps(m, capacity, next, j - 1, f)
  {
    StepsRest(m, capacity, d, i, e);
    StepsRest(m, capacity, d, j, f);
    next := Step(m, capacity, d);
  }

  /** Whatever a run passes, it goes on from there to its end. */
  lemma OnToTheEnd(m: Maze, capacity: nat, d: Drive, e: Drive, f: Drive)
    requires Reaches(m, capacity, d, e) && Reaches(m, capacity, d, f) && !f.Drive?
    ensures Reaches(m, capacity, e, f) && (!e.Drive? ==> e == f) && e.seen <= f.seen
  {
    var i: nat :| Steps(m, capacity, d, i, e);
    var j: nat :| Steps(m, capacity, d, j, f);
    OneEnd(m, capacity, d, i, e, j, f);
    StepsGrow(m, capacity, e, j - i, f);
  }

  lemma {:induction false} StepsGrow(m: Maze, capacity: nat, d: Drive, n: nat, f: Drive)
    requires Steps(m, capacity, d, n, f)
    ensures d.seen <= f.seen
    decreases n
  {
    if n > 0 {
      StepsRest(m, capacity, d, n, f);
      StepsGrow(m, capacity, Step(m, capacity, d), n - 1, f);
      StepGrows(m, capacity, d);
    }
  }

  lemma StepGrows(m: Maze, capacity: nat, d: Drive)
    requires d.Drive? && IsPlace(m, d.at)
    ensures d.seen <= Step(m, capacity, d).seen
  {
  }

  /* ---- The result ---- */

  const START := Drive([], 0, Memory([], false), [])

  /** The end of a depth-first search with exactly the way on the stack. */
  function Ideal(m: Maze): Drive {
    if HasGoal(m) then AtGoal(GoalWay(m), Memory(GoalWay(m), false), Explored(m, []))
    else GaveUp(Memory([], true), Explored(m, []))
  }

  lemma FitsIsIdeal(m: Maze, capacity: nat)
    requires m.Crossing? && ExploredDepth(m) <= capacity
    ensures Reaches(m, capacity, START, Ideal(m))
  {
    ExploreTree(m, [], capacity, [], []);
    WalkIsDriven(m, [], capacity, Memory([], false), []);
    assert [] + Explored(m, []) == Explored(m, []);
    if HasGoal(m) {
      assert [] + GoalWay(m) == GoalWay(m);
    } else {
      var f := Leave([], 0, Memory([], true), Explored(m, []));
      OneStep(m, capacity, f);
      DriveOn(m, capacity, START, f, Step(m, capacity, f));
    }
  }

  /** A visit that fails does not lead to the ideal end. */
  lemma FailedVisit(m: Maze, capacity: nat, memory: Memory, seen: seq<Path>)
    requires m.Crossing? && Reaches(m, capacity, START, Drive([], 0, memory, seen))
    requires Fails(Walk(m, [], capacity, memory, seen), Explored(m, []))
    ensures !Reaches(m, capacity, START, Ideal(m))
  {
    var p := Walk(m, [], capacity, memory, seen);
    WalkIsDriven(m, [], capacity, memory, seen);
    DriveOn(m, capacity, START, Drive([], 0, memory, seen), EndOf([], p));
    if Reaches(m, capacity, START, Ideal(m)) {
      OnToTheEnd(m, capacity, START, EndOf([], p), Ideal(m));
    }
  }

  lemma OverrunIsNotIdeal(m: Maze, capacity: nat)
    requires m.Crossing? && ExploredDepth(m) > capacity
    ensures !Reaches(m, capacity, START, Ideal(m))
  {
    var p, all := Walk(m, [], capacity, Memory([], false), []), Explored(m, []);
    assert Reaches(m, capacity, START, START) by {
      assert Steps(m, capacity, START, 0, START);
    }
    assert [] + all == all;
    OverTree(m, [], capacity, [], [], all);
    if Fails(p, all) {
      FailedVisit(m, capacity, Memory([], false), []);
    } else if Skipped(p, [], all) {
      forall y | y in all
        ensures IsPlace(m, y)
      {
        ExploredPlaces(m, m, [], y);
      }
      NoSecondChance(m, capacity, p, all);
      WalkIsDriven(m, [], capacity, Memory([], false), []);
      FailedVisit(m, capacity, p.memory.(wayBack := true), p.seen);
    } else {
      assert forall n: nat :: !Ones([], n);
      ShortIsNotIdeal(m, capacity, p);
    }
  }

  lemma ShortIsNotIdeal(m: Maze, capacity: nat, p: Pass)
    requires m.Crossing? && p == Walk(m, [], capacity, Memory([], false), []) && HasGoal(m) && Short(p, |GoalWay(m)|)
    ensures !Reaches(m, capacity, START, Ideal(m))
  {
    WalkIsDriven(m, [], capacity, Memory([], false), []);
    if Reaches(m, capacity, START, Ideal(m)) {
      OnToTheEnd(m, capacity, START, p.end, Ideal(m));
    }
  }

  /** Searching ends at the first goal in depth-first order with exactly the way to it on the stack, or,
      when there is no goal, after every place was seen - exactly if the crossings explored up to then
      are nested no deeper than the stack. */
  lemma SearchIsDepthFirst(m: Maze, capacity: nat)
    requires m.Crossing?
    ensures Reaches(m, capacity, START, Ideal(m)) <==> ExploredDepth(m) <= capacity
  {
    if ExploredDepth(m) <= capacity {
      FitsIsIdeal(m, capacity);
    } else {
      OverrunIsNotIdeal(m, capacity);
    }
  }

  /** The condition place by place: every explored crossing is named by fewer arms than the stack holds. */
  lemma ExploredDepthMeaning(m: Maze, capacity: nat)
    requires m.Crossing?
    ensures ExploredDepth(m) <= capacity <==>
      forall y :: y in Explored(m, []) && IsPlace(m, y) && Node(m, y).Crossing? ==> |y| < capacity
  {
    var w := DeepestCrossing(m, m, []);
    forall y | y in Explored(m, []) && IsPlace(m, y) && Node(m, y).Crossing?
      ensures |y| < ExploredDepth(m)
    {
      DepthBounds(m, m, [], y);
    }
  }

  lemma {:induction false} DepthBounds(m: Maze, t: Maze, at: Path, y: Path)
    requires IsPlace(m, at) && Node(m, at) == t && y in Explored(t, at) && IsPlace(m, y) && Node(m, y).Crossing?
    ensures |y| < |at| + ExploredDepth(t)
    decreases t, 4
  {
    if y != at {
      DepthBoundsArms(m, t, at, 1, y);
    }
  }

  lemma {:induction false} DepthBoundsArms(m: Maze, t: Maze, at: Path, k: int, y: Path)
    requires IsPlace(m, at) && Node(m, at) == t && t.Crossing? && 1 <= k <= 4
    requires y in ExploredFrom(t, at, k) && IsPlace(m, y) && Node(m, y).Crossing?
    ensures |y| < |at| + 1 + ExploredDepthFrom(t, k)
    decreases t, 4 - k
  {
    if y in Explored(Arm(t, k), at + [k]) {
      PlaceExtends(m, at, k);
      DepthBounds(m, Arm(t, k), at + [k], y);
    } else {
      DepthBoundsArms(m, t, at, k + 1, y);
    }
  }

  lemma {:induction false} DeepestCrossing(m: Maze, t: Maze, at: Path) returns (y: Path)
    requires IsPlace(m, at) && Node(m, at) == t && t.Crossing?
    ensures y in Explored(t, at) && IsPlace(m, y) && Node(m, y).Crossing? && |y| + 1 == |at| + ExploredDepth(t)
    decreases t, 4
  {
    y := at;
    if ExploredDepthFrom(t, 1) > 0 {
      y := DeepestBelow(m, t, at, 1);
    }
  }

  lemma {:induction false} DeepestBelow(m: Maze, t: Maze, at: Path, k: int) returns (y: Path)
    requires IsPlace(m, at) && Node(m, at) == t && t.Crossing? && 1 <= k <= 4 && ExploredDepthFrom(t, k) > 0
    ensures y in ExploredFrom(t, at, k) && IsPlace(m, y) && Node(m, y).Crossing? && |y| == |at| + ExploredDepthFrom(t, k)
    decreases t, 4 - k
  {
    PlaceExtends(m, at, k);
    if ExploredDepth(Arm(t, k)) == ExploredDepthFrom(t, k) {
      y := DeepestCrossing(m, Arm(t, k), at + [k]);
    } else {
      y := DeepestBelow(m, t, at, k + 1);
    }
  }

  /* ---- Driving the way found ---- */

  /** Whatever the memory holds, the goal the tour comes to is the first one in depth-first order. */
  lemma {:induction false} FirstGoal(t: Maze, at: Path, capacity: nat, memory: Memory, seen: seq<Path>)
    ensures var p := Walk(t, at, capacity, memory, seen);
      && (HasGoal(t) ==> p.Final?)
      && (p.Final? && p.end.AtGoal? ==> HasGoal(t) && p.end.at == at + GoalWay(t))
    decreases t, 4, 0
  {
    if t.Crossing? {
      FirstGoalFrom(t, at, capacity, 0, memory, if memory.wayBack then seen else seen + [at]);
    } else {
      assert at + [] == at;
    }
  }

  lemma {:induction false} FirstGoalFrom(t: Maze, at: Path, capacity: nat, side: int, memory: Memory, seen: seq<Path>)
    requires t.Crossing? && 0 <= side <= 3
    ensures var p := From(t, at, capacity, side, memory, seen);
      && (HasGoalFrom(t, side + 1) ==> p.Final?)
      && (p.Final? && p.end.AtGoal? ==> HasGoalFrom(t, side + 1) && p.end.at == at + GoalWayFrom(t, side + 1))
    decreases t, 3 - side, 1
  {
    if !Search(memory, capacity).Stop? && side < 3 {
      var k, memory' := side + 1, Search(memory, capacity).memory;
      var p := Walk(Arm(t, k), at + [k], capacity, memory', seen);
      FirstGoal(Arm(t, k), at + [k], capacity, memory', seen);
      if HasGoal(Arm(t, k)) {
        assert at + [k] + GoalWay(Arm(t, k)) == at + ([k] + GoalWay(Arm(t, k)));
      }
      if p.Out? {
        FirstGoalFrom(t, at, capacity, k, p.memory, p.seen);
      }
    }
  }

  /** The robot stands at the goal after a depth-first search, and the stack is a way that can be driven
      from the start to the goal and back from the goal to the start. */
  ghost predicate CanReplay(m: Maze, capacity: nat, side: int, stack: Path) {
    var seen := Explored(m, []);
    && Reaches(m, capacity, START, AtGoal(stack, Memory(stack, false), seen))
    && FollowSteps(m, side, Drive([], 0, Memory(stack, false), seen), |stack| + 1, AtGoal(stack, Memory([], false), seen))
    && FollowSteps(m, side, Leave(stack, 0, Memory(stack, true), seen), |stack|, Leave([], 0, Memory([], true), seen))
  }

  /** The round trip after a search: it works under the same condition, and only then. */
  lemma ReplayRoundTrip(m: Maze, capacity: nat, side: int)
    requires m.Crossing? && HasGoal(m)
    ensures (exists stack :: CanReplay(m, capacity, side, stack)) <==> ExploredDepth(m) <= capacity
  {
    SearchIsDepthFirst(m, capacity);
    if ExploredDepth(m) <= capacity {
      var stack, seen := GoalWay(m), Explored(m, []);
      ForwardReplay(m, side, stack, 0, seen);
      BackwardReplay(m, side, stack, |stack|, seen);
      assert stack[..0] == [] && stack[0..] == stack && stack[..|stack|] == stack;
      assert CanReplay(m, capacity, side, stack);
    } else {
      forall stack | CanReplay(m, capacity, side, stack)
        ensures stack == GoalWay(m)
      {
        var p := Walk(m, [], capacity, Memory([], false), []);
        FirstGoal(m, [], capacity, Memory([], false), []);
        WalkIsDriven(m, [], capacity, Memory([], false), []);
        OnToTheEnd(m, capacity, START, p.end, AtGoal(stack, Memory(stack, false), Explored(m, [])));
        assert [] + GoalWay(m) == GoalWay(m);
      }
    }
  }

  /* ---- A maze too deep for each stack ---- */

  /** n crossings one after the other to the left, then one with the goal ahead. */
  function Chain(n: nat): Maze {
    if n == 0 then Crossing(DeadEnd, Goal, DeadEnd) else Crossing(Chain(n - 1), DeadEnd, DeadEnd)
  }

  function Lefts(n: nat): (p: Path)
    ensures |p| == n && forall i :: 0 <= i < n ==> p[i] == 1
  {
    seq(n, _ => 1)
  }

  /** The push at the last crossing is lost, and the dead end behind it counts up the crossing before. */
  lemma {:induction false} ChainWalk(n: nat, at: Path, capacity: nat, q: seq<int>, seen: seq<Path>) returns (end: Drive)
    requires |q| + n == capacity && (n == 0 ==> q != [] && q[|q| - 1] == 1)
    ensures Walk(Chain(n), at, capacity, Memory(q, false), seen) == Final(end)
    ensures end == AtGoal(at + Lefts(n) + [2], Memory((q + Lefts(n))[..capacity - 1] + [2], false), end.seen)
    decreases n
  {
    if n == 0 {
      var t := Chain(0);
      var e := Memory(q[..|q| - 1] + [2], false);
      var s := seen + [at] + [at + [1]];
      assert Walk(t.left, at + [1], capacity, Memory(q, false), seen + [at]) == Out(Memory(q, true), s);
      assert From(t, at, capacity, 0, Memory(q, false), seen + [at]) == From(t, at, capacity, 1, Memory(q, true), s);
      assert From(t, at, capacity, 1, Memory(q, true), s) == Onward(t, at, capacity, 2, Walk(Goal, at + [2], capacity, e, s));
      end := AtGoal(at + [2], e, s + [at + [2]]);
      assert at + Lefts(0) == at && q + Lefts(0) == q;
    } else {
      end := ChainWalk(n - 1, at + [1], capacity, q + [1], seen + [at]);
      assert From(Chain(n), at, capacity, 0, Memory(q, false), seen + [at])
          == Onward(Chain(n), at, capacity, 1, Final(end));
      assert [1] + Lefts(n - 1) == Lefts(n);
      assert at + [1] + Lefts(n - 1) == at + Lefts(n) && q + [1] + Lefts(n - 1) == q + Lefts(n);
    }
  }

  lemma {:induction false} ChainPlace(n: nat, k: nat)
    requires k <= n
    ensures IsPlace(Chain(n), Lefts(k)) && Node(Chain(n), Lefts(k)) == Chain(n - k)
    decreases k
  {
    if k > 0 {
      ChainPlace(n - 1, k - 1);
      assert Lefts(k)[1..] == Lefts(k - 1);
    }
  }

  /** For every stack there is a maze, one crossing deeper, that makes the robot forget the way: it stands at
      the goal, and the way on the stack ends in a dead end. */
  lemma TooDeepForgetsTheWay(capacity: nat)
    requires capacity >= 1
    ensures var m, stack := Chain(capacity), Lefts(capacity - 1) + [2];
      && HasGoal(m) && GoalWay(m) == Lefts(capacity) + [2]
      && (exists seen :: Reaches(m, capacity, START, AtGoal(GoalWay(m), Memory(stack, false), seen)))
      && IsPlace(m, stack) && Node(m, stack).DeadEnd?
  {
    var m, stack := Chain(capacity), Lefts(capacity - 1) + [2];
    ChainGoal(capacity);
    var end := ChainWalk(capacity, [], capacity, [], []);
    WalkIsDriven(m, [], capacity, Memory([], false), []);
    assert [] + Lefts(capacity) == Lefts(capacity) && Lefts(capacity)[..capacity - 1] == Lefts(capacity - 1);
    ChainPlace(capacity, capacity - 1);
    PlaceExtends(m, Lefts(capacity - 1), 2);
  }

  lemma {:induction false} ChainGoal(n: nat)
    ensures HasGoal(Chain(n)) && GoalWay(Chain(n)) == Lefts(n) + [2]
  {
    if n == 0 {
      assert !HasGoal(DeadEnd) && HasGoal(Goal);
      assert GoalWayFrom(Chain(0), 2) == [2] + GoalWay(Goal);
    } else {
      ChainGoal(n - 1);
      assert HasGoalFrom(Chain(n), 1);
      assert GoalWayFrom(Chain(n), 1) == [1] + GoalWay(Chain(n - 1));
      assert [1] + Lefts(n - 1) == Lefts(n);
    }
  }
}
