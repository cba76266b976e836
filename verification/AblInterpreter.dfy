/** The keyword handlers of behaviour_abl.c on their mutable state. */
module AblInterpreter {
  import opened Abl

  class Interpreter {
    const program: Code
    var ip: nat                       // the next instruction to fetch
    var ifState: nat
    var loops: nat
    const forState: array<nat>
    var done: seq<nat>
    var halted: bool

    ghost predicate Valid()
      reads this, forState
    {
      forState.Length == FOR_DEPTH && ifState < 256 && (forall k :: 0 <= k < FOR_DEPTH ==> forState[k] < 256)
    }

    ghost function Snapshot(): (m: Machine)
      reads this, forState
    {
      Machine(if halted then 0 else ip, ifState, loops, forState[..], done, halted)
    }

    constructor (code: Code)
      ensures Valid() && fresh(forState) && program == code
      ensures Snapshot() == Machine(0, 0, 0, [0, 0], [], false)
    {
      program := code;
      ip, ifState, loops, done, halted := 0, 0, 0, [], false;
      forState := new nat[FOR_DEPTH](_ => 0);
    }

    method IfHandler(env: Env, v: nat)
      requires Valid() && !halted
      modifies this
      ensures Valid() && forState[..] == old(forState[..])
      ensures var m := old(Snapshot());
        var s := (m.ifState * 2) % 256;
        Snapshot() == if env(m.done) == v then m.(ifState := s + 1) else Goto(m.(ifState := s), ScanIf(program, m.ip, 0))
    {
      ifState := (ifState * 2) % 256;
      if env(done) == v {
        ifState := ifState + 1;
      } else {
        var depth, found := 0, false;
        ghost var target := ScanIf(program, ip, 0);
        while !found
          invariant ifState == (old(ifState) * 2) % 256 && done == old(done) && loops == old(loops) && !halted
          invariant forState[..] == old(forState[..])
          invariant target == if found then At(ip) else ScanIf(program, ip, depth)
          decreases |program| - ip, !found
        {
          if ip >= |program| {
            halted := true;
            return;
          }
          var sub := program[ip];
          ip := ip + 1;
          if sub.If? {
            depth := Inc8(depth);
          } else if sub.Fi? && depth != 0 {
            depth := Dec8(depth);
          } else {
            found := depth == 0 && (sub.Fi? || sub.Else?);
          }
        }
      }
    }

    method ElseHandler()
      requires Valid() && !halted
      modifies this
      ensures Valid() && forState[..] == old(forState[..])
      ensures var m := old(Snapshot());
        Snapshot() == if m.ifState % 2 == 1 then Goto(m, ScanElse(program, m.ip, 0)) else m
    {
      if ifState % 2 == 1 {
        var depth, found := 0, false;
        ghost var target := ScanElse(program, ip, 0);
        while !found
          invariant ifState == old(ifState) && done == old(done) && loops == old(loops) && !halted
          invariant forState[..] == old(forState[..])
          invariant target == if found then At(ip) else ScanElse(program, ip, depth)
          decreases |program| - ip, !found
        {
          if ip >= |program| {
            halted := true;
            return;
          }
          var sub := program[ip];
          ip := ip + 1;
          if sub.If? {
            depth := Inc8(depth);
          } else if sub.Fi? {
            if depth == 0 {
              found := true;
            } else {
              depth := Dec8(depth);
            }
          }
        }
      }
    }

    method FiHandler()
      requires Valid() && !halted
      modifies this
      ensures Valid() && Snapshot() == old(Snapshot()).(ifState := old(ifState) / 2)
    {
      ifState := ifState / 2;
    }

    method ForHandler(n: nat)
      requires Valid() && !halted
      modifies this, forState
      ensures Valid()
      ensures var m := old(Snapshot());
        Snapshot() == if m.loops >= FOR_DEPTH then m.(loops := m.loops + 1)
                      else m.(loops := m.loops + 1, forState := m.forState[m.loops := n % 256])
    {
      loops := loops + 1;
      if loops > FOR_DEPTH {
        return;
      }
      forState[loops - 1] := n % 256;
    }

    /** Back to the for that belongs to the endf just fetched. */
    method SeekFor()
      requires Valid() && !halted && 0 < ip <= |program|
      modifies this
      ensures Valid() && forState[..] == old(forState[..])
      ensures Snapshot() == Goto(old(Snapshot()), ScanBack(program, old(ip) - 1, 0, 1))
    {
      var i, j := 0, 1;
      ghost var target := ScanBack(program, ip - 1, 0, 1);
      while i < j
        invariant 0 < ip <= |program|
        invariant ifState == old(ifState) && done == old(done) && loops == old(loops) && !halted
        invariant forState[..] == old(forState[..])
        invariant target == if i < j then ScanBack(program, ip - 1, i, j) else At(ip)
        decreases ip, if i < j then 1 else 0
      {
        var sub := Endf;
        ghost var from := ip;
        while !sub.For?
          invariant 0 < ip <= |program|
          invariant ifState == old(ifState) && done == old(done) && loops == old(loops) && !halted
          invariant forState[..] == old(forState[..])
          invariant if sub.For? then target == (if IncU8(i) < j then ScanBack(program, ip - 1, IncU8(i), j) else At(ip))
                    else target == ScanBack(program, ip - 1, i, j)
          invariant if sub.For? then ip < from else ip <= from
          decreases ip
        {
          if ip == 1 {
            halted := true;
            return;
          }
          ip := ip - 1;
          sub := program[ip - 1];
          if sub.Endf? {
            j := IncU8(j);
          }
        }
        i := IncU8(i);
      }
    }

    method EndfHandler()
      requires Valid() && !halted && 0 < ip <= |program|
      modifies this, forState
      ensures Valid()
      ensures Snapshot() == EndLoop(program, old(Snapshot()).(ip := old(ip - 1)))
      ensures ifState == old(ifState) && done == old(done)
      ensures old(loops) > 2 ==> loops == old(loops) - 1 && ip == old(ip) && !halted && forState[..] == old(forState[..])
      ensures old(loops) == 0 ==> halted && loops == 0 && forState[..] == old(forState[..])
      ensures 1 <= old(loops) <= 2 ==>
        var k, left := old(loops) - 1, old(forState[loops - 1]);
        && (forall j :: 0 <= j < 2 && j != k ==> forState[j] == old(forState[j]))
        && (if left == 1 then loops == k && forState[k] == 0 && ip == old(ip) && !halted
            else loops == old(loops) && forState[k] == (if left == 0 then 0 else left - 1)
                 && ScanBack(program, old(ip) - 1, 0, 1) == if halted then NotFound else At(ip))
    {
      if loops > FOR_DEPTH {
        loops := loops - 1;
        return;
      }
      if loops == 0 {
        halted := true;
        return;
      }
      forState[loops - 1] := (forState[loops - 1] + 255) % 256;
      if forState[loops - 1] == 0 {
        loops := loops - 1;
      } else {
        if forState[loops - 1] == 255 {
          forState[loops - 1] := 0;
        }
        SeekFor();
      }
    }

    /** One call of bot_abl_behaviour. */
    method Execute(env: Env)
      requires Valid() && !halted
      modifies this, forState
      ensures Valid() && Snapshot() == Step(program, env, old(Snapshot()))
    {
      if ip >= |program| {
        halted := true;
        return;
      }
      var fetched := program[ip];
      ip := ip + 1;
      match fetched
      case If(v) => IfHandler(env, v);
      case Else => ElseHandler();
      case Fi => FiHandler();
      case For(n) => ForHandler(n);
      case Endf => EndfHandler();
      case Act(a) => done := done + [a];
    }
  }
}
