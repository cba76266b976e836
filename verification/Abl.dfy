/** Loops and branches of the ABL interpreter (behaviour_abl.c): a flat instruction stream with scans to
    matching keywords, against the structured program it stands for. */
module Abl {
  import opened CInt

  /** Instructions; Act is anything that changes neither if_state nor the loop counters: a behaviour call,
      psh, pop, a label or a comment. */
  datatype Instr = For(n: nat) | Endf | If(v: nat) | Else | Fi | Act(a: nat)

  type Code = seq<Instr>

  /** What the stack shows on top after the given actions. */
  type Env = seq<nat> -> nat

  const FOR_DEPTH := 2

  /** The interpreter between two instructions. `loops` is pForState - for_state + 1. */
  datatype Machine = Machine(ip: nat, ifState: nat, loops: nat, forState: seq<nat>, done: seq<nat>, halted: bool)

  datatype Found = At(ip: nat) | NotFound

  /** ++ and -- on int8_t, ++ on uint8_t. */
  function Inc8(n: int): int {
    if n == 127 then -128 else n + 1
  }

  function Dec8(n: int): int {
    if n == -128 then 127 else n - 1
  }

  function IncU8(n: nat): nat {
    if n == 255 then 0 else n + 1
  }

  /** The scan of if_handler: forward to the matching else or fi; both are consumed. */
  function ScanIf(p: Code, i: nat, depth: int): Found
    decreases |p| - i
  {
    if i >= |p| then NotFound
    else if p[i].If? then ScanIf(p, i + 1, Inc8(depth))
    else if p[i].Fi? then (if depth == 0 then At(i + 1) else ScanIf(p, i + 1, Dec8(depth)))
    else if p[i].Else? && depth == 0 then At(i + 1)
    else ScanIf(p, i + 1, depth)
  }

  /** The scan of else_handler: forward to the matching fi. */
  function ScanElse(p: Code, i: nat, depth: int): Found
    decreases |p| - i
  {
    if i >= |p| then NotFound
    else if p[i].If? then ScanElse(p, i + 1, Inc8(depth))
    else if p[i].Fi? then (if depth == 0 then At(i + 1) else ScanElse(p, i + 1, Dec8(depth)))
    else ScanElse(p, i + 1, depth)
  }

  /** The scan of endf_handler: backward until as many for (i) as endf (j) were passed, in 8 bits. */
  function ScanBack(p: Code, at: nat, i: nat, j: nat): Found
    requires at <= |p|
    decreases at
  {
    if at == 0 then NotFound
    else
      var j' := if p[at - 1].Endf? then IncU8(j) else j;
      if p[at - 1].For? then
        var i' := IncU8(i);
        if i' < j' then ScanBack(p, at - 1, i', j') else At(at)
      else ScanBack(p, at - 1, i, j')
  }

  /** The behaviour returns to its caller; where ip points no longer matters. */
  function Halt(m: Machine): Machine {
    m.(halted := true, ip := 0)
  }

  function Goto(m: Machine, target: Found): Machine {
    match target
    case At(ip) => m.(ip := ip)
    case NotFound => Halt(m)
  }

  /** endf_handler. */
  function EndLoop(p: Code, m: Machine): Machine
    requires m.ip < |p| && |m.forState| == FOR_DEPTH
  {
    if m.loops > FOR_DEPTH then m.(loops := m.loops - 1, ip := m.ip + 1)
    else if m.loops == 0 then Halt(m)   // would write in front of for_state
    else
      var count := (m.forState[m.loops - 1] + 255) % 256;
      if count == 0 then m.(forState := m.forState[m.loops - 1 := 0], loops := m.loops - 1, ip := m.ip + 1)
      else
        var kept := if count == 255 then 0 else count;
        Goto(m.(forState := m.forState[m.loops - 1 := kept]), ScanBack(p, m.ip, 0, 1))
  }

  /** One round of bot_abl_behaviour: fetch an instruction and run its handler. */
  function Step(p: Code, env: Env, m: Machine): Machine
    requires |m.forState| == FOR_DEPTH
  {
    if m.halted then m
    else if m.ip >= |p| then Halt(m)
    else
      match p[m.ip]
      case For(n) =>
        var m' := m.(loops := m.loops + 1, ip := m.ip + 1);
        if m'.loops > FOR_DEPTH then m' else m'.(forState := m.forState[m.loops := n % 256])
      case Endf => EndLoop(p, m)
      case If(v) =>
        var s := (m.ifState * 2) % 256;
        if env(m.done) == v then m.(ifState := s + 1, ip := m.ip + 1)
        else Goto(m.(ifState := s), ScanIf(p, m.ip + 1, 0))
      case Else =>
        if m.ifState % 2 == 1 then Goto(m, ScanElse(p, m.ip + 1, 0)) else m.(ip := m.ip + 1)
      case Fi => m.(ifState := m.ifState / 2, ip := m.ip + 1)
      case Act(a) => m.(done := m.done + [a], ip := m.ip + 1)
  }

  function Run(p: Code, env: Env, m: Machine, n: nat): (m': Machine)
    requires |m.forState| == FOR_DEPTH
    ensures |m'.forState| == FOR_DEPTH
    decreases n
  {
    if n == 0 then m else Run(p, env, Step(p, env, m), n - 1)
  }

  /* ---- Structured programs ---- */

  datatype Stmt =
    | Do(a: nat)
    | Loop(n: nat, body: Block)
    | IfThen(v: nat, thn: Block)
    | IfElse(v: nat, thn: Block, els: Block)

  datatype Block = Nil | Then(first: Stmt, rest: Block)

  function FlatStmt(s: Stmt): Code {
    match s
    case Do(a) => [Act(a)]
    case Loop(n, body) => [For(n)] + (Flat(body) + [Endf])
    case IfThen(v, thn) => [If(v)] + (Flat(thn) + [Fi])
    case IfElse(v, thn, els) => [If(v)] + (Flat(thn) + ([Else] + (Flat(els) + [Fi])))
  }

  function Flat(b: Block): Code {
    match b
    case Nil => []
    case Then(s, rest) => FlatStmt(s) + Flat(rest)
  }

  /** The actions so far, and whether the block was left; a block inside an endless loop never is. */
  datatype Effect = Effect(done: seq<nat>, left: bool)

  /** The meaning of a block inside `loops` open loops, following endless loops for `rounds` rounds. */
  function Exec(b: Block, env: Env, loops: nat, done: seq<nat>, rounds: nat): Effect
    decreases b, 1
  {
    match b
    case Nil => Effect(done, true)
    case Then(s, rest) =>
      var e := ExecStmt(s, env, loops, done, rounds);
      if e.left then Exec(rest, env, loops, e.done, rounds) else e
  }

  function ExecStmt(s: Stmt, env: Env, loops: nat, done: seq<nat>, rounds: nat): Effect
    decreases s, 0
  {
    match s
    case Do(a) => Effect(done + [a], true)
    case Loop(n, body) =>
      if loops >= FOR_DEPTH then Exec(body, env, loops + 1, done, rounds)
      else if n % 256 == 0 then Repeat(body, env, loops + 1, done, rounds, rounds).(left := false)
      else Repeat(body, env, loops + 1, done, rounds, n % 256)
    case IfThen(v, thn) => if env(done) == v then Exec(thn, env, loops, done, rounds) else Effect(done, true)
    case IfElse(v, thn, els) =>
      if env(done) == v then Exec(thn, env, loops, done, rounds) else Exec(els, env, loops, done, rounds)
  }

  function Repeat(body: Block, env: Env, loops: nat, done: seq<nat>, rounds: nat, times: nat): Effect
    decreases body, 2, times
  {
    if times == 0 then Effect(done, true)
    else
      var e := Exec(body, env, loops, done, rounds);
      if e.left then Repeat(body, env, loops, e.done, rounds, times - 1) else e
  }

  /* ---- What the interpreter makes of a structured program ---- */

  /** The same with if_state: what an else looks at is its lowest bit at that time. */
  datatype Outcome = Outcome(done: seq<nat>, bits: nat, left: bool)

  function Play(b: Block, env: Env, loops: nat, done: seq<nat>, bits: nat, rounds: nat): Outcome
    decreases b, 1
  {
    match b
    case Nil => Outcome(done, bits, true)
    case Then(s, rest) =>
      var e := PlayStmt(s, env, loops, done, bits, rounds);
      if e.left then Play(rest, env, loops, e.done, e.bits, rounds) else e
  }

  /** A fi that a scan consumes does not pop if_state, and a then part that leaves an even if_state is followed
      by the else part. */
  function PlayStmt(s: Stmt, env: Env, loops: nat, done: seq<nat>, bits: nat, rounds: nat): Outcome
    decreases s, 0
  {
    var pushed := (bits * 2) % 256;
    match s
    case Do(a) => Outcome(done + [a], bits, true)
    case Loop(n, body) =>
      if loops >= FOR_DEPTH then Play(body, env, loops + 1, done, bits, rounds)
      else if n % 256 == 0 then PlayRepeat(body, env, loops + 1, done, bits, rounds, rounds).(left := false)
      else PlayRepeat(body, env, loops + 1, done, bits, rounds, n % 256)
    case IfThen(v, thn) =>
      if env(done) == v then Popped(Play(thn, env, loops, done, pushed + 1, rounds)) else Outcome(done, pushed, true)
    case IfElse(v, thn, els) =>
      if env(done) != v then Popped(Play(els, env, loops, done, pushed, rounds))
      else
        var e := Play(thn, env, loops, done, pushed + 1, rounds);
        if !e.left || e.bits % 2 == 1 then e else Popped(Play(els, env, loops, e.done, e.bits, rounds))
  }

  /** A fi that is executed. */
  function Popped(e: Outcome): Outcome {
    if e.left then e.(bits := e.bits / 2) else e
  }

  function PlayRepeat(body: Block, env: Env, loops: nat, done: seq<nat>, bits: nat, rounds: nat, times: nat): Outcome
    decreases body, 2, times
  {
    if times == 0 then Outcome(done, bits, true)
    else
      var e := Play(body, env, loops, done, bits, rounds);
      if e.left then PlayRepeat(body, env, loops, e.done, e.bits, rounds, times - 1) else e
  }

  /* ---- Programs that are executed as they are meant ---- */

  predicate IfFree(b: Block)
    decreases b, 1
  {
    b.Then? ==> IfFreeStmt(b.first) && IfFree(b.rest)
  }

  predicate IfFreeStmt(s: Stmt)
    decreases s, 0
  {
    s.Do? || (s.Loop? && IfFree(s.body))
  }

  /** Running the block leaves the lowest bit of if_state set if it was. An else-less if that is not taken
      leaves a 0 behind, because its fi is consumed by the scan; so may an else part that contains an if. */
  predicate KeepsOne(b: Block)
    decreases b, 1
  {
    b.Then? ==> KeepsOneStmt(b.first) && KeepsOne(b.rest)
  }

  predicate KeepsOneStmt(s: Stmt)
    decreases s, 0
  {
    match s
    case Do(_) => true
    case Loop(_, body) => KeepsOne(body)
    case IfThen(_, _) => false
    case IfElse(_, _, els) => IfFree(els)
  }

  /** Every part between if and else keeps the bit that else looks at. */
  predicate Steady(b: Block)
    decreases b, 1
  {
    b.Then? ==> SteadyStmt(b.first) && Steady(b.rest)
  }

  predicate SteadyStmt(s: Stmt)
    decreases s, 0
  {
    match s
    case Do(_) => true
    case Loop(_, body) => Steady(body)
    case IfThen(_, thn) => Steady(thn)
    case IfElse(_, thn, els) => KeepsOne(thn) && Steady(thn) && Steady(els)
  }

  /** How deep ifs are nested; the scans count in int8. */
  function IfDepth(b: Block): nat
    decreases b, 1
  {
    if b.Nil? then 0 else Max(IfDepthStmt(b.first), IfDepth(b.rest))
  }

  function IfDepthStmt(s: Stmt): nat
    decreases s, 0
  {
    match s
    case Do(_) => 0
    case Loop(_, body) => IfDepth(body)
    case IfThen(_, thn) => 1 + IfDepth(thn)
    case IfElse(_, thn, els) => 1 + Max(IfDepth(thn), IfDepth(els))
  }

  /** How many loops a block contains; the backward scan counts in uint8. */
  function Loops(b: Block): nat
    decreases b, 1
  {
    if b.Nil? then 0 else LoopsStmt(b.first) + Loops(b.rest)
  }

  function LoopsStmt(s: Stmt): nat
    decreases s, 0
  {
    match s
    case Do(_) => 0
    case Loop(_, body) => 1 + Loops(body)
    case IfThen(_, thn) => Loops(thn)
    case IfElse(_, thn, els) => Loops(thn) + Loops(els)
  }

  predicate Fits(b: Block) {
    IfDepth(b) <= 127 && Loops(b) <= 254
  }

  /* ---- Scans find the matching keyword ---- */

  predicate CodeAt(p: Code, i: nat, c: Code) {
    i + |c| <= |p| && forall k :: 0 <= k < |c| ==> p[i + k] == c[k]
  }

  lemma CodeParts(p: Code, i: nat, a: Code, b: Code)
    requires CodeAt(p, i, a + b)
    ensures CodeAt(p, i, a) && CodeAt(p, i + |a|, b)
  {
    assert forall k :: 0 <= k < |a| ==> (a + b)[k] == a[k];
    forall k | 0 <= k < |b|
      ensures p[i + |a| + k] == b[k]
    {
      assert p[i + (|a| + k)] == (a + b)[|a| + k];
    }
  }

  lemma CodeFirst(p: Code, i: nat, x: Instr, b: Code)
    requires CodeAt(p, i, [x] + b)
    ensures i < |p| && p[i] == x && CodeAt(p, i + 1, b)
  {
    CodeParts(p, i, [x], b);
    assert p[i + 0] == [x][0];
  }

  /** A block between two keywords. */
  lemma Between(p: Code, i: nat, x: Instr, b: Block, tail: Code)
    requires CodeAt(p, i, [x] + (Flat(b) + tail))
    ensures i < |p| && p[i] == x && CodeAt(p, i + 1, Flat(b)) && CodeAt(p, i + 1 + |Flat(b)|, tail)
  {
    CodeFirst(p, i, x, Flat(b) + tail);
    CodeParts(p, i + 1, Flat(b), tail);
  }

  /** Where the parts of a loop and of the branches lie. */
  lemma LoopLayout(p: Code, i: nat, n: nat, body: Block)
    requires CodeAt(p, i, FlatStmt(Loop(n, body)))
    ensures var q := i + 1 + |Flat(body)|;
      && q < |p| && p[i] == For(n) && CodeAt(p, i + 1, Flat(body)) && p[q] == Endf
      && q + 1 == i + |FlatStmt(Loop(n, body))|
  {
    Between(p, i, For(n), body, [Endf]);
    CodeFirst(p, i + 1 + |Flat(body)|, Endf, []);
  }

  lemma ThenLayout(p: Code, i: nat, v: nat, thn: Block)
    requires CodeAt(p, i, FlatStmt(IfThen(v, thn)))
    ensures var q := i + 1 + |Flat(thn)|;
      && q < |p| && p[i] == If(v) && CodeAt(p, i + 1, Flat(thn)) && p[q] == Fi
      && q + 1 == i + |FlatStmt(IfThen(v, thn))|
  {
    Between(p, i, If(v), thn, [Fi]);
    CodeFirst(p, i + 1 + |Flat(thn)|, Fi, []);
  }

  lemma ElseLength(v: nat, thn: Block, els: Block)
    ensures |FlatStmt(IfElse(v, thn, els))| == |Flat(thn)| + |Flat(els)| + 3
  {
  }

  lemma ElseAt(p: Code, i: nat, v: nat, thn: Block, els: Block)
    requires CodeAt(p, i, FlatStmt(IfElse(v, thn, els)))
    ensures i < |p| && p[i] == If(v) && CodeAt(p, i + 1, Flat(thn))
    ensures CodeAt(p, i + 1 + |Flat(thn)|, [Else] + (Flat(els) + [Fi]))
  {
    Between(p, i, If(v), thn, [Else] + (Flat(els) + [Fi]));
  }

  lemma ElseLayout(p: Code, i: nat, v: nat, thn: Block, els: Block)
    requires CodeAt(p, i, FlatStmt(IfElse(v, thn, els)))
    ensures var e := i + 1 + |Flat(thn)|;
      var q := e + 1 + |Flat(els)|;
      && q < |p| && p[i] == If(v) && CodeAt(p, i + 1, Flat(thn)) && p[e] == Else
      && CodeAt(p, e + 1, Flat(els)) && p[q] == Fi
      && q + 1 == i + |FlatStmt(IfElse(v, thn, els))|
  {
    ElseAt(p, i, v, thn, els);
    ElseTail(p, i + 1 + |Flat(thn)|, els);
    ElseLength(v, thn, els);
  }

  lemma ElseTail(p: Code, e: nat, els: Block)
    requires CodeAt(p, e, [Else] + (Flat(els) + [Fi]))
    ensures var q := e + 1 + |Flat(els)|;
      q < |p| && p[e] == Else && CodeAt(p, e + 1, Flat(els)) && p[q] == Fi
  {
    Between(p, e, Else, els, [Fi]);
    CodeFirst(p, e + 1 + |Flat(els)|, Fi, []);
  }

  /** The forward scans pass over a whole block, at any depth. */
  ghost predicate Passes(p: Code, i: nat, j: nat, depth: int) {
    ScanIf(p, i, depth) == ScanIf(p, j, depth) && ScanElse(p, i, depth) == ScanElse(p, j, depth)
  }

  lemma {:induction false} ScanSkips(p: Code, i: nat, b: Block, depth: nat)
    requires CodeAt(p, i, Flat(b)) && depth + IfDepth(b) <= 127
    ensures Passes(p, i, i + |Flat(b)|, depth)
    decreases b
  {
    match b
    case Nil =>
    case Then(s, rest) =>
      var j := i + |FlatStmt(s)|;
      CodeParts(p, i, FlatStmt(s), Flat(rest));
      ScanSkipsStmt(p, i, s, depth);
      ScanSkips(p, j, rest, depth);
      assert Passes(p, i, j, depth) && Passes(p, j, j + |Flat(rest)|, depth);
  }

  lemma {:induction false} ScanSkipsStmt(p: Code, i: nat, s: Stmt, depth: nat)
    requires CodeAt(p, i, FlatStmt(s)) && depth + IfDepthStmt(s) <= 127
    ensures Passes(p, i, i + |FlatStmt(s)|, depth)
    decreases s
  {
    match s
    case Do(a) =>
      CodeFirst(p, i, Act(a), []);
    case Loop(n, body) =>
      LoopLayout(p, i, n, body);
      ScanSkips(p, i + 1, body, depth);
    case IfThen(v, thn) =>
      ThenLayout(p, i, v, thn);
      ScanSkips(p, i + 1, thn, depth + 1);
      BracketPasses(p, i, i + 1 + |Flat(thn)|, depth);
    case IfElse(v, thn, els) =>
      ElseLayout(p, i, v, thn, els);
      var e := i + 1 + |Flat(thn)|;
      ScanSkips(p, i + 1, thn, depth + 1);
      ScanSkips(p, e + 1, els, depth + 1);
      assert Passes(p, e, e + 1, depth + 1);
      assert Passes(p, i + 1, e + 1 + |Flat(els)|, depth + 1);
      BracketPasses(p, i, e + 1 + |Flat(els)|, depth);
  }

  lemma BracketPasses(p: Code, i: nat, q: nat, depth: nat)
    requires i < q < |p| && p[i].If? && p[q].Fi? && depth <= 126
    requires Passes(p, i + 1, q, depth + 1)
    ensures Passes(p, i, q + 1, depth)
  {
  }

  /** Scanning back over a block passes as many for as endf. */
  lemma {:induction false} ScanBackSkips(p: Code, at: nat, b: Block, i: nat, j: nat)
    requires CodeAt(p, at, Flat(b)) && i < j && j + Loops(b) <= 255
    ensures ScanBack(p, at + |Flat(b)|, i, j) == ScanBack(p, at, i + Loops(b), j + Loops(b))
    decreases b, 2
  {
    match b
    case Nil =>
    case Then(s, rest) =>
      var c := |FlatStmt(s)|;
      CodeParts(p, at, FlatStmt(s), Flat(rest));
      ScanBackSkips(p, at + c, rest, i, j);
      ScanBackSkipsStmt(p, at, s, i + Loops(rest), j + Loops(rest));
  }

  lemma {:induction false} ScanBackSkipsStmt(p: Code, at: nat, s: Stmt, i: nat, j: nat)
    requires CodeAt(p, at, FlatStmt(s)) && i < j && j + LoopsStmt(s) <= 255
    ensures ScanBack(p, at + |FlatStmt(s)|, i, j) == ScanBack(p, at, i + LoopsStmt(s), j + LoopsStmt(s))
    decreases s, 1
  {
    match s
    case Do(a) =>
      CodeFirst(p, at, Act(a), []);
    case Loop(n, body) =>
      LoopLayout(p, at, n, body);
      ScanBackSkips(p, at + 1, body, i, j + 1);
    case IfThen(v, thn) =>
      ThenLayout(p, at, v, thn);
      ScanBackSkips(p, at + 1, thn, i, j);
    case IfElse(v, thn, els) =>
      ScanBackSkipsElse(p, at, v, thn, els, i, j);
  }

  lemma {:induction false} ScanBackSkipsElse(p: Code, at: nat, v: nat, thn: Block, els: Block, i: nat, j: nat)
    requires CodeAt(p, at, FlatStmt(IfElse(v, thn, els))) && i < j && j + Loops(thn) + Loops(els) <= 255
    ensures ScanBack(p, at + |FlatStmt(IfElse(v, thn, els))|, i, j)
         == ScanBack(p, at, i + Loops(thn) + Loops(els), j + Loops(thn) + Loops(els))
    decreases IfElse(v, thn, els), 0
  {
    ElseLayout(p, at, v, thn, els);
    var e := at + 1 + |Flat(thn)|;
    ScanBackSkips(p, e + 1, els, i, j);
    ScanBackSkips(p, at + 1, thn, i + Loops(els), j + Loops(els));
    assert ScanBack(p, e + 1, i + Loops(els), j + Loops(els)) == ScanBack(p, e, i + Loops(els), j + Loops(els));
  }
}
