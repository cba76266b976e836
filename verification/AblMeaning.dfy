/** The flat ABL machine plays the structured program. */
module AblMeaning {
  import opened Abl

  /** Running on from m comes to m' after at least `least` instructions. */
  ghost predicate Leads(p: Code, env: Env, m: Machine, least: nat, m': Machine) {
    |m.forState| == FOR_DEPTH && exists n: nat :: n >= least && Run(p, env, m, n) == m'
  }

  lemma {:induction false} RunAdds(p: Code, env: Env, m: Machine, a: nat, b: nat)
    requires |m.forState| == FOR_DEPTH
    ensures Run(p, env, m, a + b) == Run(p, env, Run(p, env, m, a), b)
    decreases a
  {
    if a > 0 {
      RunAdds(p, env, Step(p, env, m), a - 1, b);
    }
  }

  lemma LeadsOn(p: Code, env: Env, m: Machine, a: nat, m1: Machine, b: nat, m2: Machine)
    requires Leads(p, env, m, a, m1) && Leads(p, env, m1, b, m2)
    ensures Leads(p, env, m, a + b, m2)
  {
    var i: nat :| i >= a && Run(p, env, m, i) == m1;
    var j: nat :| j >= b && Run(p, env, m1, j) == m2;
    RunAdds(p, env, m, i, j);
  }

  lemma LeadsLess(p: Code, env: Env, m: Machine, a: nat, b: nat, m': Machine)
    requires Leads(p, env, m, a, m') && b <= a
    ensures Leads(p, env, m, b, m')
  {
  }

  lemma Stay(p: Code, env: Env, m: Machine)
    requires |m.forState| == FOR_DEPTH
    ensures Leads(p, env, m, 0, m)
  {
    assert Run(p, env, m, 0) == m;
  }

  lemma OneStep(p: Code, env: Env, m: Machine)
    requires |m.forState| == FOR_DEPTH
    ensures Leads(p, env, m, 1, Step(p, env, m))
  {
    assert Run(p, env, Step(p, env, m), 0) == Step(p, env, m);
    assert Run(p, env, m, 1) == Step(p, env, m);
  }

  /** A machine about to execute the instruction at i. */
  predicate Ready(m: Machine, i: nat) {
    !m.halted && m.ip == i && |m.forState| == FOR_DEPTH && m.ifState < 256
  }

  /** The counters of the loops open in m are as they were. */
  predicate OuterKept(m: Machine, m': Machine)
    requires |m.forState| == FOR_DEPTH && |m'.forState| == FOR_DEPTH
  {
    m'.loops == m.loops && forall k :: 0 <= k < m.loops && k < FOR_DEPTH ==> m'.forState[k] == m.forState[k]
  }

  /** m' has the effect e of a piece of program that ends in front of `end`; if e never leaves it, m' is
      still inside after at least `rounds` instructions. */
  ghost predicate Achieves(p: Code, env: Env, m: Machine, end: nat, e: Outcome, rounds: nat, m': Machine) {
    && |m.forState| == |m'.forState| == FOR_DEPTH && m'.done == e.done && !m'.halted
    && (if e.left then Leads(p, env, m, 0, m') && Ready(m', end) && OuterKept(m, m') && m'.ifState == e.bits
        else Leads(p, env, m, rounds, m'))
  }

  /** One piece after another. */
  lemma Sequence(p: Code, env: Env, m: Machine, mid: nat, e1: Outcome, m1: Machine,
                 end: nat, e2: Outcome, rounds: nat, m2: Machine)
    requires e1.left && Achieves(p, env, m, mid, e1, rounds, m1) && Achieves(p, env, m1, end, e2, rounds, m2)
    ensures Achieves(p, env, m, end, e2, rounds, m2)
  {
    LeadsOn(p, env, m, 0, m1, if e2.left then 0 else rounds, m2);
  }

  /** A single instruction in front of or behind a piece. */
  lemma StepFirst(p: Code, env: Env, m: Machine, end: nat, e: Outcome, rounds: nat, m': Machine)
    requires |m.forState| == FOR_DEPTH && Achieves(p, env, Step(p, env, m), end, e, rounds, m')
    ensures |m'.forState| == FOR_DEPTH
    ensures m'.done == e.done && !m'.halted
    ensures if e.left then Leads(p, env, m, 0, m') && Ready(m', end) && m'.ifState == e.bits else Leads(p, env, m, rounds, m')
  {
    OneStep(p, env, m);
    LeadsOn(p, env, m, 1, Step(p, env, m), if e.left then 0 else rounds, m');
    LeadsLess(p, env, m, 1 + (if e.left then 0 else rounds), if e.left then 0 else rounds, m');
  }

  /** The backward scan of an endf finds its own for. */
  lemma BackToFor(p: Code, i: nat, n: nat, body: Block)
    requires CodeAt(p, i, FlatStmt(Loop(n, body))) && Loops(body) <= 253
    ensures ScanBack(p, i + 1 + |Flat(body)|, 0, 1) == At(i + 1)
  {
    LoopLayout(p, i, n, body);
    ScanBackSkips(p, i + 1, body, 0, 1);
  }

  lemma {:induction false} BlockRuns(p: Code, env: Env, i: nat, b: Block, m: Machine, rounds: nat)
    returns (m': Machine)
    requires CodeAt(p, i, Flat(b)) && Fits(b) && Ready(m, i)
    ensures Achieves(p, env, m, i + |Flat(b)|, Play(b, env, m.loops, m.done, m.ifState, rounds), rounds, m')
    decreases b, 3, 0
  {
    match b
    case Nil =>
      Stay(p, env, m);
      m' := m;
    case Then(s, rest) =>
      CodeParts(p, i, FlatStmt(s), Flat(rest));
      var e := PlayStmt(s, env, m.loops, m.done, m.ifState, rounds);
      var m1 := StmtRuns(p, env, i, s, m, rounds);
      if e.left {
        var mid := i + |FlatStmt(s)|;
        m' := BlockRuns(p, env, mid, rest, m1, rounds);
        Sequence(p, env, m, mid, e, m1, mid + |Flat(rest)|, Play(rest, env, m.loops, e.done, e.bits, rounds), rounds, m');
      } else {
        m' := m1;
      }
  }

  /** What is left of the bounds inside a statement. */
  lemma FitsInside(s: Stmt)
    requires Fits(Then(s, Nil))
    ensures s.Loop? ==> Fits(s.body) && Loops(s.body) <= 253
    ensures s.IfThen? ==> Fits(s.thn) && IfDepth(s.thn) <= 126
    ensures s.IfElse? ==> Fits(s.thn) && Fits(s.els) && IfDepth(s.thn) <= 126 && IfDepth(s.els) <= 126
  {
    assert IfDepth(Nil) == 0 && Loops(Nil) == 0;
    assert IfDepth(Then(s, Nil)) == IfDepthStmt(s) && Loops(Then(s, Nil)) == LoopsStmt(s);
  }

  lemma {:induction false} StmtRuns(p: Code, env: Env, i: nat, s: Stmt, m: Machine, rounds: nat)
    returns (m': Machine)
    requires CodeAt(p, i, FlatStmt(s)) && Fits(Then(s, Nil)) && Ready(m, i)
    ensures Achieves(p, env, m, i + |FlatStmt(s)|, PlayStmt(s, env, m.loops, m.done, m.ifState, rounds), rounds, m')
    decreases s, 2, 0
  {
    FitsInside(s);
    match s
    case Do(a) =>
      CodeFirst(p, i, Act(a), []);
      OneStep(p, env, m);
      m' := Step(p, env, m);
      LeadsLess(p, env, m, 1, 0, m');
    case Loop(n, body) =>
      m' := LoopRuns(p, env, i, n, body, m, rounds);
    case IfThen(v, thn) =>
      m' := IfThenRuns(p, env, i, v, thn, m, rounds);
    case IfElse(v, thn, els) =>
      m' := IfElseRuns(p, env, i, v, thn, els, m, rounds);
  }

  /** A step, then a piece, then - if the piece was left - another step. */
  lemma Bracketed(p: Code, env: Env, m: Machine, end: nat, e: Outcome, rounds: nat, m2: Machine) returns (m': Machine)
    requires |m.forState| == FOR_DEPTH && Achieves(p, env, Step(p, env, m), end, e, rounds, m2)
    ensures |m'.forState| == FOR_DEPTH
    ensures if e.left then Leads(p, env, m, 0, m') && m' == Step(p, env, m2) else m' == m2 && Leads(p, env, m, rounds, m')
  {
    StepFirst(p, env, m, end, e, rounds, m2);
    if e.left {
      OneStep(p, env, m2);
      m' := Step(p, env, m2);
      LeadsOn(p, env, m, 0, m2, 1, m');
      LeadsLess(p, env, m, 1, 0, m');
    } else {
      m' := m2;
    }
  }

  /** Like Achieves, for a piece that also closes the innermost loop. */
  ghost predicate Closes(p: Code, env: Env, m: Machine, end: nat, e: Outcome, rounds: nat, m': Machine) {
    && |m.forState| == |m'.forState| == FOR_DEPTH && m'.done == e.done && !m'.halted
    && (if e.left then Leads(p, env, m, 0, m') && Ready(m', end) && Inner(m, m') && m'.ifState == e.bits
        else Leads(p, env, m, rounds, m'))
  }

  predicate Inner(m: Machine, m': Machine)
    requires |m.forState| == FOR_DEPTH && |m'.forState| == FOR_DEPTH
  {
    m'.loops + 1 == m.loops && forall k :: 0 <= k < m'.loops && k < FOR_DEPTH ==> m'.forState[k] == m.forState[k]
  }

  /** A loop nested too deep: the body once, no counter touched. */
  lemma {:induction false} DeepLoopRuns(p: Code, env: Env, i: nat, n: nat, body: Block, m: Machine, rounds: nat)
    returns (m': Machine)
    requires CodeAt(p, i, FlatStmt(Loop(n, body))) && Fits(body) && Ready(m, i)
    requires m.loops >= FOR_DEPTH
    ensures var e := Play(body, env, m.loops + 1, m.done, m.ifState, rounds);
      && Achieves(p, env, m, i + |FlatStmt(Loop(n, body))|, e, rounds, m')
    decreases body, 4, 0
  {
    LoopLayout(p, i, n, body);
    var m1 := Step(p, env, m);
    var e := Play(body, env, m.loops + 1, m.done, m.ifState, rounds);
    var m2 := BlockRuns(p, env, i + 1, body, m1, rounds);
    m' := Bracketed(p, env, m, i + 1 + |Flat(body)|, e, rounds, m2);
  }

  lemma {:induction false} LoopRuns(p: Code, env: Env, i: nat, n: nat, body: Block, m: Machine, rounds: nat)
    returns (m': Machine)
    requires CodeAt(p, i, FlatStmt(Loop(n, body))) && Fits(body) && Loops(body) <= 253 && Ready(m, i)
    ensures var e := PlayStmt(Loop(n, body), env, m.loops, m.done, m.ifState, rounds);
      && Achieves(p, env, m, i + |FlatStmt(Loop(n, body))|, e, rounds, m')
    decreases body, 6, 0
  {
    if m.loops >= FOR_DEPTH {
      m' := DeepLoopRuns(p, env, i, n, body, m, rounds);
    } else {
      LoopLayout(p, i, n, body);
      OneStep(p, env, m);
      var m1 := Step(p, env, m);
      if n % 256 == 0 {
        m' := ForeverRuns(p, env, i, n, body, m1, rounds, rounds);
        LeadsOn(p, env, m, 1, m1, rounds, m');
        LeadsLess(p, env, m, 1 + rounds, rounds, m');
      } else {
        var e := PlayRepeat(body, env, m.loops + 1, m.done, m.ifState, rounds, n % 256);
        m' := RepeatRuns(p, env, i, n, body, m1, rounds, n % 256);
        var least := if e.left then 0 else rounds;
        LeadsOn(p, env, m, 1, m1, least, m');
        LeadsLess(p, env, m, 1 + least, least, m');
      }
    }
  }

  /** The endf of a loop with `times` rounds to go, the present one included; 0 stands for no end. */
  lemma EndOfRound(p: Code, env: Env, i: nat, n: nat, body: Block, m: Machine, times: nat)
    requires CodeAt(p, i, FlatStmt(Loop(n, body))) && Loops(body) <= 253 && Ready(m, i + 1 + |Flat(body)|)
    requires 1 <= m.loops <= FOR_DEPTH && m.forState[m.loops - 1] == times <= 255
    ensures var m' := Step(p, env, m);
      && m'.done == m.done && m'.ifState == m.ifState && |m'.forState| == FOR_DEPTH
      && (times == 1 ==> Ready(m', i + |FlatStmt(Loop(n, body))|) && Inner(m, m'))
      && (times != 1 ==> Ready(m', i + 1) && m'.loops == m.loops)
      && (times != 1 ==> m'.forState[m.loops - 1] == if times == 0 then 0 else times - 1)
      && (times != 1 ==> forall k :: 0 <= k < m.loops - 1 ==> m'.forState[k] == m.forState[k])
  {
    LoopLayout(p, i, n, body);
    BackToFor(p, i, n, body);
    assert times >= 1 ==> (times + 255) % 256 == times - 1;
  }

  lemma {:induction false} RepeatRuns(p: Code, env: Env, i: nat, n: nat, body: Block, m: Machine, rounds: nat, times: nat)
    returns (m': Machine)
    requires CodeAt(p, i, FlatStmt(Loop(n, body))) && Fits(body) && Loops(body) <= 253
    requires Ready(m, i + 1) && 1 <= m.loops <= FOR_DEPTH && m.forState[m.loops - 1] == times && 1 <= times <= 255
    ensures var e := PlayRepeat(body, env, m.loops, m.done, m.ifState, rounds, times);
      && Closes(p, env, m, i + |FlatStmt(Loop(n, body))|, e, rounds, m')
    decreases body, 4, times
  {
    LoopLayout(p, i, n, body);
    var e := Play(body, env, m.loops, m.done, m.ifState, rounds);
    var m1 := BlockRuns(p, env, i + 1, body, m, rounds);
    if !e.left {
      m' := m1;
    } else {
      EndOfRound(p, env, i, n, body, m1, times);
      OneStep(p, env, m1);
      var m2 := Step(p, env, m1);
      LeadsOn(p, env, m, 0, m1, 1, m2);
      if times == 1 {
        m' := m2;
        LeadsLess(p, env, m, 1, 0, m');
      } else {
        m' := RepeatRuns(p, env, i, n, body, m2, rounds, times - 1);
        var least := if PlayRepeat(body, env, m.loops, e.done, e.bits, rounds, times - 1).left then 0 else rounds;
        LeadsOn(p, env, m, 1, m2, least, m');
        LeadsLess(p, env, m, 1 + least, least, m');
      }
    }
  }

  /** for(0) goes on for as many rounds as one likes to watch. */
  lemma {:induction false} ForeverRuns(p: Code, env: Env, i: nat, n: nat, body: Block, m: Machine, rounds: nat, times: nat)
    returns (m': Machine)
    requires CodeAt(p, i, FlatStmt(Loop(n, body))) && Fits(body) && Loops(body) <= 253
    requires Ready(m, i + 1) && 1 <= m.loops <= FOR_DEPTH && m.forState[m.loops - 1] == 0 && times <= rounds
    ensures |m'.forState| == FOR_DEPTH && Leads(p, env, m, times, m') && !m'.halted
    ensures m'.done == PlayRepeat(body, env, m.loops, m.done, m.ifState, rounds, times).done
    decreases body, 5, times
  {
    if times == 0 {
      Stay(p, env, m);
      m' := m;
    } else {
      LoopLayout(p, i, n, body);
      var e := Play(body, env, m.loops, m.done, m.ifState, rounds);
      var m1 := BlockRuns(p, env, i + 1, body, m, rounds);
      if !e.left {
        m' := m1;
        LeadsLess(p, env, m, rounds, times, m');
      } else {
        EndOfRound(p, env, i, n, body, m1, 0);
        OneStep(p, env, m1);
        var m2 := Step(p, env, m1);
        LeadsOn(p, env, m, 0, m1, 1, m2);
        m' := ForeverRuns(p, env, i, n, body, m2, rounds, times - 1);
        LeadsOn(p, env, m, 1, m2, times - 1, m');
      }
    }
  }

  lemma {:induction false} IfThenRuns(p: Code, env: Env, i: nat, v: nat, thn: Block, m: Machine, rounds: nat)
    returns (m': Machine)
    requires CodeAt(p, i, FlatStmt(IfThen(v, thn))) && Fits(thn) && IfDepth(thn) <= 126 && Ready(m, i)
    ensures Achieves(p, env, m, i + |FlatStmt(IfThen(v, thn))|,
                     PlayStmt(IfThen(v, thn), env, m.loops, m.done, m.ifState, rounds), rounds, m')
    decreases thn, 4, 0
  {
    ThenLayout(p, i, v, thn);
    var m1 := Step(p, env, m);
    if env(m.done) == v {
      var m2 := BlockRuns(p, env, i + 1, thn, m1, rounds);
      m' := Bracketed(p, env, m, i + 1 + |Flat(thn)|, Play(thn, env, m.loops, m.done, m1.ifState, rounds), rounds, m2);
    } else {
      ScanSkips(p, i + 1, thn, 0);
      OneStep(p, env, m);
      m' := m1;
      LeadsLess(p, env, m, 1, 0, m');
    }
  }

  /** From the beginning of an else part on, through its fi. */
  lemma {:induction false} ElseRuns(p: Code, env: Env, at: nat, els: Block, m: Machine, m1: Machine, rounds: nat)
    returns (m': Machine)
    requires CodeAt(p, at, [Else] + (Flat(els) + [Fi])) && Fits(els)
    requires Leads(p, env, m, 0, m1) && Ready(m1, at + 1) && OuterKept(m, m1)
    ensures Achieves(p, env, m, at + 2 + |Flat(els)|,
                     Popped(Play(els, env, m1.loops, m1.done, m1.ifState, rounds)), rounds, m')
    decreases els, 4, 0
  {
    ElseTail(p, at, els);
    var e := Play(els, env, m1.loops, m1.done, m1.ifState, rounds);
    var m2 := BlockRuns(p, env, at + 1, els, m1, rounds);
    m' := m2;
    LeadsOn(p, env, m, 0, m1, if e.left then 0 else rounds, m2);
    if e.left {
      m' := Step(p, env, m2);
      OneStep(p, env, m2);
      LeadsOn(p, env, m, 0, m2, 1, m');
      LeadsLess(p, env, m, 1, 0, m');
    }
  }

  lemma {:induction false} NotTakenRuns(p: Code, env: Env, i: nat, v: nat, thn: Block, els: Block, m: Machine, rounds: nat)
    returns (m': Machine)
    requires CodeAt(p, i, FlatStmt(IfElse(v, thn, els))) && Fits(thn) && Fits(els) && Ready(m, i)
    requires IfDepth(thn) <= 126 && env(m.done) != v
    ensures var e := Popped(Play(els, env, m.loops, m.done, (m.ifState * 2) % 256, rounds));
      Achieves(p, env, m, i + |FlatStmt(IfElse(v, thn, els))|, e, rounds, m')
    decreases els, 5, 0
  {
    ElseLayout(p, i, v, thn, els);
    ElseAt(p, i, v, thn, els);
    ScanSkips(p, i + 1, thn, 0);
    var m1 := Step(p, env, m);
    OneStep(p, env, m);
    LeadsLess(p, env, m, 1, 0, m1);
    m' := ElseRuns(p, env, i + 1 + |Flat(thn)|, els, m, m1, rounds);
  }

  lemma {:induction false} TakenRuns(p: Code, env: Env, i: nat, v: nat, thn: Block, els: Block, m: Machine, rounds: nat)
    returns (m': Machine)
    requires CodeAt(p, i, FlatStmt(IfElse(v, thn, els))) && Fits(thn) && Fits(els) && Ready(m, i)
    requires IfDepth(els) <= 126 && env(m.done) == v
    ensures var e := Play(thn, env, m.loops, m.done, (m.ifState * 2) % 256 + 1, rounds);
      && Achieves(p, env, m, if e.left && e.bits % 2 == 0 then i + 2 + |Flat(thn)| else i + |FlatStmt(IfElse(v, thn, els))|,
                  e, rounds, m')
    decreases thn, 4, 0
  {
    ElseLayout(p, i, v, thn, els);
    var at := i + 1 + |Flat(thn)|;
    var m1 := Step(p, env, m);
    var m2 := BlockRuns(p, env, i + 1, thn, m1, rounds);
    ScanSkips(p, at + 1, els, 0);
    m' := Bracketed(p, env, m, at, Play(thn, env, m.loops, m.done, m1.ifState, rounds), rounds, m2);
  }

  /** if with else. */
  lemma {:induction false} IfElseRuns(p: Code, env: Env, i: nat, v: nat, thn: Block, els: Block, m: Machine, rounds: nat)
    returns (m': Machine)
    requires CodeAt(p, i, FlatStmt(IfElse(v, thn, els))) && Fits(thn) && Fits(els) && Ready(m, i)
    requires IfDepth(thn) <= 126 && IfDepth(els) <= 126
    ensures var e := PlayStmt(IfElse(v, thn, els), env, m.loops, m.done, m.ifState, rounds);
      Achieves(p, env, m, i + |FlatStmt(IfElse(v, thn, els))|, e, rounds, m')
    decreases IfElse(v, thn, els), 1, 0
  {
    if env(m.done) == v {
      var e := Play(thn, env, m.loops, m.done, (m.ifState * 2) % 256 + 1, rounds);
      m' := TakenRuns(p, env, i, v, thn, els, m, rounds);
      if e.left && e.bits % 2 == 0 {
        ElseLength(v, thn, els);
        ElseAt(p, i, v, thn, els);
        m' := ElseRuns(p, env, i + 1 + |Flat(thn)|, els, m, m', rounds);
      }
    } else {
      m' := NotTakenRuns(p, env, i, v, thn, els, m, rounds);
    }
  }

  /* ---- Whole programs ---- */

  /** A block that is left does the same however long endless loops would have been followed. */
  lemma {:induction false} LeftIsExact(b: Block, env: Env, loops: nat, done: seq<nat>, bits: nat, r: nat, r': nat)
    requires Play(b, env, loops, done, bits, r).left
    ensures Play(b, env, loops, done, bits, r') == Play(b, env, loops, done, bits, r)
    decreases b, 1, 0
  {
    if b.Then? {
      var e := PlayStmt(b.first, env, loops, done, bits, r);
      LeftIsExactStmt(b.first, env, loops, done, bits, r, r');
      LeftIsExact(b.rest, env, loops, e.done, e.bits, r, r');
    }
  }

  lemma {:induction false} LeftIsExactStmt(s: Stmt, env: Env, loops: nat, done: seq<nat>, bits: nat, r: nat, r': nat)
    requires PlayStmt(s, env, loops, done, bits, r).left
    ensures PlayStmt(s, env, loops, done, bits, r') == PlayStmt(s, env, loops, done, bits, r)
    decreases s, 0, 0
  {
    var pushed := (bits * 2) % 256;
    match s
    case Do(_) =>
    case Loop(n, body) =>
      if loops >= FOR_DEPTH {
        LeftIsExact(body, env, loops + 1, done, bits, r, r');
      } else {
        LeftIsExactRepeat(body, env, loops + 1, done, bits, r, r', n % 256);
      }
    case IfThen(v, thn) =>
      if env(done) == v {
        LeftIsExact(thn, env, loops, done, pushed + 1, r, r');
      }
    case IfElse(v, thn, els) =>
      if env(done) != v {
        LeftIsExact(els, env, loops, done, pushed, r, r');
      } else {
        var e := Play(thn, env, loops, done, pushed + 1, r);
        LeftIsExact(thn, env, loops, done, pushed + 1, r, r');
        if e.bits % 2 == 0 {
          LeftIsExact(els, env, loops, e.done, e.bits, r, r');
        }
      }
  }

  lemma {:induction false} LeftIsExactRepeat(body: Block, env: Env, loops: nat, done: seq<nat>, bits: nat, r: nat, r': nat,
                                             times: nat)
    requires PlayRepeat(body, env, loops, done, bits, r, times).left
    ensures PlayRepeat(body, env, loops, done, bits, r', times) == PlayRepeat(body, env, loops, done, bits, r, times)
    decreases body, 2, times
  {
    if times > 0 {
      var e := Play(body, env, loops, done, bits, r);
      LeftIsExact(body, env, loops, done, bits, r, r');
      LeftIsExactRepeat(body, env, loops, e.done, e.bits, r, r', times - 1);
    }
  }

  /** The interpreter at the start of a program. */
  function Start(forState: seq<nat>): Machine {
    Machine(0, 0, 0, forState, [], false)
  }

  lemma {:induction false} HaltedStays(p: Code, env: Env, m: Machine, n: nat)
    requires |m.forState| == FOR_DEPTH && m.halted
    ensures Run(p, env, m, n) == m
    decreases n
  {
    if n > 0 {
      HaltedStays(p, env, m, n - 1);
    }
  }

  /** What the flat program comes to: the calls of an outcome, after which it stops, or, if the outcome never
      leaves the program, those of as many rounds as one likes. */
  ghost predicate ComesTo(b: Block, env: Env, forState: seq<nat>, rounds: nat, done: seq<nat>, left: bool)
    requires |forState| == FOR_DEPTH
  {
    exists n: nat :: n >= (if left then 0 else rounds)
      && Run(Flat(b), env, Start(forState), n).done == done
      && Run(Flat(b), env, Start(forState), n).halted == left
  }

  /** Every bracketed program is played. */
  lemma ProgramIsPlayed(b: Block, env: Env, forState: seq<nat>, rounds: nat)
    requires |forState| == FOR_DEPTH && Fits(b)
    ensures var e := Play(b, env, 0, [], 0, rounds);
      ComesTo(b, env, forState, rounds, e.done, e.left)
  {
    var p, m := Flat(b), Start(forState);
    var e := Play(b, env, 0, [], 0, rounds);
    var m1 := BlockRuns(p, env, 0, b, m, rounds);
    if e.left {
      OneStep(p, env, m1);
      LeadsOn(p, env, m, 0, m1, 1, Step(p, env, m1));
      var n: nat :| Run(p, env, m, n) == Step(p, env, m1);
      assert Run(p, env, m, n).halted;
    } else {
      var n: nat :| n >= rounds && Run(p, env, m, n) == m1;
      assert Run(p, env, m, n).done == e.done;
    }
  }

  lemma EndlessNeverHalts(b: Block, env: Env, forState: seq<nat>, n: nat)
    requires |forState| == FOR_DEPTH && Fits(b) && !Play(b, env, 0, [], 0, 0).left
    ensures !Run(Flat(b), env, Start(forState), n).halted
  {
    var p, m := Flat(b), Start(forState);
    if Play(b, env, 0, [], 0, n).left {
      LeftIsExact(b, env, 0, [], 0, n, 0);
      assert false;
    }
    ProgramIsPlayed(b, env, forState, n);
    var k: nat :| k >= n && !Run(p, env, m, k).halted;
    RunAdds(p, env, m, n, k - n);
    if Run(p, env, m, n).halted {
      HaltedStays(p, env, Run(p, env, m, n), k - n);
    }
  }

  /** The interpreter stops exactly if the played program has an end. */
  lemma HaltsIffLeft(b: Block, env: Env, forState: seq<nat>)
    requires |forState| == FOR_DEPTH && Fits(b)
    ensures (exists n: nat :: Run(Flat(b), env, Start(forState), n).halted) <==> Play(b, env, 0, [], 0, 0).left
  {
    if Play(b, env, 0, [], 0, 0).left {
      ProgramIsPlayed(b, env, forState, 0);
      var n: nat :| Run(Flat(b), env, Start(forState), n).halted;
      assert exists k: nat :: Run(Flat(b), env, Start(forState), k).halted;
    } else {
      forall n: nat
        ensures !Run(Flat(b), env, Start(forState), n).halted
      {
        EndlessNeverHalts(b, env, forState, n);
      }
      assert !exists k: nat :: Run(Flat(b), env, Start(forState), k).halted;
    }
  }

  /* ---- When the program is played as it is meant ---- */

  /** The outcome is the meaning, and if_state is as kept as stated. */
  predicate AsMeant(e: Effect, o: Outcome, keeps: bool, free: bool, bits: nat) {
    && o.done == e.done && o.left == e.left
    && (o.left ==> (keeps && bits % 2 == 1 ==> o.bits % 2 == 1) && (free ==> o.bits == bits))
  }

  lemma {:induction false} SteadyPlays(b: Block, env: Env, loops: nat, done: seq<nat>, bits: nat, rounds: nat)
    requires Steady(b)
    ensures AsMeant(Exec(b, env, loops, done, rounds), Play(b, env, loops, done, bits, rounds), KeepsOne(b), IfFree(b), bits)
    decreases b, 1, 0
  {
    if b.Then? {
      var o := PlayStmt(b.first, env, loops, done, bits, rounds);
      SteadyPlaysStmt(b.first, env, loops, done, bits, rounds);
      if o.left {
        SteadyPlays(b.rest, env, loops, o.done, o.bits, rounds);
      }
    }
  }

  lemma {:induction false} SteadyPlaysStmt(s: Stmt, env: Env, loops: nat, done: seq<nat>, bits: nat, rounds: nat)
    requires SteadyStmt(s)
    ensures AsMeant(ExecStmt(s, env, loops, done, rounds), PlayStmt(s, env, loops, done, bits, rounds),
                    KeepsOneStmt(s), IfFreeStmt(s), bits)
    decreases s, 0, 1
  {
    match s
    case Do(_) =>
    case Loop(n, body) =>
      SteadyPlays(body, env, loops + 1, done, bits, rounds);
      SteadyPlaysRepeat(body, env, loops + 1, done, bits, rounds, if n % 256 == 0 then rounds else n % 256);
    case IfThen(v, thn) =>
      SteadyPlays(thn, env, loops, done, (bits * 2) % 256 + 1, rounds);
    case IfElse(v, thn, els) =>
      SteadyPlaysIf(v, thn, els, env, loops, done, bits, rounds);
  }

  lemma {:induction false} SteadyPlaysIf(v: nat, thn: Block, els: Block, env: Env, loops: nat, done: seq<nat>, bits: nat,
                                         rounds: nat)
    requires KeepsOne(thn) && Steady(thn) && Steady(els)
    ensures AsMeant(ExecStmt(IfElse(v, thn, els), env, loops, done, rounds),
                    PlayStmt(IfElse(v, thn, els), env, loops, done, bits, rounds), IfFree(els), false, bits)
    decreases IfElse(v, thn, els), 0, 0
  {
    var pushed := (bits * 2) % 256;
    if env(done) == v {
      SteadyPlays(thn, env, loops, done, pushed + 1, rounds);
    } else {
      SteadyPlays(els, env, loops, done, pushed, rounds);
    }
  }

  lemma {:induction false} SteadyPlaysRepeat(body: Block, env: Env, loops: nat, done: seq<nat>, bits: nat, rounds: nat,
                                             times: nat)
    requires Steady(body)
    ensures AsMeant(Repeat(body, env, loops, done, rounds, times), PlayRepeat(body, env, loops, done, bits, rounds, times),
                    KeepsOne(body), IfFree(body), bits)
    decreases body, 2, times
  {
    if times > 0 {
      var o := Play(body, env, loops, done, bits, rounds);
      SteadyPlays(body, env, loops, done, bits, rounds);
      if o.left {
        SteadyPlaysRepeat(body, env, loops, o.done, o.bits, rounds, times - 1);
      }
    }
  }

  /** The flat program makes the calls of the structured one if every part before an else keeps its bit: all
      of them, after which it stops, or, if the program never ends, those of as many rounds as one likes. */
  lemma ProgramMeaning(b: Block, env: Env, forState: seq<nat>, rounds: nat)
    requires |forState| == FOR_DEPTH && Fits(b) && Steady(b)
    ensures var e := Exec(b, env, 0, [], rounds);
      ComesTo(b, env, forState, rounds, e.done, e.left)
  {
    ProgramIsPlayed(b, env, forState, rounds);
    SteadyPlays(b, env, 0, [], 0, rounds);
  }

  lemma UnsteadyPlay(env: Env, inner: Block, els: Block)
    requires forall done :: env(done) == 1
    requires inner == Then(IfThen(2, Then(Do(7), Nil)), Nil) && els == Then(Do(8), Nil)
    ensures ExecStmt(IfElse(1, inner, els), env, 0, [], 0) == Effect([], true)
    ensures PlayStmt(IfElse(1, inner, els), env, 0, [], 0, 0) == Outcome([8], 1, true)
  {
    assert Exec(inner, env, 0, [], 0) == Effect([], true);
    assert Play(inner, env, 0, [], 1, 0) == Outcome([], 2, true);
    assert Play(els, env, 0, [], 2, 0) == Outcome([8], 2, true);
  }

  lemma UnsteadyFits(inner: Block, els: Block)
    requires inner == Then(IfThen(2, Then(Do(7), Nil)), Nil) && els == Then(Do(8), Nil)
    ensures Fits(Then(IfElse(1, inner, els), Nil))
  {
    assert IfDepth(els) == 0 && Loops(els) == 0;
    assert IfDepth(Then(Do(7), Nil)) == 0 && Loops(Then(Do(7), Nil)) == 0;
    assert IfDepth(inner) == 1 && Loops(inner) == 0;
    assert IfDepthStmt(IfElse(1, inner, els)) == 2 && LoopsStmt(IfElse(1, inner, els)) == 0;
  }

  /** Why the part before an else must keep the lowest bit: with 1 on the stack, the structured program does
      nothing, but the fi of the inner if is consumed by its scan, and the else part runs. */
  lemma UnsteadyThenPart(env: Env, forState: seq<nat>)
    requires (forall done :: env(done) == 1) && |forState| == FOR_DEPTH
    ensures var b := Then(IfElse(1, Then(IfThen(2, Then(Do(7), Nil)), Nil), Then(Do(8), Nil)), Nil);
      && Exec(b, env, 0, [], 0) == Effect([], true)
      && ComesTo(b, env, forState, 0, [8], true)
  {
    var inner, els := Then(IfThen(2, Then(Do(7), Nil)), Nil), Then(Do(8), Nil);
    UnsteadyPlay(env, inner, els);
    UnsteadyFits(inner, els);
    ProgramIsPlayed(Then(IfElse(1, inner, els), Nil), env, forState, 0);
  }
}
