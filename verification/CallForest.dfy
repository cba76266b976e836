/** Who called whom among the behaviours of bot-logic.c, as values: one entry per behaviour of the list. */
module CallForest {

  /** Behaviour_t. */
  class Behaviour {
    const priority: nat        // uint8_t
    const work: nat            // stands for the work function
    var caller: Behaviour?
    var active: bool
    var subResult: nat         // 3 bits
    var next: Behaviour?

    /** new_behaviour. */
    constructor (priority: nat, work: nat, active: bool)
      ensures this.priority == priority && this.work == work && this.active == active
      ensures next == null && caller == null && subResult == SUBSUCCESS
    {
      this.priority, this.work, this.active := priority, work, active;
      next, caller, subResult := null, null, SUBSUCCESS;
    }
  }

  const SUBFAIL := 0
  const SUBSUCCESS := 1
  const SUBRUNNING := 2
  const SUBCANCEL := 3
  const SUBBACKGR := 4

  datatype Entry = Entry(active: bool, caller: Behaviour?, subResult: nat)

  type Forest = map<Behaviour, Entry>

  /** The k-th caller above b. */
  function Up(f: Forest, b: Behaviour?, k: nat): Behaviour? {
    if k == 0 then b
    else
      var a := Up(f, b, k - 1);
      if a == null || a !in f then null else f[a].caller
  }

  /** b was called by a, directly or through others. */
  ghost predicate Below(f: Forest, b: Behaviour, a: Behaviour) {
    exists k: nat :: k >= 1 && Up(f, b, k) == a
  }

  ghost predicate HasCallee(f: Forest, a: Behaviour) {
    exists b: Behaviour :: b in f && f[b].caller == a
  }

  /** Callers are behaviours of the list. */
  ghost predicate Closed(f: Forest) {
    forall b :: b in f && f[b].caller != null ==> f[b].caller in f
  }

  ghost predicate Acyclic(f: Forest) {
    forall b, k: nat :: b in f && k >= 1 ==> Up(f, b, k) != b
  }

  lemma {:induction false} UpAdds(f: Forest, b: Behaviour?, m: nat, n: nat)
    ensures Up(f, b, m + n) == Up(f, Up(f, b, m), n)
  {
    if n > 0 {
      UpAdds(f, b, m, n - 1);
    }
  }

  lemma {:induction false} UpInForest(f: Forest, b: Behaviour, k: nat)
    requires Closed(f) && b in f
    ensures Up(f, b, k) == null || Up(f, b, k) in f
  {
    if k > 0 {
      UpInForest(f, b, k - 1);
    }
  }

  /** All behaviours above b. */
  ghost function Above(f: Forest, b: Behaviour): set<Behaviour> {
    set a | a in f && Below(f, b, a)
  }

  /** Going up one call shrinks the set of behaviours above: the measure for walks through the forest. */
  lemma AboveShrinks(f: Forest, b: Behaviour)
    requires Closed(f) && Acyclic(f) && b in f && f[b].caller != null
    ensures Above(f, f[b].caller) < Above(f, b) && |Above(f, f[b].caller)| < |Above(f, b)| < |f|
  {
    var a := f[b].caller;
    assert Up(f, b, 0) == b && Up(f, b, 1) == a;
    forall c | c in Above(f, a)
      ensures c in Above(f, b)
    {
      var k: nat :| k >= 1 && Up(f, a, k) == c;
      UpAdds(f, b, 1, k);
    }
    assert a in Above(f, b) && a !in Above(f, a);
    Smaller(Above(f, a), Above(f, b));
    assert Above(f, b) <= f.Keys && b in f.Keys && b !in Above(f, b);
    Smaller(Above(f, b), f.Keys);
  }

  lemma Smaller(a: set<Behaviour>, b: set<Behaviour>)
    requires a < b
    ensures |a| < |b|
  {
    assert b == a + (b - a);
  }

  lemma AboveSize(f: Forest, b: Behaviour)
    requires Acyclic(f) && b in f
    ensures |Above(f, b)| < |f|
  {
    assert Above(f, b) <= f.Keys && b in f.Keys && b !in Above(f, b);
    Smaller(Above(f, b), f.Keys);
  }

  /** a does not show up within the first n calls above b. */
  ghost predicate NotWithin(f: Forest, b: Behaviour, n: nat, a: Behaviour) {
    forall k: nat :: 1 <= k <= n ==> Up(f, b, k) != a
  }

  /** One step up the chain of callers. */
  lemma ChainStep(f: Forest, b: Behaviour, n: nat, x: Behaviour, a: Behaviour)
    requires Closed(f) && Acyclic(f) && x in f && x == Up(f, b, n) && f[x].caller != null && NotWithin(f, b, n, a)
    ensures var y := f[x].caller;
      && y != x && y in f && Up(f, b, n + 1) == y && |Above(f, y)| < |Above(f, x)|
      && (if y == a then Below(f, b, a) else NotWithin(f, b, n + 1, a))
  {
    AboveShrinks(f, x);
    assert Up(f, x, 0) == x && Up(f, x, 1) == f[x].caller;
    assert Up(f, b, n + 1) == f[x].caller;
  }

  /** Past the end of a chain there is nobody. */
  lemma ChainEnds(f: Forest, b: Behaviour, n: nat, x: Behaviour, a: Behaviour)
    requires x in f && x == Up(f, b, n) && f[x].caller == null && NotWithin(f, b, n, a)
    ensures !Below(f, b, a)
  {
    forall k: nat | k > n
      ensures Up(f, b, k) == null
    {
      assert Up(f, b, n + 1) == null;
      UpAdds(f, b, n + 1, k - n - 1);
      NullStays(f, k - n - 1);
    }
  }

  /** The forest without behaviours that are entered as their own caller. */
  ghost function Trimmed(f: Forest): Forest {
    map b | b in f :: if f[b].caller == b then f[b].(caller := null) else f[b]
  }

  lemma TrimmedAcyclic(f: Forest)
    requires Acyclic(f)
    ensures Trimmed(f) == f
  {
    forall b | b in f
      ensures f[b].caller != b
    {
      assert Up(f, b, 0) == b && Up(f, b, 1) == f[b].caller;
    }
  }

  /* ---- switch_to_behaviour and exit_behaviour ---- */

  predicate Busy(e: Entry) {
    e.caller != null || e.active || e.subResult == SUBRUNNING
  }

  /** switch_to_behaviour, `job` being the behaviour found for the target, or null. */
  function Switch(f: Forest, from: Behaviour?, job: Behaviour?, override: bool, background: bool): Forest
    requires Closed(f) && (from == null || from in f) && (job == null || job in f)
  {
    if job == null || (Busy(f[job]) && !override) then
      if from == null then f else f[from := f[from].(subResult := SUBFAIL)]
    else
      var was := f[job].caller;
      var f1 := if was != null then f[was := f[was].(active := true, subResult := SUBFAIL)] else f;
      var f2 := if from == null then f1
                else if background then f1[from := f1[from].(subResult := SUBBACKGR)]
                else f1[from := f1[from].(active := false, subResult := SUBRUNNING)];
      f2[job := f2[job].(active := true, caller := from)]
  }

  /** exit_behaviour; only three bits of the state reach the caller. */
  function Exit(f: Forest, b: Behaviour, state: nat): Forest
    requires Closed(f) && b in f
  {
    var f1 := f[b := f[b].(active := false)];
    var a := f[b].caller;
    var f2 := if a != null then f1[a := f1[a].(active := true, subResult := state % 8)] else f1;
    f2[b := f2[b].(caller := null)]
  }

  /** A call that goes through. */
  predicate Accepted(f: Forest, job: Behaviour?, override: bool)
    requires job == null || job in f
  {
    job != null && (override || !Busy(f[job]))
  }

  /* ---- What the two operations do to each behaviour ---- */

  /** A call of job by `from` went through: job runs for `from`, which waits in front of it or goes on beside
      it, and a former caller goes on with a failure. */
  ghost predicate WentThrough(f: Forest, f': Forest, from: Behaviour?, job: Behaviour, background: bool)
    requires job in f && (from == null || from in f)
  {
    var former := f[job].caller;
    && f'.Keys == f.Keys
    && f'[job].active && f'[job].caller == from
    && f'[job].subResult == (if from == job then (if background then SUBBACKGR else SUBRUNNING)
                             else if former == job then SUBFAIL else f[job].subResult)
    && (from != null && from != job && !background ==> f'[from] == Entry(false, f[from].caller, SUBRUNNING))
    && (from != null && from != job && background ==>
          f'[from] == Entry(f[from].active || former == from, f[from].caller, SUBBACKGR))
    && (forall b :: b in f && b == former && b != from && b != job ==> f'[b] == Entry(true, f[b].caller, SUBFAIL))
    && (forall b :: b in f && b != former && b != from && b != job ==> f'[b] == f[b])
  }

  /** A call was refused: only the caller learns of it. */
  ghost predicate Refused(f: Forest, f': Forest, from: Behaviour?) {
    f'.Keys == f.Keys && forall b :: b in f ==>
      f'[b] == Entry(f[b].active, f[b].caller, if b == from then SUBFAIL else f[b].subResult)
  }

  lemma SwitchOnFields(f: Forest, from: Behaviour?, job: Behaviour?, override: bool, background: bool)
    requires Closed(f) && (from == null || from in f) && (job == null || job in f)
    ensures var f' := Switch(f, from, job, override, background);
      if job == null || ((f[job].caller != null || f[job].active || f[job].subResult == SUBRUNNING) && !override)
      then Refused(f, f', from) && !Accepted(f, job, override)
      else WentThrough(f, f', from, job, background) && Accepted(f, job, override)
  {
  }

  /** b has reported to its caller: b is off and free, the caller goes on with the lower three bits. */
  ghost predicate Reported(f: Forest, f': Forest, b: Behaviour, state: nat)
    requires b in f
  {
    var a := f[b].caller;
    && f'.Keys == f.Keys
    && f'[b] == (if a == b then Entry(true, null, state % 8) else Entry(false, null, f[b].subResult))
    && (forall x :: x in f && x == a && x != b ==> f'[x] == Entry(true, f[x].caller, state % 8))
    && (forall x :: x in f && x != a && x != b ==> f'[x] == f[x])
  }

  lemma ExitOnFields(f: Forest, b: Behaviour, state: nat)
    requires Closed(f) && b in f
    ensures Reported(f, Exit(f, b, state), b, state)
  {
  }

  /* ---- Callers never form a cycle ---- */

  /** Relinking job changes walks upwards only after they pass job. */
  lemma {:induction false} WalkUntilJob(f: Forest, f': Forest, job: Behaviour, b: Behaviour?, n: nat)
    requires f.Keys == f'.Keys && forall x :: x in f && x != job ==> f'[x].caller == f[x].caller
    ensures Up(f', b, n) == Up(f, b, n) || exists m: nat :: m < n && Up(f, b, m) == job && Up(f', b, m) == job
  {
    if n > 0 {
      WalkUntilJob(f, f', job, b, n - 1);
    }
  }

  lemma LinkKeepsAcyclic(f: Forest, f': Forest, job: Behaviour, from: Behaviour?)
    requires Acyclic(f) && job in f
    requires f.Keys == f'.Keys && forall x :: x in f && x != job ==> f'[x].caller == f[x].caller
    requires f'[job].caller == from
    requires from != null ==> from != job && !Below(f, from, job)
    ensures Acyclic(f')
  {
    forall b, k: nat | b in f' && k >= 1
      ensures Up(f', b, k) != b
    {
      if Up(f', b, k) == b {
        WalkUntilJob(f, f', job, b, k);
        var m: nat :| m < k && Up(f', b, m) == job;
        UpAdds(f', b, m, k);
        UpAdds(f', b, k, m);
        assert Up(f', job, k) == job;
        UpAdds(f', job, 1, k - 1);
        assert Up(f', job, 0) == job && Up(f', job, 1) == from;
        NullStays(f', k - 1);
        assert Up(f, from, 0) == from;
        WalkUntilJob(f, f', job, from, k - 1);
      }
    }
  }

  lemma {:induction false} NullStays(f: Forest, k: nat)
    ensures Up(f, null, k) == null
  {
    if k > 0 {
      NullStays(f, k - 1);
    }
  }

  /** The first time a walk upwards meets job, if it does. */
  lemma {:induction false} FirstVisit(f: Forest, job: Behaviour, b: Behaviour, n: nat) returns (m: nat)
    requires Up(f, b, n) == job
    ensures m <= n && Up(f, b, m) == job && forall i: nat :: i < m ==> Up(f, b, i) != job
  {
    m := n;
    if exists i: nat :: i < n && Up(f, b, i) == job {
      var i: nat :| i < n && Up(f, b, i) == job;
      m := FirstVisit(f, job, b, i);
    }
  }

  /** An accepted call keeps the callers free of cycles exactly if the target is neither the caller nor
      above it. */
  lemma SwitchAcyclic(f: Forest, from: Behaviour?, job: Behaviour, override: bool, background: bool)
    requires Closed(f) && Acyclic(f) && (from == null || from in f) && job in f && Accepted(f, job, override)
    ensures var f' := Switch(f, from, job, override, background);
      Acyclic(f') <==> (from != null ==> from != job && !Below(f, from, job))
  {
    var f' := Switch(f, from, job, override, background);
    assert f.Keys == f'.Keys && forall x :: x in f && x != job ==> f'[x].caller == f[x].caller;
    if from == null || (from != job && !Below(f, from, job)) {
      LinkKeepsAcyclic(f, f', job, from);
    } else {
      assert Up(f, from, 0) == from;
      var n: nat :| Up(f, from, n) == job;
      var m := FirstVisit(f, job, from, n);
      WalkUntilJob(f, f', job, from, m);
      assert Up(f', job, 0) == job && Up(f', job, 1) == from;
      UpAdds(f', job, 1, m);
      assert Up(f', job, m + 1) == job;
    }
  }

  /* ---- What holds over all runs ---- */

  /** Callers are listed and acyclic; who was called is active or waits for somebody it called itself; and
      who waits (SUBRUNNING) has a callee that will report back. */
  ghost predicate Sound(f: Forest) {
    && Closed(f)
    && Acyclic(f)
    && (forall b :: b in f && f[b].caller != null ==> f[b].active || HasCallee(f, b))
    && (forall b :: b in f && f[b].subResult == SUBRUNNING ==> HasCallee(f, b))
  }

  lemma SwitchSound(f: Forest, from: Behaviour?, job: Behaviour?, override: bool, background: bool)
    requires Sound(f) && (from == null || from in f) && (job == null || job in f)
    requires from != null && job != null && Accepted(f, job, override) ==> from != job && !Below(f, from, job)
    ensures Sound(Switch(f, from, job, override, background))
  {
    var f' := Switch(f, from, job, override, background);
    if Accepted(f, job, override) {
      SwitchAcyclic(f, from, job, override, background);
      CalleesAfterSwitch(f, from, job, override, background);
    } else {
      SameCallers(f, f');
    }
  }

  /** Only the former caller of the job can lose a callee. */
  lemma CalleesAfterSwitch(f: Forest, from: Behaviour?, job: Behaviour?, override: bool, background: bool)
    requires Closed(f) && (from == null || from in f) && job != null && job in f && Accepted(f, job, override)
    ensures var f' := Switch(f, from, job, override, background);
      && (forall b :: b in f' && HasCallee(f, b) && b != f[job].caller ==> HasCallee(f', b))
      && (from != null ==> HasCallee(f', from))
  {
    var f' := Switch(f, from, job, override, background);
    forall b | b in f' && HasCallee(f, b) && b != f[job].caller
      ensures HasCallee(f', b)
    {
      var c: Behaviour :| c in f && f[c].caller == b;
      assert c in f' && f'[c].caller == b;
    }
    if from != null {
      assert job in f' && f'[job].caller == from;
    }
  }

  /** The same callers mean the same chains and callees. */
  lemma SameCallers(f: Forest, f': Forest)
    requires f.Keys == f'.Keys && forall b :: b in f ==> f'[b].caller == f[b].caller
    ensures Closed(f) ==> Closed(f')
    ensures Acyclic(f) ==> Acyclic(f')
    ensures forall b :: HasCallee(f, b) ==> HasCallee(f', b)
  {
    forall b, k: nat
      ensures Up(f', b, k) == Up(f, b, k)
    {
      SameUp(f, f', b, k);
    }
    forall b | HasCallee(f, b)
      ensures HasCallee(f', b)
    {
      var c: Behaviour :| c in f && f[c].caller == b;
      assert c in f' && f'[c].caller == b;
    }
  }

  lemma {:induction false} SameUp(f: Forest, f': Forest, b: Behaviour?, k: nat)
    requires f.Keys == f'.Keys && forall x :: x in f ==> f'[x].caller == f[x].caller
    ensures Up(f', b, k) == Up(f, b, k)
  {
    if k > 0 {
      SameUp(f, f', b, k - 1);
    }
  }

  /** Reporting back keeps the forest sound exactly if it does not tell a caller, who then has no callee
      left, that it still waits. */
  lemma ExitSound(f: Forest, b: Behaviour, state: nat)
    requires Sound(f) && b in f
    ensures var f' := Exit(f, b, state);
      Sound(f') <==> (f[b].caller != null && state % 8 == SUBRUNNING ==> HasCallee(f', f[b].caller))
  {
    var f' := Exit(f, b, state);
    LinkKeepsAcyclic(f, f', b, null);
    CalleesAfterExit(f, b, state);
    if f[b].caller != null {
      assert f[b].caller != b by {
        assert Up(f, b, 0) == b && Up(f, b, 1) == f[b].caller;
      }
      assert f'[f[b].caller].active && f'[f[b].caller].subResult == state % 8;
    }
  }

  /** Only the former caller can lose a callee. */
  lemma CalleesAfterExit(f: Forest, b: Behaviour, state: nat)
    requires Closed(f) && b in f
    ensures forall x :: x in f && HasCallee(f, x) && x != f[b].caller ==> HasCallee(Exit(f, b, state), x)
  {
    var f' := Exit(f, b, state);
    forall x | x in f && HasCallee(f, x) && x != f[b].caller
      ensures HasCallee(f', x)
    {
      var c: Behaviour :| c in f && f[c].caller == x;
      assert c in f' && f'[c].caller == x;
    }
  }

  /** Whoever waits will be woken: below every waiting or called behaviour somebody is active. */
  lemma {:induction false} WaitingIsServed(f: Forest, b: Behaviour) returns (c: Behaviour)
    requires Sound(f) && b in f && HasCallee(f, b)
    ensures c in f && Below(f, c, b) && f[c].active
    decreases |f| - |Above(f, b)|
  {
    c :| c in f && f[c].caller == b;
    assert Up(f, c, 0) == c && Up(f, c, 1) == b;
    AboveShrinks(f, c);
    if !f[c].active {
      var d := WaitingIsServed(f, c);
      var k: nat :| k >= 1 && Up(f, d, k) == c;
      UpAdds(f, d, k, 1);
      c := d;
    }
  }

  /* ---- deactivate_called_behaviours ---- */

  /** Every behaviour at the end of a chain of calls from x is active. */
  ghost predicate LeavesActive(f: Forest, x: Behaviour) {
    forall y: Behaviour {:trigger HasCallee(f, y)} ::
      y in f && (y == x || Below(f, y, x)) && !HasCallee(f, y) ==> f[y].active
  }

  /** What the cascade from c takes down: everything below c with only active leaves under it. */
  ghost function Doomed(f: Forest, c: Behaviour): set<Behaviour> {
    set x | x in f && Below(f, x, c) && LeavesActive(f, x)
  }

  ghost function Cancelled(f: Forest, gone: set<Behaviour>): Forest {
    map b | b in f :: if b in gone then Entry(false, null, SUBCANCEL) else f[b]
  }

  /** deactivate_called_behaviours as one step. */
  ghost function Cancel(f: Forest, c: Behaviour): Forest
    requires c in f
  {
    var f1 := Cancelled(f, Doomed(f, c));
    f1[c := f1[c].(subResult := SUBCANCEL, active := true)]
  }

  /** The callees of c were taken down: who is below c and has only active leaves under it is off, free and
      told so; c itself goes on and is told so, too; all others are as before. */
  ghost predicate TakenDown(f: Forest, f': Forest, c: Behaviour)
    requires c in f
  {
    && f'.Keys == f.Keys
    && f'[c] == Entry(true, f[c].caller, SUBCANCEL)
    && (forall b :: b in f && b != c && Below(f, b, c) && LeavesActive(f, b) ==> f'[b] == Entry(false, null, SUBCANCEL))
    && (forall b :: b in f && b != c && !(Below(f, b, c) && LeavesActive(f, b)) ==> f'[b] == f[b])
  }

  lemma CancelOnFields(f: Forest, c: Behaviour)
    requires Acyclic(f) && c in f
    ensures TakenDown(f, Cancel(f, c), c)
  {
    assert !Below(f, c, c);
  }

  /** All callees of x are gone. */
  ghost predicate Bare(f: Forest, gone: set<Behaviour>, x: Behaviour) {
    forall y: Behaviour :: y in f && f[y].caller == x ==> y in gone
  }

  /** The state of the cascade: only doomed behaviours are gone, each with all its callees, and every bare
      one still there is a leaf that was inactive or is still to be visited. `spare` is exempt: the climb
      looks at it next. */
  ghost predicate Progress(f: Forest, c: Behaviour, gone: set<Behaviour>, rest: set<Behaviour>, spare: Behaviour?) {
    && gone <= Doomed(f, c)
    && (forall x {:trigger Bare(f, gone, x)} :: x in gone ==> Bare(f, gone, x))
    && forall x: Behaviour {:trigger Bare(f, gone, x)} ::
         x in f && Below(f, x, c) && x !in gone && Bare(f, gone, x) && x != spare ==>
         !HasCallee(f, x) && (x in rest || !f[x].active)
  }

  lemma StartProgress(f: Forest, c: Behaviour)
    ensures Progress(f, c, {}, f.Keys, null)
  {
    assert forall x: Behaviour :: Bare(f, {}, x) ==> !HasCallee(f, x);
  }

  /** A chain of callers that starts outside the gone behaviours is unchanged. */
  lemma {:induction false} ChainKept(f: Forest, gone: set<Behaviour>, b: Behaviour, k: nat)
    requires Closed(f) && b in f && b !in gone && forall x :: x in gone ==> Bare(f, gone, x)
    ensures Up(Cancelled(f, gone), b, k) == Up(f, b, k)
    ensures Up(f, b, k) != null ==> Up(f, b, k) in f && Up(f, b, k) !in gone
  {
    if k > 0 {
      ChainKept(f, gone, b, k - 1);
      UpInForest(f, b, k);
    }
  }

  lemma BelowChain(f: Forest, x: Behaviour, a: Behaviour, c: Behaviour)
    requires Below(f, x, a) && Below(f, a, c)
    ensures Below(f, x, c)
  {
    var k: nat :| k >= 1 && Up(f, x, k) == a;
    var m: nat :| m >= 1 && Up(f, a, m) == c;
    UpAdds(f, x, k, m);
  }

  /** A bare behaviour that is active or lost callees is doomed. */
  lemma BareIsDoomed(f: Forest, c: Behaviour, gone: set<Behaviour>, x: Behaviour)
    requires x in f && Below(f, x, c) && Bare(f, gone, x) && gone <= Doomed(f, c)
    requires HasCallee(f, x) || f[x].active
    ensures x in Doomed(f, c)
  {
    forall y: Behaviour | y in f && (y == x || Below(f, y, x)) && !HasCallee(f, y)
      ensures f[y].active
    {
      if y != x {
        var k: nat :| k >= 1 && Up(f, y, k) == x;
        var z := Up(f, y, k - 1);
        assert z != null && z in gone && LeavesActive(f, z);
        assert y == z || Below(f, y, z) by {
          if k > 1 {
            assert Up(f, y, k - 1) == z;
          }
        }
      }
    }
  }

  /** One level of the climb: a bare behaviour goes, any other stays; either way its caller is next. */
  lemma ClimbStep(f: Forest, c: Behaviour, gone: set<Behaviour>, rest: set<Behaviour>, x: Behaviour)
    requires Closed(f) && Progress(f, c, gone, rest, x)
    requires x in f && Below(f, x, c) && x !in gone && (HasCallee(f, x) || f[x].active)
    ensures var gone' := if Bare(f, gone, x) then gone + {x} else gone;
      Progress(f, c, gone', rest, f[x].caller)
  {
    if Bare(f, gone, x) {
      BareIsDoomed(f, c, gone, x);
      var gone' := gone + {x};
      forall z | z in gone'
        ensures Bare(f, gone', z)
      {
        assert z in gone ==> Bare(f, gone, z);
      }
      forall z: Behaviour | z in f && Below(f, z, c) && z !in gone' && Bare(f, gone', z) && z != f[x].caller
        ensures !HasCallee(f, z) && (z in rest || !f[z].active)
      {
        assert Bare(f, gone, z);
      }
    }
  }

  lemma CancelOneMore(f: Forest, gone: set<Behaviour>, x: Behaviour)
    requires x in f
    ensures Cancelled(f, gone + {x}) == Cancelled(f, gone)[x := Entry(false, null, SUBCANCEL)]
  {
  }

  lemma BareHasNoCallee(f: Forest, gone: set<Behaviour>, x: Behaviour)
    ensures HasCallee(Cancelled(f, gone), x) <==> !Bare(f, gone, x)
  {
    var f' := Cancelled(f, gone);
    if !Bare(f, gone, x) {
      var y: Behaviour :| y in f && f[y].caller == x && y !in gone;
      assert y in f' && f'[y].caller == x;
    }
  }

  /** The climb has reached x, `level` calls below c: it started there, where it was active, or x has
      callees. */
  ghost predicate Climbing(f: Forest, c: Behaviour, x: Behaviour, level: nat) {
    x in f && Up(f, x, level) == c && (HasCallee(f, x) || f[x].active)
  }

  /** The caller of x is one level nearer to c. */
  lemma CallerNearer(f: Forest, c: Behaviour, x: Behaviour, level: nat)
    requires Closed(f) && Acyclic(f) && level >= 1 && Climbing(f, c, x, level)
    ensures f[x].caller != null && f[x].caller != x && Climbing(f, c, f[x].caller, level - 1)
  {
    CallerAbove(f, x, level);
    assert Up(f, x, 0) == x && Up(f, x, 1) == f[x].caller;
    UpAdds(f, x, 1, level - 1);
  }

  /** One level of the climb, seen from the code: it asks whether x is a caller, and goes on with x's own. */
  lemma ClimbLevel(f: Forest, c: Behaviour, gone: set<Behaviour>, rest: set<Behaviour>, x: Behaviour, level: nat)
    requires Closed(f) && Acyclic(f) && Progress(f, c, gone, rest, x)
    requires level >= 1 && Climbing(f, c, x, level) && x !in gone
    ensures var gone' := if HasCallee(Cancelled(f, gone), x) then gone else gone + {x};
      Progress(f, c, gone', rest, f[x].caller) && f[x].caller !in gone'
  {
    BareHasNoCallee(f, gone, x);
    CallerNearer(f, c, x, level);
    var a: Behaviour := f[x].caller;
    assert a in gone ==> Bare(f, gone, a);
    ClimbStep(f, c, gone, rest, x);
  }

  /** Visiting a behaviour that is inactive, gone, or not below c changes nothing. */
  lemma SkipVisit(f: Forest, c: Behaviour, gone: set<Behaviour>, rest: set<Behaviour>, x: Behaviour)
    requires Progress(f, c, gone, rest, null)
    requires x in f && (x in gone || !f[x].active || !Below(f, x, c))
    ensures Progress(f, c, gone, rest - {x}, null)
  {
  }

  lemma StartClimb(f: Forest, c: Behaviour, gone: set<Behaviour>, rest: set<Behaviour>, x: Behaviour)
    requires Progress(f, c, gone, rest, null)
    ensures Progress(f, c, gone, rest - {x}, x)
  {
  }

  lemma EndClimb(f: Forest, c: Behaviour, gone: set<Behaviour>, rest: set<Behaviour>)
    requires c in f && Acyclic(f) && Progress(f, c, gone, rest, c)
    ensures Progress(f, c, gone, rest, null)
  {
  }

  lemma NothingCancelled(f: Forest)
    ensures Cancelled(f, {}) == f
  {
  }

  lemma CancelledIsForest(f: Forest, gone: set<Behaviour>)
    requires Closed(f) && Acyclic(f)
    ensures Closed(Cancelled(f, gone)) && Acyclic(Cancelled(f, gone))
  {
    forall b: Behaviour, k: nat | b in f && k >= 1
      ensures Up(Cancelled(f, gone), b, k) != b
    {
      FewerCallers(f, Cancelled(f, gone), b, k);
    }
  }

  lemma SameChain(f: Forest, gone: set<Behaviour>, b: Behaviour, c: Behaviour)
    requires Closed(f) && b in f && b !in gone && forall x :: x in gone ==> Bare(f, gone, x)
    ensures Below(Cancelled(f, gone), b, c) <==> Below(f, b, c)
  {
    forall k: nat
      ensures Up(Cancelled(f, gone), b, k) == Up(f, b, k)
    {
      ChainKept(f, gone, b, k);
    }
  }

  /** Below a behaviour that is still there, some leaf is inactive. */
  lemma {:induction false} LeftoverLeaf(f: Forest, c: Behaviour, gone: set<Behaviour>, x: Behaviour)
    returns (y: Behaviour)
    requires Closed(f) && Acyclic(f) && Progress(f, c, gone, {}, null)
    requires x in f && Below(f, x, c) && x !in gone
    ensures y in f && (y == x || Below(f, y, x)) && !HasCallee(f, y) && !f[y].active
    decreases |f| - |Above(f, x)|
  {
    if Bare(f, gone, x) {
      y := x;
    } else {
      var z: Behaviour :| z in f && f[z].caller == x && z !in gone;
      assert Up(f, z, 0) == z && Up(f, z, 1) == x;
      assert Below(f, z, x);
      BelowChain(f, z, x, c);
      AboveShrinks(f, z);
      y := LeftoverLeaf(f, c, gone, z);
      if y != z {
        BelowChain(f, y, z, x);
      }
    }
  }

  /** Cascade exactness: when all behaviours were visited, exactly the doomed ones are gone. */
  lemma CascadeExact(f: Forest, c: Behaviour, gone: set<Behaviour>)
    requires Closed(f) && Acyclic(f) && Progress(f, c, gone, {}, null)
    ensures gone == Doomed(f, c)
  {
    forall x | x in Doomed(f, c)
      ensures x in gone
    {
      assert LeavesActive(f, x);
      if x !in gone {
        var y := LeftoverLeaf(f, c, gone, x);
      }
    }
  }

  /** In a sound forest the cascade takes down every transitive callee. */
  lemma SoundCascade(f: Forest, c: Behaviour)
    requires Sound(f) && c in f
    ensures Doomed(f, c) == set x | x in f && Below(f, x, c)
  {
    forall x, y: Behaviour | x in f && Below(f, x, c) && y in f && (y == x || Below(f, y, x)) && !HasCallee(f, y)
      ensures f[y].active
    {
      var k: nat :| k >= 1 && Up(f, y, k) != null;
      CallerAbove(f, y, k);
    }
  }

  lemma {:induction false} CallerAbove(f: Forest, y: Behaviour, k: nat)
    requires k >= 1 && y in f && Up(f, y, k) != null
    ensures f[y].caller != null
  {
    assert Up(f, y, 0) == y && Up(f, y, 1) == f[y].caller;
    UpAdds(f, y, 1, k - 1);
    NullStays(f, k - 1);
  }

  lemma CallerBelow(f: Forest, y: Behaviour, c: Behaviour)
    requires y in f && Below(f, y, c)
    ensures f[y].caller != null && (f[y].caller == c || Below(f, f[y].caller, c))
  {
    var k: nat :| k >= 1 && Up(f, y, k) == c;
    CallerAbove(f, y, k);
    assert Up(f, y, 0) == y && Up(f, y, 1) == f[y].caller;
    UpAdds(f, y, 1, k - 1);
    assert Up(f, f[y].caller, 0) == f[y].caller;
  }

  /** Cancelling keeps the forest sound. */
  lemma CancelSound(f: Forest, c: Behaviour)
    requires Sound(f) && c in f
    ensures Sound(Cancel(f, c))
  {
    SoundCascade(f, c);
    var f' := Cancel(f, c);
    var gone := Doomed(f, c);
    forall b: Behaviour, k: nat | b in f' && k >= 1
      ensures Up(f', b, k) != b
    {
      FewerCallers(f, f', b, k);
    }
    forall b | b in f' && b !in gone && b != c && HasCallee(f, b)
      ensures HasCallee(f', b)
    {
      var y: Behaviour :| y in f && f[y].caller == b;
      if y in gone {
        CallerBelow(f, y, c);
      }
      assert y in f' && f'[y].caller == b;
    }
  }

  /** With callers only removed, chains only get shorter. */
  lemma {:induction false} FewerCallers(f: Forest, f': Forest, b: Behaviour, k: nat)
    requires f.Keys == f'.Keys && forall x :: x in f ==> f'[x].caller == f[x].caller || f'[x].caller == null
    ensures Up(f', b, k) == Up(f, b, k) || Up(f', b, k) == null
  {
    if k > 0 {
      FewerCallers(f, f', b, k - 1);
    }
  }

  /* ---- Runs ---- */

  datatype Op =
    | Call(from: Behaviour?, to: Behaviour?, override: bool, background: bool)
    | Return(who: Behaviour, state: nat)
    | CancelCallees(of: Behaviour)

  /** The operation names listed behaviours, a call does not target its caller or one above it, and nobody
      reports that he is still running. */
  ghost predicate Legal(f: Forest, op: Op) {
    match op
    case Call(from, to, override, _) =>
      && (from == null || from in f) && (to == null || to in f)
      && (from != null && to != null && Accepted(f, to, override) ==> from != to && !Below(f, from, to))
    case Return(who, state) => who in f && state % 8 != SUBRUNNING
    case CancelCallees(of) => of in f
  }

  ghost function Apply(f: Forest, op: Op): Forest
    requires Closed(f) && Legal(f, op)
  {
    match op
    case Call(from, to, override, background) => Switch(f, from, to, override, background)
    case Return(who, state) => Exit(f, who, state)
    case CancelCallees(of) => Cancel(f, of)
  }

  /** f' results from f by a run of legal operations. */
  ghost predicate Run(f: Forest, ops: seq<Op>, f': Forest)
    decreases |ops|
  {
    if ops == [] then f' == f
    else Closed(f) && Legal(f, ops[0]) && Run(Apply(f, ops[0]), ops[1..], f')
  }

  /** The forest stays sound over every run, so nobody who waits is ever forgotten. */
  lemma {:induction false} RunSound(f: Forest, ops: seq<Op>, f': Forest)
    requires Sound(f) && Run(f, ops, f')
    ensures Sound(f')
    ensures forall b :: b in f' && !f'[b].active && f'[b].subResult == SUBRUNNING ==>
              exists c :: c in f' && Below(f', c, b) && f'[c].active
    decreases |ops|
  {
    if ops == [] {
      forall b | b in f' && !f'[b].active && f'[b].subResult == SUBRUNNING
        ensures exists c :: c in f' && Below(f', c, b) && f'[c].active
      {
        var c := WaitingIsServed(f', b);
      }
    } else {
      match ops[0] {
        case Call(from, to, override, background) => SwitchSound(f, from, to, override, background);
        case Return(who, state) => ExitSound(f, who, state);
        case CancelCallees(of) => CancelSound(f, of);
      }
      RunSound(Apply(f, ops[0]), ops[1..], f');
    }
  }

  /** Registered behaviours that nobody has called yet form a sound forest. */
  lemma FreshSound(f: Forest)
    requires forall b :: b in f ==> f[b].caller == null && f[b].subResult == SUBSUCCESS
    ensures Sound(f)
  {
    forall b: Behaviour, k: nat | b in f && k >= 1
      ensures Up(f, b, k) != b
    {
      assert Up(f, b, 0) == b && Up(f, b, 1) == null;
      UpAdds(f, b, 1, k - 1);
      NullStays(f, k - 1);
    }
  }
}
