/** The behaviour list of bot-logic.c and the calls between behaviours, in place. */
module BotLogic {
  import opened CallForest

  /** Where a behaviour of the given priority belongs: behind all that are at least as important. */
  function InsertPosition(list: seq<Behaviour>, priority: nat): (k: nat)
    ensures k <= |list| && forall i :: 0 <= i < k ==> list[i].priority >= priority
    ensures k < |list| ==> list[k].priority < priority
  {
    if list == [] || list[0].priority < priority then 0 else 1 + InsertPosition(list[1..], priority)
  }

  ghost predicate Linked(list: seq<Behaviour>)
    reads list`next
  {
    forall i {:trigger list[i].next} :: 0 <= i < |list| ==>
      list[i].next == if i + 1 < |list| then list[i + 1] else null
  }

  predicate Distinct(list: seq<Behaviour>) {
    forall i, j :: 0 <= i < j < |list| ==> list[i] != list[j]
  }

  predicate Falling(list: seq<Behaviour>) {
    forall i, j :: 0 <= i < j < |list| ==> list[i].priority >= list[j].priority
  }

  function Inserted(list: seq<Behaviour>, behave: Behaviour): (list': seq<Behaviour>)
    ensures var k := InsertPosition(list, behave.priority);
      |list'| == |list| + 1 && forall i :: 0 <= i < |list'| ==>
        list'[i] == if i < k then list[i] else if i == k then behave else list[i - 1]
  {
    var k := InsertPosition(list, behave.priority);
    list[..k] + [behave] + list[k..]
  }

  /** Inserting at the right position keeps the list free of repetitions and sorted. */
  lemma InsertedInOrder(list: seq<Behaviour>, behave: Behaviour)
    requires Distinct(list) && Falling(list) && behave !in list
    ensures Distinct(Inserted(list, behave)) && Falling(Inserted(list, behave))
  {
    var k := InsertPosition(list, behave.priority);
    var list' := Inserted(list, behave);
    forall i, j | 0 <= i < j < |list'|
      ensures list'[i] != list'[j] && list'[i].priority >= list'[j].priority
    {
      if j == k {
        assert list[i].priority >= behave.priority;
      } else if i == k {
        assert list[k].priority >= list[j - 1].priority;
      }
    }
  }

  lemma PositionUnique(list: seq<Behaviour>, priority: nat, k: nat)
    requires k <= |list| && (forall i :: 0 <= i < k ==> list[i].priority >= priority)
    requires k < |list| ==> list[k].priority < priority
    ensures InsertPosition(list, priority) == k
  {
  }

  lemma {:induction false} SetOfSeq(list: seq<Behaviour>)
    ensures |set b | b in list| <= |list|
  {
    if list != [] {
      var n := |list| - 1;
      SetOfSeq(list[..n]);
      assert (set b | b in list) == (set b | b in list[..n]) + {list[n]};
    }
  }

  /** The behaviours of the list from entry i on. */
  ghost function From(list: seq<Behaviour>, i: nat): set<Behaviour>
    requires i <= |list|
  {
    set b | b in list[i..]
  }

  lemma FromStep(list: seq<Behaviour>, i: nat)
    requires i < |list| && Distinct(list)
    ensures From(list, i + 1) == From(list, i) - {list[i]}
  {
    assert list[i..] == [list[i]] + list[i + 1..];
  }

  /** The first behaviour with the given work function. */
  function FirstWith(list: seq<Behaviour>, work: nat): (b: Behaviour?)
    ensures b != null ==> b in list && b.work == work
    ensures b == null ==> forall x :: x in list ==> x.work != work
    ensures b != null ==> exists i :: 0 <= i < |list| && list[i] == b && forall j :: 0 <= j < i ==> list[j].work != work
  {
    if list == [] then null else if list[0].work == work then list[0] else FirstWith(list[1..], work)
  }

  class Logic {
    var behaviour: Behaviour?          // head of the list
    ghost var list: seq<Behaviour>

    /** The next pointers run through `list` without repetition, priorities never rise. */
    ghost predicate Valid()
      reads this, list
    {
      && behaviour == (if list == [] then null else list[0])
      && Linked(list)
      && Distinct(list)
      && Falling(list)
    }

    ghost function Snapshot(): Forest
      reads this, list
    {
      map b | b in list :: Entry(b.active, b.caller, b.subResult)
    }

    constructor ()
      ensures Valid() && list == []
    {
      behaviour := null;
      list := [];
    }

    /** insert_behaviour_to_list. */
    method Insert(behave: Behaviour?)
      requires Valid()
      requires behave != null ==> behave !in list && behave.next == null
      modifies this, list`next, (if behave == null then {} else {behave})`next
      ensures Valid()
      ensures list == if behave == null then old(list) else Inserted(old(list), behave)
    {
      if behave == null {
        return;
      }
      var ptr := behaviour;
      if ptr == null {
        InsertOnly(behave);
      } else if ptr.priority < behave.priority {
        InsertInFront(behave);
      } else {
        ghost var i;
        ptr, i := FindPlace(behave.priority);
        InsertBehind(ptr, behave, i);
      }
    }

    /** The loop of insert_behaviour_to_list: the last of the behaviours at least as important. */
    method FindPlace(priority: nat) returns (ptr: Behaviour, ghost i: nat)
      requires Valid() && list != [] && list[0].priority >= priority
      ensures ptr in list && ptr.priority >= priority && (ptr.next != null ==> ptr.next.priority < priority)
      ensures i < |list| && ptr == list[i] && InsertPosition(list, priority) == i + 1
    {
      ptr, i := behaviour, 0;
      while ptr.next != null
        invariant 0 <= i < |list| && ptr == list[i]
        invariant forall j :: 0 <= j <= i ==> list[j].priority >= priority
        decreases |list| - i
      {
        if ptr.next.priority < priority {
          break;
        }
        ptr := ptr.next;
        i := i + 1;
      }
      PositionUnique(list, priority, i + 1);
    }

    method InsertOnly(behave: Behaviour)
      requires Valid() && list == [] && behave.next == null
      modifies this
      ensures Valid() && list == Inserted(old(list), behave)
    {
      behaviour := behave;
      list := [behave];
    }

    method InsertInFront(behave: Behaviour)
      requires Valid() && list != [] && behave !in list && list[0].priority < behave.priority
      modifies this, behave`next
      ensures Valid() && list == Inserted(old(list), behave)
    {
      InsertedInOrder(list, behave);
      ghost var before := list;
      behave.next := behaviour;
      behaviour := behave;
      list := [behave] + list;
      assert list == Inserted(before, behave);
      forall i | 0 <= i < |list|
        ensures list[i].next == if i + 1 < |list| then list[i + 1] else null
      {
        assert i > 0 ==> list[i] == before[i - 1] && list[i].next == old(before[i - 1].next);
      }
    }

    /** The last lines of insert_behaviour_to_list: link behave behind ptr, the entry number i. */
    method InsertBehind(ptr: Behaviour, behave: Behaviour, ghost i: nat)
      requires Valid() && i < |list| && ptr == list[i] && behave !in list
      requires InsertPosition(list, behave.priority) == i + 1
      modifies this`list, ptr`next, behave`next
      ensures Valid() && list == Inserted(old(list), behave)
    {
      InsertedInOrder(list, behave);
      var temp := ptr.next;
      ptr.next := behave;
      behave.next := temp;
      ghost var before := list;
      list := Inserted(list, behave);
      forall j | 0 <= j < |list|
        ensures list[j].next == if j + 1 < |list| then list[j + 1] else null
      {
        assert j < i ==> list[j].next == old(before[j].next);
        assert j > i + 1 ==> list[j].next == old(before[j - 1].next);
      }
    }

    /** get_behaviour. */
    method GetBehaviour(work: nat) returns (job: Behaviour?)
      requires Valid()
      ensures job == FirstWith(list, work)
    {
      job := behaviour;
      ghost var i := 0;
      while job != null
        invariant 0 <= i <= |list| && job == (if i < |list| then list[i] else null)
        invariant FirstWith(list, work) == FirstWith(list[i..], work)
        decreases |list| - i
      {
        if job.work == work {
          return;
        }
        job := job.next;
        i := i + 1;
      }
    }

    /** isInCallHierarchy: how many calls lie between job and callerBeh, 0 for none. A behaviour entered as its
        own caller ends the walk. It terminates with the exact number; with at most 256 behaviours the 8-bit
        level cannot wrap. */
    method IsInCallHierarchy(job: Behaviour?, callerBeh: Behaviour) returns (level: int)
      requires Valid() && |list| <= 256 && (job != null ==> job in list)
      requires Closed(Trimmed(Snapshot())) && Acyclic(Trimmed(Snapshot()))
      ensures 0 <= level <= 255
      ensures job == null ==> level == 0
      ensures job != null ==> (level > 0 <==> Below(Trimmed(Snapshot()), job, callerBeh))
      ensures job != null && level > 0 ==> Up(Trimmed(Snapshot()), job, level) == callerBeh
    {
      if job == null {
        return 0;
      }
      ghost var f := Trimmed(Snapshot());
      SetOfSeq(list);
      assert f.Keys == set b | b in list;
      level := WalkUp(job, callerBeh, f);
    }

    /** The loop of isInCallHierarchy. */
    method WalkUp(job: Behaviour, callerBeh: Behaviour, ghost f: Forest) returns (level: int)
      requires Valid() && job in list && |f| <= 256 && Closed(f) && Acyclic(f)
      requires forall b :: b in list ==> b in f && f[b].caller == if b.caller == b then null else b.caller
      requires forall b :: b in f ==> b in list
      ensures 0 <= level <= 255 && (level > 0 <==> Below(f, job, callerBeh))
      ensures level > 0 ==> Up(f, job, level) == callerBeh
    {
      level := 0;
      AboveSize(f, job);
      var b: Behaviour := job;
      while b.caller != null
        invariant level >= 0 && b in f && b == Up(f, job, level) && NotWithin(f, job, level, callerBeh)
        invariant level + |Above(f, b)| <= |Above(f, job)|
        decreases |Above(f, b)|
      {
        if b == b.caller {
          ChainEnds(f, job, level, b, callerBeh);
          return 0;
        }
        ChainStep(f, job, level, b, callerBeh);
        level := level + 1;
        if b.caller == callerBeh {
          return level;
        }
        b := b.caller;
      }
      ChainEnds(f, job, level, b, callerBeh);
      level := 0;
    }

    /** The innermost search of deactivate_called_behaviours: does anybody name b as caller? */
    method IsCaller(b: Behaviour) returns (found: bool)
      requires Valid()
      ensures found <==> HasCallee(Snapshot(), b)
    {
      var beh := behaviour;
      ghost var i := 0;
      while beh != null
        invariant 0 <= i <= |list| && beh == (if i < |list| then list[i] else null)
        invariant forall j :: 0 <= j < i ==> list[j].caller != b
        decreases |list| - i
      {
        if beh.caller == b {
          assert beh in Snapshot() && Snapshot()[beh].caller == b;
          return true;
        }
        beh := beh.next;
        i := i + 1;
      }
      return false;
    }

    /** Write the three call fields of one behaviour. */
    method Set(b: Behaviour, active: bool, caller: Behaviour?, subResult: nat, ghost f: Forest)
      returns (ghost f': Forest)
      requires Valid() && b in list && Snapshot() == f
      modifies b`active, b`caller, b`subResult
      ensures Valid() && Snapshot() == f' == f[b := Entry(active, caller, subResult)]
    {
      b.active, b.caller, b.subResult := active, caller, subResult;
      f' := f[b := Entry(active, caller, subResult)];
    }

    /** One level of the climb: switch ptr off unless it is somebody's caller, and go on with its own. */
    method ClimbOne(ptr: Behaviour, ghost level: nat, ghost c: Behaviour,
                    ghost f: Forest, ghost gone: set<Behaviour>, ghost rest: set<Behaviour>)
      returns (up: Behaviour, ghost gone': set<Behaviour>)
      requires Valid() && Snapshot() == Cancelled(f, gone)
      requires Closed(f) && Acyclic(f) && Progress(f, c, gone, rest, ptr)
      requires level >= 1 && Climbing(f, c, ptr, level) && ptr !in gone
      modifies list`active, list`caller, list`subResult
      ensures Valid() && Snapshot() == Cancelled(f, gone')
      ensures Progress(f, c, gone', rest, up) && Climbing(f, c, up, level - 1) && up !in gone'
    {
      ClimbLevel(f, c, gone, rest, ptr, level);
      CallerNearer(f, c, ptr, level);
      ghost var cur := Snapshot();
      assert ptr in cur && cur[ptr] == f[ptr];
      gone' := gone;
      var isCaller := IsCaller(ptr);
      up := ptr.caller;
      if !isCaller {
        CancelOneMore(f, gone, ptr);
        gone' := gone + {ptr};
        cur := Set(ptr, false, null, SUBCANCEL, cur);
      }
    }

    /** The climb from one active behaviour below c: switch off what is nobody's caller, level by level. */
    method Climb(job: Behaviour, callLevel: nat, ghost c: Behaviour,
                 ghost f: Forest, ghost gone: set<Behaviour>, ghost rest: set<Behaviour>)
      returns (ghost gone': set<Behaviour>)
      requires Valid() && Snapshot() == Cancelled(f, gone)
      requires Closed(f) && Acyclic(f) && c in f && Progress(f, c, gone, rest, job)
      requires job !in gone && callLevel >= 1 && Climbing(f, c, job, callLevel)
      modifies list`active, list`caller, list`subResult
      ensures Valid() && Snapshot() == Cancelled(f, gone')
      ensures Progress(f, c, gone', rest, null)
    {
      var level: nat := callLevel;
      var ptr: Behaviour := job;
      gone' := gone;
      while level > 0
        invariant Valid() && Snapshot() == Cancelled(f, gone')
        invariant Progress(f, c, gone', rest, ptr) && Climbing(f, c, ptr, level) && ptr !in gone'
      {
        ptr, gone' := ClimbOne(ptr, level, c, f, gone', rest);
        level := level - 1;
      }
      EndClimb(f, c, gone', rest);
    }

    /** deactivate_called_behaviours: exactly the cascade. */
    method DeactivateCalledBehaviours(caller: Behaviour?)
      requires Valid() && |list| <= 256 && (caller != null ==> caller in list)
      requires Closed(Snapshot()) && Acyclic(Snapshot())
      modifies list`active, list`caller, list`subResult
      ensures Valid()
      ensures caller == null ==> Snapshot() == old(Snapshot())
      ensures caller != null ==> Snapshot() == Cancel(old(Snapshot()), caller)
      ensures caller != null ==> TakenDown(old(Snapshot()), Snapshot(), caller)
    {
      if caller == null {
        return;
      }
      CancelOnFields(Snapshot(), caller);
      VisitAll(caller);
    }

    /** The outer loop over all behaviours, and what follows it. */
    method VisitAll(caller: Behaviour)
      requires Valid() && |list| <= 256 && caller in list
      requires Closed(Snapshot()) && Acyclic(Snapshot())
      modifies list`active, list`caller, list`subResult
      ensures Valid() && Snapshot() == Cancel(old(Snapshot()), caller)
    {
      ghost var f := Snapshot();
      ghost var gone: set<Behaviour> := {};
      var job := behaviour;
      var behOfFunction: Behaviour? := null;
      ghost var i := 0;
      StartProgress(f, caller);
      NothingCancelled(f);
      assert list[0..] == list && f.Keys == From(list, 0);
      while job != null
        invariant 0 <= i <= |list| && job == (if i < |list| then list[i] else null)
        invariant Valid() && Snapshot() == Cancelled(f, gone)
        invariant Progress(f, caller, gone, From(list, i), null)
        invariant behOfFunction == (if caller in From(list, i) then null else caller)
        decreases |list| - i
      {
        FromStep(list, i);
        gone := VisitJob(job, caller, f, gone, From(list, i));
        if job == caller {
          behOfFunction := job;
        }
        job := job.next;
        i := i + 1;
      }
      assert From(list, i) == {};
      CascadeExact(f, caller, gone);
      if behOfFunction != null {
        ghost var cur := Snapshot();
        assert cur[behOfFunction].caller == behOfFunction.caller;
        cur := Set(behOfFunction, true, behOfFunction.caller, SUBCANCEL, cur);
      }
    }

    /** The body of the outer loop. */
    method VisitJob(job: Behaviour, c: Behaviour, ghost f: Forest, ghost gone: set<Behaviour>,
                    ghost rest: set<Behaviour>)
      returns (ghost gone': set<Behaviour>)
      requires Valid() && |list| <= 256 && job in list && Snapshot() == Cancelled(f, gone)
      requires Closed(f) && Acyclic(f) && c in f && Progress(f, c, gone, rest, null)
      modifies list`active, list`caller, list`subResult
      ensures Valid() && Snapshot() == Cancelled(f, gone')
      ensures Progress(f, c, gone', rest - {job}, null)
    {
      gone' := gone;
      CancelledIsForest(f, gone);
      ghost var cur := Snapshot();
      assert job in cur && cur[job].active == job.active;
      if job.active {
        TrimmedAcyclic(cur);
        var level := IsInCallHierarchy(job, c);
        SameChain(f, gone, job, c);
        if level > 0 {
          ChainKept(f, gone, job, level);
          StartClimb(f, c, gone, rest, job);
          gone' := Climb(job, level, c, f, gone, rest - {job});
        } else {
          SkipVisit(f, c, gone, rest, job);
        }
      } else {
        SkipVisit(f, c, gone, rest, job);
      }
    }

    /** switch_to_behaviour: bit 0 of the mode asks to override, bit 1 to run in the background. */
    method SwitchToBehaviour(from: Behaviour?, to: nat, mode: nat) returns (result: Behaviour?)
      requires Valid() && (from != null ==> from in list) && Closed(Snapshot())
      modifies list`active, list`caller, list`subResult
      ensures Valid()
      ensures var job := FirstWith(list, to);
        && Snapshot() == Switch(old(Snapshot()), from, job, mode % 2 == 1, (mode / 2) % 2 == 1)
        && result == if Accepted(old(Snapshot()), job, mode % 2 == 1) then job else null
      ensures result == null ==> Refused(old(Snapshot()), Snapshot(), from)
      ensures result != null ==> result in list && result.work == to
      ensures result != null ==> WentThrough(old(Snapshot()), Snapshot(), from, result, (mode / 2) % 2 == 1)
      ensures result == null <==> var job := FirstWith(list, to);
        job == null || ((old(job.caller) != null || old(job.active) || old(job.subResult) == SUBRUNNING) && mode % 2 == 0)
    {
      ghost var f := Snapshot();
      SwitchOnFields(f, from, FirstWith(list, to), mode % 2 == 1, (mode / 2) % 2 == 1);
      var job := GetBehaviour(to);
      var override := mode % 2 == 1;
      var background := (mode / 2) % 2 == 1;
      if job == null || ((job.caller != null || job.active || job.subResult == SUBRUNNING) && !override) {
        assert job != null ==> f[job] == Entry(job.active, job.caller, job.subResult);
        if from != null {
          f := Set(from, from.active, from.caller, SUBFAIL, f);
        }
        return null;
      }
      Relink(from, job, background, f);
      return job;
    }

    /** The second half of switch_to_behaviour, for a call that goes through: tell the former caller that it
        failed, note that the new caller waits, and link the two. */
    method Relink(from: Behaviour?, job: Behaviour, background: bool, ghost f: Forest)
      requires Valid() && (from != null ==> from in list) && job in list && Closed(f) && Snapshot() == f
      modifies list`active, list`caller, list`subResult
      ensures Valid() && Snapshot() == Switch(f, from, job, true, background)
    {
      ghost var cur := f;
      assert job in cur && cur[job].caller == job.caller;
      if job.caller != null {
        assert job.caller in list;
        cur := Set(job.caller, true, job.caller.caller, SUBFAIL, cur);
      }
      if from != null {
        if !background {
          cur := Set(from, false, from.caller, SUBRUNNING, cur);
        } else {
          cur := Set(from, from.active, from.caller, SUBBACKGR, cur);
        }
      }
      cur := Set(job, true, from, job.subResult, cur);
    }

    /** exit_behaviour. */
    method ExitBehaviour(data: Behaviour, state: nat)
      requires Valid() && data in list && Closed(Snapshot())
      modifies list`active, list`caller, list`subResult
      ensures Valid()
      ensures Snapshot() == Exit(old(Snapshot()), data, state)
      ensures Reported(old(Snapshot()), Snapshot(), data, state)
    {
      ExitOnFields(Snapshot(), data, state);
      ghost var cur := Snapshot();
      assert data in cur && cur[data] == Entry(data.active, data.caller, data.subResult);
      cur := Set(data, false, data.caller, data.subResult, cur);
      if data.caller != null {
        assert data.caller in list;
        cur := Set(data.caller, true, data.caller.caller, state % 8, cur);
      }
      cur := Set(data, data.active, null, data.subResult, cur);
    }
  }
}
