/** The crossing state of behaviour_line_shortest_way.c over its position stack. */
module LineExplorer {
  import opened PosStore
  import opened LineMaze

  /** The directions kept in the y parts of the stored positions. */
  function Directions(items: seq<Position>): (dirs: seq<int>)
    ensures |dirs| == |items| && forall i :: 0 <= i < |items| ==> dirs[i] == items[i].y
  {
    seq(|items|, i requires 0 <= i < |items| => items[i].y)
  }

  lemma SameDirections(a: seq<Position>, b: seq<int>)
    requires |a| == |b| && forall i :: 0 <= i < |a| ==> a[i].y == b[i]
    ensures Directions(a) == b
  {
  }

  class Explorer {
    const pos_store: Store
    var wayBack: bool
    var directionCounter: int
    var sidewish: int
    var goStackWay: bool

    /** bot_line_shortest_way: start a search. */
    constructor (size: nat)
      requires PowerOfTwo(size)
      ensures Valid() && fresh(pos_store) && fresh(pos_store.data) && pos_store.Capacity() == size
      ensures Snapshot() == Memory([], false) && !goStackWay && sidewish == LEFT
    {
      pos_store := new Store(size);
      wayBack, directionCounter, sidewish, goStackWay := false, 0, LEFT, false;
    }

    ghost predicate Valid()
      reads this, pos_store, pos_store.data
    {
      pos_store.Valid() && (!goStackWay ==> sidewish == LEFT)
    }

    ghost function Snapshot(): Memory
      reads this, pos_store
    {
      Memory(Directions(pos_store.Items), wayBack)
    }

    /** bot_line_shortest_way_forward and _backward: drive the stored way. */
    method DriveStoredWay(backward: bool)
      requires Valid()
      modifies this`wayBack, this`goStackWay
      ensures Valid() && goStackWay && Snapshot() == old(Snapshot()).(wayBack := backward)
    {
      wayBack, goStackWay := backward, true;
    }

    /** State TURN_SIDEWISH_ON_CROSSING: the turn in quarters to the left, or the end. */
    method TurnOnCrossing() returns (ended: bool, quarters: int)
      requires Valid()
      modifies this`wayBack, this`directionCounter, this`sidewish, pos_store, pos_store.data
      ensures Valid() && pos_store.data == old(pos_store.data) && pos_store.mask == old(pos_store.mask)
      ensures (if ended then Stop(Snapshot()) else Turn(Snapshot(), quarters))
           == if goStackWay then Follow(old(Snapshot()), old(sidewish))
              else Search(old(Snapshot()), pos_store.Capacity())
      ensures sidewish == if goStackWay && !ended && quarters != STRAIGHT then quarters else old(sidewish)
    {
      if !goStackWay {
        ended := SearchCrossing();
        quarters := sidewish;
      } else {
        ended, quarters := FollowCrossing();
      }
    }

    /** The branch that looks for the goal. */
    method SearchCrossing() returns (ended: bool)
      requires Valid() && !goStackWay
      modifies this`wayBack, this`directionCounter, pos_store, pos_store.data
      ensures Valid() && pos_store.data == old(pos_store.data) && pos_store.mask == old(pos_store.mask)
      ensures (if ended then Stop(Snapshot()) else Turn(Snapshot(), LEFT))
           == Search(old(Snapshot()), pos_store.Capacity())
    {
      if wayBack {
        ended := BackAtCrossing();
      } else {
        NewCrossing();
        ended := false;
      }
    }

    /** A crossing reached for the first time: its first arm is stored. */
    method NewCrossing()
      requires Valid() && !goStackWay && !wayBack
      modifies this`wayBack, this`directionCounter, pos_store, pos_store.data
      ensures Valid() && pos_store.data == old(pos_store.data) && pos_store.mask == old(pos_store.mask)
      ensures Turn(Snapshot(), LEFT) == Search(old(Snapshot()), pos_store.Capacity())
    {
      ghost var items := pos_store.Items;
      directionCounter := 1;
      var ok := pos_store.Push(Position(1, directionCounter));
      if ok {
        SameDirections(pos_store.Items, Directions(items) + [1]);
      }
      wayBack := false;
    }

    /** A crossing reached again: the next arm, or the way further back. */
    method BackAtCrossing() returns (ended: bool)
      requires Valid() && !goStackWay && wayBack
      modifies this`wayBack, this`directionCounter, pos_store, pos_store.data
      ensures Valid() && pos_store.data == old(pos_store.data) && pos_store.mask == old(pos_store.mask)
      ensures (if ended then Stop(Snapshot()) else Turn(Snapshot(), LEFT))
           == Search(old(Snapshot()), pos_store.Capacity())
    {
      ghost var items := pos_store.Items;
      var ok, p := pos_store.Pop(Position(0, 0));
      if !ok {
        return true;
      }
      directionCounter := p.y;
      directionCounter := directionCounter + 1;
      ghost var rest := Directions(items)[..|items| - 1];
      assert pos_store.Items == items[..|items| - 1];
      SameDirections(pos_store.Items, rest);
      if directionCounter <= 3 {
        ok := pos_store.Push(Position(1, directionCounter));
        SameDirections(pos_store.Items, rest + [directionCounter]);
        wayBack := false;
      }
      return false;
    }

    /** The branch that drives the stored way. */
    method FollowCrossing() returns (ended: bool, quarters: int)
      requires Valid() && goStackWay
      modifies this`directionCounter, this`sidewish, pos_store, pos_store.data
      ensures Valid() && pos_store.data == old(pos_store.data) && pos_store.mask == old(pos_store.mask)
      ensures (if ended then Stop(Snapshot()) else Turn(Snapshot(), quarters))
           == Follow(old(Snapshot()), old(sidewish))
      ensures sidewish == if !ended && quarters != STRAIGHT then quarters else old(sidewish)
    {
      ghost var items := pos_store.Items;
      var ok, p;
      if wayBack {
        ok, p := pos_store.Pop(Position(0, 0));
        if !ok {
          return true, 0;
        }
        directionCounter := p.y;
        assert pos_store.Items == items[..|items| - 1];
        SameDirections(pos_store.Items, Directions(items)[..|items| - 1]);
        if directionCounter == 1 {
          sidewish := -1;
        }
        if directionCounter == 3 {
          sidewish := 1;
        }
      } else {
        ok, p := pos_store.Dequeue(Position(0, 0));
        if !ok {
          return true, 0;
        }
        directionCounter := p.y;
        assert pos_store.Items == items[1..];
        SameDirections(pos_store.Items, Directions(items)[1..]);
        if directionCounter == 1 {
          sidewish := 1;
        }
        if directionCounter == 3 {
          sidewish := -1;
        }
      }
      if directionCounter == 2 {
        return false, 0;
      }
      return false, sidewish;
    }
  }
}
