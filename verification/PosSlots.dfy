/** The table of position stores, one for each owner at most (pos_store.c). */
module PosSlots {
  import opened PosStore

  const SLOT_COUNT := 4
  const POS_STORE_SIZE := 64

  /** The test for a power of two also passes 0. */
  lemma SizeTest(size: bv8)
    requires size <= 64
    ensures size & (size - 1) == 0 <==> size in {0, 1, 2, 4, 8, 16, 32, 64}
  {
  }

  predicate PassesTest(size: nat) {
    size == 0 || PowerOfTwo(size)
  }

  /** A slot; owner 0 is NULL, and stands for a free slot. */
  datatype Slot = Slot(owner: nat, mask: nat, count: nat)

  /** No owner but NULL has two slots. */
  predicate OnePerOwner(slots: seq<Slot>) {
    forall i, j :: 0 <= i < j < |slots| && slots[i].owner != 0 ==> slots[i].owner != slots[j].owner
  }

  /** pos_store_from_beh: the first slot of an owner, or none. */
  function Find(slots: seq<Slot>, owner: nat): (i: nat)
    ensures i <= |slots|
    ensures i < |slots| ==> slots[i].owner == owner
    ensures forall k :: 0 <= k < i ==> slots[k].owner != owner
  {
    if slots == [] || slots[0].owner == owner then 0 else
      var i := Find(slots[1..], owner);
      assert forall k :: 0 < k < i + 1 ==> slots[k] == slots[1..][k - 1];
      i + 1
  }

  function Mask8(size: nat): nat {
    if size == 0 then 255 else size - 1
  }

  datatype Creation = Created(slots: seq<Slot>, at: nat) | Failed(slots: seq<Slot>)

  function Released(slots: seq<Slot>, at: nat): (r: seq<Slot>)
    requires at < |slots|
    ensures |r| == |slots|
  {
    slots[at := slots[at].(owner := 0)]
  }

  /** A new store in the first free slot; `memory` says whether there is memory for its data. */
  function Allocate(slots: seq<Slot>, owner: nat, size: nat, memory: bool): Creation {
    var free := Find(slots, 0);
    if free == |slots| then Failed(slots)
    else if !memory then Failed(slots[free := Slot(0, Mask8(size), slots[free].count)])
    else Created(slots[free := Slot(owner, Mask8(size), 0)], free)
  }

  /** pos_store_create_size. */
  function Create(slots: seq<Slot>, owner: nat, size: nat, memory: bool): Creation {
    if owner == 0 || size > POS_STORE_SIZE || !PassesTest(size) then Failed(slots)
    else
      var at := Find(slots, owner);
      if at == |slots| then Allocate(slots, owner, size, memory)
      else if slots[at].mask == size - 1 then Created(slots[at := slots[at].(count := 0)], at)
      else Allocate(Released(slots, at), owner, size, memory)
  }

  /** Creating a store keeps one slot per owner and the slots of all others; it fails for a valid request
      only if there is no memory or if all slots belong to others. */
  lemma CreateIsSound(slots: seq<Slot>, owner: nat, size: nat, memory: bool)
    requires OnePerOwner(slots)
    ensures var c := Create(slots, owner, size, memory);
      && OnePerOwner(c.slots) && |c.slots| == |slots|
      && (forall i :: 0 <= i < |slots| && slots[i].owner !in {0, owner} ==> c.slots[i] == slots[i])
      && (c.Created? ==> c.at < |slots| && c.slots[c.at] == Slot(owner, Mask8(size), 0) && owner != 0)
    ensures owner != 0 && size <= POS_STORE_SIZE && PassesTest(size) && memory ==>
      (Create(slots, owner, size, memory).Failed? <==> forall i :: 0 <= i < |slots| ==> slots[i].owner !in {0, owner})
  {
    var at := Find(slots, owner);
    if owner != 0 && at < |slots| {
      assert Released(slots, at)[at].owner == 0;
    }
  }

  /** Which requests are served, and what a served one leaves behind: a slot of the owner with the mask and no
      entries. An invalid request changes nothing; a valid one fails without memory for a store not there
      yet, or with all slots taken by others. */
  lemma CreateServes(slots: seq<Slot>, owner: nat, size: nat, memory: bool)
    requires OnePerOwner(slots)
    ensures owner == 0 || size !in {0, 1, 2, 4, 8, 16, 32, 64} ==> Create(slots, owner, size, memory) == Failed(slots)
    ensures owner != 0 && size in {0, 1, 2, 4, 8, 16, 32, 64} ==>
      var c := Create(slots, owner, size, memory);
      var own := exists i :: 0 <= i < |slots| && slots[i].owner == owner && slots[i].mask == size - 1;
      && (own ==> c.Created?)
      && (!own ==> (c.Created? <==> memory && exists i :: 0 <= i < |slots| && slots[i].owner in {0, owner}))
      && (c.Created? ==> c.at < |slots| && c.slots[c.at].owner == owner && c.slots[c.at].count == 0)
  {
    var at := Find(slots, owner);
    if owner != 0 && at < |slots| {
      assert Released(slots, at)[at].owner == 0;
    }
  }

  class Table {
    const slots: array<Slot>

    constructor ()
      ensures fresh(slots) && slots.Length == SLOT_COUNT && OnePerOwner(slots[..])
      ensures forall i :: 0 <= i < SLOT_COUNT ==> slots[i].owner == 0
    {
      slots := new Slot[SLOT_COUNT](_ => Slot(0, 0, 0));
    }

    /** pos_store_from_beh. */
    method FromBeh(owner: nat) returns (i: nat)
      ensures i == Find(slots[..], owner)
    {
      i := 0;
      while i < slots.Length
        invariant i <= slots.Length && forall k :: 0 <= k < i ==> slots[k].owner != owner
      {
        if slots[i].owner == owner {
          return;
        }
        i := i + 1;
      }
    }

    /** pos_store_create_size; the result is slots.Length for NULL. */
    method CreateSize(owner: nat, size: nat, memory: bool) returns (at: nat)
      requires OnePerOwner(slots[..])
      modifies slots
      ensures OnePerOwner(slots[..])
      ensures var c := Create(old(slots[..]), owner, size, memory);
        slots[..] == c.slots && at == if c.Created? then c.at else slots.Length
      ensures owner == 0 || size !in {0, 1, 2, 4, 8, 16, 32, 64} ==> at == slots.Length && slots[..] == old(slots[..])
      ensures at < slots.Length ==> slots[at] == Slot(owner, if size == 0 then 255 else size - 1, 0)
    {
      CreateIsSound(slots[..], owner, size, memory);
      CreateServes(slots[..], owner, size, memory);
      at := slots.Length;
      if owner == 0 || size > POS_STORE_SIZE || !PassesTest(size) {
        return;
      }
      at := FromBeh(owner);
      if at < slots.Length && slots[at].mask != size - 1 {
        slots[at] := slots[at].(owner := 0);
        at := slots.Length;
      }
      if at == slots.Length {
        at := UseFree(owner, size, memory);
      } else {
        slots[at] := slots[at].(count := 0);
      }
    }

    /** The search for a free slot. */
    method UseFree(owner: nat, size: nat, memory: bool) returns (at: nat)
      modifies slots
      ensures var c := Allocate(old(slots[..]), owner, size, memory);
        slots[..] == c.slots && at == if c.Created? then c.at else slots.Length
    {
      at := FromBeh(0);
      if at == slots.Length {
        return;
      }
      slots[at] := Slot(owner, Mask8(size), slots[at].count);
      if !memory {
        slots[at] := slots[at].(owner := 0);
        at := slots.Length;
        return;
      }
      slots[at] := slots[at].(count := 0);
    }
  }
}
