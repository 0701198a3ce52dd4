/** Lookups over the donuts of a buffer room
    (`apps/wedding_cake/include/lookupable_buffer_room.hpp`). */
module LookupableBufferRooms {
  import opened Wrappers
  import opened DonutEntries
  import opened DonutFiles

  predicate Contains(d: Donut, pi: nat) {
    d.first <= pi < d.first + |d.forward|
  }

  /** The newest donut whose range holds `pi`. */
  function NewestHolding(donuts: seq<Donut>, pi: nat): (k: Option<nat>)
    ensures k.Some? ==> k.value < |donuts| && Contains(donuts[k.value], pi)
    ensures k.Some? ==> forall j :: k.value < j < |donuts| ==> !Contains(donuts[j], pi)
    ensures k.None? ==> forall j :: 0 <= j < |donuts| ==> !Contains(donuts[j], pi)
  {
    if donuts == [] then None
    else if Contains(donuts[|donuts| - 1], pi) then Some(|donuts| - 1)
    else NewestHolding(donuts[..|donuts| - 1], pi)
  }

  /** The oldest donut whose map knows `h`. */
  predicate OldestKnowing(donuts: seq<Donut>, h: Hash, k: nat) {
    && k < |donuts| && h in donuts[k].reverse
    && forall j :: 0 <= j < k ==> h !in donuts[j].reverse
  }

  class LookupableBufferRoom {
    const capacity: nat
    var items: seq<Donut>

    constructor (capacity: nat)
      ensures this.capacity == capacity && items == []
    {
      this.capacity, items := capacity, [];
    }

    /** For startup, before there are other threads. */
    method InitializeAdd(donut: Donut) returns (res: Result<(), string>)
      modifies this
      ensures res.Ok? <==> |old(items)| < capacity
      ensures items == if res.Ok? then old(items) + [donut] else old(items)
    {
      if |items| >= capacity {
        return Err("BufferRoom::InitializeAdd(): buffer room already at capacity");
      }
      items := items + [donut];
      return Ok(());
    }

    /** The part of `Feed` behind its wait. */
    method Feed(donut: Donut)
      requires |items| < capacity
      modifies this
      ensures items == old(items) + [donut]
    {
      items := items + [donut];
    }

    method Discard() returns (ghost discarded: seq<Donut>)
      modifies this
      ensures items == [] && discarded == old(items)
    {
      discarded := items;
      items := [];
    }

    /** `Err` is one of the assertions on the range. */
    method ForwardLookup(pi: nat) returns (item: Result<HashItem, string>)
      ensures item.Ok? ==> NewestHolding(items, pi).Some?
                           && var d := items[NewestHolding(items, pi).value]; item.value == d.forward[pi - d.first]
      ensures item.Ok? <==> NewestHolding(items, pi).Some? && items[0].first <= pi
                            && Before(pi, items[|items| - 1])
    {
      if |items| == 0 || pi < items[0].first || !Before(pi, items[|items| - 1]) {
        return Err("Parent should have checked bounds");
      }
      var k := |items|;
      while k > 0
        invariant 0 <= k <= |items|
        invariant NewestHolding(items, pi) == NewestHolding(items[..k], pi)
      {
        k := k - 1;
        assert items[..k + 1][..k] == items[..k];
        if Contains(items[k], pi) {
          return Ok(items[k].forward[pi - items[k].first]);
        }
      }
      return Err("Why wasn't global_pi represented by a child?");
    }

    /** `None` is `GLOBAL_PI_NO_MATCH`. */
    method ReverseLookup(h: Hash) returns (pi: Option<nat>)
      ensures pi.None? <==> forall j :: 0 <= j < |items| ==> h !in items[j].reverse
      ensures pi.Some? ==>
                exists k: nat :: OldestKnowing(items, h, k) && pi.value == items[k].first + items[k].reverse[h]
    {
      for k := 0 to |items|
        invariant forall j :: 0 <= j < k ==> h !in items[j].reverse
      {
        if h in items[k].reverse {
          assert OldestKnowing(items, h, k);
          return Some(items[k].first + items[k].reverse[h]);
        }
      }
      return None;
    }
  }

  predicate Before(pi: nat, d: Donut) {
    pi < d.first + |d.forward|
  }
}
