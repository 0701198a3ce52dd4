/** The tier folder and the worker that fills it
    (`apps/wedding_cake/include/ingester_tier_folder.hpp`, `ingestor_worker.hpp`). */
module IngesterWorkers {
  import opened Wrappers
  import opened DonutEntries
  import opened DonutFiles
  import opened RemainderDonuts
  import opened LookupableBufferRooms
  import opened IngesterBuffers
  import opened Ingestions
  import opened IngestionTheorems
  import opened IngestionLookups

  class IngesterTierFolder {
    ghost const c: Config
    const capacity: nat
    const n: nat
    const room: LookupableBufferRoom
    var hatchling: RemainderDonut

    ghost predicate Valid()
      reads this, hatchling, room
    {
      && ConfigOk(c) && capacity == c.capacity && n == c.n
      && room.capacity == c.fanout
      && hatchling.Valid() && hatchling.capacity == c.capacity && hatchling.n == c.n
      && hatchling.order.Some? && hatchling.suffix.Some?
      && (hatchling.isOpen <==> |hatchling.forward| < capacity)
    }

    /** `s` has this hatchling and this room. */
    ghost predicate Is(s: State)
      reads this, hatchling, room
      requires Valid()
    {
      s.hatchling == Some(hatchling.Value()) && s.room == room.items
    }

    /** A tier without object folders. */
    constructor (ghost c: Config, capacity: nat, fanout: nat, n: nat)
      requires ConfigOk(c) && c == Config(capacity, fanout, n)
      ensures Valid() && this.c == c && fresh(hatchling) && fresh(room) && Is(Start(c))
    {
      this.c, this.capacity, this.n := c, capacity, n;
      room := new LookupableBufferRoom(fanout);
      hatchling := new RemainderDonut.CreateNew(capacity, 0, n);
    }

    /** Any number of discards by other threads. */
    method OtherThreads(ghost s: State) returns (ghost steps: seq<Step>, ghost t: State)
      requires Valid() && Is(s) && !s.worker.Thrown?
      modifies room
      ensures Valid() && Is(t) && Run(c, s, steps, t) && OnlyDiscards(s, t)
    {
      steps, t := [], s;
      var discards :| 0 <= discards;
      for i := 0 to discards
        invariant Valid() && Is(t) && Run(c, s, steps, t) && OnlyDiscards(s, t)
      {
        ghost var next := Do(c, t, DiscardRoom);
        RunThen(c, s, steps, t, DiscardRoom, next);
        ghost var _ := room.Discard();
        steps, t := steps + [DiscardRoom], next;
      }
    }

    /** `Feed` waits until a discard has made room; more may follow before it goes on. */
    method AwaitRoom(ghost s: State) returns (ghost steps: seq<Step>, ghost t: State)
      requires Valid() && Is(s) && s.worker.Promoting?
      modifies room
      ensures Valid() && Is(t) && |room.items| < c.fanout
      ensures Run(c, s, steps, t) && OnlyDiscards(s, t)
    {
      steps, t := OtherThreads(s);
      if |room.items| >= room.capacity {
        ghost var next := Do(c, t, DiscardRoom);
        RunThen(c, s, steps, t, DiscardRoom, next);
        ghost var _ := room.Discard();
        steps, t := steps + [DiscardRoom], next;
      }
    }

    /** Moves the full hatchling to the buffer room and starts the next donut. `Err` is the
        exception for an offset that does not parse; the hatchling has been moved away then. */
    method PromoteHatchlingAndSpawnNext(ghost s: State)
      returns (res: Result<(), string>, ghost steps: seq<Step>, ghost t: State)
      requires Valid() && Is(s) && s.worker.Promoting?
      modifies this, room
      ensures Run(c, s, steps, t) && SameBuffer(s, t)
      ensures res.Ok? <==> s.hatchling.value.first + c.capacity < OFFSET_LIMIT
      ensures res.Ok? ==> Valid() && Is(t) && fresh(hatchling) && hatchling.forward == []
      ensures t.worker == if res.Ok? then Consuming(s.worker.flushing, s.worker.sent)
                          else Thrown(s.worker.flushing, s.worker.sent)
    {
      var newOffset := hatchling.first + hatchling.capacity;
      steps, t := AwaitRoom(s);
      room.Feed(hatchling.Value());
      ghost var fed := Do(c, t, FeedRoom);
      RunThen(c, s, steps, t, FeedRoom, fed);
      t := Do(c, fed, Spawn);
      RunThen(c, s, steps + [FeedRoom], fed, Spawn, t);
      steps := steps + [FeedRoom] + [Spawn];
      var first := ParseOffset(newOffset);
      if first.None? {
        return Err("Invalid folder name format"), steps, t;
      }
      hatchling := new RemainderDonut.CreateNew(capacity, first.value, n);
      res := Ok(());
    }

    // -------------------------------------------------------------- lookups

    /** The slot of the stream, for every index in the hatchling's range; `Err` is the
        assertion on the range. */
    method HatchlingForwardLookup(pi: nat, ghost s: State) returns (item: Result<HashItem, string>)
      requires Valid() && Is(s) && Inv(c, s)
      ensures item.Ok? <==> |Contents(Promoted(s))| <= pi < |Stored(s)|
      ensures item.Ok? ==> item.value == s.fed[pi]
    {
      ghost var d := hatchling.Value();
      HatchlingRange(c, s, d);
      item := hatchling.ForwardLookup(pi);
      if item.Ok? {
        assert s.fed[d.first..d.first + |d.forward|][pi - d.first] == s.fed[pi];
      }
    }

    /** The first slot of the hatchling's range that holds the hash, or no match if none does. */
    method HatchlingReverseLookup(h: Hash, ghost s: State) returns (pi: Option<nat>)
      requires Valid() && Is(s) && Inv(c, s) && Sound(c, s)
      ensures FirstOrAbsent(s.fed, |Contents(Promoted(s))|, |Stored(s)|, h, pi)
    {
      HatchlingMapped(c, s, hatchling.Value());
      pi := hatchling.ReverseLookup(h);
      HatchlingReverse(c, s, hatchling.Value(), h, pi);
    }

    /** The slot of the stream, for every index in the room's range; the search always finds
        its donut. */
    method RoomForwardLookup(pi: nat, ghost s: State) returns (item: Result<HashItem, string>)
      requires Valid() && Is(s) && Inv(c, s)
      ensures item.Ok? <==> RoomStart(c, s) <= pi < RoomEnd(c, s)
      ensures item.Ok? ==> pi < |s.fed| && item.value == s.fed[pi]
    {
      RoomSearch(c, s, pi);
      item := room.ForwardLookup(pi);
    }

    /** The first slot of the room's range that holds the hash, or no match if none does. */
    method RoomReverseLookup(h: Hash, ghost s: State) returns (pi: Option<nat>)
      requires Valid() && Is(s) && Inv(c, s) && Sound(c, s)
      ensures FirstOrAbsent(s.fed, RoomStart(c, s), RoomEnd(c, s), h, pi)
    {
      pi := room.ReverseLookup(h);
      FirstInStream(c, s, h, pi);
    }
  }

  /** Only the buffer room was emptied. */
  ghost predicate OnlyDiscards(s: State, t: State) {
    t == s.(room := t.room, discarded := t.discarded)
  }

  /** The fields of the RAM buffer, and the history of the callers, are the same. */
  ghost predicate SameBuffer(s: State, t: State) {
    t == s.(hatchling := t.hatchling, room := t.room, discarded := t.discarded, worker := t.worker)
  }

  lemma {:induction false} RunOn(c: Config, s: State, steps: seq<Step>, t: State, more: seq<Step>, next: State)
    requires Inv(c, t) && Run(c, s, steps, t) && Run(c, t, more, next)
    ensures Inv(c, next) && Run(c, s, steps + more, next)
  {
    RunIsInv(c, t, more, next);
    RunConcat(c, s, steps, t, more, next);
  }

  /** The hatchling takes what fits, and that leaves the RAM buffer. */
  method ConsumeHashes(b: IngesterBuffer, tier: IngesterTierFolder, ghost s: State)
    returns (res: Result<nat, string>, ghost t: State)
    requires tier.Valid() && b.Is(s) && tier.Is(s) && Inv(tier.c, s) && s.worker.Consuming? && b.buffer != []
    modifies b`buffer, tier.hatchling
    ensures Enabled(tier.c, s, Append) && t == Do(tier.c, s, Append)
    ensures res.Ok? && res.value > 0 && |b.buffer| < |old(b.buffer)|
    ensures tier.Valid() && b.Is(t) && tier.Is(t)
    ensures if tier.hatchling.RemainingCapacity() == 0 then t.worker == Promoting(s.worker.flushing, s.worker.sent)
            else t.worker == s.worker
  {
    t := Do(tier.c, s, Append);
    AppendMoves(tier.c, s, t);
    res := tier.hatchling.AppendHashes(b.buffer);
    b.buffer := b.buffer[res.value..];
  }

  /** One round of the worker's loop over a batch that is not drained; `Err` is an exception of
      the promotion. */
  method FillHatchling(b: IngesterBuffer, tier: IngesterTierFolder, ghost s: State)
    returns (res: Result<nat, string>, ghost steps: seq<Step>, ghost t: State)
    requires tier.Valid() && b.Is(s) && tier.Is(s) && Inv(tier.c, s) && s.worker.Consuming? && b.buffer != []
    modifies b`buffer, tier, tier.hatchling, tier.room
    ensures Run(tier.c, s, steps, t) && b.Is(t) && |b.buffer| < |old(b.buffer)|
    ensures res.Err? <==> t.worker.Thrown?
    ensures res.Ok? ==> res.value > 0 && tier.Valid() && tier.Is(t) && t.worker == s.worker
    ensures res.Ok? ==> fresh(tier.hatchling) || tier.hatchling == old(tier.hatchling)
  {
    ghost var appended;
    res, appended := ConsumeHashes(b, tier, s);
    steps, t := [Append], appended;
    RunOne(tier.c, s, Append, appended);
    if tier.hatchling.RemainingCapacity() == 0 {
      var promoted;
      ghost var more;
      promoted, more, t := tier.PromoteHatchlingAndSpawnNext(appended);
      steps := [Append] + more;
      RunConcat(tier.c, s, [Append], appended, more, t);
      if promoted.Err? {
        return Err(promoted.error), steps, t;
      }
    }
  }

  /** The worker's lambda: hatchlings are filled, and promoted when full, until the batch is
      drained. The loop would also end at a round that takes nothing. */
  method DrainBatch(b: IngesterBuffer, tier: IngesterTierFolder, ghost s: State)
    returns (res: Result<int, string>, ghost steps: seq<Step>, ghost t: State)
    requires tier.Valid() && b.Is(s) && tier.Is(s) && Inv(tier.c, s) && s.worker.Consuming?
    modifies b`buffer, tier, tier.hatchling, tier.room
    ensures Run(tier.c, s, steps, t) && Inv(tier.c, t) && b.Is(t)
    ensures res.Err? <==> t.worker.Thrown?
    ensures res.Err? <==> |Contents(Promoted(t))| >= OFFSET_LIMIT
    ensures res.Ok? ==> tier.Valid() && tier.Is(t) && t.worker == s.worker
    ensures res.Ok? ==> b.buffer == [] && res.value == tier.hatchling.RemainingCapacity()
  {
    steps, t := [], s;
    while |b.buffer| > 0
      invariant tier.Valid() && b.Is(t) && tier.Is(t) && Inv(tier.c, t) && t.worker == s.worker
      invariant fresh(tier.hatchling) || tier.hatchling == old(tier.hatchling)
      invariant Run(tier.c, s, steps, t)
      decreases |b.buffer|
    {
      var consumed;
      consumed, steps, t := DrainRound(b, tier, s, steps, t);
      if consumed.Err? {
        ThrownIsBeyond(tier.c, t);
        return Err(consumed.error), steps, t;
      }
      if consumed.value == 0 {
        break;
      }
    }
    ThrownIsBeyond(tier.c, t);
    res := Ok(tier.hatchling.RemainingCapacity());
  }

  /** A round of the loop, after whatever other threads did; it extends the run so far. */
  method DrainRound(b: IngesterBuffer, tier: IngesterTierFolder, ghost s: State, ghost before: seq<Step>,
      ghost m: State)
    returns (res: Result<nat, string>, ghost steps: seq<Step>, ghost t: State)
    requires tier.Valid() && b.Is(m) && tier.Is(m) && Inv(tier.c, m) && m.worker.Consuming? && b.buffer != []
    requires Run(tier.c, s, before, m)
    modifies b`buffer, tier, tier.hatchling, tier.room
    ensures Run(tier.c, s, steps, t) && Inv(tier.c, t) && b.Is(t) && |b.buffer| < |old(b.buffer)|
    ensures res.Err? <==> t.worker.Thrown?
    ensures res.Ok? ==> res.value > 0 && tier.Valid() && tier.Is(t) && t.worker == m.worker
    ensures res.Ok? ==> fresh(tier.hatchling) || tier.hatchling == old(tier.hatchling)
  {
    ghost var more, next := tier.OtherThreads(m);
    RunOn(tier.c, s, before, m, more, next);
    steps := before + more;
    res, more, t := FillHatchling(b, tier, next);
    RunOn(tier.c, s, steps, next, more, t);
    steps := steps + more;
  }

  lemma {:induction false} ThrownIsBeyond(c: Config, s: State)
    requires Inv(c, s) && !s.worker.Spawning?
    ensures s.worker.Thrown? <==> |Contents(Promoted(s))| >= OFFSET_LIMIT
  {
    TierThrows(c, s, |Contents(Promoted(s))|);
  }

  lemma {:induction false} WholeRound(c: Config, s: State, taken: State, steps: seq<Step>, t: State, done: State)
    requires Enabled(c, s, TakeBatch) && taken == Do(c, s, TakeBatch) && Run(c, taken, steps, t)
    requires Enabled(c, t, ReturnBatch) && done == Do(c, t, ReturnBatch)
    ensures Run(c, s, [TakeBatch] + (steps + [ReturnBatch]), done) && Promoted(done) == Promoted(t)
  {
    RunThen(c, taken, steps, t, ReturnBatch, done);
  }

  /** `with_at_least_n_hashes` behind its wait, with the worker's lambda: every round of the
      worker is a run of the pipeline's steps, no assertion of it fails, and it throws exactly
      if it comes to start a donut at an offset that does not parse. */
  method WorkerRound(b: IngesterBuffer, tier: IngesterTierFolder, ghost s: State)
    returns (res: Result<(), string>, ghost steps: seq<Step>, ghost t: State)
    requires tier.Valid() && b.Is(s) && tier.Is(s) && Inv(tier.c, s) && s.worker.Idle?
    requires |b.buffer| >= b.remaining || b.pleaseFlush || b.stopping
    modifies b, tier, tier.hatchling, tier.room
    ensures Run(tier.c, s, steps, t)
    ensures res.Ok? ==> tier.Valid() && b.Is(t) && tier.Is(t) && t.worker.Idle? && b.buffer == []
    ensures res.Err? ==> t.worker.Thrown?
    ensures res.Err? <==> |Contents(Promoted(t))| >= OFFSET_LIMIT
  {
    steps, t := [], s;
    if b.stopping && |b.buffer| == 0 {
      ThrownIsBeyond(tier.c, t);
      return Ok(()), steps, t;
    }
    var isFlushActive, sent := b.pleaseFlush, |b.buffer|;
    ghost var taken := Do(tier.c, s, TakeBatch);
    StepIsInv(tier.c, s, TakeBatch);
    var remaining;
    remaining, steps, t := DrainBatch(b, tier, taken);
    if remaining.Err? {
      return Err(remaining.error), [TakeBatch] + steps, t;
    }
    res := b.BatchDone(remaining.value, sent, isFlushActive);
    ghost var done := Do(tier.c, t, ReturnBatch);
    WholeRound(tier.c, s, taken, steps, t, done);
    steps, t := [TakeBatch] + (steps + [ReturnBatch]), done;
  }
}
