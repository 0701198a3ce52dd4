/** What the ingestion pipeline keeps over every run. */
module IngestionTheorems {
  import opened Wrappers
  import opened DonutEntries
  import opened DonutFiles
  import opened DonutHistories
  import opened Ingestions

  // ---------------------------------------------------------------- runs

  lemma {:induction false} RunOne(c: Config, s: State, step: Step, t: State)
    requires Enabled(c, s, step) && t == Do(c, s, step)
    ensures Run(c, s, [step], t)
  {
  }

  lemma {:induction false} RunThen(c: Config, s: State, steps: seq<Step>, t: State, step: Step, u: State)
    requires Run(c, s, steps, t) && Enabled(c, t, step) && u == Do(c, t, step)
    ensures Run(c, s, steps + [step], u)
    decreases |steps|
  {
    if steps == [] {
      assert [step][1..] == [];
    } else {
      assert (steps + [step])[1..] == steps[1..] + [step];
      RunThen(c, Do(c, s, steps[0]), steps[1..], t, step, u);
    }
  }

  lemma {:induction false} RunConcat(c: Config, s: State, xs: seq<Step>, t: State, ys: seq<Step>, u: State)
    requires Run(c, s, xs, t) && Run(c, t, ys, u)
    ensures Run(c, s, xs + ys, u)
    decreases |xs|
  {
    if xs == [] {
      assert xs + ys == ys;
    } else {
      assert (xs + ys)[1..] == xs[1..] + ys;
      RunConcat(c, Do(c, s, xs[0]), xs[1..], t, ys, u);
    }
  }

  // ---------------------------------------------------------------- donuts in a row

  lemma {:induction false} ContentsPush(donuts: seq<Donut>, d: Donut)
    ensures Contents(donuts + [d]) == Contents(donuts) + d.forward
  {
  }

  lemma OffsetNext(k: nat, capacity: nat)
    ensures Offset(k + 1, capacity) == Offset(k, capacity) + capacity
  {
  }

  lemma {:induction false} FrontIsFull(c: Config, donuts: seq<Donut>, k: nat)
    requires AllFull(c, donuts) && k < |donuts|
    ensures AllFull(c, donuts[..k])
    ensures InPlace(c, donuts[k], Offset(k, c.capacity)) && |donuts[k].forward| == c.capacity
  {
  }

  lemma {:induction false} ContentsSize(c: Config, donuts: seq<Donut>)
    requires AllFull(c, donuts)
    ensures |Contents(donuts)| == Offset(|donuts|, c.capacity)
  {
    if donuts != [] {
      FrontIsFull(c, donuts, |donuts| - 1);
      ContentsSize(c, donuts[..|donuts| - 1]);
      OffsetNext(|donuts| - 1, c.capacity);
    }
  }

  // ---------------------------------------------------------------- the index of the RAM buffer

  lemma {:induction false} LatestConcat(m: Reverse, a: seq<HashItem>, b: seq<HashItem>, i: nat)
    ensures Latest(m, a + b, i) == Latest(Latest(m, a, i), b, i + |a|)
  {
    if b == [] {
      assert a + b == a;
    } else {
      var front := b[..|b| - 1];
      assert (a + b)[..|a + b| - 1] == a + front;
      LatestConcat(m, a, front, i);
    }
  }

  // ---------------------------------------------------------------- each step

  lemma SameTier(c: Config, s: State, t: State)
    requires Inv(c, s) && s.worker.Idle? && t.worker.Idle?
    requires t.discarded == s.discarded && t.room == s.room && t.hatchling == s.hatchling
    ensures TierOk(c, t) && Stored(t) == Stored(s)
  {
  }

  lemma FeedKeeps(c: Config, s: State, block: seq<HashItem>)
    requires Inv(c, s) && Enabled(c, s, FeedBlock(block))
    ensures Inv(c, DoFeed(s, block))
  {
    var t := DoFeed(s, block);
    SameTier(c, s, t);
    FeedKeepsBuffer(c, s, t, block, |Stored(s)|);
    Reassociate(Stored(s), s.buffer, block);
  }

  lemma FeedKeepsBuffer(c: Config, s: State, t: State, block: seq<HashItem>, handed: nat)
    requires BufferOk(c, s, handed) && Enabled(c, s, FeedBlock(block)) && t == DoFeed(s, block)
    requires s.hatchling.Some?
    ensures BufferOk(c, t, handed)
  {
    HashesOfParts(s.buffer, block, c.n);
  }

  lemma FlushCallKeeps(c: Config, s: State, u: nat)
    requires Inv(c, s) && Enabled(c, s, CallFlush(u))
    ensures Inv(c, DoCallFlush(s, u))
  {
  }

  lemma CallsKeep(c: Config, s: State, step: Step)
    requires Inv(c, s) && Enabled(c, s, step) && (step.ReturnFromFlush? || step.Stop?)
    ensures Inv(c, Do(c, s, step))
  {
  }

  lemma TakeKeeps(c: Config, s: State)
    requires Inv(c, s) && Enabled(c, s, TakeBatch)
    ensures Inv(c, Do(c, s, TakeBatch))
  {
    var t := Do(c, s, TakeBatch);
    assert Stored(t) == Stored(s);
  }

  lemma MoveTaken(promoted: seq<HashItem>, hatched: seq<HashItem>, taken: seq<HashItem>, left: seq<HashItem>)
    ensures promoted + (hatched + taken) + left == promoted + hatched + (taken + left)
    ensures |promoted + (hatched + taken)| == |promoted + hatched| + |taken|
  {
  }

  lemma AppendMoves(c: Config, s: State, t: State)
    requires Inv(c, s) && Enabled(c, s, Append) && t == Do(c, s, Append)
    ensures var taken := Taken(c, s);
            && taken != [] && s.buffer == taken + t.buffer
            && |InHatchling(s)| + |taken| <= c.capacity
            && (t.buffer != [] ==> |InHatchling(s)| + |taken| == c.capacity)
            && t == s.(buffer := t.buffer, hatchling := Some(Appended(s.hatchling.value, taken)), worker := t.worker)
            && t.worker == if |InHatchling(s)| + |taken| == c.capacity then Promoting(s.worker.flushing, s.worker.sent)
                           else s.worker
  {
    var taken := Taken(c, s);
    assert s.buffer == taken + s.buffer[|taken|..];
  }

  lemma AppendKeepsTier(c: Config, s: State, t: State, taken: seq<HashItem>)
    requires TierOk(c, s) && s.worker.Consuming? && s.hatchling.Some? && HashesOf(taken, c.n)
    requires |InHatchling(s)| + |taken| <= c.capacity
    requires t == s.(buffer := t.buffer, hatchling := Some(Appended(s.hatchling.value, taken)), worker := t.worker)
    requires t.worker == if |InHatchling(s)| + |taken| == c.capacity then Promoting(s.worker.flushing, s.worker.sent)
                         else s.worker
    ensures TierOk(c, t)
  {
  }

  lemma AppendKeeps(c: Config, s: State)
    requires Inv(c, s) && Enabled(c, s, Append)
    ensures Inv(c, Do(c, s, Append))
  {
    var t, taken := Do(c, s, Append), Taken(c, s);
    AppendMoves(c, s, t);
    HashesOfParts(taken, t.buffer, c.n);
    AppendKeepsTier(c, s, t, taken);
    AppendKeepsBuffer(c, s, t, taken, |Stored(s)|);
    MoveTaken(Contents(Promoted(s)), InHatchling(s), taken, t.buffer);
  }

  lemma AppendKeepsBuffer(c: Config, s: State, t: State, taken: seq<HashItem>, handed: nat)
    requires BufferOk(c, s, handed) && s.worker.Consuming? && s.buffer == taken + t.buffer && HashesOf(t.buffer, c.n)
    requires t == s.(buffer := t.buffer, hatchling := t.hatchling, worker := t.worker)
    requires t.worker == Promoting(s.worker.flushing, s.worker.sent) || t.worker == s.worker
    ensures BufferOk(c, t, handed + |taken|)
  {
  }

  lemma AllFullPush(c: Config, donuts: seq<Donut>, d: Donut, k: nat)
    requires AllFull(c, donuts) && k == |donuts| && InPlace(c, d, Offset(k, c.capacity)) && |d.forward| == c.capacity
    ensures AllFull(c, donuts + [d])
  {
  }

  lemma FeedRoomKeepsTier(c: Config, s: State, t: State, k: nat)
    requires TierOk(c, s) && Enabled(c, s, FeedRoom) && t == DoFeedRoom(c, s) && k == |Promoted(s)|
    requires Promoted(t) == Promoted(s) + [s.hatchling.value]
    ensures TierOk(c, t)
  {
    AllFullPush(c, Promoted(s), s.hatchling.value, k);
    OffsetNext(k, c.capacity);
    assert |Promoted(t)| == k + 1;
  }

  lemma FeedRoomKeeps(c: Config, s: State)
    requires Inv(c, s) && Enabled(c, s, FeedRoom)
    ensures Inv(c, Do(c, s, FeedRoom))
  {
    var t := Do(c, s, FeedRoom);
    FeedRoomPromotes(c, s, t);
    FeedRoomKeepsTier(c, s, t, |Promoted(s)|);
    FeedRoomStores(s, t);
    FeedRoomKeepsBuffer(c, s, t, |Stored(s)|);
  }

  lemma FeedRoomPromotes(c: Config, s: State, t: State)
    requires s.worker.Promoting? && s.hatchling.Some? && t == DoFeedRoom(c, s)
    ensures Promoted(t) == Promoted(s) + [s.hatchling.value]
  {
  }

  lemma FeedRoomStores(s: State, t: State)
    requires s.hatchling.Some? && t.hatchling.None? && Promoted(t) == Promoted(s) + [s.hatchling.value]
    ensures Stored(t) == Stored(s)
  {
  }

  lemma FeedRoomKeepsBuffer(c: Config, s: State, t: State, handed: nat)
    requires BufferOk(c, s, handed) && Enabled(c, s, FeedRoom) && t == DoFeedRoom(c, s)
    ensures BufferOk(c, t, handed)
  {
  }

  lemma SpawnKeeps(c: Config, s: State)
    requires Inv(c, s) && Enabled(c, s, Spawn)
    ensures Inv(c, Do(c, s, Spawn))
  {
    var t := Do(c, s, Spawn);
    SpawnKeepsTier(c, s, t);
    SpawnKeepsBuffer(c, s, t, |Stored(s)|);
    assert Stored(t) == Stored(s);
  }

  lemma SpawnKeepsTier(c: Config, s: State, t: State)
    requires ConfigOk(c) && TierOk(c, s) && s.worker.Spawning? && t == DoSpawn(c, s)
    ensures TierOk(c, t) && InHatchling(t) == InHatchling(s) == [] && Promoted(t) == Promoted(s)
  {
    assert Promoted(t) == Promoted(s);
  }

  lemma SpawnKeepsBuffer(c: Config, s: State, t: State, handed: nat)
    requires BufferOk(c, s, handed) && s.worker.Spawning? && t == DoSpawn(c, s)
    ensures BufferOk(c, t, handed)
  {
  }

  lemma ReturnKeeps(c: Config, s: State)
    requires Inv(c, s) && Enabled(c, s, ReturnBatch)
    ensures Inv(c, Do(c, s, ReturnBatch))
  {
    var t := Do(c, s, ReturnBatch);
    assert Stored(t) == Stored(s);
  }

  lemma DiscardKeeps(c: Config, s: State)
    requires Inv(c, s) && Enabled(c, s, DiscardRoom)
    ensures Inv(c, Do(c, s, DiscardRoom))
  {
    var t := Do(c, s, DiscardRoom);
    assert Promoted(t) == Promoted(s);
    assert Stored(t) == Stored(s);
  }

  lemma StepIsInv(c: Config, s: State, step: Step)
    requires Inv(c, s) && Enabled(c, s, step)
    ensures Inv(c, Do(c, s, step))
  {
    match step
    case FeedBlock(block) => FeedKeeps(c, s, block);
    case CallFlush(u) => FlushCallKeeps(c, s, u);
    case ReturnFromFlush(_) => CallsKeep(c, s, step);
    case Stop => CallsKeep(c, s, step);
    case TakeBatch => TakeKeeps(c, s);
    case Append => AppendKeeps(c, s);
    case FeedRoom => FeedRoomKeeps(c, s);
    case Spawn => SpawnKeeps(c, s);
    case ReturnBatch => ReturnKeeps(c, s);
    case DiscardRoom => DiscardKeeps(c, s);
  }

  lemma StartIsInv(c: Config)
    requires ConfigOk(c)
    ensures Inv(c, Start(c))
  {
  }

  lemma {:induction false} RunIsInv(c: Config, s: State, steps: seq<Step>, t: State)
    requires Inv(c, s) && Run(c, s, steps, t)
    ensures Inv(c, t)
    decreases |steps|
  {
    if steps != [] {
      StepIsInv(c, s, steps[0]);
      RunIsInv(c, Do(c, s, steps[0]), steps[1..], t);
    }
  }

  // ---------------------------------------------------------------- memory and files

  lemma {:induction false} AppendStaysSound(c: Config, s: State, t: State, taken: seq<HashItem>)
    requires Inv(c, s) && Sound(c, s) && Enabled(c, s, Append) && t == Do(c, s, Append) && taken == Taken(c, s)
    ensures Sound(c, t)
  {
    AppendMoves(c, s, t);
    HashesOfParts(taken, t.buffer, c.n);
    AppendStaysGood(c, s.hatchling.value, taken);
  }

  lemma {:induction false} AppendStaysGood(c: Config, d: Donut, batch: seq<HashItem>)
    requires GoodDonut(c, d) && |d.forward| + |batch| <= d.capacity && HashesOf(batch, c.n)
    ensures GoodDonut(c, Appended(d, batch))
  {
    AppendedIsOk(d, batch, c.n);
    AppendedIsWritten(d, batch);
  }

  lemma {:induction false} NewIsGood(c: Config, first: nat)
    requires ConfigOk(c)
    ensures GoodDonut(c, NewDonut(c.capacity, first))
  {
    NewDonutOk(c.capacity, first, c.n);
    NewIsWritten(c.capacity, first);
  }

  lemma {:induction false} AllGoodPush(c: Config, donuts: seq<Donut>, d: Donut)
    requires AllGood(c, donuts) && GoodDonut(c, d)
    ensures AllGood(c, donuts + [d])
  {
  }

  lemma {:induction false} FeedStaysSound(c: Config, s: State, block: seq<HashItem>)
    requires Sound(c, s) && s.worker.Idle?
    ensures Sound(c, DoFeed(s, block))
  {
    LatestConcat(map[], s.buffer, block, 0);
  }

  /** The same donuts, and the index of the RAM buffer is out of sight. */
  lemma {:induction false} SameDonutsSound(c: Config, s: State, t: State)
    requires Sound(c, s) && Promoted(t) == Promoted(s) && t.hatchling == s.hatchling
    requires t.worker.Idle? ==> t.lookup == Latest(map[], t.buffer, 0)
    ensures Sound(c, t)
  {
  }

  lemma {:induction false} FeedRoomStaysSound(c: Config, s: State, t: State)
    requires Sound(c, s) && Enabled(c, s, FeedRoom) && t == DoFeedRoom(c, s)
    ensures Sound(c, t)
  {
    FeedRoomPromotes(c, s, t);
    AllGoodPush(c, Promoted(s), s.hatchling.value);
  }

  lemma {:induction false} SpawnStaysSound(c: Config, s: State)
    requires ConfigOk(c) && Sound(c, s) && s.worker.Spawning?
    ensures Sound(c, DoSpawn(c, s))
  {
    NewIsGood(c, s.worker.offset);
  }

  lemma {:induction false} StepStaysSound(c: Config, s: State, step: Step)
    requires Inv(c, s) && Sound(c, s) && Enabled(c, s, step)
    ensures Sound(c, Do(c, s, step))
  {
    match step
    case FeedBlock(block) => FeedStaysSound(c, s, block);
    case Append => AppendStaysSound(c, s, Do(c, s, step), Taken(c, s));
    case FeedRoom => FeedRoomStaysSound(c, s, Do(c, s, step));
    case Spawn => SpawnStaysSound(c, s);
    case DiscardRoom =>
      assert Promoted(Do(c, s, step)) == Promoted(s);
      SameDonutsSound(c, s, Do(c, s, step));
    case _ => SameDonutsSound(c, s, Do(c, s, step));
  }

  lemma {:induction false} RunStaysSound(c: Config, s: State, steps: seq<Step>, t: State)
    requires Inv(c, s) && Sound(c, s) && Run(c, s, steps, t)
    ensures Inv(c, t) && Sound(c, t)
    decreases |steps|
  {
    if steps != [] {
      StepIsInv(c, s, steps[0]);
      StepStaysSound(c, s, steps[0]);
      RunStaysSound(c, Do(c, s, steps[0]), steps[1..], t);
    }
  }

  /** The invariants hold in every state that a fresh pipeline can reach. */
  lemma {:induction false} Reached(c: Config, steps: seq<Step>, s: State)
    requires ConfigOk(c) && Run(c, Start(c), steps, s)
    ensures Inv(c, s)
  {
    StartIsInv(c);
    RunIsInv(c, Start(c), steps, s);
  }

  lemma {:induction false} ReachedIsSound(c: Config, steps: seq<Step>, s: State)
    requires ConfigOk(c) && Run(c, Start(c), steps, s)
    ensures Inv(c, s) && Sound(c, s)
  {
    StartIsInv(c);
    NewIsGood(c, 0);
    RunStaysSound(c, Start(c), steps, s);
  }

  // ---------------------------------------------------------------- conservation

  lemma {:induction false} ContentsConcat(a: seq<Donut>, b: seq<Donut>)
    ensures Contents(a + b) == Contents(a) + Contents(b)
  {
    if b == [] {
      assert a + b == a;
    } else {
      assert (a + b)[..|a + b| - 1] == a + b[..|b| - 1];
      ContentsConcat(a, b[..|b| - 1]);
    }
  }

  /** Nothing is lost, doubled or reordered: discarded donuts, buffer room, hatchling and RAM
      buffer, read in this order, are the accepted stream; the donuts are full and
      follow each other, and the RAM buffer starts where the hatchling ends. */
  lemma {:induction false} StreamIsConserved(c: Config, steps: seq<Step>, s: State)
    requires ConfigOk(c) && Run(c, Start(c), steps, s)
    ensures Contents(s.discarded) + Contents(s.room) + InHatchling(s) + s.buffer == s.fed
    ensures AllFull(c, s.discarded + s.room) && |s.room| <= c.fanout
    ensures s.worker.Idle? ==> s.hatchling.Some? && s.first == s.hatchling.value.first + |s.hatchling.value.forward|
  {
    Reached(c, steps, s);
    ContentsConcat(s.discarded, s.room);
    ContentsSize(c, Promoted(s));
  }

  /** The worker never gets an empty batch, drains every batch, leaves room in the
      hatchling, and its next donut starts where the promoted ones end. */
  lemma {:induction false} WorkerAssertionsHold(c: Config, steps: seq<Step>, s: State)
    requires ConfigOk(c) && Run(c, Start(c), steps, s)
    ensures !s.worker.Broken?
    ensures Enabled(c, s, TakeBatch) ==> s.buffer != []
    ensures Enabled(c, s, Append) ==> Taken(c, s) != [] && |InHatchling(s)| + |Taken(c, s)| <= c.capacity
    ensures Enabled(c, s, ReturnBatch) ==> Do(c, s, ReturnBatch).remaining > 0
    ensures Enabled(c, s, Spawn) ==> s.worker.offset == |Contents(Promoted(s))|
  {
    Reached(c, steps, s);
    if s.worker.Spawning? {
      SpawnsBehindTheLast(c, s);
    }
    if Enabled(c, s, Append) {
      AppendTakesSome(c, s);
    }
  }

  /** The worker throws exactly if it starts a donut at an offset of 2^31 or more, and that is
      the number of slots in the promoted donuts, discarded ones included. */
  lemma {:induction false} ThrowsExactly(c: Config, steps: seq<Step>, s: State)
    requires ConfigOk(c) && Run(c, Start(c), steps, s)
    ensures s.worker.Thrown? <==> !s.worker.Spawning? && |Contents(Promoted(s))| >= 0x8000_0000
    ensures Enabled(c, s, Spawn) ==>
              (Do(c, s, Spawn).worker.Thrown? <==> |Contents(Promoted(s))| >= 0x8000_0000)
    ensures s.worker.Thrown? ==> |s.fed| >= 0x8000_0000 && forall step :: !Enabled(c, s, step)
  {
    Reached(c, steps, s);
    TierThrows(c, s, |Contents(Promoted(s))|);
    if s.worker.Thrown? {
      ThrownIsTheEnd(c, s);
    }
  }

  lemma TierThrows(c: Config, s: State, next: nat)
    requires TierOk(c, s) && next == |Contents(Promoted(s))|
    ensures s.worker.Thrown? <==> !s.worker.Spawning? && next >= OFFSET_LIMIT
    ensures s.worker.Spawning? ==> (DoSpawn(c, s).worker.Thrown? <==> next >= OFFSET_LIMIT)
  {
    ContentsSize(c, Promoted(s));
  }

  lemma ThrownIsTheEnd(c: Config, s: State)
    requires s.worker.Thrown?
    ensures forall step :: !Enabled(c, s, step)
  {
  }

  lemma SpawnsBehindTheLast(c: Config, s: State)
    requires TierOk(c, s) && s.worker.Spawning?
    ensures s.worker.offset == |Contents(Promoted(s))|
  {
    ContentsSize(c, Promoted(s));
  }

  lemma AppendTakesSome(c: Config, s: State)
    requires s.buffer != [] && |InHatchling(s)| < c.capacity
    ensures Taken(c, s) != [] && |InHatchling(s)| + |Taken(c, s)| <= c.capacity
  {
  }

  // ---------------------------------------------------------------- what is accepted, and when

  /** The blocks of a run, one after the other, up to a stop. */
  function FedBy(steps: seq<Step>, stopping: bool): seq<HashItem> {
    if steps == [] || stopping then []
    else (if steps[0].FeedBlock? then steps[0].block else []) + FedBy(steps[1..], steps[0].Stop?)
  }

  /** The accepted stream is made of exactly the blocks that were fed before a stop. */
  lemma {:induction false} FedIsTheBlocks(c: Config, s: State, steps: seq<Step>, t: State)
    requires Run(c, s, steps, t)
    ensures t.fed == s.fed + FedBy(steps, s.stopping)
    decreases |steps|
  {
    if steps == [] {
      assert s.fed + [] == s.fed;
    } else {
      var next := Do(c, s, steps[0]);
      FedIsTheBlocks(c, next, steps[1..], t);
      StepFeeds(c, s, steps[0]);
    }
  }

  lemma StepFeeds(c: Config, s: State, step: Step)
    requires Enabled(c, s, step)
    ensures var t := Do(c, s, step);
            && t.fed == s.fed + (if step.FeedBlock? && !s.stopping then step.block else [])
            && t.stopping == (s.stopping || step.Stop?)
  {
  }

  /** A feed waits exactly while what is queued would fill the hatchling; a stop lets it through. */
  lemma FeedsExactlyWhen(c: Config, s: State, block: seq<HashItem>)
    requires Inv(c, s) && s.worker.Idle? && block != [] && HashesOf(block, c.n)
    ensures Enabled(c, s, FeedBlock(block)) <==> |InHatchling(s)| + |s.buffer| < c.capacity || s.stopping
  {
  }

  /** The worker takes a batch exactly when that fills the hatchling, or on a flush or a stop. */
  lemma TakesExactlyWhen(c: Config, s: State)
    requires Inv(c, s) && s.worker.Idle?
    ensures Enabled(c, s, TakeBatch) <==>
            s.buffer != [] && (|InHatchling(s)| + |s.buffer| >= c.capacity || s.pleaseFlush || s.stopping)
  {
  }

  /** A stop is for good: nothing is accepted any more, and whenever the worker is outside its lambda
      no feeder and no flusher waits. */
  lemma {:induction false} StopIsForGood(c: Config, s: State, steps: seq<Step>, t: State)
    requires Enabled(c, s, Stop) && Run(c, Do(c, s, Stop), steps, t)
    ensures t.stopping && t.fed == s.fed
    ensures t.worker.Idle? ==>
              && (forall block :: block != [] && HashesOf(block, c.n) ==> Enabled(c, t, FeedBlock(block)))
              && (forall u :: u in t.flushers ==> Enabled(c, t, ReturnFromFlush(u)))
  {
    StoppingLasts(c, Do(c, s, Stop), steps, t);
    FedIsTheBlocks(c, Do(c, s, Stop), steps, t);
  }

  lemma {:induction false} StoppingLasts(c: Config, s: State, steps: seq<Step>, t: State)
    requires s.stopping && Run(c, s, steps, t)
    ensures t.stopping
    decreases |steps|
  {
    if steps != [] {
      StepFeeds(c, s, steps[0]);
      StoppingLasts(c, Do(c, s, steps[0]), steps[1..], t);
    }
  }

  // ---------------------------------------------------------------- backpressure and flush

  ghost predicate BlocksWithin(steps: seq<Step>, b: nat) {
    forall i :: 0 <= i < |steps| && steps[i].FeedBlock? ==> |steps[i].block| <= b
  }

  lemma {:induction false} LargestWithin(c: Config, s: State, steps: seq<Step>, t: State, b: nat)
    requires Run(c, s, steps, t) && BlocksWithin(steps, b) && s.largest <= b
    ensures t.largest <= b
    decreases |steps|
  {
    if steps != [] {
      assert Do(c, s, steps[0]).largest <= b;
      LargestWithin(c, Do(c, s, steps[0]), steps[1..], t, b);
    }
  }

  /** Backpressure bounds the queue by one donut and one block. */
  lemma {:induction false} QueueIsBounded(c: Config, steps: seq<Step>, s: State, b: nat)
    requires ConfigOk(c) && Run(c, Start(c), steps, s) && BlocksWithin(steps, b)
    ensures |s.buffer| < c.capacity + b
  {
    Reached(c, steps, s);
    LargestWithin(c, Start(c), steps, s, b);
  }

  /** The stream and what is stored of it only grow. */
  lemma StepGrows(c: Config, s: State, step: Step)
    requires Inv(c, s) && Enabled(c, s, step)
    ensures s.fed <= Do(c, s, step).fed
    ensures Stored(s) <= Do(c, s, step).fed
    ensures |Stored(s)| <= |Stored(Do(c, s, step))|
  {
    StepIsInv(c, s, step);
    var t := Do(c, s, step);
    StepTakesOff(c, s, step);
    GrowsBy(|s.buffer|, |Stored(s)|, |s.fed|, |t.buffer|, |Stored(t)|, |t.fed|);
    assert s.fed == Stored(s) + s.buffer;
  }

  lemma StepTakesOff(c: Config, s: State, step: Step)
    requires Enabled(c, s, step)
    ensures var t := Do(c, s, step); s.fed <= t.fed && |t.buffer| - |s.buffer| <= |t.fed| - |s.fed|
  {
    StepFeeds(c, s, step);
  }

  lemma GrowsBy(queued: nat, stored: nat, fed: nat, queued': nat, stored': nat, fed': nat)
    requires queued + stored == fed && queued' + stored' == fed' && queued' - queued <= fed' - fed
    ensures stored <= stored'
  {
  }

  ghost predicate KeepsWaiting(u: nat, step: Step) {
    step != CallFlush(u) && step != ReturnFromFlush(u)
  }

  lemma StepRemembers(c: Config, s: State, step: Step, u: nat)
    requires Enabled(c, s, step) && KeepsWaiting(u, step) && u in s.flushers
    ensures u in Do(c, s, step).flushers && Do(c, s, step).flushers[u] == s.flushers[u]
  {
  }

  lemma {:induction false} WaiterIsRemembered(c: Config, s: State, steps: seq<Step>, t: State, u: nat)
    requires Inv(c, s) && Run(c, s, steps, t) && u in s.flushers
    requires forall i :: 0 <= i < |steps| ==> KeepsWaiting(u, steps[i])
    ensures u in t.flushers && t.flushers[u] == s.flushers[u] && s.fed <= t.fed && Inv(c, t)
    decreases |steps|
  {
    if steps != [] {
      var next := Do(c, s, steps[0]);
      StepIsInv(c, s, steps[0]);
      StepGrows(c, s, steps[0]);
      StepRemembers(c, s, steps[0], u);
      forall i | 0 <= i < |steps[1..]|
        ensures KeepsWaiting(u, steps[1..][i])
      {
        assert steps[1..][i] == steps[i + 1];
      }
      WaiterIsRemembered(c, next, steps[1..], t, u);
    }
  }

  /** A `flush` that may return without a stop has had everything that was queued at its
      call handed downstream, whatever happened in between. */
  lemma {:induction false} FlushedIsStored(c: Config, s: State, u: nat, steps: seq<Step>, t: State)
    requires Inv(c, s) && Enabled(c, s, CallFlush(u)) && s.buffer != []
    requires Run(c, Do(c, s, CallFlush(u)), steps, t)
    requires forall i :: 0 <= i < |steps| ==> KeepsWaiting(u, steps[i])
    requires Enabled(c, t, ReturnFromFlush(u)) && !t.stopping
    ensures s.fed <= Stored(t)
  {
    StepIsInv(c, s, CallFlush(u));
    WaiterIsRemembered(c, Do(c, s, CallFlush(u)), steps, t, u);
    assert t.flushers[u] == |s.fed| <= |Stored(t)|;
    assert Stored(t) <= t.fed;
  }

  // ---------------------------------------------------------------- progress of a batch

  /** Steps the worker still needs for its batch, counting from inside the lambda. */
  function WorkLeft(s: State): nat {
    3 * |s.buffer| + match s.worker
                     case Idle => 0
                     case Consuming(_, _) => 1
                     case Promoting(_, _) => 3
                     case Spawning(_, _, _) => 2
                     case Broken => 0
                     case Thrown(_, _) => 0
  }

  /** The worker's step in this state, if it is inside the lambda. */
  function WorkStep(s: State): Step {
    match s.worker
    case Promoting(_, _) => FeedRoom
    case Spawning(_, _, _) => Spawn
    case _ => if s.buffer != [] then Append else ReturnBatch
  }

  /** Once a batch is taken, only a full buffer room can hold the worker up, every step of it
      brings the end nearer, and nobody else sets it back. */
  lemma BatchMakesProgress(c: Config, s: State, step: Step)
    requires Inv(c, s) && !s.worker.Idle? && !s.worker.Thrown?
    ensures Enabled(c, s, WorkStep(s)) <==> !(s.worker.Promoting? && |s.room| == c.fanout)
    ensures Enabled(c, s, WorkStep(s)) ==> WorkLeft(Do(c, s, WorkStep(s))) < WorkLeft(s)
    ensures Enabled(c, s, step) && step != WorkStep(s) ==>
              step == DiscardRoom && WorkLeft(Do(c, s, step)) == WorkLeft(s)
  {
    if s.worker.Consuming? && s.buffer != [] {
      AppendMoves(c, s, Do(c, s, Append));
    } else {
      WorkBehindAppend(c, s);
    }
  }

  lemma WorkBehindAppend(c: Config, s: State)
    requires TierOk(c, s) && !s.worker.Idle? && !s.worker.Broken? && !s.worker.Thrown?
    requires !(s.worker.Consuming? && s.buffer != [])
    ensures Enabled(c, s, WorkStep(s)) <==> !(s.worker.Promoting? && |s.room| == c.fanout)
    ensures Enabled(c, s, WorkStep(s)) ==> WorkLeft(Do(c, s, WorkStep(s))) < WorkLeft(s)
  {
  }

  /** Nobody waits for nobody: if a feeder or a flusher is held up while the worker is
      outside the lambda, the worker can take the batch. */
  lemma WaitersHaveAWorker(c: Config, s: State, block: seq<HashItem>, u: nat)
    requires Inv(c, s) && s.worker.Idle? && block != [] && HashesOf(block, c.n)
    ensures Enabled(c, s, FeedBlock(block)) || Enabled(c, s, TakeBatch)
    ensures u in s.flushers ==> Enabled(c, s, ReturnFromFlush(u)) || Enabled(c, s, TakeBatch)
  {
  }
}
