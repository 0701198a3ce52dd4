/** Runs of the ingestion pipeline that are led to a purpose. */
module IngestionRuns {
  import opened Wrappers
  import opened DonutEntries
  import opened DonutFiles
  import opened Ingestions
  import opened IngestionTheorems

  /** Everything accepted is stored, the end of it in the hatchling `d`. */
  ghost predicate Settled(c: Config, s: State, d: Donut) {
    && s.worker.Idle? && s.hatchling == Some(d) && s.buffer == [] && !s.stopping
    && s.remaining == c.capacity - |d.forward|
  }

  /** A batch that fits is appended at once. */
  lemma {:induction false} WholeAppend(c: Config, s: State, d: Donut)
    requires s.worker.Consuming? && s.hatchling == Some(d) && s.buffer != []
    requires |d.forward| + |s.buffer| <= c.capacity
    ensures DoAppend(c, s) == s.(buffer := [], hatchling := Some(Appended(d, s.buffer)),
                                 worker := if |d.forward| + |s.buffer| < c.capacity then s.worker
                                           else Promoting(s.worker.flushing, s.worker.sent))
  {
    assert Taken(c, s) == s.buffer && s.buffer[|s.buffer|..] == [];
  }

  lemma {:induction false} TakeAndAppend(c: Config, s: State, d: Donut) returns (t: State)
    requires s.worker.Idle? && s.hatchling == Some(d) && s.buffer != [] && Enabled(c, s, TakeBatch)
    requires |d.forward| + |s.buffer| <= c.capacity
    ensures Run(c, s, [TakeBatch, Append], t)
    ensures t == s.(buffer := [], hatchling := Some(Appended(d, s.buffer)),
                    worker := if |d.forward| + |s.buffer| < c.capacity then Consuming(s.pleaseFlush, |s.buffer|)
                              else Promoting(s.pleaseFlush, |s.buffer|))
  {
    var taken := Do(c, s, TakeBatch);
    WholeAppend(c, taken, d);
    t := Do(c, taken, Append);
    assert Run(c, taken, [Append], t);
    assert [TakeBatch, Append][1..] == [Append];
  }

  lemma {:induction false} Feed(c: Config, s: State, block: seq<HashItem>) returns (t: State)
    requires s.buffer == [] && !s.stopping && Enabled(c, s, FeedBlock(block))
    ensures Run(c, s, [FeedBlock(block)], t)
    ensures t == s.(buffer := block, fed := s.fed + block, lookup := t.lookup, largest := t.largest)
  {
    t := DoFeed(s, block);
    assert [] + block == block;
    RunOne(c, s, FeedBlock(block), t);
  }

  /** A block and a flush: the worker appends the block to the hatchling. */
  lemma {:induction false} FeedAndFlush(c: Config, s: State, d: Donut, block: seq<HashItem>, u: nat)
    returns (steps: seq<Step>, t: State)
    requires Settled(c, s, d) && u !in s.flushers
    requires block != [] && HashesOf(block, c.n) && |d.forward| + |block| < c.capacity
    ensures Run(c, s, steps, t) && Settled(c, t, Appended(d, block)) && t.fed == s.fed + block
    ensures t.room == s.room && t.discarded == s.discarded && t.flushers.Keys == s.flushers.Keys + {u}
  {
    var fed := Feed(c, s, block);
    var flushing := DoCallFlush(fed, u);
    RunThen(c, s, [FeedBlock(block)], fed, CallFlush(u), flushing);
    steps := [FeedBlock(block)] + [CallFlush(u)];
    var appended := TakeAndAppend(c, flushing, d);
    RunConcat(c, s, steps, flushing, [TakeBatch, Append], appended);
    steps := steps + [TakeBatch, Append];
    t := DoReturnBatch(c, appended);
    RunThen(c, s, steps, appended, ReturnBatch, t);
    steps := steps + [ReturnBatch];
  }

  /** A block that fills the hatchling: the worker appends it and hands the donut to the room. */
  lemma {:induction false} FeedAndFill(c: Config, s: State, d: Donut, block: seq<HashItem>)
    returns (steps: seq<Step>, t: State)
    requires Settled(c, s, d) && |s.room| < c.fanout
    requires block != [] && HashesOf(block, c.n) && |d.forward| + |block| == c.capacity
    ensures Run(c, s, steps, t) && t.worker.Spawning? && t.worker.offset == d.first + c.capacity
    ensures t.room == s.room + [Appended(d, block)] && t.discarded == s.discarded && t.fed == s.fed + block
    ensures t.buffer == [] && !t.stopping && t.flushers == s.flushers
  {
    var fed := Feed(c, s, block);
    var appended := TakeAndAppend(c, fed, d);
    RunConcat(c, s, [FeedBlock(block)], fed, [TakeBatch, Append], appended);
    steps := [FeedBlock(block)] + [TakeBatch, Append];
    t := DoFeedRoom(c, appended);
    RunThen(c, s, steps, appended, FeedRoom, t);
    steps := steps + [FeedRoom];
  }

  /** And the round ends with a new hatchling, unless that has no folder name that parses. */
  lemma {:induction false} FillOne(c: Config, s: State, d: Donut, block: seq<HashItem>)
    returns (steps: seq<Step>, t: State)
    requires Settled(c, s, d) && |s.room| < c.fanout && d.first + c.capacity < OFFSET_LIMIT
    requires block != [] && HashesOf(block, c.n) && |d.forward| + |block| == c.capacity
    ensures Run(c, s, steps, t) && Settled(c, t, NewDonut(c.capacity, d.first + c.capacity))
    ensures t.room == s.room + [Appended(d, block)] && t.discarded == s.discarded && t.fed == s.fed + block
    ensures t.flushers == s.flushers
  {
    var filled;
    steps, filled := FeedAndFill(c, s, d, block);
    var spawned := Do(c, filled, Spawn);
    RunThen(c, s, steps, filled, Spawn, spawned);
    t := Do(c, spawned, ReturnBatch);
    RunThen(c, s, steps + [Spawn], spawned, ReturnBatch, t);
    steps := steps + [Spawn] + [ReturnBatch];
  }

  /** And a discard behind it. */
  lemma {:induction false} FillAndDiscard(c: Config, s: State, d: Donut, block: seq<HashItem>)
    returns (steps: seq<Step>, t: State)
    requires Settled(c, s, d) && s.room == [] && c.fanout >= 1 && d.first + c.capacity < OFFSET_LIMIT
    requires block != [] && HashesOf(block, c.n) && |d.forward| + |block| == c.capacity
    ensures Run(c, s, steps, t) && Settled(c, t, NewDonut(c.capacity, d.first + c.capacity))
    ensures t.room == [] && t.discarded == s.discarded + [Appended(d, block)] && t.fed == s.fed + block
    ensures t.flushers == s.flushers
  {
    var filled;
    steps, filled := FillOne(c, s, d, block);
    t := Do(c, filled, DiscardRoom);
    RunThen(c, s, steps, filled, DiscardRoom, t);
    steps := steps + [DiscardRoom];
    assert [] + [Appended(d, block)] == [Appended(d, block)];
  }

  /** After `k` such donuts. */
  ghost predicate ManyFilled(c: Config, block: seq<HashItem>, k: nat, s: State) {
    && Settled(c, s, NewDonut(c.capacity, Offset(k, c.capacity)))
    && s.room == [] && |s.discarded| == k && |s.fed| == Offset(k, c.capacity) && s.flushers == map[]
    && forall i :: 0 <= i < k ==> s.discarded[i].forward == block
  }

  lemma {:induction false} FillMany(c: Config, block: seq<HashItem>, k: nat) returns (steps: seq<Step>, s: State)
    requires ConfigOk(c) && |block| == c.capacity && HashesOf(block, c.n) && Offset(k, c.capacity) < OFFSET_LIMIT
    ensures Run(c, Start(c), steps, s) && ManyFilled(c, block, k, s)
  {
    if k == 0 {
      steps, s := [], Start(c);
    } else {
      OffsetNext(k - 1, c.capacity);
      var before, more;
      steps, before := FillMany(c, block, k - 1);
      var d := NewDonut(c.capacity, Offset(k - 1, c.capacity));
      more, s := FillAndDiscard(c, before, d, block);
      RunConcat(c, Start(c), steps, before, more, s);
      steps := steps + more;
      OneMoreFilled(c, block, k, before, s, d);
    }
  }

  lemma OneMoreFilled(c: Config, block: seq<HashItem>, k: nat, before: State, s: State, d: Donut)
    requires k > 0 && ManyFilled(c, block, k - 1, before) && d.forward == [] && |block| == c.capacity
    requires Offset(k, c.capacity) == Offset(k - 1, c.capacity) + c.capacity
    requires Settled(c, s, NewDonut(c.capacity, Offset(k, c.capacity))) && s.room == []
    requires s.discarded == before.discarded + [Appended(d, block)] && s.fed == before.fed + block
    requires s.flushers == before.flushers
    ensures ManyFilled(c, block, k, s)
  {
    assert [] + block == block;
  }

  function Gaps(k: nat): (s: seq<HashItem>)
    ensures |s| == k && forall i :: 0 <= i < k ==> s[i] == None
  {
    seq(k, _ => None)
  }

  /** Whatever the capacity, the offsets run out: some run of the pipeline throws. */
  lemma {:induction false} OffsetsRunOut(c: Config) returns (steps: seq<Step>, s: State)
    requires ConfigOk(c)
    ensures Run(c, Start(c), steps, s) && s.worker.Thrown?
  {
    var k := LastOffset(c.capacity);
    var before, more, filled;
    steps, before := FillMany(c, Gaps(c.capacity), k);
    more, filled := FeedAndFill(c, before, NewDonut(c.capacity, Offset(k, c.capacity)), Gaps(c.capacity));
    RunConcat(c, Start(c), steps, before, more, filled);
    s := Do(c, filled, Spawn);
    RunThen(c, Start(c), steps + more, filled, Spawn, s);
    steps := steps + more + [Spawn];
  }

  lemma LastOffset(capacity: nat) returns (k: nat)
    requires capacity >= 1
    ensures Offset(k, capacity) < OFFSET_LIMIT <= Offset(k, capacity) + capacity
  {
    k := (OFFSET_LIMIT - 1) / capacity;
  }
}
