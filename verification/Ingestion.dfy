/** The ingestion pipeline as steps of its threads
    (`apps/wedding_cake/include/ingester_buffer.hpp`, `ingestor_worker.hpp`,
    `ingester_tier_folder.hpp`). While the worker is not `Idle` it holds the mutex of the
    ingester buffer, so only discards can come in between. */
module Ingestions {
  import opened Wrappers
  import opened DonutEntries
  import opened DonutFiles
  import opened DonutHistories

  /** Slots per donut, donuts per buffer room, bytes per hash. */
  datatype Config = Config(capacity: nat, fanout: nat, n: nat)

  ghost predicate ConfigOk(c: Config) {
    1 <= c.capacity <= MAX_CAPACITY && c.fanout >= 1
  }

  /** Folder names carry the offset of a donut and are parsed as 32-bit integers. */
  const OFFSET_LIMIT: nat := 0x8000_0000

  function ParseOffset(offset: nat): Option<nat> {
    if offset < OFFSET_LIMIT then Some(offset) else None
  }

  /** Where the worker is: outside the lambda, in its loop, before `Feed`, or between `Feed` and
      the new hatchling. `sent` is the length of the batch; `Broken` is the failed
      assertion that the batch was drained, and `Thrown` the exception for an offset that
      does not parse, which ends the program. */
  datatype Worker =
    | Idle
    | Consuming(flushing: bool, sent: nat)
    | Promoting(flushing: bool, sent: nat)
    | Spawning(flushing: bool, sent: nat, offset: nat)
    | Broken
    | Thrown(flushing: bool, sent: nat)

  /** The fields of the ingester buffer, the worker, and the tier folder, whose hatchling is
      missing while it is replaced. The rest is history: discarded donuts, every slot
      that was accepted, the largest block, and for each caller that waits in
      `flush` how many slots had been accepted when it called. */
  datatype State = State(
    buffer: seq<HashItem>, lookup: Reverse, first: nat, remaining: int, pleaseFlush: bool, stopping: bool,
    worker: Worker, hatchling: Option<Donut>, room: seq<Donut>,
    discarded: seq<Donut>, fed: seq<HashItem>, largest: nat, flushers: map<nat, nat>)

  datatype Step =
    | FeedBlock(block: seq<HashItem>)
    | CallFlush(caller: nat)
    | ReturnFromFlush(caller: nat)
    | Stop
    | TakeBatch
    | Append
    | FeedRoom
    | Spawn
    | ReturnBatch
    | DiscardRoom

  /** Every hash at its last index, as `operator[]` leaves it. */
  function Latest(m: Reverse, s: seq<HashItem>, i: nat): Reverse {
    if s == [] then m
    else
      var front, last := s[..|s| - 1], s[|s| - 1];
      var m' := Latest(m, front, i);
      if last.Some? then m'[last.value := i + |front|] else m'
  }

  function Start(c: Config): State {
    State([], map[], 0, c.capacity, false, false, Idle, Some(NewDonut(c.capacity, 0)), [], [], [], 0, map[])
  }

  /** When a thread can take a step: the wait predicates, and the mutex. */
  ghost predicate Enabled(c: Config, s: State, step: Step) {
    match step
    case FeedBlock(block) =>
      s.worker.Idle? && block != [] && HashesOf(block, c.n) && (|s.buffer| < s.remaining || s.stopping)
    case CallFlush(u) => s.worker.Idle? && u !in s.flushers
    case ReturnFromFlush(u) => s.worker.Idle? && u in s.flushers && (!s.pleaseFlush || s.stopping)
    case Stop => s.worker.Idle?
    case TakeBatch =>
      && s.worker.Idle? && (|s.buffer| >= s.remaining || s.pleaseFlush || s.stopping)
      && !(s.stopping && s.buffer == [])
    case Append => s.worker.Consuming? && s.hatchling.Some? && s.buffer != []
    case FeedRoom => s.worker.Promoting? && s.hatchling.Some? && |s.room| < c.fanout
    case Spawn => s.worker.Spawning?
    case ReturnBatch => s.worker.Consuming? && s.hatchling.Some? && s.buffer == []
    case DiscardRoom => !s.worker.Thrown?
  }

  function DoFeed(s: State, block: seq<HashItem>): State {
    if s.stopping then s
    else
      s.(buffer := s.buffer + block, lookup := Latest(s.lookup, block, |s.buffer|),
         fed := s.fed + block, largest := if |block| > s.largest then |block| else s.largest)
  }

  function DoCallFlush(s: State, u: nat): State {
    if s.buffer == [] then s else s.(pleaseFlush := true, flushers := s.flushers[u := |s.fed|])
  }

  function InHatchling(s: State): seq<HashItem> {
    if s.hatchling.Some? then s.hatchling.value.forward else []
  }

  /** What one call of `append_hashes` takes: as much as fits. */
  function Taken(c: Config, s: State): (taken: seq<HashItem>)
    ensures taken <= s.buffer
  {
    var space := if |InHatchling(s)| <= c.capacity then c.capacity - |InHatchling(s)| else 0;
    if |s.buffer| <= space then s.buffer else s.buffer[..space]
  }

  function DoAppend(c: Config, s: State): State
    requires s.worker.Consuming? && s.hatchling.Some?
  {
    var d, w, taken := Appended(s.hatchling.value, Taken(c, s)), s.worker, Taken(c, s);
    s.(buffer := s.buffer[|taken|..], hatchling := Some(d),
       worker := if taken == [] then Broken
                 else if |d.forward| == c.capacity then Promoting(w.flushing, w.sent)
                 else w)
  }

  function DoFeedRoom(c: Config, s: State): State
    requires s.worker.Promoting? && s.hatchling.Some?
  {
    var d, w := s.hatchling.value, s.worker;
    s.(room := s.room + [d], hatchling := None, worker := Spawning(w.flushing, w.sent, d.first + c.capacity))
  }

  function DoSpawn(c: Config, s: State): State
    requires s.worker.Spawning?
  {
    var w := s.worker;
    match ParseOffset(w.offset)
    case Some(first) => s.(hatchling := Some(NewDonut(c.capacity, first)), worker := Consuming(w.flushing, w.sent))
    case None => s.(worker := Thrown(w.flushing, w.sent))
  }

  function DoReturnBatch(c: Config, s: State): State
    requires s.worker.Consuming? && s.hatchling.Some?
  {
    s.(remaining := c.capacity - |s.hatchling.value.forward|, first := s.first + s.worker.sent, lookup := map[],
       pleaseFlush := s.pleaseFlush && !s.worker.flushing, worker := Idle)
  }

  function Do(c: Config, s: State, step: Step): State
    requires Enabled(c, s, step)
  {
    match step
    case FeedBlock(block) => DoFeed(s, block)
    case CallFlush(u) => DoCallFlush(s, u)
    case ReturnFromFlush(u) => s.(flushers := s.flushers - {u})
    case Stop => s.(stopping := true, pleaseFlush := false)
    case TakeBatch => s.(worker := Consuming(s.pleaseFlush, |s.buffer|))
    case Append => DoAppend(c, s)
    case FeedRoom => DoFeedRoom(c, s)
    case Spawn => DoSpawn(c, s)
    case ReturnBatch => DoReturnBatch(c, s)
    case DiscardRoom => s.(room := [], discarded := s.discarded + s.room)
  }

  /** `t` is reached from `s` by these steps. */
  ghost predicate Run(c: Config, s: State, steps: seq<Step>, t: State)
    decreases |steps|
  {
    if steps == [] then s == t
    else Enabled(c, s, steps[0]) && Run(c, Do(c, s, steps[0]), steps[1..], t)
  }

  // ---------------------------------------------------------------- what is claimed

  function Contents(donuts: seq<Donut>): seq<HashItem> {
    if donuts == [] then [] else Contents(donuts[..|donuts| - 1]) + donuts[|donuts| - 1].forward
  }

  /** Every donut that was filled, oldest first. */
  function Promoted(s: State): seq<Donut> {
    s.discarded + s.room
  }

  /** Everything handed downstream. */
  function Stored(s: State): seq<HashItem> {
    Contents(Promoted(s)) + InHatchling(s)
  }

  function Offset(k: nat, capacity: nat): nat {
    k * capacity
  }

  ghost predicate InPlace(c: Config, d: Donut, first: nat) {
    d.capacity == c.capacity && d.first == first < OFFSET_LIMIT
  }

  /** Exactly full, one behind the other. */
  ghost predicate AllFull(c: Config, donuts: seq<Donut>) {
    forall k :: 0 <= k < |donuts| ==>
      InPlace(c, donuts[k], Offset(k, c.capacity)) && |donuts[k].forward| == c.capacity
  }

  ghost predicate TierOk(c: Config, s: State) {
    var promoted := Promoted(s);
    && AllFull(c, promoted)
    && |s.room| <= c.fanout
    && (s.hatchling.Some? <==> !s.worker.Spawning? && !s.worker.Thrown?)
    && (s.hatchling.Some? ==> InPlace(c, s.hatchling.value, Offset(|promoted|, c.capacity)))
    && (s.worker.Spawning? ==> promoted != [] && s.worker.offset == Offset(|promoted|, c.capacity))
    && (s.worker.Thrown? ==> promoted != [] && Offset(|promoted|, c.capacity) >= OFFSET_LIMIT)
    && (s.worker.Idle? || s.worker.Consuming? ==> |InHatchling(s)| < c.capacity)
    && (s.worker.Promoting? ==> |InHatchling(s)| == c.capacity)
  }

  /** `handed` is the number of slots handed downstream. */
  ghost predicate BufferOk(c: Config, s: State, handed: nat) {
    && !s.worker.Broken?
    && HashesOf(s.buffer, c.n)
    && |s.buffer| < c.capacity + s.largest
    && handed + |s.buffer| == |s.fed|
    && (s.worker.Idle? ==>
          && s.first == handed
          && s.remaining == c.capacity - |InHatchling(s)|
          && (s.pleaseFlush ==> s.buffer != []))
    && (!s.worker.Idle? ==>
          s.first + s.worker.sent == |s.fed| && s.worker.flushing == s.pleaseFlush && s.worker.sent > 0)
    && (forall u :: u in s.flushers ==>
          s.flushers[u] <= |s.fed| && (s.flushers[u] <= handed || s.pleaseFlush || s.stopping))
  }

  /** Where everything is. */
  ghost predicate Inv(c: Config, s: State) {
    && ConfigOk(c)
    && Stored(s) + s.buffer == s.fed
    && TierOk(c, s)
    && BufferOk(c, s, |Stored(s)|)
  }

  /** A donut that came about by appends, and whose contents determine its map and its files. */
  ghost predicate GoodDonut(c: Config, d: Donut) {
    DonutOk(d, c.n) && Written(d)
  }

  ghost predicate AllGood(c: Config, donuts: seq<Donut>) {
    forall k :: 0 <= k < |donuts| ==> GoodDonut(c, donuts[k])
  }

  /** What memory and files say about it. */
  ghost predicate Sound(c: Config, s: State) {
    && AllGood(c, Promoted(s))
    && (s.hatchling.Some? ==> GoodDonut(c, s.hatchling.value))
    && (s.worker.Idle? ==> s.lookup == Latest(map[], s.buffer, 0))
  }
}
