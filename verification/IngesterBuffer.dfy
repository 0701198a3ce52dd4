/** The RAM buffer between the feeding thread and the worker
    (`apps/wedding_cake/include/ingester_buffer.hpp`). A method is the part of a call behind
    its wait, which runs under the mutex; its `requires` is the wait predicate. */
module IngesterBuffers {
  import opened Wrappers
  import opened DonutEntries
  import opened DonutFiles
  import opened Ingestions
  import opened IngestionLookups

  class IngesterBuffer {
    var remaining: int
    var buffer: seq<HashItem>
    var reverseLookup: Reverse
    var first: nat
    var pleaseFlush: bool
    var stopping: bool

    constructor (initialRemaining: nat, initialFirst: nat)
      requires initialRemaining > 0
      ensures remaining == initialRemaining && first == initialFirst && buffer == [] && reverseLookup == map[]
      ensures !pleaseFlush && !stopping
    {
      remaining, first := initialRemaining, initialFirst;
      buffer, reverseLookup := [], map[];
      pleaseFlush, stopping := false, false;
    }

    /** `s` is this buffer, in the hands of the worker or not. */
    ghost predicate Is(s: State)
      reads this
    {
      && s.buffer == buffer && s.lookup == reverseLookup && s.first == first && s.remaining == remaining
      && s.pleaseFlush == pleaseFlush && s.stopping == stopping
    }

    method FeedBlockOfHashes(block: seq<HashItem>, ghost s: State)
      requires block == [] || |buffer| < remaining || stopping
      requires Is(s)
      modifies this
      ensures Is(if block == [] then s else DoFeed(s, block))
    {
      if |block| == 0 || stopping {
        return;
      }
      var k := 0;
      while k < |block|
        invariant 0 <= k <= |block|
        invariant reverseLookup == Latest(s.lookup, block[..k], |buffer|)
        invariant Is(s.(lookup := reverseLookup))
      {
        assert block[..k + 1][..k] == block[..k];
        if block[k].Some? {
          reverseLookup := reverseLookup[block[k].value := |buffer| + k];
        }
        k := k + 1;
      }
      assert block[..k] == block;
      buffer := buffer + block;
    }

    /** The part of `flush` before its wait; the caller need not wait if it returns `false`. */
    method RequestFlush(ghost s: State, ghost caller: nat) returns (wait: bool)
      requires Is(s)
      modifies this
      ensures Is(DoCallFlush(s, caller)) && wait == (old(buffer) != [])
    {
      if |buffer| == 0 {
        return false;
      }
      pleaseFlush := true;
      return true;
    }

    method Stop(ghost s: State)
      requires Is(s)
      modifies this
      ensures Is(s.(stopping := true, pleaseFlush := false))
    {
      stopping, pleaseFlush := true, false;
    }

    /** The bookkeeping behind the worker's lambda; `Err` is one of its assertions. */
    method BatchDone(newRemaining: int, sent: nat, isFlushActive: bool) returns (res: Result<(), string>)
      modifies this
      ensures res.Ok? <==> old(buffer) == [] && newRemaining > 0
      ensures res.Ok? ==> remaining == newRemaining && first == old(first) + sent && reverseLookup == map[]
                          && pleaseFlush == (old(pleaseFlush) && !isFlushActive)
                          && buffer == old(buffer) && stopping == old(stopping)
    {
      if |buffer| > 0 {
        return Err("Lambda should always empty the buffer");
      }
      if newRemaining <= 0 {
        return Err("We should always find some remaining downstream capacity after lambda");
      }
      remaining, first := newRemaining, first + sent;
      reverseLookup := map[];
      if isFlushActive {
        pleaseFlush := false;
      }
      return Ok(());
    }

    function NextOffset(): nat
      reads this
    {
      first + |buffer|
    }

    /** The slot of the stream, for every index behind what was handed downstream; `Err` is
        the assertion on the range. */
    method ForwardLookup(pi: nat, ghost c: Config, ghost s: State) returns (item: Result<HashItem, string>)
      requires Is(s) && Inv(c, s) && s.worker.Idle?
      ensures item.Ok? <==> |Stored(s)| <= pi < |s.fed|
      ensures item.Ok? ==> item.value == s.fed[pi]
    {
      BufferRange(c, s);
      if pi < first || pi >= NextOffset() {
        return Err("contains_pi");
      }
      assert s.fed[s.first..][pi - first] == s.fed[pi];
      return Ok(buffer[pi - first]);
    }

    /** The last slot of the stream that holds the hash, or no match if it is not behind what
        was handed downstream. */
    method ReverseLookup(h: Hash, ghost c: Config, ghost s: State) returns (pi: Option<nat>)
      requires Is(s) && Inv(c, s) && Sound(c, s) && s.worker.Idle?
      ensures match pi
              case Some(i) => LastPlace(s.fed, |Stored(s)|, |s.fed|, h, i)
              case None => Absent(s.fed, |Stored(s)|, |s.fed|, h)
    {
      SoundIsMapped(c, s);
      BufferReverse(c, s, h);
      pi := if h in reverseLookup then Some(first + reverseLookup[h]) else None;
    }
  }
}
