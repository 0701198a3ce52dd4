/** Lookups in the RAM buffer, the hatchling and the buffer room refine the stream. */
module IngestionLookups {
  import opened Wrappers
  import opened DonutEntries
  import opened DonutFiles
  import opened LookupableBufferRooms
  import opened Ingestions
  import opened IngestionTheorems
  import opened IngestionDeterminism

  lemma {:induction false} LatestMeaning(s: seq<HashItem>, h: Hash)
    ensures var m := Latest(map[], s, 0);
            if h in m then LastPlace(s, 0, |s|, h, m[h]) else Absent(s, 0, |s|, h)
  {
    if s != [] {
      LatestMeaning(s[..|s| - 1], h);
    }
  }

  lemma LastInPart(s: seq<HashItem>, lo: nat, part: seq<HashItem>, h: Hash, i: nat)
    requires lo + |part| <= |s| && s[lo..lo + |part|] == part
    ensures LastPlace(part, 0, |part|, h, i) ==> LastPlace(s, lo, lo + |part|, h, lo + i)
    ensures Absent(part, 0, |part|, h) ==> Absent(s, lo, lo + |part|, h)
  {
  }

  lemma PartOf(front: seq<HashItem>, part: seq<HashItem>, tail: seq<HashItem>)
    ensures (front + part + tail)[|front|..|front| + |part|] == part
  {
  }

  // ---------------------------------------------------------------- RAM buffer

  lemma BufferRange(c: Config, s: State)
    requires Inv(c, s) && s.worker.Idle?
    ensures s.first == |Stored(s)| && s.first + |s.buffer| == |s.fed| && s.fed[s.first..] == s.buffer
  {
  }

  /** The index of the RAM buffer knows the last place of a hash since the buffer's start. */
  lemma {:induction false} BufferReverse(c: Config, s: State, h: Hash)
    requires Inv(c, s) && s.worker.Idle? && s.lookup == Latest(map[], s.buffer, 0)
    ensures if h in s.lookup then LastPlace(s.fed, s.first, |s.fed|, h, s.first + s.lookup[h])
            else Absent(s.fed, s.first, |s.fed|, h)
  {
    BufferRange(c, s);
    LatestMeaning(s.buffer, h);
    assert s.fed[s.first..s.first + |s.buffer|] == s.fed[s.first..];
    LastInPart(s.fed, s.first, s.buffer, h, if h in s.lookup then s.lookup[h] else 0);
  }

  // ---------------------------------------------------------------- hatchling

  lemma {:induction false} HatchlingRange(c: Config, s: State, d: Donut)
    requires Inv(c, s) && s.hatchling == Some(d)
    ensures d.first == |Contents(Promoted(s))| && d.first + |d.forward| == |Stored(s)| <= |s.fed|
    ensures s.fed[d.first..d.first + |d.forward|] == d.forward
  {
    ContentsSize(c, Promoted(s));
    PartOf(Contents(Promoted(s)), d.forward, s.buffer);
  }

  /** Every map is the one of its slots. */
  ghost predicate AllMapped(donuts: seq<Donut>) {
    forall k :: 0 <= k < |donuts| ==> donuts[k].reverse == ReverseOf(donuts[k].forward)
  }

  lemma {:induction false} GoodIsMapped(c: Config, d: Donut)
    requires GoodDonut(c, d)
    ensures d.reverse == ReverseOf(d.forward)
  {
  }

  lemma {:induction false} SoundIsMapped(c: Config, s: State)
    requires Sound(c, s)
    ensures AllMapped(Promoted(s))
    ensures s.hatchling.Some? ==> s.hatchling.value.reverse == ReverseOf(s.hatchling.value.forward)
    ensures s.worker.Idle? ==> s.lookup == Latest(map[], s.buffer, 0)
  {
    forall k | 0 <= k < |Promoted(s)|
      ensures Promoted(s)[k].reverse == ReverseOf(Promoted(s)[k].forward)
    {
      GoodIsMapped(c, Promoted(s)[k]);
    }
  }

  lemma {:induction false} HatchlingMapped(c: Config, s: State, d: Donut)
    requires Sound(c, s) && s.hatchling == Some(d)
    ensures d.reverse == ReverseOf(d.forward)
  {
  }

  /** What the map of the hatchling finds, as a place of the stream. */
  lemma {:induction false} HatchlingReverse(c: Config, s: State, d: Donut, h: Hash, pi: Option<nat>)
    requires Inv(c, s) && s.hatchling == Some(d) && (pi.Some? ==> pi.value >= d.first)
    requires FirstOrAbsent(d.forward, 0, |d.forward|, h, if pi.Some? then Some(pi.value - d.first) else None)
    ensures FirstOrAbsent(s.fed, |Contents(Promoted(s))|, |Stored(s)|, h, pi)
  {
    HatchlingRange(c, s, d);
    FirstInPart(s.fed, d.first, d.forward, h, if pi.Some? then Some(pi.value - d.first) else None);
  }

  // ---------------------------------------------------------------- buffer room

  lemma {:induction false} DonutRange(c: Config, s: State, k: nat, next: nat, d: Donut)
    requires Inv(c, s) && k < |Promoted(s)| && next == k + 1 && d == Promoted(s)[k]
    ensures d.first == Offset(k, c.capacity) && d.first + |d.forward| == Offset(next, c.capacity) <= |s.fed|
    ensures s.fed[d.first..d.first + |d.forward|] == d.forward
  {
    DonutIsItsWindowInv(c, s, k, d);
    OffsetNext(k, c.capacity);
  }

  lemma {:induction false} DonutReverse(c: Config, s: State, k: nat, next: nat, d: Donut, h: Hash)
    requires Inv(c, s) && AllMapped(Promoted(s)) && k < |Promoted(s)| && next == k + 1 && d == Promoted(s)[k]
    ensures FirstOrAbsent(s.fed, Offset(k, c.capacity), Offset(next, c.capacity), h,
                          if h in d.reverse then Some(d.first + d.reverse[h]) else None)
  {
    DonutRange(c, s, k, next, d);
    ReverseMeaning(d.forward, h);
    FirstInPart(s.fed, d.first, d.forward, h, if h in d.reverse then Some(d.reverse[h]) else None);
  }

  lemma OffsetMono(j: nat, k: nat, capacity: nat)
    requires j <= k
    ensures Offset(j, capacity) <= Offset(k, capacity)
  {
  }

  /** Some donut of the room holds every slot of the room's range, so the search from the newest
      to the oldest finds it, and finds the slot of the stream. */
  lemma {:induction false} FoundInStream(c: Config, s: State, g: nat)
    requires Inv(c, s) && s.room != []
    requires s.room[0].first <= g && Before(g, s.room[|s.room| - 1])
    ensures g < |s.fed| && NewestHolding(s.room, g).Some?
    ensures var d := s.room[NewestHolding(s.room, g).value]; d.forward[g - d.first] == s.fed[g]
  {
    var _ := Holding(c, s, g, |s.room|);
    var k := NewestHolding(s.room, g).value;
    RoomDonutHolds(c, s, k, |s.discarded| + k, g);
  }

  lemma {:induction false} RoomDonutHolds(c: Config, s: State, k: nat, at: nat, g: nat)
    requires Inv(c, s) && k < |s.room| && at == |s.discarded| + k && Contains(s.room[k], g)
    ensures g < |s.fed| && s.room[k].forward[g - s.room[k].first] == s.fed[g]
  {
    var d := s.room[k];
    DonutRange(c, s, at, at + 1, d);
    assert s.fed[d.first..d.first + |d.forward|][g - d.first] == s.fed[g];
  }

  /** Walks down to the donut that holds `g`. */
  lemma {:induction false} Holding(c: Config, s: State, g: nat, n: nat) returns (k: nat)
    requires Inv(c, s) && 0 < n <= |s.room|
    requires s.room[0].first <= g && Before(g, s.room[n - 1])
    ensures k < n && Contains(s.room[k], g)
    decreases n
  {
    var o, d := |s.discarded|, s.room[n - 1];
    assert Promoted(s)[o + n - 1] == d;
    if d.first <= g {
      return n - 1;
    }
    DonutRange(c, s, o + n - 2, o + n - 1, s.room[n - 2]);
    DonutRange(c, s, o + n - 1, o + n, d);
    k := Holding(c, s, g, n - 1);
  }

  /** A reverse hit in the room is the first place of the hash in the room's range; without a
      hit the hash is not there. */
  lemma {:induction false} RoomHit(c: Config, s: State, h: Hash, k: nat, at: nat)
    requires Inv(c, s) && AllMapped(Promoted(s)) && OldestKnowing(s.room, h, k) && at == |s.discarded| + k
    ensures FirstPlace(s.fed, RoomStart(c, s), RoomEnd(c, s), h, s.room[k].first + s.room[k].reverse[h])
  {
    var lo, mid, hi, end := RoomStart(c, s), Offset(at, c.capacity), Offset(at + 1, c.capacity), RoomEnd(c, s);
    AbsentBefore(c, s, h, k, at);
    DonutReverse(c, s, at, at + 1, s.room[k], h);
    RoomBounds(c, s, at, at + 1);
    FirstInMore(s.fed, lo, mid, hi, end, h, s.room[k].first + s.room[k].reverse[h]);
  }

  lemma {:induction false} RoomBounds(c: Config, s: State, at: nat, next: nat)
    requires Inv(c, s) && |s.discarded| <= at <= next <= |s.discarded| + |s.room|
    ensures RoomStart(c, s) <= Offset(at, c.capacity) <= Offset(next, c.capacity) <= RoomEnd(c, s) <= |s.fed|
  {
    OffsetMono(|s.discarded|, at, c.capacity);
    OffsetMono(at, next, c.capacity);
    OffsetMono(next, |s.discarded| + |s.room|, c.capacity);
    ContentsSize(c, Promoted(s));
  }

  lemma FirstInMore(s: seq<HashItem>, lo: nat, mid: nat, hi: nat, end: nat, h: Hash, i: nat)
    requires Absent(s, lo, mid, h) && FirstPlace(s, mid, hi, h, i) && lo <= mid && hi <= end <= |s|
    ensures FirstPlace(s, lo, end, h, i)
  {
  }

  function RoomStart(c: Config, s: State): nat {
    Offset(|s.discarded|, c.capacity)
  }

  function RoomEnd(c: Config, s: State): nat {
    Offset(|s.discarded| + |s.room|, c.capacity)
  }

  lemma {:induction false} RoomDonutRange(c: Config, s: State, k: nat, at: nat, next: nat)
    requires Inv(c, s) && k < |s.room| && at == |s.discarded| + k && next == at + 1
    ensures s.room[k].first == Offset(at, c.capacity)
    ensures s.room[k].first + |s.room[k].forward| == Offset(next, c.capacity) <= |s.fed|
  {
    DonutRange(c, s, at, next, s.room[k]);
  }

  /** The room's range is the one its first and its last donut report. */
  lemma RoomInStream(c: Config, s: State)
    requires Inv(c, s) && s.room != []
    ensures s.room[0].first == RoomStart(c, s)
    ensures s.room[|s.room| - 1].first + |s.room[|s.room| - 1].forward| == RoomEnd(c, s) <= |s.fed|
  {
    var o, end := |s.discarded|, |s.discarded| + |s.room|;
    assert RoomEnd(c, s) == Offset(end, c.capacity);
    RoomDonutRange(c, s, 0, o, o + 1);
    RoomDonutRange(c, s, |s.room| - 1, end - 1, end);
  }

  lemma {:induction false} AbsentBefore(c: Config, s: State, h: Hash, k: nat, at: nat)
    requires Inv(c, s) && AllMapped(Promoted(s)) && k <= |s.room| && at == |s.discarded| + k
    requires forall j :: 0 <= j < k ==> h !in s.room[j].reverse
    ensures Absent(s.fed, RoomStart(c, s), Offset(at, c.capacity), h)
    decreases k
  {
    RoomBounds(c, s, at, at);
    if k > 0 {
      AbsentBefore(c, s, h, k - 1, at - 1);
      DonutReverse(c, s, at - 1, at, s.room[k - 1], h);
    }
  }

  /** What the search for a hash in the room finds. */
  ghost predicate FoundInRoom(donuts: seq<Donut>, h: Hash, pi: Option<nat>) {
    match pi
    case None => forall j :: 0 <= j < |donuts| ==> h !in donuts[j].reverse
    case Some(i) => exists k: nat :: OldestKnowing(donuts, h, k) && i == donuts[k].first + donuts[k].reverse[h]
  }

  lemma {:induction false} RoomReverse(c: Config, s: State, h: Hash, pi: Option<nat>)
    requires Inv(c, s) && AllMapped(Promoted(s)) && FoundInRoom(s.room, h, pi)
    ensures FirstOrAbsent(s.fed, RoomStart(c, s), RoomEnd(c, s), h, pi)
  {
    match pi
    case None => AbsentBefore(c, s, h, |s.room|, |s.discarded| + |s.room|);
    case Some(i) =>
      var k: nat :| OldestKnowing(s.room, h, k) && i == s.room[k].first + s.room[k].reverse[h];
      RoomHit(c, s, h, k, |s.discarded| + k);
  }

  lemma {:induction false} FirstInStream(c: Config, s: State, h: Hash, pi: Option<nat>)
    requires Inv(c, s) && Sound(c, s) && FoundInRoom(s.room, h, pi)
    ensures FirstOrAbsent(s.fed, RoomStart(c, s), RoomEnd(c, s), h, pi)
  {
    SoundIsMapped(c, s);
    RoomReverse(c, s, h, pi);
  }

  /** When the forward lookup of the room succeeds, and what it finds. */
  lemma {:induction false} RoomSearch(c: Config, s: State, g: nat)
    requires Inv(c, s)
    ensures RoomStart(c, s) <= g < RoomEnd(c, s) <==>
            s.room != [] && s.room[0].first <= g && Before(g, s.room[|s.room| - 1])
    ensures RoomStart(c, s) <= g < RoomEnd(c, s) ==>
            && g < |s.fed| && NewestHolding(s.room, g).Some?
            && var d := s.room[NewestHolding(s.room, g).value]; d.forward[g - d.first] == s.fed[g]
  {
    if s.room != [] {
      RoomInStream(c, s);
      if RoomStart(c, s) <= g < RoomEnd(c, s) {
        FoundInStream(c, s, g);
      }
    }
  }

  /** Every slot of the stream that was not discarded is in the range of exactly one of buffer
      room, hatchling and RAM buffer. */
  lemma RangesCoverTheStream(c: Config, s: State, g: nat)
    requires Inv(c, s) && s.worker.Idle? && g < |s.fed|
    ensures s.hatchling.Some?
    ensures var inDiscarded := g < RoomStart(c, s);
            var inRoom := s.room != [] && s.room[0].first <= g && Before(g, s.room[|s.room| - 1]);
            var inHatchling := Contains(s.hatchling.value, g);
            var inBuffer := s.first <= g < s.first + |s.buffer|;
            && (inDiscarded || inRoom || inHatchling || inBuffer)
            && !(inDiscarded && (inRoom || inHatchling || inBuffer))
            && !(inRoom && (inHatchling || inBuffer)) && !(inHatchling && inBuffer)
  {
    ContentsSize(c, Promoted(s));
    OffsetMono(|s.discarded|, |s.discarded| + |s.room|, c.capacity);
    if s.room != [] {
      RoomInStream(c, s);
    }
  }
}
