/** The disk state is a function of the stream: how it was cut into blocks and batches, and
    which flushes and discards came in between, does not show. */
module IngestionDeterminism {
  import opened Bits
  import opened DonutEntries
  import opened DonutFiles
  import opened DonutHistories
  import opened Ingestions
  import opened IngestionTheorems
  import opened IngestionRuns

  /** The donut that results from appending its contents in one go. */
  function Canonical(c: Config, first: nat, contents: seq<HashItem>): Donut {
    Appended(NewDonut(c.capacity, first), contents)
  }

  lemma GoodIsCanonical(c: Config, d: Donut, first: nat)
    requires InPlace(c, d, first) && GoodDonut(c, d) && Reproducible(d.forward)
    ensures d == Canonical(c, first, d.forward)
  {
  }

  /** The contents of the `k`th donut are the `k`th window of the stream. */
  lemma {:induction false} WindowOf(c: Config, donuts: seq<Donut>, k: nat, rest: seq<HashItem>, o: nat)
    requires AllFull(c, donuts) && k < |donuts| && o == Offset(k, c.capacity)
    ensures o + c.capacity <= |Contents(donuts) + rest|
    ensures (Contents(donuts) + rest)[o..o + c.capacity] == donuts[k].forward
  {
    var front, d, back := donuts[..k], donuts[k], donuts[k + 1..];
    FrontIsFull(c, donuts, k);
    ContentsSize(c, front);
    assert donuts == front + [d] + back;
    ContentsConcat(front + [d], back);
    ContentsPush(front, d);
    Regroup(Contents(front), d.forward, Contents(back), rest);
    WindowInside(Contents(front), d.forward, Contents(back) + rest);
  }

  lemma Regroup(a: seq<HashItem>, b: seq<HashItem>, x: seq<HashItem>, y: seq<HashItem>)
    ensures a + b + x + y == a + (b + (x + y))
  {
  }

  lemma WindowInside(a: seq<HashItem>, b: seq<HashItem>, tail: seq<HashItem>)
    ensures |a + (b + tail)| >= |a| + |b| && (a + (b + tail))[|a|..|a| + |b|] == b
  {
  }

  function Window(c: Config, s: State, k: nat): seq<HashItem>
    requires Offset(k, c.capacity) + c.capacity <= |s.fed|
  {
    s.fed[Offset(k, c.capacity)..Offset(k, c.capacity) + c.capacity]
  }

  /** Memory and both files of the `k`th donut are those of appending the `k`th window of the
      stream at once, after any run, if the window is reproducible. */
  lemma {:induction false} DonutIsItsWindow(c: Config, steps: seq<Step>, s: State, k: nat)
    requires ConfigOk(c) && Run(c, Start(c), steps, s) && k < |Promoted(s)|
    ensures Offset(k, c.capacity) + c.capacity <= |s.fed|
    ensures Promoted(s)[k].forward == Window(c, s, k)
    ensures Reproducible(Window(c, s, k)) ==> Promoted(s)[k] == Canonical(c, Offset(k, c.capacity), Window(c, s, k))
  {
    ReachedIsSound(c, steps, s);
    DonutIsItsWindowInv(c, s, k, Promoted(s)[k]);
    CanonicalAt(c, Promoted(s), k, Promoted(s)[k]);
  }

  lemma {:induction false} CanonicalAt(c: Config, donuts: seq<Donut>, k: nat, d: Donut)
    requires AllFull(c, donuts) && AllGood(c, donuts) && k < |donuts| && d == donuts[k]
    ensures Reproducible(d.forward) ==> d == Canonical(c, Offset(k, c.capacity), d.forward)
  {
    if Reproducible(d.forward) {
      GoodIsCanonical(c, d, Offset(k, c.capacity));
    }
  }

  lemma DonutIsItsWindowInv(c: Config, s: State, k: nat, d: Donut)
    requires Inv(c, s) && k < |Promoted(s)| && d == Promoted(s)[k]
    ensures Offset(k, c.capacity) + c.capacity <= |s.fed| && d.forward == Window(c, s, k)
  {
    var o := Offset(k, c.capacity);
    DonutInStream(c, Promoted(s), k, InHatchling(s), s.buffer, s.fed, o);
    assert Window(c, s, k) == s.fed[o..o + c.capacity];
  }

  lemma {:induction false} DonutInStream(c: Config, donuts: seq<Donut>, k: nat, hatched: seq<HashItem>,
      queued: seq<HashItem>, fed: seq<HashItem>, o: nat)
    requires AllFull(c, donuts) && k < |donuts| && o == Offset(k, c.capacity)
    requires Contents(donuts) + hatched + queued == fed
    ensures o + c.capacity <= |fed| && fed[o..o + c.capacity] == donuts[k].forward
  {
    WindowOf(c, donuts, k, hatched + queued, o);
    Regroup([], Contents(donuts), hatched, queued);
    assert [] + Contents(donuts) == Contents(donuts)
        && [] + (Contents(donuts) + (hatched + queued)) == Contents(donuts) + (hatched + queued);
  }

  /** Two runs that agree on a window have the same donut for it, byte for byte. */
  lemma {:induction false} SchedulesDoNotShow(c: Config, steps: seq<Step>, s: State, steps': seq<Step>, t: State,
      k: nat)
    requires ConfigOk(c) && Run(c, Start(c), steps, s) && Run(c, Start(c), steps', t)
    requires k < |Promoted(s)| && k < |Promoted(t)|
    requires Offset(k, c.capacity) + c.capacity <= |s.fed| && Offset(k, c.capacity) + c.capacity <= |t.fed|
    requires Window(c, s, k) == Window(c, t, k) && Reproducible(Window(c, s, k))
    ensures Promoted(s)[k] == Promoted(t)[k]
  {
    DonutIsItsWindow(c, steps, s, k);
    DonutIsItsWindow(c, steps', t, k);
  }

  /** The contents of every donut are reproducible, for instance because they repeat no hash. */
  ghost predicate AllReproducible(donuts: seq<Donut>) {
    forall k :: 0 <= k < |donuts| ==> Reproducible(donuts[k].forward)
  }

  /** With the queue empty, the same stream leaves the same donuts and the same hatchling. */
  lemma {:induction false} SameStreamSameDisk(c: Config, steps: seq<Step>, s: State, steps': seq<Step>, t: State)
    requires ConfigOk(c) && Run(c, Start(c), steps, s) && Run(c, Start(c), steps', t)
    requires s.fed == t.fed && AllReproducible(Promoted(s)) && Reproducible(InHatchling(s))
    requires s.worker.Idle? && t.worker.Idle? && s.buffer == [] && t.buffer == []
    ensures Promoted(s) == Promoted(t) && s.hatchling == t.hatchling
  {
    ReachedIsSound(c, steps, s);
    ReachedIsSound(c, steps', t);
    SettledParts(c, s, |Promoted(s)|);
    SettledParts(c, t, |Promoted(t)|);
    DivModUnique(|s.fed|, c.capacity, |Promoted(s)|, |InHatchling(s)|);
    DivModUnique(|s.fed|, c.capacity, |Promoted(t)|, |InHatchling(t)|);
    SamePromoted(c, s, t);
    SameHatchling(c, s, t, |Promoted(s)|);
  }

  lemma SamePromoted(c: Config, s: State, t: State)
    requires Inv(c, s) && Inv(c, t) && AllGood(c, Promoted(s)) && AllGood(c, Promoted(t))
    requires s.fed == t.fed && AllReproducible(Promoted(s)) && |Promoted(s)| == |Promoted(t)|
    ensures Promoted(s) == Promoted(t)
  {
    forall k | 0 <= k < |Promoted(s)|
      ensures Promoted(s)[k] == Promoted(t)[k]
    {
      DonutIsItsWindowInv(c, s, k, Promoted(s)[k]);
      DonutIsItsWindowInv(c, t, k, Promoted(t)[k]);
      CanonicalAt(c, Promoted(s), k, Promoted(s)[k]);
      CanonicalAt(c, Promoted(t), k, Promoted(t)[k]);
    }
  }

  lemma SameHatchling(c: Config, s: State, t: State, p: nat)
    requires Inv(c, s) && Inv(c, t) && s.fed == t.fed && Reproducible(InHatchling(s))
    requires s.worker.Idle? && t.worker.Idle? && s.buffer == [] && t.buffer == []
    requires p == |Promoted(s)| == |Promoted(t)|
    requires GoodDonut(c, s.hatchling.value) && GoodDonut(c, t.hatchling.value)
    ensures s.hatchling == t.hatchling
  {
    var o := Offset(p, c.capacity);
    SettledParts(c, s, p);
    SettledParts(c, t, p);
    GoodIsCanonical(c, s.hatchling.value, o);
    GoodIsCanonical(c, t.hatchling.value, o);
  }

  /** The hatchling holds the end of the stream. */
  lemma SettledParts(c: Config, s: State, p: nat)
    requires Inv(c, s) && s.worker.Idle? && s.buffer == [] && p == |Promoted(s)|
    ensures && |s.fed| == Offset(p, c.capacity) + |InHatchling(s)| && |InHatchling(s)| < c.capacity
            && InHatchling(s) == s.fed[Offset(p, c.capacity)..]
  {
    ContentsSize(c, Promoted(s));
    assert s.fed == Contents(Promoted(s)) + InHatchling(s);
  }

  // ---------------------------------------------------------------- when schedules do show

  lemma {:induction false} FillInTwo(c: Config, s: State, d: Donut, a: seq<HashItem>, b: seq<HashItem>, u: nat)
    returns (steps: seq<Step>, t: State)
    requires Settled(c, s, d) && u !in s.flushers && |s.room| < c.fanout
    requires a != [] && b != [] && HashesOf(a, c.n) && HashesOf(b, c.n) && |d.forward| + |a| + |b| == c.capacity
    ensures Run(c, s, steps, t) && t.fed == s.fed + a + b
    ensures t.room == s.room + [Appended(Appended(d, a), b)] && t.discarded == s.discarded
  {
    var first, middle := FeedAndFlush(c, s, d, a, u);
    var second;
    second, t := FeedAndFill(c, middle, Appended(d, a), b);
    steps := first + second;
    RunConcat(c, s, first, middle, second, t);
  }

  /** If a hash is repeated before some cut and another follows it, then feeding up to the cut,
      flushing, and feeding the rest leaves other bytes than appending everything at once,
      for any donut that can be started. */
  lemma {:induction false} ScheduleThatShows(c: Config, k: nat, a: seq<HashItem>, b: seq<HashItem>)
    returns (steps: seq<Step>, s: State)
    requires ConfigOk(c) && HashesOf(a + b, c.n) && |a| + |b| == c.capacity && Offset(k, c.capacity) < OFFSET_LIMIT
    requires !NoRepeats(a) && NonGaps(b) > 0
    ensures Run(c, Start(c), steps, s) && FillsWindow(c, k, s, a + b)
    ensures Promoted(s)[k] != Canonical(c, Offset(k, c.capacity), a + b)
  {
    var first := Offset(k, c.capacity);
    HashesOfParts(a, b, c.n);
    var before, more;
    steps, before := FillMany(c, Gaps(c.capacity), k);
    more, s := FillInTwo(c, before, NewDonut(c.capacity, first), a, b, 0);
    RunConcat(c, Start(c), steps, before, more, s);
    steps := steps + more;
    CutShows(a, b, c.capacity, first);
    LastOfMany(c, k, before, s, a, b, Appended(Appended(NewDonut(c.capacity, first), a), b));
  }

  lemma LastOfMany(c: Config, k: nat, before: State, s: State, a: seq<HashItem>, b: seq<HashItem>, d: Donut)
    requires before.room == [] && |before.discarded| == k && |before.fed| == Offset(k, c.capacity)
    requires s.room == before.room + [d] && s.discarded == before.discarded && s.fed == before.fed + a + b
    requires |a| + |b| == c.capacity
    ensures FillsWindow(c, k, s, a + b) && Promoted(s)[k] == d
  {
    assert Window(c, s, k) == a + b;
  }

  /** The run filled the `k`th donut, with these contents. */
  ghost predicate FillsWindow(c: Config, k: nat, s: State, w: seq<HashItem>) {
    |Promoted(s)| > k && |s.fed| >= Offset(k, c.capacity) + c.capacity && Window(c, s, k) == w
  }

  /** Every run that fills its `k`th donut with `w` leaves the donut of appending `w` at once. */
  ghost predicate SchedulesNeverShow(c: Config, k: nat, w: seq<HashItem>) {
    forall steps: seq<Step>, s: State :: Run(c, Start(c), steps, s) && FillsWindow(c, k, s, w) ==>
      Promoted(s)[k] == Canonical(c, Offset(k, c.capacity), w)
  }

  /** Storage is reproducible exactly for reproducible contents, in every donut that can be
      started. */
  lemma {:induction false} SchedulesShowExactly(c: Config, k: nat, w: seq<HashItem>)
    requires ConfigOk(c) && |w| == c.capacity && HashesOf(w, c.n)
    ensures SchedulesNeverShow(c, k, w) <==> Reproducible(w) || Offset(k, c.capacity) >= OFFSET_LIMIT
  {
    if Reproducible(w) || Offset(k, c.capacity) >= OFFSET_LIMIT {
      forall steps: seq<Step>, s: State | Run(c, Start(c), steps, s) && FillsWindow(c, k, s, w)
        ensures Promoted(s)[k] == Canonical(c, Offset(k, c.capacity), w)
      {
        DonutIsItsWindow(c, steps, s, k);
        PromotedInPlace(c, steps, s, k);
      }
    } else {
      var cut :| 0 <= cut <= |w| && !(NoRepeats(w[..cut]) || NonGaps(w[cut..]) == 0);
      assert w == w[..cut] + w[cut..];
      var steps, s := ScheduleThatShows(c, k, w[..cut], w[cut..]);
    }
  }

  lemma {:induction false} PromotedInPlace(c: Config, steps: seq<Step>, s: State, k: nat)
    requires ConfigOk(c) && Run(c, Start(c), steps, s) && k < |Promoted(s)|
    ensures InPlace(c, Promoted(s)[k], Offset(k, c.capacity))
  {
    Reached(c, steps, s);
  }
}
