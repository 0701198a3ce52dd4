/** Starting an ingester on the folders that an earlier one left
    (`apps/wedding_cake/include/ingester_tier_folder.hpp:56-108`, `ingester.hpp:19-27`). */
module TierRestarts {
  import opened Wrappers
  import opened Bytes
  import opened DonutEntries
  import opened DonutFiles
  import opened DonutHistories
  import opened DonutHydrations
  import opened RemainderDonuts
  import opened Ingestions
  import opened IngestionTheorems
  import opened IngestionRuns
  import opened IngestionDeterminism

  /** `Offset_<offset>`: the two files, if they exist, and whether there is an `ST01` folder. */
  datatype Folder = Folder(offset: nat, order: Option<seq<byte>>, suffix: Option<seq<byte>>, filled: bool)

  /** What a donut answers lookups from. */
  datatype Loaded = Loaded(first: nat, forward: seq<HashItem>, reverse: Reverse)

  datatype Tier = Tier(hatchling: Loaded, room: seq<Loaded>)

  function Load(c: Config, f: Folder): Result<Loaded, string> {
    var h := Hydrate(f.order, f.suffix, c.n, LocalPiBytes(c.capacity));
    if h.Err? then Err(h.error) else Ok(Loaded(f.offset, h.value.forward, h.value.reverse))
  }

  /** How one folder is loaded. */
  type Loader = Folder -> Result<Loaded, string>

  function LoaderOf(c: Config): Loader {
    f => Load(c, f)
  }

  /** Everything but the highest offset goes to the buffer room, and must be filled. */
  function LoadRoom(load: Loader, folders: seq<Folder>): Result<seq<Loaded>, string> {
    if folders == [] then Ok([])
    else
      var front, last := LoadRoom(load, folders[..|folders| - 1]), folders[|folders| - 1];
      if front.Err? then front
      else if load(last).Err? then Err(load(last).error)
      else if !last.filled then Err("BufferRoom on disk should only hold Ingester_ST01_FilledDonut's")
      else Ok(front.value + [load(last).value])
  }

  function AllButLast(folders: seq<Folder>): seq<Folder> {
    if folders == [] then [] else folders[..|folders| - 1]
  }

  /** The folders are sorted by offset; the highest one is the hatchling. */
  function Startup(c: Config, folders: seq<Folder>): Result<Tier, string> {
    if folders == [] then Ok(Tier(Loaded(0, [], map[]), []))
    else
      var hatchling := Load(c, folders[|folders| - 1]);
      if hatchling.Err? then Err(hatchling.error)
      else if |folders| > c.fanout + 1 then Err("Too many object folders found in tier")
      else
        var room := LoadRoom(LoaderOf(c), AllButLast(folders));
        if room.Err? then Err(room.error)
        else if |hatchling.value.forward| == c.capacity then
          Err("We should always find some downstream capacity at startup")
        else Ok(Tier(hatchling.value, room.value))
  }

  /** A start without folders is the start of the pipeline: an empty hatchling at offset 0 and an
      empty room. */
  lemma FirstStart(c: Config)
    ensures Startup(c, []) == Ok(Tier(Memory(Start(c).hatchling.value), Memories(Start(c).room)))
    ensures Startup(c, []) == Ok(Tier(Loaded(0, [], map[]), []))
  {
    assert Memories([]) == [];
  }

  /** Which folders a room is loaded from, and what is then in it. */
  lemma {:induction false} RoomLoadsExactly(load: Loader, folders: seq<Folder>)
    ensures var room := LoadRoom(load, folders);
            && (room.Ok? <==> forall i :: 0 <= i < |folders| ==> load(folders[i]).Ok? && folders[i].filled)
            && (room.Ok? ==> |room.value| == |folders|
                             && forall i :: 0 <= i < |folders| ==> load(folders[i]) == Ok(room.value[i]))
  {
    if folders != [] {
      RoomLoadsExactly(load, folders[..|folders| - 1]);
    }
  }

  /** Which folders a tier starts from, and what is then in it. */
  lemma {:induction false} StartsExactly(c: Config, folders: seq<Folder>)
    requires folders != []
    ensures var tier, k, load := Startup(c, folders), |folders| - 1, LoaderOf(c);
            && (tier.Ok? <==>
                  && |folders| <= c.fanout + 1
                  && (forall i :: 0 <= i <= k ==> load(folders[i]).Ok?)
                  && (forall i :: 0 <= i < k ==> folders[i].filled)
                  && |load(folders[k]).value.forward| != c.capacity)
            && (tier.Ok? ==>
                  && load(folders[k]) == Ok(tier.value.hatchling) && |tier.value.room| == k
                  && forall i :: 0 <= i < k ==> load(folders[i]) == Ok(tier.value.room[i]))
  {
    var k, load := |folders| - 1, LoaderOf(c);
    assert load(folders[k]) == Load(c, folders[k]);
    RoomLoadsExactly(load, AllButLast(folders));
    AllButLastAre(folders, k);
  }

  lemma AllButLastAre(folders: seq<Folder>, k: nat)
    requires |folders| == k + 1
    ensures |AllButLast(folders)| == k && forall i :: 0 <= i < k ==> AllButLast(folders)[i] == folders[i]
  {
  }

  // ---------------------------------------------------------------- what a run leaves on disk

  function FolderOf(d: Donut, filled: bool): Folder {
    Folder(d.first, Some(d.order), Some(d.suffix), filled)
  }

  function Folders(donuts: seq<Donut>): seq<Folder> {
    seq(|donuts|, i requires 0 <= i < |donuts| => FolderOf(donuts[i], true))
  }

  /** Filled donuts stay on disk, also when the room was discarded: they do not purge. */
  function Disk(s: State): seq<Folder> {
    Folders(Promoted(s)) + if s.hatchling.Some? then [FolderOf(s.hatchling.value, false)] else []
  }

  function Memory(d: Donut): Loaded {
    Loaded(d.first, d.forward, d.reverse)
  }

  function Memories(donuts: seq<Donut>): seq<Loaded> {
    seq(|donuts|, i requires 0 <= i < |donuts| => Memory(donuts[i]))
  }

  ghost predicate AllLegible(donuts: seq<Donut>) {
    forall k :: 0 <= k < |donuts| ==> Legible(donuts[k])
  }

  lemma {:induction false} DonutLoads(c: Config, d: Donut, first: nat, filled: bool)
    requires InPlace(c, d, first) && GoodDonut(c, d)
    ensures var r := Load(c, FolderOf(d, filled));
            (r.Ok? <==> Legible(d)) && (r.Ok? ==> r == Ok(Memory(d)))
  {
    ReloadsExactlyIfLegible(d, c.n);
  }

  /** Each donut either loads as it was, or does not load. */
  ghost predicate LoadsOrFails(load: Loader, donuts: seq<Donut>) {
    forall k :: 0 <= k < |donuts| ==>
      var r := load(FolderOf(donuts[k], true));
      (r.Ok? <==> Legible(donuts[k])) && (r.Ok? ==> r == Ok(Memory(donuts[k])))
  }

  lemma {:induction false} RoomLoads(load: Loader, donuts: seq<Donut>)
    requires LoadsOrFails(load, donuts)
    ensures LoadRoom(load, Folders(donuts)).Ok? <==> AllLegible(donuts)
    ensures AllLegible(donuts) ==> LoadRoom(load, Folders(donuts)) == Ok(Memories(donuts))
  {
    if donuts == [] {
      assert Folders(donuts) == [] && Memories(donuts) == [];
    } else {
      var front, last := donuts[..|donuts| - 1], donuts[|donuts| - 1];
      RoomLoads(load, front);
      AllLegiblePush(front, last);
      assert donuts == front + [last];
      assert Folders(donuts)[..|front|] == Folders(front) && Folders(donuts)[|front|] == FolderOf(last, true);
      assert Memories(donuts) == Memories(front) + [Memory(last)];
    }
  }

  lemma AllLegiblePush(front: seq<Donut>, last: Donut)
    ensures AllLegible(front + [last]) <==> AllLegible(front) && Legible(last)
  {
    if AllLegible(front + [last]) {
      forall k | 0 <= k < |front|
        ensures Legible(front[k])
      {
        assert (front + [last])[k] == front[k];
      }
      assert (front + [last])[|front|] == last;
    }
  }

  lemma {:induction false} FullDonutsLoad(c: Config, donuts: seq<Donut>)
    requires AllFull(c, donuts) && AllGood(c, donuts)
    ensures LoadsOrFails(LoaderOf(c), donuts)
  {
    forall k | 0 <= k < |donuts|
      ensures var r := LoaderOf(c)(FolderOf(donuts[k], true));
              (r.Ok? <==> Legible(donuts[k])) && (r.Ok? ==> r == Ok(Memory(donuts[k])))
    {
      DonutLoads(c, donuts[k], Offset(k, c.capacity), true);
    }
  }

  /** A restart succeeds exactly if the hatchling exists and has room, so no promotion was under
      way, no more donuts were ever filled than the buffer room takes, discarded ones
      included, and every donut is legible; then it finds all of them, discarded ones
      included, and the hatchling as it was. */
  lemma {:induction false} RestartSucceedsExactly(c: Config, s: State)
    requires Inv(c, s) && Sound(c, s)
    ensures var t := Startup(c, Disk(s));
            && (t.Ok? <==>
                  && s.hatchling.Some? && |InHatchling(s)| < c.capacity
                  && |s.discarded| + |s.room| <= c.fanout
                  && AllLegible(s.discarded + s.room) && Legible(s.hatchling.value))
            && (t.Ok? ==> t.value == Tier(Memory(s.hatchling.value), Memories(s.discarded + s.room)))
  {
    var donuts := Promoted(s);
    if s.hatchling.Some? {
      var d := s.hatchling.value;
      FullDonutsLoad(c, donuts);
      RoomLoads(LoaderOf(c), donuts);
      DonutLoads(c, d, Offset(|donuts|, c.capacity), false);
      StartsWith(c, Disk(s), Folders(donuts), FolderOf(d, false), d);
    } else {
      MidPromotion(c, s);
    }
  }

  /** A start on filled folders and a hatchling's folder, given how the two load. */
  lemma {:induction false} StartsWith(c: Config, disk: seq<Folder>, folders: seq<Folder>, f: Folder, d: Donut)
    requires disk == folders + [f] && (Load(c, f).Ok? ==> Load(c, f) == Ok(Memory(d)))
    ensures var t, room := Startup(c, disk), LoadRoom(LoaderOf(c), folders);
            && (t.Ok? <==>
                  Load(c, f).Ok? && |folders| <= c.fanout && room.Ok? && |d.forward| != c.capacity)
            && (t.Ok? ==> t.value == Tier(Memory(d), room.value))
  {
    assert disk[..|disk| - 1] == folders && disk[|disk| - 1] == f;
  }

  /** Between `Feed` and the new hatchling the highest folder is a full donut. */
  lemma {:induction false} MidPromotion(c: Config, s: State)
    requires Inv(c, s) && Sound(c, s) && s.hatchling.None?
    ensures Startup(c, Disk(s)).Err?
  {
    var donuts := Promoted(s);
    TopFolder(donuts, Disk(s));
    FullDonutLoads(c, donuts, FolderOf(donuts[|donuts| - 1], true));
    FullOnTop(c, Disk(s));
  }

  lemma TopFolder(donuts: seq<Donut>, disk: seq<Folder>)
    requires donuts != [] && disk == Folders(donuts)
    ensures disk != [] && disk[|disk| - 1] == FolderOf(donuts[|donuts| - 1], true)
  {
  }

  lemma {:induction false} FullDonutLoads(c: Config, donuts: seq<Donut>, f: Folder)
    requires AllFull(c, donuts) && AllGood(c, donuts) && donuts != [] && f == FolderOf(donuts[|donuts| - 1], true)
    ensures var r := Load(c, f); r.Ok? ==> |r.value.forward| == c.capacity
  {
    DonutLoads(c, donuts[|donuts| - 1], Offset(|donuts| - 1, c.capacity), true);
  }

  lemma {:induction false} FullOnTop(c: Config, disk: seq<Folder>)
    requires disk != []
    requires var r := Load(c, disk[|disk| - 1]); r.Ok? ==> |r.value.forward| == c.capacity
    ensures Startup(c, disk).Err?
  {
  }

  /** Donuts that repeat no hash, or at least have reproducible contents, are legible. */
  lemma {:induction false} ReproducibleRestarts(c: Config, s: State)
    requires Inv(c, s) && Sound(c, s) && AllReproducible(Promoted(s)) && Reproducible(InHatchling(s))
    ensures Startup(c, Disk(s)).Ok? <==>
            s.hatchling.Some? && |InHatchling(s)| < c.capacity && |s.discarded| + |s.room| <= c.fanout
  {
    RestartSucceedsExactly(c, s);
    forall k | 0 <= k < |Promoted(s)|
      ensures Legible(Promoted(s)[k])
    {
      assert GoodDonut(c, Promoted(s)[k]);
    }
  }

  /** A restart is the identity on the room exactly if nothing was ever discarded. */
  lemma {:induction false} DiscardsComeBack(c: Config, s: State)
    requires Inv(c, s) && Sound(c, s) && Startup(c, Disk(s)).Ok?
    ensures Startup(c, Disk(s)).value.room == Memories(s.room) <==> s.discarded == []
  {
    RestartSucceedsExactly(c, s);
    MemoriesDiffer(s.discarded, s.room);
  }

  lemma MemoriesDiffer(discarded: seq<Donut>, room: seq<Donut>)
    ensures Memories(discarded + room) == Memories(room) <==> discarded == []
  {
    if discarded == [] {
      assert discarded + room == room;
    } else {
      assert |Memories(discarded + room)| > |Memories(room)|;
    }
  }

  // ---------------------------------------------------------------- runs that show it

  /** A repeated hash in one batch and a hash in the next one: the files that the program leaves
      cannot be started on, without any discard and with space everywhere. */
  lemma {:induction false} RepeatPreventsRestart(c: Config, h: Hash, g: Hash) returns (steps: seq<Step>, s: State)
    requires ConfigOk(c) && c.capacity > 3 && |h| == |g| == c.n
    ensures Run(c, Start(c), steps, s) && s.fed == [Some(h), Some(h), Some(g)]
    ensures s.worker.Idle? && s.buffer == [] && s.discarded == [] && s.room == [] && |InHatchling(s)| < c.capacity
    ensures Startup(c, Disk(s)).Err?
  {
    var d, a, b := NewDonut(c.capacity, 0), [Some(h), Some(h)], [Some(g)];
    steps, s := TwoFlushes(c, Start(c), d, a, b);
    assert [] + a + b == [Some(h), Some(h), Some(g)];
    RepeatDoesNotReload(h, g, c.capacity, 0);
    ReachedIsSound(c, steps, s);
    RestartSucceedsExactly(c, s);
  }

  lemma {:induction false} TwoFlushes(c: Config, s: State, d: Donut, a: seq<HashItem>, b: seq<HashItem>)
    returns (steps: seq<Step>, t: State)
    requires Settled(c, s, d) && s.flushers == map[] && |d.forward| + |a| + |b| < c.capacity
    requires a != [] && b != [] && HashesOf(a, c.n) && HashesOf(b, c.n)
    ensures Run(c, s, steps, t) && Settled(c, t, Appended(Appended(d, a), b)) && t.fed == s.fed + a + b
    ensures t.room == s.room && t.discarded == s.discarded
  {
    var first, middle := FeedAndFlush(c, s, d, a, 0);
    var second;
    second, t := FeedAndFlush(c, middle, Appended(d, a), b, 1);
    steps := first + second;
    RunConcat(c, s, first, middle, second, t);
  }

  /** One donut more than the room takes, although every one of them was discarded: the program
      cannot be started again, whatever the contents are. */
  lemma {:induction false} DiscardsPreventRestart(c: Config, block: seq<HashItem>)
    returns (steps: seq<Step>, s: State)
    requires ConfigOk(c) && |block| == c.capacity && HashesOf(block, c.n)
    requires Offset(c.fanout + 1, c.capacity) < OFFSET_LIMIT
    ensures Run(c, Start(c), steps, s) && ManyFilled(c, block, c.fanout + 1, s)
    ensures Startup(c, Disk(s)).Err?
  {
    steps, s := FillMany(c, block, c.fanout + 1);
    ReachedIsSound(c, steps, s);
    RestartSucceedsExactly(c, s);
  }

  /** A single filled and discarded donut: the restart succeeds, and finds it in the room that
      was empty. */
  lemma {:induction false} DiscardedComesBack(c: Config, block: seq<HashItem>) returns (steps: seq<Step>, s: State)
    requires ConfigOk(c) && |block| == c.capacity && HashesOf(block, c.n) && Reproducible(block)
    ensures Run(c, Start(c), steps, s) && s.room == [] && s.discarded != []
    ensures var t := Startup(c, Disk(s));
            t.Ok? && |t.value.room| == 1 && t.value.room[0].forward == block
  {
    assert Offset(1, c.capacity) == c.capacity;
    steps, s := FillMany(c, block, 1);
    ReachedIsSound(c, steps, s);
    assert Promoted(s) == s.discarded;
    NothingIsReproducible();
    ReproducibleRestarts(c, s);
    RestartSucceedsExactly(c, s);
  }

  lemma NothingIsReproducible()
    ensures Reproducible([])
  {
  }

  // ---------------------------------------------------------------- the program

  method HydrateDonut(c: Config, f: Folder) returns (loaded: Result<Loaded, string>)
    requires ConfigOk(c)
    ensures loaded.Ok? <==> Load(c, f).Ok?
    ensures loaded.Ok? ==> loaded == Load(c, f)
  {
    var donut := new RemainderDonut.Existing(c.capacity, f.offset, c.n, f.order, f.suffix);
    var hydrated := donut.HydrateSelfForLookup();
    if hydrated.Err? {
      return Err(hydrated.error);
    }
    return Ok(Loaded(donut.first, donut.forward, donut.reverse));
  }

  /** Once loading fails it stays failed. */
  lemma {:induction false} FailureStays(load: Loader, folders: seq<Folder>, i: nat)
    requires i <= |folders|
    ensures LoadRoom(load, folders[..i]).Err? ==> LoadRoom(load, folders).Err?
    decreases |folders| - i
  {
    if i < |folders| {
      assert folders[..i + 1][..i] == folders[..i];
      FailureStays(load, folders, i + 1);
    } else {
      assert folders[..i] == folders;
    }
  }

  /** One folder more, or the failure of the whole. */
  lemma {:induction false} LoadNext(load: Loader, folders: seq<Folder>, i: nat, items: seq<Loaded>,
      r: Result<Loaded, string>)
    requires i < |folders| && LoadRoom(load, folders[..i]) == Ok(items) && r == load(folders[i])
    ensures r.Ok? && folders[i].filled ==> LoadRoom(load, folders[..i + 1]) == Ok(items + [r.value])
    ensures r.Err? || !folders[i].filled ==> LoadRoom(load, folders).Err?
  {
    assert folders[..i + 1][..i] == folders[..i];
    FailureStays(load, folders, i + 1);
  }

  /** All folders but the last, in order of their offsets. */
  method HydrateBufferRoom(c: Config, folders: seq<Folder>) returns (room: Result<seq<Loaded>, string>)
    requires ConfigOk(c)
    ensures room.Ok? <==> |folders| <= c.fanout + 1 && LoadRoom(LoaderOf(c), AllButLast(folders)).Ok?
    ensures room.Ok? ==> room == LoadRoom(LoaderOf(c), AllButLast(folders))
  {
    if |folders| > c.fanout + 1 {
      return Err("Too many object folders found in tier");
    }
    if |folders| <= 1 {
      return Ok([]);
    }
    ghost var load, others := LoaderOf(c), AllButLast(folders);
    var items, i := [], 0;
    while i < |folders| - 1
      invariant 0 <= i <= |folders| - 1 && LoadRoom(load, others[..i]) == Ok(items)
    {
      LoadNext(load, others, i, items, Load(c, folders[i]));
      var loaded := HydrateDonut(c, folders[i]);
      if loaded.Err? {
        return Err(loaded.error);
      }
      if !folders[i].filled {
        return Err("BufferRoom on disk should only hold Ingester_ST01_FilledDonut's");
      }
      items, i := items + [loaded.value], i + 1;
    }
    assert others[..i] == others;
    return Ok(items);
  }

  method StartIngester(c: Config, folders: seq<Folder>) returns (tier: Result<Tier, string>)
    requires ConfigOk(c)
    ensures tier.Ok? <==> Startup(c, folders).Ok?
    ensures tier.Ok? ==> tier == Startup(c, folders)
    ensures folders == [] ==> tier == Ok(Tier(Loaded(0, [], map[]), []))
  {
    if |folders| == 0 {
      return Ok(Tier(Loaded(0, [], map[]), []));
    }
    var hatchling := HydrateDonut(c, folders[|folders| - 1]);
    if hatchling.Err? {
      return Err(hatchling.error);
    }
    var room := HydrateBufferRoom(c, folders);
    if room.Err? {
      return Err(room.error);
    }
    if |hatchling.value.forward| == c.capacity {
      return Err("We should always find some downstream capacity at startup");
    }
    return Ok(Tier(hatchling.value, room.value));
  }
}
