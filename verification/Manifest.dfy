/** The transaction log of a state folder and recovery from it
    (`include/evolving_disk_state_old/manifest_engine.hpp`). */
module Manifest {
  import opened Bits
  import opened Bytes

  type Name = seq<byte>
  type uint64 = v: int | 0 <= v < 0x1_0000_0000_0000_0000
  type uint32 = v: int | 0 <= v < 0x1_0000_0000

  const REC_DECLARATION: byte := 0x01
  const REC_COMMIT: byte := 0x02
  const COMMIT_MAGIC: uint32 := 0x434F4D54

  datatype Op = Declare(name: Name, offset: uint64) | Commit(slice: uint32)

  type Lengths = map<Name, nat>

  /** The length of a file name is stored in one byte and only that much is written. */
  function Recorded(name: Name): (r: Name)
    ensures |r| == |name| % 256
  {
    name[..|name| % 256]
  }

  /** The bytes of one call. */
  function OpBytes(op: Op): seq<byte> {
    match op
    case Declare(name, offset) =>
      [REC_DECLARATION, |name| % 256] + Recorded(name) + LittleEndian(offset, 8)
    case Commit(slice) =>
      [REC_COMMIT] + LittleEndian(COMMIT_MAGIC, 4) + LittleEndian(slice, 4)
  }

  function LogOf(ops: seq<Op>): seq<byte> {
    if ops == [] then [] else OpBytes(ops[0]) + LogOf(ops[1..])
  }

  // ---------------------------------------------------------------- recovery

  function Take(s: seq<byte>, n: nat): seq<byte> {
    if |s| <= n then s else s[..n]
  }

  /** The parse loop. A record that the end of the file cuts short stops it, except that
      a commit takes effect as soon as its magic is complete. */
  function Parse(bytes: seq<byte>, pending: Lengths, committed: Lengths): Lengths
    decreases |bytes|
  {
    if bytes == [] then committed
    else if bytes[0] == REC_DECLARATION then
      var len: nat := if |bytes| < 2 then 0 else bytes[1];
      var end := 2 + len;
      if |bytes| < end + 8 then committed
      else
        Parse(bytes[end + 8..], pending[bytes[2..end] := Value(bytes[end..end + 8])], committed)
    else if bytes[0] == REC_COMMIT then
      var committed' := if Value(Take(bytes[1..], 4)) == COMMIT_MAGIC then committed + pending else committed;
      if |bytes| < 9 then committed' else Parse(bytes[9..], pending, committed')
    else committed
  }

  class ManifestEngine {
    var log: seq<byte>

    constructor ()
      ensures log == []
    {
      log := [];
    }

    method RecordMicrostepDeclaration(name: Name, offset: uint64)
      modifies this
      ensures log == old(log) + OpBytes(Declare(name, offset))
    {
      DeclarationIs(log, name, offset);
      var len := |name| % 256;
      log := log + [REC_DECLARATION];
      log := log + [len];
      log := log + name[..len];
      log := log + LittleEndian(offset, 8);
    }

    method CommitWorkSlice(slice: uint32)
      modifies this
      ensures log == old(log) + OpBytes(Commit(slice))
    {
      CommitParts(log, slice);
      log := log + [REC_COMMIT];
      log := log + LittleEndian(COMMIT_MAGIC, 4);
      log := log + LittleEndian(slice, 4);
    }

    method Call(op: Op)
      modifies this
      ensures log == old(log) + OpBytes(op)
    {
      match op
      case Declare(name, offset) => RecordMicrostepDeclaration(name, offset);
      case Commit(slice) => CommitWorkSlice(slice);
    }
  }

  lemma {:induction false} DeclarationIs(log: seq<byte>, name: Name, offset: uint64)
    ensures log + [REC_DECLARATION] + [|name| % 256] + name[..|name| % 256] + LittleEndian(offset, 8) ==
            log + OpBytes(Declare(name, offset))
  {
    assert Recorded(name) == name[..|name| % 256];
  }

  lemma {:induction false} CommitParts(log: seq<byte>, slice: uint32)
    ensures log + [REC_COMMIT] + LittleEndian(COMMIT_MAGIC, 4) + LittleEndian(slice, 4) == log + OpBytes(Commit(slice))
  {
  }

  lemma RestParts(log: seq<byte>, position: nat, a: nat, b: nat)
    requires a <= b && position + b <= |log|
    ensures log[position..][a..b] == log[position + a..position + b]
    ensures log[position..][b..] == log[position + b..]
  {
  }

  /** Reads a log record by record. */
  method LastCommittedLengths(log: seq<byte>) returns (committed: Lengths)
    ensures committed == Parse(log, map[], map[])
  {
    committed := map[];
    var pending: Lengths := map[];
    var position := 0;
    while position < |log|
      invariant position <= |log|
      invariant Parse(log[position..], pending, committed) == Parse(log, map[], map[])
    {
      var recType := log[position];
      if recType == REC_DECLARATION {
        var len: nat := if position + 1 < |log| then log[position + 1] else 0;
        var start, end := position + 2, position + 2 + len;
        if end + 8 > |log| {
          return;
        }
        RestParts(log, position, 2, 2 + len);
        RestParts(log, position, 2 + len, 10 + len);
        pending := pending[log[start..end] := Value(log[end..end + 8])];
        position := end + 8;
      } else if recType == REC_COMMIT {
        var magic := Value(Take(log[position + 1..], 4));
        RestParts(log, position, 1, 1);
        if magic == COMMIT_MAGIC {
          committed := committed + pending;
        }
        if position + 9 > |log| {
          return;
        }
        RestParts(log, position, 9, 9);
        position := position + 9;
      } else {
        return;
      }
    }
  }

  // ---------------------------------------------------------------- crash at any byte

  datatype Replayed = Replayed(pending: Lengths, committed: Lengths)

  /** One more call appends its bytes to the log. */
  lemma {:induction false} LogGrows(ops: seq<Op>, op: Op)
    ensures LogOf(ops + [op]) == LogOf(ops) + OpBytes(op)
  {
    if ops == [] {
      assert ([op])[1..] == [];
      assert LogOf([op]) == OpBytes(op) + LogOf([]);
    } else {
      assert (ops + [op])[1..] == ops[1..] + [op];
      LogGrows(ops[1..], op);
    }
  }

  lemma {:induction false} LogGrowsTo(ops: seq<Op>, i: nat)
    requires i < |ops|
    ensures LogOf(ops[..i + 1]) == LogOf(ops[..i]) + OpBytes(ops[i])
  {
    assert ops[..i + 1] == ops[..i] + [ops[i]];
    LogGrows(ops[..i], ops[i]);
  }

  /** A session of calls on a fresh engine. */
  method RunCalls(ops: seq<Op>) returns (engine: ManifestEngine)
    ensures engine.log == LogOf(ops)
  {
    engine := new ManifestEngine();
    for i := 0 to |ops|
      invariant fresh(engine) && engine.log == LogOf(ops[..i])
    {
      LogGrowsTo(ops, i);
      engine.Call(ops[i]);
    }
    assert ops[..|ops|] == ops;
  }

  /** What a sequence of calls declares and commits. */
  function Replay(ops: seq<Op>, start: Replayed): Replayed {
    if ops == [] then start else Replay(ops[1..], ReplayOne(ops[0], start))
  }

  function ReplayOne(op: Op, r: Replayed): Replayed {
    match op
    case Declare(name, offset) => r.(pending := r.pending[Recorded(name) := offset])
    case Commit(_) => r.(committed := r.committed + r.pending)
  }

  /** The calls that take effect in the first `k` bytes of the log: those that are complete,
      and a last commit of which only the slice number is cut. */
  function Surviving(ops: seq<Op>, k: nat): seq<Op> {
    if ops == [] then []
    else if |OpBytes(ops[0])| <= k then [ops[0]] + Surviving(ops[1..], k - |OpBytes(ops[0])|)
    else if ops[0].Commit? && k >= 5 then [ops[0]]
    else []
  }

  lemma MagicReadsBack()
    ensures Value(LittleEndian(COMMIT_MAGIC, 4)) == COMMIT_MAGIC
  {
    Pow2Words();
    LittleEndianRoundTrip(COMMIT_MAGIC, 4);
  }

  lemma {:induction false} ParseWhole(op: Op, tail: seq<byte>, r: Replayed)
    ensures Parse(OpBytes(op) + tail, r.pending, r.committed) ==
            Parse(tail, ReplayOne(op, r).pending, ReplayOne(op, r).committed)
  {
    match op
    case Declare(name, offset) => ParseDeclaration(name, offset, tail, r);
    case Commit(slice) => ParseCommit(slice, tail, r);
  }

  lemma {:induction false} ParseDeclaration(name: Name, offset: uint64, tail: seq<byte>, r: Replayed)
    ensures Parse(OpBytes(Declare(name, offset)) + tail, r.pending, r.committed) ==
            Parse(tail, r.pending[Recorded(name) := offset], r.committed)
  {
    DeclarationParts(name, offset, tail);
    Pow2Words();
    LittleEndianRoundTrip(offset, 8);
  }

  lemma {:induction false} DeclarationParts(name: Name, offset: uint64, tail: seq<byte>)
    ensures var bytes, end := OpBytes(Declare(name, offset)) + tail, 2 + |name| % 256;
            && |bytes| == end + 8 + |tail| && bytes[0] == REC_DECLARATION && bytes[1] == |name| % 256
            && bytes[2..end] == Recorded(name) && bytes[end..end + 8] == LittleEndian(offset, 8)
            && bytes[end + 8..] == tail
  {
    ThreeParts([REC_DECLARATION, |name| % 256], Recorded(name), LittleEndian(offset, 8), tail);
  }

  lemma ThreeParts(a: seq<byte>, b: seq<byte>, c: seq<byte>, d: seq<byte>)
    ensures var s := a + b + c + d;
            && s[..|a|] == a && s[|a|..|a + b|] == b && s[|a + b|..|a + b + c|] == c && s[|a + b + c|..] == d
  {
  }

  lemma {:induction false} ParseCommit(slice: uint32, tail: seq<byte>, r: Replayed)
    ensures Parse(OpBytes(Commit(slice)) + tail, r.pending, r.committed) ==
            Parse(tail, r.pending, r.committed + r.pending)
  {
    var bytes := OpBytes(Commit(slice)) + tail;
    assert bytes[1..][..4] == LittleEndian(COMMIT_MAGIC, 4);
    assert bytes[9..] == tail;
    MagicReadsBack();
  }

  lemma {:induction false} ParseCut(op: Op, k: nat, r: Replayed)
    requires k < |OpBytes(op)|
    ensures Parse(OpBytes(op)[..k], r.pending, r.committed) ==
            if op.Commit? && k >= 5 then ReplayOne(op, r).committed else r.committed
  {
    match op
    case Declare(name, offset) => ParseCutDeclaration(name, offset, k, r);
    case Commit(slice) =>
      if 1 <= k {
        ParseCutCommit(slice, OpBytes(op)[..k], r);
      }
  }

  lemma {:induction false} ParseCutDeclaration(name: Name, offset: uint64, k: nat, r: Replayed)
    requires k < |OpBytes(Declare(name, offset))|
    ensures Parse(OpBytes(Declare(name, offset))[..k], r.pending, r.committed) == r.committed
  {
    var bytes := OpBytes(Declare(name, offset))[..k];
    if k >= 1 {
      assert bytes[0] == REC_DECLARATION;
      assert k >= 2 ==> bytes[1] == |name| % 256;
    }
  }

  /** A cut commit counts as soon as its magic is complete. */
  lemma {:induction false} ParseCutCommit(slice: uint32, bytes: seq<byte>, r: Replayed)
    requires 1 <= |bytes| < 9 && bytes == OpBytes(Commit(slice))[..|bytes|]
    ensures Parse(bytes, r.pending, r.committed) ==
            if |bytes| >= 5 then r.committed + r.pending else r.committed
  {
    MagicComplete(slice, bytes);
    assert bytes[0] == REC_COMMIT;
  }

  lemma {:induction false} MagicBytes(slice: uint32)
    ensures OpBytes(Commit(slice))[1..5] == LittleEndian(COMMIT_MAGIC, 4)
  {
    ThreeParts([REC_COMMIT], LittleEndian(COMMIT_MAGIC, 4), LittleEndian(slice, 4), []);
    assert OpBytes(Commit(slice)) + [] == OpBytes(Commit(slice));
  }

  lemma {:induction false} MagicComplete(slice: uint32, bytes: seq<byte>)
    requires 1 <= |bytes| < 9 && bytes == OpBytes(Commit(slice))[..|bytes|]
    ensures Value(Take(bytes[1..], 4)) == COMMIT_MAGIC <==> |bytes| >= 5
  {
    if |bytes| >= 5 {
      MagicBytes(slice);
      RestParts(OpBytes(Commit(slice))[..|bytes|], 1, 0, 4);
      assert OpBytes(Commit(slice))[..|bytes|][1..5] == OpBytes(Commit(slice))[1..5];
      MagicReadsBack();
    } else {
      ValueBound(bytes[1..]);
      Pow2Mono(8 * |bytes[1..]|, 24);
      Pow2Words();
    }
  }

  /** Recovery from a log cut at any byte finds exactly what the surviving calls committed. */
  lemma {:induction false} CrashAtAnyByte(ops: seq<Op>, k: nat, r: Replayed)
    requires k <= |LogOf(ops)|
    ensures Parse(LogOf(ops)[..k], r.pending, r.committed) == Replay(Surviving(ops, k), r).committed
  {
    if ops != [] {
      var first := OpBytes(ops[0]);
      if |first| <= k {
        var rest := k - |first|;
        CrashAtAnyByte(ops[1..], rest, ReplayOne(ops[0], r));
        ParseWhole(ops[0], LogOf(ops[1..])[..rest], r);
        CutBehind(first, LogOf(ops[1..]), k);
        ReplayFirst(ops[0], Surviving(ops[1..], rest), r);
      } else {
        CutInside(first, LogOf(ops[1..]), k);
        ParseCut(ops[0], k, r);
        ReplayFirst(ops[0], [], r);
      }
    }
  }

  lemma CutBehind(first: seq<byte>, tail: seq<byte>, k: nat)
    requires |first| <= k <= |first| + |tail|
    ensures (first + tail)[..k] == first + tail[..k - |first|]
  {
  }

  lemma CutInside(first: seq<byte>, tail: seq<byte>, k: nat)
    requires k < |first|
    ensures (first + tail)[..k] == first[..k]
  {
  }

  lemma {:induction false} ReplayFirst(op: Op, rest: seq<Op>, r: Replayed)
    ensures Replay([op] + rest, r) == Replay(rest, ReplayOne(op, r))
    ensures rest == [] ==> Replay([op], r) == ReplayOne(op, r)
  {
    assert ([op] + rest)[1..] == rest;
    assert [op] + [] == [op];
  }

  /** A log of whole calls followed by bytes that are no record: they are ignored. */
  lemma {:induction false} GarbageIsIgnored(ops: seq<Op>, garbage: seq<byte>, r: Replayed)
    requires garbage == [] || (garbage[0] != 1 && garbage[0] != 2)
    ensures Parse(LogOf(ops) + garbage, r.pending, r.committed) == Replay(ops, r).committed
  {
    if ops == [] {
      assert LogOf(ops) + garbage == garbage;
    } else {
      LogBefore(ops, garbage);
      ParseWhole(ops[0], LogOf(ops[1..]) + garbage, r);
      GarbageIsIgnored(ops[1..], garbage, ReplayOne(ops[0], r));
    }
  }

  lemma {:induction false} LogBefore(ops: seq<Op>, rest: seq<byte>)
    requires ops != []
    ensures LogOf(ops) + rest == OpBytes(ops[0]) + (LogOf(ops[1..]) + rest)
  {
  }

  /** A log that ends inside a commit: the commit counts from the last byte of its magic on. */
  lemma {:induction false} MagicIsEnough(ops: seq<Op>, slice: uint32, k: nat, r: Replayed)
    requires 1 <= k < 9
    ensures Parse(LogOf(ops) + OpBytes(Commit(slice))[..k], r.pending, r.committed) ==
            if k >= 5 then Replay(ops, r).committed + Replay(ops, r).pending else Replay(ops, r).committed
  {
    var cut := OpBytes(Commit(slice))[..k];
    if ops == [] {
      assert LogOf(ops) + cut == cut;
      ParseCutCommit(slice, cut, r);
    } else {
      LogBefore(ops, cut);
      ParseWhole(ops[0], LogOf(ops[1..]) + cut, r);
      MagicIsEnough(ops[1..], slice, k, ReplayOne(ops[0], r));
    }
  }

  /** A commit record with another magic commits nothing, and what follows it is read. */
  lemma {:induction false} OtherMagicCommitsNothing(magic: seq<byte>, slice: seq<byte>, rest: seq<byte>, r: Replayed)
    requires |magic| == 4 && |slice| == 4 && Value(magic) != 0x434F4D54
    ensures Parse([2] + magic + slice + rest, r.pending, r.committed) == Parse(rest, r.pending, r.committed)
  {
    var bytes := [2] + magic + slice + rest;
    ThreeParts([2], magic, slice, rest);
    assert bytes[1..][..4] == magic && bytes[9..] == rest;
  }

  /** The bytes of the two calls. */
  lemma {:induction false} DeclarationFormat(name: Name, offset: uint64)
    ensures var bytes, k := OpBytes(Declare(name, offset)), |name| % 256;
            && |bytes| == 10 + k && bytes[0] == 1 && bytes[1] == k
            && bytes[2..2 + k] == name[..k] && Value(bytes[2 + k..]) == offset
  {
    var bytes := OpBytes(Declare(name, offset));
    DeclarationParts(name, offset, []);
    assert bytes + [] == bytes && bytes[2 + |name| % 256..] == LittleEndian(offset, 8);
    Pow2Words();
    LittleEndianRoundTrip(offset, 8);
  }

  lemma {:induction false} CommitFormat(slice: uint32)
    ensures var bytes := OpBytes(Commit(slice));
            |bytes| == 9 && bytes[..5] == [2, 0x54, 0x4D, 0x4F, 0x43] && Value(bytes[5..]) == slice
  {
    var bytes := OpBytes(Commit(slice));
    MagicIs();
    ThreeParts([2], LittleEndian(COMMIT_MAGIC, 4), LittleEndian(slice, 4), []);
    assert bytes + [] == bytes && bytes[..5] == [2] + bytes[1..5];
    Pow2Words();
    LittleEndianRoundTrip(slice, 4);
  }

  lemma {:induction false} MagicIs()
    ensures LittleEndian(COMMIT_MAGIC, 4) == [0x54, 0x4D, 0x4F, 0x43]
  {
    assert LittleEndian(0x434F4D54, 4) == [0x54] + LittleEndian(0x434F4D, 3);
    assert LittleEndian(0x434F4D, 3) == [0x4D] + LittleEndian(0x434F, 2);
    assert LittleEndian(0x434F, 2) == [0x4F] + LittleEndian(0x43, 1);
    assert LittleEndian(0x43, 1) == [0x43] + LittleEndian(0, 0);
  }

  // ---------------------------------------------------------------- the data files

  /** What a session does: it appends to files, declares their current length, and commits. */
  datatype Event =
    | AppendTo(name: Name, bytes: seq<byte>)
    | DeclareLength(name: Name)
    | CommitSlice(slice: uint32, handles: set<Name>)

  type Files = map<Name, seq<byte>>

  /** Contents as written, as of the last declaration, as committed, and as of the last
      flush. A commit flushes the files of the handles it is given before its record. */
  datatype Session = Session(contents: Files, declared: Files, committed: Files, flushed: Files)

  function Content(files: Files, name: Name): seq<byte> {
    if name in files then files[name] else []
  }

  function After(s: Session, e: Event): Session {
    match e
    case AppendTo(name, bytes) => s.(contents := s.contents[name := Content(s.contents, name) + bytes])
    case DeclareLength(name) => s.(declared := s.declared[name := Content(s.contents, name)])
    case CommitSlice(_, handles) => s.(committed := s.committed + s.declared, flushed := Flushed(s, handles))
  }

  function Flushed(s: Session, handles: set<Name>): Files {
    s.flushed + map n | n in handles && n in s.contents :: s.contents[n]
  }

  const NEW_SESSION := Session(map[], map[], map[], map[])

  function Play(events: seq<Event>): Session {
    if events == [] then NEW_SESSION
    else After(Play(events[..|events| - 1]), events[|events| - 1])
  }

  /** File names fit the length byte and files fit their 64-bit length. */
  ghost predicate Plain(events: seq<Event>) {
    forall i :: 0 <= i < |events| && events[i].DeclareLength? ==>
      |events[i].name| < 256 && |Content(Play(events[..i]).contents, events[i].name)| < 0x1_0000_0000_0000_0000
  }

  lemma PlainPrefix(events: seq<Event>, n: nat)
    requires Plain(events) && n <= |events|
    ensures Plain(events[..n])
  {
    forall i | 0 <= i < n && events[..n][i].DeclareLength?
      ensures |events[..n][i].name| < 256
      ensures |Content(Play(events[..n][..i]).contents, events[..n][i].name)| < 0x1_0000_0000_0000_0000
    {
      assert events[..n][..i] == events[..i];
      assert events[i].DeclareLength?;
    }
  }

  lemma {:induction false} PlainLast(events: seq<Event>, front: seq<Event>, e: Event)
    requires Plain(events) && events != [] && front == events[..|events| - 1] && e == events[|events| - 1]
    ensures Plain(front)
    ensures e.DeclareLength? ==>
              |e.name| < 256 && |Content(Play(front).contents, e.name)| < 0x1_0000_0000_0000_0000
  {
    PlainPrefix(events, |events| - 1);
  }

  /** The manifest calls of a session. */
  ghost function OpsOf(events: seq<Event>): seq<Op>
    requires Plain(events)
  {
    if events == [] then []
    else
      var front, e := events[..|events| - 1], events[|events| - 1];
      PlainLast(events, front, e);
      match e
      case AppendTo(_, _) => OpsOf(front)
      case DeclareLength(name) => OpsOf(front) + [Declare(name, |Content(Play(front).contents, name)|)]
      case CommitSlice(slice, _) => OpsOf(front) + [Commit(slice)]
  }

  ghost function Sizes(files: Files): Lengths {
    map n | n in files :: |files[n]|
  }

  lemma {:induction false} ReplayPush(ops: seq<Op>, op: Op, r: Replayed)
    ensures Replay(ops + [op], r) == ReplayOne(op, Replay(ops, r))
  {
    if ops == [] {
      assert ([op])[1..] == [];
    } else {
      assert (ops + [op])[1..] == ops[1..] + [op];
      ReplayPush(ops[1..], op, ReplayOne(ops[0], r));
    }
  }

  const NOTHING := Replayed(map[], map[])

  lemma SizesAfter(s: Session, e: Event)
    ensures Sizes(After(s, e).declared) ==
            if e.DeclareLength? then Sizes(s.declared)[e.name := |Content(s.contents, e.name)|] else Sizes(s.declared)
    ensures Sizes(After(s, e).committed) ==
            if e.CommitSlice? then Sizes(s.committed) + Sizes(s.declared) else Sizes(s.committed)
  {
  }

  /** The log records the sizes of what was declared and committed. */
  lemma {:induction false} LogTellsSizes(events: seq<Event>)
    requires Plain(events)
    ensures Replay(OpsOf(events), NOTHING) == Replayed(Sizes(Play(events).declared), Sizes(Play(events).committed))
  {
    if events != [] {
      var front, e := events[..|events| - 1], events[|events| - 1];
      PlainPrefix(events, |events| - 1);
      LogTellsSizes(front);
      SizesAfter(Play(front), e);
      match e
      case AppendTo(_, _) =>
      case DeclareLength(name) =>
        var op := OpOfDeclaration(events);
        ReplayPush(OpsOf(front), op, NOTHING);
      case CommitSlice(slice, _) =>
        ReplayPush(OpsOf(front), Commit(slice), NOTHING);
    }
  }

  lemma OpOfDeclaration(events: seq<Event>) returns (op: Op)
    requires Plain(events) && events != [] && events[|events| - 1].DeclareLength?
    ensures var front, name := events[..|events| - 1], events[|events| - 1].name;
            && Plain(front)
            && OpsOf(events) == OpsOf(front) + [op]
            && op.Declare? && Recorded(op.name) == name && op.offset == |Content(Play(front).contents, name)|
  {
    PlainPrefix(events, |events| - 1);
    var front, name := events[..|events| - 1], events[|events| - 1].name;
    assert |name| < 256 && |Content(Play(front).contents, name)| < 0x1_0000_0000_0000_0000;
    op := Declare(name, |Content(Play(front).contents, name)|);
    assert Recorded(name) == name;
  }

  ghost predicate PrefixOf(a: Files, b: Files) {
    forall n :: n in a ==> a[n] <= Content(b, n)
  }

  ghost predicate Growing(s: Session) {
    PrefixOf(s.declared, s.contents) && PrefixOf(s.flushed, s.contents)
  }

  lemma GrowingAfterAppend(s: Session, name: Name, bytes: seq<byte>)
    requires Growing(s)
    ensures Growing(After(s, AppendTo(name, bytes)))
  {
  }

  lemma GrowingAfterDeclare(s: Session, name: Name)
    requires Growing(s)
    ensures Growing(After(s, DeclareLength(name)))
  {
  }

  /** Files only grow. */
  lemma {:induction false} FilesOnlyGrow(events: seq<Event>)
    ensures Growing(Play(events))
  {
    if events != [] {
      FilesOnlyGrow(events[..|events| - 1]);
      match events[|events| - 1]
      case AppendTo(name, bytes) => GrowingAfterAppend(Play(events[..|events| - 1]), name, bytes);
      case DeclareLength(name) => GrowingAfterDeclare(Play(events[..|events| - 1]), name);
      case CommitSlice(_, _) =>
    }
  }

  /** What a commit asks of its caller: every declared file is flushed up to its declared
      length, or its handle is passed. */
  ghost predicate Covers(s: Session, e: Event) {
    e.CommitSlice? ==> forall n :: n in s.declared ==> n in e.handles || s.declared[n] <= Content(s.flushed, n)
  }

  ghost predicate AllCovered(events: seq<Event>) {
    events == [] ||
      (AllCovered(events[..|events| - 1]) && Covers(Play(events[..|events| - 1]), events[|events| - 1]))
  }

  ghost predicate CommittedFlushed(s: Session) {
    PrefixOf(s.committed, s.flushed)
  }

  lemma FlushedFile(s: Session, handles: set<Name>, n: Name)
    requires Growing(s) && CommittedFlushed(s)
    ensures n in s.declared ==>
              (s.declared[n] <= Content(Flushed(s, handles), n) <==>
               n in handles || s.declared[n] <= Content(s.flushed, n))
    ensures n in s.committed ==> s.committed[n] <= Content(Flushed(s, handles), n)
  {
    if n in s.declared {
      assert s.declared[n] <= Content(s.contents, n);
    }
    if n in s.committed {
      assert s.committed[n] <= Content(s.flushed, n) <= Content(s.contents, n);
    }
  }

  lemma CommitFlushesExactly(s: Session, e: Event)
    requires Growing(s) && CommittedFlushed(s)
    ensures CommittedFlushed(After(s, e)) <==> Covers(s, e)
  {
    if e.CommitSlice? {
      var t := After(s, e);
      forall n: Name
        ensures n in t.committed ==>
                  (t.committed[n] <= Content(t.flushed, n) <==>
                   n in s.declared ==> n in e.handles || s.declared[n] <= Content(s.flushed, n))
      {
        FlushedFile(s, e.handles, n);
      }
    }
  }

  /** Throughout a session everything committed is flushed. */
  ghost predicate AlwaysFlushed(events: seq<Event>) {
    forall m :: 0 <= m <= |events| ==> CommittedFlushed(Play(events[..m]))
  }

  lemma {:induction false} AlwaysFlushedPush(events: seq<Event>, k: nat)
    requires |events| == k + 1
    ensures AlwaysFlushed(events) <==> AlwaysFlushed(events[..k]) && CommittedFlushed(Play(events))
    ensures AlwaysFlushed(events[..k]) ==> CommittedFlushed(Play(events[..k]))
  {
    var front := events[..k];
    assert events[..k + 1] == events && front[..k] == front;
    forall m | 0 <= m <= k
      ensures front[..m] == events[..m]
    {
    }
  }

  /** It is, if and only if every commit is given the handles it needs. */
  lemma {:induction false} CommittedIsFlushedExactly(events: seq<Event>)
    ensures AlwaysFlushed(events) <==> AllCovered(events)
  {
    if events == [] {
      assert forall m :: 0 <= m <= |events| ==> events[..m] == [];
    } else {
      var k := |events| - 1;
      CommittedIsFlushedExactly(events[..k]);
      FilesOnlyGrow(events[..k]);
      AlwaysFlushedPush(events, k);
      if CommittedFlushed(Play(events[..k])) {
        CommitFlushesExactly(Play(events[..k]), events[k]);
      }
    }
  }

  /** The files declared since the last commit. */
  ghost function Pending(events: seq<Event>): set<Name> {
    if events == [] then {}
    else
      match events[|events| - 1]
      case AppendTo(_, _) => Pending(events[..|events| - 1])
      case DeclareLength(name) => Pending(events[..|events| - 1]) + {name}
      case CommitSlice(_, _) => {}
  }

  /** As `SliceContext` does: every commit is given the handles of the files declared for it. */
  ghost predicate HandlesPassed(events: seq<Event>) {
    events == [] ||
      var front, e := events[..|events| - 1], events[|events| - 1];
      HandlesPassed(front) && (e.CommitSlice? ==> Pending(front) <= e.handles)
  }

  ghost predicate FlushedUnlessPending(s: Session, pending: set<Name>) {
    forall n :: n in s.declared ==> n in pending || s.declared[n] <= Content(s.flushed, n)
  }

  lemma CommitFlushesPending(s: Session, e: Event, pending: set<Name>)
    requires e.CommitSlice? && Growing(s) && FlushedUnlessPending(s, pending) && pending <= e.handles
    ensures Covers(s, e) && FlushedUnlessPending(After(s, e), {})
  {
    forall n | n in s.declared
      ensures s.declared[n] <= Content(Flushed(s, e.handles), n)
    {
      assert s.declared[n] <= Content(s.contents, n);
      assert n in pending ==> n in e.handles;
    }
  }

  /** That is enough. */
  lemma {:induction false} PassingHandlesCovers(events: seq<Event>)
    requires HandlesPassed(events)
    ensures AllCovered(events) && FlushedUnlessPending(Play(events), Pending(events))
  {
    if events != [] {
      var front, e := events[..|events| - 1], events[|events| - 1];
      PassingHandlesCovers(front);
      FilesOnlyGrow(front);
      if e.CommitSlice? {
        CommitFlushesPending(Play(front), e, Pending(front));
      }
    }
  }

  /** `fs::resize_file`: cuts, or extends with zeros. */
  function Resize(bytes: seq<byte>, n: nat): seq<byte> {
    if n <= |bytes| then bytes[..n] else bytes + seq(n - |bytes|, _ => 0)
  }

  /** Recovery of a state folder. */
  function Recovered(disk: Files, log: seq<byte>): Files {
    Resized(disk, Parse(log, map[], map[]))
  }

  function Resized(disk: Files, lengths: Lengths): Files {
    map n | n in disk :: if n in lengths then Resize(disk[n], lengths[n]) else disk[n]
  }

  /** Cuts every committed file that exists to its committed length, in any order. */
  method RecoverStateDirectory(disk: Files, log: seq<byte>) returns (recovered: Files)
    ensures recovered == Recovered(disk, log)
  {
    var lengths := LastCommittedLengths(log);
    var names := lengths.Keys;
    recovered := disk;
    while names != {}
      invariant names <= lengths.Keys && recovered.Keys == disk.Keys
      invariant forall n :: n in disk ==>
        recovered[n] == if n in lengths && n !in names then Resize(disk[n], lengths[n]) else disk[n]
      decreases |names|
    {
      var n :| n in names;
      if n in recovered {
        recovered := recovered[n := Resize(recovered[n], lengths[n])];
      }
      names := names - {n};
    }
  }

  /** A crash of a session: the log ends at byte `k`, the first `m` events are the session up to
      the last call of which enough is in the log, and the files hold at least what was flushed. */
  ghost predicate CrashAt(events: seq<Event>, k: nat, m: nat, disk: Files)
    requires Plain(events)
  {
    && m <= |events| && k <= |LogOf(OpsOf(events))|
    && Plain(events[..m]) && OpsOf(events[..m]) == Surviving(OpsOf(events), k)
    && PrefixOf(Play(events[..m]).flushed, disk)
  }

  /** Every committed file on disk has exactly its committed contents, the other files are as
      they were. */
  ghost function Restored(s: Session, disk: Files): Files {
    map n | n in disk :: if n in s.committed then s.committed[n] else disk[n]
  }

  /** However a session is cut short, with the log ending at any byte and unflushed data in
      any state, recovery restores what was committed. */
  lemma {:induction false} CrashRestoresCommittedContents(events: seq<Event>, k: nat, m: nat, disk: Files)
    requires Plain(events) && CrashAt(events, k, m, disk) && AllCovered(events[..m])
    ensures Recovered(disk, LogOf(OpsOf(events))[..k]) == Restored(Play(events[..m]), disk)
  {
    CrashFindsSizes(events, k, m, disk);
    CommittedIsFlushedExactly(events[..m]);
    assert events[..m][..m] == events[..m];
    FlushedIsRestored(Play(events[..m]), disk);
  }

  lemma FlushedIsRestored(s: Session, disk: Files)
    requires CommittedFlushed(s) && PrefixOf(s.flushed, disk)
    ensures Resized(disk, Sizes(s.committed)) == Restored(s, disk)
  {
    CommittedOnDisk(s, disk);
    forall n | n in disk && n in s.committed
      ensures Resize(disk[n], |s.committed[n]|) == s.committed[n]
    {
      assert s.committed[n] == disk[n][..|s.committed[n]|];
    }
  }

  lemma {:induction false} CrashFindsSizes(events: seq<Event>, k: nat, m: nat, disk: Files)
    requires Plain(events) && CrashAt(events, k, m, disk)
    ensures Recovered(disk, LogOf(OpsOf(events))[..k]) == Resized(disk, Sizes(Play(events[..m]).committed))
  {
    CrashAtAnyByte(OpsOf(events), k, NOTHING);
    LogTellsSizes(events[..m]);
  }

  lemma CommittedOnDisk(s: Session, disk: Files)
    requires CommittedFlushed(s) && PrefixOf(s.flushed, disk)
    ensures forall n :: n in s.committed && n in disk ==> s.committed[n] <= disk[n]
  {
    forall n | n in s.committed && n in disk
      ensures s.committed[n] <= disk[n]
    {
      assert s.committed[n] <= Content(s.flushed, n);
      if n in s.flushed {
        assert s.flushed[n] <= Content(disk, n);
      }
    }
  }

  /** Every crash of the session is recovered from. */
  ghost predicate AlwaysRestores(events: seq<Event>)
    requires Plain(events)
  {
    forall k: nat, m: nat, disk: Files :: CrashAt(events, k, m, disk) ==>
      Recovered(disk, LogOf(OpsOf(events))[..k]) == Restored(Play(events[..m]), disk)
  }

  /** Recovery is right after every crash, if and only if every commit is given the handles
      it needs. */
  lemma {:induction false} RecoveryRestoresExactly(events: seq<Event>)
    requires Plain(events)
    ensures AlwaysRestores(events) <==> AllCovered(events)
  {
    if AllCovered(events) {
      forall k: nat, m: nat, disk: Files | CrashAt(events, k, m, disk)
        ensures Recovered(disk, LogOf(OpsOf(events))[..k]) == Restored(Play(events[..m]), disk)
      {
        AllCoveredPrefix(events, m);
        CrashRestoresCommittedContents(events, k, m, disk);
      }
    } else {
      CommittedIsFlushedExactly(events);
      var m: nat :| m <= |events| && !CommittedFlushed(Play(events[..m]));
      var k, disk := CrashThatLoses(events, m);
    }
  }

  lemma {:induction false} AllCoveredPrefix(events: seq<Event>, m: nat)
    requires AllCovered(events) && m <= |events|
    ensures AllCovered(events[..m])
  {
    if m < |events| {
      var front := events[..|events| - 1];
      AllCoveredPrefix(front, m);
      assert front[..m] == events[..m];
    } else {
      assert events[..m] == events;
    }
  }

  /** Behind a commit whose files are not all flushed: the log ends there, and the file is
      followed by a byte that was never written to it. */
  lemma {:induction false} CrashThatLoses(events: seq<Event>, m: nat) returns (k: nat, disk: Files)
    requires Plain(events) && m <= |events| && !CommittedFlushed(Play(events[..m]))
    ensures CrashAt(events, k, m, disk)
    ensures Recovered(disk, LogOf(OpsOf(events))[..k]) != Restored(Play(events[..m]), disk)
  {
    k := LogUpTo(events, m);
    disk := GarbageBehind(Play(events[..m]));
    CrashFindsSizes(events, k, m, disk);
  }

  lemma {:induction false} LogUpTo(events: seq<Event>, m: nat) returns (k: nat)
    requires Plain(events) && m <= |events|
    ensures k <= |LogOf(OpsOf(events))| && Plain(events[..m]) && OpsOf(events[..m]) == Surviving(OpsOf(events), k)
  {
    var rest := OpsOfPrefix(events, m);
    k := |LogOf(OpsOf(events[..m]))|;
    SurvivingPrefix(OpsOf(events[..m]), rest);
  }

  lemma {:induction false} GarbageBehind(s: Session) returns (disk: Files)
    requires !CommittedFlushed(s)
    ensures PrefixOf(s.flushed, disk) && Resized(disk, Sizes(s.committed)) != Restored(s, disk)
  {
    var n :| n in s.committed && !(s.committed[n] <= Content(s.flushed, n));
    var kept, committed := Content(s.flushed, n), s.committed[n];
    var garbage := OtherByte(kept, committed);
    disk := s.flushed[n := kept + [garbage]];
    assert Resized(disk, Sizes(s.committed))[n] != Restored(s, disk)[n];
  }

  lemma OtherByte(kept: seq<byte>, committed: seq<byte>) returns (garbage: byte)
    requires !(committed <= kept)
    ensures Resize(kept + [garbage], |committed|) != committed
  {
    garbage := 0;
    if |kept| < |committed| {
      if committed[|kept|] == 0 {
        garbage := 1;
      }
      assert Resize(kept + [garbage], |committed|)[|kept|] == garbage;
    } else {
      assert Resize(kept + [garbage], |committed|) == kept[..|committed|];
    }
  }

  lemma {:induction false} OpsOfPrefix(events: seq<Event>, m: nat) returns (rest: seq<Op>)
    requires Plain(events) && m <= |events|
    ensures Plain(events[..m]) && OpsOf(events) == OpsOf(events[..m]) + rest
  {
    PlainPrefix(events, m);
    if m == |events| {
      assert events[..m] == events;
      rest := [];
    } else {
      var front, e := events[..|events| - 1], events[|events| - 1];
      PlainLast(events, front, e);
      assert front[..m] == events[..m];
      rest := OpsOfPrefix(front, m);
      if !e.AppendTo? {
        rest := rest + [OpsOf(events)[|OpsOf(front)|]];
      }
    }
  }

  /** A log cut behind some calls keeps exactly these. */
  lemma {:induction false} SurvivingPrefix(a: seq<Op>, b: seq<Op>)
    ensures |LogOf(a)| <= |LogOf(a + b)| && Surviving(a + b, |LogOf(a)|) == a
  {
    if a == [] {
      assert a + b == b;
    } else {
      FirstOfBoth(a, b);
      SurvivingPrefix(a[1..], b);
    }
  }

  lemma FirstOfBoth(a: seq<Op>, b: seq<Op>)
    requires a != []
    ensures (a + b)[0] == a[0] && (a + b)[1..] == a[1..] + b && a == [a[0]] + a[1..]
  {
  }

  /** A commit without the handle of a declared file: recovery finds a zero for the committed
      byte. */
  lemma {:induction false} CommitWithoutHandleLoses(name: Name, events: seq<Event>, disk: Files)
    requires events == [AppendTo(name, [1]), DeclareLength(name), CommitSlice(0, {})] && disk == map[name := []]
    requires |name| < 256
    ensures Plain(events) && PrefixOf(Play(events).flushed, disk) && Play(events).committed == map[name := [1]]
    ensures Recovered(disk, LogOf(OpsOf(events))) == map[name := [0]]
  {
    SmallSession(name, events);
    var ops, k := OpsOf(events), |LogOf(OpsOf(events))|;
    SurvivingPrefix(ops, []);
    assert ops + [] == ops && events[..3] == events && LogOf(ops)[..k] == LogOf(ops);
    CrashFindsSizes(events, k, 3, disk);
    OneByteLost(name, disk, Play(events).committed);
  }

  lemma OneByteLost(name: Name, disk: Files, committed: Files)
    requires disk == map[name := []] && committed == map[name := [1]]
    ensures Resized(disk, Sizes(committed)) == map[name := [0]]
  {
    assert Resize([], 1) == [0];
    assert Sizes(committed) == map[name := 1];
  }

  lemma {:induction false} SmallSession(name: Name, events: seq<Event>)
    requires events == [AppendTo(name, [1]), DeclareLength(name), CommitSlice(0, {})] && |name| < 256
    ensures Plain(events) && Play(events).flushed == map[] && Play(events).committed == map[name := [1]]
  {
    var a, b := events[..1], events[..2];
    assert a == [] + [events[0]] && b == a + [events[1]] && events == b + [events[2]];
    PlayPush([], events[0]);
    PlayPush(a, events[1]);
    PlayPush(b, events[2]);
    SmallSteps(name, Play(a), Play(b), Play(events));
  }

  lemma SmallSteps(name: Name, a: Session, b: Session, c: Session)
    requires a == After(NEW_SESSION, AppendTo(name, [1])) && b == After(a, DeclareLength(name))
    requires c == After(b, CommitSlice(0, {}))
    ensures |Content(a.contents, name)| == 1 && c.flushed == map[] && c.committed == map[name := [1]]
  {
    assert [] + [1] == [1];
  }

  lemma {:induction false} PlayPush(front: seq<Event>, e: Event)
    ensures Play(front + [e]) == After(Play(front), e)
  {
    assert (front + [e])[..|front|] == front;
  }

  /** There is always such a point in the session. */
  lemma {:induction false} SurvivingIsAPoint(events: seq<Event>, k: nat) returns (m: nat)
    requires Plain(events)
    ensures m <= |events| && Plain(events[..m]) && OpsOf(events[..m]) == Surviving(OpsOf(events), k)
  {
    if events == [] {
      m := 0;
    } else {
      var front := events[..|events| - 1];
      PlainPrefix(events, |events| - 1);
      m := SurvivingIsAPoint(front, k);
      assert front[..m] == events[..m];
      PlainPrefix(events, |events|);
      assert events[..|events|] == events;
      var ops := OpsOf(events);
      if !events[|events| - 1].AppendTo? {
        assert ops == OpsOf(front) + [ops[|ops| - 1]];
        if Surviving(ops, k) != Surviving(OpsOf(front), k) {
          SurvivingPush(OpsOf(front), ops[|ops| - 1], k);
          m := |events|;
        }
      }
    }
  }

  lemma PushFirst(ops: seq<Op>, op: Op)
    requires ops != []
    ensures (ops + [op])[1..] == ops[1..] + [op] && ops + [op] == [ops[0]] + (ops[1..] + [op])
  {
  }

  /** One call more survives, or nothing changes. */
  lemma {:induction false} SurvivingPush(ops: seq<Op>, op: Op, k: nat)
    ensures Surviving(ops + [op], k) == Surviving(ops, k) || Surviving(ops + [op], k) == ops + [op]
  {
    var size := |OpBytes((ops + [op])[0])|;
    if ops == [] {
      assert ([op])[1..] == [];
    } else if size <= k {
      PushFirst(ops, op);
      SurvivingPush(ops[1..], op, k - size);
    }
  }
}
