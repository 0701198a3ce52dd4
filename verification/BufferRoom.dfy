/** The batch rendezvous as atomic steps of any number of threads
    (`libs/evolving_disk_state/include/evolving_disk_state/buffer_room.hpp`).
    A thread's program counter says which call it is in and which locks it holds. */
module BufferRooms {
  import opened Wrappers

  type Tid = nat

  datatype Pc<T> =
    | Idle
      // Feed
    | FeedEnter(item: T)      // wants the state mutex
    | FeedTest(item: T)       // holds it, evaluates the wait predicate
    | FeedSleep(item: T)      // in cv_producer_.wait
    | FeedLockData(item: T)   // holds it, wants the data mutex exclusively
    | FeedPush(item: T)       // holds both
    | FeedNotify              // holds the state mutex, data released
      // with_contents_when_filled
    | FullEnter
    | FullTest
    | FullSleep               // in cv_consumer_.wait
      // with_current_contents
    | CurrentEnter
    | CurrentTest
      // the registered part of both; `full` tells them apart
    | ReadLockData(full: bool)
    | ReadLambda(full: bool)  // holds the data mutex shared
    | ReadLeave(full: bool)   // wants the state mutex
    | ReadUnregister(full: bool)
      // Discard
    | DiscardEnter
    | DiscardSet
    | DiscardTest
    | DiscardSleep            // in cv_discard_.wait
    | DiscardWake
    | DiscardLockData         // holds nothing, wants the data mutex exclusively
    | DiscardClear
    | DiscardRelock
    | DiscardReset

  datatype Cv = Producer | Consumer | Discarder

  datatype Call<T> = Feed(item: T) | WithContentsWhenFilled | WithCurrentContents | Discard

  /** `state` and `data` are the exclusive owners of the mutexes and `shared` the readers
      of the data mutex. `purged` lists the items whose disk state was purged and
      `discarder` is the thread inside `Discard`. */
  datatype Room<T> = Room(
    items: seq<T>, active: nat, discarding: bool, purged: seq<T>,
    state: Option<Tid>, data: Option<Tid>, shared: set<Tid>, discarder: Option<Tid>,
    pc: map<Tid, Pc<T>>)

  predicate HoldsState<T>(p: Pc<T>) {
    p.FeedTest? || p.FeedLockData? || p.FeedPush? || p.FeedNotify? || p.FullTest? || p.CurrentTest?
    || p.ReadUnregister? || p.DiscardSet? || p.DiscardTest? || p.DiscardReset?
  }

  predicate HoldsData<T>(p: Pc<T>) {
    p.FeedPush? || p.DiscardClear?
  }

  predicate Sleeping<T>(p: Pc<T>) {
    p.FeedSleep? || p.FullSleep? || p.DiscardSleep?
  }

  predicate Registered<T>(p: Pc<T>) {
    p.ReadLockData? || p.ReadLambda? || p.ReadLeave? || p.ReadUnregister?
  }

  /** Between a worker's registration and the end of its call. */
  predicate Worker<T>(p: Pc<T>) {
    Registered(p) && p.full
  }

  predicate InFeed<T>(p: Pc<T>) {
    p.FeedEnter? || p.FeedTest? || p.FeedSleep? || p.FeedLockData? || p.FeedPush? || p.FeedNotify?
  }

  predicate InRead<T>(p: Pc<T>) {
    p.FullEnter? || p.FullTest? || p.FullSleep? || p.CurrentEnter? || p.CurrentTest? || Registered(p)
  }

  predicate InDiscard<T>(p: Pc<T>) {
    p.DiscardEnter? || p.DiscardSet? || FlagSet(p)
  }

  predicate FlagSet<T>(p: Pc<T>) {
    p.DiscardTest? || p.DiscardSleep? || p.DiscardWake? || Drained(p)
  }

  /** Past the wait for the readers. */
  predicate Drained<T>(p: Pc<T>) {
    p.DiscardLockData? || p.DiscardClear? || p.DiscardRelock? || p.DiscardReset?
  }

  // ---------------------------------------------------------------- steps

  predicate WantsState<T>(p: Pc<T>) {
    p.FeedEnter? || p.FullEnter? || p.CurrentEnter? || p.ReadLeave? || p.DiscardEnter? || p.DiscardWake?
    || p.DiscardRelock?
  }

  predicate Enabled<T>(s: Room<T>, t: Tid) {
    && t in s.pc
    && var p := s.pc[t];
    && !p.Idle? && !Sleeping(p)
    && (WantsState(p) ==> s.state.None?)
    && (p.FeedLockData? || p.DiscardLockData? ==> s.data.None? && s.shared == {})
    && (p.ReadLockData? ==> s.data.None?)
  }

  function WakeOne<T>(p: Pc<T>, cv: Cv): Pc<T> {
    if cv.Producer? && p.FeedSleep? then FeedEnter(p.item)
    else if cv.Consumer? && p.FullSleep? then FullEnter
    else if cv.Discarder? && p.DiscardSleep? then DiscardWake
    else p
  }

  /** `notify_all` */
  function Wake<T>(s: Room<T>, cv: Cv): Room<T> {
    s.(pc := map t | t in s.pc :: WakeOne(s.pc[t], cv))
  }

  function Goto<T>(s: Room<T>, t: Tid, p: Pc<T>): Room<T> {
    s.(pc := s.pc[t := p])
  }

  function Lock<T>(s: Room<T>, t: Tid, p: Pc<T>): Room<T> {
    Goto(s.(state := Some(t)), t, p)
  }

  function Unlock<T>(s: Room<T>, t: Tid, p: Pc<T>): Room<T> {
    Goto(s.(state := None), t, p)
  }

  function DoFeed<T>(s: Room<T>, t: Tid, C: nat): Room<T>
    requires t in s.pc && InFeed(s.pc[t])
  {
    match s.pc[t]
    case FeedEnter(x) => Lock(s, t, FeedTest(x))
    case FeedTest(x) =>
      if |s.items| < C && !s.discarding then Goto(s, t, FeedLockData(x)) else Unlock(s, t, FeedSleep(x))
    case FeedSleep(_) => s
    case FeedLockData(x) => Goto(s.(data := Some(t)), t, FeedPush(x))
    case FeedPush(x) => Goto(s.(items := s.items + [x], data := None), t, FeedNotify)
    case FeedNotify => Unlock(if |s.items| == C then Wake(s, Consumer) else s, t, Idle)
  }

  function DoRead<T>(s: Room<T>, t: Tid, C: nat): Room<T>
    requires t in s.pc && InRead(s.pc[t]) && (s.pc[t].ReadUnregister? ==> s.active > 0)
  {
    match s.pc[t]
    case FullEnter => Lock(s, t, FullTest)
    case FullTest =>
      if s.discarding then Unlock(s, t, Idle)
      else if |s.items| == C then Unlock(s.(active := s.active + 1), t, ReadLockData(true))
      else Unlock(s, t, FullSleep)
    case FullSleep => s
    case CurrentEnter => Lock(s, t, CurrentTest)
    case CurrentTest =>
      if s.discarding then Unlock(s, t, Idle)
      else Unlock(s.(active := s.active + 1), t, ReadLockData(false))
    case ReadLockData(full) => Goto(s.(shared := s.shared + {t}), t, ReadLambda(full))
    case ReadLambda(full) => Goto(s.(shared := s.shared - {t}), t, ReadLeave(full))
    case ReadLeave(full) => Lock(s, t, ReadUnregister(full))
    case ReadUnregister(_) =>
      var s' := s.(active := s.active - 1);
      Unlock(if s'.active == 0 && s.discarding then Wake(s', Discarder) else s', t, Idle)
  }

  function DoDiscard<T>(s: Room<T>, t: Tid): Room<T>
    requires t in s.pc && InDiscard(s.pc[t])
  {
    match s.pc[t]
    case DiscardEnter => Lock(s, t, DiscardSet)
    case DiscardSet => Goto(Wake(s.(discarding := true), Consumer), t, DiscardTest)
    case DiscardTest => Unlock(s, t, if s.active == 0 then DiscardLockData else DiscardSleep)
    case DiscardSleep => s
    case DiscardWake => Lock(s, t, DiscardTest)
    case DiscardLockData => Goto(s.(data := Some(t)), t, DiscardClear)
    case DiscardClear =>
      Goto(s.(purged := s.purged + s.items, items := [], data := None), t, DiscardRelock)
    case DiscardRelock => Lock(s, t, DiscardReset)
    case DiscardReset => Unlock(Wake(s.(discarding := false, discarder := None), Producer), t, Idle)
  }

  /** The next atomic action of a thread that is inside a call. */
  function Do<T>(s: Room<T>, t: Tid, C: nat): Room<T>
    requires Enabled(s, t) && (s.pc[t].ReadUnregister? ==> s.active > 0)
  {
    if InFeed(s.pc[t]) then DoFeed(s, t, C)
    else if InRead(s.pc[t]) then DoRead(s, t, C)
    else DoDiscard(s, t)
  }

  /** A thread outside the room starts a call. */
  function Start<T>(s: Room<T>, t: Tid, call: Call<T>): Room<T> {
    match call
    case Feed(x) => Goto(s, t, FeedEnter(x))
    case WithContentsWhenFilled => Goto(s, t, FullEnter)
    case WithCurrentContents => Goto(s, t, CurrentEnter)
    case Discard => Goto(s.(discarder := Some(t)), t, DiscardEnter)
  }

  /** A sleeping thread returns from its wait without having been notified. */
  function Spurious<T>(s: Room<T>, t: Tid): Room<T>
    requires t in s.pc
  {
    Goto(s, t, WakeOne(WakeOne(WakeOne(s.pc[t], Producer), Consumer), Discarder))
  }

  datatype Step<T> = DoStep(t: Tid) | StartStep(t: Tid, call: Call<T>) | SpuriousStep(t: Tid)

  /** One step of one thread. Callers never discard twice at a time. */
  ghost predicate StepTo<T>(s: Room<T>, step: Step<T>, s': Room<T>, C: nat) {
    match step
    case DoStep(t) =>
      Enabled(s, t) && (s.pc[t].ReadUnregister? ==> s.active > 0) && s' == Do(s, t, C)
    case StartStep(t, call) =>
      && t in s.pc && s.pc[t].Idle? && (call.Discard? ==> s.discarder.None?)
      && s' == Start(s, t, call)
    case SpuriousStep(t) => t in s.pc && Sleeping(s.pc[t]) && s' == Spurious(s, t)
  }

  ghost predicate Next<T(!new)>(s: Room<T>, s': Room<T>, C: nat) {
    exists step :: StepTo(s, step, s', C)
  }

  /** No call in progress; items may have been put in at start-up. */
  ghost predicate Init<T>(s: Room<T>, C: nat) {
    && |s.items| <= C && s.active == 0 && !s.discarding && s.purged == []
    && s.state.None? && s.data.None? && s.shared == {} && s.discarder.None?
    && forall t :: t in s.pc ==> s.pc[t].Idle?
  }

  ghost predicate Run<T(!new)>(tr: seq<Room<T>>, C: nat) {
    && tr != [] && Init(tr[0], C)
    && forall i, j {:trigger Next(tr[i], tr[j], C)} :: 0 <= i && j == i + 1 && j < |tr| ==> Next(tr[i], tr[j], C)
  }

  // ---------------------------------------------------------------- the invariant

  function RegisteredSet<T>(s: Room<T>): set<Tid> {
    set t | t in s.pc && Registered(s.pc[t])
  }

  predicate Notifying<T>(s: Room<T>) {
    s.state.Some? && s.state.value in s.pc && s.pc[s.state.value].FeedNotify?
  }

  /** What the program counter of one thread says about the shared state. */
  ghost predicate ThreadOk<T>(s: Room<T>, t: Tid, C: nat)
    requires t in s.pc
  {
    PcOk(s, t, s.pc[t], C)
  }

  ghost predicate PcOk<T>(s: Room<T>, t: Tid, p: Pc<T>, C: nat) {
    && (HoldsState(p) <==> s.state == Some(t))
    && (HoldsData(p) <==> s.data == Some(t))
    && (p.ReadLambda? <==> t in s.shared)
    && (InDiscard(p) <==> s.discarder == Some(t))
    && (FlagSet(p) ==> s.discarding)
    && (p.FeedLockData? || p.FeedPush? ==> |s.items| < C && !s.discarding)
    && (p.FeedNotify? ==> !s.discarding)
    && (p.FeedSleep? ==> |s.items| == C || s.discarding)
    && (p.FullSleep? ==> !s.discarding && (|s.items| < C || Notifying(s)))
    && (p.DiscardSleep? ==> s.active > 0)
    && (Drained(p) ==> s.active == 0)
    && (p.DiscardRelock? || p.DiscardReset? ==> s.items == [])
    && (Worker(p) ==> |s.items| == C)
  }

  ghost predicate Inv<T>(s: Room<T>, C: nat) {
    && |s.items| <= C
    && s.active == |RegisteredSet(s)|
    && (s.data.Some? ==> s.shared == {})
    && (s.state.Some? ==> s.state.value in s.pc)
    && (s.data.Some? ==> s.data.value in s.pc)
    && s.shared <= s.pc.Keys
    && (s.discarding ==> s.discarder.Some?)
    && (s.discarder.Some? ==> s.discarder.value in s.pc)
    && (s.discarding ==> FlagSet(s.pc[s.discarder.value]))
    && forall t :: t in s.pc ==> ThreadOk(s, t, C)
  }
}
