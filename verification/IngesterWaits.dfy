/** The waits and notifications of the ingester buffer as atomic steps of any number of feeders and
    flushers, one worker, and whoever stops them (`apps/wedding_cake/include/ingester_buffer.hpp`,
    `ingestor_worker.hpp`, `ingester.hpp`). */
module IngesterWaits {
  import opened Wrappers
  import opened DonutEntries
  import opened DonutFiles
  import Ingestions

  type Tid = nat

  datatype Pc =
    | Outside
      // feed_block_of_hashes, with the length of the block
    | FeedEnter(n: nat)       // wants the mutex
    | FeedTest(n: nat)        // holds it, evaluates the wait predicate
    | FeedSleep(n: nat)       // in can_feed_cv_.wait
    | FeedInsert(n: nat)      // holds it
    | FeedNotify              // holds it
      // flush
    | FlushEnter
    | FlushTest
    | FlushNotify
    | FlushWait
    | FlushSleep              // in flush_done_cv_.wait
    | FlushRelock
      // the worker: its outer loop, and with_at_least_n_hashes
    | WorkLoop
    | WorkEnter
    | WorkTest
    | WorkSleep               // in has_items_cv_.wait
    | WorkLambda(flushing: bool)
    | WorkReset(flushing: bool)
    | WorkNotifyFlush
    | WorkNotifyFeed
    | WorkDone
      // stop, which notifies without the mutex
    | StopEnter
    | StopSet
    | StopNotifyFeed
    | StopNotifyItems
    | StopNotifyFlush

  datatype Cv = CanFeed | HasItems | FlushDone

  /** `Destroy` is the destructor of the ingester: it requests the worker's end, then stops. */
  datatype Call = Feed(n: nat) | Flush | Stop | Destroy

  /** The fields that the wait predicates are about, and whether the worker was asked to end. */
  datatype Fields = Fields(queued: nat, remaining: nat, pleaseFlush: bool, stopping: bool, requested: bool)

  datatype Buffer = Buffer(fields: Fields, mutex: Option<Tid>, worker: Tid, pc: map<Tid, Pc>)

  predicate HoldsMutex(p: Pc) {
    p.FeedTest? || p.FeedInsert? || p.FeedNotify? || p.FlushTest? || p.FlushNotify? || p.FlushWait?
    || p.WorkTest? || p.WorkLambda? || p.WorkReset? || p.WorkNotifyFlush? || p.WorkNotifyFeed? || p.StopSet?
  }

  predicate WantsMutex(p: Pc) {
    p.FeedEnter? || p.FlushEnter? || p.FlushRelock? || p.WorkEnter? || p.StopEnter?
  }

  predicate Sleeping(p: Pc) {
    p.FeedSleep? || p.FlushSleep? || p.WorkSleep?
  }

  predicate InWork(p: Pc) {
    p.WorkLoop? || p.WorkEnter? || p.WorkTest? || p.WorkSleep? || p.WorkLambda? || p.WorkReset?
    || p.WorkNotifyFlush? || p.WorkNotifyFeed? || p.WorkDone?
  }

  // ---------------------------------------------------------------- the wait predicates

  predicate FeedReady(f: Fields) {
    f.queued < f.remaining || f.stopping
  }

  predicate ItemsReady(f: Fields) {
    f.queued >= f.remaining || f.pleaseFlush || f.stopping
  }

  predicate FlushReady(f: Fields) {
    !f.pleaseFlush || f.stopping
  }

  predicate Ready(f: Fields, cv: Cv) {
    match cv
    case CanFeed => FeedReady(f)
    case HasItems => ItemsReady(f)
    case FlushDone => FlushReady(f)
  }

  function WaitsOn(p: Pc): Cv
    requires Sleeping(p)
  {
    if p.FeedSleep? then CanFeed else if p.WorkSleep? then HasItems else FlushDone
  }

  // ---------------------------------------------------------------- one atomic action

  /** Where a thread is after its action. */
  function After(f: Fields, p: Pc): Pc {
    match p
    case FeedEnter(n) => FeedTest(n)
    case FeedTest(n) => if !FeedReady(f) then FeedSleep(n) else if f.stopping then Outside else FeedInsert(n)
    case FeedInsert(_) => FeedNotify
    case FeedNotify => Outside
    case FlushEnter => FlushTest
    case FlushTest => if f.queued == 0 then Outside else FlushNotify
    case FlushNotify => FlushWait
    case FlushWait => if FlushReady(f) then Outside else FlushSleep
    case FlushRelock => FlushWait
    case WorkLoop => if f.requested then WorkDone else WorkEnter
    case WorkEnter => WorkTest
    case WorkTest =>
      if !ItemsReady(f) then WorkSleep
      else if f.stopping && f.queued == 0 then WorkLoop
      else WorkLambda(f.pleaseFlush)
    case WorkLambda(flushing) => WorkReset(flushing)
    case WorkReset(flushing) => if flushing then WorkNotifyFlush else WorkNotifyFeed
    case WorkNotifyFlush => WorkNotifyFeed
    case WorkNotifyFeed => WorkLoop
    case StopEnter => StopSet
    case StopSet => StopNotifyFeed
    case StopNotifyFeed => StopNotifyItems
    case StopNotifyItems => StopNotifyFlush
    case StopNotifyFlush => Outside
    case _ => p
  }

  /** What it does to the fields; `r` is what the lambda returns, the capacity left downstream. */
  function Changed(f: Fields, p: Pc, r: nat): Fields {
    match p
    case FeedInsert(n) => f.(queued := f.queued + n)
    case FlushTest => f.(pleaseFlush := f.pleaseFlush || f.queued > 0)
    case WorkLambda(_) => f.(queued := 0, remaining := r)
    case WorkReset(flushing) => f.(pleaseFlush := f.pleaseFlush && !flushing)
    case StopSet => f.(stopping := true, pleaseFlush := false)
    case _ => f
  }

  /** Whom it notifies. Only the worker ever waits for items, so `notify_one` there is `notify_all`. */
  function Notified(p: Pc): Option<Cv> {
    match p
    case FeedNotify => Some(HasItems)
    case FlushNotify => Some(HasItems)
    case WorkNotifyFlush => Some(FlushDone)
    case WorkNotifyFeed => Some(CanFeed)
    case StopNotifyFeed => Some(CanFeed)
    case StopNotifyItems => Some(HasItems)
    case StopNotifyFlush => Some(FlushDone)
    case _ => None
  }

  function Awake(p: Pc): Pc {
    match p
    case FeedSleep(n) => FeedEnter(n)
    case WorkSleep => WorkEnter
    case FlushSleep => FlushRelock
    case _ => p
  }

  function WakeOne(p: Pc, cv: Option<Cv>): Pc {
    if Sleeping(p) && cv == Some(WaitsOn(p)) then Awake(p) else p
  }

  // ---------------------------------------------------------------- steps

  predicate Enabled(s: Buffer, t: Tid) {
    && t in s.pc
    && var p := s.pc[t];
    && !p.Outside? && !p.WorkDone? && !Sleeping(p)
    && (WantsMutex(p) ==> s.mutex.None?)
  }

  /** The mutex is taken and given back where the program counter enters and leaves the places
      that hold it. */
  function Do(s: Buffer, t: Tid, r: nat): Buffer
    requires Enabled(s, t)
  {
    var p, p' := s.pc[t], After(s.fields, s.pc[t]);
    Buffer(
      Changed(s.fields, p, r),
      if HoldsMutex(p') then Some(t) else if HoldsMutex(p) then None else s.mutex,
      s.worker,
      map u | u in s.pc :: if u == t then p' else WakeOne(s.pc[u], Notified(p)))
  }

  function Begin(s: Buffer, t: Tid, call: Call): Buffer {
    match call
    case Feed(n) => s.(pc := s.pc[t := FeedEnter(n)])
    case Flush => s.(pc := s.pc[t := FlushEnter])
    case Stop => s.(pc := s.pc[t := StopEnter])
    case Destroy => s.(fields := s.fields.(requested := true), pc := s.pc[t := StopEnter])
  }

  datatype Step = DoStep(t: Tid, r: nat) | BeginStep(t: Tid, call: Call) | SpuriousStep(t: Tid)

  /** An action, a new call, or a wake-up without a notification. */
  ghost predicate StepTo(s: Buffer, step: Step, s': Buffer) {
    match step
    case DoStep(t, r) => Enabled(s, t) && r > 0 && s' == Do(s, t, r)
    case BeginStep(t, call) => t in s.pc && s.pc[t].Outside? && s' == Begin(s, t, call)
    case SpuriousStep(t) => t in s.pc && Sleeping(s.pc[t]) && s' == s.(pc := s.pc[t := Awake(s.pc[t])])
  }

  /** The worker is about to loop, everybody else is outside. */
  ghost predicate Init(s: Buffer) {
    && s.fields.queued == 0 && s.fields.remaining > 0 && !s.fields.pleaseFlush && !s.fields.stopping
    && !s.fields.requested && s.mutex.None?
    && s.worker in s.pc && s.pc[s.worker] == WorkLoop
    && forall t :: t in s.pc && t != s.worker ==> s.pc[t].Outside?
  }

  ghost predicate Run(tr: seq<Buffer>, steps: seq<Step>) {
    && |tr| == |steps| + 1 && Init(tr[0])
    && forall i :: 0 <= i < |steps| ==> StepTo(tr[i], steps[i], tr[i + 1])
  }

  // ---------------------------------------------------------------- the invariant

  /** A thread that has yet to notify, in the call it is in. */
  predicate Notifies(p: Pc, cv: Cv) {
    match cv
    case CanFeed => p.StopNotifyFeed? || p.WorkReset? || p.WorkNotifyFlush? || p.WorkNotifyFeed?
    case HasItems => p.FeedNotify? || p.FlushNotify? || p.StopNotifyFeed? || p.StopNotifyItems?
    case FlushDone => p.StopNotifyFeed? || p.StopNotifyItems? || p.StopNotifyFlush? || p.WorkNotifyFlush?
  }

  ghost predicate Pending(s: Buffer, cv: Cv) {
    exists u :: u in s.pc && Notifies(s.pc[u], cv)
  }

  /** A sleeper whose wait is over will be notified. */
  ghost predicate SleeperOk(s: Buffer, p: Pc) {
    Sleeping(p) && Ready(s.fields, WaitsOn(p)) ==> Pending(s, WaitsOn(p))
  }

  ghost predicate PcOk(f: Fields, mutex: Option<Tid>, worker: Tid, t: Tid, p: Pc) {
    && (HoldsMutex(p) <==> mutex == Some(t))
    && (InWork(p) <==> t == worker)
    && (p.FeedInsert? ==> f.queued < f.remaining && !f.stopping)
    && (p.WorkLambda? || p.WorkReset? ==> p.flushing == f.pleaseFlush)
    && (p.WorkDone? ==> f.requested)
  }

  ghost predicate ThreadOk(s: Buffer, t: Tid)
    requires t in s.pc
  {
    PcOk(s.fields, s.mutex, s.worker, t, s.pc[t]) && SleeperOk(s, s.pc[t])
  }

  predicate BeforeStop(p: Pc) {
    p.StopEnter? || p.StopSet?
  }

  /** Whoever requested the end stops the buffer too. */
  ghost predicate StopComes(s: Buffer) {
    s.fields.stopping || exists u :: u in s.pc && BeforeStop(s.pc[u])
  }

  ghost predicate Inv(s: Buffer) {
    && s.worker in s.pc && s.fields.remaining > 0
    && (s.mutex.Some? ==> s.mutex.value in s.pc)
    && (s.fields.requested ==> StopComes(s))
    && forall t :: t in s.pc ==> ThreadOk(s, t)
  }

  // ---------------------------------------------------------------- the invariant is kept

  /** Nobody falls asleep whose wait is over; an action that ends a wait has its notification
      ahead; and a notification that was ahead is still ahead, or is given now. */
  lemma OwnAction(f: Fields, p: Pc, r: nat, cv: Cv)
    requires r > 0 && !Sleeping(p)
    ensures var f', p' := Changed(f, p, r), After(f, p);
            && (Sleeping(p') ==> !Ready(f', WaitsOn(p')))
            && (!Ready(f, cv) && Ready(f', cv) ==> Notifies(p', cv))
            && (Notifies(p, cv) ==> Notifies(p', cv) || Notified(p) == Some(cv))
  {
  }

  lemma OwnPcOk(f: Fields, mutex: Option<Tid>, worker: Tid, t: Tid, p: Pc, r: nat)
    requires PcOk(f, mutex, worker, t, p) && !Sleeping(p) && (WantsMutex(p) ==> mutex.None?)
    requires !p.Outside? && !p.WorkDone?
    ensures var p' := After(f, p);
            PcOk(Changed(f, p, r), if HoldsMutex(p') then Some(t) else if HoldsMutex(p) then None else mutex,
              worker, t, p')
  {
  }

  /** The mutex keeps the actions of others away from what a thread has seen. */
  lemma OtherPcOk(f: Fields, mutex: Option<Tid>, worker: Tid, t: Tid, p: Pc, r: nat, u: Tid, q: Pc)
    requires PcOk(f, mutex, worker, t, p) && PcOk(f, mutex, worker, u, q) && t != u
    requires WantsMutex(p) ==> mutex.None?
    ensures var p' := After(f, p);
            var mutex' := if HoldsMutex(p') then Some(t) else if HoldsMutex(p) then None else mutex;
            && PcOk(Changed(f, p, r), mutex', worker, u, q)
            && (Sleeping(q) ==> PcOk(Changed(f, p, r), mutex', worker, u, Awake(q)))
  {
  }

  lemma KeepsPc(s: Buffer, t: Tid, r: nat, u: Tid)
    requires Enabled(s, t) && ThreadOk(s, t) && u in s.pc && ThreadOk(s, u)
    ensures var s' := Do(s, t, r); PcOk(s'.fields, s'.mutex, s'.worker, u, s'.pc[u])
  {
    if u == t {
      OwnPcOk(s.fields, s.mutex, s.worker, t, s.pc[t], r);
    } else {
      OtherPcOk(s.fields, s.mutex, s.worker, t, s.pc[t], r, u, s.pc[u]);
    }
  }

  lemma KeepsSleeper(s: Buffer, t: Tid, r: nat, u: Tid)
    requires Enabled(s, t) && r > 0 && u in s.pc && SleeperOk(s, s.pc[u])
    ensures SleeperOk(Do(s, t, r), Do(s, t, r).pc[u])
  {
    var s' := Do(s, t, r);
    var q := s'.pc[u];
    if Sleeping(q) && Ready(s'.fields, WaitsOn(q)) {
      var cv := WaitsOn(q);
      OwnAction(s.fields, s.pc[t], r, cv);
      assert u != t && q == s.pc[u] && Notified(s.pc[t]) != Some(cv);
      if Ready(s.fields, cv) {
        PendingStays(s, t, r, cv);
      } else {
        assert Notifies(s'.pc[t], cv);
      }
    }
  }

  lemma PendingStays(s: Buffer, t: Tid, r: nat, cv: Cv)
    requires Enabled(s, t) && r > 0 && Pending(s, cv) && Notified(s.pc[t]) != Some(cv)
    ensures Pending(Do(s, t, r), cv)
  {
    var w :| w in s.pc && Notifies(s.pc[w], cv);
    OwnAction(s.fields, s.pc[t], r, cv);
    assert Notifies(Do(s, t, r).pc[w], cv);
  }

  lemma StopStaysAhead(s: Buffer, t: Tid, r: nat)
    requires Enabled(s, t) && StopComes(s)
    ensures StopComes(Do(s, t, r))
  {
    if !s.fields.stopping {
      var u :| u in s.pc && BeforeStop(s.pc[u]);
      assert Do(s, t, r).fields.stopping || BeforeStop(Do(s, t, r).pc[u]);
    }
  }

  lemma DoIsInv(s: Buffer, t: Tid, r: nat)
    requires Inv(s) && Enabled(s, t) && r > 0
    ensures Inv(Do(s, t, r))
  {
    var s' := Do(s, t, r);
    assert ThreadOk(s, t);
    forall u | u in s'.pc
      ensures ThreadOk(s', u)
    {
      assert ThreadOk(s, u);
      KeepsSleeper(s, t, r, u);
      KeepsPc(s, t, r, u);
    }
    if s.fields.requested {
      StopStaysAhead(s, t, r);
    }
  }

  /** Moving a thread that notifies nobody takes no notification away. */
  lemma SamePending(s: Buffer, s': Buffer, t: Tid, cv: Cv)
    requires t in s.pc && t in s'.pc && s'.pc == s.pc[t := s'.pc[t]]
    requires s.pc[t].Outside? || Sleeping(s.pc[t])
    ensures Pending(s, cv) ==> Pending(s', cv)
  {
    if Pending(s, cv) {
      var u :| u in s.pc && Notifies(s.pc[u], cv);
      assert Notifies(s'.pc[u], cv);
    }
  }

  lemma SameStop(s: Buffer, s': Buffer, t: Tid)
    requires t in s.pc && t in s'.pc && s'.pc == s.pc[t := s'.pc[t]] && s'.fields.stopping == s.fields.stopping
    requires s.pc[t].Outside? || Sleeping(s.pc[t])
    ensures StopComes(s) ==> StopComes(s')
  {
    if !s.fields.stopping && StopComes(s) {
      var u :| u in s.pc && BeforeStop(s.pc[u]);
      assert BeforeStop(s'.pc[u]);
    }
  }

  lemma BeginIsInv(s: Buffer, t: Tid, call: Call)
    requires Inv(s) && t in s.pc && s.pc[t].Outside?
    ensures Inv(Begin(s, t, call))
  {
    var s' := Begin(s, t, call);
    assert ThreadOk(s, t);
    forall u | u in s'.pc
      ensures ThreadOk(s', u)
    {
      assert ThreadOk(s, u);
      if Sleeping(s.pc[u]) {
        SamePending(s, s', t, WaitsOn(s.pc[u]));
      }
    }
    SameStop(s, s', t);
    assert call.Destroy? ==> BeforeStop(s'.pc[t]);
  }

  lemma SpuriousIsInv(s: Buffer, t: Tid, s': Buffer)
    requires Inv(s) && t in s.pc && Sleeping(s.pc[t]) && s' == s.(pc := s.pc[t := Awake(s.pc[t])])
    ensures Inv(s')
  {
    assert ThreadOk(s, t);
    forall u | u in s'.pc
      ensures ThreadOk(s', u)
    {
      assert ThreadOk(s, u);
      if Sleeping(s.pc[u]) {
        SamePending(s, s', t, WaitsOn(s.pc[u]));
      }
    }
    SameStop(s, s', t);
  }

  lemma StepIsInv(s: Buffer, step: Step, s': Buffer)
    requires Inv(s) && StepTo(s, step, s')
    ensures Inv(s')
  {
    match step
    case DoStep(t, r) => DoIsInv(s, t, r);
    case BeginStep(t, call) => BeginIsInv(s, t, call);
    case SpuriousStep(t) => SpuriousIsInv(s, t, s');
  }

  lemma {:induction false} RunIsInv(tr: seq<Buffer>, steps: seq<Step>, i: nat)
    requires Run(tr, steps) && i < |tr|
    ensures Inv(tr[i])
  {
    if i > 0 {
      RunIsInv(tr, steps, i - 1);
      StepIsInv(tr[i - 1], steps[i - 1], tr[i]);
    } else {
      forall t | t in tr[0].pc
        ensures ThreadOk(tr[0], t)
      {
      }
    }
  }

  // ---------------------------------------------------------------- what it says

  /** No wake-up is lost: whenever a sleeping feeder, flusher or worker could go on, a thread that
      can move at once has the notification for it ahead. */
  lemma {:induction false} NoWakeUpIsLost(tr: seq<Buffer>, steps: seq<Step>, i: nat, t: Tid)
    requires Run(tr, steps) && i < |tr| && t in tr[i].pc && Sleeping(tr[i].pc[t])
    requires Ready(tr[i].fields, WaitsOn(tr[i].pc[t]))
    ensures exists u :: u in tr[i].pc && Enabled(tr[i], u) && Notifies(tr[i].pc[u], WaitsOn(tr[i].pc[t]))
  {
    RunIsInv(tr, steps, i);
    assert ThreadOk(tr[i], t);
    var u := NotifierMoves(tr[i], WaitsOn(tr[i].pc[t]));
  }

  ghost predicate Stuck(s: Buffer) {
    forall u :: u in s.pc ==> !Enabled(s, u)
  }

  /** If nobody can move, everybody is outside, except that the worker has ended or rightly waits
      for items. */
  lemma {:induction false} NoDeadlock(tr: seq<Buffer>, steps: seq<Step>, i: nat, t: Tid)
    requires Run(tr, steps) && i < |tr| && t in tr[i].pc && Stuck(tr[i])
    ensures var s, p := tr[i], tr[i].pc[t];
            p.Outside? || (t == s.worker && (p.WorkDone? || (p.WorkSleep? && !ItemsReady(s.fields))))
  {
    RunIsInv(tr, steps, i);
    StuckIsIdle(tr[i], t);
  }

  lemma StuckIsIdle(s: Buffer, t: Tid)
    requires Inv(s) && t in s.pc && Stuck(s)
    ensures var p := s.pc[t];
            p.Outside? || (t == s.worker && (p.WorkDone? || (p.WorkSleep? && !ItemsReady(s.fields))))
  {
    StuckIsFree(s);
    assert ThreadOk(s, t) && ThreadOk(s, s.worker);
    assert !Enabled(s, t) && !Enabled(s, s.worker);
  }

  /** Then the mutex is free, no notification is ahead, and a requested stop has come. */
  lemma StuckIsFree(s: Buffer)
    requires Inv(s) && Stuck(s)
    ensures s.mutex.None? && (s.fields.requested ==> s.fields.stopping)
    ensures forall cv :: !Pending(s, cv)
  {
    if s.mutex.Some? {
      HolderMoves(s);
    }
    forall cv
      ensures !Pending(s, cv)
    {
      if Pending(s, cv) {
        var u := NotifierMoves(s, cv);
      }
    }
    if s.fields.requested && !s.fields.stopping && s.mutex.None? {
      var u := StopperMoves(s);
    }
  }

  lemma HolderMoves(s: Buffer)
    requires Inv(s) && s.mutex.Some?
    ensures Enabled(s, s.mutex.value)
  {
    assert ThreadOk(s, s.mutex.value);
  }

  lemma NotifierMoves(s: Buffer, cv: Cv) returns (u: Tid)
    requires Pending(s, cv)
    ensures Enabled(s, u) && Notifies(s.pc[u], cv)
  {
    u :| u in s.pc && Notifies(s.pc[u], cv);
  }

  lemma StopperMoves(s: Buffer) returns (u: Tid)
    requires StopComes(s) && !s.fields.stopping && s.mutex.None?
    ensures Enabled(s, u)
  {
    u :| u in s.pc && BeforeStop(s.pc[u]);
  }

  // ---------------------------------------------------------------- what a call does

  /** A thread that has not returned between two moments. */
  ghost predicate Inside(tr: seq<Buffer>, t: Tid, i: nat, j: nat)
    requires j <= |tr|
  {
    forall m :: i < m < j && t in tr[m].pc ==> !tr[m].pc[t].Outside?
  }

  predicate FeedAhead(p: Pc, n: nat) {
    p == FeedEnter(n) || p == FeedTest(n) || p == FeedSleep(n) || p == FeedInsert(n)
  }

  /** None of the thread's own actions between two moments changes the fields. */
  ghost predicate ChangesNothing(tr: seq<Buffer>, steps: seq<Step>, t: Tid, from: nat, to: nat)
    requires |tr| == |steps| + 1 && to <= |steps|
  {
    forall m :: from <= m < to && steps[m].DoStep? && steps[m].t == t ==> tr[m + 1].fields == tr[m].fields
  }

  /** Exactly one does: it queues the block, while there is space. */
  ghost predicate QueuesOnce(tr: seq<Buffer>, steps: seq<Step>, t: Tid, n: nat, from: nat, to: nat, k: nat)
    requires |tr| == |steps| + 1 && to <= |steps|
  {
    && from <= k < to && steps[k].DoStep? && steps[k].t == t
    && tr[k].fields.queued < tr[k].fields.remaining && !tr[k].fields.stopping
    && tr[k + 1].fields == tr[k].fields.(queued := tr[k].fields.queued + n)
    && ChangesNothing(tr, steps, t, from, k) && ChangesNothing(tr, steps, t, k + 1, to)
  }

  /** Or none does, and one of them found the buffer stopped. */
  ghost predicate WasStopped(tr: seq<Buffer>, steps: seq<Step>, t: Tid, from: nat, to: nat, k: nat)
    requires |tr| == |steps| + 1 && to <= |steps|
  {
    && from <= k < to && steps[k].DoStep? && steps[k].t == t && tr[k].fields.stopping
    && ChangesNothing(tr, steps, t, from, to)
  }

  /** Where a feed is that began at `i`. */
  ghost predicate FeedSoFar(tr: seq<Buffer>, steps: seq<Step>, t: Tid, n: nat, i: nat, j: nat, k: nat)
    requires |tr| == |steps| + 1 && j <= |steps| && t in tr[j].pc
  {
    || (FeedAhead(tr[j].pc[t], n) && ChangesNothing(tr, steps, t, i, j))
    || ((tr[j].pc[t].FeedNotify? || tr[j].pc[t].Outside?) && QueuesOnce(tr, steps, t, n, i, j, k))
    || (tr[j].pc[t].Outside? && WasStopped(tr, steps, t, i, j, k))
  }

  lemma ChangesNothingPush(tr: seq<Buffer>, steps: seq<Step>, t: Tid, from: nat, j: nat)
    requires |tr| == |steps| + 1 && j < |steps| && ChangesNothing(tr, steps, t, from, j)
    requires steps[j].DoStep? && steps[j].t == t ==> tr[j + 1].fields == tr[j].fields
    ensures ChangesNothing(tr, steps, t, from, j + 1)
  {
  }

  lemma OthersKeepFeed(s: Buffer, step: Step, s': Buffer, t: Tid, n: nat)
    requires StepTo(s, step, s') && t in s.pc && (step.DoStep? ==> step.t != t)
    ensures t in s'.pc && (s.pc[t].FeedNotify? ==> s'.pc[t] == s.pc[t])
    ensures FeedAhead(s.pc[t], n) ==> FeedAhead(s'.pc[t], n)
  {
  }

  lemma FeedAction(s: Buffer, t: Tid, r: nat, n: nat)
    requires Inv(s) && Enabled(s, t) && n > 0 && (FeedAhead(s.pc[t], n) || s.pc[t].FeedNotify?)
    ensures var s' := Do(s, t, r);
            && t in s'.pc
            && match s.pc[t]
               case FeedInsert(_) =>
                 && s'.pc[t].FeedNotify? && s'.fields == s.fields.(queued := s.fields.queued + n)
                 && s.fields.queued < s.fields.remaining && !s.fields.stopping
               case FeedNotify => s'.pc[t].Outside? && s'.fields == s.fields
               case _ =>
                 s'.fields == s.fields && (FeedAhead(s'.pc[t], n) || (s'.pc[t].Outside? && s.fields.stopping))
  {
    assert ThreadOk(s, t);
  }

  lemma {:induction false} FeedGoesOn(tr: seq<Buffer>, steps: seq<Step>, t: Tid, n: nat, i: nat, j: nat, k: nat)
    returns (k': nat)
    requires |tr| == |steps| + 1 && i <= j < |steps| && n > 0 && t in tr[j].pc && !tr[j].pc[t].Outside?
    requires Inv(tr[j]) && StepTo(tr[j], steps[j], tr[j + 1]) && FeedSoFar(tr, steps, t, n, i, j, k)
    ensures t in tr[j + 1].pc && FeedSoFar(tr, steps, t, n, i, j + 1, k')
  {
    k' := k;
    if steps[j].DoStep? && steps[j].t == t {
      FeedAction(tr[j], t, steps[j].r, n);
      if FeedAhead(tr[j].pc[t], n) && !FeedAhead(tr[j + 1].pc[t], n) {
        k' := j;
      }
    } else {
      OthersKeepFeed(tr[j], steps[j], tr[j + 1], t, n);
    }
    if steps[j].DoStep? && steps[j].t == t ==> tr[j + 1].fields == tr[j].fields {
      if FeedAhead(tr[j].pc[t], n) {
        ChangesNothingPush(tr, steps, t, i, j);
      } else {
        ChangesNothingPush(tr, steps, t, k + 1, j);
      }
    }
  }

  lemma {:induction false} FeedSoFarInRun(tr: seq<Buffer>, steps: seq<Step>, t: Tid, n: nat, i: nat, j: nat)
    returns (k: nat)
    requires Run(tr, steps) && i < j <= |steps| && steps[i] == BeginStep(t, Feed(n)) && n > 0 && Inside(tr, t, i, j)
    ensures t in tr[j].pc && FeedSoFar(tr, steps, t, n, i + 1, j, k)
  {
    if j == i + 1 {
      k := 0;
      FeedBegins(tr, steps, t, n, i);
    } else {
      k := FeedSoFarInRun(tr, steps, t, n, i, j - 1);
      k := FeedStaysInRun(tr, steps, t, n, i, j - 1, k);
    }
  }

  lemma {:induction false} FeedBegins(tr: seq<Buffer>, steps: seq<Step>, t: Tid, n: nat, i: nat)
    requires Run(tr, steps) && i < |steps| && steps[i] == BeginStep(t, Feed(n))
    ensures t in tr[i + 1].pc && FeedSoFar(tr, steps, t, n, i + 1, i + 1, 0)
  {
    assert StepTo(tr[i], steps[i], tr[i + 1]);
  }

  lemma {:induction false} FeedStaysInRun(tr: seq<Buffer>, steps: seq<Step>, t: Tid, n: nat, i: nat, j: nat, k: nat)
    returns (k': nat)
    requires Run(tr, steps) && i < j < |steps| && n > 0 && Inside(tr, t, i, j + 1)
    requires t in tr[j].pc && FeedSoFar(tr, steps, t, n, i + 1, j, k)
    ensures t in tr[j + 1].pc && FeedSoFar(tr, steps, t, n, i + 1, j + 1, k')
  {
    RunIsInv(tr, steps, j);
    k' := FeedGoesOn(tr, steps, t, n, i + 1, j, k);
  }

  /** A feed that has returned queued its block exactly once, and while there was space for it; or it
      found the buffer stopped and queued nothing. */
  lemma {:induction false} FeedQueuesOnce(tr: seq<Buffer>, steps: seq<Step>, t: Tid, n: nat, i: nat, j: nat)
    returns (k: nat)
    requires Run(tr, steps) && i < j <= |steps| && steps[i] == BeginStep(t, Feed(n)) && n > 0 && Inside(tr, t, i, j)
    requires t in tr[j].pc && tr[j].pc[t].Outside?
    ensures QueuesOnce(tr, steps, t, n, i + 1, j, k) || WasStopped(tr, steps, t, i + 1, j, k)
  {
    k := FeedSoFarInRun(tr, steps, t, n, i, j);
  }

  // ---------------------------------------------------------------- flush

  /** The worker runs its lambda, and knows of the flush. */
  ghost predicate FlushingLambda(s: Buffer, step: Step) {
    step.DoStep? && step.t == s.worker && s.worker in s.pc && s.pc[s.worker] == WorkLambda(true)
  }

  ghost predicate LambdaBetween(tr: seq<Buffer>, steps: seq<Step>, i: nat, j: nat)
    requires |tr| == |steps| + 1 && j <= |steps|
  {
    exists m :: i <= m < j && FlushingLambda(tr[m], steps[m])
  }

  /** The request stands and the worker has not begun to withdraw it. */
  ghost predicate Requested(s: Buffer) {
    s.fields.pleaseFlush && s.worker in s.pc && !s.pc[s.worker].WorkReset?
  }

  predicate InFlushWait(p: Pc) {
    p.FlushNotify? || p.FlushWait? || p.FlushSleep? || p.FlushRelock?
  }

  lemma RequestStands(s: Buffer, step: Step, s': Buffer)
    requires Inv(s) && StepTo(s, step, s') && (s.fields.stopping || Requested(s))
    ensures s'.fields.stopping || Requested(s') || FlushingLambda(s, step)
  {
    assert ThreadOk(s, s.worker);
    if step.DoStep? {
      assert ThreadOk(s, step.t);
    }
  }

  lemma FlushStays(s: Buffer, step: Step, s': Buffer, t: Tid)
    requires Inv(s) && StepTo(s, step, s') && t in s.pc && InFlushWait(s.pc[t])
    ensures t in s'.pc && (InFlushWait(s'.pc[t]) || s'.pc[t].Outside?)
    ensures s'.pc[t].Outside? ==> FlushReady(s.fields) && s'.fields == s.fields
  {
  }

  lemma {:induction false} FlushSoFar(tr: seq<Buffer>, steps: seq<Step>, t: Tid, i: nat, j: nat)
    requires Run(tr, steps) && i < j <= |steps| && steps[i].DoStep? && steps[i].t == t
    requires t in tr[i].pc && tr[i].pc[t].FlushTest? && tr[i].fields.queued > 0 && Inside(tr, t, i, j)
    ensures t in tr[j].pc && (InFlushWait(tr[j].pc[t]) || tr[j].pc[t].Outside?)
    ensures tr[j].fields.stopping || Requested(tr[j]) || LambdaBetween(tr, steps, i, j)
    ensures tr[j].pc[t].Outside? ==> tr[j].fields.stopping || LambdaBetween(tr, steps, i, j)
  {
    RunIsInv(tr, steps, j - 1);
    if j == i + 1 {
      FlushRequests(tr[i], steps[i], tr[i + 1], t);
    } else {
      FlushSoFar(tr, steps, t, i, j - 1);
      FlushStays(tr[j - 1], steps[j - 1], tr[j], t);
      if tr[j - 1].fields.stopping || Requested(tr[j - 1]) {
        RequestStands(tr[j - 1], steps[j - 1], tr[j]);
      }
    }
  }

  lemma FlushRequests(s: Buffer, step: Step, s': Buffer, t: Tid)
    requires Inv(s) && StepTo(s, step, s') && step.DoStep? && step.t == t
    requires t in s.pc && s.pc[t].FlushTest? && s.fields.queued > 0
    ensures t in s'.pc && s'.pc[t].FlushNotify? && Requested(s')
  {
    assert ThreadOk(s, t) && ThreadOk(s, s.worker);
  }

  /** A flush that found slots in the queue and has returned was stopped, or the worker has taken
      the queue since, knowing of the request. */
  lemma {:induction false} FlushWaits(tr: seq<Buffer>, steps: seq<Step>, t: Tid, i: nat, j: nat)
    requires Run(tr, steps) && i < j <= |steps| && steps[i].DoStep? && steps[i].t == t
    requires t in tr[i].pc && tr[i].pc[t].FlushTest? && tr[i].fields.queued > 0 && Inside(tr, t, i, j)
    requires t in tr[j].pc && tr[j].pc[t].Outside?
    ensures tr[j].fields.stopping || LambdaBetween(tr, steps, i, j)
  {
    FlushSoFar(tr, steps, t, i, j);
  }

  /** The action that decides a flush or a stop is still ahead. */
  predicate DecisionAhead(p: Pc, call: Call) {
    match call
    case Feed(_) => false
    case Flush => p.FlushEnter? || p.FlushTest?
    case Stop => p.StopEnter? || p.StopSet?
    case Destroy => p.StopEnter? || p.StopSet?
  }

  predicate Decides(p: Pc, call: Call) {
    DecisionAhead(p, call) && (p.FlushTest? || p.StopSet?)
  }

  lemma DecisionStays(s: Buffer, step: Step, s': Buffer, t: Tid, call: Call)
    requires StepTo(s, step, s') && t in s.pc && DecisionAhead(s.pc[t], call)
    ensures t in s'.pc
    ensures DecisionAhead(s'.pc[t], call) || (step.DoStep? && step.t == t && Decides(s.pc[t], call))
  {
  }

  /** A flush or a stop that has returned came to its decision. */
  lemma {:induction false} CallDecides(tr: seq<Buffer>, steps: seq<Step>, t: Tid, call: Call, i: nat, j: nat)
    returns (k: nat)
    requires Run(tr, steps) && i < j <= |steps| && steps[i] == BeginStep(t, call) && !call.Feed?
    requires t in tr[j].pc && tr[j].pc[t].Outside?
    ensures i < k < j && steps[k].DoStep? && steps[k].t == t && t in tr[k].pc && Decides(tr[k].pc[t], call)
  {
    k := i + 1;
    assert StepTo(tr[i], steps[i], tr[i + 1]);
    while !(steps[k].DoStep? && steps[k].t == t && Decides(tr[k].pc[t], call))
      invariant i < k < j && t in tr[k].pc && DecisionAhead(tr[k].pc[t], call)
      decreases j - k
    {
      DecisionStays(tr[k], steps[k], tr[k + 1], t, call);
      k := k + 1;
    }
  }

  /** A flush that has returned found the queue empty, or was stopped, or the worker has taken the
      queue since, knowing of the request. */
  lemma {:induction false} FlushReturns(tr: seq<Buffer>, steps: seq<Step>, t: Tid, i: nat, j: nat) returns (k: nat)
    requires Run(tr, steps) && i < j <= |steps| && steps[i] == BeginStep(t, Flush) && Inside(tr, t, i, j)
    requires t in tr[j].pc && tr[j].pc[t].Outside?
    ensures i < k < j && t in tr[k].pc && tr[k].pc[t].FlushTest?
    ensures tr[k].fields.queued == 0 || tr[j].fields.stopping || LambdaBetween(tr, steps, k, j)
  {
    k := CallDecides(tr, steps, t, Flush, i, j);
    if tr[k].fields.queued > 0 {
      FlushWaits(tr, steps, t, k, j);
    }
  }

  lemma StoppingStays(s: Buffer, step: Step, s': Buffer)
    requires StepTo(s, step, s')
    ensures s.fields.stopping ==> s'.fields.stopping
    ensures s.fields.requested ==> s'.fields.requested
    ensures step.DoStep? && s.pc[step.t].StopSet? ==> s'.fields.stopping
    ensures step.BeginStep? && step.call.Destroy? ==> s'.fields.requested
  {
  }

  lemma {:induction false} StoppingLasts(tr: seq<Buffer>, steps: seq<Step>, k: nat, j: nat)
    requires Run(tr, steps) && k <= j < |tr|
    ensures tr[k].fields.stopping ==> tr[j].fields.stopping
    ensures tr[k].fields.requested ==> tr[j].fields.requested
    decreases j
  {
    if k < j {
      StoppingLasts(tr, steps, k, j - 1);
      StoppingStays(tr[j - 1], steps[j - 1], tr[j]);
    }
  }

  /** A stop that has returned has stopped the buffer for good, and a destructor has also asked the
      worker to end. */
  lemma {:induction false} StopStops(tr: seq<Buffer>, steps: seq<Step>, t: Tid, call: Call, i: nat, j: nat)
    requires Run(tr, steps) && i < j <= |steps| && steps[i] == BeginStep(t, call) && (call.Stop? || call.Destroy?)
    requires t in tr[j].pc && tr[j].pc[t].Outside?
    ensures tr[j].fields.stopping && (call.Destroy? ==> tr[j].fields.requested)
  {
    var k := CallDecides(tr, steps, t, call, i, j);
    StoppingStays(tr[k], steps[k], tr[k + 1]);
    StoppingLasts(tr, steps, k + 1, j);
    StoppingStays(tr[i], steps[i], tr[i + 1]);
    StoppingLasts(tr, steps, i + 1, j);
  }

  // ---------------------------------------------------------------- shutdown

  /** What the worker has left until it ends, once that is requested and the buffer is stopped. */
  function WorkRank(p: Pc): nat {
    match p
    case WorkSleep => 8
    case WorkEnter => 7
    case WorkTest => 6
    case WorkLambda(_) => 5
    case WorkReset(_) => 4
    case WorkNotifyFlush => 3
    case WorkNotifyFeed => 2
    case WorkLoop => 1
    case _ => 0
  }

  /** Behind the destructor's two requests every action of the worker brings its end nearer, at most
      eight are left, no step of anybody sets it back, and the end is the end. */
  lemma WorkerEnds(s: Buffer, step: Step, s': Buffer)
    requires Inv(s) && StepTo(s, step, s') && s.fields.requested && s.fields.stopping
    ensures s'.fields.requested && s'.fields.stopping && s'.worker == s.worker && s.worker in s'.pc
    ensures WorkRank(s'.pc[s.worker]) <= WorkRank(s.pc[s.worker]) <= 8
    ensures step.DoStep? && step.t == s.worker ==> WorkRank(s'.pc[s.worker]) < WorkRank(s.pc[s.worker])
    ensures WorkRank(s.pc[s.worker]) == 0 <==> s.pc[s.worker].WorkDone?
  {
    assert ThreadOk(s, s.worker);
    if step.DoStep? {
      assert ThreadOk(s, step.t);
    }
  }

  // ---------------------------------------------------------------- the steps of the pipeline

  /** The fields are those of the pipeline's state. */
  ghost predicate Matches(i: Ingestions.State, f: Fields) {
    && i.worker.Idle? && |i.buffer| == f.queued && i.remaining == f.remaining
    && i.pleaseFlush == f.pleaseFlush && i.stopping == f.stopping
  }

  /** Behind their waits, feeders, flushers and stops do what the steps of the pipeline do, and
      the worker takes a batch exactly when that step is enabled. */
  lemma ActionsAreSteps(c: Ingestions.Config, i: Ingestions.State, s: Buffer, t: Tid, block: seq<HashItem>, u: nat)
    requires Inv(s) && Matches(i, s.fields) && Enabled(s, t)
    requires block != [] && HashesOf(block, c.n) && u !in i.flushers
    ensures s.pc[t] == FeedInsert(|block|) ==>
              && Ingestions.Enabled(c, i, Ingestions.FeedBlock(block))
              && Matches(Ingestions.Do(c, i, Ingestions.FeedBlock(block)), Do(s, t, 1).fields)
    ensures s.pc[t].FlushTest? ==>
              && Ingestions.Enabled(c, i, Ingestions.CallFlush(u))
              && Matches(Ingestions.Do(c, i, Ingestions.CallFlush(u)), Do(s, t, 1).fields)
    ensures s.pc[t].StopSet? ==>
              Matches(Ingestions.Do(c, i, Ingestions.Stop), Do(s, t, 1).fields)
    ensures s.pc[t].WorkTest? ==>
              (After(s.fields, s.pc[t]).WorkLambda? <==> Ingestions.Enabled(c, i, Ingestions.TakeBatch))
    ensures s.pc[t] == FeedTest(|block|) ==>
              && (Sleeping(After(s.fields, s.pc[t])) <==> !Ingestions.Enabled(c, i, Ingestions.FeedBlock(block)))
              && (After(s.fields, s.pc[t]).Outside? <==> i.stopping)
    ensures s.pc[t].FlushWait? ==>
              forall w :: w in i.flushers ==>
                (After(s.fields, s.pc[t]).Outside? <==> Ingestions.Enabled(c, i, Ingestions.ReturnFromFlush(w)))
  {
    assert ThreadOk(s, t);
  }

  /** And the bookkeeping behind the lambda is the step that returns the batch. */
  lemma LambdaIsReturn(c: Ingestions.Config, i: Ingestions.State, f: Fields)
    requires Ingestions.Enabled(c, i, Ingestions.ReturnBatch) && |Ingestions.InHatchling(i)| < c.capacity
    requires i.pleaseFlush == f.pleaseFlush == i.worker.flushing && i.stopping == f.stopping
    ensures var done := Ingestions.Do(c, i, Ingestions.ReturnBatch);
            Matches(done, Changed(Changed(f, WorkLambda(i.worker.flushing), done.remaining),
                            WorkReset(i.worker.flushing), 0))
  {
  }
}
