/** What the room keeps over every interleaving of its callers' steps. */
module BufferRoomTheorems {
  import opened Wrappers
  import opened BufferRooms

  // ---------------------------------------------------------------- the invariant is kept

  /** Only `t` changes its registration; sleepers may be woken. */
  lemma RegistrationOf<T>(s: Room<T>, s': Room<T>, t: Tid)
    requires t in s.pc && s'.pc.Keys == s.pc.Keys
    requires forall u :: u in s.pc && u != t ==> (Registered(s'.pc[u]) <==> Registered(s.pc[u]))
    ensures RegisteredSet(s') == if Registered(s'.pc[t]) then RegisteredSet(s) + {t} else RegisteredSet(s) - {t}
    ensures t in RegisteredSet(s) <==> Registered(s.pc[t])
  {
  }

  lemma CountsReader<T>(s: Room<T>, t: Tid, C: nat)
    requires Inv(s, C) && t in s.pc && Registered(s.pc[t])
    ensures s.active > 0
  {
    assert t in RegisteredSet(s);
  }

  /** Facts about the shared state that do not mention a particular thread. */
  ghost predicate Locks<T>(s: Room<T>, C: nat) {
    && |s.items| <= C
    && (s.data.Some? ==> s.shared == {})
    && (s.state.Some? ==> s.state.value in s.pc)
    && (s.data.Some? ==> s.data.value in s.pc)
    && s.shared <= s.pc.Keys
  }

  lemma FeedKeepsOthers<T>(s: Room<T>, t: Tid, u: Tid, C: nat)
    requires Locks(s, C) && Enabled(s, t) && InFeed(s.pc[t])
    requires u in s.pc && u != t && ThreadOk(s, t, C) && ThreadOk(s, u, C)
    ensures ThreadOk(DoFeed(s, t, C), u, C)
  {
  }

  lemma ReadKeepsOthers<T>(s: Room<T>, t: Tid, u: Tid, C: nat)
    requires Locks(s, C) && Enabled(s, t) && InRead(s.pc[t]) && (Registered(s.pc[t]) ==> s.active > 0)
    requires u in s.pc && u != t && ThreadOk(s, t, C) && ThreadOk(s, u, C)
    ensures ThreadOk(DoRead(s, t, C), u, C)
  {
    if s.pc[t].ReadUnregister? {
      LeaverKeepsOthers(s, t, u, C);
    } else {
      ReaderKeepsOthers(s, t, u, C);
    }
  }

  lemma ReaderKeepsOthers<T>(s: Room<T>, t: Tid, u: Tid, C: nat)
    requires Locks(s, C) && Enabled(s, t) && InRead(s.pc[t]) && !s.pc[t].ReadUnregister?
    requires u in s.pc && u != t && ThreadOk(s, t, C) && ThreadOk(s, u, C)
    ensures ThreadOk(DoRead(s, t, C), u, C)
  {
  }

  lemma LeaverKeepsOthers<T>(s: Room<T>, t: Tid, u: Tid, C: nat)
    requires Locks(s, C) && Enabled(s, t) && s.pc[t].ReadUnregister? && s.active > 0
    requires u in s.pc && u != t && ThreadOk(s, t, C) && ThreadOk(s, u, C)
    ensures ThreadOk(DoRead(s, t, C), u, C)
  {
  }

  lemma DiscardKeepsOthers<T>(s: Room<T>, t: Tid, u: Tid, C: nat)
    requires Locks(s, C) && Enabled(s, t) && InDiscard(s.pc[t])
    requires u in s.pc && u != t && ThreadOk(s, t, C) && ThreadOk(s, u, C) && (Registered(s.pc[u]) ==> s.active > 0)
    ensures ThreadOk(DoDiscard(s, t), u, C)
  {
  }

  lemma FeedKeepsItself<T>(s: Room<T>, t: Tid, C: nat)
    requires Locks(s, C) && Enabled(s, t) && ThreadOk(s, t, C) && InFeed(s.pc[t])
    ensures ThreadOk(DoFeed(s, t, C), t, C) && Locks(DoFeed(s, t, C), C)
  {
    if s.pc[t].FeedLockData? || s.pc[t].FeedPush? || s.pc[t].FeedNotify? {
      PusherKeepsItself(s, t, C);
    } else {
      FeederEnters(s, t, C);
    }
  }

  lemma FeederEnters<T>(s: Room<T>, t: Tid, C: nat)
    requires Locks(s, C) && Enabled(s, t) && ThreadOk(s, t, C) && (s.pc[t].FeedEnter? || s.pc[t].FeedTest?)
    ensures ThreadOk(DoFeed(s, t, C), t, C) && Locks(DoFeed(s, t, C), C)
  {
  }

  lemma PusherKeepsItself<T>(s: Room<T>, t: Tid, C: nat)
    requires Locks(s, C) && Enabled(s, t) && ThreadOk(s, t, C)
    requires s.pc[t].FeedLockData? || s.pc[t].FeedPush? || s.pc[t].FeedNotify?
    ensures ThreadOk(DoFeed(s, t, C), t, C) && Locks(DoFeed(s, t, C), C)
  {
  }

  lemma ReadKeepsItself<T>(s: Room<T>, t: Tid, C: nat)
    requires Locks(s, C) && Enabled(s, t) && ThreadOk(s, t, C) && InRead(s.pc[t])
    requires Registered(s.pc[t]) ==> s.active > 0
    ensures ThreadOk(DoRead(s, t, C), t, C) && Locks(DoRead(s, t, C), C)
  {
    if Registered(s.pc[t]) {
      ReaderKeepsItself(s, t, C);
    } else {
      EnteringKeepsItself(s, t, C);
    }
  }

  lemma ReaderKeepsItself<T>(s: Room<T>, t: Tid, C: nat)
    requires Locks(s, C) && Enabled(s, t) && ThreadOk(s, t, C) && Registered(s.pc[t]) && s.active > 0
    ensures ThreadOk(DoRead(s, t, C), t, C) && Locks(DoRead(s, t, C), C)
  {
    if s.pc[t].ReadLockData? || s.pc[t].ReadLambda? {
      ViewerKeepsItself(s, t, C);
    } else {
      LeaverKeepsItself(s, t, C);
    }
  }

  lemma ViewerKeepsItself<T>(s: Room<T>, t: Tid, C: nat)
    requires Locks(s, C) && Enabled(s, t) && ThreadOk(s, t, C) && (s.pc[t].ReadLockData? || s.pc[t].ReadLambda?)
    ensures ThreadOk(DoRead(s, t, C), t, C) && Locks(DoRead(s, t, C), C)
  {
  }

  lemma LeaverKeepsItself<T>(s: Room<T>, t: Tid, C: nat)
    requires Locks(s, C) && Enabled(s, t) && ThreadOk(s, t, C) && (s.pc[t].ReadLeave? || s.pc[t].ReadUnregister?)
    requires s.active > 0
    ensures ThreadOk(DoRead(s, t, C), t, C) && Locks(DoRead(s, t, C), C)
  {
  }

  lemma EnteringKeepsItself<T>(s: Room<T>, t: Tid, C: nat)
    requires Locks(s, C) && Enabled(s, t) && ThreadOk(s, t, C) && InRead(s.pc[t]) && !Registered(s.pc[t])
    ensures ThreadOk(DoRead(s, t, C), t, C) && Locks(DoRead(s, t, C), C)
  {
    if s.pc[t].CurrentEnter? || s.pc[t].CurrentTest? {
      SearcherEnters(s, t, C);
    } else {
      WorkerEnters(s, t, C);
    }
  }

  lemma SearcherEnters<T>(s: Room<T>, t: Tid, C: nat)
    requires Locks(s, C) && Enabled(s, t) && ThreadOk(s, t, C) && (s.pc[t].CurrentEnter? || s.pc[t].CurrentTest?)
    ensures ThreadOk(DoRead(s, t, C), t, C) && Locks(DoRead(s, t, C), C)
  {
  }

  lemma WorkerEnters<T>(s: Room<T>, t: Tid, C: nat)
    requires Locks(s, C) && Enabled(s, t) && ThreadOk(s, t, C) && (s.pc[t].FullEnter? || s.pc[t].FullTest?)
    ensures ThreadOk(DoRead(s, t, C), t, C) && Locks(DoRead(s, t, C), C)
  {
  }

  lemma DiscardKeepsItself<T>(s: Room<T>, t: Tid, C: nat)
    requires Locks(s, C) && Enabled(s, t) && ThreadOk(s, t, C) && InDiscard(s.pc[t])
    ensures ThreadOk(DoDiscard(s, t), t, C) && Locks(DoDiscard(s, t), C)
  {
    if Drained(s.pc[t]) {
      DrainedKeepsItself(s, t, C);
    } else {
      DrainingKeepsItself(s, t, C);
    }
  }

  lemma DrainedKeepsItself<T>(s: Room<T>, t: Tid, C: nat)
    requires Locks(s, C) && Enabled(s, t) && ThreadOk(s, t, C) && Drained(s.pc[t])
    ensures ThreadOk(DoDiscard(s, t), t, C) && Locks(DoDiscard(s, t), C)
  {
  }

  lemma DrainingKeepsItself<T>(s: Room<T>, t: Tid, C: nat)
    requires Locks(s, C) && Enabled(s, t) && ThreadOk(s, t, C) && InDiscard(s.pc[t]) && !Drained(s.pc[t])
    ensures ThreadOk(DoDiscard(s, t), t, C) && Locks(DoDiscard(s, t), C)
  {
  }

  lemma KeepsLocks<T>(s: Room<T>, t: Tid, C: nat)
    requires Locks(s, C) && Enabled(s, t) && ThreadOk(s, t, C)
    requires Registered(s.pc[t]) ==> s.active > 0
    ensures Locks(Do(s, t, C), C)
  {
    if InFeed(s.pc[t]) {
      FeedKeepsItself(s, t, C);
    } else if InRead(s.pc[t]) {
      ReadKeepsItself(s, t, C);
    } else {
      DiscardKeepsItself(s, t, C);
    }
  }

  /** A step changes nobody's registration but the stepping thread's. */
  lemma RegistrationOfOthers<T>(s: Room<T>, t: Tid, u: Tid, C: nat)
    requires Enabled(s, t) && (Registered(s.pc[t]) ==> s.active > 0) && u in s.pc && u != t
    ensures Do(s, t, C).pc.Keys == s.pc.Keys
    ensures Registered(Do(s, t, C).pc[u]) <==> Registered(s.pc[u])
  {
    WakeKeepsRegistration(s.pc[u]);
    OthersOnlyWake(s, t, u, C);
  }

  /** Another thread stays where it is or is woken. */
  ghost predicate StaysOrWakes<T>(p: Pc<T>, p': Pc<T>) {
    p' == p || exists cv :: p' == WakeOne(p, cv)
  }

  lemma OthersOnlyWake<T>(s: Room<T>, t: Tid, u: Tid, C: nat)
    requires Enabled(s, t) && (Registered(s.pc[t]) ==> s.active > 0) && u in s.pc && u != t
    ensures Do(s, t, C).pc.Keys == s.pc.Keys
    ensures StaysOrWakes(s.pc[u], Do(s, t, C).pc[u])
  {
    if InFeed(s.pc[t]) {
      FeedOnlyWakes(s, t, u, C);
    } else if InRead(s.pc[t]) {
      ReadOnlyWakes(s, t, u, C);
    } else {
      DiscardOnlyWakes(s, t, u);
    }
  }

  lemma FeedOnlyWakes<T>(s: Room<T>, t: Tid, u: Tid, C: nat)
    requires t in s.pc && InFeed(s.pc[t]) && u in s.pc && u != t
    ensures DoFeed(s, t, C).pc.Keys == s.pc.Keys
    ensures StaysOrWakes(s.pc[u], DoFeed(s, t, C).pc[u])
  {
  }

  lemma ReadOnlyWakes<T>(s: Room<T>, t: Tid, u: Tid, C: nat)
    requires t in s.pc && InRead(s.pc[t]) && (s.pc[t].ReadUnregister? ==> s.active > 0) && u in s.pc && u != t
    ensures DoRead(s, t, C).pc.Keys == s.pc.Keys
    ensures StaysOrWakes(s.pc[u], DoRead(s, t, C).pc[u])
  {
  }

  lemma DiscardOnlyWakes<T>(s: Room<T>, t: Tid, u: Tid)
    requires t in s.pc && InDiscard(s.pc[t]) && u in s.pc && u != t
    ensures DoDiscard(s, t).pc.Keys == s.pc.Keys
    ensures StaysOrWakes(s.pc[u], DoDiscard(s, t).pc[u])
  {
  }

  lemma WakeKeepsRegistration<T>(p: Pc<T>)
    ensures forall cv :: Registered(WakeOne(p, cv)) <==> Registered(p)
  {
  }

  lemma RegistrationOfItself<T>(s: Room<T>, t: Tid, C: nat)
    requires Enabled(s, t) && (Registered(s.pc[t]) ==> s.active > 0)
    ensures Do(s, t, C).pc.Keys == s.pc.Keys
    ensures Do(s, t, C).active ==
            s.active + (if Registered(Do(s, t, C).pc[t]) then 1 else 0) - (if Registered(s.pc[t]) then 1 else 0)
  {
    if InFeed(s.pc[t]) {
      FeedRegistersNobody(s, t, C);
    } else if InRead(s.pc[t]) {
      ReadRegistersItself(s, t, C);
    } else {
      DiscardRegistersNobody(s, t, C);
    }
  }

  lemma FeedRegistersNobody<T>(s: Room<T>, t: Tid, C: nat)
    requires t in s.pc && InFeed(s.pc[t])
    ensures var s' := DoFeed(s, t, C); s'.pc.Keys == s.pc.Keys && s'.active == s.active && !Registered(s'.pc[t])
  {
  }

  lemma DiscardRegistersNobody<T>(s: Room<T>, t: Tid, C: nat)
    requires t in s.pc && InDiscard(s.pc[t])
    ensures var s' := DoDiscard(s, t); s'.pc.Keys == s.pc.Keys && s'.active == s.active && !Registered(s'.pc[t])
  {
  }

  lemma ReadRegistersItself<T>(s: Room<T>, t: Tid, C: nat)
    requires t in s.pc && InRead(s.pc[t]) && (Registered(s.pc[t]) ==> s.active > 0)
    ensures var s' := DoRead(s, t, C);
            && s'.pc.Keys == s.pc.Keys
            && s'.active ==
               s.active + (if Registered(s'.pc[t]) then 1 else 0) - (if Registered(s.pc[t]) then 1 else 0)
  {
  }

  lemma KeepsCount<T>(s: Room<T>, t: Tid, C: nat)
    requires s.active == |RegisteredSet(s)| && Enabled(s, t) && (Registered(s.pc[t]) ==> s.active > 0)
    ensures Do(s, t, C).active == |RegisteredSet(Do(s, t, C))|
  {
    var s' := Do(s, t, C);
    RegistrationOfItself(s, t, C);
    forall u | u in s.pc && u != t
      ensures Registered(s'.pc[u]) <==> Registered(s.pc[u])
    {
      RegistrationOfOthers(s, t, u, C);
    }
    CountUpdate(s, s', t);
  }

  lemma CountUpdate<T>(s: Room<T>, s': Room<T>, t: Tid)
    requires s.active == |RegisteredSet(s)| && t in s.pc && s'.pc.Keys == s.pc.Keys
    requires forall u :: u in s.pc && u != t ==> (Registered(s'.pc[u]) <==> Registered(s.pc[u]))
    requires s'.active == s.active + (if Registered(s'.pc[t]) then 1 else 0) - (if Registered(s.pc[t]) then 1 else 0)
    ensures s'.active == |RegisteredSet(s')|
  {
    RegistrationOf(s, s', t);
  }

  lemma KeepsDiscarder<T>(s: Room<T>, t: Tid, C: nat)
    requires Inv(s, C) && Enabled(s, t) && (Registered(s.pc[t]) ==> s.active > 0)
    ensures var s' := Do(s, t, C);
            && (s'.discarding ==> s'.discarder.Some?)
            && (s'.discarder.Some? ==> s'.discarder.value in s'.pc)
            && (s'.discarding ==> FlagSet(s'.pc[s'.discarder.value]))
  {
    assert ThreadOk(s, t, C);
    if s.discarder.Some? {
      assert ThreadOk(s, s.discarder.value, C);
    }
    if InFeed(s.pc[t]) {
      FeedKeepsFlag(s, t, C);
    } else if InRead(s.pc[t]) {
      ReadKeepsFlag(s, t, C);
    } else {
      DiscardKeepsFlag(s, t, C);
    }
  }

  /** Whoever set the flag is inside `Discard`. */
  ghost predicate FlagOwned<T>(s: Room<T>) {
    && (s.discarding ==> s.discarder.Some?)
    && (s.discarder.Some? ==> s.discarder.value in s.pc && InDiscard(s.pc[s.discarder.value]))
    && (s.discarding ==> FlagSet(s.pc[s.discarder.value]))
  }

  lemma FeedKeepsFlag<T>(s: Room<T>, t: Tid, C: nat)
    requires FlagOwned(s) && t in s.pc && InFeed(s.pc[t])
    ensures FlagOwned(DoFeed(s, t, C))
  {
  }

  lemma ReadKeepsFlag<T>(s: Room<T>, t: Tid, C: nat)
    requires FlagOwned(s) && t in s.pc && InRead(s.pc[t]) && (s.pc[t].ReadUnregister? ==> s.active > 0)
    ensures FlagOwned(DoRead(s, t, C))
  {
  }

  lemma DiscardKeepsFlag<T>(s: Room<T>, t: Tid, C: nat)
    requires FlagOwned(s) && t in s.pc && InDiscard(s.pc[t]) && s.discarder == Some(t)
    ensures FlagOwned(DoDiscard(s, t))
  {
  }

  lemma KeepsThread<T>(s: Room<T>, t: Tid, u: Tid, C: nat)
    requires Inv(s, C) && Enabled(s, t) && u in s.pc && (Registered(s.pc[t]) ==> s.active > 0)
    ensures ThreadOk(Do(s, t, C), u, C)
  {
    assert ThreadOk(s, t, C) && ThreadOk(s, u, C);
    if Registered(s.pc[u]) {
      CountsReader(s, u, C);
    }
    if InDiscard(s.pc[t]) {
      if u == t {
        DiscardKeepsItself(s, t, C);
      } else {
        DiscardKeepsOthers(s, t, u, C);
      }
    } else if InFeed(s.pc[t]) {
      if u == t {
        FeedKeepsItself(s, t, C);
      } else {
        FeedKeepsOthers(s, t, u, C);
      }
    } else {
      if u == t {
        ReadKeepsItself(s, t, C);
      } else {
        ReadKeepsOthers(s, t, u, C);
      }
    }
  }

  lemma DoIsInv<T>(s: Room<T>, t: Tid, C: nat)
    requires Inv(s, C) && Enabled(s, t) && (Registered(s.pc[t]) ==> s.active > 0)
    ensures Inv(Do(s, t, C), C)
  {
    var s' := Do(s, t, C);
    assert ThreadOk(s, t, C);
    KeepsLocks(s, t, C);
    KeepsCount(s, t, C);
    KeepsDiscarder(s, t, C);
    RegistrationOfItself(s, t, C);
    forall u | u in s'.pc
      ensures ThreadOk(s', u, C)
    {
      KeepsThread(s, t, u, C);
    }
    assert Locks(s', C);
  }

  lemma StartIsInv<T>(s: Room<T>, t: Tid, call: Call<T>, C: nat)
    requires Inv(s, C) && t in s.pc && s.pc[t].Idle? && (call.Discard? ==> s.discarder.None?)
    ensures Inv(Start(s, t, call), C)
  {
    CountUpdate(s, Start(s, t, call), t);
    StartKeepsThreads(s, t, call, C);
    StartKeepsLocks(s, t, call, C);
  }

  lemma StartKeepsLocks<T>(s: Room<T>, t: Tid, call: Call<T>, C: nat)
    requires Locks(s, C) && FlagOwned(s) && t in s.pc && s.pc[t].Idle? && (call.Discard? ==> s.discarder.None?)
    ensures Locks(Start(s, t, call), C) && FlagOwned(Start(s, t, call))
  {
  }

  lemma StartKeepsThreads<T>(s: Room<T>, t: Tid, call: Call<T>, C: nat)
    requires Inv(s, C) && t in s.pc && s.pc[t].Idle? && (call.Discard? ==> s.discarder.None?)
    ensures forall u :: u in Start(s, t, call).pc ==> ThreadOk(Start(s, t, call), u, C)
  {
    forall u | u in Start(s, t, call).pc
      ensures ThreadOk(Start(s, t, call), u, C)
    {
      assert ThreadOk(s, u, C) && ThreadOk(s, t, C);
      StartKeepsThread(s, t, u, call, C);
    }
  }

  lemma StartKeepsThread<T>(s: Room<T>, t: Tid, u: Tid, call: Call<T>, C: nat)
    requires Locks(s, C) && t in s.pc && s.pc[t].Idle? && (call.Discard? ==> s.discarder.None?)
    requires u in s.pc && ThreadOk(s, t, C) && ThreadOk(s, u, C)
    ensures ThreadOk(Start(s, t, call), u, C)
  {
    if u == t {
      StarterKeepsItself(s, t, call, C);
    }
  }

  lemma StarterKeepsItself<T>(s: Room<T>, t: Tid, call: Call<T>, C: nat)
    requires t in s.pc && s.pc[t].Idle? && (call.Discard? ==> s.discarder.None?) && ThreadOk(s, t, C)
    ensures ThreadOk(Start(s, t, call), t, C)
  {
  }

  lemma SpuriousIsInv<T>(s: Room<T>, t: Tid, C: nat)
    requires Inv(s, C) && t in s.pc && Sleeping(s.pc[t])
    ensures Inv(Spurious(s, t), C)
  {
    var s' := Spurious(s, t);
    CountUpdate(s, s', t);
    forall u | u in s'.pc
      ensures ThreadOk(s', u, C)
    {
      assert ThreadOk(s, u, C) && ThreadOk(s, t, C);
      SpuriousKeepsThread(s, t, u, C);
    }
  }

  lemma SpuriousKeepsThread<T>(s: Room<T>, t: Tid, u: Tid, C: nat)
    requires Locks(s, C) && t in s.pc && Sleeping(s.pc[t])
    requires u in s.pc && ThreadOk(s, t, C) && ThreadOk(s, u, C)
    ensures ThreadOk(Spurious(s, t), u, C)
  {
  }

  /** Every step of every thread keeps the invariant. */
  lemma StepIsInv<T>(s: Room<T>, step: Step<T>, s': Room<T>, C: nat)
    requires Inv(s, C) && StepTo(s, step, s', C)
    ensures Inv(s', C)
  {
    match step
    case DoStep(t) =>
      if Registered(s.pc[t]) {
        CountsReader(s, t, C);
      }
      DoIsInv(s, t, C);
    case StartStep(t, call) => StartIsInv(s, t, call, C);
    case SpuriousStep(t) => SpuriousIsInv(s, t, C);
  }

  lemma InitIsInv<T>(s: Room<T>, C: nat)
    requires Init(s, C)
    ensures Inv(s, C)
  {
  }

  lemma {:induction false} RunIsInv<T(!new)>(tr: seq<Room<T>>, C: nat, i: nat)
    requires Run(tr, C) && i < |tr|
    ensures Inv(tr[i], C)
  {
    if i == 0 {
      InitIsInv(tr[0], C);
    } else {
      RunIsInv(tr, C, i - 1);
      assert Next(tr[i - 1], tr[i], C);
      var step :| StepTo(tr[i - 1], step, tr[i], C);
      StepIsInv(tr[i - 1], step, tr[i], C);
    }
  }

  // ---------------------------------------------------------------- views

  /** Everything that was ever put into the room, in order. */
  function Log<T>(s: Room<T>): seq<T> {
    s.purged + s.items
  }

  /** What one step does to the items: nothing, one item more, or the purge of all of them. */
  lemma ItemsStep<T>(s: Room<T>, step: Step<T>, s': Room<T>, C: nat)
    requires Inv(s, C) && StepTo(s, step, s', C)
    ensures || (s'.items == s.items && s'.purged == s.purged)
            || (&& step.DoStep? && s.pc[step.t].FeedPush? && |s.items| < C && s.shared == {}
                && s'.items == s.items + [s.pc[step.t].item] && s'.purged == s.purged)
            || (step.DoStep? && s.pc[step.t].DiscardClear? && s'.items == [] && s'.purged == s.purged + s.items)
  {
    if step.DoStep? {
      assert ThreadOk(s, step.t, C);
      if InFeed(s.pc[step.t]) {
        FeedItems(s, step.t, C);
      } else if InRead(s.pc[step.t]) {
        ReadItems(s, step.t, C);
      } else {
        DiscardItems(s, step.t);
      }
    }
  }

  lemma FeedItems<T>(s: Room<T>, t: Tid, C: nat)
    requires t in s.pc && InFeed(s.pc[t])
    ensures var s' := DoFeed(s, t, C);
            s'.purged == s.purged && s'.items == if s.pc[t].FeedPush? then s.items + [s.pc[t].item] else s.items
  {
  }

  lemma ReadItems<T>(s: Room<T>, t: Tid, C: nat)
    requires t in s.pc && InRead(s.pc[t]) && (s.pc[t].ReadUnregister? ==> s.active > 0)
    ensures DoRead(s, t, C).purged == s.purged && DoRead(s, t, C).items == s.items
  {
  }

  lemma DiscardItems<T>(s: Room<T>, t: Tid)
    requires t in s.pc && InDiscard(s.pc[t])
    ensures var s' := DoDiscard(s, t);
            if s.pc[t].DiscardClear? then s'.items == [] && s'.purged == s.purged + s.items
            else s'.items == s.items && s'.purged == s.purged
  {
  }

  /** While anyone is registered nothing is removed; while a worker is registered, or any
      lambda runs, nothing changes at all. */
  lemma StepKeepsViews<T>(s: Room<T>, step: Step<T>, s': Room<T>, t: Tid, C: nat)
    requires Inv(s, C) && StepTo(s, step, s', C) && t in s.pc && Registered(s.pc[t])
    ensures s.items <= s'.items && s'.purged == s.purged
    ensures Worker(s.pc[t]) || s.pc[t].ReadLambda? ==> s'.items == s.items
  {
    ItemsStep(s, step, s', C);
    assert ThreadOk(s, t, C);
    CountsReader(s, t, C);
    if step.DoStep? {
      assert ThreadOk(s, step.t, C);
    }
  }

  lemma {:induction false} StepInRun<T(!new)>(tr: seq<Room<T>>, C: nat, j: nat) returns (step: Step<T>)
    requires Run(tr, C) && 0 < j < |tr|
    ensures Inv(tr[j - 1], C) && StepTo(tr[j - 1], step, tr[j], C)
  {
    RunIsInv(tr, C, j - 1);
    assert Next(tr[j - 1], tr[j], C);
    step :| StepTo(tr[j - 1], step, tr[j], C);
  }

  /** Prefixes from one moment to the next are prefixes over any stretch. */
  lemma {:induction false} PrefixesChain<T>(logs: seq<seq<T>>, i: nat, j: nat)
    requires i <= j < |logs| && forall k :: i <= k < j ==> logs[k] <= logs[k + 1]
    ensures logs[i] <= logs[j]
    decreases j
  {
    if i < j {
      PrefixesChain(logs, i, j - 1);
    }
  }

  lemma {:induction false} EqualsChain<T>(logs: seq<seq<T>>, i: nat, j: nat)
    requires i <= j < |logs| && forall k :: i <= k < j ==> logs[k] == logs[k + 1]
    ensures logs[i] == logs[j]
    decreases j
  {
    if i < j {
      EqualsChain(logs, i, j - 1);
    }
  }

  function Views<T>(tr: seq<Room<T>>): (views: seq<seq<T>>)
    ensures |views| == |tr| && forall k :: 0 <= k < |tr| ==> views[k] == tr[k].items
  {
    seq(|tr|, k requires 0 <= k < |tr| => tr[k].items)
  }

  /** From the registration of a worker to the end of its call the room holds exactly `C`
      items, and always the same ones, whatever the other threads do. */
  lemma {:induction false} WorkerViewIsStable<T(!new)>(tr: seq<Room<T>>, C: nat, t: Tid, i: nat, j: nat)
    requires Run(tr, C) && i <= j < |tr|
    requires forall k :: i <= k <= j ==> t in tr[k].pc && Worker(tr[k].pc[t])
    ensures |tr[j].items| == C && tr[j].items == tr[i].items
  {
    WorkerSeesAll(tr, C, t, j);
    forall k | i <= k < j
      ensures Views(tr)[k] == Views(tr)[k + 1]
    {
      ViewGrowsAt(tr, C, t, k + 1);
    }
    EqualsChain(Views(tr), i, j);
  }

  lemma {:induction false} WorkerSeesAll<T(!new)>(tr: seq<Room<T>>, C: nat, t: Tid, j: nat)
    requires Run(tr, C) && j < |tr| && t in tr[j].pc && Worker(tr[j].pc[t])
    ensures |tr[j].items| == C
  {
    RunIsInv(tr, C, j);
    assert ThreadOk(tr[j], t, C);
  }

  /** A search thread sees at least what was there when it registered, and its view is
      fixed for as long as its lambda runs. */
  lemma {:induction false} ReaderViewOnlyGrows<T(!new)>(tr: seq<Room<T>>, C: nat, t: Tid, i: nat, j: nat)
    requires Run(tr, C) && i <= j < |tr|
    requires forall k :: i <= k <= j ==> t in tr[k].pc && Registered(tr[k].pc[t])
    ensures tr[i].items <= tr[j].items
    ensures (forall k :: i <= k <= j ==> tr[k].pc[t].ReadLambda?) ==> tr[j].items == tr[i].items
  {
    forall k | i <= k < j
      ensures Views(tr)[k] <= Views(tr)[k + 1]
      ensures tr[k].pc[t].ReadLambda? ==> Views(tr)[k] == Views(tr)[k + 1]
    {
      ViewGrowsAt(tr, C, t, k + 1);
    }
    PrefixesChain(Views(tr), i, j);
    if forall k :: i <= k <= j ==> tr[k].pc[t].ReadLambda? {
      EqualsChain(Views(tr), i, j);
    }
  }

  lemma {:induction false} ViewGrowsAt<T(!new)>(tr: seq<Room<T>>, C: nat, t: Tid, j: nat)
    requires Run(tr, C) && 0 < j < |tr| && t in tr[j - 1].pc && Registered(tr[j - 1].pc[t])
    ensures tr[j - 1].items <= tr[j].items
    ensures Worker(tr[j - 1].pc[t]) || tr[j - 1].pc[t].ReadLambda? ==> tr[j].items == tr[j - 1].items
  {
    var step := StepInRun(tr, C, j);
    StepKeepsViews(tr[j - 1], step, tr[j], t, C);
  }

  function Logs<T>(tr: seq<Room<T>>): (logs: seq<seq<T>>)
    ensures |logs| == |tr| && forall k :: 0 <= k < |tr| ==> logs[k] == Log(tr[k])
  {
    seq(|tr|, k requires 0 <= k < |tr| => Log(tr[k]))
  }

  /** Nothing that was fed is lost, duplicated or reordered: at every moment the purged
      items followed by the present ones extend what was there at any earlier moment. */
  lemma {:induction false} NothingIsLost<T(!new)>(tr: seq<Room<T>>, C: nat, i: nat, j: nat)
    requires Run(tr, C) && i <= j < |tr|
    ensures Log(tr[i]) <= Log(tr[j])
  {
    forall k | i <= k < j
      ensures Logs(tr)[k] <= Logs(tr)[k + 1]
    {
      LogGrowsAt(tr, C, k + 1);
    }
    PrefixesChain(Logs(tr), i, j);
  }

  lemma {:induction false} LogGrowsAt<T(!new)>(tr: seq<Room<T>>, C: nat, j: nat)
    requires Run(tr, C) && 0 < j < |tr|
    ensures Log(tr[j - 1]) <= Log(tr[j])
  {
    var step := StepInRun(tr, C, j);
    LogStep(tr[j - 1], tr[j], step, C);
  }

  lemma LogStep<T>(s: Room<T>, s': Room<T>, step: Step<T>, C: nat)
    requires Inv(s, C) && StepTo(s, step, s', C)
    ensures Log(s) <= Log(s')
  {
    ItemsStep(s, step, s', C);
    if step.DoStep? && s.pc[step.t].FeedPush? && s'.items == s.items + [s.pc[step.t].item] {
      assert Log(s') == Log(s) + [s.pc[step.t].item];
    } else if s'.items == [] && s'.purged == s.purged + s.items {
      assert Log(s') == Log(s);
    }
  }

  // ---------------------------------------------------------------- what a call does

  /** How far a thread is in its call: before what the call is for, or behind it. */
  datatype Phase<T> = Out | Before(call: Call<T>) | Behind

  function PhaseOf<T>(p: Pc<T>): Phase<T> {
    match p
    case Idle => Out
    case FeedEnter(x) => Before(Feed(x))
    case FeedTest(x) => Before(Feed(x))
    case FeedSleep(x) => Before(Feed(x))
    case FeedLockData(x) => Before(Feed(x))
    case FeedPush(x) => Before(Feed(x))
    case FeedNotify => Behind
    case FullEnter => Before(WithContentsWhenFilled)
    case FullTest => Before(WithContentsWhenFilled)
    case FullSleep => Before(WithContentsWhenFilled)
    case CurrentEnter => Before(WithCurrentContents)
    case CurrentTest => Before(WithCurrentContents)
    case ReadLockData(full) => Before(if full then WithContentsWhenFilled else WithCurrentContents)
    case ReadLambda(full) => Before(if full then WithContentsWhenFilled else WithCurrentContents)
    case ReadLeave(_) => Behind
    case ReadUnregister(_) => Behind
    case DiscardRelock => Behind
    case DiscardReset => Behind
    case _ => Before(Discard)
  }

  /** The action that the call is for: the push, the lambda, or the clear. */
  ghost predicate Does<T>(call: Call<T>, s: Room<T>, s': Room<T>, t: Tid, C: nat)
    requires t in s.pc
  {
    match call
    case Feed(x) => s'.items == s.items + [x] && s'.purged == s.purged
    case WithContentsWhenFilled =>
      s.pc[t] == ReadLambda(true) && |s.items| == C && s'.items == s.items && s'.purged == s.purged
    case WithCurrentContents => s.pc[t] == ReadLambda(false) && s'.items == s.items && s'.purged == s.purged
    case Discard => s'.items == [] && s'.purged == s.purged + s.items
  }

  /** A view is refused while a discard is under way; nothing else ever is. */
  ghost predicate Refused<T>(call: Call<T>, s: Room<T>) {
    s.discarding && (call.WithContentsWhenFilled? || call.WithCurrentContents?)
  }

  /** An action that is not what the call is for leaves the room's contents alone, and runs no lambda. */
  ghost predicate Nothing<T>(s: Room<T>, s': Room<T>, t: Tid)
    requires t in s.pc
  {
    !s.pc[t].ReadLambda? && s'.items == s.items && s'.purged == s.purged
  }

  lemma FeedPhase<T>(s: Room<T>, t: Tid, C: nat)
    requires t in s.pc && InFeed(s.pc[t]) && Enabled(s, t)
    ensures var s' := DoFeed(s, t, C);
            && t in s'.pc
            && if s.pc[t].FeedNotify? then Nothing(s, s', t) && PhaseOf(s'.pc[t]).Out?
               else || (Nothing(s, s', t) && PhaseOf(s'.pc[t]) == PhaseOf(s.pc[t]))
                    || (Does(PhaseOf(s.pc[t]).call, s, s', t, C) && PhaseOf(s'.pc[t]).Behind?)
  {
  }

  lemma ReadPhase<T>(s: Room<T>, t: Tid, C: nat)
    requires t in s.pc && InRead(s.pc[t]) && Enabled(s, t) && (s.pc[t].ReadUnregister? ==> s.active > 0)
    requires Worker(s.pc[t]) ==> |s.items| == C
    ensures var s' := DoRead(s, t, C);
            && t in s'.pc
            && match PhaseOf(s.pc[t])
               case Out => true
               case Behind => Nothing(s, s', t) && (PhaseOf(s'.pc[t]).Behind? || PhaseOf(s'.pc[t]).Out?)
               case Before(call) =>
                 || (Nothing(s, s', t) && PhaseOf(s'.pc[t]) == Before(call))
                 || (Nothing(s, s', t) && Refused(call, s) && PhaseOf(s'.pc[t]).Out?)
                 || (Does(call, s, s', t, C) && PhaseOf(s'.pc[t]).Behind?)
  {
  }

  lemma DiscardPhase<T>(s: Room<T>, t: Tid)
    requires t in s.pc && InDiscard(s.pc[t]) && Enabled(s, t)
    ensures var s' := DoDiscard(s, t);
            && t in s'.pc
            && if s.pc[t].DiscardClear? then Does(Discard, s, s', t, 0) && PhaseOf(s'.pc[t]).Behind?
               else && Nothing(s, s', t)
                    && (PhaseOf(s'.pc[t]) == PhaseOf(s.pc[t])
                        || (PhaseOf(s.pc[t]).Behind? && PhaseOf(s'.pc[t]).Out?))
  {
    DiscardItems(s, t);
    DiscardAdvances(s, t);
  }

  lemma DiscardAdvances<T>(s: Room<T>, t: Tid)
    requires t in s.pc && InDiscard(s.pc[t])
    ensures var p' := DoDiscard(s, t).pc[t];
            if s.pc[t].DiscardClear? then PhaseOf(p').Behind?
            else PhaseOf(p') == PhaseOf(s.pc[t]) || (PhaseOf(s.pc[t]).Behind? && PhaseOf(p').Out?)
  {
  }

  /** What an action of the thread itself does to its phase. */
  ghost predicate Advances<T>(s: Room<T>, s': Room<T>, t: Tid, C: nat)
    requires t in s.pc && t in s'.pc
  {
    match PhaseOf(s.pc[t])
    case Out => false
    case Behind => Nothing(s, s', t) && !PhaseOf(s'.pc[t]).Before?
    case Before(call) =>
      || (Nothing(s, s', t) && PhaseOf(s'.pc[t]) == Before(call))
      || (Nothing(s, s', t) && Refused(call, s) && PhaseOf(s'.pc[t]).Out?)
      || (Does(call, s, s', t, C) && PhaseOf(s'.pc[t]).Behind?)
  }

  lemma OwnStepAdvances<T>(s: Room<T>, t: Tid, C: nat)
    requires Inv(s, C) && Enabled(s, t) && (s.pc[t].ReadUnregister? ==> s.active > 0)
    ensures t in Do(s, t, C).pc && Advances(s, Do(s, t, C), t, C)
  {
    assert ThreadOk(s, t, C);
    if InFeed(s.pc[t]) {
      FeedPhase(s, t, C);
    } else if InRead(s.pc[t]) {
      ReadPhase(s, t, C);
    } else {
      DiscardPhase(s, t);
    }
  }

  /** Steps of others, and wake-ups, keep the phase of a thread inside a call. */
  lemma OthersKeepPhase<T>(s: Room<T>, step: Step<T>, s': Room<T>, t: Tid, C: nat)
    requires Inv(s, C) && StepTo(s, step, s', C) && t in s.pc && !s.pc[t].Idle? && step != DoStep(t)
    ensures t in s'.pc && PhaseOf(s'.pc[t]) == PhaseOf(s.pc[t])
  {
    if step.DoStep? {
      if Registered(s.pc[step.t]) {
        CountsReader(s, step.t, C);
      }
      OthersOnlyWake(s, step.t, t, C);
      WakeKeepsPhase(s.pc[t], s'.pc[t]);
    } else if step.t == t {
      SpuriousKeepsPhase(s, t);
    } else {
      ElsewhereKeepsPhase(s, step, s', t, C);
    }
  }

  lemma WakeKeepsPhase<T>(p: Pc<T>, p': Pc<T>)
    requires StaysOrWakes(p, p')
    ensures PhaseOf(p') == PhaseOf(p)
  {
  }

  lemma SpuriousKeepsPhase<T>(s: Room<T>, t: Tid)
    requires t in s.pc && Sleeping(s.pc[t])
    ensures t in Spurious(s, t).pc && PhaseOf(Spurious(s, t).pc[t]) == PhaseOf(s.pc[t])
  {
  }

  lemma ElsewhereKeepsPhase<T>(s: Room<T>, step: Step<T>, s': Room<T>, t: Tid, C: nat)
    requires StepTo(s, step, s', C) && !step.DoStep? && step.t != t && t in s.pc
    ensures t in s'.pc && s'.pc[t] == s.pc[t]
  {
  }

  /** A stretch of a run, with its steps. */
  ghost predicate Stretch<T(!new)>(tr: seq<Room<T>>, steps: seq<Step<T>>, C: nat) {
    && |tr| == |steps| + 1 && Inv(tr[0], C)
    && forall i :: 0 <= i < |steps| ==> StepTo(tr[i], steps[i], tr[i + 1], C)
  }

  lemma {:induction false} StretchIsInv<T(!new)>(tr: seq<Room<T>>, steps: seq<Step<T>>, C: nat, i: nat)
    requires Stretch(tr, steps, C) && i < |tr|
    ensures Inv(tr[i], C)
  {
    if i > 0 {
      StretchIsInv(tr, steps, C, i - 1);
      StepIsInv(tr[i - 1], steps[i - 1], tr[i], C);
    }
  }

  /** None of the thread's own actions between two moments does anything. */
  ghost predicate Idles<T(!new)>(tr: seq<Room<T>>, steps: seq<Step<T>>, t: Tid, from: nat, to: nat)
    requires |tr| == |steps| + 1 && to <= |steps|
  {
    forall m :: from <= m < to && steps[m] == DoStep(t) ==> t in tr[m].pc && Nothing(tr[m], tr[m + 1], t)
  }

  /** Exactly one of them does, and that is what the call is for. */
  ghost predicate ActsOnce<T(!new)>(tr: seq<Room<T>>, steps: seq<Step<T>>, t: Tid, call: Call<T>, from: nat, to: nat,
      k: nat, C: nat)
    requires |tr| == |steps| + 1 && to <= |steps|
  {
    && from <= k < to && steps[k] == DoStep(t) && t in tr[k].pc
    && Does(call, tr[k], tr[k + 1], t, C)
    && Idles(tr, steps, t, from, k) && Idles(tr, steps, t, k + 1, to)
  }

  /** Or none does, and one of them was refused. */
  ghost predicate WasRefused<T(!new)>(tr: seq<Room<T>>, steps: seq<Step<T>>, t: Tid, call: Call<T>, from: nat, to: nat,
      k: nat)
    requires |tr| == |steps| + 1 && to <= |steps|
  {
    from <= k < to && steps[k] == DoStep(t) && Refused(call, tr[k]) && Idles(tr, steps, t, from, to)
  }

  /** Where a call is that began at `i`. */
  ghost predicate SoFar<T(!new)>(tr: seq<Room<T>>, steps: seq<Step<T>>, t: Tid, call: Call<T>, i: nat, j: nat, k: nat,
      C: nat)
    requires |tr| == |steps| + 1 && j <= |steps| && t in tr[j].pc
  {
    match PhaseOf(tr[j].pc[t])
    case Before(c) => c == call && Idles(tr, steps, t, i, j)
    case Behind => ActsOnce(tr, steps, t, call, i, j, k, C)
    case Out => ActsOnce(tr, steps, t, call, i, j, k, C) || WasRefused(tr, steps, t, call, i, j, k)
  }

  lemma IdlesPush<T(!new)>(tr: seq<Room<T>>, steps: seq<Step<T>>, t: Tid, from: nat, j: nat)
    requires |tr| == |steps| + 1 && j < |steps| && Idles(tr, steps, t, from, j)
    requires steps[j] == DoStep(t) ==> t in tr[j].pc && Nothing(tr[j], tr[j + 1], t)
    ensures Idles(tr, steps, t, from, j + 1)
  {
  }

  /** An action of the thread itself. */
  lemma {:induction false} OneMoreAction<T(!new)>(tr: seq<Room<T>>, steps: seq<Step<T>>, C: nat, t: Tid, call: Call<T>,
      i: nat, j: nat, k: nat) returns (k': nat)
    requires |tr| == |steps| + 1 && i <= j < |steps| && t in tr[j].pc && t in tr[j + 1].pc && steps[j] == DoStep(t)
    requires Advances(tr[j], tr[j + 1], t, C) && SoFar(tr, steps, t, call, i, j, k, C)
    ensures SoFar(tr, steps, t, call, i, j + 1, k', C)
  {
    k' := k;
    if PhaseOf(tr[j].pc[t]).Behind? {
      IdlesPush(tr, steps, t, k + 1, j);
    } else if PhaseOf(tr[j + 1].pc[t]).Before? {
      IdlesPush(tr, steps, t, i, j);
    } else {
      k' := j;
      if PhaseOf(tr[j + 1].pc[t]).Out? {
        IdlesPush(tr, steps, t, i, j);
      }
    }
  }

  /** A step of another thread, or a wake-up. */
  lemma {:induction false} OneMoreOther<T(!new)>(tr: seq<Room<T>>, steps: seq<Step<T>>, C: nat, t: Tid, call: Call<T>,
      i: nat, j: nat, k: nat)
    requires |tr| == |steps| + 1 && i <= j < |steps| && t in tr[j].pc && t in tr[j + 1].pc && steps[j] != DoStep(t)
    requires !PhaseOf(tr[j].pc[t]).Out? && PhaseOf(tr[j + 1].pc[t]) == PhaseOf(tr[j].pc[t])
    requires SoFar(tr, steps, t, call, i, j, k, C)
    ensures SoFar(tr, steps, t, call, i, j + 1, k, C)
  {
    if PhaseOf(tr[j].pc[t]).Behind? {
      IdlesPush(tr, steps, t, k + 1, j);
    } else {
      IdlesPush(tr, steps, t, i, j);
    }
  }

  /** One step of the stretch, as the thread sees it. */
  ghost predicate Moves<T(!new)>(tr: seq<Room<T>>, steps: seq<Step<T>>, C: nat, t: Tid, j: nat)
    requires |tr| == |steps| + 1 && j < |steps| && t in tr[j].pc
  {
    && t in tr[j + 1].pc && !PhaseOf(tr[j].pc[t]).Out?
    && if steps[j] == DoStep(t) then Advances(tr[j], tr[j + 1], t, C)
       else PhaseOf(tr[j + 1].pc[t]) == PhaseOf(tr[j].pc[t])
  }

  lemma {:induction false} StepOfStretch<T(!new)>(tr: seq<Room<T>>, steps: seq<Step<T>>, C: nat, t: Tid, j: nat)
    requires Stretch(tr, steps, C) && j < |steps| && t in tr[j].pc && !tr[j].pc[t].Idle?
    ensures Moves(tr, steps, C, t, j)
  {
    StretchIsInv(tr, steps, C, j);
    assert StepTo(tr[j], steps[j], tr[j + 1], C);
    if steps[j] == DoStep(t) {
      OwnStepAdvances(tr[j], t, C);
    } else {
      OthersKeepPhase(tr[j], steps[j], tr[j + 1], t, C);
    }
  }

  /** The thread does not return between two moments. */
  ghost predicate Inside<T(!new)>(tr: seq<Room<T>>, t: Tid, i: nat, j: nat)
    requires j <= |tr|
  {
    forall m :: i < m < j && t in tr[m].pc ==> !tr[m].pc[t].Idle?
  }

  lemma StillInside<T(!new)>(tr: seq<Room<T>>, t: Tid, i: nat, j: nat)
    requires i < j < |tr| && Inside(tr, t, i, j + 1) && t in tr[j].pc
    ensures !tr[j].pc[t].Idle?
  {
  }

  lemma {:induction false} CallGoesOn<T(!new)>(tr: seq<Room<T>>, steps: seq<Step<T>>, C: nat, t: Tid, call: Call<T>,
      i: nat, j: nat, k: nat) returns (k': nat)
    requires |tr| == |steps| + 1 && i < j < |steps| && t in tr[j].pc && Moves(tr, steps, C, t, j)
    requires SoFar(tr, steps, t, call, i + 1, j, k, C)
    ensures t in tr[j + 1].pc && SoFar(tr, steps, t, call, i + 1, j + 1, k', C)
  {
    if steps[j] == DoStep(t) {
      k' := OneMoreAction(tr, steps, C, t, call, i + 1, j, k);
    } else {
      k' := k;
      OneMoreOther(tr, steps, C, t, call, i + 1, j, k);
    }
  }

  lemma {:induction false} CallSoFar<T(!new)>(tr: seq<Room<T>>, steps: seq<Step<T>>, C: nat, t: Tid, call: Call<T>,
      i: nat, j: nat) returns (k: nat)
    requires Stretch(tr, steps, C) && i < j <= |steps| && steps[i] == StartStep(t, call) && Inside(tr, t, i, j)
    ensures t in tr[j].pc && SoFar(tr, steps, t, call, i + 1, j, k, C)
  {
    if j == i + 1 {
      k := 0;
      CallStarts(tr, steps, C, t, call, i);
    } else {
      k := CallSoFar(tr, steps, C, t, call, i, j - 1);
      StillInside(tr, t, i, j - 1);
      StepOfStretch(tr, steps, C, t, j - 1);
      k := CallGoesOn(tr, steps, C, t, call, i, j - 1, k);
    }
  }

  lemma {:induction false} CallStarts<T(!new)>(tr: seq<Room<T>>, steps: seq<Step<T>>, C: nat, t: Tid, call: Call<T>,
      i: nat)
    requires Stretch(tr, steps, C) && i < |steps| && steps[i] == StartStep(t, call)
    ensures t in tr[i + 1].pc && SoFar(tr, steps, t, call, i + 1, i + 1, 0, C)
  {
    assert StepTo(tr[i], steps[i], tr[i + 1], C);
    StartPhase(tr[i], t, call);
  }

  lemma StartPhase<T>(s: Room<T>, t: Tid, call: Call<T>)
    ensures t in Start(s, t, call).pc && PhaseOf(Start(s, t, call).pc[t]) == Before(call)
  {
  }

  /** A call that has returned did what it is for, exactly once, and nothing else: `Feed` pushed its
      item, a view ran its lambda, on exactly `C` items if it asked for a full room, and
      `Discard` purged everything; only a view can be refused, by a discard. */
  lemma {:induction false} CallsActOnce<T(!new)>(tr: seq<Room<T>>, steps: seq<Step<T>>, C: nat, t: Tid, call: Call<T>,
      i: nat, j: nat) returns (k: nat)
    requires Stretch(tr, steps, C) && i < j <= |steps| && steps[i] == StartStep(t, call) && Inside(tr, t, i, j)
    requires t in tr[j].pc && tr[j].pc[t].Idle?
    ensures ActsOnce(tr, steps, t, call, i + 1, j, k, C) || WasRefused(tr, steps, t, call, i + 1, j, k)
  {
    k := CallSoFar(tr, steps, C, t, call, i, j);
  }

  // ---------------------------------------------------------------- no deadlock

  /** Nobody can move and nobody is outside by choice. */
  ghost predicate Stuck<T>(s: Room<T>) {
    forall t :: t in s.pc ==> !Enabled(s, t)
  }

  /** Some thread inside a call can always move, unless all of them wait for an event
      that only a new call can bring: producers for space, workers for a full batch.
      No discarder waits then, and producers and workers never wait at the same time. */
  lemma NoDeadlock<T>(s: Room<T>, C: nat)
    requires Inv(s, C) && Stuck(s)
    ensures forall t :: t in s.pc ==> s.pc[t].Idle? || s.pc[t].FeedSleep? || s.pc[t].FullSleep?
    ensures !s.discarding && s.active == 0
    ensures forall t :: t in s.pc && s.pc[t].FeedSleep? ==> |s.items| == C
    ensures forall t :: t in s.pc && s.pc[t].FullSleep? ==> |s.items| < C
  {
  }

  /** Locks are only nested state before data, so whoever holds the last one can move. */
  lemma LockHoldersMove<T>(s: Room<T>, C: nat)
    requires Inv(s, C)
    ensures s.data.Some? ==> Enabled(s, s.data.value)
    ensures forall t :: t in s.shared ==> Enabled(s, t)
    ensures s.state.Some? && s.data.None? && s.shared == {} ==> Enabled(s, s.state.value)
  {
  }

  // ---------------------------------------------------------------- progress of Discard

  /** Atomic actions a registered thread has left. */
  function ReaderRank<T>(p: Pc<T>): nat {
    match p
    case ReadLockData(_) => 4
    case ReadLambda(_) => 3
    case ReadLeave(_) => 2
    case ReadUnregister(_) => 1
    case _ => 0
  }

  /** Threads with at least `k` actions left. */
  function AtLeast<T>(s: Room<T>, k: nat): set<Tid> {
    set t | t in s.pc && ReaderRank(s.pc[t]) >= k
  }

  /** What the discarder has left, counting the wait for the readers once. */
  function DiscardRank<T>(p: Pc<T>, active: nat): nat {
    match p
    case DiscardWake => if active > 0 then 9 else 6
    case DiscardTest => if active > 0 then 8 else 5
    case DiscardSleep => 7
    case DiscardLockData => 4
    case DiscardClear => 3
    case DiscardRelock => 2
    case DiscardReset => 1
    case _ => 0
  }

  function Remaining<T>(s: Room<T>): nat {
    |AtLeast(s, 1)| + |AtLeast(s, 2)| + |AtLeast(s, 3)| + |AtLeast(s, 4)|
    + if s.discarder.Some? && s.discarder.value in s.pc then DiscardRank(s.pc[s.discarder.value], s.active) else 0
  }

  /** The threads a discard has to wait for, and the discarder itself. */
  predicate Involved<T>(s: Room<T>, t: Tid) {
    t in s.pc && (Registered(s.pc[t]) || s.discarder == Some(t))
  }

  /** How one action changes the ranks: its own by one, nobody else's. */
  lemma RankOf<T>(s: Room<T>, s': Room<T>, t: Tid, k: nat)
    requires t in s.pc && s'.pc.Keys == s.pc.Keys
    requires forall u :: u in s.pc && u != t ==> ReaderRank(s'.pc[u]) == ReaderRank(s.pc[u])
    ensures AtLeast(s', k) == if ReaderRank(s'.pc[t]) >= k then AtLeast(s, k) + {t} else AtLeast(s, k) - {t}
    ensures t in AtLeast(s, k) <==> ReaderRank(s.pc[t]) >= k
  {
  }

  lemma RanksFall<T>(s: Room<T>, s': Room<T>, t: Tid)
    requires t in s.pc && s'.pc.Keys == s.pc.Keys
    requires forall u :: u in s.pc && u != t ==> ReaderRank(s'.pc[u]) == ReaderRank(s.pc[u])
    requires ReaderRank(s'.pc[t]) == if ReaderRank(s.pc[t]) == 0 then 0 else ReaderRank(s.pc[t]) - 1
    ensures |AtLeast(s', 1)| + |AtLeast(s', 2)| + |AtLeast(s', 3)| + |AtLeast(s', 4)|
            + (if ReaderRank(s.pc[t]) > 0 then 1 else 0)
            == |AtLeast(s, 1)| + |AtLeast(s, 2)| + |AtLeast(s, 3)| + |AtLeast(s, 4)|
  {
    RankOf(s, s', t, 1);
    RankOf(s, s', t, 2);
    RankOf(s, s', t, 3);
    RankOf(s, s', t, 4);
  }

  lemma RanksWhileDiscarding<T>(s: Room<T>, t: Tid, u: Tid, C: nat)
    requires Inv(s, C) && s.discarding && Enabled(s, t) && u in s.pc && (Registered(s.pc[t]) ==> s.active > 0)
    ensures var s' := Do(s, t, C);
            && s'.pc.Keys == s.pc.Keys
            && (u != t ==> ReaderRank(s'.pc[u]) == ReaderRank(s.pc[u]))
            && (u == t ==> ReaderRank(s'.pc[t]) == if ReaderRank(s.pc[t]) == 0 then 0 else ReaderRank(s.pc[t]) - 1)
  {
    WakeKeepsRank(s.pc[u]);
    RegistrationOfItself(s, t, C);
    if u != t {
      OthersOnlyWake(s, t, u, C);
    } else {
      OwnRank(s, t, C);
    }
  }

  lemma OwnRank<T>(s: Room<T>, t: Tid, C: nat)
    requires Inv(s, C) && s.discarding && Enabled(s, t) && (Registered(s.pc[t]) ==> s.active > 0)
    ensures ReaderRank(Do(s, t, C).pc[t]) == if ReaderRank(s.pc[t]) == 0 then 0 else ReaderRank(s.pc[t]) - 1
  {
  }

  lemma WakeKeepsRank<T>(p: Pc<T>)
    ensures forall cv :: ReaderRank(WakeOne(p, cv)) == ReaderRank(p)
  {
  }

  lemma DiscardRankFalls<T>(s: Room<T>, t: Tid, C: nat)
    requires Inv(s, C) && s.discarding && Enabled(s, t) && (Registered(s.pc[t]) ==> s.active > 0)
    ensures var s', d := Do(s, t, C), s.discarder.value;
            var before := DiscardRank(s.pc[d], s.active);
            var after := if s'.discarder.Some? then DiscardRank(s'.pc[d], s'.active) else 0;
            && d in s'.pc && (s'.discarder.Some? ==> s'.discarder == s.discarder)
            && (t == d ==> after < before)
            && (t != d && !Registered(s.pc[t]) ==> after == before)
            && after <= before
  {
    assert ThreadOk(s, t, C) && ThreadOk(s, s.discarder.value, C);
    RegistrationOfItself(s, t, C);
    if InFeed(s.pc[t]) {
      FeedKeepsDiscardRank(s, t, s.discarder.value, C);
    } else if InRead(s.pc[t]) {
      ReadLowersDiscardRank(s, t, s.discarder.value, C);
    } else {
      DiscardLowersItself(s, t);
    }
  }

  lemma ReadLowersDiscardRank<T>(s: Room<T>, t: Tid, d: Tid, C: nat)
    requires Enabled(s, t) && InRead(s.pc[t]) && s.discarder == Some(d) && d in s.pc && t != d
    requires Registered(s.pc[t]) ==> s.active > 0
    requires s.discarding && FlagSet(s.pc[d])
    ensures var s' := DoRead(s, t, C);
            && d in s'.pc && s'.discarder == s.discarder
            && DiscardRank(s'.pc[d], s'.active) <= DiscardRank(s.pc[d], s.active)
            && (!Registered(s.pc[t]) ==> DiscardRank(s'.pc[d], s'.active) == DiscardRank(s.pc[d], s.active))
  {
  }

  lemma DiscardLowersItself<T>(s: Room<T>, t: Tid)
    requires Enabled(s, t) && InDiscard(s.pc[t]) && s.discarder == Some(t) && s.discarding && FlagSet(s.pc[t])
    ensures var s' := DoDiscard(s, t);
            && t in s'.pc && (s'.discarder.Some? ==> s'.discarder == s.discarder)
            && (if s'.discarder.Some? then DiscardRank(s'.pc[t], s'.active) else 0) < DiscardRank(s.pc[t], s.active)
  {
  }

  lemma FeedKeepsDiscardRank<T>(s: Room<T>, t: Tid, d: Tid, C: nat)
    requires Enabled(s, t) && InFeed(s.pc[t]) && s.discarder == Some(d) && d in s.pc && t != d
    ensures var s' := DoFeed(s, t, C);
            && d in s'.pc && s'.discarder == s.discarder
            && DiscardRank(s'.pc[d], s'.active) == DiscardRank(s.pc[d], s.active)
  {
  }

  /** Once the flag is set nobody can feed or register, and every action of a registered
      reader or of the discarder brings the clear closer; no other action sets it back. */
  lemma DiscardMakesProgress<T>(s: Room<T>, t: Tid, C: nat)
    requires Inv(s, C) && s.discarding && Enabled(s, t) && (Registered(s.pc[t]) ==> s.active > 0)
    ensures var s' := Do(s, t, C);
            && (if Involved(s, t) then Remaining(s') < Remaining(s) else Remaining(s') == Remaining(s))
            && RegisteredSet(s') <= RegisteredSet(s)
            && (s'.items == s.items || (s.pc[t].DiscardClear? && s'.items == [] && RegisteredSet(s) == {}))
  {
    var s' := Do(s, t, C);
    assert ThreadOk(s, t, C) && ThreadOk(s, s.discarder.value, C);
    forall u | u in s.pc
      ensures s'.pc.Keys == s.pc.Keys
      ensures u != t ==> ReaderRank(s'.pc[u]) == ReaderRank(s.pc[u])
      ensures u == t ==> ReaderRank(s'.pc[t]) == if ReaderRank(s.pc[t]) == 0 then 0 else ReaderRank(s.pc[t]) - 1
    {
      RanksWhileDiscarding(s, t, u, C);
    }
    RanksFall(s, s', t);
    DiscardRankFalls(s, t, C);
    RankOf(s, s', t, 1);
    RanksAreRegistration(s);
    RanksAreRegistration(s');
    ItemsStep(s, DoStep(t), s', C);
  }

  /** A new call or a spurious wake-up changes nothing that a discard waits for, except that the
      discarder itself has to look again. */
  lemma OthersKeepRemaining<T>(s: Room<T>, step: Step<T>, s': Room<T>, C: nat)
    requires Inv(s, C) && s.discarding && StepTo(s, step, s', C) && !step.DoStep?
    ensures Remaining(s') == Remaining(s) + if s.discarder == Some(step.t) then 2 else 0
  {
    assert ThreadOk(s, step.t, C) && ThreadOk(s, s.discarder.value, C);
    if step.StartStep? {
      StartKeepsRemaining(s, step.t, step.call, s.discarder.value);
    } else {
      SpuriousAddsTwo(s, step.t, s.discarder.value);
    }
  }

  lemma StartKeepsRemaining<T>(s: Room<T>, t: Tid, call: Call<T>, d: Tid)
    requires t in s.pc && s.pc[t].Idle? && s.discarder == Some(d) && d in s.pc && t != d && !call.Discard?
    ensures Remaining(Start(s, t, call)) == Remaining(s)
  {
    RanksFall(s, Start(s, t, call), t);
  }

  lemma SpuriousAddsTwo<T>(s: Room<T>, t: Tid, d: Tid)
    requires t in s.pc && Sleeping(s.pc[t]) && s.discarder == Some(d) && d in s.pc
    requires s.pc[d].DiscardSleep? ==> s.active > 0
    requires s.pc[t].DiscardSleep? <==> t == d
    ensures Remaining(Spurious(s, t)) == Remaining(s) + if t == d then 2 else 0
  {
    RanksFall(s, Spurious(s, t), t);
  }

  /** A stretch of a run during which the flag is set. */
  ghost predicate WhileDiscarding<T(!new)>(tr: seq<Room<T>>, steps: seq<Step<T>>, C: nat) {
    && |tr| == |steps| + 1
    && forall i :: 0 <= i < |steps| ==> tr[i].discarding && StepTo(tr[i], steps[i], tr[i + 1], C)
  }

  /** How many of the steps are actions of readers or of the discarder. */
  function InvolvedSteps<T>(tr: seq<Room<T>>, steps: seq<Step<T>>): nat
    requires |tr| == |steps| + 1
  {
    if steps == [] then 0
    else
      var k := |steps| - 1;
      InvolvedSteps(tr[..k + 1], steps[..k])
      + if steps[k].DoStep? && Involved(tr[k], steps[k].t) then 1 else 0
  }

  /** How often the discarder returns from its wait without having been notified. */
  function DiscarderWakes<T>(tr: seq<Room<T>>, steps: seq<Step<T>>): nat
    requires |tr| == |steps| + 1
  {
    if steps == [] then 0
    else
      var k := |steps| - 1;
      DiscarderWakes(tr[..k + 1], steps[..k])
      + if steps[k].SpuriousStep? && tr[k].discarder == Some(steps[k].t) then 1 else 0
  }

  /** Over a whole run: while the flag is set, readers and the discarder together take no more
      steps than were left at the start, which is at most four per reader and nine, and two more
      for every spurious wake-up of the discarder. */
  lemma {:induction false} DiscardEnds<T(!new)>(tr: seq<Room<T>>, steps: seq<Step<T>>, C: nat)
    requires WhileDiscarding(tr, steps, C) && Inv(tr[0], C)
    ensures Inv(tr[|steps|], C)
    ensures InvolvedSteps(tr, steps) + Remaining(tr[|steps|]) <= Remaining(tr[0]) + 2 * DiscarderWakes(tr, steps)
    ensures Remaining(tr[0]) <= 4 * tr[0].active + 9
    decreases |steps|
  {
    RemainingBound(tr[0], C);
    if steps != [] {
      var k := |steps| - 1;
      DiscardingFront(tr, steps, C, k);
      DiscardEnds(tr[..k + 1], steps[..k], C);
      StepIsInv(tr[k], steps[k], tr[k + 1], C);
      OneStepOfDiscard(tr[k], steps[k], tr[k + 1], C);
    }
  }

  lemma {:induction false} DiscardingFront<T(!new)>(tr: seq<Room<T>>, steps: seq<Step<T>>, C: nat, k: nat)
    requires WhileDiscarding(tr, steps, C) && k < |steps|
    ensures WhileDiscarding(tr[..k + 1], steps[..k], C)
  {
  }

  lemma {:induction false} OneStepOfDiscard<T>(s: Room<T>, step: Step<T>, s': Room<T>, C: nat)
    requires Inv(s, C) && s.discarding && StepTo(s, step, s', C)
    ensures Remaining(s') + (if step.DoStep? && Involved(s, step.t) then 1 else 0) <=
            Remaining(s) + if step.SpuriousStep? && s.discarder == Some(step.t) then 2 else 0
  {
    assert ThreadOk(s, step.t, C);
    if step.DoStep? {
      if Registered(s.pc[step.t]) {
        CountsReader(s, step.t, C);
      }
      DiscardMakesProgress(s, step.t, C);
    } else {
      OthersKeepRemaining(s, step, s', C);
    }
  }

  /** The flag is set, and the room is still to be cleared. */
  predicate BeforeClear<T>(s: Room<T>) {
    && s.discarding && s.discarder.Some? && s.discarder.value in s.pc
    && var p := s.pc[s.discarder.value];
    && FlagSet(p) && !p.DiscardRelock? && !p.DiscardReset?
  }

  /** A discard purges exactly what was in the room when its flag was set: until the clear
      nothing changes, and behind it, also once the flag is reset, everything is purged. */
  lemma {:induction false} DiscardClears<T(!new)>(tr: seq<Room<T>>, steps: seq<Step<T>>, C: nat)
    requires WhileDiscarding(tr, steps, C) && Inv(tr[0], C) && BeforeClear(tr[0])
    ensures var s, s' := tr[0], tr[|steps|];
            if BeforeClear(s') then s'.items == s.items && s'.purged == s.purged
            else s'.items == [] && s'.purged == s.purged + s.items
    decreases |steps|
  {
    if steps != [] {
      var k := |steps| - 1;
      DiscardingFront(tr, steps, C, k);
      DiscardEnds(tr[..k + 1], steps[..k], C);
      DiscardClears(tr[..k + 1], steps[..k], C);
      OneStepOfClear(tr[k], steps[k], tr[k + 1], C);
    }
  }

  lemma {:induction false} OneStepOfClear<T>(s: Room<T>, step: Step<T>, s': Room<T>, C: nat)
    requires Inv(s, C) && s.discarding && StepTo(s, step, s', C)
    ensures BeforeClear(s') ==> BeforeClear(s) && s'.items == s.items && s'.purged == s.purged
    ensures !BeforeClear(s') && BeforeClear(s) ==> s'.items == [] && s'.purged == s.purged + s.items
    ensures !BeforeClear(s) ==> s'.items == s.items && s'.purged == s.purged
  {
    var d := s.discarder.value;
    assert ThreadOk(s, step.t, C) && ThreadOk(s, d, C);
    if step.t == d && step.DoStep? {
      DiscarderClears(s, d);
    } else {
      ItemsStep(s, step, s', C);
      OthersKeepDiscarder(s, step, s', d, C);
    }
  }

  lemma DiscarderClears<T>(s: Room<T>, d: Tid)
    requires s.discarding && s.discarder == Some(d) && d in s.pc && FlagSet(s.pc[d]) && Enabled(s, d)
    ensures var s' := DoDiscard(s, d);
            && (BeforeClear(s') <==> BeforeClear(s) && !s.pc[d].DiscardClear?)
            && (if s.pc[d].DiscardClear? then s'.items == [] && s'.purged == s.purged + s.items
                else s'.items == s.items && s'.purged == s.purged)
  {
  }

  lemma OthersKeepDiscarder<T>(s: Room<T>, step: Step<T>, s': Room<T>, d: Tid, C: nat)
    requires Inv(s, C) && s.discarding && s.discarder == Some(d)
    requires StepTo(s, step, s', C) && (step.DoStep? ==> step.t != d)
    ensures s'.discarding && s'.discarder == s.discarder && d in s'.pc && StaysOrWakes(s.pc[d], s'.pc[d])
  {
    assert ThreadOk(s, step.t, C) && ThreadOk(s, d, C);
    if step.DoStep? {
      if Registered(s.pc[step.t]) {
        CountsReader(s, step.t, C);
      }
      OthersOnlyWake(s, step.t, d, C);
      OthersKeepFlag(s, step.t, C);
    }
  }

  lemma OthersKeepFlag<T>(s: Room<T>, t: Tid, C: nat)
    requires Enabled(s, t) && (Registered(s.pc[t]) ==> s.active > 0) && !InDiscard(s.pc[t])
    ensures Do(s, t, C).discarding == s.discarding && Do(s, t, C).discarder == s.discarder
  {
  }

  lemma RemainingBound<T>(s: Room<T>, C: nat)
    requires Inv(s, C)
    ensures Remaining(s) <= 4 * s.active + 9
  {
    SubsetSize(AtLeast(s, 1), RegisteredSet(s));
    SubsetSize(AtLeast(s, 2), RegisteredSet(s));
    SubsetSize(AtLeast(s, 3), RegisteredSet(s));
    SubsetSize(AtLeast(s, 4), RegisteredSet(s));
  }

  lemma RanksAreRegistration<T>(s: Room<T>)
    ensures RegisteredSet(s) == AtLeast(s, 1)
  {
  }

  /** While a discard is under way someone it depends on can move, or the state mutex is
      held by a thread that gives it back with its very next action. */
  lemma DiscardIsNeverBlocked<T>(s: Room<T>, C: nat)
    requires Inv(s, C) && s.discarding
    ensures || (exists t :: Enabled(s, t) && Involved(s, t))
            || (s.state.Some? && Enabled(s, s.state.value)
                && (s.pc[s.state.value].FeedTest? || s.pc[s.state.value].FullTest? || s.pc[s.state.value].CurrentTest?)
                && Do(s, s.state.value, C).state.None?)
  {
    var d := s.discarder.value;
    assert ThreadOk(s, d, C);
    LockHoldersMove(s, C);
    if s.data.Some? {
      assert ThreadOk(s, s.data.value, C);
      assert Involved(s, s.data.value);
    } else if s.shared != {} {
      var t :| t in s.shared;
      assert ThreadOk(s, t, C);
      assert Involved(s, t);
    } else if s.state.Some? {
      assert ThreadOk(s, s.state.value, C);
    } else if s.pc[d].DiscardSleep? {
      assert RegisteredSet(s) != {};
      var t :| t in RegisteredSet(s);
      assert ThreadOk(s, t, C);
      assert Enabled(s, t) && Involved(s, t);
    } else {
      assert Enabled(s, d) && Involved(s, d);
    }
  }
}
