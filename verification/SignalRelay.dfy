/** Whether a parent signal is re-raised in the end: what every continuation of a run does, and when none can. */
module SignalRelay {
  import opened Results
  import opened ProcessSupervisor

  // ----- continuations

  function Continue(w: World, more: seq<Event>): World
    decreases |more|
  {
    if more == [] then w else Continue(Step(w, more[0]), more[1..])
  }

  predicate StepReraises(w: World, e: Event) {
    Step(w, e).log != w.log && EndsWithReraise(Step(w, e).log)
  }

  /** Some step of the continuation re-raises. */
  predicate ReraisesIn(w: World, more: seq<Event>)
    decreases |more|
  {
    more != [] && (StepReraises(w, more[0]) || ReraisesIn(Step(w, more[0]), more[1..]))
  }

  predicate StartsNothing(more: seq<Event>) {
    forall e :: e in more ==> !e.Start?
  }

  // The log only grew, and a re-raise is the last thing added.
  ghost predicate Notes(w: World, v: World) {
    && w.log <= v.log
    && forall k :: |w.log| <= k < |v.log| && v.log[k].Reraised? ==> k == |v.log| - 1
  }

  lemma ParentSignalNotes(w: World, i: nat, signal: Signal, delivery: Delivery, alive: bool)
    requires i < |w.runs|
    ensures Notes(w, OnParentSignal(w, i, signal, delivery, alive))
  {
  }

  lemma KillTimerNotes(w: World, i: nat, delivery: Delivery)
    requires i < |w.runs|
    ensures Notes(w, OnKillTimer(w, i, delivery))
  {
  }

  lemma CloseNotes(w: World, i: nat, close: Close, alive: bool)
    requires i < |w.runs|
    ensures Notes(w, OnClose(w, i, close, alive))
  {
  }

  lemma StepNotes(w: World, e: Event)
    ensures Notes(w, Step(w, e))
  {
    if Enabled(w, e) {
      match e
      case ParentSignal(i, signal, delivery, alive) => ParentSignalNotes(w, i, signal, delivery, alive);
      case KillTimerFires(i, delivery) => KillTimerNotes(w, i, delivery);
      case ChildCloses(i, close, alive) => CloseNotes(w, i, close, alive);
      case _ =>
    }
  }

  ghost predicate AddsReraise(before: seq<Effect>, log: seq<Effect>) {
    exists k :: |before| <= k < |log| && log[k].Reraised?
  }

  lemma AddsInTwo(w: World, v: World, log: seq<Effect>)
    requires Notes(w, v) && v.log <= log
    ensures AddsReraise(w.log, log) <==> (v.log != w.log && EndsWithReraise(v.log)) || AddsReraise(v.log, log)
  {
    assert forall k :: 0 <= k < |v.log| ==> log[k] == v.log[k];
    if v.log != w.log && EndsWithReraise(v.log) {
      assert log[|v.log| - 1].Reraised?;
    }
    if k :| |w.log| <= k < |log| && log[k].Reraised? {
      if k < |v.log| { assert v.log[k].Reraised?; }
    }
  }

  /** That is, the continuation adds a re-raise to the log. */
  lemma {:induction false} ReraisesInMeans(w: World, more: seq<Event>)
    ensures w.log <= Continue(w, more).log
    ensures ReraisesIn(w, more) <==> AddsReraise(w.log, Continue(w, more).log)
    decreases |more|
  {
    if more != [] {
      var v := Step(w, more[0]);
      StepNotes(w, more[0]);
      ReraisesInMeans(v, more[1..]);
      AddsInTwo(w, v, Continue(w, more).log);
    }
  }

  lemma {:induction false} AfterContinued(events: seq<Event>, more: seq<Event>)
    ensures After(events + more) == Continue(After(events), more)
    decreases |more|
  {
    if more == [] {
      assert events + more == events;
    } else {
      assert (events + [more[0]])[..|events|] == events;
      AfterContinued(events + [more[0]], more[1..]);
      assert events + more == events + [more[0]] + more[1..];
    }
  }

  lemma StepReraisesWhen(w: World, e: Event)
    ensures StepReraises(w, e) <==> Completes(w, e) && AllDone(Step(w, e))
  {
    if Enabled(w, e) && Step(w, e).log != w.log { StepReraisesIff(w, e); }
    if Completes(w, e) { assert |Step(w, e).log| > |w.log|; }
  }

  // ----- a run that was signalled and is not done has its kill timer running

  predicate RelayOk(run: Run) {
    && (run.killTimer.AfterParentSignal? ==> run.waitingForKillGrace)
    && (run.parentSignal.Some? && !run.done ==> run.killTimer.AfterParentSignal?)
  }

  ghost predicate Relaying(w: World) {
    forall i :: 0 <= i < |w.runs| ==> RelayOk(w.runs[i])
  }

  // An event other than a start or a signal: nobody is signalled, nothing is undone, no timer is set for a signal.
  ghost predicate RunEvolves(before: Run, after: Run) {
    && after.parentSignal == before.parentSignal
    && (before.done ==> after.done) && (before.closeSeen ==> after.closeSeen)
    && (after.killTimer.AfterParentSignal? ==> before.killTimer.AfterParentSignal?)
    && (RelayOk(before) ==> RelayOk(after))
  }

  ghost predicate Evolves(w: World, v: World) {
    && |v.runs| == |w.runs| && v.active <= w.active
    && forall j :: 0 <= j < |w.runs| ==> RunEvolves(w.runs[j], v.runs[j])
  }

  lemma EvolvesOne(w: World, v: World, i: nat)
    requires i < |w.runs| && v.active <= w.active && |v.runs| == |w.runs| && v.runs == w.runs[i := v.runs[i]]
    requires RunEvolves(w.runs[i], v.runs[i])
    ensures Evolves(w, v)
  {
  }

  lemma TimeoutEvolves(w: World, i: nat, delivery: Delivery)
    requires i < |w.runs|
    ensures Evolves(w, OnTimeout(w, i, delivery))
  {
    var fired := w.Put(i, w.runs[i].(timedOut := true, timeoutArmed := false)).Note(TimeoutFired(i));
    SignalChildShape(fired, i, SIGTERM, delivery);
    EvolvesOne(w, OnTimeout(w, i, delivery), i);
  }

  lemma SettleEvolves(w: World, v: World, i: nat, outcome: Outcome)
    requires i < |w.runs| && v.active <= w.active && |v.runs| == |w.runs| && v.runs == w.runs[i := v.runs[i]]
    requires RunEvolves(w.runs[i], v.runs[i])
    ensures Evolves(w, Settle(v, i, outcome))
  {
    EvolvesOne(w, Settle(v, i, outcome), i);
  }

  lemma FinishSignalEvolves(w: World, v: World, i: nat, signal: Signal)
    requires i < |w.runs| && v.active <= w.active && |v.runs| == |w.runs| && v.runs == w.runs[i := v.runs[i]]
    requires RunEvolves(w.runs[i], v.runs[i].(done := true))
    ensures Evolves(w, FinishSignal(v, i, signal))
  {
    EvolvesOne(w, FinishSignal(v, i, signal), i);
  }

  lemma KillTimerEvolves(w: World, i: nat, delivery: Delivery)
    requires i < |w.runs| && w.runs[i].killTimer != NoTimer
    ensures Evolves(w, OnKillTimer(w, i, delivery))
  {
    var cleared := w.Put(i, w.runs[i].(waitingForKillGrace := false, killTimer := NoTimer));
    SignalChildShape(cleared, i, SIGKILL, delivery);
    var killed := SignalChild(cleared, i, SIGKILL, delivery);
    assert killed.runs == w.runs[i := killed.runs[i]];
    match w.runs[i].killTimer
    case AfterParentSignal(signal) => FinishSignalEvolves(w, killed, i, signal);
    case AfterTimeout =>
      EvolvesOne(w, killed, i);
      if killed.runs[i].childClosedResult.Some? {
        SettleEvolves(w, killed, i, CloseOutcome(killed.runs[i], killed.runs[i].childClosedResult.value));
      }
  }

  lemma CloseEvolves(w: World, i: nat, close: Close, alive: bool)
    requires i < |w.runs|
    ensures Evolves(w, OnClose(w, i, close, alive))
  {
    var closed := w.Put(i, w.runs[i].(closeSeen := true)).Note(Closed(i, close));
    var run := closed.runs[i];
    var probed := Probe(closed, i, alive);
    if (run.parentSignal.Some? || run.waitingForKillGrace) && run.config.hasPid && alive {
      EvolvesOne(w, OnClose(w, i, close, alive), i);
    } else if run.parentSignal.Some? {
      FinishSignalEvolves(w, probed.Put(i, run.(killTimer := NoTimer)), i, run.parentSignal.value);
    } else {
      SettleEvolves(w, if run.waitingForKillGrace then probed else closed, i, CloseOutcome(run, close));
    }
  }

  lemma StepEvolves(w: World, e: Event)
    requires Enabled(w, e) && !e.Start? && !e.ParentSignal?
    ensures Evolves(w, Step(w, e))
  {
    match e
    case TimeoutFires(i, delivery) => TimeoutEvolves(w, i, delivery);
    case KillTimerFires(i, delivery) => KillTimerEvolves(w, i, delivery);
    case ChildCloses(i, close, alive) => CloseEvolves(w, i, close, alive);
    case ChildErrors(i) => SettleEvolves(w, w.Put(i, w.runs[i].(errorSeen := true)).Note(Errored(i)), i, SpawnError);
    case StdoutData(i, chunk) => EvolvesOne(w, OnStdout(w, i, chunk), i);
    case StderrData(i, chunk) => EvolvesOne(w, OnStderr(w, i, chunk), i);
  }

  // The signal itself: run i is done, or its kill timer runs.
  lemma ParentSignalShape(w: World, i: nat, signal: Signal, delivery: Delivery, alive: bool)
    requires i < |w.runs|
    ensures var v := OnParentSignal(w, i, signal, delivery, alive);
      && |v.runs| == |w.runs| && v.active == w.active && v.runs == w.runs[i := v.runs[i]]
      && v.runs[i].parentSignal.Some? && v.runs[i].closeSeen == w.runs[i].closeSeen
      && if !(w.runs[i].config.hasPid && alive) then
           v.runs[i].done && v.runs[i].killTimer == w.runs[i].killTimer &&
             v.runs[i].waitingForKillGrace == w.runs[i].waitingForKillGrace
         else
           v.runs[i].done == w.runs[i].done && v.runs[i].killTimer == AfterParentSignal(signal) &&
             v.runs[i].waitingForKillGrace
  {
    var signalled :=
      w.Put(i, w.runs[i].(parentSignal := Some(signal), listening := false)).Note(Signalled(i, signal));
    SignalChildShape(signalled, i, signal, delivery);
  }

  lemma StepRelays(w: World, e: Event)
    requires Relaying(w)
    ensures Relaying(Step(w, e))
  {
    if Enabled(w, e) {
      match e
      case Start(config) =>
      case ParentSignal(i, signal, delivery, alive) =>
        assert RelayOk(w.runs[i]);
        ParentSignalShape(w, i, signal, delivery, alive);
      case _ => StepEvolves(w, e);
    }
  }

  lemma {:induction false} AfterRelays(events: seq<Event>)
    ensures Relaying(After(events))
  {
    if events != [] {
      AfterRelays(events[..|events| - 1]);
      StepRelays(After(events[..|events| - 1]), events[|events| - 1]);
    }
  }

  // What holds of every reachable world.
  ghost predicate Reachable(w: World) {
    Invariant(w) && Relaying(w)
  }

  lemma StepStaysReachable(w: World, e: Event)
    requires Reachable(w)
    ensures Reachable(Step(w, e))
  {
    StepKeeps(w, e);
    StepRelays(w, e);
  }

  lemma AfterIsReachable(events: seq<Event>)
    ensures Reachable(After(events))
  {
    AfterKeeps(events);
    AfterRelays(events);
  }

  // Only an active run still listens, and one that was not signalled does.
  lemma ListeningMeans(w: World, i: nat)
    requires Invariant(w) && i < |w.runs|
    ensures w.runs[i].listening <==> i in w.active && w.runs[i].parentSignal.None?
    ensures w.runs[i].parentSignal.Some? ==> i in w.active
  {
    assert RunOk(w.runs[i], HistoryOf(w.log, i), i in w.active);
  }

  // ----- when nothing can re-raise any more

  // Neither the run's close nor its kill timer will look at the shared set again.
  predicate IsOver(run: Run) {
    run.closeSeen && !run.killTimer.AfterParentSignal?
  }

  /** Every active run was signalled and is done, has closed, and has no kill timer left from the signal. */
  predicate Stuck(w: World) {
    AllDone(w) && forall j :: j in w.active && j < |w.runs| ==> IsOver(w.runs[j])
  }

  lemma StuckStays(w: World, e: Event)
    requires Reachable(w) && Stuck(w) && !e.Start?
    ensures Stuck(Step(w, e)) && !StepReraises(w, e)
  {
    if Enabled(w, e) {
      if e.ParentSignal? {
        ListeningMeans(w, e.run);
        assert false;
      }
      var v := Step(w, e);
      StepEvolves(w, e);
      forall j | j in v.active && j < |v.runs|
        ensures v.runs[j].parentSignal.Some? && v.runs[j].done && IsOver(v.runs[j])
      {
        assert RunEvolves(w.runs[j], v.runs[j]);
      }
      if e.KillTimerFires? || e.ChildCloses? { ListeningMeans(w, e.run); }
    }
    StepReraisesWhen(w, e);
  }

  lemma {:induction false} StuckForGood(w: World, more: seq<Event>)
    requires Reachable(w) && Stuck(w) && StartsNothing(more)
    ensures !ReraisesIn(w, more)
    decreases |more|
  {
    if more != [] {
      StuckStays(w, more[0]);
      StepStaysReachable(w, more[0]);
      StuckForGood(Step(w, more[0]), more[1..]);
    }
  }

  ghost function Unfinished(w: World): set<nat> {
    set j | j in w.active && j < |w.runs| && !(w.runs[j].parentSignal.Some? && w.runs[j].done)
  }

  // An event that completes run j: its close, its kill timer, or the signal itself.
  function Completing(w: World, j: nat): Event
    requires j < |w.runs|
  {
    if w.runs[j].listening then ParentSignal(j, SIGTERM, Delivered, false)
    else if w.runs[j].killTimer.AfterParentSignal? then KillTimerFires(j, Delivered)
    else ChildCloses(j, Close(None, None), false)
  }

  // Run j is now signalled and done; no other run changed.
  ghost predicate Finishes(w: World, v: World, j: nat)
    requires j < |w.runs|
  {
    && v.active == w.active && |v.runs| == |w.runs| && v.runs == w.runs[j := v.runs[j]]
    && v.runs[j].parentSignal.Some? && v.runs[j].done
  }

  lemma KillTimerFinishes(w: World, j: nat, delivery: Delivery)
    requires j < |w.runs| && w.runs[j].killTimer.AfterParentSignal? && w.runs[j].parentSignal.Some?
    ensures Finishes(w, OnKillTimer(w, j, delivery), j)
  {
    var cleared := w.Put(j, w.runs[j].(waitingForKillGrace := false, killTimer := NoTimer));
    SignalChildShape(cleared, j, SIGKILL, delivery);
  }

  lemma FinishingCounts(w: World, v: World, j: nat)
    requires j < |w.runs| && Finishes(w, v, j)
    ensures Unfinished(v) == Unfinished(w) - {j}
  {
    assert forall k :: 0 <= k < |w.runs| && k != j ==> v.runs[k] == w.runs[k];
  }

  lemma CompletingFinishes(w: World, j: nat)
    requires Reachable(w) && j in w.active && j < |w.runs|
    requires w.runs[j].parentSignal.Some? && w.runs[j].done ==> !IsOver(w.runs[j])
    ensures Completes(w, Completing(w, j))
    ensures Unfinished(Step(w, Completing(w, j))) == Unfinished(w) - {j}
  {
    ListeningMeans(w, j);
    assert RelayOk(w.runs[j]);
    var e := Completing(w, j);
    assert Finishes(w, Step(w, e), j) by {
      match e
      case ParentSignal(_, signal, delivery, alive) => ParentSignalShape(w, j, signal, delivery, alive);
      case KillTimerFires(_, delivery) => KillTimerFinishes(w, j, delivery);
      case ChildCloses(_, close, alive) =>
    }
    FinishingCounts(w, Step(w, e), j);
  }

  lemma NothingUnfinished(w: World)
    ensures AllDone(w) <==> Unfinished(w) == {}
  {
    if AllDone(w) {
      forall j | j in Unfinished(w) ensures false {}
    } else {
      var j :| j in w.active && j < |w.runs| && !(w.runs[j].parentSignal.Some? && w.runs[j].done);
      assert j in Unfinished(w);
    }
  }

  // A run whose completion brings the re-raise nearer.
  lemma SomeRunIsLeft(w: World) returns (j: nat)
    requires !Stuck(w)
    ensures j in w.active && j < |w.runs| && (AllDone(w) || j in Unfinished(w))
    ensures w.runs[j].parentSignal.Some? && w.runs[j].done ==> !IsOver(w.runs[j])
  {
    if AllDone(w) {
      j :| j in w.active && j < |w.runs| && !IsOver(w.runs[j]);
    } else {
      j :| j in w.active && j < |w.runs| && !(w.runs[j].parentSignal.Some? && w.runs[j].done);
    }
  }

  lemma {:induction false} ReraiseIsReachable(w: World) returns (more: seq<Event>)
    requires Reachable(w) && !Stuck(w)
    ensures StartsNothing(more) && ReraisesIn(w, more)
    decreases |Unfinished(w)|
  {
    NothingUnfinished(w);
    var j := SomeRunIsLeft(w);
    var e := Completing(w, j);
    var v := Step(w, e);
    CompletingFinishes(w, j);
    StepReraisesWhen(w, e);
    NothingUnfinished(v);
    if AllDone(v) {
      more := [e];
    } else {
      StepStaysReachable(w, e);
      assert j in Unfinished(w);
      var rest := ReraiseIsReachable(v);
      more := [e] + rest;
    }
  }

  /** No continuation without a new run re-raises exactly when the world is stuck. */
  lemma StuckIff(events: seq<Event>)
    ensures Stuck(After(events)) <==>
      forall more: seq<Event> :: StartsNothing(more) ==> !ReraisesIn(After(events), more)
  {
    var w := After(events);
    AfterIsReachable(events);
    if Stuck(w) {
      forall more: seq<Event> | StartsNothing(more) ensures !ReraisesIn(w, more) { StuckForGood(w, more); }
    } else {
      var more := ReraiseIsReachable(w);
    }
  }

  // ----- how a world gets stuck

  // Of the active runs, only run i is not yet signalled and done, and it was not signalled at all.
  ghost predicate OnlyWaitsFor(w: World, i: nat) {
    && i < |w.runs| && i in w.active && w.runs[i].parentSignal.None?
    && forall j :: j in w.active && j < |w.runs| && j != i ==> w.runs[j].parentSignal.Some? && w.runs[j].done
  }

  // The event ends run i, had it not settled before.
  predicate Ends(w: World, e: Event, i: nat) {
    Enabled(w, e) && match e
      case ChildErrors(j) => j == i
      case ChildCloses(j, _, alive) => j == i && !(w.runs[i].waitingForKillGrace && w.runs[i].config.hasPid && alive)
      case KillTimerFires(j, _) => j == i && w.runs[i].killTimer.AfterTimeout? && w.runs[i].childClosedResult.Some?
      case _ => false
  }

  // Run i changed only in what matters to nobody else.
  ghost predicate Alike(w: World, v: World, i: nat)
    requires i < |w.runs|
  {
    && v.active == w.active && |v.runs| == |w.runs| && v.runs == w.runs[i := v.runs[i]]
    && v.runs[i].parentSignal == w.runs[i].parentSignal && v.runs[i].done == w.runs[i].done &&
      v.runs[i].outcome == w.runs[i].outcome
  }

  lemma AlikeWaits(w: World, v: World, i: nat, k: nat)
    requires i < |w.runs| && Alike(w, v, i)
    ensures AllDone(v) <==> AllDone(w)
    ensures OnlyWaitsFor(v, k) <==> OnlyWaitsFor(w, k)
  {
    assert forall j :: 0 <= j < |w.runs| ==>
      v.runs[j].parentSignal == w.runs[j].parentSignal && v.runs[j].done == w.runs[j].done;
  }

  // Settling a run leaves only finished relays behind when it was the one run waited for.
  lemma SettleHides(w: World, v: World, i: nat, outcome: Outcome)
    requires i < |w.runs| && Alike(w, v, i) && outcome != Pending && !AllDone(w)
    requires w.runs[i].outcome != Pending && w.runs[i].parentSignal.None? ==> i !in w.active
    ensures AllDone(Settle(v, i, outcome)) <==> OnlyWaitsFor(w, i)
  {
    AlikeWaits(w, v, i, i);
    var next := Settle(v, i, outcome);
    assert forall j :: 0 <= j < |v.runs| ==>
      next.runs[j].parentSignal == v.runs[j].parentSignal && next.runs[j].done == v.runs[j].done;
    if v.runs[i].outcome == Pending && v.runs[i].parentSignal.None? {
      assert next.active == v.active - {i};
    } else {
      assert next.active == v.active;
    }
  }

  lemma StartIsWaitedFor(w: World, config: Config)
    ensures !AllDone(OnStart(w, config))
  {
    var v := OnStart(w, config);
    assert |w.runs| in v.active && v.runs[|w.runs|] == NewRun(config);
  }

  lemma RelayIsWaitedFor(w: World, i: nat, signal: Signal, delivery: Delivery, alive: bool)
    requires Invariant(w) && Enabled(w, ParentSignal(i, signal, delivery, alive)) && w.runs[i].config.hasPid && alive
    ensures !AllDone(OnParentSignal(w, i, signal, delivery, alive))
  {
    assert RunOk(w.runs[i], HistoryOf(w.log, i), i in w.active);
    var v := OnParentSignal(w, i, signal, delivery, alive);
    assert i in v.active && !v.runs[i].done;
  }

  // A step that completes no relay leaves every active run done exactly when it ends the one run waited for.
  lemma HiddenWithoutCompleting(w: World, e: Event)
    requires Invariant(w) && Enabled(w, e) && !AllDone(w) && !Completes(w, e)
    ensures AllDone(Step(w, e)) <==> exists i :: OnlyWaitsFor(w, i) && Ends(w, e, i)
  {
    match e
    case Start(config) => StartIsWaitedFor(w, config);
    case ParentSignal(i, signal, delivery, alive) => RelayIsWaitedFor(w, i, signal, delivery, alive);
    case TimeoutFires(i, delivery) => TimeoutHidesNothing(w, i, delivery);
    case KillTimerFires(i, delivery) => KillTimerHides(w, i, delivery);
    case ChildCloses(i, close, alive) => CloseHides(w, i, close, alive);
    case ChildErrors(i) => ErrorHides(w, i);
    case StdoutData(i, chunk) => AlikeWaits(w, OnStdout(w, i, chunk), i, i);
    case StderrData(i, chunk) => AlikeWaits(w, OnStderr(w, i, chunk), i, i);
  }

  lemma TimeoutHidesNothing(w: World, i: nat, delivery: Delivery)
    requires i < |w.runs|
    ensures AllDone(OnTimeout(w, i, delivery)) <==> AllDone(w)
  {
    var fired := w.Put(i, w.runs[i].(timedOut := true, timeoutArmed := false)).Note(TimeoutFired(i));
    SignalChildShape(fired, i, SIGTERM, delivery);
    AlikeWaits(w, OnTimeout(w, i, delivery), i, i);
  }

  lemma ErrorHides(w: World, i: nat)
    requires Invariant(w) && Enabled(w, ChildErrors(i)) && !AllDone(w)
    ensures AllDone(Step(w, ChildErrors(i))) <==> OnlyWaitsFor(w, i) && Ends(w, ChildErrors(i), i)
  {
    assert RunOk(w.runs[i], HistoryOf(w.log, i), i in w.active);
    SettleHides(w, w.Put(i, w.runs[i].(errorSeen := true)).Note(Errored(i)), i, SpawnError);
  }

  lemma KillTimerHides(w: World, i: nat, delivery: Delivery)
    requires Invariant(w) && Enabled(w, KillTimerFires(i, delivery)) && !AllDone(w) && w.runs[i].killTimer.AfterTimeout?
    ensures AllDone(OnKillTimer(w, i, delivery)) <==> OnlyWaitsFor(w, i) && Ends(w, KillTimerFires(i, delivery), i)
  {
    assert RunOk(w.runs[i], HistoryOf(w.log, i), i in w.active);
    var cleared := w.Put(i, w.runs[i].(waitingForKillGrace := false, killTimer := NoTimer));
    SignalChildShape(cleared, i, SIGKILL, delivery);
    var killed := SignalChild(cleared, i, SIGKILL, delivery);
    assert killed.runs == w.runs[i := killed.runs[i]];
    AlikeWaits(w, killed, i, i);
    if killed.runs[i].childClosedResult.Some? {
      SettleHides(w, killed, i, CloseOutcome(killed.runs[i], killed.runs[i].childClosedResult.value));
    }
  }

  lemma CloseHides(w: World, i: nat, close: Close, alive: bool)
    requires Invariant(w) && Enabled(w, ChildCloses(i, close, alive)) && !AllDone(w)
    requires w.runs[i].parentSignal.Some? ==> w.runs[i].config.hasPid && alive
    ensures AllDone(OnClose(w, i, close, alive)) <==> OnlyWaitsFor(w, i) && Ends(w, ChildCloses(i, close, alive), i)
  {
    assert RunOk(w.runs[i], HistoryOf(w.log, i), i in w.active);
    var closed := w.Put(i, w.runs[i].(closeSeen := true)).Note(Closed(i, close));
    var run := closed.runs[i];
    var groupAlive := run.config.hasPid && alive;
    var probed := Probe(closed, i, alive);
    if run.parentSignal.Some? || (run.waitingForKillGrace && groupAlive) {
      AlikeWaits(w, probed.Put(i, run.(childClosedResult := Some(close))), i, i);
    } else {
      SettleHides(w, if run.waitingForKillGrace then probed else closed, i, CloseOutcome(run, close));
    }
  }

  // A signalled child closes while its group lives on, with no kill timer left from the signal.
  predicate ClosesLate(w: World, e: Event, i: nat) {
    && Enabled(w, e) && e.ChildCloses? && e.run == i && w.runs[i].config.hasPid && e.alive
    && w.runs[i].parentSignal.Some? && !w.runs[i].killTimer.AfterParentSignal?
  }

  ghost predicate OthersAreOver(w: World, i: nat) {
    forall j :: j in w.active && j < |w.runs| && j != i ==> IsOver(w.runs[j])
  }

  ghost predicate OthersAreActive(w: World, i: nat) {
    exists j :: j in w.active && j != i
  }

  // Ending the one unsignalled run takes it out of the shared set and touches no other run.
  lemma EndingRemoves(w: World, e: Event, i: nat)
    requires Invariant(w) && OnlyWaitsFor(w, i) && Ends(w, e, i)
    ensures var v := Step(w, e);
      v.active == w.active - {i} && |v.runs| == |w.runs| &&
        forall j :: 0 <= j < |w.runs| && j != i ==> v.runs[j] == w.runs[j]
  {
    assert RunOk(w.runs[i], HistoryOf(w.log, i), i in w.active);
    if e.KillTimerFires? {
      var cleared := w.Put(i, w.runs[i].(waitingForKillGrace := false, killTimer := NoTimer));
      SignalChildShape(cleared, i, SIGKILL, e.delivery);
    }
  }

  lemma EndingSticks(w: World, e: Event, i: nat)
    requires Invariant(w) && OnlyWaitsFor(w, i) && Ends(w, e, i)
    ensures Stuck(Step(w, e)) <==> OthersAreOver(w, i)
    ensures Step(w, e).active != {} <==> OthersAreActive(w, i)
  {
    EndingRemoves(w, e, i);
    var v := Step(w, e);
    assert forall j :: j in v.active <==> j in w.active && j != i;
    if v.active != {} {
      var j :| j in v.active;
      assert j in w.active && j != i;
    }
  }

  // Run i changed, and not in what decides whether the world is stuck.
  lemma StaysAsItWas(w: World, v: World, i: nat)
    requires i < |w.runs| && v.active == w.active && |v.runs| == |w.runs| && v.runs == w.runs[i := v.runs[i]]
    requires i in w.active ==> v.runs[i].parentSignal == w.runs[i].parentSignal && v.runs[i].done == w.runs[i].done
    requires i in w.active ==> (IsOver(v.runs[i]) <==> IsOver(w.runs[i]))
    ensures Stuck(v) <==> Stuck(w)
  {
    assert forall j :: 0 <= j < |w.runs| && j != i ==> v.runs[j] == w.runs[j];
  }

  // Settling a run that was signalled, or is not active, changes nothing of this.
  lemma SettlingKeeps(w: World, v: World, i: nat, outcome: Outcome)
    requires i < |w.runs| && v.active == w.active && |v.runs| == |w.runs| && v.runs == w.runs[i := v.runs[i]]
    requires if i in w.active then v.runs[i].parentSignal.Some? else v.runs[i].outcome != Pending
    requires i in w.active ==> v.runs[i].parentSignal == w.runs[i].parentSignal && v.runs[i].done == w.runs[i].done
    requires i in w.active ==> (IsOver(v.runs[i]) <==> IsOver(w.runs[i]))
    ensures Stuck(Settle(v, i, outcome)) <==> Stuck(w)
  {
    StaysAsItWas(w, Settle(v, i, outcome), i);
  }

  lemma LateCloseSticks(w: World, e: Event, i: nat)
    requires Reachable(w) && AllDone(w) && ClosesLate(w, e, i)
    ensures Stuck(Step(w, e)) <==> OthersAreOver(w, i)
    ensures Step(w, e).active == w.active && i in w.active
  {
    ListeningMeans(w, i);
    var v := Step(w, e);
    assert v.runs == w.runs[i := v.runs[i]] && IsOver(v.runs[i]);
    assert forall j :: 0 <= j < |w.runs| && j != i ==> v.runs[j] == w.runs[j];
  }

  lemma KillTimerKeepsStuck(w: World, i: nat, delivery: Delivery)
    requires Reachable(w) && AllDone(w) && i < |w.runs| && w.runs[i].killTimer.AfterTimeout?
    ensures Stuck(OnKillTimer(w, i, delivery)) <==> Stuck(w)
  {
    assert RunOk(w.runs[i], HistoryOf(w.log, i), i in w.active);
    var cleared := w.Put(i, w.runs[i].(waitingForKillGrace := false, killTimer := NoTimer));
    SignalChildShape(cleared, i, SIGKILL, delivery);
    var killed := SignalChild(cleared, i, SIGKILL, delivery);
    assert killed.runs == w.runs[i := killed.runs[i]];
    if killed.runs[i].childClosedResult.Some? {
      SettlingKeeps(w, killed, i, CloseOutcome(killed.runs[i], killed.runs[i].childClosedResult.value));
    } else {
      StaysAsItWas(w, killed, i);
    }
  }

  lemma CloseKeepsStuck(w: World, i: nat, close: Close, alive: bool)
    requires Reachable(w) && AllDone(w) && !Completes(w, ChildCloses(i, close, alive))
    requires Enabled(w, ChildCloses(i, close, alive)) && !ClosesLate(w, ChildCloses(i, close, alive), i)
    ensures Stuck(OnClose(w, i, close, alive)) <==> Stuck(w)
  {
    assert RunOk(w.runs[i], HistoryOf(w.log, i), i in w.active);
    var closed := w.Put(i, w.runs[i].(closeSeen := true)).Note(Closed(i, close));
    var run := closed.runs[i];
    var probed := Probe(closed, i, alive);
    if run.parentSignal.Some? || (run.waitingForKillGrace && run.config.hasPid && alive) {
      StaysAsItWas(w, OnClose(w, i, close, alive), i);
    } else {
      SettlingKeeps(w, if run.waitingForKillGrace then probed else closed, i, CloseOutcome(run, close));
    }
  }

  // With every active run done, only a late close can make the last difference without re-raising.
  lemma StuckWithoutCompleting(w: World, e: Event)
    requires Reachable(w) && AllDone(w) && !Stuck(w) && Enabled(w, e) && !Completes(w, e)
    requires forall i :: !ClosesLate(w, e, i)
    ensures !Stuck(Step(w, e))
  {
    match e
    case Start(config) => StartIsWaitedFor(w, config);
    case ParentSignal(i, signal, delivery, alive) =>
      ListeningMeans(w, i);
      assert false;
    case TimeoutFires(i, delivery) =>
      assert RelayOk(w.runs[i]);
      var fired := w.Put(i, w.runs[i].(timedOut := true, timeoutArmed := false)).Note(TimeoutFired(i));
      SignalChildShape(fired, i, SIGTERM, delivery);
      StaysAsItWas(w, OnTimeout(w, i, delivery), i);
    case KillTimerFires(i, delivery) => KillTimerKeepsStuck(w, i, delivery);
    case ChildCloses(i, close, alive) =>
      assert !ClosesLate(w, e, i);
      CloseKeepsStuck(w, i, close, alive);
    case ChildErrors(i) =>
      assert RunOk(w.runs[i], HistoryOf(w.log, i), i in w.active);
      SettlingKeeps(w, w.Put(i, w.runs[i].(errorSeen := true)).Note(Errored(i)), i, SpawnError);
    case StdoutData(i, chunk) => StaysAsItWas(w, OnStdout(w, i, chunk), i);
    case StderrData(i, chunk) => StaysAsItWas(w, OnStderr(w, i, chunk), i);
  }

  /** The step is the last chance missed: it ends the one run that was never signalled while the others are over,
      or it is the late close of the last run that was not over. */
  ghost predicate Misses(w: World, e: Event, i: nat) {
    && OthersAreOver(w, i)
    && ((OnlyWaitsFor(w, i) && Ends(w, e, i) && OthersAreActive(w, i)) || (AllDone(w) && ClosesLate(w, e, i)))
  }

  lemma MissingSticks(w: World, e: Event, i: nat)
    requires Reachable(w) && Misses(w, e, i)
    ensures Stuck(Step(w, e)) && Step(w, e).active != {} && !StepReraises(w, e)
  {
    StepReraisesWhen(w, e);
    if AllDone(w) && ClosesLate(w, e, i) {
      LateCloseSticks(w, e, i);
    } else {
      CompletingEndsNothing(w, e, i);
      EndingSticks(w, e, i);
    }
  }

  /** A step leaves signalled runs with no re-raise to come, and does not re-raise itself, exactly when it misses
      the last chance. */
  lemma GetsStuckIff(events: seq<Event>, e: Event)
    requires Enabled(After(events), e) && !Stuck(After(events))
    ensures var w := After(events); var v := Step(w, e);
      Stuck(v) && v.active != {} && !StepReraises(w, e) <==> exists i :: Misses(w, e, i)
  {
    var w := After(events);
    AfterIsReachable(events);
    if i :| Misses(w, e, i) {
      MissingSticks(w, e, i);
    } else if !Completes(w, e) {
      if AllDone(w) {
        forall i ensures ClosesLate(w, e, i) && Stuck(Step(w, e)) ==> Misses(w, e, i) {
          if ClosesLate(w, e, i) { LateCloseSticks(w, e, i); }
        }
        if forall i :: !ClosesLate(w, e, i) { StuckWithoutCompleting(w, e); }
      } else {
        HiddenWithoutCompleting(w, e);
        forall i | OnlyWaitsFor(w, i) && Ends(w, e, i)
          ensures Stuck(Step(w, e)) && Step(w, e).active != {} ==> Misses(w, e, i)
        {
          EndingSticks(w, e, i);
        }
      }
    } else {
      StepReraisesWhen(w, e);
    }
  }

  lemma CompletingEndsNothing(w: World, e: Event, i: nat)
    requires OnlyWaitsFor(w, i) && Ends(w, e, i)
    ensures !Completes(w, e)
  {
  }

  // ----- without new runs the re-raise is only a matter of the kill timers

  ghost predicate AllSignalled(w: World) {
    forall j :: j in w.active && j < |w.runs| ==> w.runs[j].parentSignal.Some?
  }

  predicate KillTimersAreQuiet(w: World) {
    forall j :: j in w.active && j < |w.runs| ==> !w.runs[j].killTimer.AfterParentSignal?
  }

  lemma AllStaySignalled(w: World, e: Event)
    requires Reachable(w) && AllSignalled(w) && !e.Start?
    ensures AllSignalled(Step(w, e))
  {
    if Enabled(w, e) {
      if e.ParentSignal? {
        ListeningMeans(w, e.run);
        assert false;
      }
      StepEvolves(w, e);
    }
  }

  lemma QuietMeansDone(w: World)
    requires Relaying(w) && AllSignalled(w) && KillTimersAreQuiet(w)
    ensures AllDone(w)
  {
    forall j | j in w.active && j < |w.runs| ensures w.runs[j].done {
      assert RelayOk(w.runs[j]);
    }
  }

  lemma {:induction false} SignalledEndsInReraise(w: World, more: seq<Event>)
    requires Reachable(w) && AllSignalled(w) && !AllDone(w) && StartsNothing(more)
    requires KillTimersAreQuiet(Continue(w, more))
    ensures ReraisesIn(w, more)
    decreases |more|
  {
    if more == [] {
      QuietMeansDone(w);
      assert false;
    } else {
      var e := more[0];
      StepStaysReachable(w, e);
      AllStaySignalled(w, e);
      StepReraisesWhen(w, e);
      if AllDone(Step(w, e)) {
        if Enabled(w, e) && !Completes(w, e) { HiddenWithoutCompleting(w, e); }
      } else {
        SignalledEndsInReraise(Step(w, e), more[1..]);
      }
    }
  }

  /** Once every active run was signalled and one is not done yet, every continuation without a new run that leaves
      no kill timer of a signal running has re-raised. */
  lemma RelayEndsInReraise(events: seq<Event>, more: seq<Event>)
    requires AllSignalled(After(events)) && !AllDone(After(events)) && StartsNothing(more)
    requires KillTimersAreQuiet(Continue(After(events), more))
    ensures ReraisesIn(After(events), more)
  {
    AfterIsReachable(events);
    SignalledEndsInReraise(After(events), more);
  }

  // ----- a signal that is lost

  // The first child exits while its group lives on, the second run starts in the grace period and ends normally.
  const CALM := Config(true, None, false)
  const TERMINATED := Close(None, Some("SIGTERM"))
  const OVERLAP := [Start(CALM), ParentSignal(0, SIGTERM, Delivered, true), ChildCloses(0, TERMINATED, true),
      Start(CALM)]
  const LOSS := [KillTimerFires(0, Delivered), ChildCloses(1, Close(Some(0), None), false)]

  const SIGNALLED := NewRun(CALM).(parentSignal := Some(SIGTERM), listening := false, waitingForKillGrace := true,
                                   killTimer := AfterParentSignal(SIGTERM))
  const CLOSED := SIGNALLED.(closeSeen := true, childClosedResult := Some(TERMINATED))
  const KILLED := CLOSED.(waitingForKillGrace := false, killTimer := NoTimer, done := true)
  const RESOLVED := NewRun(CALM).(closeSeen := true, timeoutArmed := false, listening := false,
                                  outcome := Resolved(0, "", ""))
  const GRACE_LOG := [Started(0, CALM), Signalled(0, SIGTERM), Sent(0, SIGTERM, Delivered), FoundAlive(0),
                      Closed(0, TERMINATED), FoundAlive(0), Started(1, CALM)]
  const LOST_LOG := GRACE_LOG + [Sent(0, SIGKILL, Delivered), Closed(1, Close(Some(0), None)),
      Settled(1, Resolved(0, "", ""))]

  lemma FirstIsSignalled()
    ensures Continue(EMPTY_WORLD, OVERLAP[..2]) == World([SIGNALLED], {0}, GRACE_LOG[..4])
  {
    var w := World([NewRun(CALM)], {0}, GRACE_LOG[..1]);
    assert OnStart(EMPTY_WORLD, CALM) == w;
    assert OnParentSignal(w, 0, SIGTERM, Delivered, true) == World([SIGNALLED], {0}, GRACE_LOG[..4]);
    ContinueTwo(EMPTY_WORLD, OVERLAP[0], OVERLAP[1]);
    assert OVERLAP[..2] == [OVERLAP[0], OVERLAP[1]];
  }

  lemma SecondStarts(w: World)
    requires w == World([SIGNALLED], {0}, GRACE_LOG[..4])
    ensures Continue(w, OVERLAP[2..]) == World([CLOSED, NewRun(CALM)], {0, 1}, GRACE_LOG)
  {
    var v := World([CLOSED], {0}, GRACE_LOG[..6]);
    assert OnClose(w, 0, TERMINATED, true) == v;
    assert OnStart(v, CALM) == World([CLOSED, NewRun(CALM)], {0, 1}, GRACE_LOG);
    ContinueTwo(w, OVERLAP[2], OVERLAP[3]);
    assert OVERLAP[2..] == [OVERLAP[2], OVERLAP[3]];
  }

  lemma SecondEnds(w: World)
    requires w == World([CLOSED, NewRun(CALM)], {0, 1}, GRACE_LOG)
    ensures Continue(w, LOSS) == World([KILLED, RESOLVED], {0}, LOST_LOG)
  {
    var v := World([KILLED, NewRun(CALM)], {0, 1}, GRACE_LOG + [Sent(0, SIGKILL, Delivered)]);
    assert OnKillTimer(w, 0, Delivered) == v by {
      assert 1 in w.active;
    }
    assert OnClose(v, 1, Close(Some(0), None), false) == World([KILLED, RESOLVED], {0}, LOST_LOG);
    ContinueTwo(w, LOSS[0], LOSS[1]);
  }

  lemma ContinueTwo(w: World, e: Event, f: Event)
    ensures Continue(w, [e, f]) == Step(Step(w, e), f)
  {
    var v := Step(w, e);
    assert [e, f][1..] == [f] && [f][1..] == [];
    assert Continue(w, [e, f]) == Continue(v, [f]) && Continue(v, [f]) == Continue(Step(v, f), []);
  }

  lemma {:induction false} ContinueOn(w: World, more: seq<Event>, rest: seq<Event>)
    ensures Continue(w, more + rest) == Continue(Continue(w, more), rest)
    decreases |more|
  {
    if more == [] {
      assert more + rest == rest;
    } else {
      assert (more + rest)[1..] == more[1..] + rest;
      ContinueOn(Step(w, more[0]), more[1..], rest);
    }
  }

  lemma LossIsReached()
    ensures After(OVERLAP + LOSS) == World([KILLED, RESOLVED], {0}, LOST_LOG)
  {
    AfterContinued([], OVERLAP + LOSS);
    assert [] + (OVERLAP + LOSS) == OVERLAP + LOSS && OVERLAP[..2] + OVERLAP[2..] == OVERLAP;
    ContinueOn(EMPTY_WORLD, OVERLAP, LOSS);
    ContinueOn(EMPTY_WORLD, OVERLAP[..2], OVERLAP[2..]);
    FirstIsSignalled();
    SecondStarts(World([SIGNALLED], {0}, GRACE_LOG[..4]));
    SecondEnds(World([CLOSED, NewRun(CALM)], {0, 1}, GRACE_LOG));
  }

  /** A signal was relayed to the first run, nothing was re-raised, and no continuation without a new run will. */
  lemma ReraiseCanBeLost()
    ensures var w := After(OVERLAP + LOSS);
      && Signalled(0, SIGTERM) in w.log && w.active == {0}
      && (forall k :: 0 <= k < |w.log| ==> !w.log[k].Reraised?)
      && Stuck(w) && forall more: seq<Event> :: StartsNothing(more) ==> !ReraisesIn(w, more)
  {
    LossIsReached();
    assert LOST_LOG[1] == Signalled(0, SIGTERM);
    StuckIff(OVERLAP + LOSS);
  }
}
