/** Which signals are sent when: what every log of the supervisor keeps. */
module SignalLog {
  import opened Results
  import opened ProcessSupervisor
  import opened RunOutcomes

  // Some signal reached run i, or its timeout fired, before k.
  ghost predicate WasProvoked(log: seq<Effect>, k: nat, i: nat)
    requires k <= |log|
  {
    exists j :: 0 <= j < k && (log[j].Signalled? || log[j].TimeoutFired?) && log[j].run == i
  }

  /** A parent signal is relayed as it came and a timeout sends SIGTERM, both at once; nothing else is sent but
      SIGKILL, and that only to a run that was signalled or timed out; only a signal that reached some run is
      re-raised. */
  ghost predicate IsOrdered(log: seq<Effect>, k: nat)
    requires k < |log|
  {
    match log[k]
    case Signalled(i, signal) => k + 1 < |log| && log[k + 1].Sent? && log[k + 1].run == i && log[k + 1].signal == signal
    case TimeoutFired(i) => k + 1 < |log| && log[k + 1].Sent? && log[k + 1].run == i && log[k + 1].signal == SIGTERM
    case Sent(i, signal, _) =>
      if signal == SIGKILL then WasProvoked(log, k, i)
      else k > 0 && (log[k - 1] == Signalled(i, signal) || (log[k - 1] == TimeoutFired(i) && signal == SIGTERM))
    case Reraised(signal) => exists j :: 0 <= j < k && log[j].Signalled? && log[j].signal == signal
    case _ => true
  }

  ghost predicate WellSent(log: seq<Effect>) {
    forall k :: 0 <= k < |log| ==> IsOrdered(log, k)
  }

  lemma StaysOrdered(log: seq<Effect>, more: seq<Effect>, k: nat)
    requires k < |log| && IsOrdered(log, k)
    ensures IsOrdered(log + more, k)
  {
    assert forall j :: 0 <= j < |log| ==> (log + more)[j] == log[j];
  }

  lemma NoteLast(log: seq<Effect>, e: Effect)
    requires WellSent(log) && IsOrdered(log + [e], |log|)
    ensures WellSent(log + [e])
  {
    forall k | 0 <= k < |log + [e]| ensures IsOrdered(log + [e], k) {
      if k < |log| { StaysOrdered(log, [e], k); }
    }
  }

  lemma NoteTwo(log: seq<Effect>, e: Effect, f: Effect)
    requires WellSent(log) && IsOrdered(log + [e, f], |log|) && IsOrdered(log + [e, f], |log| + 1)
    ensures WellSent(log + [e, f])
  {
    forall k | 0 <= k < |log + [e, f]| ensures IsOrdered(log + [e, f], k) {
      if k < |log| { StaysOrdered(log, [e, f], k); }
    }
  }

  lemma Together(log: seq<Effect>, e: Effect, f: Effect)
    ensures log + [e] + [f] == log + [e, f]
  {
  }

  // ----- what the state knows about the log

  lemma {:induction false} TimedOutMeans(log: seq<Effect>, i: nat)
    ensures HistoryOf(log, i).timedOut ==> exists j :: 0 <= j < |log| && log[j] == TimeoutFired(i)
  {
    if log != [] {
      var init := log[..|log| - 1];
      TimedOutMeans(init, i);
      assert forall j :: 0 <= j < |init| ==> init[j] == log[j];
    }
  }

  lemma {:induction false} SignalMeans(log: seq<Effect>, i: nat)
    ensures FactsOf(log, i).signal.Some? ==>
      exists j :: 0 <= j < |log| && log[j] == Signalled(i, FactsOf(log, i).signal.value)
  {
    if log != [] {
      var init, last := log[..|log| - 1], log[|log| - 1];
      SignalMeans(init, i);
      LearnMore(NOTHING, init, last, i);
      assert log == init + [last];
      assert forall j :: 0 <= j < |init| ==> init[j] == log[j];
    }
  }

  // The signal a run was sent by the parent is in the log.
  lemma ParentSignalIsLogged(w: World, i: nat)
    requires AllTold(w) && i < |w.runs| && w.runs[i].parentSignal.Some?
    ensures exists j :: 0 <= j < |w.log| && w.log[j] == Signalled(i, w.runs[i].parentSignal.value)
  {
    assert Told(w.runs[i], FactsOf(w.log, i));
    SignalMeans(w.log, i);
  }

  lemma TimerIsProvoked(w: World, i: nat)
    requires Invariant(w) && AllTold(w) && i < |w.runs| && w.runs[i].killTimer != NoTimer
    ensures WasProvoked(w.log, |w.log|, i)
    ensures w.runs[i].killTimer.AfterParentSignal? ==> w.runs[i].parentSignal == Some(w.runs[i].killTimer.signal)
  {
    assert RunOk(w.runs[i], HistoryOf(w.log, i), i in w.active);
    if w.runs[i].killTimer.AfterTimeout? {
      TimedOutMeans(w.log, i);
      var j :| 0 <= j < |w.log| && w.log[j] == TimeoutFired(i);
      assert w.log[j].run == i;
    } else {
      ParentSignalIsLogged(w, i);
      var j :| 0 <= j < |w.log| && w.log[j] == Signalled(i, w.runs[i].parentSignal.value);
      assert w.log[j].run == i;
    }
  }

  // ----- every step

  lemma MaybeReraiseSends(w: World, signal: Signal)
    requires WellSent(w.log) && exists j :: 0 <= j < |w.log| && w.log[j].Signalled? && w.log[j].signal == signal
    ensures WellSent(MaybeReraise(w, signal).log)
  {
    var j :| 0 <= j < |w.log| && w.log[j].Signalled? && w.log[j].signal == signal;
    assert (w.log + [Reraised(signal)])[j] == w.log[j];
    NoteLast(w.log, Reraised(signal));
  }

  lemma SettleSends(w: World, i: nat, outcome: Outcome)
    requires WellSent(w.log) && i < |w.runs|
    ensures WellSent(Settle(w, i, outcome).log)
  {
    NoteLast(w.log, Settled(i, outcome));
  }

  lemma StaysLogged(log: seq<Effect>, more: seq<Effect>, i: nat, signal: Signal)
    requires exists j :: 0 <= j < |log| && log[j] == Signalled(i, signal)
    ensures exists j :: 0 <= j < |log + more| && (log + more)[j].Signalled? && (log + more)[j].signal == signal
  {
    var j :| 0 <= j < |log| && log[j] == Signalled(i, signal);
    assert (log + more)[j] == log[j];
  }

  lemma ParentSignalSends(w: World, i: nat, signal: Signal, delivery: Delivery, alive: bool)
    requires WellSent(w.log) && Enabled(w, ParentSignal(i, signal, delivery, alive))
    ensures WellSent(OnParentSignal(w, i, signal, delivery, alive).log)
  {
    var a, b := Signalled(i, signal), Sent(i, signal, delivery);
    var found := if w.runs[i].config.hasPid && alive then FoundAlive(i) else FoundDead(i);
    NoteTwo(w.log, a, b);
    Together(w.log, a, b);
    NoteLast(w.log + [a, b], found);
    var probed := Probe(Relayed(w, i, signal, delivery), i, alive);
    assert probed.log == w.log + [a, b] + [found];
    if found == FoundDead(i) {
      assert probed.log[|w.log|] == a;
      MaybeReraiseSends(probed.Put(i, probed.runs[i].(done := true)), signal);
    }
  }

  lemma TimeoutSends(w: World, i: nat, delivery: Delivery)
    requires WellSent(w.log) && i < |w.runs|
    ensures WellSent(OnTimeout(w, i, delivery).log)
  {
    NoteTwo(w.log, TimeoutFired(i), Sent(i, SIGTERM, delivery));
    Together(w.log, TimeoutFired(i), Sent(i, SIGTERM, delivery));
  }

  lemma KillTimerSends(w: World, i: nat, delivery: Delivery)
    requires Invariant(w) && AllTold(w) && WellSent(w.log) && Enabled(w, KillTimerFires(i, delivery))
    ensures WellSent(OnKillTimer(w, i, delivery).log)
  {
    var sent := Sent(i, SIGKILL, delivery);
    TimerIsProvoked(w, i);
    assert forall j :: 0 <= j < |w.log| ==> (w.log + [sent])[j] == w.log[j];
    NoteLast(w.log, sent);
    var killed :=
      SignalChild(w.Put(i, w.runs[i].(waitingForKillGrace := false, killTimer := NoTimer)), i, SIGKILL, delivery);
    assert killed.log == w.log + [sent];
    match w.runs[i].killTimer
    case AfterParentSignal(signal) =>
      ParentSignalIsLogged(w, i);
      StaysLogged(w.log, [sent], i, signal);
      MaybeReraiseSends(killed.Put(i, killed.runs[i].(done := true)), signal);
    case AfterTimeout =>
      if killed.runs[i].childClosedResult.Some? {
        SettleSends(killed, i, CloseOutcome(killed.runs[i], killed.runs[i].childClosedResult.value));
      }
  }

  lemma CloseSends(w: World, i: nat, close: Close, alive: bool)
    requires AllTold(w) && WellSent(w.log) && i < |w.runs|
    ensures WellSent(OnClose(w, i, close, alive).log)
  {
    var closed := CloseNoted(w, i, close);
    var run := closed.runs[i];
    var found := if run.config.hasPid && alive then FoundAlive(i) else FoundDead(i);
    NoteLast(w.log, Closed(i, close));
    NoteLast(closed.log, found);
    var probed := Probe(closed, i, alive);
    if run.parentSignal.Some? {
      if found == FoundDead(i) {
        ParentSignalIsLogged(w, i);
        Together(w.log, Closed(i, close), found);
        StaysLogged(w.log, [Closed(i, close), found], i, run.parentSignal.value);
        MaybeReraiseSends(probed.Put(i, run.(killTimer := NoTimer, done := true)), run.parentSignal.value);
      }
    } else {
      SettleSends(if run.waitingForKillGrace then probed else closed, i, CloseOutcome(run, close));
    }
  }

  lemma StepSends(w: World, e: Event)
    requires Invariant(w) && AllTold(w) && WellSent(w.log) && Enabled(w, e)
    ensures WellSent(Step(w, e).log)
  {
    match e
    case Start(config) => NoteLast(w.log, Started(|w.runs|, config));
    case ParentSignal(i, signal, delivery, alive) => ParentSignalSends(w, i, signal, delivery, alive);
    case TimeoutFires(i, delivery) => TimeoutSends(w, i, delivery);
    case KillTimerFires(i, delivery) => KillTimerSends(w, i, delivery);
    case ChildCloses(i, close, alive) => CloseSends(w, i, close, alive);
    case ChildErrors(i) =>
      NoteLast(w.log, Errored(i));
      SettleSends(w.Put(i, w.runs[i].(errorSeen := true)).Note(Errored(i)), i, SpawnError);
    case StdoutData(i, chunk) => NoteLast(w.log, Received(i, chunk));
    case StderrData(i, chunk) => NoteLast(w.log, ReceivedError(i, chunk));
  }

  /** In every interleaving the signals are sent in this order. */
  lemma {:induction false} SignalsAreOrdered(events: seq<Event>)
    ensures WellSent(After(events).log)
  {
    if events != [] {
      var w, e := After(events[..|events| - 1]), events[|events| - 1];
      SignalsAreOrdered(events[..|events| - 1]);
      AfterKeeps(events[..|events| - 1]);
      AfterTells(events[..|events| - 1]);
      if Enabled(w, e) { StepSends(w, e); }
    }
  }
}
