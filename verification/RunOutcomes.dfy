/** How a run settles, told from what was noted about it before: its close, its output, its timeout and its signals. */
module RunOutcomes {
  import opened Results
  import opened Text
  import opened BoundedCapture
  import opened ProcessSupervisor

  // What the log says about a run up to its settlement.
  datatype Facts = Facts(
    config: Option<Config>, close: Option<Close>, errored: bool, timedOut: bool,
    signal: Option<Signal>, killed: bool, gone: bool,
    received: string, errors: string, settled: Option<Outcome>)

  const NOTHING := Facts(None, None, false, false, None, false, false, "", "", None)

  function Learn(f: Facts, effect: Effect, i: nat): Facts {
    if f.settled.Some? || !IsAbout(effect, i) then f
    else match effect
      case Started(_, config) => f.(config := Some(config))
      case Received(_, chunk) => f.(received := f.received + chunk)
      case ReceivedError(_, chunk) => f.(errors := f.errors + chunk)
      case Signalled(_, signal) => f.(signal := Some(signal))
      case Sent(_, signal, delivery) =>
        var sent := if signal == SIGKILL then f.(killed := true) else f;
        if f.config.Some? && f.config.value.hasPid && delivery.Refused?
        then sent.(errors := f.errors + SendFailure(signal, delivery.message)) else sent
      case FoundDead(_) => f.(gone := true)
      case TimeoutFired(_) => f.(timedOut := true)
      case Closed(_, close) => f.(close := Some(close))
      case Errored(_) => f.(errored := true)
      case Settled(_, outcome) => f.(settled := Some(outcome))
      case _ => f
  }

  function LearnAll(f: Facts, effects: seq<Effect>, i: nat): Facts
    decreases |effects|
  {
    if effects == [] then f else LearnAll(Learn(f, effects[0], i), effects[1..], i)
  }

  function FactsOf(log: seq<Effect>, i: nat): Facts {
    LearnAll(NOTHING, log, i)
  }

  lemma {:induction false} LearnOn(f: Facts, a: seq<Effect>, b: seq<Effect>, i: nat)
    ensures LearnAll(f, a + b, i) == LearnAll(LearnAll(f, a, i), b, i)
    decreases |a|
  {
    if a == [] {
      assert a + b == b;
    } else {
      assert (a + b)[1..] == a[1..] + b;
      LearnOn(Learn(f, a[0], i), a[1..], b, i);
    }
  }

  lemma {:induction false} LearnNothing(f: Facts, effects: seq<Effect>, i: nat)
    requires forall e :: e in effects ==> !IsAbout(e, i)
    ensures LearnAll(f, effects, i) == f
    decreases |effects|
  {
    if effects != [] { LearnNothing(f, effects[1..], i); }
  }

  // ----- the outcome a close has, read off the facts

  function ExitCode(f: Facts): int {
    if f.close.Some? && f.close.value.code.Some? then f.close.value.code.value else 1
  }

  /** The child closed, and nothing took precedence over its exit. */
  predicate ClosedInTime(f: Facts) {
    f.close.Some? && !f.errored && !f.timedOut
  }

  predicate Rejects(f: Facts) {
    f.config.Some? && f.config.value.rejectOnFailure
  }

  function LimitOf(f: Facts): (limit: nat)
    ensures limit > 0
  {
    if f.config.Some? then f.config.value.Limit() else 1
  }

  function ErrorText(f: Facts): string {
    FormatProcessOutput(TailOf(f.errors, LimitOf(f)))
  }

  function OutputText(f: Facts): string {
    FormatProcessOutput(TailOf(f.received, LimitOf(f)))
  }

  /** The first that says anything: the error output, the output, the signal that ended the child. */
  ghost predicate IsDetail(f: Facts, detail: string) {
    && f.close.Some?
    && (Trim(ErrorText(f)) != "" ==> detail == Trim(ErrorText(f)))
    && (Trim(ErrorText(f)) == "" && Trim(OutputText(f)) != "" ==> detail == Trim(OutputText(f)))
    && (Trim(ErrorText(f)) == "" && Trim(OutputText(f)) == "" ==>
      detail == if f.close.value.signal.Some? then "terminated by " + f.close.value.signal.value else "")
  }

  /** What a settled run's outcome says, and what each outcome needs. */
  ghost predicate Explained(f: Facts, outcome: Outcome) {
    && outcome != Pending && f.config.Some?
    && (outcome.SpawnError? <==> f.errored)
    && (!f.errored ==> f.close.Some?)
    && (outcome.TimedOut? <==> !f.errored && f.timedOut)
    && (outcome.TimedOut? ==> f.killed || f.gone)
    && (outcome.Failed? <==> ClosedInTime(f) && ExitCode(f) != 0 && Rejects(f))
    && (outcome.TooMuchOutput? <==> ClosedInTime(f) && ExitCode(f) == 0 && |f.received| > LimitOf(f))
    && (outcome.Resolved? <==>
      ClosedInTime(f) && if ExitCode(f) == 0 then |f.received| <= LimitOf(f) else !Rejects(f))
    && (ClosedInTime(f) ==> f.signal.None?)
    && (outcome.Failed? ==> IsDetail(f, outcome.detail))
    && (outcome.Resolved? ==>
      && outcome.code == ExitCode(f) && outcome.stderr == ErrorText(f)
      && outcome.stdout == TailOf(f.received, LimitOf(f)).text
      && (outcome.code == 0 ==> outcome.stdout == f.received))
  }

  /** A run that has not settled: it is still to close, or it waits for its kill timer. */
  ghost predicate Waits(run: Run, f: Facts) {
    && !f.errored
    && (f.close.Some? && f.signal.None? ==>
      run.killTimer.AfterTimeout? && run.childClosedResult == f.close && f.timedOut)
    && (f.timedOut && f.signal.None? ==> run.killTimer.AfterTimeout? || f.killed)
    && (f.signal.None? ==> (run.waitingForKillGrace <==> run.killTimer.AfterTimeout?))
  }

  ghost predicate Told(run: Run, f: Facts) {
    && f.config == Some(run.config)
    && run.parentSignal == f.signal
    && f.settled == (if run.outcome == Pending then None else Some(run.outcome))
    && (run.outcome == Pending ==>
      && run.timedOut == f.timedOut && run.errorSeen == f.errored && run.closeSeen == f.close.Some?
      && run.stdout == TailOf(f.received, run.config.Limit()) && run.stderr == TailOf(f.errors, run.config.Limit())
      && (run.childClosedResult.Some? ==> run.childClosedResult == f.close)
      && (run.killTimer.AfterTimeout? ==> f.timedOut)
      && (run.killTimer.AfterParentSignal? ==> f.signal == Some(run.killTimer.signal))
      && Waits(run, f))
    && (run.outcome != Pending ==> Explained(f, run.outcome) && !run.listening && !run.timeoutArmed)
    && (run.listening ==> f.signal.None?)
    && (run.outcome != Pending && f.signal.None? ==> run.killTimer == NoTimer)
  }

  ghost predicate AllTold(w: World) {
    && (forall i :: 0 <= i < |w.runs| ==> Told(w.runs[i], FactsOf(w.log, i)))
    && (forall i :: i >= |w.runs| ==> FactsOf(w.log, i) == NOTHING)
  }

  // One run changed and some effects about it, or about none, were noted.
  lemma TellMore(w: World, v: World, i: nat, added: seq<Effect>)
    requires AllTold(w) && i < |w.runs| && |v.runs| == |w.runs| && v.runs == w.runs[i := v.runs[i]]
    requires v.log == w.log + added
    requires forall e :: e in added ==> IsAbout(e, i) || e.Reraised?
    requires Told(v.runs[i], LearnAll(FactsOf(w.log, i), added, i))
    ensures AllTold(v)
  {
    LearnOn(NOTHING, w.log, added, i);
    forall j: nat | j != i ensures FactsOf(v.log, j) == FactsOf(w.log, j) {
      LearnOn(NOTHING, w.log, added, j);
      LearnNothing(FactsOf(w.log, j), added, j);
    }
  }

  lemma LearnTwo(f: Facts, a: Effect, b: Effect, i: nat)
    ensures LearnAll(f, [a], i) == Learn(f, a, i)
    ensures LearnAll(f, [a, b], i) == Learn(Learn(f, a, i), b, i)
  {
    var g := Learn(f, a, i);
    assert [a][1..] == [] && [a, b][1..] == [b] && [b][1..] == [];
    assert LearnAll(f, [a], i) == LearnAll(g, [], i) && LearnAll(f, [a, b], i) == LearnAll(g, [b], i);
    assert LearnAll(g, [b], i) == LearnAll(Learn(g, b, i), [], i);
  }

  lemma LearnMore(f: Facts, a: seq<Effect>, b: Effect, i: nat)
    ensures LearnAll(f, a + [b], i) == Learn(LearnAll(f, a, i), b, i)
  {
    LearnOn(f, a, [b], i);
    LearnTwo(LearnAll(f, a, i), b, b, i);
  }

  // ----- every handler keeps the account

  // Sending a signal: only the error output may grow, and by what the log tells.
  lemma SendTells(w: World, i: nat, signal: Signal, delivery: Delivery, f: Facts)
    requires i < |w.runs| && f.config == Some(w.runs[i].config)
    requires f.settled.None? ==> w.runs[i].stderr == TailOf(f.errors, w.runs[i].config.Limit())
    ensures var v := SignalChild(w, i, signal, delivery); var g := Learn(f, Sent(i, signal, delivery), i);
      && v.runs[i] == w.runs[i].(stderr := v.runs[i].stderr)
      && g == f.(errors := g.errors, killed := g.killed)
      && (f.settled.None? ==> v.runs[i].stderr == TailOf(g.errors, w.runs[i].config.Limit()))
      && (f.settled.None? ==> g.killed == (f.killed || signal == SIGKILL))
  {
    if f.settled.None? && w.runs[i].config.hasPid && delivery.Refused? {
      AppendKeepsTail(f.errors, SendFailure(signal, delivery.message), w.runs[i].config.Limit());
    }
  }

  lemma StartTells(w: World, config: Config)
    requires AllTold(w)
    ensures AllTold(OnStart(w, config))
  {
    var n := |w.runs|;
    var v := OnStart(w, config);
    forall j: nat ensures FactsOf(v.log, j) == Learn(FactsOf(w.log, j), Started(n, config), j) {
      LearnMore(NOTHING, w.log, Started(n, config), j);
    }
    assert FactsOf(w.log, n) == NOTHING;
    assert Told(v.runs[n], FactsOf(v.log, n));
    assert forall j :: 0 <= j < n ==> v.runs[j] == w.runs[j];
  }

  lemma TimeoutIsTold(w: World, i: nat, delivery: Delivery, f: Facts)
    requires i < |w.runs| && w.runs[i].timeoutArmed && Told(w.runs[i], f)
    ensures var v := OnTimeout(w, i, delivery); var effects := [TimeoutFired(i), Sent(i, SIGTERM, delivery)];
      && |v.runs| == |w.runs| && v.runs == w.runs[i := v.runs[i]] && v.log == w.log + effects
      && Told(v.runs[i], LearnAll(f, effects, i))
  {
    var fired := w.Put(i, w.runs[i].(timedOut := true, timeoutArmed := false)).Note(TimeoutFired(i));
    SendTells(fired, i, SIGTERM, delivery, Learn(f, TimeoutFired(i), i));
    LearnTwo(f, TimeoutFired(i), Sent(i, SIGTERM, delivery), i);
  }

  lemma TimeoutTells(w: World, i: nat, delivery: Delivery)
    requires AllTold(w) && Enabled(w, TimeoutFires(i, delivery))
    ensures AllTold(OnTimeout(w, i, delivery))
  {
    TimeoutIsTold(w, i, delivery, FactsOf(w.log, i));
    TellMore(w, OnTimeout(w, i, delivery), i, [TimeoutFired(i), Sent(i, SIGTERM, delivery)]);
  }

  lemma StdoutTells(w: World, i: nat, chunk: string)
    requires AllTold(w) && i < |w.runs|
    ensures AllTold(OnStdout(w, i, chunk))
  {
    var f := FactsOf(w.log, i);
    assert Told(w.runs[i], f);
    AppendKeepsTail(f.received, chunk, w.runs[i].config.Limit());
    LearnTwo(f, Received(i, chunk), Received(i, chunk), i);
    TellMore(w, OnStdout(w, i, chunk), i, [Received(i, chunk)]);
  }

  lemma StderrTells(w: World, i: nat, chunk: string)
    requires AllTold(w) && i < |w.runs|
    ensures AllTold(OnStderr(w, i, chunk))
  {
    var f := FactsOf(w.log, i);
    assert Told(w.runs[i], f);
    AppendKeepsTail(f.errors, chunk, w.runs[i].config.Limit());
    LearnTwo(f, ReceivedError(i, chunk), ReceivedError(i, chunk), i);
    TellMore(w, OnStderr(w, i, chunk), i, [ReceivedError(i, chunk)]);
  }

  // The outcome is explained, if the run takes it.
  ghost predicate MaySettle(run: Run, f: Facts, outcome: Outcome) {
    if run.outcome != Pending then Told(run, f)
    else
      && f.config == Some(run.config) && run.parentSignal == f.signal && f.settled.None?
      && Explained(f, outcome)
  }

  lemma SettledIsTold(run: Run, f: Facts, outcome: Outcome, i: nat)
    requires run.outcome == Pending && MaySettle(run, f, outcome)
    ensures Told(run.(outcome := outcome, timeoutArmed := false, listening := false,
                      killTimer := if run.parentSignal.None? then NoTimer else run.killTimer),
                 Learn(f, Settled(i, outcome), i))
  {
  }

  // Settling a run whose facts explain the outcome.
  lemma SettleTells(w: World, v: World, i: nat, added: seq<Effect>, outcome: Outcome)
    requires AllTold(w) && i < |w.runs| && |v.runs| == |w.runs| && v.runs == w.runs[i := v.runs[i]]
    requires v.log == w.log + added && forall e :: e in added ==> IsAbout(e, i) || e.Reraised?
    requires v.runs[i].outcome == w.runs[i].outcome
    requires MaySettle(v.runs[i], LearnAll(FactsOf(w.log, i), added, i), outcome)
    ensures AllTold(Settle(v, i, outcome))
  {
    if v.runs[i].outcome != Pending {
      TellMore(w, v, i, added);
    } else {
      var f := LearnAll(FactsOf(w.log, i), added, i);
      var effects := added + [Settled(i, outcome)];
      LearnMore(FactsOf(w.log, i), added, Settled(i, outcome), i);
      SettledIsTold(v.runs[i], f, outcome, i);
      assert Settle(v, i, outcome).log == w.log + effects;
      TellMore(w, Settle(v, i, outcome), i, effects);
    }
  }

  lemma ErrorTells(w: World, i: nat)
    requires AllTold(w) && Enabled(w, ChildErrors(i))
    ensures AllTold(OnError(w, i))
  {
    var f := FactsOf(w.log, i);
    assert Told(w.runs[i], f);
    LearnTwo(f, Errored(i), Errored(i), i);
    SettleTells(w, w.Put(i, w.runs[i].(errorSeen := true)).Note(Errored(i)), i, [Errored(i)], SpawnError);
  }

  // The outcome a close is given is the one its facts explain.
  lemma CloseIsExplained(run: Run, f: Facts)
    requires f.config == Some(run.config) && f.close.Some? && !f.errored && run.timedOut == f.timedOut
    requires run.stdout == TailOf(f.received, run.config.Limit()) && run.stderr == TailOf(f.errors, run.config.Limit())
    requires if f.timedOut then f.killed || f.gone else f.signal.None?
    ensures Explained(f, CloseOutcome(run, f.close.value))
  {
  }

  // A re-raise is about no run, and marking a run done tells nothing about how it settles.
  lemma FinishTells(w: World, v: World, i: nat, added: seq<Effect>, signal: Signal)
    requires AllTold(w) && i < |w.runs| && |v.runs| == |w.runs| && v.runs == w.runs[i := v.runs[i]]
    requires v.log == w.log + added && forall e :: e in added ==> IsAbout(e, i) || e.Reraised?
    requires Told(v.runs[i], LearnAll(FactsOf(w.log, i), added, i))
    ensures AllTold(FinishSignal(v, i, signal))
  {
    var next := FinishSignal(v, i, signal);
    if next.log == v.log {
      TellMore(w, next, i, added);
    } else {
      assert next.log == w.log + (added + [Reraised(signal)]);
      LearnMore(FactsOf(w.log, i), added, Reraised(signal), i);
      TellMore(w, next, i, added + [Reraised(signal)]);
    }
  }

  // The signalled run, before anything is decided.
  function Relayed(w: World, i: nat, signal: Signal, delivery: Delivery): World
    requires i < |w.runs|
  {
    SignalChild(w.Put(i, w.runs[i].(parentSignal := Some(signal), listening := false)).Note(Signalled(i, signal)),
                i, signal, delivery)
  }

  lemma RelayedIsTold(w: World, i: nat, signal: Signal, delivery: Delivery, f: Facts)
    requires i < |w.runs| && w.runs[i].listening && Told(w.runs[i], f)
    ensures var v := Relayed(w, i, signal, delivery);
      var g := LearnAll(f, [Signalled(i, signal), Sent(i, signal, delivery)], i);
      && |v.runs| == |w.runs| && v.runs == w.runs[i := v.runs[i]] && v.runs[i].outcome == Pending
      && v.log == w.log + [Signalled(i, signal), Sent(i, signal, delivery)]
      && Told(v.runs[i], g)
      && Told(v.runs[i].(waitingForKillGrace := true, killTimer := AfterParentSignal(signal)), g)
  {
    var signalled :=
      w.Put(i, w.runs[i].(parentSignal := Some(signal), listening := false)).Note(Signalled(i, signal));
    SendTells(signalled, i, signal, delivery, Learn(f, Signalled(i, signal), i));
    LearnTwo(f, Signalled(i, signal), Sent(i, signal, delivery), i);
  }

  lemma RelayedAndFound(w: World, i: nat, signal: Signal, delivery: Delivery, found: Effect, f: Facts)
    requires i < |w.runs| && w.runs[i].listening && Told(w.runs[i], f)
    requires found == FoundAlive(i) || found == FoundDead(i)
    ensures var run := Relayed(w, i, signal, delivery).runs[i];
      var g := LearnAll(f, [Signalled(i, signal), Sent(i, signal, delivery)] + [found], i);
      && Told(run, g)
      && (found == FoundAlive(i) ==>
        Told(run.(waitingForKillGrace := true, killTimer := AfterParentSignal(signal)), g))
  {
    RelayedIsTold(w, i, signal, delivery, f);
    var effects := [Signalled(i, signal), Sent(i, signal, delivery)];
    LearnMore(f, effects, found, i);
    FoundIsTold(Relayed(w, i, signal, delivery).runs[i], LearnAll(f, effects, i), found == FoundDead(i));
    assert LearnAll(f, effects + [found], i) == Found(LearnAll(f, effects, i), found == FoundDead(i));
  }

  lemma ParentSignalTells(w: World, i: nat, signal: Signal, delivery: Delivery, alive: bool)
    requires AllTold(w) && Enabled(w, ParentSignal(i, signal, delivery, alive))
    ensures AllTold(OnParentSignal(w, i, signal, delivery, alive))
  {
    var effects := [Signalled(i, signal), Sent(i, signal, delivery)];
    var found := if w.runs[i].config.hasPid && alive then FoundAlive(i) else FoundDead(i);
    var probed := Probe(Relayed(w, i, signal, delivery), i, alive);
    RelayedIsTold(w, i, signal, delivery, FactsOf(w.log, i));
    RelayedAndFound(w, i, signal, delivery, found, FactsOf(w.log, i));
    ProbeTells(w, probed, i, signal, effects, found);
    ParentSignalIs(w, i, signal, delivery, alive);
  }

  lemma ParentSignalIs(w: World, i: nat, signal: Signal, delivery: Delivery, alive: bool)
    requires i < |w.runs|
    ensures var probed := Probe(Relayed(w, i, signal, delivery), i, alive);
      && |probed.runs| == |w.runs|
      && OnParentSignal(w, i, signal, delivery, alive)
        == if !(w.runs[i].config.hasPid && alive) then FinishSignal(probed, i, signal)
           else probed.Put(i, probed.runs[i].(waitingForKillGrace := true, killTimer := AfterParentSignal(signal)))
  {
  }

  lemma ProbeTells(w: World, probed: World, i: nat, signal: Signal, effects: seq<Effect>, found: Effect)
    requires AllTold(w) && i < |w.runs| && |probed.runs| == |w.runs| && probed.runs == w.runs[i := probed.runs[i]]
    requires probed.log == w.log + effects + [found] && forall e :: e in effects ==> IsAbout(e, i)
    requires found == FoundAlive(i) || found == FoundDead(i)
    requires var g := LearnAll(FactsOf(w.log, i), effects + [found], i);
      && Told(probed.runs[i], g)
      && (found == FoundAlive(i) ==>
        Told(probed.runs[i].(waitingForKillGrace := true, killTimer := AfterParentSignal(signal)), g))
    ensures AllTold(
      if found == FoundDead(i) then FinishSignal(probed, i, signal)
      else probed.Put(i, probed.runs[i].(waitingForKillGrace := true, killTimer := AfterParentSignal(signal))))
  {
    assert w.log + effects + [found] == w.log + (effects + [found]);
    if found == FoundDead(i) {
      FinishTells(w, probed, i, effects + [found], signal);
    } else {
      var waiting := probed.runs[i].(waitingForKillGrace := true, killTimer := AfterParentSignal(signal));
      TellMore(w, probed.Put(i, waiting), i, effects + [found]);
    }
  }

  // The run whose kill timer fired, with SIGKILL sent to it.
  function Killed(w: World, i: nat, delivery: Delivery): World
    requires i < |w.runs|
  {
    SignalChild(w.Put(i, w.runs[i].(waitingForKillGrace := false, killTimer := NoTimer)), i, SIGKILL, delivery)
  }

  // Only the error output changed, the kill timer is gone, and the facts hold no more than SIGKILL and that output.
  ghost predicate IsKilled(run: Run, next: Run, f: Facts, g: Facts) {
    && next == run.(waitingForKillGrace := false, killTimer := NoTimer, stderr := next.stderr)
    && g == f.(errors := g.errors, killed := g.killed)
    && (f.settled.Some? ==> g == f)
    && (f.settled.None? ==> g.killed && next.stderr == TailOf(g.errors, run.config.Limit()))
  }

  lemma KilledIs(w: World, i: nat, delivery: Delivery, f: Facts)
    requires i < |w.runs| && Told(w.runs[i], f)
    ensures var v := Killed(w, i, delivery);
      && |v.runs| == |w.runs| && v.runs == w.runs[i := v.runs[i]] && v.log == w.log + [Sent(i, SIGKILL, delivery)]
      && IsKilled(w.runs[i], v.runs[i], f, LearnAll(f, [Sent(i, SIGKILL, delivery)], i))
  {
    SendTells(w.Put(i, w.runs[i].(waitingForKillGrace := false, killTimer := NoTimer)), i, SIGKILL, delivery, f);
    LearnTwo(f, Sent(i, SIGKILL, delivery), Sent(i, SIGKILL, delivery), i);
  }

  lemma KilledIsTold(run: Run, next: Run, f: Facts, g: Facts)
    requires run.killTimer != NoTimer && Told(run, f) && IsKilled(run, next, f, g)
    requires run.killTimer.AfterParentSignal? || run.childClosedResult.None?
    ensures Told(next, g)
  {
  }

  lemma KilledMaySettle(run: Run, next: Run, f: Facts, g: Facts)
    requires run.killTimer.AfterTimeout? && Told(run, f) && IsKilled(run, next, f, g)
    requires run.childClosedResult.Some?
    ensures MaySettle(next, g, CloseOutcome(next, run.childClosedResult.value))
  {
    if run.outcome == Pending { CloseIsExplained(next, g); }
  }

  lemma KillTimerTells(w: World, i: nat, delivery: Delivery)
    requires AllTold(w) && Enabled(w, KillTimerFires(i, delivery))
    ensures AllTold(OnKillTimer(w, i, delivery))
  {
    var run, f, sent, killed := w.runs[i], FactsOf(w.log, i), Sent(i, SIGKILL, delivery), Killed(w, i, delivery);
    KilledIs(w, i, delivery, f);
    if run.killTimer.AfterTimeout? && run.childClosedResult.Some? {
      KilledMaySettle(run, killed.runs[i], f, LearnAll(f, [sent], i));
      SettleTells(w, killed, i, [sent], CloseOutcome(killed.runs[i], run.childClosedResult.value));
    } else {
      KilledIsTold(run, killed.runs[i], f, LearnAll(f, [sent], i));
      match run.killTimer
      case AfterParentSignal(signal) => FinishTells(w, killed, i, [sent], signal);
      case AfterTimeout => TellMore(w, killed, i, [sent]);
    }
  }

  // What is known once the group was looked for.
  function Found(f: Facts, dead: bool): Facts {
    if f.settled.Some? || !dead then f else f.(gone := true)
  }

  lemma FoundIsTold(run: Run, f: Facts, dead: bool)
    requires Told(run, f)
    ensures Told(run, Found(f, dead))
  {
  }

  lemma CloseIsTold(w: World, i: nat, close: Close, f: Facts)
    requires i < |w.runs| && !w.runs[i].closeSeen && Told(w.runs[i], f)
    ensures var run, g := CloseNoted(w, i, close).runs[i], Learn(f, Closed(i, close), i);
      && CloseNoted(w, i, close).runs == w.runs[i := run]
      && CloseNoted(w, i, close).log == w.log + [Closed(i, close)]
      && (run.parentSignal.None? && !run.waitingForKillGrace ==> MaySettle(run, g, CloseOutcome(run, close)))
      && (run.parentSignal.None? ==> MaySettle(run, Found(g, true), CloseOutcome(run, close)))
      && (run.parentSignal.Some? || run.waitingForKillGrace ==> Told(run.(childClosedResult := Some(close)), g))
      && (run.parentSignal.Some? ==> Told(run.(killTimer := NoTimer), g))
  {
    var run, g := CloseNoted(w, i, close).runs[i], Learn(f, Closed(i, close), i);
    if run.outcome == Pending && run.parentSignal.None? {
      CloseIsExplained(run, Found(g, true));
      if !run.waitingForKillGrace { CloseIsExplained(run, g); }
    }
  }

  // The close was noted, and perhaps what became of the group: nothing else happened yet.
  ghost predicate OnlyClosed(w: World, v: World, i: nat, close: Close, added: seq<Effect>, dead: bool)
    requires i < |w.runs|
  {
    && |v.runs| == |w.runs| && v.runs == w.runs[i := w.runs[i].(closeSeen := true)] && v.log == w.log + added
    && (forall e :: e in added ==> IsAbout(e, i))
    && LearnAll(FactsOf(w.log, i), added, i) == Found(Learn(FactsOf(w.log, i), Closed(i, close), i), dead)
  }

  lemma CloseSettles(w: World, v: World, i: nat, close: Close, added: seq<Effect>, dead: bool)
    requires AllTold(w) && i < |w.runs| && !w.runs[i].closeSeen && OnlyClosed(w, v, i, close, added, dead)
    requires w.runs[i].parentSignal.None? && (dead || !w.runs[i].waitingForKillGrace)
    ensures AllTold(FinishClose(v, i, close))
  {
    CloseIsTold(w, i, close, FactsOf(w.log, i));
    assert v.runs[i] == CloseNoted(w, i, close).runs[i];
    SettleTells(w, v, i, added, CloseOutcome(v.runs[i], close));
  }

  lemma CloseIsPutOff(w: World, v: World, i: nat, close: Close, added: seq<Effect>)
    requires AllTold(w) && i < |w.runs| && !w.runs[i].closeSeen && OnlyClosed(w, v, i, close, added, false)
    requires w.runs[i].parentSignal.Some? || w.runs[i].waitingForKillGrace
    ensures AllTold(v.Put(i, v.runs[i].(childClosedResult := Some(close))))
  {
    CloseIsTold(w, i, close, FactsOf(w.log, i));
    TellMore(w, v.Put(i, v.runs[i].(childClosedResult := Some(close))), i, added);
  }

  lemma CloseFinishes(w: World, v: World, i: nat, close: Close, added: seq<Effect>, signal: Signal)
    requires AllTold(w) && i < |w.runs| && !w.runs[i].closeSeen && OnlyClosed(w, v, i, close, added, true)
    requires w.runs[i].parentSignal.Some?
    ensures AllTold(FinishSignal(v.Put(i, v.runs[i].(killTimer := NoTimer)), i, signal))
  {
    CloseIsTold(w, i, close, FactsOf(w.log, i));
    FoundIsTold(v.runs[i].(killTimer := NoTimer), Learn(FactsOf(w.log, i), Closed(i, close), i), true);
    FinishTells(w, v.Put(i, v.runs[i].(killTimer := NoTimer)), i, added, signal);
  }

  lemma NotedAndProbed(w: World, i: nat, close: Close, alive: bool)
    requires i < |w.runs|
    ensures var closed := CloseNoted(w, i, close);
      var found := if closed.runs[i].config.hasPid && alive then FoundAlive(i) else FoundDead(i);
      && OnlyClosed(w, closed, i, close, [Closed(i, close)], false)
      && OnlyClosed(w, Probe(closed, i, alive), i, close, [Closed(i, close), found], found == FoundDead(i))
  {
    LearnTwo(FactsOf(w.log, i), Closed(i, close), FoundAlive(i), i);
    LearnTwo(FactsOf(w.log, i), Closed(i, close), FoundDead(i), i);
  }

  lemma CloseTells(w: World, i: nat, close: Close, alive: bool)
    requires AllTold(w) && Enabled(w, ChildCloses(i, close, alive))
    ensures AllTold(OnClose(w, i, close, alive))
  {
    NotedAndProbed(w, i, close, alive);
    var closed := CloseNoted(w, i, close);
    var run := closed.runs[i];
    var found := if run.config.hasPid && alive then FoundAlive(i) else FoundDead(i);
    var probed := Probe(closed, i, alive);
    if run.parentSignal.None? && !run.waitingForKillGrace {
      CloseSettles(w, closed, i, close, [Closed(i, close)], false);
    } else if found == FoundAlive(i) {
      CloseIsPutOff(w, probed, i, close, [Closed(i, close), found]);
    } else if run.parentSignal.None? {
      CloseSettles(w, probed, i, close, [Closed(i, close), found], true);
    } else {
      CloseFinishes(w, probed, i, close, [Closed(i, close), found], run.parentSignal.value);
    }
  }

  lemma {:induction false} AfterTells(events: seq<Event>)
    ensures AllTold(After(events))
  {
    if events != [] {
      var w, e := After(events[..|events| - 1]), events[|events| - 1];
      AfterTells(events[..|events| - 1]);
      if Enabled(w, e) {
        match e
        case Start(config) => StartTells(w, config);
        case ParentSignal(i, signal, delivery, alive) => ParentSignalTells(w, i, signal, delivery, alive);
        case TimeoutFires(i, delivery) => TimeoutTells(w, i, delivery);
        case KillTimerFires(i, delivery) => KillTimerTells(w, i, delivery);
        case ChildCloses(i, close, alive) => CloseTells(w, i, close, alive);
        case ChildErrors(i) => ErrorTells(w, i);
        case StdoutData(i, chunk) => StdoutTells(w, i, chunk);
        case StderrData(i, chunk) => StderrTells(w, i, chunk);
      }
    } else {
      assert forall i: nat :: FactsOf([], i) == NOTHING;
    }
  }

  /** In every reachable world, how a settled run settled is what the log told about it before: each outcome occurs
      exactly under its conditions, and carries the exit code, the output and the failure detail that belong to it. */
  lemma SettlesAsTold(events: seq<Event>, i: nat)
    requires i < |After(events).runs| && After(events).runs[i].outcome != Pending
    ensures FactsOf(After(events).log, i).settled == Some(After(events).runs[i].outcome)
    ensures Explained(FactsOf(After(events).log, i), After(events).runs[i].outcome)
  {
    AfterTells(events);
    assert Told(After(events).runs[i], FactsOf(After(events).log, i));
  }

  /** A run that has not settled met no error; if no signal reached it, it has not closed, or it timed out and its
      kill timer, whose turn settles it, is running. A timed-out one has that timer running or was sent SIGKILL. */
  lemma PendingMeans(events: seq<Event>, i: nat)
    requires i < |After(events).runs| && After(events).runs[i].outcome == Pending
    ensures var f, run := FactsOf(After(events).log, i), After(events).runs[i];
      && !f.errored
      && (f.close.Some? && f.signal.None? ==>
        f.timedOut && run.killTimer.AfterTimeout? && run.childClosedResult == f.close)
      && (f.timedOut && f.signal.None? ==> run.killTimer.AfterTimeout? || f.killed)
  {
    AfterTells(events);
    assert Told(After(events).runs[i], FactsOf(After(events).log, i));
  }
}
