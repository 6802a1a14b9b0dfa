/** Supervising child process groups: timeouts, kill grace, and relaying the parent's signals.
    All runs share the set of parent-signal states; a world holds every run started so far. */
module ProcessSupervisor {
  import opened Results
  import opened Text
  import opened BoundedCapture

  datatype Signal = SIGINT | SIGTERM | SIGHUP | SIGKILL {
    function Name(): string {
      match this
      case SIGINT => "SIGINT"
      case SIGTERM => "SIGTERM"
      case SIGHUP => "SIGHUP"
      case SIGKILL => "SIGKILL"
    }
  }

  // How the operating system answers an attempt to signal the process group.
  datatype Delivery = Delivered | NoSuchProcess | Refused(message: string)

  const RUN_PROCESS_OUTPUT_MAX_CHARS := 1024 * 1024

  datatype Config = Config(hasPid: bool, maxOutputChars: Option<real>, rejectOnFailure: bool) {
    /** At least one; the number asked for, rounded down, or 1024 * 1024 if none was. */
    function Limit(): (limit: nat)
      ensures limit > 0
      ensures maxOutputChars.Some? && maxOutputChars.value >= 1.0 ==>
        limit as real <= maxOutputChars.value < limit as real + 1.0
      ensures maxOutputChars.Some? && 0.0 < maxOutputChars.value < 1.0 ==> limit == 1
      ensures maxOutputChars.None? || maxOutputChars.value <= 0.0 ==> limit == 0x10_0000
    {
      if maxOutputChars.None? || maxOutputChars.value <= 0.0 then RUN_PROCESS_OUTPUT_MAX_CHARS
      else if maxOutputChars.value.Floor < 1 then 1 else maxOutputChars.value.Floor
    }
  }

  datatype Close = Close(code: Option<int>, signal: Option<string>)
  datatype KillTimer = NoTimer | AfterTimeout | AfterParentSignal(signal: Signal)
  datatype Outcome =
    | Pending
    | Resolved(code: int, stderr: string, stdout: string)
    | TimedOut
    | Failed(detail: string)
    | TooMuchOutput
    | SpawnError

  datatype Run = Run(
    config: Config, stdout: Capture<char>, stderr: Capture<char>,
    timeoutArmed: bool, timedOut: bool, waitingForKillGrace: bool, killTimer: KillTimer,
    childClosedResult: Option<Close>,
    listening: bool, parentSignal: Option<Signal>, done: bool,
    closeSeen: bool, errorSeen: bool, outcome: Outcome)

  // What can be observed of a run, in order.
  datatype Effect =
    | Started(run: nat, config: Config)
    | Received(run: nat, chunk: string)
    | ReceivedError(run: nat, chunk: string)
    | Signalled(run: nat, signal: Signal)
    | Sent(run: nat, signal: Signal, delivery: Delivery)
    | FoundAlive(run: nat)
    | FoundDead(run: nat)
    | TimeoutFired(run: nat)
    | Closed(run: nat, close: Close)
    | Errored(run: nat)
    | Settled(run: nat, outcome: Outcome)
    | Reraised(signal: Signal)

  datatype World = World(runs: seq<Run>, active: set<nat>, log: seq<Effect>) {
    function Put(i: nat, run: Run): World
      requires i < |runs|
    {
      this.(runs := runs[i := run])
    }

    function Note(effect: Effect): World {
      this.(log := log + [effect])
    }
  }

  const EMPTY_WORLD := World([], {}, [])

  // The events of one run; answers of the operating system come with the event that asks for them.
  datatype Event =
    | Start(config: Config)
    | ParentSignal(run: nat, signal: Signal, delivery: Delivery, alive: bool)
    | TimeoutFires(run: nat, delivery: Delivery)
    | KillTimerFires(run: nat, delivery: Delivery)
    | ChildCloses(run: nat, close: Close, alive: bool)
    | ChildErrors(run: nat)
    | StdoutData(run: nat, chunk: string)
    | StderrData(run: nat, chunk: string)

  function NewRun(config: Config): Run {
    Run(config, EMPTY, EMPTY, true, false, false, NoTimer, None, true, None, false, false, false, Pending)
  }

  // ----- what the handlers do

  function SendFailure(signal: Signal, message: string): string {
    "failed to send " + signal.Name() + " to process group: " + message + "\n"
  }

  function SignalChild(w: World, i: nat, signal: Signal, delivery: Delivery): World
    requires i < |w.runs|
  {
    var run := w.runs[i];
    var sent := w.Note(Sent(i, signal, delivery));
    if run.config.hasPid && delivery.Refused? then
      sent.Put(i, run.(stderr :=
        AppendBoundedProcessOutput(run.stderr, SendFailure(signal, delivery.message), run.config.Limit())))
    else sent
  }

  function Probe(w: World, i: nat, alive: bool): World
    requires i < |w.runs|
  {
    w.Note(if w.runs[i].config.hasPid && alive then FoundAlive(i) else FoundDead(i))
  }

  predicate AllDone(w: World) {
    forall j :: j in w.active && j < |w.runs| ==> w.runs[j].parentSignal.Some? && w.runs[j].done
  }

  function MaybeReraise(w: World, signal: Signal): World {
    if AllDone(w) then w.Note(Reraised(signal)) else w
  }

  function Settle(w: World, i: nat, outcome: Outcome): World
    requires i < |w.runs|
  {
    var run := w.runs[i];
    if run.outcome != Pending then w
    else
      World(
        w.runs[i := run.(outcome := outcome, timeoutArmed := false, listening := false,
                         killTimer := if run.parentSignal.None? then NoTimer else run.killTimer)],
        if run.parentSignal.None? then w.active - {i} else w.active,
        w.log + [Settled(i, outcome)])
  }

  function FailureDetail(run: Run, close: Close): string {
    var err, out := Trim(FormatProcessOutput(run.stderr)), Trim(FormatProcessOutput(run.stdout));
    if err != "" then err else if out != "" then out
    else if close.signal.Some? then "terminated by " + close.signal.value else ""
  }

  function CloseOutcome(run: Run, close: Close): Outcome {
    if run.timedOut then TimedOut
    else if close.code.GetOr(1) != 0 && run.config.rejectOnFailure then Failed(FailureDetail(run, close))
    else if close.code.GetOr(1) == 0 && run.stdout.truncatedChars > 0 then TooMuchOutput
    else Resolved(close.code.GetOr(1), FormatProcessOutput(run.stderr), run.stdout.text)
  }

  function FinishClose(w: World, i: nat, close: Close): World
    requires i < |w.runs|
  {
    Settle(w, i, CloseOutcome(w.runs[i], close))
  }

  function FinishSignal(w: World, i: nat, signal: Signal): World
    requires i < |w.runs|
  {
    MaybeReraise(w.Put(i, w.runs[i].(done := true)), signal)
  }

  function OnStart(w: World, config: Config): World {
    World(w.runs + [NewRun(config)], w.active + {|w.runs|}, w.log + [Started(|w.runs|, config)])
  }

  function OnParentSignal(w: World, i: nat, signal: Signal, delivery: Delivery, alive: bool): World
    requires i < |w.runs|
  {
    var signalled := w.Put(i, w.runs[i].(parentSignal := Some(signal), listening := false)).Note(Signalled(i, signal));
    var probed := Probe(SignalChild(signalled, i, signal, delivery), i, alive);
    if !(w.runs[i].config.hasPid && alive) then FinishSignal(probed, i, signal)
    else probed.Put(i, probed.runs[i].(waitingForKillGrace := true, killTimer := AfterParentSignal(signal)))
  }

  function OnTimeout(w: World, i: nat, delivery: Delivery): World
    requires i < |w.runs|
  {
    var fired := w.Put(i, w.runs[i].(timedOut := true, timeoutArmed := false)).Note(TimeoutFired(i));
    var sent := SignalChild(fired, i, SIGTERM, delivery);
    if sent.runs[i].waitingForKillGrace then sent
    else sent.Put(i, sent.runs[i].(waitingForKillGrace := true, killTimer := AfterTimeout))
  }

  function OnKillTimer(w: World, i: nat, delivery: Delivery): World
    requires i < |w.runs|
  {
    var timer := w.runs[i].killTimer;
    var killed := SignalChild(w.Put(i, w.runs[i].(waitingForKillGrace := false, killTimer := NoTimer)), i, SIGKILL,
      delivery);
    match timer
    case NoTimer => w
    case AfterParentSignal(signal) => FinishSignal(killed, i, signal)
    case AfterTimeout =>
      if killed.runs[i].childClosedResult.Some? then FinishClose(killed, i, killed.runs[i].childClosedResult.value)
      else killed
  }

  function OnClose(w: World, i: nat, close: Close, alive: bool): World
    requires i < |w.runs|
  {
    var closed := w.Put(i, w.runs[i].(closeSeen := true)).Note(Closed(i, close));
    var run := closed.runs[i];
    var groupAlive := run.config.hasPid && alive;
    if run.parentSignal.Some? then
      var probed := Probe(closed, i, alive);
      if groupAlive then probed.Put(i, run.(childClosedResult := Some(close)))
      else FinishSignal(probed.Put(i, run.(killTimer := NoTimer)), i, run.parentSignal.value)
    else if run.waitingForKillGrace then
      var probed := Probe(closed, i, alive);
      if groupAlive then probed.Put(i, run.(childClosedResult := Some(close))) else FinishClose(probed, i, close)
    else FinishClose(closed, i, close)
  }

  function OnError(w: World, i: nat): World
    requires i < |w.runs|
  {
    Settle(w.Put(i, w.runs[i].(errorSeen := true)).Note(Errored(i)), i, SpawnError)
  }

  function OnStdout(w: World, i: nat, chunk: string): World
    requires i < |w.runs|
  {
    var run := w.runs[i];
    w.Put(i, run.(stdout := AppendBoundedProcessOutput(run.stdout, chunk, run.config.Limit()))).Note(Received(i, chunk))
  }

  function OnStderr(w: World, i: nat, chunk: string): World
    requires i < |w.runs|
  {
    var run := w.runs[i];
    w.Put(i, run.(stderr := AppendBoundedProcessOutput(run.stderr, chunk, run.config.Limit())))
      .Note(ReceivedError(i, chunk))
  }

  // An event that cannot happen now leaves the world alone.
  predicate Enabled(w: World, e: Event) {
    match e
    case Start(_) => true
    case ParentSignal(i, signal, _, _) => i < |w.runs| && w.runs[i].listening && signal != SIGKILL
    case TimeoutFires(i, _) => i < |w.runs| && w.runs[i].timeoutArmed
    case KillTimerFires(i, _) => i < |w.runs| && w.runs[i].killTimer != NoTimer
    case ChildCloses(i, _, _) => i < |w.runs| && !w.runs[i].closeSeen
    case ChildErrors(i) => i < |w.runs| && !w.runs[i].errorSeen
    case StdoutData(i, _) => i < |w.runs|
    case StderrData(i, _) => i < |w.runs|
  }

  function Step(w: World, e: Event): World {
    if !Enabled(w, e) then w
    else match e
      case Start(config) => OnStart(w, config)
      case ParentSignal(i, signal, delivery, alive) => OnParentSignal(w, i, signal, delivery, alive)
      case TimeoutFires(i, delivery) => OnTimeout(w, i, delivery)
      case KillTimerFires(i, delivery) => OnKillTimer(w, i, delivery)
      case ChildCloses(i, close, alive) => OnClose(w, i, close, alive)
      case ChildErrors(i) => OnError(w, i)
      case StdoutData(i, chunk) => OnStdout(w, i, chunk)
      case StderrData(i, chunk) => OnStderr(w, i, chunk)
  }

  function After(events: seq<Event>): World {
    if events == [] then EMPTY_WORLD else Step(After(events[..|events| - 1]), events[|events| - 1])
  }

  // ----- what the log tells about one run

  datatype History = History(
    started: bool, signalled: bool, swept: bool, timedOut: bool, closed: bool, settled: bool, received: string)

  const UNKNOWN := History(false, false, false, false, false, false, "")

  // `swept`: after the parent's signal reached the run, its group was found dead or SIGKILL was sent to it.
  function HistoryOf(log: seq<Effect>, i: nat): History {
    if log == [] then UNKNOWN
    else Noted(HistoryOf(log[..|log| - 1], i), log[|log| - 1], i)
  }

  function Noted(h: History, effect: Effect, i: nat): History {
    match effect
    case Started(j, _) => if j == i then h.(started := true) else h
    case Received(j, chunk) => if j == i then h.(received := h.received + chunk) else h
    case ReceivedError(_, _) => h
    case Signalled(j, _) => if j == i then h.(signalled := true) else h
    case Sent(j, signal, _) => if j == i && signal == SIGKILL && h.signalled then h.(swept := true) else h
    case FoundAlive(_) => h
    case FoundDead(j) => if j == i && h.signalled then h.(swept := true) else h
    case TimeoutFired(j) => if j == i then h.(timedOut := true) else h
    case Closed(j, _) => if j == i then h.(closed := true) else h
    case Errored(_) => h
    case Settled(j, _) => if j == i then h.(settled := true) else h
    case Reraised(_) => h
  }

  // The parent may be signalled again as far as this run is concerned.
  predicate Accounted(h: History) {
    h.swept || (h.settled && !h.signalled)
  }

  /** What must have happened before an effect. */
  ghost predicate Justified(before: seq<Effect>, effect: Effect) {
    match effect
    case Reraised(_) => forall i: nat :: HistoryOf(before, i).started ==> Accounted(HistoryOf(before, i))
    case Settled(i, outcome) =>
      var h := HistoryOf(before, i);
      && h.started && !h.settled
      && (outcome.Resolved? ==>
        h.closed && !h.timedOut && !h.signalled && (outcome.code == 0 ==> outcome.stdout == h.received))
    case _ => true
  }

  ghost predicate Safe(log: seq<Effect>) {
    log == [] || (Safe(log[..|log| - 1]) && Justified(log[..|log| - 1], log[|log| - 1]))
  }

  // ----- the invariant

  ghost predicate RunOk(run: Run, h: History, isActive: bool) {
    && h.started
    && (run.parentSignal.Some? <==> h.signalled)
    && (run.timedOut <==> h.timedOut)
    && (run.outcome != Pending <==> h.settled)
    && (isActive <==> !(h.settled && !h.signalled))
    && (run.listening <==> !h.signalled && !h.settled)
    && (run.done ==> h.signalled && h.swept)
    && (run.killTimer.AfterParentSignal? ==> run.parentSignal == Some(run.killTimer.signal))
    && (run.killTimer.AfterTimeout? ==> run.timedOut)
    && (run.childClosedResult.Some? ==> h.closed)
    && (run.closeSeen <==> h.closed)
    && run.stdout == TailOf(h.received, run.config.Limit())
  }

  ghost predicate Invariant(w: World) {
    && Safe(w.log)
    && (forall i :: 0 <= i < |w.runs| ==> RunOk(w.runs[i], HistoryOf(w.log, i), i in w.active))
    && (forall i :: i >= |w.runs| ==> i !in w.active && HistoryOf(w.log, i) == UNKNOWN)
  }

  lemma NoteOne(log: seq<Effect>, effect: Effect, i: nat)
    ensures HistoryOf(log + [effect], i) == Noted(HistoryOf(log, i), effect, i)
    ensures Safe(log + [effect]) <==> Safe(log) && Justified(log, effect)
  {
    assert (log + [effect])[..|log|] == log;
  }

  predicate IsAbout(effect: Effect, i: nat) {
    !effect.Reraised? && effect.run == i
  }

  // Changing one run and noting one effect about it.
  lemma ChangeOne(w: World, i: nat, run: Run, active: set<nat>, effect: Effect)
    requires Invariant(w) && i < |w.runs| && IsAbout(effect, i) && Justified(w.log, effect)
    requires active - {i} == w.active - {i}
    requires RunOk(run, Noted(HistoryOf(w.log, i), effect, i), i in active)
    ensures Invariant(World(w.runs[i := run], active, w.log + [effect]))
  {
    var v := World(w.runs[i := run], active, w.log + [effect]);
    NoteOne(w.log, effect, i);
    forall j | 0 <= j < |v.runs| ensures RunOk(v.runs[j], HistoryOf(v.log, j), j in v.active) {
      NoteOne(w.log, effect, j);
      if j != i { assert j in active <==> j in active - {i}; assert j in w.active <==> j in w.active - {i}; }
    }
    forall j | j >= |v.runs| ensures j !in v.active && HistoryOf(v.log, j) == UNKNOWN {
      NoteOne(w.log, effect, j);
      assert j in active <==> j in active - {i};
      assert j in w.active <==> j in w.active - {i};
    }
  }

  // Changing one run silently.
  lemma ChangeSilently(w: World, i: nat, run: Run)
    requires Invariant(w) && i < |w.runs| && RunOk(run, HistoryOf(w.log, i), i in w.active)
    ensures Invariant(w.Put(i, run))
  {
  }

  // ----- every handler keeps the invariant

  lemma SignalChildShape(w: World, i: nat, signal: Signal, delivery: Delivery)
    requires i < |w.runs|
    ensures var next := SignalChild(w, i, signal, delivery);
      |next.runs| == |w.runs| && next == World(w.runs[i := next.runs[i]], w.active, w.log + [Sent(i, signal, delivery)])
      && next.runs[i] == w.runs[i].(stderr := next.runs[i].stderr)
  {
  }

  lemma SignalChildKeeps(w: World, i: nat, signal: Signal, delivery: Delivery)
    requires Invariant(w) && i < |w.runs|
    ensures Invariant(SignalChild(w, i, signal, delivery))
    ensures var next := SignalChild(w, i, signal, delivery);
      |next.runs| == |w.runs| && next.active == w.active && next.log == w.log + [Sent(i, signal, delivery)]
      && next.runs[i] == w.runs[i].(stderr := next.runs[i].stderr)
  {
    SignalChildShape(w, i, signal, delivery);
    var next := SignalChild(w, i, signal, delivery);
    var run := w.runs[i].(stderr := next.runs[i].stderr);
    assert RunOk(w.runs[i], HistoryOf(w.log, i), i in w.active);
    ChangeOne(w, i, run, w.active, Sent(i, signal, delivery));
  }

  lemma ProbeKeeps(w: World, i: nat, alive: bool)
    requires Invariant(w) && i < |w.runs|
    ensures Invariant(Probe(w, i, alive))
    ensures !(w.runs[i].config.hasPid && alive) && HistoryOf(w.log, i).signalled ==>
      HistoryOf(Probe(w, i, alive).log, i).swept
    ensures HistoryOf(Probe(w, i, alive).log, i)
      == HistoryOf(w.log, i).(swept := HistoryOf(Probe(w, i, alive).log, i).swept)
  {
    var effect := if w.runs[i].config.hasPid && alive then FoundAlive(i) else FoundDead(i);
    NoteOne(w.log, effect, i);
    ChangeOne(w, i, w.runs[i], w.active, effect);
    assert Probe(w, i, alive) == World(w.runs[i := w.runs[i]], w.active, w.log + [effect]);
  }

  lemma MaybeReraiseKeeps(w: World, signal: Signal)
    requires Invariant(w)
    ensures Invariant(MaybeReraise(w, signal))
  {
    if AllDone(w) {
      var v := w.Note(Reraised(signal));
      forall i: nat ensures HistoryOf(v.log, i) == HistoryOf(w.log, i) { NoteOne(w.log, Reraised(signal), i); }
      forall i: nat | HistoryOf(w.log, i).started ensures Accounted(HistoryOf(w.log, i)) {
        assert i < |w.runs|;
        assert RunOk(w.runs[i], HistoryOf(w.log, i), i in w.active);
      }
      NoteOne(w.log, Reraised(signal), 0);
    }
  }

  lemma FinishSignalKeeps(w: World, i: nat, signal: Signal)
    requires Invariant(w) && i < |w.runs| && HistoryOf(w.log, i).signalled && HistoryOf(w.log, i).swept
    ensures Invariant(FinishSignal(w, i, signal))
  {
    ChangeSilently(w, i, w.runs[i].(done := true));
    MaybeReraiseKeeps(w.Put(i, w.runs[i].(done := true)), signal);
  }

  lemma SettleKeeps(w: World, i: nat, outcome: Outcome)
    requires Invariant(w) && i < |w.runs| && outcome != Pending
    requires outcome.Resolved? ==>
      var h := HistoryOf(w.log, i);
      h.closed && !h.timedOut && !h.signalled && (outcome.code == 0 ==> outcome.stdout == h.received)
    ensures Invariant(Settle(w, i, outcome))
  {
    if w.runs[i].outcome == Pending {
      var next := Settle(w, i, outcome);
      ChangeOne(w, i, next.runs[i], next.active, Settled(i, outcome));
      assert next == World(w.runs[i := next.runs[i]], next.active, w.log + [Settled(i, outcome)]);
    }
  }

  lemma FinishCloseKeeps(w: World, i: nat, close: Close)
    requires Invariant(w) && i < |w.runs|
    requires var h := HistoryOf(w.log, i); h.closed && (!h.timedOut ==> !h.signalled)
    ensures Invariant(FinishClose(w, i, close))
  {
    assert RunOk(w.runs[i], HistoryOf(w.log, i), i in w.active);
    SettleKeeps(w, i, CloseOutcome(w.runs[i], close));
  }

  lemma OnStartKeeps(w: World, config: Config)
    requires Invariant(w)
    ensures Invariant(OnStart(w, config))
  {
    var n := |w.runs|;
    var v := OnStart(w, config);
    forall i: nat
      ensures HistoryOf(v.log, i) == Noted(HistoryOf(w.log, i), Started(n, config), i)
    {
      NoteOne(w.log, Started(n, config), i);
    }
    NoteOne(w.log, Started(n, config), 0);
    forall i | 0 <= i < |v.runs| ensures RunOk(v.runs[i], HistoryOf(v.log, i), i in v.active) {
      if i < n { assert v.runs[i] == w.runs[i]; }
    }
  }

  lemma OnParentSignalKeeps(w: World, i: nat, signal: Signal, delivery: Delivery, alive: bool)
    requires Invariant(w) && Enabled(w, ParentSignal(i, signal, delivery, alive))
    ensures Invariant(OnParentSignal(w, i, signal, delivery, alive))
  {
    var run := w.runs[i].(parentSignal := Some(signal), listening := false);
    assert RunOk(w.runs[i], HistoryOf(w.log, i), i in w.active);
    NoteOne(w.log, Signalled(i, signal), i);
    ChangeOne(w, i, run, w.active, Signalled(i, signal));
    var signalled := w.Put(i, run).Note(Signalled(i, signal));
    SignalChildKeeps(signalled, i, signal, delivery);
    var sent := SignalChild(signalled, i, signal, delivery);
    NoteOne(signalled.log, Sent(i, signal, delivery), i);
    ProbeKeeps(sent, i, alive);
    var probed := Probe(sent, i, alive);
    if !(w.runs[i].config.hasPid && alive) {
      FinishSignalKeeps(probed, i, signal);
    } else {
      assert RunOk(probed.runs[i], HistoryOf(probed.log, i), i in probed.active);
      ChangeSilently(probed, i, probed.runs[i].(waitingForKillGrace := true, killTimer := AfterParentSignal(signal)));
    }
  }

  lemma OnTimeoutKeeps(w: World, i: nat, delivery: Delivery)
    requires Invariant(w) && i < |w.runs|
    ensures Invariant(OnTimeout(w, i, delivery))
  {
    var run := w.runs[i].(timedOut := true, timeoutArmed := false);
    assert RunOk(w.runs[i], HistoryOf(w.log, i), i in w.active);
    ChangeOne(w, i, run, w.active, TimeoutFired(i));
    var fired := w.Put(i, run).Note(TimeoutFired(i));
    SignalChildKeeps(fired, i, SIGTERM, delivery);
    var sent := SignalChild(fired, i, SIGTERM, delivery);
    if !sent.runs[i].waitingForKillGrace {
      assert RunOk(sent.runs[i], HistoryOf(sent.log, i), i in sent.active);
      ChangeSilently(sent, i, sent.runs[i].(waitingForKillGrace := true, killTimer := AfterTimeout));
    }
  }

  lemma OnKillTimerKeeps(w: World, i: nat, delivery: Delivery)
    requires Invariant(w) && Enabled(w, KillTimerFires(i, delivery))
    ensures Invariant(OnKillTimer(w, i, delivery))
  {
    var run := w.runs[i].(waitingForKillGrace := false, killTimer := NoTimer);
    assert RunOk(w.runs[i], HistoryOf(w.log, i), i in w.active);
    ChangeSilently(w, i, run);
    var cleared := w.Put(i, run);
    SignalChildKeeps(cleared, i, SIGKILL, delivery);
    var killed := SignalChild(cleared, i, SIGKILL, delivery);
    NoteOne(w.log, Sent(i, SIGKILL, delivery), i);
    match w.runs[i].killTimer
    case NoTimer =>
    case AfterParentSignal(signal) => FinishSignalKeeps(killed, i, signal);
    case AfterTimeout =>
      if killed.runs[i].childClosedResult.Some? { FinishCloseKeeps(killed, i, killed.runs[i].childClosedResult.value); }
  }

  // The close as such: noted, and nothing decided yet.
  function CloseNoted(w: World, i: nat, close: Close): World
    requires i < |w.runs|
  {
    w.Put(i, w.runs[i].(closeSeen := true)).Note(Closed(i, close))
  }

  lemma CloseNotedKeeps(w: World, i: nat, close: Close)
    requires Invariant(w) && i < |w.runs|
    ensures Invariant(CloseNoted(w, i, close)) &&
      HistoryOf(CloseNoted(w, i, close).log, i) == HistoryOf(w.log, i).(closed := true)
    ensures RunOk(CloseNoted(w, i, close).runs[i], HistoryOf(CloseNoted(w, i, close).log, i), i in w.active)
  {
    assert RunOk(w.runs[i], HistoryOf(w.log, i), i in w.active);
    NoteOne(w.log, Closed(i, close), i);
    ChangeOne(w, i, w.runs[i].(closeSeen := true), w.active, Closed(i, close));
  }

  // The group outlives the child: the close is put off.
  lemma PostponeKeeps(w: World, i: nat, close: Close)
    requires Invariant(w) && i < |w.runs| && HistoryOf(w.log, i).closed
    ensures Invariant(w.Put(i, w.runs[i].(childClosedResult := Some(close))))
  {
    assert RunOk(w.runs[i], HistoryOf(w.log, i), i in w.active);
    ChangeSilently(w, i, w.runs[i].(childClosedResult := Some(close)));
  }

  // The group is gone: the relay is finished.
  lemma FinishRelayKeeps(w: World, i: nat, signal: Signal)
    requires Invariant(w) && i < |w.runs| && HistoryOf(w.log, i).signalled && HistoryOf(w.log, i).swept
    ensures Invariant(FinishSignal(w.Put(i, w.runs[i].(killTimer := NoTimer)), i, signal))
  {
    assert RunOk(w.runs[i], HistoryOf(w.log, i), i in w.active);
    ChangeSilently(w, i, w.runs[i].(killTimer := NoTimer));
    FinishSignalKeeps(w.Put(i, w.runs[i].(killTimer := NoTimer)), i, signal);
  }

  lemma OnCloseKeeps(w: World, i: nat, close: Close, alive: bool)
    requires Invariant(w) && i < |w.runs|
    ensures Invariant(OnClose(w, i, close, alive))
  {
    CloseNotedKeeps(w, i, close);
    var closed := CloseNoted(w, i, close);
    var run := closed.runs[i];
    var probed := Probe(closed, i, alive);
    ProbeKeeps(closed, i, alive);
    if !run.parentSignal.Some? && !run.waitingForKillGrace {
      FinishCloseKeeps(closed, i, close);
    } else if run.config.hasPid && alive {
      PostponeKeeps(probed, i, close);
    } else if run.parentSignal.Some? {
      FinishRelayKeeps(probed, i, run.parentSignal.value);
    } else {
      FinishCloseKeeps(probed, i, close);
    }
  }

  lemma OnStdoutKeeps(w: World, i: nat, chunk: string)
    requires Invariant(w) && i < |w.runs|
    ensures Invariant(OnStdout(w, i, chunk))
  {
    var run := w.runs[i];
    var stdout := AppendBoundedProcessOutput(run.stdout, chunk, run.config.Limit());
    assert RunOk(run, HistoryOf(w.log, i), i in w.active);
    AppendKeepsTail(HistoryOf(w.log, i).received, chunk, run.config.Limit());
    ChangeOne(w, i, run.(stdout := stdout), w.active, Received(i, chunk));
  }

  lemma OnStderrKeeps(w: World, i: nat, chunk: string)
    requires Invariant(w) && i < |w.runs|
    ensures Invariant(OnStderr(w, i, chunk))
  {
    var run := w.runs[i];
    var stderr := AppendBoundedProcessOutput(run.stderr, chunk, run.config.Limit());
    assert RunOk(run, HistoryOf(w.log, i), i in w.active);
    ChangeOne(w, i, run.(stderr := stderr), w.active, ReceivedError(i, chunk));
  }

  lemma StepKeeps(w: World, e: Event)
    requires Invariant(w)
    ensures Invariant(Step(w, e))
  {
    if Enabled(w, e) {
      match e
      case Start(config) => OnStartKeeps(w, config);
      case ParentSignal(i, signal, delivery, alive) => OnParentSignalKeeps(w, i, signal, delivery, alive);
      case TimeoutFires(i, delivery) => OnTimeoutKeeps(w, i, delivery);
      case KillTimerFires(i, delivery) => OnKillTimerKeeps(w, i, delivery);
      case ChildCloses(i, close, alive) => OnCloseKeeps(w, i, close, alive);
      case ChildErrors(i) =>
        var run := w.runs[i].(errorSeen := true);
        assert RunOk(w.runs[i], HistoryOf(w.log, i), i in w.active);
        ChangeOne(w, i, run, w.active, Errored(i));
        SettleKeeps(w.Put(i, run).Note(Errored(i)), i, SpawnError);
      case StdoutData(i, chunk) => OnStdoutKeeps(w, i, chunk);
      case StderrData(i, chunk) => OnStderrKeeps(w, i, chunk);
    }
  }

  lemma {:induction false} AfterKeeps(events: seq<Event>)
    ensures Invariant(After(events))
  {
    if events != [] {
      AfterKeeps(events[..|events| - 1]);
      StepKeeps(After(events[..|events| - 1]), events[|events| - 1]);
    }
  }

  // ----- what holds of every interleaving

  lemma {:induction false} SafeAt(log: seq<Effect>, k: nat)
    requires Safe(log) && k < |log|
    ensures Justified(log[..k], log[k])
  {
    if k < |log| - 1 {
      SafeAt(log[..|log| - 1], k);
      assert log[..|log| - 1][..k] == log[..k];
    }
  }

  /** Whenever the parent's signal is re-raised, every run started so far was signalled and then had its group
      found dead or sent SIGKILL, unless it had settled without being signalled. */
  lemma ReraiseIsSafe(events: seq<Event>, k: nat, i: nat)
    requires k < |After(events).log| && After(events).log[k].Reraised?
    requires HistoryOf(After(events).log[..k], i).started
    ensures var h := HistoryOf(After(events).log[..k], i); (h.signalled && h.swept) || (h.settled && !h.signalled)
  {
    AfterKeeps(events);
    SafeAt(After(events).log, k);
    SweptWasSignalled(After(events).log[..k], i);
  }

  lemma {:induction false} SweptWasSignalled(log: seq<Effect>, i: nat)
    ensures HistoryOf(log, i).swept ==> HistoryOf(log, i).signalled
  {
    if log != [] { SweptWasSignalled(log[..|log| - 1], i); }
  }

  /** What `swept` stands for: some time after a signal reached the run its group was found dead or SIGKILL was sent. */
  lemma {:induction false} SweptMeans(log: seq<Effect>, i: nat)
    ensures HistoryOf(log, i).signalled <==> exists a, s :: 0 <= a < |log| && log[a] == Signalled(i, s)
    ensures HistoryOf(log, i).swept <==> exists b :: 0 <= b < |log| && SweepsAt(log, b, i)
  {
    if log != [] {
      var init, last := log[..|log| - 1], log[|log| - 1];
      SweptMeans(init, i);
      assert forall a :: 0 <= a < |init| ==> init[a] == log[a];
      forall b | 0 <= b < |init| ensures SweepsAt(init, b, i) <==> SweepsAt(log, b, i) {}
      assert last.Signalled? && last.run == i ==> log[|log| - 1] == Signalled(i, last.signal);
      assert SweepsAt(log, |log| - 1, i) <==>
        (last == FoundDead(i) || (last.Sent? && last.run == i && last.signal == SIGKILL)) &&
          HistoryOf(init, i).signalled;
    }
  }

  ghost predicate SweepsAt(log: seq<Effect>, b: nat, i: nat)
    requires b < |log|
  {
    && (log[b] == FoundDead(i) || (log[b].Sent? && log[b].run == i && log[b].signal == SIGKILL))
    && exists a, s :: 0 <= a < b && log[a] == Signalled(i, s)
  }

  /** A run is done only once it was signalled and then had its group found dead or sent SIGKILL. */
  lemma DoneMeansSwept(events: seq<Event>, i: nat)
    requires i < |After(events).runs| && After(events).runs[i].done
    ensures After(events).runs[i].parentSignal.Some? && i in After(events).active
    ensures exists b :: 0 <= b < |After(events).log| && SweepsAt(After(events).log, b, i)
  {
    AfterKeeps(events);
    SweptMeans(After(events).log, i);
  }

  lemma {:induction false} SettledMeans(log: seq<Effect>, i: nat, k: nat)
    requires k < |log| && log[k].Settled? && log[k].run == i
    ensures HistoryOf(log, i).settled
  {
    if k < |log| - 1 {
      SettledMeans(log[..|log| - 1], i, k);
    }
  }

  /** A run settles at most once. */
  lemma SettlesAtMostOnce(events: seq<Event>, j: nat, k: nat)
    requires j < k < |After(events).log| && After(events).log[j].Settled? && After(events).log[k].Settled?
    ensures After(events).log[j].run != After(events).log[k].run
  {
    var log := After(events).log;
    AfterKeeps(events);
    SafeAt(log, k);
    if log[j].run == log[k].run {
      SettledMeans(log[..k], log[k].run, j);
    }
  }

  /** A run resolves only after its child closed, without timeout and without a parent signal before; with
      exit code 0 the stdout it returns is everything the child wrote. */
  lemma ResolvesOnlyThroughCleanClose(events: seq<Event>, k: nat, i: nat, code: int, stderr: string, stdout: string)
    requires k < |After(events).log| && After(events).log[k] == Settled(i, Resolved(code, stderr, stdout))
    ensures var h := HistoryOf(After(events).log[..k], i);
      h.closed && !h.timedOut && !h.signalled && (code == 0 ==> stdout == h.received)
  {
    AfterKeeps(events);
    SafeAt(After(events).log, k);
  }

  // The step is the one in which some signalled run learns that its group is gone, or kills it.
  predicate Completes(w: World, e: Event) {
    Enabled(w, e) && match e
      case ParentSignal(i, _, _, alive) => !(w.runs[i].config.hasPid && alive)
      case KillTimerFires(i, _) => w.runs[i].killTimer.AfterParentSignal?
      case ChildCloses(i, _, alive) => w.runs[i].parentSignal.Some? && !(w.runs[i].config.hasPid && alive)
      case _ => false
  }

  predicate EndsWithReraise(log: seq<Effect>) {
    log != [] && log[|log| - 1].Reraised?
  }

  /** A step re-raises exactly when it completes a signalled run and all active runs are then signalled and done. */
  lemma StepReraisesIff(w: World, e: Event)
    requires Enabled(w, e) && Step(w, e).log != w.log
    ensures EndsWithReraise(Step(w, e).log) <==> Completes(w, e) && AllDone(Step(w, e))
  {
  }

  // ----- the supervisor's state, changed in place

  class Supervisor {
    var runs: seq<Run>
    var active: set<nat>
    var log: seq<Effect>

    function View(): World
      reads this
    {
      World(runs, active, log)
    }

    constructor ()
      ensures View() == EMPTY_WORLD
    {
      runs, active, log := [], {}, [];
    }

    method SignalProcessGroup(i: nat, signal: Signal, delivery: Delivery)
      requires i < |runs|
      modifies this
      ensures View() == SignalChild(old(View()), i, signal, delivery)
    {
      log := log + [Sent(i, signal, delivery)];
      if runs[i].config.hasPid {
        if delivery.Refused? {
          var run := runs[i];
          runs := runs[i := run.(stderr :=
            AppendBoundedProcessOutput(run.stderr, SendFailure(signal, delivery.message), run.config.Limit()))];
        }
      }
    }

    method ProcessGroupIsAlive(i: nat, answer: bool) returns (alive: bool)
      requires i < |runs|
      modifies this
      ensures View() == Probe(old(View()), i, answer)
      ensures alive == (old(runs)[i].config.hasPid && answer)
    {
      alive := runs[i].config.hasPid && answer;
      log := log + [if alive then FoundAlive(i) else FoundDead(i)];
    }

    method MaybeReraiseRunProcessParentSignal(signal: Signal)
      modifies this
      ensures View() == MaybeReraise(old(View()), signal)
    {
      var remaining := active;
      while remaining != {}
        invariant remaining <= active
        invariant View() == old(View())
        invariant forall j :: j in active - remaining && j < |runs| ==> runs[j].parentSignal.Some? && runs[j].done
        decreases remaining
      {
        var j :| j in remaining;
        if j < |runs| && (runs[j].parentSignal.None? || !runs[j].done) {
          return;
        }
        remaining := remaining - {j};
      }
      log := log + [Reraised(signal)];
    }

    method SettleRun(i: nat, outcome: Outcome)
      requires i < |runs|
      modifies this
      ensures View() == Settle(old(View()), i, outcome)
    {
      var run := runs[i];
      if run.outcome != Pending {
        return;
      }
      var relaying := run.parentSignal.Some?;
      runs := runs[i := run.(outcome := outcome, timeoutArmed := false, listening := false,
                             killTimer := if relaying then run.killTimer else NoTimer)];
      if !relaying {
        active := active - {i};
      }
      log := log + [Settled(i, outcome)];
    }

    method HandleParentSignal(i: nat, signal: Signal, delivery: Delivery, answer: bool)
      requires i < |runs|
      modifies this
      ensures View() == OnParentSignal(old(View()), i, signal, delivery, answer)
    {
      runs := runs[i := runs[i].(parentSignal := Some(signal), listening := false)];
      log := log + [Signalled(i, signal)];
      SignalProcessGroup(i, signal, delivery);
      var alive := ProcessGroupIsAlive(i, answer);
      if !alive {
        runs := runs[i := runs[i].(done := true)];
        MaybeReraiseRunProcessParentSignal(signal);
        return;
      }
      runs := runs[i := runs[i].(waitingForKillGrace := true, killTimer := AfterParentSignal(signal))];
    }

    method HandleTimeout(i: nat, delivery: Delivery)
      requires i < |runs|
      modifies this
      ensures View() == OnTimeout(old(View()), i, delivery)
    {
      runs := runs[i := runs[i].(timedOut := true, timeoutArmed := false)];
      log := log + [TimeoutFired(i)];
      SignalProcessGroup(i, SIGTERM, delivery);
      if runs[i].waitingForKillGrace {
        return;
      }
      runs := runs[i := runs[i].(waitingForKillGrace := true, killTimer := AfterTimeout)];
    }

    method HandleKillTimer(i: nat, delivery: Delivery)
      requires i < |runs| && runs[i].killTimer != NoTimer
      modifies this
      ensures View() == OnKillTimer(old(View()), i, delivery)
    {
      var timer := runs[i].killTimer;
      runs := runs[i := runs[i].(waitingForKillGrace := false, killTimer := NoTimer)];
      SignalProcessGroup(i, SIGKILL, delivery);
      if timer.AfterParentSignal? {
        runs := runs[i := runs[i].(done := true)];
        MaybeReraiseRunProcessParentSignal(timer.signal);
      } else if runs[i].childClosedResult.Some? {
        SettleRun(i, CloseOutcome(runs[i], runs[i].childClosedResult.value));
      }
    }

    method HandleClose(i: nat, close: Close, answer: bool)
      requires i < |runs|
      modifies this
      ensures View() == OnClose(old(View()), i, close, answer)
    {
      runs := runs[i := runs[i].(closeSeen := true)];
      log := log + [Closed(i, close)];
      if runs[i].parentSignal.Some? {
        var alive := ProcessGroupIsAlive(i, answer);
        if alive {
          runs := runs[i := runs[i].(childClosedResult := Some(close))];
          return;
        }
        var signal := runs[i].parentSignal.value;
        runs := runs[i := runs[i].(killTimer := NoTimer)];
        runs := runs[i := runs[i].(done := true)];
        MaybeReraiseRunProcessParentSignal(signal);
        return;
      }
      if runs[i].waitingForKillGrace {
        var alive := ProcessGroupIsAlive(i, answer);
        if alive {
          runs := runs[i := runs[i].(childClosedResult := Some(close))];
          return;
        }
      }
      SettleRun(i, CloseOutcome(runs[i], close));
    }

    /** One event of one run; the class refines the step relation. */
    method Handle(e: Event)
      modifies this
      ensures View() == Step(old(View()), e)
    {
      if !Enabled(View(), e) {
        return;
      }
      match e
      case Start(config) =>
        active := active + {|runs|};
        log := log + [Started(|runs|, config)];
        runs := runs + [NewRun(config)];
      case ParentSignal(i, signal, delivery, answer) => HandleParentSignal(i, signal, delivery, answer);
      case TimeoutFires(i, delivery) => HandleTimeout(i, delivery);
      case KillTimerFires(i, delivery) => HandleKillTimer(i, delivery);
      case ChildCloses(i, close, answer) => HandleClose(i, close, answer);
      case ChildErrors(i) =>
        runs := runs[i := runs[i].(errorSeen := true)];
        log := log + [Errored(i)];
        SettleRun(i, SpawnError);
      case StdoutData(i, chunk) =>
        var run := runs[i];
        runs := runs[i := run.(stdout := AppendBoundedProcessOutput(run.stdout, chunk, run.config.Limit()))];
        log := log + [Received(i, chunk)];
      case StderrData(i, chunk) =>
        var run := runs[i];
        runs := runs[i := run.(stderr := AppendBoundedProcessOutput(run.stderr, chunk, run.config.Limit()))];
        log := log + [ReceivedError(i, chunk)];
    }
  }
}
