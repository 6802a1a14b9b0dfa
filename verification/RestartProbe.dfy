/** Watching one endpoint across a gateway restart: an outage, then a recovery. */
module RestartProbe {
  import opened Decimals
  import opened Results
  import opened RunLength

  // One turn of the polling loop: the clock and the two callbacks at its head, then the probe's answer and the clock
  // after it.
  datatype Poll = Poll(checkedAt: real, processDone: bool, isDone: bool, status: Option<nat>, errorKind: Option<string>,
      now: real) {
    // The state of the endpoint; the script writes it as one string, which SameStateIff shows to be the same.
    function Key(): (Option<nat>, string) {
      (status, errorKind.GetOr("ok"))
    }

    predicate Up() {
      status == Some(200)
    }

    // The empty string counts as no error kind.
    function Error(): Option<string> {
      if errorKind == Some("") then None else errorKind
    }
  }

  function StatusName(status: Option<nat>): string {
    if status.None? then "none" else Decimal(status.value)
  }

  lemma StatusNames(a: Option<nat>, b: Option<nat>)
    ensures ':' !in StatusName(a)
    ensures StatusName(a) == StatusName(b) <==> a == b
  {
    if a.Some? { DecimalRoundTrip(a.value); }
    if b.Some? { DecimalRoundTrip(b.value); }
    assert !IsDigit(':') && !IsDigit('n') && "none"[0] == 'n';
    assert a.Some? ==> StatusName(a)[0] in StatusName(a);
    assert b.Some? ==> StatusName(b)[0] in StatusName(b);
  }

  lemma SameHead(a: string, x: string, b: string, y: string)
    requires ':' !in a && ':' !in b && a + ":" + x == b + ":" + y
    ensures a == b && x == y
  {
    var s := a + ":" + x;
    assert s[..|a|] == a && s[..|b|] == b && s[|a|] == ':' && s[|b|] == ':';
    FirstColon(s, a, |b|);
    FirstColon(s, b, |a|);
    assert s[|a| + 1..] == x && s[|b| + 1..] == y;
  }

  lemma FirstColon(s: string, a: string, k: nat)
    requires a <= s && ':' !in a && k < |s| && s[k] == ':'
    ensures |a| <= k
  {
  }

  // The status and the error of an answer in one string.
  function StateKey(p: Poll): string {
    StatusName(p.status) + ":" + p.errorKind.GetOr("ok")
  }

  /** The strings tell two states apart exactly when status or error differ, no error counting as `ok`. */
  lemma SameStateIff(p: Poll, q: Poll)
    ensures StateKey(p) == StateKey(q) <==> p.Key() == q.Key()
    ensures StateKey(p) == StateKey(q) <==>
      p.status == q.status && p.errorKind.GetOr("ok") == q.errorKind.GetOr("ok")
  {
    StatusNames(p.status, q.status);
    StatusNames(q.status, p.status);
    if StateKey(p) == StateKey(q) {
      SameHead(StatusName(p.status), p.errorKind.GetOr("ok"), StatusName(q.status), q.errorKind.GetOr("ok"));
    }
  }

  datatype Transition = Transition(ms: real, status: Option<nat>, errorKind: Option<string>)
  datatype ProbeResult = ProbeResult(
    downtimeMs: Option<real>, firstErrorKind: Option<string>, firstRecoveryMs: Option<real>, ms: Option<real>,
    status: Option<nat>, transitions: seq<Transition>, unavailableMs: Option<real>)

  // ----- what a trace of attempts shows

  // The first attempt from i on that was not answered with status 200.
  function OutageFrom(a: seq<Poll>, i: nat): (outage: Option<nat>)
    requires i <= |a|
    ensures outage.None? <==> forall k :: i <= k < |a| ==> a[k].Up()
    ensures outage.Some? ==>
      i <= outage.value < |a| && !a[outage.value].Up() && forall k :: i <= k < outage.value ==> a[k].Up()
    decreases |a| - i
  {
    if i == |a| then None else if !a[i].Up() then Some(i) else OutageFrom(a, i + 1)
  }

  function SuccessFrom(a: seq<Poll>, i: nat): (success: Option<nat>)
    requires i <= |a|
    ensures success.None? <==> forall k :: i <= k < |a| ==> !a[k].Up()
    ensures success.Some? ==>
      i <= success.value < |a| && a[success.value].Up() && forall k :: i <= k < success.value ==> !a[k].Up()
    decreases |a| - i
  {
    if i == |a| then None else if a[i].Up() then Some(i) else SuccessFrom(a, i + 1)
  }

  function Outage(a: seq<Poll>): Option<nat> {
    OutageFrom(a, 0)
  }

  function Recovery(a: seq<Poll>): Option<nat> {
    if Outage(a).None? then None else SuccessFrom(a, Outage(a).value)
  }

  function FirstError(a: seq<Poll>): Option<string> {
    if a == [] then None else if FirstError(a[..|a| - 1]).Some? then FirstError(a[..|a| - 1]) else a[|a| - 1].Error()
  }

  // Attempts whose state differs from the one before.
  function Changes(a: seq<Poll>): seq<Poll> {
    if a == [] then []
    else
      var init, last := a[..|a| - 1], a[|a| - 1];
      Changes(init) + if init == [] || init[|init| - 1].Key() != last.Key() then [last] else []
  }

  function Transitions(changes: seq<Poll>, signalSentAt: real): seq<Transition> {
    seq(|changes|, i requires 0 <= i < |changes| =>
      Transition(changes[i].now - signalSentAt, changes[i].status, changes[i].Error()))
  }

  function At(a: seq<Poll>, i: Option<nat>, signalSentAt: real): Option<real>
    requires i.Some? ==> i.value < |a|
  {
    if i.None? then None else Some(a[i.value].now - signalSentAt)
  }

  function Observed(a: seq<Poll>, signalSentAt: real): ProbeResult {
    var outage, recovery := Outage(a), Recovery(a);
    ProbeResult(
      if recovery.None? then None else Some(a[recovery.value].now - a[outage.value].now),
      FirstError(a),
      At(a, recovery, signalSentAt),
      if outage.Some? then At(a, recovery, signalSentAt) else if a == [] then None
      else Some(a[|a| - 1].now - signalSentAt),
      if a == [] then None else a[|a| - 1].status,
      Transitions(Changes(a), signalSentAt),
      At(a, outage, signalSentAt))
  }

  // ----- which attempts are made

  // The loop makes attempt i: in time, the process alive, not yet recovered, and not already satisfied.
  predicate Attempts(polls: seq<Poll>, deadlineAt: real, i: nat) {
    && i < |polls|
    && polls[i].checkedAt < deadlineAt
    && !polls[i].processDone
    && Recovery(polls[..i]).None?
    && !(polls[i].isDone && i > 0 && Outage(polls[..i]).None?)
  }

  /** The number of attempts when the loop stops; beyond `polls` the deadline has passed. */
  function AttemptsMade(polls: seq<Poll>, deadlineAt: real, i: nat): (n: nat)
    requires i <= |polls|
    ensures i <= n <= |polls| && !Attempts(polls, deadlineAt, n)
    ensures forall k :: i <= k < n ==> Attempts(polls, deadlineAt, k)
    decreases |polls| - i
  {
    if Attempts(polls, deadlineAt, i) then AttemptsMade(polls, deadlineAt, i + 1) else i
  }

  lemma OutageIs(a: seq<Poll>, outage: Option<nat>)
    requires outage.None? ==> forall k :: 0 <= k < |a| ==> a[k].Up()
    requires outage.Some? ==>
      outage.value < |a| && !a[outage.value].Up() && forall k :: 0 <= k < outage.value ==> a[k].Up()
    ensures Outage(a) == outage
  {
    var found := Outage(a);
  }

  lemma SuccessIs(a: seq<Poll>, i: nat, j: nat)
    requires i <= j < |a| && a[j].Up() && forall k :: i <= k < j ==> !a[k].Up()
    ensures SuccessFrom(a, i) == Some(j)
  {
    var found := SuccessFrom(a, i);
  }

  lemma ObserveOneMore(a: seq<Poll>, p: Poll)
    requires Recovery(a).None?
    ensures Outage(a + [p]) == if Outage(a).Some? then Outage(a) else if p.Up() then None else Some(|a|)
    ensures Recovery(a + [p]) == if Outage(a).Some? && p.Up() then Some(|a|) else None
  {
    var b := a + [p];
    assert forall k :: 0 <= k < |a| ==> b[k] == a[k];
    var outage := if Outage(a).Some? then Outage(a) else if p.Up() then None else Some(|a|);
    OutageIs(b, outage);
    if outage.Some? {
      var success := SuccessFrom(b, outage.value);
      if Outage(a).Some? && p.Up() {
        SuccessIs(b, outage.value, |a|);
      }
    }
  }

  lemma NoteOneMore(a: seq<Poll>, p: Poll)
    ensures FirstError(a + [p]) == if FirstError(a).Some? then FirstError(a) else p.Error()
    ensures Changes(a + [p]) == Changes(a) + if a == [] || a[|a| - 1].Key() != p.Key() then [p] else []
  {
    assert (a + [p])[..|a|] == a;
  }

  // The variables the loop carries.
  datatype ProbeState = ProbeState(
    firstErrorKind: Option<string>, lastStatus: Option<nat>, lastStateKey: Option<(Option<nat>, string)>,
    lastSuccessMs: Option<real>, unavailableMs: Option<real>, transitions: seq<Transition>)

  ghost predicate Reflects(state: ProbeState, a: seq<Poll>, signalSentAt: real) {
    && state.firstErrorKind == FirstError(a)
    && state.lastStatus == (if a == [] then None else a[|a| - 1].status)
    && state.lastStateKey == (if a == [] then None else Some(a[|a| - 1].Key()))
    && state.unavailableMs == At(a, Outage(a), signalSentAt)
    && (Outage(a).None? || Recovery(a).Some? ==>
      state.lastSuccessMs == if a == [] then None else Some(a[|a| - 1].now - signalSentAt))
    && state.transitions == Transitions(Changes(a), signalSentAt)
  }

  method RecordAttempt(before: ProbeState, poll: Poll, signalSentAt: real, ghost a: seq<Poll>)
    returns (state: ProbeState)
    requires Reflects(before, a, signalSentAt) && Recovery(a).None?
    ensures Reflects(state, a + [poll], signalSentAt)
    ensures Recovery(a + [poll]).None? <==> !(poll.status == Some(200) && state.unavailableMs.Some?)
  {
    ObserveOneMore(a, poll);
    NoteOneMore(a, poll);
    TransitionsOneMore(Changes(a), poll, signalSentAt);
    state := before;
    var elapsedMs := poll.now - signalSentAt;
    state := state.(lastStatus := poll.status);
    var stateKey := poll.Key();
    if Some(stateKey) != state.lastStateKey {
      state := state.(transitions := state.transitions + [Transition(elapsedMs, poll.status, poll.Error())]);
      state := state.(lastStateKey := Some(stateKey));
    }
    if poll.Error().Some? && state.firstErrorKind.None? {
      state := state.(firstErrorKind := poll.Error());
    }
    if poll.status != Some(200) && state.unavailableMs.None? {
      state := state.(unavailableMs := Some(elapsedMs));
    }
    if poll.status == Some(200) {
      state := state.(lastSuccessMs := Some(elapsedMs));
    }
  }

  function Unrecovered(state: ProbeState): ProbeResult {
    ProbeResult(None, state.firstErrorKind, None, if state.unavailableMs.None? then state.lastSuccessMs else None,
      state.lastStatus, state.transitions, state.unavailableMs)
  }

  lemma UnrecoveredIsObserved(state: ProbeState, a: seq<Poll>, signalSentAt: real)
    requires Reflects(state, a, signalSentAt) && Recovery(a).None?
    ensures Observed(a, signalSentAt) == Unrecovered(state)
    ensures Outage(a).None? && a != [] ==> state.lastStatus == Some(200)
  {
    if Outage(a).None? && a != [] { assert a[|a| - 1].Up(); }
  }

  lemma RecoveredIsObserved(state: ProbeState, a: seq<Poll>, poll: Poll, signalSentAt: real)
    requires Reflects(state, a + [poll], signalSentAt) && Recovery(a).None?
    requires poll.Up() && state.unavailableMs.Some?
    ensures Recovery(a + [poll]).Some?
    ensures var ms := poll.now - signalSentAt;
      Observed(a + [poll], signalSentAt)
        == ProbeResult(Some(ms - state.unavailableMs.value), state.firstErrorKind, Some(ms),
        Some(ms), poll.status, state.transitions, state.unavailableMs)
  {
    ObserveOneMore(a, poll);
  }

  // The loop is at poll `turn`: it made every attempt before it, none of them a recovery.
  ghost predicate Watching(polls: seq<Poll>, deadlineAt: real, turn: nat, state: ProbeState, signalSentAt: real) {
    && turn <= |polls|
    && AttemptsMade(polls, deadlineAt, 0) == AttemptsMade(polls, deadlineAt, turn)
    && Recovery(polls[..turn]).None?
    && Reflects(state, polls[..turn], signalSentAt)
  }

  function Reported(polls: seq<Poll>, deadlineAt: real, signalSentAt: real): ProbeResult {
    Observed(polls[..AttemptsMade(polls, deadlineAt, 0)], signalSentAt)
  }

  // The deadline has passed, or the process is done.
  lemma EndsUnrecovered(polls: seq<Poll>, deadlineAt: real, turn: nat, state: ProbeState, signalSentAt: real)
    requires Watching(polls, deadlineAt, turn, state, signalSentAt)
    requires turn == |polls| || polls[turn].checkedAt >= deadlineAt || polls[turn].processDone
    ensures Reported(polls, deadlineAt, signalSentAt) == Unrecovered(state)
  {
    UnrecoveredIsObserved(state, polls[..turn], signalSentAt);
  }

  predicate IsSatisfied(poll: Poll, state: ProbeState) {
    poll.isDone && state.unavailableMs.None? && state.lastSuccessMs.Some?
  }

  // The early exit: nothing was down, something was up, and the caller needs no more.
  lemma EndsSatisfied(polls: seq<Poll>, deadlineAt: real, turn: nat, state: ProbeState, signalSentAt: real)
    requires Watching(polls, deadlineAt, turn, state, signalSentAt)
    requires turn < |polls| && IsSatisfied(polls[turn], state)
    ensures Reported(polls, deadlineAt, signalSentAt) ==
      ProbeResult(None, state.firstErrorKind, None, state.lastSuccessMs, Some(200), state.transitions, None)
  {
    UnrecoveredIsObserved(state, polls[..turn], signalSentAt);
  }

  lemma AttemptIsMade(polls: seq<Poll>, deadlineAt: real, turn: nat, state: ProbeState, signalSentAt: real)
    requires Watching(polls, deadlineAt, turn, state, signalSentAt)
    requires turn < |polls| && polls[turn].checkedAt < deadlineAt && !polls[turn].processDone
    requires !IsSatisfied(polls[turn], state)
    ensures AttemptsMade(polls, deadlineAt, 0) == AttemptsMade(polls, deadlineAt, turn + 1)
    ensures polls[..turn + 1] == polls[..turn] + [polls[turn]]
  {
    assert Attempts(polls, deadlineAt, turn);
  }

  // The outage is over.
  lemma EndsRecovered(polls: seq<Poll>, deadlineAt: real, turn: nat, state: ProbeState, signalSentAt: real)
    requires turn < |polls| && Recovery(polls[..turn]).None?
    requires AttemptsMade(polls, deadlineAt, 0) == AttemptsMade(polls, deadlineAt, turn + 1)
    requires polls[..turn + 1] == polls[..turn] + [polls[turn]]
    requires Reflects(state, polls[..turn + 1], signalSentAt) && polls[turn].Up() && state.unavailableMs.Some?
    ensures var ms := polls[turn].now - signalSentAt;
      Reported(polls, deadlineAt, signalSentAt)
        == ProbeResult(Some(ms - state.unavailableMs.value), state.firstErrorKind,
        Some(ms), Some(ms), polls[turn].status, state.transitions, state.unavailableMs)
  {
    RecoveredIsObserved(state, polls[..turn], polls[turn], signalSentAt);
  }

  method WaitForRestartProbe(polls: seq<Poll>, deadlineAt: real, signalSentAt: real) returns (result: ProbeResult)
    ensures result == Reported(polls, deadlineAt, signalSentAt)
  {
    var state := ProbeState(None, None, None, None, None, []);
    var turn := 0;
    while turn < |polls| && polls[turn].checkedAt < deadlineAt
      invariant Watching(polls, deadlineAt, turn, state, signalSentAt)
    {
      var poll := polls[turn];
      if poll.processDone {
        break;
      }
      if poll.isDone && state.unavailableMs.None? && state.lastSuccessMs.Some? {
        EndsSatisfied(polls, deadlineAt, turn, state, signalSentAt);
        return ProbeResult(None, state.firstErrorKind, None, state.lastSuccessMs, Some(200), state.transitions, None);
      }
      AttemptIsMade(polls, deadlineAt, turn, state, signalSentAt);
      state := RecordAttempt(state, poll, signalSentAt, polls[..turn]);
      if poll.status == Some(200) && state.unavailableMs.Some? {
        EndsRecovered(polls, deadlineAt, turn, state, signalSentAt);
        var elapsedMs := poll.now - signalSentAt;
        return ProbeResult(Some(elapsedMs - state.unavailableMs.value), state.firstErrorKind, Some(elapsedMs),
          Some(elapsedMs), poll.status, state.transitions, state.unavailableMs);
      }
      turn := turn + 1;
    }
    EndsUnrecovered(polls, deadlineAt, turn, state, signalSentAt);
    return Unrecovered(state);
  }

  lemma TransitionsOneMore(changes: seq<Poll>, poll: Poll, signalSentAt: real)
    ensures Transitions(changes + [poll], signalSentAt)
      == Transitions(changes, signalSentAt) + [Transition(poll.now - signalSentAt, poll.status, poll.Error())]
    ensures changes + [] == changes
  {
  }

  // ----- what every result satisfies

  ghost predicate Chronological(a: seq<Poll>) {
    forall i, j :: 0 <= i <= j < |a| ==> a[i].now <= a[j].now
  }

  // The trace up to its end: nothing is attempted after a recovery.
  ghost predicate StopsAtRecovery(a: seq<Poll>) {
    forall i :: 0 <= i < |a| ==> Recovery(a[..i]).None?
  }

  lemma AttemptedTraceStops(polls: seq<Poll>, deadlineAt: real)
    ensures StopsAtRecovery(polls[..AttemptsMade(polls, deadlineAt, 0)])
  {
    var n := AttemptsMade(polls, deadlineAt, 0);
    forall i | 0 <= i < n ensures Recovery(polls[..n][..i]).None? {
      assert Attempts(polls, deadlineAt, i);
      assert polls[..n][..i] == polls[..i];
    }
  }

  // ----- every field of the result

  // Attempt i is the first that is up, or the first that is not.
  ghost predicate IsFirst(a: seq<Poll>, from: nat, i: nat, up: bool) {
    from <= i < |a| && (a[i].status == Some(200)) == up &&
      forall k :: from <= k < i ==> (a[k].status == Some(200)) != up
  }

  // Attempt i is the first that names an error.
  ghost predicate IsFirstError(a: seq<Poll>, i: nat) {
    && i < |a| && a[i].errorKind.Some? && a[i].errorKind.value != ""
    && forall k :: 0 <= k < i ==> a[k].errorKind.None? || a[k].errorKind.value == ""
  }

  lemma {:induction false} FirstErrorIs(a: seq<Poll>)
    ensures FirstError(a).None? ==> forall i: nat :: !IsFirstError(a, i)
    ensures FirstError(a).Some? ==> exists i: nat :: IsFirstError(a, i) && FirstError(a) == a[i].errorKind
  {
    if a != [] {
      var init := a[..|a| - 1];
      FirstErrorIs(init);
      forall i: nat | i < |init| ensures IsFirstError(init, i) <==> IsFirstError(a, i) {}
      if FirstError(init).Some? {
        var i: nat :| IsFirstError(init, i) && FirstError(init) == init[i].errorKind;
        assert IsFirstError(a, i);
      } else {
        NoErrorBefore(init, |init|);
        if a[|init|].Error().Some? { assert IsFirstError(a, |init|); }
      }
    }
  }

  lemma {:induction false} NoErrorBefore(a: seq<Poll>, n: nat)
    requires n <= |a| && forall i: nat :: !IsFirstError(a, i)
    ensures forall k :: 0 <= k < n ==> a[k].errorKind.None? || a[k].errorKind.value == ""
  {
    if n > 0 {
      NoErrorBefore(a, n - 1);
      assert !IsFirstError(a, n - 1);
    }
  }

  /** The error reported is the first one named, and the status that of the last answer. */
  lemma ErrorAndStatus(a: seq<Poll>, signalSentAt: real)
    ensures var r := Observed(a, signalSentAt);
      && (r.firstErrorKind.None? ==> forall i: nat :: !IsFirstError(a, i))
      && (r.firstErrorKind.Some? ==> exists i: nat :: IsFirstError(a, i) && r.firstErrorKind == a[i].errorKind)
      && r.status == (if a == [] then None else a[|a| - 1].status)
  {
    FirstErrorIs(a);
  }

  lemma OutageAndRecovery(a: seq<Poll>)
    ensures forall i: nat :: IsFirst(a, 0, i, false) <==> Outage(a) == Some(i)
    ensures Outage(a).Some? ==> IsFirst(a, 0, Outage(a).value, false)
    ensures Outage(a).Some? ==> forall j: nat :: IsFirst(a, Outage(a).value, j, true) <==> Recovery(a) == Some(j)
  {
    var outage := Outage(a);
    if outage.Some? {
      var recovery := Recovery(a);
    }
  }

  /** Without an outage the time is that of the last answer. */
  lemma NoOutageMeans(a: seq<Poll>, signalSentAt: real)
    requires forall i: nat :: !IsFirst(a, 0, i, false)
    ensures var r := Observed(a, signalSentAt);
      && r.unavailableMs.None? && r.firstRecoveryMs.None? && r.downtimeMs.None?
      && r.ms == if a == [] then None else Some(a[|a| - 1].now - signalSentAt)
  {
    OutageAndRecovery(a);
  }

  /** The endpoint is unavailable from the first answer other than 200; if no 200 follows, nothing else is timed. */
  lemma OutageMeans(a: seq<Poll>, signalSentAt: real, i: nat)
    requires IsFirst(a, 0, i, false)
    ensures Observed(a, signalSentAt).unavailableMs == Some(a[i].now - signalSentAt)
    ensures (forall j: nat :: !IsFirst(a, i, j, true)) ==>
      var r := Observed(a, signalSentAt); r.firstRecoveryMs.None? && r.ms.None? && r.downtimeMs.None?
  {
    OutageAndRecovery(a);
    assert Outage(a) == Some(i);
    if Recovery(a).Some? { assert IsFirst(a, i, Recovery(a).value, true); }
  }

  /** It recovers with the first 200 after that, which gives the time, and the downtime is the time between. */
  lemma RecoveryMeans(a: seq<Poll>, signalSentAt: real, i: nat, j: nat)
    requires IsFirst(a, 0, i, false) && IsFirst(a, i, j, true)
    ensures var r := Observed(a, signalSentAt);
      && r.firstRecoveryMs == Some(a[j].now - signalSentAt) && r.ms == r.firstRecoveryMs
      && r.downtimeMs == Some(a[j].now - a[i].now)
  {
    OutageAndRecovery(a);
    assert Outage(a) == Some(i) && Recovery(a) == Some(j);
  }

  // ----- which polls the loop comes to

  /** The loop asks once more: in time, with the process alive, no recovery seen yet, and not already satisfied by
      nothing but successes. */
  ghost predicate GoesOn(polls: seq<Poll>, deadlineAt: real, k: nat)
    requires k < |polls|
  {
    && polls[k].checkedAt < deadlineAt && !polls[k].processDone
    && (forall i, j :: 0 <= i < j < k ==> polls[i].status == Some(200) || polls[j].status != Some(200))
    && !(polls[k].isDone && k > 0 && forall i :: 0 <= i < k ==> polls[i].status == Some(200))
  }

  /** Attempts are made as long as the loop goes on, and it ends at the first poll where it does not. */
  lemma AttemptsAre(polls: seq<Poll>, deadlineAt: real)
    ensures var n := AttemptsMade(polls, deadlineAt, 0);
      && n <= |polls| && (forall k :: 0 <= k < n ==> GoesOn(polls, deadlineAt, k))
      && (n < |polls| ==> !GoesOn(polls, deadlineAt, n))
  {
    var n := AttemptsMade(polls, deadlineAt, 0);
    forall k | 0 <= k < |polls| ensures GoesOn(polls, deadlineAt, k) <==> Attempts(polls, deadlineAt, k) {
      GoesOnIff(polls, deadlineAt, k);
    }
  }

  lemma GoesOnIff(polls: seq<Poll>, deadlineAt: real, k: nat)
    requires k < |polls|
    ensures GoesOn(polls, deadlineAt, k) <==> Attempts(polls, deadlineAt, k)
  {
    var a := polls[..k];
    var outage, recovery := Outage(a), Recovery(a);
    assert forall i :: 0 <= i < k ==> a[i] == polls[i];
    if recovery.Some? {
      assert polls[outage.value].status != Some(200) && polls[recovery.value].status == Some(200);
    }
  }

  /** A reported downtime runs from the first attempt not answered with 200 to the first 200 after it, and is never
      negative. */
  lemma DowntimeMeasuresTheOutage(a: seq<Poll>, signalSentAt: real)
    requires Chronological(a)
    ensures var r := Observed(a, signalSentAt);
      r.downtimeMs.Some? <==> exists i, j :: 0 <= i < j < |a| && !a[i].Up() && a[j].Up()
    ensures forall d :: Observed(a, signalSentAt).downtimeMs == Some(d) ==> d >= 0.0 && exists i, j ::
      && 0 <= i < j < |a| && d == a[j].now - a[i].now
      && !a[i].Up() && (forall k :: 0 <= k < i ==> a[k].Up())
      && a[j].Up() && (forall k :: i <= k < j ==> !a[k].Up())
  {
    var outage, recovery := Outage(a), Recovery(a);
    if i, j :| 0 <= i < j < |a| && !a[i].Up() && a[j].Up() {
      assert outage.Some? && outage.value <= i;
      assert recovery.Some?;
    }
    if recovery.Some? {
      assert !a[outage.value].Up() && a[recovery.value].Up();
      assert a[outage.value].now <= a[recovery.value].now;
    }
  }

  /** A reported time belongs to a final status 200; an outage without recovery reports neither time nor downtime. */
  lemma TimeMeansUp(a: seq<Poll>, signalSentAt: real)
    requires StopsAtRecovery(a)
    ensures var r := Observed(a, signalSentAt);
      && (r.ms.Some? ==> r.status == Some(200) && r.ms == Some(a[|a| - 1].now - signalSentAt))
      && (r.unavailableMs.Some? && r.firstRecoveryMs.None? ==> r.ms.None? && r.downtimeMs.None?)
      && (r.ms.None? <==> a == [] || (Outage(a).Some? && !a[|a| - 1].Up()))
  {
    if Recovery(a).Some? { RecoveryIsLast(a); }
  }

  lemma RecoveryIsLast(a: seq<Poll>)
    requires StopsAtRecovery(a) && Recovery(a).Some?
    ensures Recovery(a).value == |a| - 1
  {
    if Recovery(a).value < |a| - 1 {
      PrefixRecovers(a, Recovery(a).value + 1);
      assert false;
    }
  }

  lemma PrefixRecovers(a: seq<Poll>, n: nat)
    requires Recovery(a).Some? && Recovery(a).value < n <= |a|
    ensures Recovery(a[..n]).Some?
  {
    var b, i, j := a[..n], Outage(a).value, Recovery(a).value;
    assert i <= j && b[i] == a[i] && b[j] == a[j];
    assert Outage(b).Some? && Outage(b).value <= i;
  }

  function Keys(a: seq<Poll>): seq<(Option<nat>, string)> {
    seq(|a|, i requires 0 <= i < |a| => a[i].Key())
  }

  function States<T>(runs: seq<Run<T>>): seq<T> {
    seq(|runs|, i requires 0 <= i < |runs| => runs[i].state)
  }

  // Where the k-th run of the trace begins.
  function StartOf<T>(runs: seq<Run<T>>, k: nat): nat
    requires k <= |runs|
  {
    |Expand(runs[..k])|
  }

  type StateRuns = seq<Run<(Option<nat>, string)>>

  // The k-th change is the first attempt of the k-th run.
  ghost predicate BeginsRun(a: seq<Poll>, changes: seq<Poll>, runs: StateRuns, k: nat)
    requires k < |runs|
  {
    k < |changes| && StartOf(runs, k) < |a| && changes[k] == a[StartOf(runs, k)]
  }

  ghost predicate BeginRuns(a: seq<Poll>, changes: seq<Poll>, runs: StateRuns) {
    |changes| == |runs| && forall k :: 0 <= k < |runs| ==> BeginsRun(a, changes, runs, k)
  }

  /** The k-th transition reports what the first attempt of the k-th run saw, and when. */
  ghost predicate ReportsRun(a: seq<Poll>, transitions: seq<Transition>, runs: StateRuns, k: nat, signalSentAt: real)
    requires k < |runs|
  {
    && k < |transitions| && StartOf(runs, k) < |a| && a[StartOf(runs, k)].Key() == runs[k].state
    && var first := a[StartOf(runs, k)];
      && transitions[k].ms == first.now - signalSentAt && transitions[k].status == first.status
      && transitions[k].errorKind == if first.errorKind == Some("") then None else first.errorKind
  }

  /** The transitions are the runs of the trace, consecutive equal states merged and nothing else. */
  lemma TransitionsAreRuns(a: seq<Poll>, signalSentAt: real)
    ensures Expand(RunsOf(Keys(a))) == Keys(a) && Proper(RunsOf(Keys(a)))
    ensures |Transitions(Changes(a), signalSentAt)| == |RunsOf(Keys(a))|
    ensures forall k :: 0 <= k < |RunsOf(Keys(a))| ==>
      ReportsRun(a, Transitions(Changes(a), signalSentAt), RunsOf(Keys(a)), k, signalSentAt)
  {
    var runs := RunsOf(Keys(a));
    ChangesAreRuns(a);
    ChangesBeginRuns(a);
    RunsOfExpand(Keys(a));
    forall k | 0 <= k < |runs| ensures ReportsRun(a, Transitions(Changes(a), signalSentAt), runs, k, signalSentAt) {
      assert BeginsRun(a, Changes(a), runs, k);
      assert Keys(Changes(a))[k] == States(runs)[k];
    }
  }

  lemma {:induction false} ChangesBeginRuns(a: seq<Poll>)
    ensures BeginRuns(a, Changes(a), RunsOf(Keys(a)))
  {
    if a != [] {
      var init, last := a[..|a| - 1], a[|a| - 1];
      var runs := RunsOf(Keys(init));
      ChangesBeginRuns(init);
      RunsOfExpand(Keys(init));
      KeysOneMore(init, last);
      assert a == init + [last];
      LastState(Keys(init), last.Key());
      LastRun(Keys(init));
      NoteOneMore(init, last);
      BeginOneMore(init, Changes(init), runs, last);
      NothingAdded(Changes(init));
    }
  }

  lemma NothingAdded<T>(s: seq<T>)
    ensures s + [] == s
  {
  }

  lemma StartsStay<T>(runs: seq<Run<T>>, state: T, k: nat)
    requires k < |Extend(runs, state)|
    ensures k <= |runs| && StartOf(Extend(runs, state), k) == StartOf(runs, k)
    ensures k == |runs| ==> StartOf(runs, k) == |Expand(runs)|
  {
    assert Extend(runs, state)[..k] == runs[..k];
    assert runs[..|runs|] == runs;
  }

  // The changes once p is attempted.
  function ChangesWith(changes: seq<Poll>, runs: StateRuns, p: Poll): seq<Poll> {
    if runs != [] && runs[|runs| - 1].state == p.Key() then changes else changes + [p]
  }

  lemma BeginOneMore(a: seq<Poll>, changes: seq<Poll>, runs: StateRuns, p: Poll)
    requires BeginRuns(a, changes, runs) && |Expand(runs)| == |a|
    ensures BeginRuns(a + [p], ChangesWith(changes, runs, p), Extend(runs, p.Key()))
  {
    var extended, more := Extend(runs, p.Key()), ChangesWith(changes, runs, p);
    forall k | 0 <= k < |extended| ensures BeginsRun(a + [p], more, extended, k) {
      StartsStay(runs, p.Key(), k);
      if k < |runs| { assert BeginsRun(a, changes, runs, k); }
    }
  }

  lemma {:induction false} ChangesAreRuns(a: seq<Poll>)
    ensures Keys(Changes(a)) == States(RunsOf(Keys(a)))
  {
    if a != [] {
      var init, last := a[..|a| - 1], a[|a| - 1];
      ChangesAreRuns(init);
      assert Keys(a) == Keys(init) + [last.Key()];
      LastState(Keys(init), last.Key());
      LastRun(Keys(init));
      StatesExtend(RunsOf(Keys(init)), last.Key());
      KeysOneMore(Changes(init), last);
    }
  }

  lemma KeysOneMore(a: seq<Poll>, p: Poll)
    ensures Keys(a + [p]) == Keys(a) + [p.Key()] && a + [] == a
  {
  }

  lemma StatesExtend<T>(runs: seq<Run<T>>, state: T)
    ensures States(Extend(runs, state)) ==
      States(runs) + if runs != [] && runs[|runs| - 1].state == state then [] else [state]
  {
  }

  lemma LastRun<T>(states: seq<T>)
    ensures states == [] <==> RunsOf(states) == []
    ensures states != [] ==> RunsOf(states)[|RunsOf(states)| - 1].state == states[|states| - 1]
  {
  }
}
