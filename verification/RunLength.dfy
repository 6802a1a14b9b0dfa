/** Merging consecutive equal states of a trace. */
module RunLength {

  datatype Run<T> = Run(state: T, length: nat)

  function Expand<T>(runs: seq<Run<T>>): seq<T> {
    if runs == [] then []
    else
      var last := runs[|runs| - 1];
      Expand(runs[..|runs| - 1]) + seq(last.length, _ => last.state)
  }

  /** Every run holds at least one state and neighbouring runs differ. */
  ghost predicate Proper<T>(runs: seq<Run<T>>) {
    && (forall i :: 0 <= i < |runs| ==> runs[i].length > 0)
    && (forall i :: 0 < i < |runs| ==> runs[i - 1].state != runs[i].state)
  }

  function Extend<T(==)>(runs: seq<Run<T>>, state: T): seq<Run<T>> {
    var n := |runs|;
    if n > 0 && runs[n - 1].state == state then runs[..n - 1] + [Run(state, runs[n - 1].length + 1)]
    else runs + [Run(state, 1)]
  }

  function RunsOf<T(==)>(states: seq<T>): seq<Run<T>> {
    if states == [] then [] else Extend(RunsOf(states[..|states| - 1]), states[|states| - 1])
  }

  lemma ExtendExpands<T>(runs: seq<Run<T>>, state: T)
    ensures Expand(Extend(runs, state)) == Expand(runs) + [state]
    ensures Proper(runs) ==> Proper(Extend(runs, state))
  {
    var extended := Extend(runs, state);
    var n := |extended| - 1;
    assert extended[..n] == if |runs| > n then runs[..n] else runs;
  }

  lemma {:induction false} RunsOfExpand<T>(states: seq<T>)
    ensures Expand(RunsOf(states)) == states && Proper(RunsOf(states))
  {
    if states != [] {
      var init, last := states[..|states| - 1], states[|states| - 1];
      assert states == init + [last];
      RunsOfExpand(init);
      var runs := RunsOf(init);
      assert RunsOf(states) == Extend(runs, last);
      ExtendExpands(runs, last);
    }
  }

  // The runs of the trace without its last state.
  function Shorten<T>(runs: seq<Run<T>>): seq<Run<T>>
    requires runs != []
  {
    var n, last := |runs| - 1, runs[|runs| - 1];
    if last.length <= 1 then runs[..n] else runs[..n] + [Run(last.state, last.length - 1)]
  }

  lemma ShortenThenExtend<T>(runs: seq<Run<T>>)
    requires Proper(runs) && runs != []
    ensures Proper(Shorten(runs)) && Extend(Shorten(runs), runs[|runs| - 1].state) == runs
  {
    var n, last, shorter := |runs| - 1, runs[|runs| - 1], Shorten(runs);
    assert runs == runs[..n] + [last];
    if last.length > 1 {
      assert shorter[..n] == runs[..n];
    }
  }

  /** A trace is read as proper runs in one way only. */
  lemma {:induction false} ProperRunsAreUnique<T>(runs: seq<Run<T>>)
    requires Proper(runs)
    ensures RunsOf(Expand(runs)) == runs
    decreases |runs|, if runs == [] then 0 else runs[|runs| - 1].length
  {
    if runs != [] {
      var state, shorter := runs[|runs| - 1].state, Shorten(runs);
      ShortenThenExtend(runs);
      ProperRunsAreUnique(shorter);
      ExtendExpands(shorter, state);
      LastState(Expand(shorter), state);
    }
  }

  lemma LastState<T>(states: seq<T>, state: T)
    ensures RunsOf(states + [state]) == Extend(RunsOf(states), state)
  {
    assert (states + [state])[..|states|] == states;
  }
}
