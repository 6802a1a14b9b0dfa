/** Which part of a batch is prompted after which answer, over a whole run with its retries and halvings. */
module TranslateTranscript {
  import opened Results
  import opened TranslationBatches
  import opened TranslateBatch
  import JsMap

  // One prompt: for the items from `from` up to `to`, and what came of it.
  datatype Ask = Ask(from: nat, to: nat, tried: Result<Translations, string>) {
    function Middle(): int {
      from + (to - from + 1) / 2
    }

    predicate TimesOut() {
      tried.Throws? && IsPromptTimeout(tried.error)
    }

    predicate FailsOtherwise() {
      tried.Throws? && !IsPromptTimeout(tried.error)
    }

    predicate SameItems(other: Ask) {
      from == other.from && to == other.to
    }
  }

  // The prompt before number k was for the same items; `retried` says so of what came before the first.
  predicate IsRetry(asked: seq<Ask>, k: nat, retried: bool)
    requires k < |asked|
  {
    if k == 0 then retried else asked[k - 1].SameItems(asked[k])
  }

  // Ask number j timed out and was halved where ask number k ends; `next` is for its second half.
  predicate IsSecondHalf(asked: seq<Ask>, j: nat, k: nat, next: Ask)
    requires j < |asked| && k < |asked|
  {
    asked[j].TimesOut() && asked[j].Middle() == asked[k].to && next.from == asked[k].to && next.to == asked[j].to
  }

  /** What follows prompt number k. A timeout on several items is followed by the first half of them; any other failure
      by the same items once more, unless they were just retried; a success by the other half of a halved batch. */
  ghost predicate Continues(asked: seq<Ask>, k: nat, retried: bool)
    requires k + 1 < |asked|
  {
    var ask, next := asked[k], asked[k + 1];
    && (ask.TimesOut() ==> ask.to - ask.from > 1 && next.from == ask.from && next.to == ask.Middle())
    && (ask.FailsOtherwise() ==> next.SameItems(ask) && !IsRetry(asked, k, retried))
    && (ask.tried.Ok? ==> exists j: nat :: j < k && IsSecondHalf(asked, j, k, next))
  }

  /** How a run ends: with the failure of a timeout on at most one item or of a retry, or with the last item done. */
  ghost predicate Ends(asked: seq<Ask>, result: Result<Translations, string>, retried: bool)
    requires asked != []
  {
    var k := |asked| - 1;
    var last := asked[k];
    && (last.TimesOut() ==> last.to - last.from <= 1)
    && (last.FailsOtherwise() ==> IsRetry(asked, k, retried))
    && (last.tried.Throws? ==> result == last.tried)
    && (last.tried.Ok? ==> result.Ok? && last.to == asked[0].to)
  }

  ghost predicate Follows(asked: seq<Ask>, result: Result<Translations, string>, retried: bool) {
    && asked != []
    && (forall k :: 0 <= k < |asked| - 1 ==> Continues(asked, k, retried))
    && Ends(asked, result, retried)
  }

  // The answers are those of the attempts from number `at` on.
  ghost predicate Answered(tries: Attempts, at: nat, items: Batch, asked: seq<Ask>) {
    forall k :: 0 <= k < |asked| ==>
      asked[k].from <= asked[k].to <= |items| && asked[k].tried == tries(at + k, items[asked[k].from..asked[k].to])
  }

  // Every prompt is for some items, and for no others than these.
  ghost predicate Within(asked: seq<Ask>, from: int, to: int) {
    forall k :: 0 <= k < |asked| ==> from <= asked[k].from < asked[k].to <= to
  }

  /** Once a prompt timed out, its items are never prompted together again. */
  ghost predicate NeverAgain(asked: seq<Ask>) {
    forall j, k :: 0 <= j < k < |asked| && asked[j].TimesOut() ==> !asked[k].SameItems(asked[j])
  }

  function Moved(ask: Ask, offset: nat): Ask {
    ask.(from := ask.from + offset, to := ask.to + offset)
  }

  function Shifted(asked: seq<Ask>, offset: nat): seq<Ask> {
    seq(|asked|, k requires 0 <= k < |asked| => Moved(asked[k], offset))
  }

  // ----- transcripts put together

  lemma ShiftedFollows(asked: seq<Ask>, result: Result<Translations, string>, offset: nat)
    requires Follows(asked, result, false) && NeverAgain(asked)
    ensures Follows(Shifted(asked, offset), result, false) && NeverAgain(Shifted(asked, offset))
  {
    var moved := Shifted(asked, offset);
    forall k | 0 <= k < |moved| - 1 ensures Continues(moved, k, false) {
      assert Continues(asked, k, false);
      if asked[k].tried.Ok? {
        var j: nat :| j < k && IsSecondHalf(asked, j, k, asked[k + 1]);
        assert IsSecondHalf(moved, j, k, moved[k + 1]);
      }
    }
  }

  // A transcript inside a longer one.
  lemma ContinuesInside(before: seq<Ask>, asked: seq<Ask>, after: seq<Ask>, k: nat, retried: bool, outer: bool)
    requires k + 1 < |asked| && Continues(asked, k, retried)
    requires IsRetry(before + asked + after, |before|, outer) == retried
    ensures Continues(before + asked + after, |before| + k, outer)
  {
    var all, n := before + asked + after, |before|;
    assert all[n + k] == asked[k] && all[n + k + 1] == asked[k + 1];
    assert k > 0 ==> all[n + k - 1] == asked[k - 1];
    if asked[k].tried.Ok? {
      var j: nat :| j < k && IsSecondHalf(asked, j, k, asked[k + 1]);
      assert all[n + j] == asked[j];
      assert IsSecondHalf(all, n + j, n + k, all[n + k + 1]);
    }
  }

  lemma RetryFollows(first: Ask, rest: seq<Ask>, result: Result<Translations, string>)
    requires first.FailsOtherwise() && Follows(rest, result, true) && rest[0].SameItems(first) && NeverAgain(rest)
    ensures Follows([first] + rest, result, false) && NeverAgain([first] + rest)
  {
    var all := [first] + rest;
    assert all == [first] + rest + [];
    forall k | 0 <= k < |all| - 1 ensures Continues(all, k, false) {
      if k > 0 { ContinuesInside([first], rest, [], k - 1, true, false); }
    }
    assert |rest| > 1 ==> all[|all| - 2] == rest[|rest| - 2];
  }

  // The first half failed: it ends the run.
  lemma FirstHalfFollows(whole: Ask, left: seq<Ask>, result: Result<Translations, string>)
    requires whole.TimesOut() && whole.to - whole.from > 1 && result.Throws?
    requires Follows(left, result, false) && NeverAgain(left)
    requires left[0].from == whole.from && left[0].to == whole.Middle() && Within(left, whole.from, whole.Middle())
    ensures Follows([whole] + left, result, false) && NeverAgain([whole] + left)
  {
    var all := [whole] + left;
    assert all == [whole] + left + [];
    forall k | 0 <= k < |all| - 1 ensures Continues(all, k, false) {
      if k > 0 { ContinuesInside([whole], left, [], k - 1, false, false); }
    }
    assert |left| > 1 ==> all[|all| - 2] == left[|left| - 2];
  }

  lemma BothHalvesFollow(whole: Ask, left: seq<Ask>, right: seq<Ask>, done: Result<Translations, string>,
      result: Result<Translations, string>)
    requires whole.TimesOut() && whole.to - whole.from > 1 && done.Ok?
    requires Follows(left, done, false) && Follows(right, result, false) && NeverAgain(left) && NeverAgain(right)
    requires left[0].from == whole.from && left[0].to == whole.Middle() && Within(left, whole.from, whole.Middle())
    requires right[0].from == whole.Middle() && right[0].to == whole.to && Within(right, whole.Middle(), whole.to)
    ensures Follows([whole] + left + right, result, false)
    ensures NeverAgain([whole] + left + right)
  {
    var all, n := [whole] + left + right, |left|;
    assert all == [whole] + left + right + [] && all == ([whole] + left) + right + [];
    assert all[n] == left[n - 1] && all[n + 1] == right[0] && all[0] == whole;
    forall k | 0 <= k < |all| - 1 ensures Continues(all, k, false) {
      if k == 0 {
      } else if k < n {
        ContinuesInside([whole], left, right, k - 1, false, false);
      } else if k == n {
        assert IsSecondHalf(all, 0, k, all[k + 1]);
      } else {
        ContinuesInside([whole] + left, right, [], k - n - 1, false, false);
      }
    }
    BothHalvesEnd(whole, left, right, result);
    BothNeverAgain(whole, left, right);
  }

  lemma BothHalvesEnd(whole: Ask, left: seq<Ask>, right: seq<Ask>, result: Result<Translations, string>)
    requires right != [] && Ends(right, result, false) && left != []
    requires whole.to == right[0].to && (|right| == 1 ==> !left[|left| - 1].SameItems(right[0]))
    ensures Ends([whole] + left + right, result, false)
  {
    var all := [whole] + left + right;
    assert all[|all| - 1] == right[|right| - 1];
    assert |right| > 1 ==> all[|all| - 2] == right[|right| - 2];
    assert |right| == 1 ==> all[|all| - 2] == left[|left| - 1];
  }

  lemma BothNeverAgain(whole: Ask, left: seq<Ask>, right: seq<Ask>)
    requires NeverAgain(left) && NeverAgain(right) && whole.to - whole.from > 1
    requires Within(left, whole.from, whole.Middle()) && Within(right, whole.Middle(), whole.to)
    ensures NeverAgain([whole] + left + right)
  {
  }

  // ----- every run has such a transcript

  // The whole batch, prompted.
  function Whole(tries: Attempts, at: nat, items: Batch): Ask {
    Ask(0, |items|, tries(at, items))
  }

  // The transcript `asked` is one of the run, the first prompt being for the whole batch.
  ghost predicate Records(tries: Attempts, at: nat, items: Batch, run: Run, asked: seq<Ask>, retried: bool) {
    && Follows(asked, run.result, retried) && NeverAgain(asked) && Answered(tries, at, items, asked)
    && |asked| == run.used && asked[0].from == 0 && asked[0].to == |items|
    && (items != [] ==> Within(asked, 0, |items|))
  }

  lemma AnsweredOn(tries: Attempts, at: nat, items: Batch, a: seq<Ask>, b: seq<Ask>)
    requires Answered(tries, at, items, a) && Answered(tries, at + |a|, items, b)
    ensures Answered(tries, at, items, a + b)
  {
  }

  lemma AnsweredInPart(tries: Attempts, at: nat, before: Batch, part: Batch, after: Batch, asked: seq<Ask>)
    requires Answered(tries, at, part, asked)
    ensures Answered(tries, at, before + part + after, Shifted(asked, |before|))
  {
    var all, moved := before + part + after, Shifted(asked, |before|);
    forall k | 0 <= k < |moved|
      ensures moved[k].to <= |all| && moved[k].tried == tries(at + k, all[moved[k].from..moved[k].to])
    {
      assert all[moved[k].from..moved[k].to] == part[asked[k].from..asked[k].to];
    }
  }

  // A transcript of the run on items[from..to], in the positions of the whole batch.
  ghost predicate Places(tries: Attempts, at: nat, items: Batch, from: nat, to: nat, run: Run, asked: seq<Ask>) {
    && Follows(asked, run.result, false) && NeverAgain(asked) && Answered(tries, at, items, asked)
    && |asked| == run.used && asked[0].from == from && asked[0].to == to && Within(asked, from, to)
  }

  lemma PartIsPlaced(tries: Attempts, at: nat, items: Batch, from: nat, to: nat, part: Batch, run: Run, asked: seq<Ask>)
    requires from < to <= |items| && part == items[from..to] && Records(tries, at, part, run, asked, false)
    ensures Places(tries, at, items, from, to, run, Shifted(asked, from))
  {
    ShiftedFollows(asked, run.result, from);
    AnsweredInPart(tries, at, items[..from], part, items[to..], asked);
    assert items[..from] + part + items[to..] == items;
  }

  lemma TimeoutForgets(asked: seq<Ask>, result: Result<Translations, string>, retried: bool)
    requires Follows(asked, result, false) && asked[0].TimesOut()
    ensures Follows(asked, result, retried)
  {
    forall k | 0 <= k < |asked| - 1 ensures Continues(asked, k, retried) {
      assert Continues(asked, k, false);
    }
  }

  /** Some transcript belongs to the run. */
  ghost predicate IsRecorded(tries: Attempts, at: nat, items: Batch, run: Run, retried: bool) {
    exists asked :: Records(tries, at, items, run, asked, retried)
  }

  /** Every run has a transcript: its prompts follow one another by these rules, number as many as the run used, and
      have the answers of the attempts made on exactly these items. */
  lemma {:induction false} RunIsRecorded(tries: Attempts, at: nat, items: Batch, attempt: nat)
    requires attempt < TRANSLATE_MAX_ATTEMPTS
    ensures IsRecorded(tries, at, items, RunFrom(tries, at, items, attempt), attempt == 1)
    decreases |items|, TRANSLATE_MAX_ATTEMPTS - attempt
  {
    var whole, run := Whole(tries, at, items), RunFrom(tries, at, items, attempt);
    if whole.TimesOut() && |items| > 1 {
      HalvesAreRecorded(tries, at, items, run, attempt == 1);
    } else if whole.FailsOtherwise() && attempt == 0 {
      RunIsRecorded(tries, at + 1, items, 1);
      RetryIsRecorded(tries, at, items, RunFrom(tries, at + 1, items, 1), run);
    } else {
      assert items[0..|items|] == items;
      assert Records(tries, at, items, run, [whole], attempt == 1);
    }
  }

  lemma RetryIsRecorded(tries: Attempts, at: nat, items: Batch, rest: Run, run: Run)
    requires Whole(tries, at, items).FailsOtherwise() && IsRecorded(tries, at + 1, items, rest, true)
    requires run == rest.After(1)
    ensures IsRecorded(tries, at, items, run, false)
  {
    var whole := Whole(tries, at, items);
    var later :| Records(tries, at + 1, items, rest, later, true);
    assert items[0..|items|] == items;
    RetryFollows(whole, later, rest.result);
    AnsweredOn(tries, at, items, [whole], later);
    assert Records(tries, at, items, run, [whole] + later, false);
  }

  lemma {:induction false} HalvesAreRecorded(tries: Attempts, at: nat, items: Batch, run: Run, retried: bool)
    requires |items| > 1 && Whole(tries, at, items).TimesOut() && run == Halves(tries, at + 1, items).After(1)
    ensures IsRecorded(tries, at, items, run, retried)
    decreases |items|, 0
  {
    var a, b := items[..Midpoint(items)], items[Midpoint(items)..];
    var left := RunFrom(tries, at + 1, a, 0);
    RunIsRecorded(tries, at + 1, a, 0);
    if left.result.Throws? {
      FirstHalfRecorded(tries, at, items, run, left, retried);
    } else {
      var right := RunFrom(tries, at + 1 + left.used, b, 0);
      RunIsRecorded(tries, at + 1 + left.used, b, 0);
      BothHalvesRecorded(tries, at, items, run, left, right, retried);
    }
  }

  // Half of the items, recorded, has its place in the transcript of all.
  lemma HalfIsPlaced(tries: Attempts, at: nat, items: Batch, from: nat, to: nat, half: Batch, run: Run)
    returns (asked: seq<Ask>)
    requires from < to <= |items| && half == items[from..to] && IsRecorded(tries, at, half, run, false)
    ensures Places(tries, at, items, from, to, run, asked)
  {
    var found :| Records(tries, at, half, run, found, false);
    PartIsPlaced(tries, at, items, from, to, half, run, found);
    asked := Shifted(found, from);
  }

  lemma FirstHalfRecorded(tries: Attempts, at: nat, items: Batch, run: Run, left: Run, retried: bool)
    requires |items| > 1 && Whole(tries, at, items).TimesOut() && left.result.Throws?
    requires IsRecorded(tries, at + 1, items[..Midpoint(items)], left, false) && run == left.After(1)
    ensures IsRecorded(tries, at, items, run, retried)
  {
    var whole := Whole(tries, at, items);
    assert items[0..|items|] == items && items[..Midpoint(items)] == items[0..Midpoint(items)];
    var first := HalfIsPlaced(tries, at + 1, items, 0, Midpoint(items), items[..Midpoint(items)], left);
    FirstHalfFollows(whole, first, left.result);
    AnsweredOn(tries, at, items, [whole], first);
    TimeoutForgets([whole] + first, run.result, retried);
    assert Records(tries, at, items, run, [whole] + first, retried);
  }

  lemma BothHalvesRecorded(
      tries: Attempts, at: nat, items: Batch, run: Run, left: Run, right: Run, retried: bool)
    requires |items| > 1 && Whole(tries, at, items).TimesOut() && left.result.Ok?
    requires IsRecorded(tries, at + 1, items[..Midpoint(items)], left, false)
    requires IsRecorded(tries, at + 1 + left.used, items[Midpoint(items)..], right, false)
    requires run.used == 1 + left.used + right.used
    requires run.result ==
      if right.result.Throws? then right.result else Ok(JsMap.Merge(left.result.value, right.result.value))
    ensures IsRecorded(tries, at, items, run, retried)
  {
    var m := Midpoint(items);
    assert items[..m] == items[0..m] && items[m..] == items[m..|items|];
    var first := HalfIsPlaced(tries, at + 1, items, 0, m, items[..m], left);
    var second := HalfIsPlaced(tries, at + 1 + left.used, items, m, |items|, items[m..], right);
    HalvesMakeRecord(tries, at, items, run, left, right, retried, first, second);
  }

  lemma HalvesMakeRecord(tries: Attempts, at: nat, items: Batch, run: Run, left: Run, right: Run, retried: bool,
      first: seq<Ask>, second: seq<Ask>)
    requires |items| > 1 && Whole(tries, at, items).TimesOut() && left.result.Ok?
    requires Places(tries, at + 1, items, 0, Midpoint(items), left, first)
    requires Places(tries, at + 1 + left.used, items, Midpoint(items), |items|, right, second)
    requires run.used == 1 + left.used + right.used
    requires run.result ==
      if right.result.Throws? then right.result else Ok(JsMap.Merge(left.result.value, right.result.value))
    ensures IsRecorded(tries, at, items, run, retried)
  {
    var whole := Whole(tries, at, items);
    var asked := [whole] + first + second;
    assert items[0..|items|] == items;
    BothHalvesFollow(whole, first, second, left.result, right.result);
    AnsweredOn(tries, at, items, [whole], first);
    AnsweredOn(tries, at, items, [whole] + first, second);
    if right.result.Ok? { EndsEither(asked, right.result, left.result); }
    TimeoutForgets(asked, run.result, retried);
    assert Records(tries, at, items, run, asked, retried);
  }

  // What a successful run's map is plays no part in the order of the prompts.
  lemma EndsEither(asked: seq<Ask>, result: Result<Translations, string>, left: Result<Translations, string>)
    requires Follows(asked, result, false) && result.Ok? && left.Ok?
    ensures Follows(asked, Ok(JsMap.Merge(left.value, result.value)), false)
  {
  }

  // ----- the transcript of a provider that always times out

  function Pow2(n: nat): nat {
    if n == 0 then 1 else 2 * Pow2(n - 1)
  }

  /** A provider that always times out is asked once for each halving down to a single item, and that is all: with c
      the number of halvings, 2 to the c is the least power of two that is not less than the number of items. */
  lemma {:induction false} AlwaysTimesOut(tries: Attempts, at: nat, items: Batch, attempt: nat) returns (halvings: nat)
    requires attempt < TRANSLATE_MAX_ATTEMPTS && items != []
    requires forall k: nat, batch: Batch :: tries(k, batch).Throws? && IsPromptTimeout(tries(k, batch).error)
    ensures RunFrom(tries, at, items, attempt).used == 1 + halvings
    ensures RunFrom(tries, at, items, attempt).result.Throws?
    ensures |items| <= Pow2(halvings) && (halvings > 0 ==> Pow2(halvings - 1) < |items|)
    decreases |items|
  {
    if |items| == 1 {
      halvings := 0;
    } else {
      var half := items[..Midpoint(items)];
      var fewer := AlwaysTimesOut(tries, at + 1, half, 0);
      halvings := fewer + 1;
      assert RunFrom(tries, at, items, attempt) == Halves(tries, at + 1, items).After(1);
      assert Halves(tries, at + 1, items) == RunFrom(tries, at + 1, half, 0);
    }
  }
}
