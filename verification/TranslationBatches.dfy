/** Packing translation items into prompts: greedy, in order, bounded by count and estimated size. */
module TranslationBatches {
  import opened CodeUnits
  import opened Sequences

  datatype Item = Item(key: string, text: string)
  type Batch = seq<Item>

  const MAX_BATCH_ITEMS := 20

  function EstimateBatchChars(items: Batch): nat {
    if items == [] then 2
    else EstimateBatchChars(items[..|items| - 1]) + Length(items[|items| - 1].key) + Length(items[|items| - 1].text) + 8
  }

  // What the packing loop charges a batch: every item carries the two characters of a batch of its own.
  function Charge(items: Batch): nat {
    if items == [] then 2 else Charge(items[..|items| - 1]) + EstimateBatchChars([items[|items| - 1]])
  }

  /** A batch the packer may send: not empty, at most 20 items, and within budget unless it is a single item. */
  predicate Fits(batch: Batch, budget: real) {
    1 <= |batch| <= MAX_BATCH_ITEMS && (|batch| == 1 || Charge(batch) as real <= budget)
  }

  function Concat(batches: seq<Batch>): Batch {
    if batches == [] then [] else batches[0] + Concat(batches[1..])
  }

  /** A way to send the items in order, in batches that fit. */
  ghost predicate Packs(batches: seq<Batch>, items: Batch, budget: real) {
    Concat(batches) == items && forall i :: 0 <= i < |batches| ==> Fits(batches[i], budget)
  }

  // The batches sent when `current` is open and `rest` is still to be packed.
  function Greedy(current: Batch, rest: Batch, budget: real): seq<Batch>
    decreases |rest|
  {
    if rest == [] then (if current == [] then [] else [current])
    else if current != [] && !Fits(current + [rest[0]], budget) then [current] + Greedy([rest[0]], rest[1..], budget)
    else Greedy(current + [rest[0]], rest[1..], budget)
  }

  method BuildTranslationBatches(items: Batch, budget: real) returns (batches: seq<Batch>)
    ensures Packs(batches, items, budget)
    ensures forall other: seq<Batch> :: Packs(other, items, budget) ==> |batches| <= |other|
    ensures batches == Greedy([], items, budget)
  {
    batches := [];
    var current: Batch := [];
    var currentChars := 2;
    assert items[0..] == items;
    for i := 0 to |items|
      invariant |current| <= MAX_BATCH_ITEMS && currentChars == Charge(current)
      invariant IsUnderway(batches, current, items, i, budget)
    {
      var item := items[i];
      PackOne(batches, current, items, i, budget);
      var itemChars := EstimateBatchChars([item]);
      var wouldOverflow := |current| > 0 && (currentChars + itemChars) as real > budget;
      var reachedMaxItems := |current| >= MAX_BATCH_ITEMS;
      if wouldOverflow || reachedMaxItems {
        batches := batches + [current];
        current := [];
        currentChars := 2;
      }
      ChargeOneMore(current, item);
      current := current + [item];
      currentChars := currentChars + itemChars;
    }
    NothingLeft(batches, current, items, budget);
    if |current| > 0 {
      batches := batches + [current];
    }
    GreedyIsBest(items, budget);
  }

  // What is sent already and what is still to be sent make up the greedy packing.
  ghost predicate IsUnderway(batches: seq<Batch>, current: Batch, items: Batch, i: nat, budget: real)
    requires i <= |items|
  {
    Greedy([], items, budget) == batches + Greedy(current, items[i..], budget)
  }

  // The two guards of the loop say exactly that the item no longer fits.
  lemma PackOne(batches: seq<Batch>, current: Batch, items: Batch, i: nat, budget: real)
    requires i < |items| && |current| <= MAX_BATCH_ITEMS && IsUnderway(batches, current, items, i, budget)
    ensures var item := items[i];
      var wouldOverflow := |current| > 0 && (Charge(current) + EstimateBatchChars([item])) as real > budget;
      if wouldOverflow || |current| >= MAX_BATCH_ITEMS
      then IsUnderway(batches + [current], [] + [item], items, i + 1, budget)
      else IsUnderway(batches, current + [item], items, i + 1, budget)
  {
    ChargeOneMore(current, items[i]);
    DropOneMore(items, i);
    assert [] + [items[i]] == [items[i]];
    SendOne(batches, current, Greedy([items[i]], items[i + 1..], budget));
  }

  lemma NothingLeft(batches: seq<Batch>, current: Batch, items: Batch, budget: real)
    requires IsUnderway(batches, current, items, |items|, budget)
    ensures Greedy([], items, budget) == if |current| > 0 then batches + [current] else batches
  {
    assert items[|items|..] == [];
  }

  lemma GreedyIsBest(items: Batch, budget: real)
    ensures Packs(Greedy([], items, budget), items, budget)
    ensures forall other: seq<Batch> :: Packs(other, items, budget) ==> |Greedy([], items, budget)| <= |other|
  {
    GreedyPacks([], items, budget);
    assert [] + items == items;
    forall other: seq<Batch> | Packs(other, items, budget) ensures |Greedy([], items, budget)| <= |other| {
      GreedyIsOptimal(items, items, other, budget);
    }
  }

  lemma ChargeOneMore(current: Batch, item: Item)
    ensures Charge(current + [item]) == Charge(current) + EstimateBatchChars([item])
  {
    assert (current + [item])[..|current|] == current;
  }

  lemma SendOne(batches: seq<Batch>, current: Batch, rest: seq<Batch>)
    ensures batches + ([current] + rest) == (batches + [current]) + rest
  {
  }

  // ----- lossless

  lemma {:induction false} GreedyPacks(current: Batch, rest: Batch, budget: real)
    requires current == [] || Fits(current, budget)
    ensures Packs(Greedy(current, rest, budget), current + rest, budget)
    decreases |rest|
  {
    if rest == [] {
      assert current + rest == current;
      if current != [] { assert Concat([current]) == current + Concat([]) == current; }
    } else {
      var item := rest[0];
      assert rest == [item] + rest[1..];
      if current != [] && !Fits(current + [item], budget) {
        GreedyPacks([item], rest[1..], budget);
        PacksCons(current, Greedy([item], rest[1..], budget), [item] + rest[1..], budget);
      } else {
        if current == [] { assert current + [item] == [item]; }
        GreedyPacks(current + [item], rest[1..], budget);
        assert current + [item] + rest[1..] == current + ([item] + rest[1..]);
      }
    }
  }

  lemma PacksCons(first: Batch, batches: seq<Batch>, items: Batch, budget: real)
    requires Fits(first, budget) && Packs(batches, items, budget)
    ensures Packs([first] + batches, first + items, budget)
  {
    assert ([first] + batches)[1..] == batches;
  }

  // ----- optimal

  lemma {:induction false} ChargeOfConcat(a: Batch, b: Batch)
    ensures Charge(a + b) == Charge(a) + Charge(b) - 2
  {
    if b == [] {
      assert a + b == a;
    } else {
      assert (a + b)[..|a + b| - 1] == a + b[..|b| - 1];
      ChargeOfConcat(a, b[..|b| - 1]);
    }
  }

  // Part of a batch that fits, fits.
  lemma PartFits(before: Batch, part: Batch, after: Batch, budget: real)
    requires Fits(before + part + after, budget) && part != []
    ensures Fits(part, budget)
  {
    ChargeOfConcat(before + part, after);
    ChargeOfConcat(before, part);
    ChargeAtLeastTwo(before);
    ChargeAtLeastTwo(after);
  }

  lemma {:induction false} ChargeAtLeastTwo(items: Batch)
    ensures Charge(items) >= 2
  {
    if items != [] { ChargeAtLeastTwo(items[..|items| - 1]); }
  }

  // The greedy first batch takes in every prefix that fits, and the others are greedy on what is left.
  lemma {:induction false} GreedyTakesMost(current: Batch, rest: Batch, prefix: Batch, budget: real)
    requires current + rest != [] && (current == [] || Fits(current, budget))
    requires prefix <= current + rest && Fits(prefix, budget)
    ensures var g := Greedy(current, rest, budget);
      && g != [] && |prefix| <= |g[0]| <= |current + rest|
      && g[1..] == Greedy([], (current + rest)[|g[0]|..], budget)
    decreases |rest|
  {
    var items := current + rest;
    if rest == [] {
      assert items == current;
    } else {
      var item := rest[0];
      var longer := current + [item];
      assert items == longer + rest[1..];
      if current != [] && !Fits(longer, budget) {
        if |prefix| > |current| {
          assert prefix[..|longer|] == longer;
          assert prefix == [] + longer + prefix[|longer|..];
          PartFits([], longer, prefix[|longer|..], budget);
          assert false;
        }
        assert items[|current|..] == rest;
        GreedyOpens(rest, budget);
      } else {
        if current == [] { assert longer == [item]; }
        GreedyTakesMost(longer, rest[1..], prefix, budget);
      }
    }
  }

  lemma GreedyOpens(rest: Batch, budget: real)
    requires rest != []
    ensures Greedy([], rest, budget) == Greedy([rest[0]], rest[1..], budget)
  {
    assert [] + [rest[0]] == [rest[0]];
  }

  /** No packing of the items, or of any list they end, uses fewer batches. */
  lemma {:induction false} GreedyIsOptimal(suffix: Batch, items: Batch, batches: seq<Batch>, budget: real)
    requires Packs(batches, items, budget)
    requires |suffix| <= |items| && suffix == items[|items| - |suffix|..]
    ensures |Greedy([], suffix, budget)| <= |batches|
    decreases |batches|
  {
    if suffix != [] {
      var first, others := batches[0], batches[1..];
      var later := Concat(others);
      assert items == first + later;
      assert Packs(others, later, budget) by {
        forall i | 0 <= i < |others| ensures Fits(others[i], budget) { assert others[i] == batches[i + 1]; }
      }
      if |suffix| <= |later| {
        assert suffix == later[|later| - |suffix|..];
        GreedyIsOptimal(suffix, later, others, budget);
      } else {
        // the suffix begins inside the first batch
        var n := |suffix| - |later|;
        var before, part := first[..|first| - n], first[|first| - n..];
        assert first == before + part + [] && suffix == part + later;
        PartFits(before, part, [], budget);
        var left := FirstBatchCovers(part, later, budget);
        GreedyIsOptimal(left, later, others, budget);
      }
    }
  }

  lemma DropPart(part: Batch, later: Batch, n: nat)
    requires |part| <= n <= |part + later|
    ensures (part + later)[n..] == later[n - |part|..]
  {
  }

  lemma FirstTakesMost(items: Batch, prefix: Batch, budget: real)
    requires items != [] && prefix <= items && Fits(prefix, budget)
    ensures var g := Greedy([], items, budget);
      && g != [] && |prefix| <= |g[0]| <= |items|
      && g[1..] == Greedy([], items[|g[0]|..], budget)
  {
    assert [] + items == items;
    GreedyTakesMost([], items, prefix, budget);
  }

  // The first greedy batch covers any first part that fits.
  lemma FirstBatchCovers(part: Batch, later: Batch, budget: real) returns (left: Batch)
    requires Fits(part, budget)
    ensures |left| <= |later| && left == later[|later| - |left|..]
    ensures |Greedy([], part + later, budget)| == 1 + |Greedy([], left, budget)|
  {
    FirstTakesMost(part + later, part, budget);
    var g := Greedy([], part + later, budget);
    var n := |g[0]|;
    left := later[n - |part|..];
    DropPart(part, later, n);
    assert |g| == 1 + |g[1..]|;
  }

  /** The charge never understates the size of the prompt, so a batch of several items is within budget by either
      measure. */
  lemma {:induction false} ChargeCoversEstimate(batch: Batch)
    ensures Charge(batch) == EstimateBatchChars(batch) + 2 * |batch|
  {
    if batch != [] {
      ChargeCoversEstimate(batch[..|batch| - 1]);
      EstimateOne(batch[|batch| - 1]);
    }
  }

  // The keys and the texts of a batch, one after the other.
  function Written(items: Batch): string {
    if items == [] then ""
    else Written(items[..|items| - 1]) + (items[|items| - 1].key + items[|items| - 1].text)
  }

  /** The estimate is the length of everything written, eight characters an item, and two. */
  lemma {:induction false} EstimateIs(items: Batch)
    ensures EstimateBatchChars(items) == Length(Written(items)) + 8 * |items| + 2
  {
    if items != [] {
      var init, last := items[..|items| - 1], items[|items| - 1];
      EstimateIs(init);
      LengthsAdd(Written(init), last.key + last.text);
      LengthsAdd(last.key, last.text);
    }
  }

  /** A batch that fits holds 1 to 20 items, and with more than one its estimate, with two characters more for each
      item, is within budget. */
  lemma FitsMeans(batch: Batch, budget: real)
    ensures Fits(batch, budget) <==>
      1 <= |batch| <= 20 && (|batch| == 1 || (EstimateBatchChars(batch) + 2 * |batch|) as real <= budget)
  {
    ChargeCoversEstimate(batch);
  }

  lemma EstimateOne(item: Item)
    ensures EstimateBatchChars([item]) == Length(item.key) + Length(item.text) + 10
  {
    assert [item][..0] == [];
  }
}
