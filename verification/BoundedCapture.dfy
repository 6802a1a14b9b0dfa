/** Keeping the tail of a process's output. The elements may be characters or code units. */
module BoundedCapture {
  import opened Decimals

  datatype Capture<T> = Capture(text: seq<T>, truncatedChars: nat)

  const EMPTY: Capture<char> := Capture("", 0)

  function AppendBoundedProcessOutput<T>(capture: Capture<T>, chunk: seq<T>, maxChars: nat): Capture<T>
    requires maxChars > 0
  {
    var nextText := capture.text + chunk;
    if |nextText| <= maxChars then Capture(nextText, capture.truncatedChars)
    else Capture(nextText[|nextText| - maxChars..], capture.truncatedChars + |nextText| - maxChars)
  }

  function FormatProcessOutput(capture: Capture<char>): string {
    if capture.truncatedChars == 0 then capture.text
    else "[output truncated " + Decimal(capture.truncatedChars) + " chars; showing tail]\n" + capture.text
  }

  /** The last maxChars characters of what was received, and how many came before them. */
  function TailOf<T>(received: seq<T>, maxChars: nat): Capture<T> {
    if |received| <= maxChars then Capture(received, 0)
    else Capture(received[|received| - maxChars..], |received| - maxChars)
  }

  lemma SuffixOfConcat<T>(a: seq<T>, b: seq<T>, t: nat, k: nat)
    requires t <= |a| && k <= |b|
    ensures (a + b)[t + k..] == (a[t..] + b)[k..]
  {
  }

  /** Appending to a tail gives the tail of everything received so far. */
  lemma AppendKeepsTail<T>(received: seq<T>, chunk: seq<T>, maxChars: nat)
    requires maxChars > 0
    ensures AppendBoundedProcessOutput(TailOf(received, maxChars), chunk, maxChars)
      == TailOf(received + chunk, maxChars)
  {
    if |received| > maxChars {
      SuffixOfConcat(received, chunk, |received| - maxChars, |chunk|);
      assert chunk == [] ==> received + chunk == received;
    }
  }

  /** What is shown of a capture: everything received, or how much is missing and what is left. */
  lemma FormattedIs(received: string, maxChars: nat)
    ensures |received| <= maxChars ==> FormatProcessOutput(TailOf(received, maxChars)) == received
    ensures |received| > maxChars ==>
      var missing := |received| - maxChars;
      var notice := "[output truncated " + Decimal(missing) + " chars; showing tail]\n";
      FormatProcessOutput(TailOf(received, maxChars)) == notice + received[missing..]
  {
  }

  function Received<T>(chunks: seq<seq<T>>): seq<T> {
    if chunks == [] then [] else Received(chunks[..|chunks| - 1]) + chunks[|chunks| - 1]
  }

  function CaptureAll<T>(chunks: seq<seq<T>>, maxChars: nat): Capture<T>
    requires maxChars > 0
  {
    if chunks == [] then Capture([], 0)
    else AppendBoundedProcessOutput(CaptureAll(chunks[..|chunks| - 1], maxChars), chunks[|chunks| - 1], maxChars)
  }

  /** However output is chunked, the capture holds the last min(total, maxChars) characters and counts exactly
      the rest. */
  lemma {:induction false} CaptureHoldsTail<T>(chunks: seq<seq<T>>, maxChars: nat)
    requires maxChars > 0
    ensures CaptureAll(chunks, maxChars) == TailOf(Received(chunks), maxChars)
    ensures CaptureAll(chunks, maxChars).truncatedChars == 0 <==> CaptureAll(chunks, maxChars).text == Received(chunks)
  {
    if chunks != [] {
      CaptureHoldsTail(chunks[..|chunks| - 1], maxChars);
      AppendKeepsTail(Received(chunks[..|chunks| - 1]), chunks[|chunks| - 1], maxChars);
    }
  }
}
