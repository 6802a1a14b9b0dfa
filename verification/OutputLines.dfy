/** Cutting the benchmarked gateway's output streams into lines, chunk by chunk. */
module OutputLines {

  // split(/\r?\n/)
  function SplitLines(s: string): (parts: seq<string>)
    ensures parts != []
    decreases |s|
  {
    if s == [] then [[]]
    else if s[0] == '\n' then [[]] + SplitLines(s[1..])
    else if |s| >= 2 && s[..2] == "\r\n" then [[]] + SplitLines(s[2..])
    else var rest := SplitLines(s[1..]); [[s[0]] + rest[0]] + rest[1..]
  }

  function Init(parts: seq<string>): seq<string>
    requires parts != []
  {
    parts[..|parts| - 1]
  }

  function Last(parts: seq<string>): string
    requires parts != []
  {
    parts[|parts| - 1]
  }

  datatype Collected = Collected(carry: string, lines: seq<string>)

  function CollectOutputLines(carry: string, chunk: string): Collected {
    var parts := SplitLines(carry + chunk);
    Collected(Last(parts), Init(parts))
  }

  // ----- what splitting means

  // A line end after this part: CR LF, or LF unless a CR stands before it.
  predicate EndsLine(part: string, separator: string) {
    separator == "\r\n" || (separator == "\n" && (part == [] || part[|part| - 1] != '\r'))
  }

  /** The text is these parts with these line ends between them, and no part holds a line feed. */
  ghost predicate IsSplit(s: string, parts: seq<string>, separators: seq<string>)
    decreases |separators|
  {
    && |parts| == |separators| + 1
    && '\n' !in parts[0]
    && if separators == [] then s == parts[0]
       else
         && EndsLine(parts[0], separators[0])
         && parts[0] + separators[0] <= s
         && IsSplit(s[|parts[0] + separators[0]|..], parts[1..], separators[1..])
  }

  function LineEnds(s: string): seq<string>
    decreases |s|
  {
    if s == [] then []
    else if s[0] == '\n' then ["\n"] + LineEnds(s[1..])
    else if |s| >= 2 && s[..2] == "\r\n" then ["\r\n"] + LineEnds(s[2..])
    else LineEnds(s[1..])
  }

  lemma IsSplitCons(part: string, separator: string, s: string, parts: seq<string>, separators: seq<string>)
    requires '\n' !in part && EndsLine(part, separator) && IsSplit(s, parts, separators)
    ensures IsSplit(part + separator + s, [part] + parts, [separator] + separators)
  {
    assert (part + separator + s)[|part + separator|..] == s;
    assert ([part] + parts)[1..] == parts && ([separator] + separators)[1..] == separators;
  }

  // One more character, not part of a line end, at the front of the first part.
  lemma IsSplitPush(c: char, s: string, parts: seq<string>, separators: seq<string>)
    requires c != '\n' && IsSplit(s, parts, separators)
    requires c == '\r' ==> s == [] || s[0] != '\n'
    ensures IsSplit([c] + s, [[c] + parts[0]] + parts[1..], separators)
  {
    var pushed := [[c] + parts[0]] + parts[1..];
    assert pushed[1..] == parts[1..];
    if separators != [] {
      assert parts[0] == [] && separators[0] == "\n" ==> s[0] == '\n';
      var n := |parts[0] + separators[0]|;
      assert ([c] + s)[n + 1..] == s[n..];
    }
  }

  // The text begins with a line end.
  lemma IsSplitAtLineEnd(separator: string, rest: string)
    requires (separator == "\n" || separator == "\r\n") && IsSplit(rest, SplitLines(rest), LineEnds(rest))
    ensures IsSplit(separator + rest, SplitLines(separator + rest), LineEnds(separator + rest))
  {
    var s := separator + rest;
    assert s[..|separator|] == separator && s[|separator|..] == rest;
    IsSplitCons([], separator, rest, SplitLines(rest), LineEnds(rest));
    assert [] + separator + rest == s;
  }

  lemma {:induction false} SplitLinesIsSplit(s: string)
    ensures IsSplit(s, SplitLines(s), LineEnds(s))
    decreases |s|
  {
    if s != [] {
      if s[0] == '\n' {
        SplitLinesIsSplit(s[1..]);
        IsSplitAtLineEnd("\n", s[1..]);
        assert "\n" + s[1..] == s;
      } else if |s| >= 2 && s[..2] == "\r\n" {
        SplitLinesIsSplit(s[2..]);
        IsSplitAtLineEnd("\r\n", s[2..]);
        assert "\r\n" + s[2..] == s;
      } else {
        SplitLinesIsSplit(s[1..]);
        assert |s| >= 2 ==> s[..2] == [s[0], s[1]];
        IsSplitPush(s[0], s[1..], SplitLines(s[1..]), LineEnds(s[1..]));
        assert [s[0]] + s[1..] == s;
      }
    }
  }

  lemma {:induction false} NoLineEnd(s: string)
    requires '\n' !in s
    ensures SplitLines(s) == [s]
  {
    if s != [] {
      NoLineEnd(s[1..]);
      assert |s| >= 2 ==> s[..2] == [s[0], s[1]];
      assert [s[0]] + s[1..] == s && [s] + [] == [s];
    }
  }

  lemma {:induction false} FirstPart(part: string, separator: string, rest: string)
    requires '\n' !in part && EndsLine(part, separator)
    ensures SplitLines(part + separator + rest) == [part] + SplitLines(rest)
  {
    var s := part + separator + rest;
    if part == [] {
      assert s[|separator|..] == rest && s[..|separator|] == separator;
    } else {
      FirstPart(part[1..], separator, rest);
      assert s[1..] == part[1..] + separator + rest && s[0] == part[0];
      assert s[..2] == [s[0], s[1]];
      assert part == [s[0]] + part[1..];
    }
  }

  /** SplitLines is the only split of a text. */
  lemma {:induction false} SplitIsUnique(s: string, parts: seq<string>, separators: seq<string>)
    requires IsSplit(s, parts, separators)
    ensures parts == SplitLines(s)
    decreases |separators|
  {
    if separators == [] {
      NoLineEnd(s);
    } else {
      var rest := s[|parts[0] + separators[0]|..];
      SplitIsUnique(rest, parts[1..], separators[1..]);
      FirstPart(parts[0], separators[0], rest);
      assert s == parts[0] + separators[0] + rest;
      assert parts == [parts[0]] + parts[1..];
    }
  }

  // ----- chunking

  lemma {:induction false} SplitsConcatenate(a: string, p: seq<string>, e: seq<string>, b: string, q: seq<string>,
      f: seq<string>)
    requires IsSplit(a, p, e) && IsSplit(Last(p) + b, q, f)
    ensures IsSplit(a + b, Init(p) + q, e + f)
    decreases |e|
  {
    if e == [] {
      assert Init(p) + q == q && e + f == f;
    } else {
      var n := |p[0] + e[0]|;
      SplitsConcatenate(a[n..], p[1..], e[1..], b, q, f);
      IsSplitCons(p[0], e[0], a[n..] + b, Init(p[1..]) + q, e[1..] + f);
      assert p[0] + e[0] + (a[n..] + b) == a + b by { assert a == p[0] + e[0] + a[n..]; }
      FirstThenRest(p, q);
      FirstThenRest(e + [[]], f);
      assert e + [[]] == [e[0]] + (e[1..] + [[]]);
      InitAndLast(e, []);
    }
  }

  lemma FirstThenRest(p: seq<string>, q: seq<string>)
    requires |p| >= 2
    ensures [p[0]] + (Init(p[1..]) + q) == Init(p) + q
  {
  }

  /** Splitting a text from its last line start on gives the same lines, wherever the text was cut. */
  lemma SplitResumes(a: string, b: string)
    ensures SplitLines(a + b) == Init(SplitLines(a)) + SplitLines(Last(SplitLines(a)) + b)
  {
    var p := SplitLines(a);
    SplitLinesIsSplit(a);
    SplitLinesIsSplit(Last(p) + b);
    SplitsConcatenate(a, p, LineEnds(a), b, SplitLines(Last(p) + b), LineEnds(Last(p) + b));
    SplitIsUnique(a + b, Init(p) + SplitLines(Last(p) + b), LineEnds(a) + LineEnds(Last(p) + b));
  }

  // ----- the two stream buffers

  datatype Stream = Stdout | Stderr
  datatype Event = Chunk(stream: Stream, text: string) | Flush(flushPartial: bool)
  datatype Buffers = Buffers(stdout: string, stderr: string, log: seq<(Stream, string)>) {
    function Carry(stream: Stream): string {
      if stream.Stdout? then stdout else stderr
    }

    function WithCarry(stream: Stream, carry: string): Buffers {
      if stream.Stdout? then this.(stdout := carry) else this.(stderr := carry)
    }

    function FlushOne(stream: Stream): Buffers {
      if Carry(stream) == "" then this
      else WithCarry(stream, "").(log := log + [(stream, Carry(stream))])
    }

    function Next(event: Event): Buffers {
      match event
      case Chunk(stream, text) =>
        var parsed := CollectOutputLines(Carry(stream), text);
        WithCarry(stream, parsed.carry).(log := log + Tagged(stream, parsed.lines))
      case Flush(flushPartial) =>
        if flushPartial then FlushOne(Stdout).FlushOne(Stderr) else this
    }
  }

  function Tagged(stream: Stream, lines: seq<string>): seq<(Stream, string)> {
    seq(|lines|, i requires 0 <= i < |lines| => (stream, lines[i]))
  }

  // What is reported of a carry: one line, unless it is empty.
  function Pending(stream: Stream, carry: string): seq<(Stream, string)> {
    if carry == "" then [] else [(stream, carry)]
  }

  const EMPTY := Buffers("", "", [])

  function After(events: seq<Event>): Buffers {
    if events == [] then EMPTY else After(events[..|events| - 1]).Next(events[|events| - 1])
  }

  // onLine appends to the log.
  class OutputBuffers {
    var stdout: string
    var stderr: string
    var log: seq<(Stream, string)>

    function View(): Buffers
      reads this
    {
      Buffers(stdout, stderr, log)
    }

    constructor ()
      ensures View() == EMPTY
    {
      stdout, stderr, log := "", "", [];
    }

    method OnChunk(stream: Stream, text: string)
      modifies this
      ensures View() == old(View()).Next(Chunk(stream, text))
      ensures |log| >= |old(log)| && log[..|old(log)|] == old(log)
      ensures forall i :: |old(log)| <= i < |log| ==> log[i].0 == stream
    {
      var parsed := CollectOutputLines(if stream.Stdout? then stdout else stderr, text);
      if stream.Stdout? {
        stdout := parsed.carry;
      } else {
        stderr := parsed.carry;
      }
      for i := 0 to |parsed.lines|
        invariant stdout == old(View()).WithCarry(stream, parsed.carry).stdout
        invariant stderr == old(View()).WithCarry(stream, parsed.carry).stderr
        invariant log == old(log) + Tagged(stream, parsed.lines[..i])
      {
        log := log + [(stream, parsed.lines[i])];
        assert Tagged(stream, parsed.lines[..i + 1]) == Tagged(stream, parsed.lines[..i]) + [(stream, parsed.lines[i])];
      }
      assert parsed.lines[..|parsed.lines|] == parsed.lines;
    }

    method FlushOutputLineBuffers(flushPartial: bool)
      modifies this
      ensures View() == old(View()).Next(Flush(flushPartial))
      ensures !flushPartial ==> View() == old(View())
      ensures flushPartial ==> stdout == "" && stderr == ""
      ensures flushPartial ==> log == old(log) + Pending(Stdout, old(stdout)) + Pending(Stderr, old(stderr))
    {
      if !flushPartial {
        return;
      }
      if stdout != "" {
        var line := stdout;
        stdout := "";
        log := log + [(Stdout, line)];
      }
      if stderr != "" {
        var line := stderr;
        stderr := "";
        log := log + [(Stderr, line)];
      }
    }
  }

  // ----- every run of the buffers

  function LinesOf(stream: Stream, log: seq<(Stream, string)>): seq<string> {
    if log == [] then []
    else
      LinesOf(stream, log[..|log| - 1]) + if log[|log| - 1].0 == stream then [log[|log| - 1].1] else []
  }

  function TextOf(stream: Stream, events: seq<Event>): string {
    if events == [] then []
    else
      var last := events[|events| - 1];
      TextOf(stream, events[..|events| - 1]) + if last.Chunk? && last.stream == stream then last.text else []
  }

  lemma OneMoreLine(stream: Stream, log: seq<(Stream, string)>, from: Stream, lines: seq<string>, line: string)
    ensures log + Tagged(from, lines + [line]) == (log + Tagged(from, lines)) + [(from, line)]
    ensures LinesOf(stream, (log + Tagged(from, lines)) + [(from, line)])
      == LinesOf(stream, log + Tagged(from, lines)) + if from == stream then [line] else []
  {
    var before := log + Tagged(from, lines);
    assert (before + [(from, line)])[..|before|] == before;
  }

  lemma {:induction false} LinesOfAppend(stream: Stream, log: seq<(Stream, string)>, from: Stream, lines: seq<string>)
    ensures LinesOf(stream, log + Tagged(from, lines)) == LinesOf(stream, log) + if from == stream then lines else []
  {
    if lines == [] {
      assert log + Tagged(from, lines) == log;
    } else {
      var init, last := Init(lines), Last(lines);
      assert lines == init + [last];
      LinesOfAppend(stream, log, from, init);
      OneMoreLine(stream, log, from, init, last);
    }
  }

  ghost predicate OnlyFinalFlush(events: seq<Event>) {
    forall e :: e in events ==> e != Flush(true)
  }

  lemma InitAndLast(lines: seq<string>, last: string)
    ensures Init(lines + [last]) == lines && Last(lines + [last]) == last
  {
  }

  lemma ThenInitAndLast(lines: seq<string>, parts: seq<string>)
    requires parts != []
    ensures lines + Init(parts) + [Last(parts)] == lines + parts
  {
    assert Init(parts) + [Last(parts)] == parts;
  }

  lemma ResumeFrom(lines: seq<string>, carry: string, seen: string, text: string)
    requires lines + [carry] == SplitLines(seen)
    ensures SplitLines(seen + text) == lines + SplitLines(carry + text)
  {
    InitAndLast(lines, carry);
    SplitResumes(seen, text);
  }

  lemma ReadChunk(s: Buffers, stream: Stream, seen: string, text: string)
    requires LinesOf(stream, s.log) + [s.Carry(stream)] == SplitLines(seen)
    ensures var t := s.Next(Chunk(stream, text));
      LinesOf(stream, t.log) + [t.Carry(stream)] == SplitLines(seen + text)
  {
    var t := s.Next(Chunk(stream, text));
    var lines, parts := LinesOf(stream, s.log), SplitLines(s.Carry(stream) + text);
    ResumeFrom(lines, s.Carry(stream), seen, text);
    ThenInitAndLast(lines, parts);
    assert LinesOf(stream, t.log) == lines + Init(parts) by {
      LinesOfAppend(stream, s.log, stream, Init(parts));
    }
    assert t.Carry(stream) == Last(parts);
  }

  lemma ReadOtherChunk(s: Buffers, stream: Stream, other: Stream, text: string)
    requires stream != other
    ensures var t := s.Next(Chunk(other, text));
      LinesOf(stream, t.log) == LinesOf(stream, s.log) && t.Carry(stream) == s.Carry(stream)
  {
    LinesOfAppend(stream, s.log, other, Init(SplitLines(s.Carry(other) + text)));
    assert LinesOf(stream, s.log) + [] == LinesOf(stream, s.log);
  }

  /** However a stream is cut and interleaved with the other, its lines and its carry are those of the whole text. */
  lemma {:induction false} ChunkingDoesNotMatter(events: seq<Event>, stream: Stream)
    requires OnlyFinalFlush(events)
    ensures LinesOf(stream, After(events).log) + [After(events).Carry(stream)] == SplitLines(TextOf(stream, events))
  {
    if events != [] {
      var before, last := events[..|events| - 1], events[|events| - 1];
      assert last in events && forall e :: e in before ==> e in events;
      ChunkingDoesNotMatter(before, stream);
      if last.Chunk? && last.stream == stream {
        ReadChunk(After(before), stream, TextOf(stream, before), last.text);
      } else {
        if last.Chunk? { ReadOtherChunk(After(before), stream, last.stream, last.text); }
        assert TextOf(stream, events) == TextOf(stream, before) + [] == TextOf(stream, before);
      }
    }
  }

  lemma FlushReports(s: Buffers, stream: Stream, from: Stream)
    ensures var t := s.FlushOne(from);
      LinesOf(stream, t.log)
        == LinesOf(stream, s.log) + (if from == stream && s.Carry(from) != "" then [s.Carry(from)] else [])
      && t.Carry(stream) == if from == stream then "" else s.Carry(stream)
  {
    assert Tagged(from, [s.Carry(from)]) == [(from, s.Carry(from))];
    LinesOfAppend(stream, s.log, from, [s.Carry(from)]);
    assert LinesOf(stream, s.log) + [] == LinesOf(stream, s.log);
  }

  /** After the final flush every line has been reported, a non-empty unfinished one included. */
  lemma FinalFlushLosesNothing(events: seq<Event>, stream: Stream)
    requires OnlyFinalFlush(events)
    ensures var parts := SplitLines(TextOf(stream, events));
      LinesOf(stream, After(events + [Flush(true)]).log) == if Last(parts) == "" then Init(parts) else parts
    ensures After(events + [Flush(true)]).Carry(stream) == ""
  {
    assert (events + [Flush(true)])[..|events|] == events;
    var s := After(events);
    var lines, carry := LinesOf(stream, s.log), s.Carry(stream);
    var t := s.FlushOne(Stdout).FlushOne(Stderr);
    assert LinesOf(stream, t.log) == (if carry == "" then lines else lines + [carry]) && t.Carry(stream) == "" by {
      FlushReports(s, stream, Stdout);
      FlushReports(s.FlushOne(Stdout), stream, Stderr);
      NothingMore(lines);
      NothingMore(lines + [carry]);
    }
    ChunkingDoesNotMatter(events, stream);
    InitAndLast(lines, carry);
  }

  lemma NothingMore(lines: seq<string>)
    ensures lines + [] == lines
  {
  }
}
