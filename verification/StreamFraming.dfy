/**
 Provider streams: an incremental splitter of byte chunks into lines, composed with a server-sent-events
 parser. A byte is modelled as a character below 256; decoding a line is left out.
 */
module StreamFraming {
  import opened Prelude

  // ---------------------------------------------------------------- lines

  /** The complete lines of a byte string, without their newlines, and what follows the last newline. */
  function Split(bytes: string): (seq<string>, string) {
    if bytes == "" then ([], "")
    else
      var (lines, rest) := Split(bytes[..|bytes| - 1]);
      var last := bytes[|bytes| - 1];
      if last == '\n' then (lines + [rest], "") else (lines, rest + [last])
  }

  /** All lines of a whole stream: a non-empty tail without a newline is a line too. */
  function Lines(bytes: string): seq<string> {
    var (lines, rest) := Split(bytes);
    if rest == "" then lines else lines + [rest]
  }

  function Concat(chunks: seq<string>): string {
    if chunks == [] then "" else Concat(chunks[..|chunks| - 1]) + chunks[|chunks| - 1]
  }

  /** The chunks read before the empty one that marks the end of the stream. */
  function Fed(chunks: seq<string>): seq<string> {
    if chunks == [] || chunks[0] == "" then [] else [chunks[0]] + Fed(chunks[1..])
  }

  lemma {:induction false} SplitRest(bytes: string)
    ensures '\n' !in Split(bytes).1
    ensures forall line :: line in Split(bytes).0 ==> '\n' !in line
  {
    if bytes != "" {
      SplitRest(bytes[..|bytes| - 1]);
    }
  }

  lemma {:induction false} SplitUnbroken(line: string)
    requires '\n' !in line
    ensures Split(line).0 == [] && Split(line).1 == line
  {
    if line != "" {
      SplitUnbroken(line[..|line| - 1]);
      assert line == line[..|line| - 1] + [line[|line| - 1]];
    }
  }

  /** Splitting can resume from what was left over. */
  lemma {:induction false} SplitResumes(a: string, b: string)
    ensures Split(a + b).0 == Split(a).0 + Split(Split(a).1 + b).0
    ensures Split(a + b).1 == Split(Split(a).1 + b).1
  {
    var rest := Split(a).1;
    if b == "" {
      SplitRest(a);
      SplitUnbroken(rest);
      assert a + b == a && rest + b == rest && Split(a).0 + [] == Split(a).0;
    } else {
      var front, last := b[..|b| - 1], b[|b| - 1];
      SplitResumes(a, front);
      assert (a + b)[..|a + b| - 1] == a + front;
      assert (rest + b)[..|rest + b| - 1] == rest + front;
      if last == '\n' {
        var inner := Split(rest + front);
        assert Split(a).0 + inner.0 + [inner.1] == Split(a).0 + (inner.0 + [inner.1]);
      }
    }
  }

  /** A line and its newline come off the front. */
  lemma SplitFirst(line: string, more: string)
    requires '\n' !in line
    ensures Split(line + "\n" + more).0 == [line] + Split(more).0
    ensures Split(line + "\n" + more).1 == Split(more).1
  {
    SplitUnbroken(line);
    assert (line + "\n")[..|line|] == line;
    assert Split(line + "\n").0 == [] + [line] == [line] && Split(line + "\n").1 == "";
    SplitResumes(line + "\n", more);
    assert "" + more == more;
  }

  lemma SplitAppendLine(bytes: string, line: string)
    requires '\n' !in line && Split(bytes).1 == ""
    ensures Split(bytes + (line + "\n")).0 == Split(bytes).0 + [line]
    ensures Split(bytes + (line + "\n")).1 == ""
  {
    SplitResumes(bytes, line + "\n");
    SplitFirst(line, "");
    assert "" + (line + "\n") == line + "\n" + "";
    assert [line] + Split("").0 == [line];
  }

  lemma {:induction false} ConcatSplits(chunks: seq<string>, k: nat)
    requires k < |chunks|
    ensures Concat(chunks[..k + 1]) == Concat(chunks[..k]) + chunks[k]
    ensures |Concat(chunks[..k])| <= |Concat(chunks)|
    decreases |chunks|
  {
    assert chunks[..k + 1][..k] == chunks[..k];
    if k < |chunks| - 1 {
      var front := chunks[..|chunks| - 1];
      ConcatSplits(front, k);
      assert front[..k] == chunks[..k];
    }
  }

  lemma {:induction false} FedPrefix(chunks: seq<string>)
    ensures |Fed(chunks)| <= |chunks| && Fed(chunks) == chunks[..|Fed(chunks)|]
    ensures forall i :: 0 <= i < |Fed(chunks)| ==> chunks[i] != ""
    ensures |Fed(chunks)| < |chunks| ==> chunks[|Fed(chunks)|] == ""
  {
    if chunks != [] && chunks[0] != "" {
      FedPrefix(chunks[1..]);
      assert chunks == [chunks[0]] + chunks[1..];
    }
  }

  function NewlineAt(bytes: string): Option<nat>
    ensures var at := NewlineAt(bytes);
            && (at.None? <==> '\n' !in bytes)
            && (at.Some? ==> at.value < |bytes| && bytes[at.value] == '\n' && '\n' !in bytes[..at.value])
  {
    if bytes == "" then None
    else if bytes[0] == '\n' then Some(0)
    else
      assert bytes == [bytes[0]] + bytes[1..];
      match NewlineAt(bytes[1..])
      case None => None
      case Some(i) =>
        assert bytes[..i + 1] == [bytes[0]] + bytes[1..][..i];
        Some(i + 1)
  }

  /** The inner loop: takes every complete line off the pending bytes. */
  method TakeLines(buffered: string) returns (lines: seq<string>, pending: string)
    ensures lines == Split(buffered).0 && pending == Split(buffered).1
  {
    hide Split;
    lines, pending := [], buffered;
    while NewlineAt(pending).Some?
      invariant Split(buffered).0 == lines + Split(pending).0 && Split(buffered).1 == Split(pending).1
      decreases |pending|
    {
      var index := NewlineAt(pending).value;
      var line, more := pending[..index], pending[index + 1..];
      assert pending == line + "\n" + more;
      SplitFirst(line, more);
      assert lines + ([line] + Split(more).0) == lines + [line] + Split(more).0;
      lines, pending := lines + [line], more;
    }
    SplitUnbroken(pending);
    assert lines + [] == lines;
  }

  /** How reading ends: at the end of the stream, or because of the limit, the deadline or the stop flag. */
  datatype Ending = Complete | TooLarge | TimedOut | Stopped

  /** What the stop flag and the clock say before each read. */
  datatype Interrupts = Interrupts(stopped: nat -> bool, late: nat -> bool)

  /** Nothing interrupts the first `n` reads. */
  ghost predicate Quiet(interrupts: Interrupts, n: nat) {
    forall j: nat :: j < n ==> !interrupts.stopped(j) && !interrupts.late(j)
  }

  /** After `k` chunks, read undisturbed and within the limit, the lines are those complete by then. */
  ghost predicate ReadUpTo(fed: seq<string>, maxBytes: nat, interrupts: Interrupts, lines: seq<string>, k: nat) {
    && k <= |fed| && Quiet(interrupts, k)
    && |Concat(fed[..k])| <= maxBytes
    && lines == Split(Concat(fed[..k])).0
  }

  /** The chunk, or the interruption, that ends the reading. */
  ghost predicate EndsAt(fed: seq<string>, maxBytes: nat, interrupts: Interrupts, k: nat, ending: Ending)
    requires k <= |fed|
  {
    match ending
    case Complete => k == |fed| && !interrupts.stopped(k) && !interrupts.late(k)
    case TooLarge => k < |fed| && !interrupts.stopped(k) && !interrupts.late(k) && |Concat(fed[..k + 1])| > maxBytes
    case TimedOut => !interrupts.stopped(k) && interrupts.late(k)
    case Stopped => interrupts.stopped(k)
  }

  /** What is yielded: whatever was complete, and at the end of the stream an unfinished line too. */
  ghost predicate Yields(fed: seq<string>, maxBytes: nat, interrupts: Interrupts, lines: seq<string>, ending: Ending) {
    exists k: nat, complete: seq<string> ::
      && ReadUpTo(fed, maxBytes, interrupts, complete, k) && EndsAt(fed, maxBytes, interrupts, k, ending)
      && lines == if ending == Complete then Lines(Concat(fed)) else complete
  }

  lemma ReadNothing(fed: seq<string>, maxBytes: nat, interrupts: Interrupts)
    ensures ReadUpTo(fed, maxBytes, interrupts, [], 0) && Concat(fed[..0]) == "" && Split("").1 == ""
  {
  }

  /** One more chunk, its complete lines taken off what was pending. */
  lemma ReadOn(fed: seq<string>, maxBytes: nat, interrupts: Interrupts, lines: seq<string>, pending: string, k: nat)
    requires ReadUpTo(fed, maxBytes, interrupts, lines, k) && pending == Split(Concat(fed[..k])).1 && k < |fed|
    ensures |Concat(fed[..k + 1])| == |Concat(fed[..k])| + |fed[k]|
    ensures Split(Concat(fed[..k + 1])).1 == Split(pending + fed[k]).1
    ensures !interrupts.stopped(k) && !interrupts.late(k) && |Concat(fed[..k + 1])| <= maxBytes ==>
              ReadUpTo(fed, maxBytes, interrupts, lines + Split(pending + fed[k]).0, k + 1)
  {
    ConcatSplits(fed, k);
    SplitResumes(Concat(fed[..k]), fed[k]);
    hide Split, Concat;
  }

  /** At the end of the stream an unfinished line is a line. */
  lemma ReadAllOf(fed: seq<string>, maxBytes: nat, interrupts: Interrupts, lines: seq<string>, pending: string)
    requires ReadUpTo(fed, maxBytes, interrupts, lines, |fed|) && pending == Split(Concat(fed[..|fed|])).1
    ensures Lines(Concat(fed)) == if pending != "" then lines + [pending] else lines
  {
    assert fed[..|fed|] == fed;
    hide Split, Concat;
  }

  /**
   `_iter_response_lines_bounded`: the lines yielded from a sequence of chunks. However the bytes are cut, the lines of
   a complete stream are those of the whole; otherwise the lines of the chunks before the end have been yielded.
   */
  method ReadLines(chunks: seq<string>, maxBytes: nat, interrupts: Interrupts) returns (lines: seq<string>, ending: Ending)
    ensures Yields(Fed(chunks), maxBytes, interrupts, lines, ending)
  {
    ghost var fed := Fed(chunks);
    FedPrefix(chunks);
    hide Split, Concat, Lines, Fed, Quiet;
    var pending, total := "", 0;
    lines := [];
    ReadNothing(fed, maxBytes, interrupts);
    for i := 0 to |chunks| + 1
      invariant i <= |fed|
      invariant total == |Concat(fed[..i])|
      invariant ReadUpTo(fed, maxBytes, interrupts, lines, i) && pending == Split(Concat(fed[..i])).1
    {
      if interrupts.stopped(i) {
        assert EndsAt(fed, maxBytes, interrupts, i, Stopped);
        return lines, Stopped;
      }
      if interrupts.late(i) {
        assert EndsAt(fed, maxBytes, interrupts, i, TimedOut);
        return lines, TimedOut;
      }
      var chunk := if i < |chunks| then chunks[i] else "";
      if chunk == "" {
        ReadAllOf(fed, maxBytes, interrupts, lines, pending);
        assert EndsAt(fed, maxBytes, interrupts, i, Complete);
        return if pending != "" then lines + [pending] else lines, Complete;
      }
      ReadOn(fed, maxBytes, interrupts, lines, pending, i);
      pending := pending + chunk;
      total := total + |chunk|;
      if total > maxBytes {
        assert EndsAt(fed, maxBytes, interrupts, i, TooLarge);
        return lines, TooLarge;
      }
      var taken, rest := TakeLines(pending);
      lines := lines + taken;
      pending := rest;
    }
    assert false;
  }

  lemma ConcatGrows(chunks: seq<string>, j: nat, k: nat)
    requires j <= k <= |chunks|
    ensures |Concat(chunks[..j])| <= |Concat(chunks[..k])|
  {
    if j < k {
      assert chunks[..k][..j] == chunks[..j];
      ConcatSplits(chunks[..k], j);
    }
  }

  /** A reading ends in one way: where it is first interrupted, too large or complete. */
  lemma OneEnding(fed: seq<string>, maxBytes: nat, interrupts: Interrupts, x: seq<string>, y: seq<string>, first: Ending, second: Ending)
    requires Yields(fed, maxBytes, interrupts, x, first) && Yields(fed, maxBytes, interrupts, y, second)
    ensures x == y && first == second
  {
    var j: nat, a: seq<string> :| ReadUpTo(fed, maxBytes, interrupts, a, j) && EndsAt(fed, maxBytes, interrupts, j, first)
                                  && x == if first == Complete then Lines(Concat(fed)) else a;
    var k: nat, b: seq<string> :| ReadUpTo(fed, maxBytes, interrupts, b, k) && EndsAt(fed, maxBytes, interrupts, k, second)
                                  && y == if second == Complete then Lines(Concat(fed)) else b;
    hide Split, Lines, Concat;
    EndsFirst(fed, maxBytes, interrupts, j, k, first, b);
    EndsFirst(fed, maxBytes, interrupts, k, j, second, a);
  }

  /** Reading does not get past where it ends. */
  lemma EndsFirst(fed: seq<string>, maxBytes: nat, interrupts: Interrupts, j: nat, k: nat, ending: Ending, lines: seq<string>)
    requires j <= |fed| && EndsAt(fed, maxBytes, interrupts, j, ending) && ReadUpTo(fed, maxBytes, interrupts, lines, k)
    ensures k <= j
  {
    if j < k {
      ConcatGrows(fed, j + 1, k);
    }
  }

  /** Undisturbed and within the limit, a stream is read to its end; nothing else is. */
  lemma CompleteExactly(fed: seq<string>, maxBytes: nat, interrupts: Interrupts, lines: seq<string>, ending: Ending)
    requires Yields(fed, maxBytes, interrupts, lines, ending)
    ensures ending == Complete <==> Quiet(interrupts, |fed| + 1) && |Concat(fed)| <= maxBytes
    ensures ending == Complete ==> lines == Lines(Concat(fed))
  {
    var k: nat, complete: seq<string> :| ReadUpTo(fed, maxBytes, interrupts, complete, k) && EndsAt(fed, maxBytes, interrupts, k, ending)
                                         && lines == if ending == Complete then Lines(Concat(fed)) else complete;
    assert fed[..|fed|] == fed;
    if ending == TooLarge {
      ConcatGrows(fed, k + 1, |fed|);
    }
    hide Split, Lines, Concat;
  }
}
