/**
 What the wire loses: reading never yields more text than was written, and yields less as soon as one line holds a
 newline or ends in a carriage return. So the exact condition under which a list of events survives.
 */
module EventLosses {
  import opened Prelude
  import opened StreamFraming
  import opened EventStream

  /** The parser resumed on further lines. */
  function ReadMore(p: Parser, lines: seq<string>): Parser {
    if lines == [] then p else ReadLine(ReadMore(p, lines[..|lines| - 1]), lines[|lines| - 1])
  }

  /** The parser resumed on the bytes of further items. */
  function Wire(p: Parser, items: seq<Item>): Parser {
    ReadMore(p, Split(Encode(items)).0)
  }

  function Size(texts: seq<string>): nat {
    if texts == [] then 0 else Size(texts[..|texts| - 1]) + |texts[|texts| - 1]|
  }

  /** The text a parser holds: the events it has yielded and the one it is reading. */
  function Held(p: Parser): nat {
    Size(p.events) + |JoinLines(p.data)|
  }

  // ---------------------------------------------------------------- resuming

  lemma {:induction false} ReadMoreJoins(p: Parser, first: seq<string>, second: seq<string>)
    ensures ReadMore(p, first + second) == ReadMore(ReadMore(p, first), second)
  {
    if second == [] {
      assert first + second == first;
    } else {
      ReadMoreJoins(p, first, second[..|second| - 1]);
      assert (first + second)[..|first + second| - 1] == first + second[..|second| - 1];
    }
  }

  lemma {:induction false} ReadAllResumes(lines: seq<string>)
    ensures ReadAll(lines) == ReadMore(Parser([], []), lines)
  {
    if lines != [] {
      ReadAllResumes(lines[..|lines| - 1]);
    }
  }

  lemma {:induction false} EncodeEnds(items: seq<Item>)
    ensures Split(Encode(items)).1 == ""
  {
    if items != [] {
      var front := Encode(items[..|items| - 1]) + RawLine(items[|items| - 1]);
      assert Encode(items) == front + "\n";
      assert Encode(items)[..|Encode(items)| - 1] == front;
    }
  }

  lemma {:induction false} EncodeJoins(first: seq<Item>, second: seq<Item>)
    ensures Encode(first + second) == Encode(first) + Encode(second)
  {
    hide RawLine;
    if second == [] {
      assert first + second == first && Encode(first) + "" == Encode(first);
    } else {
      var front, end := second[..|second| - 1], RawLine(second[|second| - 1]) + "\n";
      EncodeJoins(first, front);
      assert (first + second)[..|first + second| - 1] == first + front;
      assert (Encode(first) + Encode(front)) + end == Encode(first) + (Encode(front) + end);
    }
  }

  lemma WireJoins(p: Parser, first: seq<Item>, second: seq<Item>)
    ensures Wire(p, first + second) == Wire(Wire(p, first), second)
  {
    hide Encode, Split, ReadMore;
    EncodeJoins(first, second);
    EncodeEnds(first);
    SplitResumes(Encode(first), Encode(second));
    assert "" + Encode(second) == Encode(second);
    ReadMoreJoins(p, Split(Encode(first)).0, Split(Encode(second)).0);
  }

  lemma WireOne(p: Parser, item: Item)
    ensures Wire(p, [item]) == ReadMore(p, Split(RawLine(item) + "\n").0)
  {
    assert [item][..0] == [];
    assert Encode([item]) == "" + (RawLine(item) + "\n") == RawLine(item) + "\n";
  }

  // ---------------------------------------------------------------- text held, line by line

  lemma JoinGrows(lines: seq<string>, last: string)
    ensures |JoinLines(lines + [last])| == |JoinLines(lines)| + |last| + if lines == [] then 0 else 1
  {
    assert (lines + [last])[..|lines|] == lines;
  }

  lemma {:induction false} PartitionKeepsLength(line: string)
    ensures var (field, found, value) := Partition(line); |field| + |value| + (if found then 1 else 0) == |line|
  {
    if line != "" && line[0] != ':' {
      PartitionKeepsLength(line[1..]);
    }
  }

  lemma DispatchHolds(p: Parser)
    ensures Held(Dispatch(p)) == Held(p) && Dispatch(p).data == []
  {
    assert (p.events + [JoinLines(p.data)])[..|p.events|] == p.events;
  }

  /** No line adds more text than it has. */
  lemma LineHolds(p: Parser, raw: string)
    ensures Held(ReadLine(p, raw)) <= Held(p) + |raw|
  {
    var line := WithoutCr(raw);
    DispatchHolds(p);
    if line != "" && line[0] != ':' {
      var (field, found, value) := Partition(line);
      PartitionKeepsLength(line);
      assert |"data"| == 4;
      JoinGrows(p.data, if found && value != "" && value[0] == ' ' then value[1..] else value);
    }
    hide Size, JoinLines, Partition, Dispatch;
  }

  /** Neither does any text, however many lines it is cut into. */
  lemma {:induction false} TextHolds(p: Parser, text: string)
    ensures Split(text + "\n").1 == "" && Held(ReadMore(p, Split(text + "\n").0)) <= Held(p) + |text|
    decreases |text|
  {
    hide Split, Held, ReadLine;
    assert "" + "\n" == "\n";
    if NewlineAt(text).Some? {
      var at := NewlineAt(text).value;
      var line, more := text[..at], text[at + 1..];
      assert text + "\n" == line + "\n" + (more + "\n");
      SplitFirst(line, more + "\n");
      ReadMoreJoins(p, [line], Split(more + "\n").0);
      OneLine(p, line);
      LineHolds(p, line);
      TextHolds(ReadLine(p, line), more);
    } else {
      assert text + "\n" == text + "\n" + "";
      SplitFirst(text, "");
      SplitUnbroken("");
      assert [text] + [] == [text];
      OneLine(p, text);
      LineHolds(p, text);
    }
  }

  lemma OneLine(p: Parser, line: string)
    ensures ReadMore(p, [line]) == ReadLine(p, line)
  {
    assert [line][..0] == [];
  }

  // ---------------------------------------------------------------- text held, data line by data line

  function Written(line: string): Item {
    Data(line, true, false)
  }

  lemma DataLineHolds(p: Parser, line: string)
    ensures Held(ReadLine(p, RawLine(Written(line)))) == Held(p) + |WithoutCr(line)| + if p.data == [] then 0 else 1
  {
    var raw := RawLine(Written(line));
    assert raw == "data" + ":" + (" " + line);
    assert WithoutCr(raw) == "data" + ":" + (" " + WithoutCr(line));
    DataFieldRead(p, raw, " " + WithoutCr(line));
    assert (" " + WithoutCr(line))[1..] == WithoutCr(line);
    JoinGrows(p.data, WithoutCr(line));
    hide ReadLine, RawLine, JoinLines, Size;
  }

  /** A line with a newline: its first part is data, the rest is read as lines of its own. */
  lemma BrokenLineHolds(p: Parser, front: string, more: string)
    requires '\n' !in front
    ensures Held(ReadMore(p, Split(RawLine(Written(front + "\n" + more)) + "\n").0))
         <= Held(p) + |front| + |more| + if p.data == [] then 0 else 1
  {
    var raw := RawLine(Written(front));
    assert RawLine(Written(front + "\n" + more)) + "\n" == raw + "\n" + (more + "\n");
    SpacedUnbroken(front);
    hide Split, ReadMore, ReadLine, RawLine, Held;
    SplitFirst(raw, more + "\n");
    ReadMoreJoins(p, [raw], Split(more + "\n").0);
    OneLine(p, raw);
    DataLineHolds(p, front);
    TextHolds(ReadLine(p, raw), more);
  }

  lemma WholeLineHolds(p: Parser, line: string)
    requires '\n' !in line
    ensures Held(ReadMore(p, Split(RawLine(Written(line)) + "\n").0)) == Held(p) + |WithoutCr(line)| + if p.data == [] then 0 else 1
  {
    var raw := RawLine(Written(line));
    SpacedUnbroken(line);
    hide Split, ReadMore, ReadLine, RawLine, Held;
    assert raw + "\n" == raw + "\n" + "";
    SplitFirst(raw, "");
    SplitUnbroken("");
    assert [raw] + [] == [raw];
    OneLine(p, raw);
    DataLineHolds(p, line);
  }

  /** A data line adds its own text and, behind another, a newline; less if it is not writable. */
  lemma DataHolds(p: Parser, line: string)
    ensures var q := ReadMore(p, Split(RawLine(Written(line)) + "\n").0);
            var room := Held(p) + |line| + if p.data == [] then 0 else 1;
            Held(q) <= room && (!Writable(line) ==> Held(q) < room)
  {
    hide Split, ReadMore, RawLine, Held;
    if NewlineAt(line).Some? {
      var at := NewlineAt(line).value;
      assert line == line[..at] + "\n" + line[at + 1..];
      BrokenLineHolds(p, line[..at], line[at + 1..]);
    } else {
      WholeLineHolds(p, line);
    }
  }

  predicate AllWritable(lines: seq<string>) {
    forall i :: 0 <= i < |lines| ==> Writable(lines[i])
  }

  lemma {:induction false} LinesHold(p: Parser, lines: seq<string>)
    requires p.data == []
    ensures Held(Wire(p, EventItems(lines))) <= Held(p) + |JoinLines(lines)|
    ensures !AllWritable(lines) ==> Held(Wire(p, EventItems(lines))) < Held(p) + |JoinLines(lines)|
    ensures lines == [] ==> Wire(p, EventItems(lines)) == p
  {
    hide Split, ReadMore, RawLine, Held, Writable;
    if lines == [] {
      assert EventItems(lines) == [];
      NothingWired(p);
    } else {
      var front, last := lines[..|lines| - 1], lines[|lines| - 1];
      LinesHold(p, front);
      assert EventItems(lines) == EventItems(front) + [Written(last)];
      WireJoins(p, EventItems(front), [Written(last)]);
      WireOne(Wire(p, EventItems(front)), Written(last));
      DataHolds(Wire(p, EventItems(front)), last);
      assert lines == front + [last];
      JoinGrows(front, last);
    }
  }

  lemma NothingWired(p: Parser)
    ensures Wire(p, []) == p
  {
  }

  // ---------------------------------------------------------------- whole streams

  predicate Lossless(events: seq<seq<string>>) {
    forall i :: 0 <= i < |events| ==> AllWritable(events[i])
  }

  /** An event on the wire: its data lines, then the blank line that dispatches. */
  lemma EventHolds(p: Parser, lines: seq<string>)
    requires p.data == []
    ensures var q := Wire(p, EventItems(lines) + [EndOfEvent(false)]);
            && q.data == [] && Held(q) <= Held(p) + |JoinLines(lines)|
            && (!AllWritable(lines) ==> Held(q) < Held(p) + |JoinLines(lines)|)
  {
    hide Wire, Held, EventItems, AllWritable, JoinLines;
    var q := Wire(p, EventItems(lines));
    LinesHold(p, lines);
    WireJoins(p, EventItems(lines), [EndOfEvent(false)]);
    BlankDispatches(q);
    DispatchHolds(q);
  }

  lemma BlankDispatches(p: Parser)
    ensures Wire(p, [EndOfEvent(false)]) == Dispatch(p)
  {
    WireOne(p, EndOfEvent(false));
    assert RawLine(EndOfEvent(false)) == "" && "" + "\n" == "" + "\n" + "";
    hide Wire, Split, RawLine;
    SplitFirst("", "");
    SplitUnbroken("");
    assert [""] + [] == [""];
    OneLine(p, "");
  }

  lemma NothingHeld()
    ensures Held(Parser([], [])) == 0
  {
  }

  /** Reading a written stream never yields more text than its events have, and less if a line is not writable. */
  lemma {:induction false} StreamHolds(events: seq<seq<string>>)
    ensures var q := Wire(Parser([], []), StreamItems(events));
            q.data == [] && Held(q) <= Size(Texts(events)) && (!Lossless(events) ==> Held(q) < Size(Texts(events)))
  {
    hide Wire, Held, JoinLines, AllWritable, EventItems;
    var start := Parser([], []);
    if events == [] {
      NothingWired(start);
      NothingHeld();
    } else {
      var front, last := events[..|events| - 1], events[|events| - 1];
      StreamHolds(front);
      EventHolds(Wire(start, StreamItems(front)), last);
      assert StreamItems(events) == StreamItems(front) + (EventItems(last) + [EndOfEvent(false)]);
      WireJoins(start, StreamItems(front), EventItems(last) + [EndOfEvent(false)]);
      SizeGrows(events);
      assert Lossless(front) && AllWritable(last) ==> Lossless(events);
    }
  }

  lemma SizeGrows(events: seq<seq<string>>)
    requires events != []
    ensures Size(Texts(events)) == Size(Texts(events[..|events| - 1])) + |JoinLines(events[|events| - 1])|
  {
    var n := |events| - 1;
    assert Texts(events) == Texts(events[..n]) + [JoinLines(events[n])];
    assert Texts(events)[..n] == Texts(events[..n]);
    hide JoinLines;
  }

  predicate NoneEmpty(events: seq<seq<string>>) {
    forall i :: 0 <= i < |events| ==> events[i] != []
  }

  /** An event without lines leaves nothing on the wire to read it by. */
  lemma {:induction false} EmptyEventsAreLost(events: seq<seq<string>>)
    ensures Meaning(StreamItems(events)).data == [] && |Meaning(StreamItems(events)).events| <= |events|
    ensures !NoneEmpty(events) ==> |Meaning(StreamItems(events)).events| < |events|
  {
    hide Meaning, StreamItems, EventItems;
    if events == [] {
      NoMeaning();
    } else {
      var front, last := events[..|events| - 1], events[|events| - 1];
      EmptyEventsAreLost(front);
      LastEvent(events);
      assert NoneEmpty(front) && last != [] ==> NoneEmpty(events);
      if last == [] {
        EmptyEventMeaning(StreamItems(front));
      } else {
        EventMeaning(StreamItems(front), last);
      }
    }
  }

  lemma NoMeaning()
    ensures Meaning(StreamItems([])) == Parser([], [])
  {
  }

  lemma LastEvent(events: seq<seq<string>>)
    requires events != []
    ensures StreamItems(events)
         == StreamItems(events[..|events| - 1]) + EventItems(events[|events| - 1]) + [EndOfEvent(false)]
  {
  }

  lemma EmptyEventMeaning(items: seq<Item>)
    requires Meaning(items).data == []
    ensures Meaning(items + EventItems([]) + [EndOfEvent(false)]) == Meaning(items)
  {
    assert items + EventItems([]) + [EndOfEvent(false)] == items + [EndOfEvent(false)];
    assert (items + [EndOfEvent(false)])[..|items|] == items;
  }

  /** The reader's output on a whole written stream. */
  lemma ReadsAsWired(events: seq<seq<string>>)
    ensures Events(Lines(Encode(StreamItems(events)))) == Wire(Parser([], []), StreamItems(events)).events
  {
    EncodeEnds(StreamItems(events));
    ReadAllResumes(Split(Encode(StreamItems(events))).0);
    StreamHolds(events);
    hide ReadMore, ReadAll, Encode, StreamItems, Split, Held;
  }

  /**
   The exact condition, for any list of events and any chunking: they are read back as written exactly when every
   event has a line and no line holds a newline or ends in a carriage return.
   */
  lemma RoundTripExactly(events: seq<seq<string>>, chunks: seq<string>)
    requires Concat(Fed(chunks)) == Encode(StreamItems(events))
    ensures Events(Lines(Concat(Fed(chunks)))) == Texts(events) <==> NoneEmpty(events) && Lossless(events)
  {
    ReadsAsWired(events);
    StreamHolds(events);
    NothingPending(Wire(Parser([], []), StreamItems(events)));
    hide Events, Lines, Encode, StreamItems, Wire, Split, Writable, Size, Held;
    if Lossless(events) {
      assert forall lines, line :: lines in events && line in lines ==> Writable(line);
      if NoneEmpty(events) {
        EventsRoundTrip(events, chunks);
      } else {
        EmptyEventsAreLost(events);
        AllWritableRead(events, chunks);
      }
    }
  }

  lemma NothingPending(p: Parser)
    requires p.data == []
    ensures Held(p) == Size(p.events)
  {
  }

  lemma AllWritableRead(events: seq<seq<string>>, chunks: seq<string>)
    requires forall lines, line :: lines in events && line in lines ==> Writable(line)
    requires Concat(Fed(chunks)) == Encode(StreamItems(events))
    ensures Events(Lines(Concat(Fed(chunks)))) == Meaning(StreamItems(events)).events
  {
    StreamWellFormed(events);
    EncodedRoundTrip(StreamItems(events), chunks);
    EmptyEventsAreLost(events);
    hide Meaning;
  }
}
