/**
 The server-sent-events parser, an independent account of what an event stream means, and the round
 trip from wire items through any chunking back to their events.
 */
module EventStream {
  import opened Prelude
  import opened StreamFraming

  // ---------------------------------------------------------------- the parser

  function WithoutCr(raw: string): string {
    if raw != "" && raw[|raw| - 1] == '\r' then raw[..|raw| - 1] else raw
  }

  /** `str.partition(":")`: the part before the first colon, whether there is one, and the part after it. */
  function Partition(line: string): (string, bool, string) {
    if line == "" then ("", false, "")
    else if line[0] == ':' then ("", true, line[1..])
    else
      var (field, found, value) := Partition(line[1..]);
      ([line[0]] + field, found, value)
  }

  function JoinLines(lines: seq<string>): string {
    if lines == [] then ""
    else if |lines| == 1 then lines[0]
    else JoinLines(lines[..|lines| - 1]) + "\n" + lines[|lines| - 1]
  }

  /** The events yielded so far and the data lines of the event being read. */
  datatype Parser = Parser(events: seq<string>, data: seq<string>)

  function Dispatch(p: Parser): Parser {
    if p.data == [] then p else Parser(p.events + [JoinLines(p.data)], [])
  }

  function ReadLine(p: Parser, raw: string): Parser {
    var line := WithoutCr(raw);
    if line == "" then Dispatch(p)
    else if line[0] == ':' then p
    else
      var (field, found, value) := Partition(line);
      if field != "data" then p
      else p.(data := p.data + [if found && value != "" && value[0] == ' ' then value[1..] else value])
  }

  function ReadAll(lines: seq<string>): Parser {
    if lines == [] then Parser([], []) else ReadLine(ReadAll(lines[..|lines| - 1]), lines[|lines| - 1])
  }

  /** The parser's output: an event still open at the end of the stream is yielded too. */
  function Events(lines: seq<string>): seq<string> {
    Dispatch(ReadAll(lines)).events
  }

  /** The loop of `_iter_sse_data`: the events yielded over some lines, and the data still waiting for its blank line. */
  method ParseLines(lines: seq<string>) returns (events: seq<string>, data: seq<string>)
    ensures Parser(events, data) == ReadAll(lines)
  {
    events, data := [], [];
    for i := 0 to |lines|
      invariant Parser(events, data) == ReadAll(lines[..i])
    {
      assert lines[..i + 1][..i] == lines[..i];
      var line := WithoutCr(lines[i]);
      if line == "" {
        if data != [] {
          events, data := events + [JoinLines(data)], [];
        }
        continue;
      }
      if line[0] == ':' {
        continue;
      }
      var (field, found, value) := Partition(line);
      if field == "data" {
        data := data + [if found && value != "" && value[0] == ' ' then value[1..] else value];
      }
    }
    assert lines[..|lines|] == lines;
  }

  /** `_iter_sse_data`: after the last line the waiting event is yielded too. */
  method ParseEvents(lines: seq<string>) returns (events: seq<string>)
    ensures events == Events(lines)
  {
    var data;
    events, data := ParseLines(lines);
    if data != [] {
      events := events + [JoinLines(data)];
    }
  }

  /** The events of a reading: one still waiting for its blank line is yielded unless the reading ends in an error. */
  ghost predicate YieldsEvents(fed: seq<string>, maxBytes: nat, interrupts: Interrupts, events: seq<string>, ending: Ending) {
    exists lines ::
      && Yields(fed, maxBytes, interrupts, lines, ending)
      && events == if ending in {Complete, Stopped} then Events(lines) else ReadAll(lines).events
  }

  /**
   The stream as the provider reads it: chunks in, events out. A limit or a deadline is raised inside the loop, so
   exactly the events completed before it have been yielded; the stop flag ends the lines silently, so an event still
   waiting for its blank line is yielded as it is.
   */
  method ReadEvents(chunks: seq<string>, maxBytes: nat, interrupts: Interrupts) returns (events: seq<string>, ending: Ending)
    ensures YieldsEvents(Fed(chunks), maxBytes, interrupts, events, ending)
  {
    var lines, data;
    lines, ending := ReadLines(chunks, maxBytes, interrupts);
    events, data := ParseLines(lines);
    if ending in {Complete, Stopped} && data != [] {
      events := events + [JoinLines(data)];
    }
  }

  /** Undisturbed and within the limit, the events are those of the whole stream. */
  lemma CompleteEvents(fed: seq<string>, maxBytes: nat, interrupts: Interrupts, events: seq<string>, ending: Ending)
    requires YieldsEvents(fed, maxBytes, interrupts, events, ending)
    ensures ending == Complete <==> Quiet(interrupts, |fed| + 1) && |Concat(fed)| <= maxBytes
    ensures ending == Complete ==> events == Events(Lines(Concat(fed)))
  {
    var lines :| && Yields(fed, maxBytes, interrupts, lines, ending)
                 && events == if ending in {Complete, Stopped} then Events(lines) else ReadAll(lines).events;
    CompleteExactly(fed, maxBytes, interrupts, lines, ending);
  }

  // ---------------------------------------------------------------- what a stream means

  /** One line on the wire: its content and how it is ended. */
  datatype Item =
    | Data(value: string, spaced: bool, crlf: bool)
    | BareData(crlf: bool)
    | Comment(text: string, crlf: bool)
    | Field(name: string, value: string, crlf: bool)
    | BareField(name: string, crlf: bool)
    | EndOfEvent(crlf: bool)

  function Content(item: Item): string {
    match item
    case Data(value, spaced, _) => "data" + ":" + if spaced then " " + value else value
    case BareData(_) => "data"
    case Comment(text, _) => ":" + text
    case Field(name, value, _) => name + ":" + value
    case BareField(name, _) => name
    case EndOfEvent(_) => ""
  }

  function Encode(items: seq<Item>): string {
    if items == [] then ""
    else
      var last := items[|items| - 1];
      Encode(items[..|items| - 1]) + (RawLine(last) + "\n")
  }

  /** The line as the splitter will cut it. */
  function RawLine(item: Item): string {
    if item.crlf then Content(item) + "\r" else Content(item)
  }

  predicate Plain(name: string) {
    name != "" && name != "data" && ':' !in name
  }

  /** What can be put on one line: no newline, no carriage return just before a bare newline, an honest space. */
  predicate WellFormed(item: Item) {
    && '\n' !in Content(item)
    && (!item.crlf && Content(item) != "" ==> Content(item)[|Content(item)| - 1] != '\r')
    && (item.Data? && !item.spaced && item.value != "" ==> item.value[0] != ' ')
    && (item.Field? || item.BareField? ==> Plain(item.name))
  }

  /** The meaning of a stream, item by item: data accumulates, a blank line dispatches, all else is ignored. */
  function Meaning(items: seq<Item>): Parser {
    if items == [] then Parser([], [])
    else
      var before := Meaning(items[..|items| - 1]);
      match items[|items| - 1]
      case Data(value, _, _) => before.(data := before.data + [value])
      case BareData(_) => before.(data := before.data + [""])
      case EndOfEvent(_) => Dispatch(before)
      case Comment(_, _) => before
      case Field(_, _, _) => before
      case BareField(_, _) => before
  }

  // ---------------------------------------------------------------- round trip

  lemma {:induction false} PartitionAtColon(name: string, value: string)
    requires ':' !in name
    ensures Partition(name + ":" + value) == (name, true, value)
    ensures Partition(name) == (name, false, "")
  {
    if name == "" {
      assert name + ":" + value == ":" + value;
    } else {
      PartitionAtColon(name[1..], value);
      assert (name + ":" + value)[1..] == name[1..] + ":" + value;
      assert name == [name[0]] + name[1..];
    }
  }

  /** The splitter's line, once its carriage return is gone, is the content that was written. */
  lemma CrRemoved(item: Item)
    requires WellFormed(item)
    ensures WithoutCr(RawLine(item)) == Content(item)
  {
  }

  lemma DataFieldRead(p: Parser, raw: string, value: string)
    requires WithoutCr(raw) == "data" + ":" + value
    ensures ReadLine(p, raw) == p.(data := p.data + [if value != "" && value[0] == ' ' then value[1..] else value])
  {
    assert ':' !in "data";
    PartitionAtColon("data", value);
    assert WithoutCr(raw)[0] == 'd';
    hide WithoutCr, Partition;
  }

  lemma DataLine(p: Parser, item: Item)
    requires WellFormed(item) && item.Data?
    ensures ReadLine(p, RawLine(item)) == p.(data := p.data + [item.value])
  {
    hide ReadLine, WithoutCr, RawLine;
    CrRemoved(item);
    DataFieldRead(p, RawLine(item), if item.spaced then " " + item.value else item.value);
    assert (" " + item.value)[1..] == item.value;
  }

  lemma OtherLine(p: Parser, item: Item)
    requires WellFormed(item) && !item.Data?
    ensures ReadLine(p, RawLine(item)) ==
            if item.EndOfEvent? then Dispatch(p)
            else if item.BareData? then p.(data := p.data + [""])
            else p
  {
    CrRemoved(item);
    if item.BareData? {
      PartitionAtColon("data", "");
    } else if item.Field? {
      PartitionAtColon(item.name, item.value);
    } else if item.BareField? {
      PartitionAtColon(item.name, "");
    }
    hide WithoutCr, RawLine, Partition;
  }

  function RawLines(items: seq<Item>): seq<string> {
    if items == [] then [] else RawLines(items[..|items| - 1]) + [RawLine(items[|items| - 1])]
  }

  lemma RawLineUnbroken(item: Item)
    requires WellFormed(item)
    ensures '\n' !in RawLine(item)
  {
  }

  lemma {:induction false} EncodedSplits(items: seq<Item>)
    requires forall item :: item in items ==> WellFormed(item)
    ensures Split(Encode(items)).0 == RawLines(items) && Split(Encode(items)).1 == ""
  {
    if items != [] {
      var front, last := items[..|items| - 1], items[|items| - 1];
      hide Split, RawLine, WellFormed;
      EncodedSplits(front);
      RawLineUnbroken(last);
      SplitAppendLine(Encode(front), RawLine(last));
    }
  }

  lemma {:induction false} ParsedMeans(items: seq<Item>)
    requires forall item :: item in items ==> WellFormed(item)
    ensures ReadAll(RawLines(items)) == Meaning(items)
  {
    if items != [] {
      var front, last := items[..|items| - 1], items[|items| - 1];
      ParsedMeans(front);
      assert RawLines(items)[..|RawLines(items)| - 1] == RawLines(front);
      if last.Data? {
        DataLine(Meaning(front), last);
      } else {
        OtherLine(Meaning(front), last);
      }
      hide ReadLine, RawLine, Content, WellFormed;
    }
  }

  /** However the bytes of well-formed items are cut into chunks, the reader yields exactly what the items mean. */
  lemma EncodedRoundTrip(items: seq<Item>, chunks: seq<string>)
    requires forall item :: item in items ==> WellFormed(item)
    requires Concat(Fed(chunks)) == Encode(items)
    ensures Events(Lines(Concat(Fed(chunks)))) == Dispatch(Meaning(items)).events
  {
    EncodedSplits(items);
    ParsedMeans(items);
  }

  /** Reading back from any chunking within the limit. */
  method ReadBack(items: seq<Item>, chunks: seq<string>, maxBytes: nat, interrupts: Interrupts) returns (events: seq<string>)
    requires forall item :: item in items ==> WellFormed(item)
    requires Concat(Fed(chunks)) == Encode(items) && |Encode(items)| <= maxBytes && Quiet(interrupts, |Fed(chunks)| + 1)
    ensures events == Dispatch(Meaning(items)).events
  {
    var ending;
    events, ending := ReadEvents(chunks, maxBytes, interrupts);
    CompleteEvents(Fed(chunks), maxBytes, interrupts, events, ending);
    EncodedRoundTrip(items, chunks);
  }

  // ---------------------------------------------------------------- whole events

  /** The usual writer: one spaced data line for each line of an event, and a blank line after each event. */
  function EventItems(lines: seq<string>): seq<Item> {
    seq(|lines|, i requires 0 <= i < |lines| => Data(lines[i], true, false))
  }

  function StreamItems(events: seq<seq<string>>): seq<Item> {
    if events == [] then []
    else StreamItems(events[..|events| - 1]) + EventItems(events[|events| - 1]) + [EndOfEvent(false)]
  }

  function Texts(events: seq<seq<string>>): seq<string> {
    seq(|events|, i requires 0 <= i < |events| => JoinLines(events[i]))
  }

  predicate Writable(line: string) {
    '\n' !in line && (line != "" ==> line[|line| - 1] != '\r')
  }

  lemma {:induction false} DataAccumulates(items: seq<Item>, lines: seq<string>)
    ensures Meaning(items + EventItems(lines)) == Meaning(items).(data := Meaning(items).data + lines)
  {
    if lines == [] {
      assert items + EventItems(lines) == items;
      assert Meaning(items).data + lines == Meaning(items).data;
    } else {
      var front, last := lines[..|lines| - 1], lines[|lines| - 1];
      DataAccumulates(items, front);
      assert EventItems(lines) == EventItems(front) + [Data(last, true, false)];
      var all := items + EventItems(lines);
      assert all[..|all| - 1] == items + EventItems(front);
      assert Meaning(items).data + front + [last] == Meaning(items).data + lines;
    }
  }

  /** One event's data lines and the blank line after them add that event. */
  lemma EventMeaning(items: seq<Item>, lines: seq<string>)
    requires Meaning(items).data == [] && |lines| > 0
    ensures Meaning(items + EventItems(lines) + [EndOfEvent(false)]) ==
            Parser(Meaning(items).events + [JoinLines(lines)], [])
  {
    hide EventItems, JoinLines;
    var body := items + EventItems(lines);
    assert Meaning(body) == Meaning(items).(data := lines) by {
      DataAccumulates(items, lines);
      assert [] + lines == lines;
    }
    var all := body + [EndOfEvent(false)];
    assert all[..|all| - 1] == body;
    assert Meaning(all) == Dispatch(Meaning(body));
  }

  lemma {:induction false} StreamMeaning(events: seq<seq<string>>)
    requires forall lines :: lines in events ==> |lines| > 0
    ensures Meaning(StreamItems(events)) == Parser(Texts(events), [])
  {
    assert Meaning([]) == Parser([], []);
    hide Meaning, EventItems, JoinLines;
    if events == [] {
      assert Texts(events) == [];
    } else {
      var front, last := events[..|events| - 1], events[|events| - 1];
      StreamMeaning(front);
      EventMeaning(StreamItems(front), last);
      assert Texts(events) == Texts(front) + [JoinLines(last)];
    }
  }

  lemma {:induction false} StreamWellFormed(events: seq<seq<string>>)
    requires forall lines, line :: lines in events && line in lines ==> Writable(line)
    ensures forall item :: item in StreamItems(events) ==> WellFormed(item)
  {
    if events != [] {
      var front, last := events[..|events| - 1], events[|events| - 1];
      StreamWellFormed(front);
      forall item | item in EventItems(last) ensures WellFormed(item) {
        assert item.value in last;
        DataWellFormed(item.value);
      }
    }
  }

  lemma DataWellFormed(value: string)
    requires Writable(value)
    ensures WellFormed(Data(value, true, false))
  {
  }

  lemma SpacedUnbroken(value: string)
    requires '\n' !in value
    ensures '\n' !in Content(Data(value, true, false)) && '\n' !in Content(Data(value, true, true))
  {
  }

  /**
   Round trip under any chunking: events whose lines hold no newline and do not end in a carriage
   return come back exactly, however their encoding is cut.
   */
  lemma EventsRoundTrip(events: seq<seq<string>>, chunks: seq<string>)
    requires forall lines :: lines in events ==> |lines| > 0
    requires forall lines, line :: lines in events && line in lines ==> Writable(line)
    requires Concat(Fed(chunks)) == Encode(StreamItems(events))
    ensures Events(Lines(Concat(Fed(chunks)))) == Texts(events)
  {
    StreamMeaning(events);
    StreamWellFormed(events);
    EncodedRoundTrip(StreamItems(events), chunks);
  }

  lemma OneEvent(line: string)
    ensures StreamItems([[line]]) == [Data(line, true, false), EndOfEvent(false)]
    ensures Texts([[line]]) == [line]
  {
  }

  lemma MeaningOfOne(value: string, crlf: bool)
    ensures Meaning([Data(value, true, crlf), EndOfEvent(false)]) == Parser([value], [])
  {
    var items := [Data(value, true, crlf), EndOfEvent(false)];
    assert items[..1] == [Data(value, true, crlf)];
    assert items[..1][..0] == [];
    assert Meaning(items[..1]) == Parser([], [value]) by {
      assert [] + [value] == [value];
    }
    assert [] + [value] == [value];
  }

  /** One data line and a blank one, well formed, read back as its value. */
  lemma OneItemReads(value: string, crlf: bool)
    requires '\n' !in value && (crlf || Writable(value))
    ensures Events(Lines(Encode([Data(value, true, crlf), EndOfEvent(false)]))) == [value]
  {
    var items := [Data(value, true, crlf), EndOfEvent(false)];
    SpacedUnbroken(value);
    assert forall item :: item in items ==> WellFormed(item);
    EncodedSplits(items);
    ParsedMeans(items);
    MeaningOfOne(value, crlf);
    hide Meaning, Encode, WellFormed, ReadAll, Split, RawLines;
  }

  /** A line written with a carriage return and a bare newline reads as the line without it. */
  lemma EatenCarriageReturn(line: string)
    requires '\n' !in line
    ensures Events(Lines(Encode(StreamItems([[line + "\r"]])))) == [line]
  {
    OneEvent(line + "\r");
    assert "data" + ":" + (" " + (line + "\r")) == "data" + ":" + (" " + line) + "\r";
    SameEncoding([Data(line + "\r", true, false), EndOfEvent(false)], [Data(line, true, true), EndOfEvent(false)]);
    OneItemReads(line, true);
    hide StreamItems, Encode, Events, Lines;
  }

  lemma SameEncoding(a: seq<Item>, b: seq<Item>)
    requires |a| == |b| == 2 && RawLine(a[0]) == RawLine(b[0]) && RawLine(a[1]) == RawLine(b[1])
    ensures Encode(a) == Encode(b)
  {
  }

  /** The last newline of a stream is optional. */
  lemma FinalNewlineOptional(bytes: string)
    requires bytes != "" && bytes[|bytes| - 1] != '\n'
    ensures Lines(bytes + "\n") == Lines(bytes)
  {
  }
}
