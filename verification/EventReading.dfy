/**
 What the reader makes of any byte stream at all: every line is one of the wire items, and the lines joined in an event
 can be told apart again.
 */
module EventReading {
  import opened Prelude
  import opened StreamFraming
  import opened EventStream

  /** Joined lines split back at their newlines. */
  lemma {:induction false} JoinedSplit(lines: seq<string>)
    requires lines != [] && forall line :: line in lines ==> '\n' !in line
    ensures Split(JoinLines(lines) + "\n").0 == lines && Split(JoinLines(lines) + "\n").1 == ""
  {
    hide Split;
    var front, last := lines[..|lines| - 1], lines[|lines| - 1];
    if front == [] {
      SplitFirst(last, "");
      SplitUnbroken("");
      assert last + "\n" + "" == last + "\n" && [last] + [] == lines;
    } else {
      JoinedSplit(front);
      SplitAppendLine(JoinLines(front) + "\n", last);
      assert JoinLines(lines) + "\n" == (JoinLines(front) + "\n") + (last + "\n");
      assert front + [last] == lines;
    }
  }

  function ColonAt(line: string): (at: Option<nat>)
    ensures at.None? <==> ':' !in line
    ensures at.Some? ==> at.value < |line| && line[at.value] == ':' && ':' !in line[..at.value]
  {
    if line == "" then None
    else if line[0] == ':' then Some(0)
    else
      assert line == [line[0]] + line[1..];
      match ColonAt(line[1..])
      case None => None
      case Some(i) =>
        assert line[..i + 1] == [line[0]] + line[1..][..i];
        Some(i + 1)
  }

  /** The item with this content. */
  function ItemOf(content: string, crlf: bool): Item {
    var at := ColonAt(content);
    if content == "" then EndOfEvent(crlf)
    else if at == Some(0) then Comment(content[1..], crlf)
    else if at.None? then if content == "data" then BareData(crlf) else BareField(content, crlf)
    else
      var name, value := content[..at.value], content[at.value + 1..];
      if name != "data" then Field(name, value, crlf)
      else if value != "" && value[0] == ' ' then Data(value[1..], true, crlf)
      else Data(value, false, crlf)
  }

  lemma ContentOfItem(content: string, crlf: bool)
    ensures Content(ItemOf(content, crlf)) == content && ItemOf(content, crlf).crlf == crlf
  {
    var at := ColonAt(content);
    if at.Some? {
      var name, value := content[..at.value], content[at.value + 1..];
      assert content == name + ":" + value;
      if value != "" && value[0] == ' ' {
        assert " " + value[1..] == value;
      }
    }
  }

  /** Its name is no data field's, and a space after the colon is an honest one. */
  lemma ItemIsHonest(content: string, crlf: bool)
    ensures var item := ItemOf(content, crlf);
            && (item.Field? || item.BareField? ==> Plain(item.name))
            && (item.Data? && !item.spaced && item.value != "" ==> item.value[0] != ' ')
  {
    var at := ColonAt(content);
    if at.Some? && at.value > 0 {
      assert content[..at.value][0] == content[0];
    }
    hide ColonAt;
  }

  lemma ItemIsWellFormed(content: string, crlf: bool)
    requires '\n' !in content && (crlf || content == "" || content[|content| - 1] != '\r')
    ensures WellFormed(ItemOf(content, crlf))
  {
    ContentOfItem(content, crlf);
    ItemIsHonest(content, crlf);
    hide ItemOf, Content, Plain;
  }

  /** A line as the splitter cuts it: a carriage return at its end is part of how it is ended. */
  function LineItem(raw: string): Item {
    if raw != "" && raw[|raw| - 1] == '\r' then ItemOf(raw[..|raw| - 1], true) else ItemOf(raw, false)
  }

  lemma LineIsItem(raw: string)
    requires '\n' !in raw
    ensures WellFormed(LineItem(raw)) && RawLine(LineItem(raw)) == raw
  {
    hide ItemOf, WellFormed, Content;
    if raw != "" && raw[|raw| - 1] == '\r' {
      ItemIsWellFormed(raw[..|raw| - 1], true);
      ContentOfItem(raw[..|raw| - 1], true);
      assert raw == raw[..|raw| - 1] + "\r";
    } else {
      ItemIsWellFormed(raw, false);
      ContentOfItem(raw, false);
    }
  }

  function LineItems(lines: seq<string>): seq<Item> {
    if lines == [] then [] else LineItems(lines[..|lines| - 1]) + [LineItem(lines[|lines| - 1])]
  }

  lemma {:induction false} LinesAreItems(lines: seq<string>)
    requires forall line :: line in lines ==> '\n' !in line
    ensures forall item :: item in LineItems(lines) ==> WellFormed(item)
    ensures RawLines(LineItems(lines)) == lines
  {
    hide LineItem, RawLine, WellFormed;
    if lines != [] {
      var front, last := lines[..|lines| - 1], lines[|lines| - 1];
      LinesAreItems(front);
      LineIsItem(last);
      OneMoreLine(LineItems(front), LineItem(last));
    }
  }

  lemma OneMoreLine(items: seq<Item>, item: Item)
    ensures RawLines(items + [item]) == RawLines(items) + [RawLine(item)]
  {
    assert (items + [item])[..|items|] == items;
  }

  lemma LinesUnbroken(bytes: string)
    ensures forall line :: line in Lines(bytes) ==> '\n' !in line
  {
    SplitRest(bytes);
    hide Split;
  }

  /** Whatever the bytes, their lines are well-formed items, and the events read are what those items mean. */
  lemma EveryStreamMeans(bytes: string)
    ensures exists items ::
              && (forall item :: item in items ==> WellFormed(item)) && RawLines(items) == Lines(bytes)
              && Events(Lines(bytes)) == Dispatch(Meaning(items)).events
  {
    var items := LineItems(Lines(bytes));
    LinesUnbroken(bytes);
    LinesAreItems(Lines(bytes));
    ParsedMeans(items);
  }
}
