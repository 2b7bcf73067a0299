/** What is written with WriteEvent and WriteComment is read back by the standard's reader. */
module SseTheorems {
  import opened Prelude
  import opened Splitting
  import opened SseStream
  import opened SseEvent

  datatype Item = Sent(event: Event) | Remark(comment: string)

  predicate Writable(items: seq<Item>) {
    forall i :: 0 <= i < |items| && items[i].Sent? ==> ValidEvent(items[i].event)
  }

  function LinesOfItem(item: Item): seq<string> {
    match item
    case Sent(e) => EventLines(e)
    case Remark(comment) => CommentLines(comment)
  }

  /** The bytes on the wire: the results of WriteEvent and WriteComment one after the other. */
  function Stream(items: seq<Item>): string {
    if items == [] then "" else Terminated(LinesOfItem(items[0])) + Stream(items[1..])
  }

  function IdAfter(id: string, e: Event): string {
    if e.id != "" then e.id else id
  }

  /** Whole milliseconds, at least one. */
  function ReconnectionAfter(time: Option<nat>, e: Event): Option<nat> {
    if e.retry > 0 then Some(if e.retry < 1_000_000 then 1 else e.retry / 1_000_000) else time
  }

  /** What a client should see, with the last id and reconnection time it already has. */
  function Expected(id: string, time: Option<nat>, items: seq<Item>): seq<Message>
    decreases |items|
  {
    if items == [] then []
    else match items[0]
      case Remark(_) => Expected(id, time, items[1..])
      case Sent(e) =>
        [Message(if e.name == "" then "message"
            else e.name, LineEnds(e.data), IdAfter(id, e), ReconnectionAfter(time, e))] +
        Expected(IdAfter(id, e), ReconnectionAfter(time, e), items[1..])
  }

  // ----- numbers -----

  lemma {:induction false} DecimalReads(n: nat)
    ensures AllDigits(Decimal(n)) && DecimalValue(Decimal(n)) == n
  {
    var s := Decimal(n);
    if n < 10 {
      assert s[..|s| - 1] == "" && Digit(s[0]) == n;
    } else {
      DecimalReads(n / 10);
      assert s[..|s| - 1] == Decimal(n / 10) && Digit(s[|s| - 1]) == n % 10;
    }
  }

  // ----- line ends -----

  lemma {:induction false} ReplacedIsLineEnds(s: string)
    ensures ReplaceCr(ReplaceCrLf(s)) == LineEnds(s)
    decreases |s|
  {
    if s == "" {
    } else if |s| >= 2 && s[0] == '\r' && s[1] == '\n' {
      ReplacedIsLineEnds(s[2..]);
      assert ("\n" + ReplaceCrLf(s[2..]))[1..] == ReplaceCrLf(s[2..]);
    } else {
      ReplacedIsLineEnds(s[1..]);
      assert ([s[0]] + ReplaceCrLf(s[1..]))[1..] == ReplaceCrLf(s[1..]);
    }
  }

  lemma {:induction false} LineEndsFree(s: string)
    ensures Free(LineEnds(s), '\r')
    decreases |s|
  {
    if s != "" {
      LineEndsFree(s[1..]);
      if |s| > 1 {
        LineEndsFree(s[2..]);
      }
    }
  }

  /** Data comes through unchanged exactly when it has no CR. */
  lemma {:induction false} DataIntactIff(s: string)
    ensures LineEnds(s) == s <==> Free(s, '\r')
    decreases |s|
  {
    if s != "" {
      if s[0] != '\r' {
        DataIntactIff(s[1..]);
        assert s == [s[0]] + s[1..];
        assert LineEnds(s)[1..] == LineEnds(s[1..]);
      } else {
        assert LineEnds(s)[0] == '\n';
      }
    }
  }

  lemma {:induction false} PartsFree(s: string, sep: char, c: char)
    requires Free(s, c)
    ensures forall i :: 0 <= i < |SplitAt(s, sep)| ==> Free(SplitAt(s, sep)[i], c)
  {
    if s != "" {
      PartsFree(s[1..], sep, c);
    }
  }

  lemma {:induction false} TerminatedIsJoin(lines: seq<string>)
    requires lines != []
    ensures Terminated(lines) == JoinWith(lines, '\n') + "\n"
    decreases |lines|
  {
    if |lines| == 1 {
      assert lines[1..] == [];
      assert lines[0] + "\n" + "" == lines[0] + "\n";
    } else {
      TerminatedIsJoin(lines[1..]);
      assert lines[0] + "\n" + (JoinWith(lines[1..], '\n') + "\n") ==
          lines[0] + ['\n'] + JoinWith(lines[1..], '\n') + "\n";
    }
  }

  /** The lines of a value, without CR and LF, which put back together give the value again. */
  lemma ValueLines(value: string)
    ensures AllOneLine(SplitAt(ReplaceCr(ReplaceCrLf(value)), '\n'))
    ensures Terminated(SplitAt(ReplaceCr(ReplaceCrLf(value)), '\n')) == LineEnds(value) + "\n"
  {
    ReplacedIsLineEnds(value);
    LineEndsFree(value);
    SplitFree(LineEnds(value), '\n');
    PartsFree(LineEnds(value), '\n', '\r');
    JoinSplit(LineEnds(value), '\n');
    TerminatedIsJoin(SplitAt(LineEnds(value), '\n'));
  }

  // ----- single lines -----

  lemma {:induction false} ColonAfter(field: string, rest: string)
    requires Free(field, ':')
    ensures Colon(field + ":" + rest) == |field|
  {
    var line := field + ":" + rest;
    if field != "" {
      assert line[1..] == field[1..] + ":" + rest;
      ColonAfter(field[1..], rest);
    }
  }

  lemma FieldReads(r: Reader, field: string, value: string)
    requires field != "" && Free(field, ':')
    ensures ProcessLine(r, field + ": " + value) == ProcessField(r, field, value)
  {
    var line := field + ": " + value;
    assert line == field + ":" + (" " + value);
    ColonAfter(field, " " + value);
    assert line[0] == field[0];
    assert line[..|field|] == field;
    assert line[|field| + 1..] == " " + value && (" " + value)[1..] == value;
  }

  lemma DataLineReads(r: Reader, line: string)
    ensures ProcessLine(r, FieldLine("data", line)) == r.(data := r.data + (line + "\n"))
  {
    FieldReads(r, "data", line);
    assert FieldLine("data", line) == "data" + ": " + line;
    assert r.data + line + "\n" == r.data + (line + "\n");
  }

  lemma {:induction false} DataReads(r: Reader, lines: seq<string>)
    ensures ProcessLines(r, FieldLines("data", lines)) == r.(data := r.data + Terminated(lines))
    decreases |lines|
  {
    if lines == [] {
      assert r.data + "" == r.data;
    } else {
      DataLineReads(r, lines[0]);
      assert FieldLines("data", lines)[1..] == FieldLines("data", lines[1..]);
      DataReads(r.(data := r.data + (lines[0] + "\n")), lines[1..]);
      Regroup(r.data, lines[0] + "\n", Terminated(lines[1..]));
    }
  }

  lemma {:induction false} CommentReads(r: Reader, lines: seq<string>)
    ensures ProcessLines(r, FieldLines(":", lines)) == r
    decreases |lines|
  {
    if lines != [] {
      assert FieldLine(":", lines[0])[0] == ':';
      assert FieldLines(":", lines)[1..] == FieldLines(":", lines[1..]);
      CommentReads(r, lines[1..]);
    }
  }

  lemma {:induction false} FieldLinesOneLine(field: string, lines: seq<string>)
    requires OneLine(field) && AllOneLine(lines)
    ensures AllOneLine(FieldLines(field, lines))
    decreases |lines|
  {
    if lines != [] {
      assert OneLine(": ");
      assert OneLine(FieldLine(field, lines[0]));
      FieldLinesOneLine(field, lines[1..]);
    }
  }

  // ----- one item -----

  /** A reader between two items: nothing is buffered. */
  predicate Between(r: Reader) {
    r.data == "" && r.kind == ""
  }

  function HeadRead(r: Reader, e: Event): Reader {
    r.(kind := e.name, lastId := IdAfter(r.lastId, e), reconnection := ReconnectionAfter(r.reconnection, e))
  }

  lemma OptionalLine(r: Reader, lines: seq<string>, line: string)
    ensures ProcessLines(r, lines + [line]) == ProcessLine(ProcessLines(r, lines), line)
  {
    ProcessAppend(r, lines, [line]);
    var one := [line];
    assert one[0] == line && one[1..] == [];
  }

  lemma IdReads(r: Reader, e: Event)
    requires ValidEvent(e)
    ensures ProcessLines(r, if e.id != "" then ["id: " + e.id] else []) == r.(lastId := IdAfter(r.lastId, e))
  {
    if e.id != "" {
      FieldReads(r, "id", e.id);
      assert "id" + ": " + e.id == "id: " + e.id;
      OptionalLine(r, [], "id: " + e.id);
      assert [] + ["id: " + e.id] == ["id: " + e.id];
    }
  }

  lemma NameReads(r: Reader, lines: seq<string>, e: Event)
    requires ProcessLines(r, lines).kind == ""
    ensures ProcessLines(r, lines + if e.name != "" then ["event: " + e.name] else [])
         == ProcessLines(r, lines).(kind := e.name)
  {
    if e.name != "" {
      FieldReads(ProcessLines(r, lines), "event", e.name);
      assert "event" + ": " + e.name == "event: " + e.name;
      OptionalLine(r, lines, "event: " + e.name);
    } else {
      assert lines + [] == lines;
    }
  }

  lemma RetryReads(r: Reader, lines: seq<string>, e: Event)
    ensures ProcessLines(r, lines + if e.retry > 0 then ["retry: " + Decimal(RetryMs(e))] else [])
         == ProcessLines(r, lines).(reconnection := ReconnectionAfter(ProcessLines(r, lines).reconnection, e))
  {
    if e.retry > 0 {
      var value := Decimal(RetryMs(e));
      DecimalReads(RetryMs(e));
      FieldReads(ProcessLines(r, lines), "retry", value);
      assert "retry" + ": " + value == "retry: " + value;
      OptionalLine(r, lines, "retry: " + value);
    } else {
      assert lines + [] == lines;
    }
  }

  lemma HeadReads(r: Reader, e: Event)
    requires Between(r) && ValidEvent(e)
    ensures ProcessLines(r, Head(e)) == HeadRead(r, e)
  {
    var ids: seq<string> := if e.id != "" then ["id: " + e.id] else [];
    IdReads(r, e);
    NameReads(r, ids, e);
    RetryReads(r, ids + if e.name != "" then ["event: " + e.name] else [], e);
  }

  lemma EventReads(r: Reader, e: Event)
    requires Between(r) && ValidEvent(e)
    ensures
      var message := Message(if e.name == "" then "message" else e.name, LineEnds(e.data),
                             IdAfter(r.lastId, e), ReconnectionAfter(r.reconnection, e));
      ProcessLines(r, EventLines(e))
        == Reader("", "", IdAfter(r.lastId, e), ReconnectionAfter(r.reconnection, e), r.messages + [message])
  {
    HeadReads(r, e);
    var lines := SplitAt(ReplaceCr(ReplaceCrLf(e.data)), '\n');
    ValueLines(e.data);
    ProcessAppend(r, Head(e), DataLines("data", e.data));
    DataReads(HeadRead(r, e), lines);
    OptionalLine(r, Head(e) + DataLines("data", e.data), "");
    var full := LineEnds(e.data) + "\n";
    assert "" + full == full && full[..|full| - 1] == LineEnds(e.data);
  }

  lemma RemarkReads(r: Reader, comment: string)
    requires Between(r)
    ensures ProcessLines(r, CommentLines(comment)) == r
  {
    CommentReads(r, SplitAt(ReplaceCr(ReplaceCrLf(comment)), '\n'));
    OptionalLine(r, DataLines(":", comment), "");
  }

  lemma HeadOneLine(e: Event)
    requires ValidEvent(e)
    ensures AllOneLine(Head(e))
  {
    assert OneLine(e.id) && OneLine(e.name);
    if e.retry > 0 {
      DecimalReads(RetryMs(e));
    }
  }

  lemma ItemOneLine(item: Item)
    requires item.Sent? ==> ValidEvent(item.event)
    ensures AllOneLine(LinesOfItem(item))
  {
    match item
    case Sent(e) =>
      HeadOneLine(e);
      ValueLines(e.data);
      FieldLinesOneLine("data", SplitAt(ReplaceCr(ReplaceCrLf(e.data)), '\n'));
    case Remark(comment) =>
      ValueLines(comment);
      FieldLinesOneLine(":", SplitAt(ReplaceCr(ReplaceCrLf(comment)), '\n'));
  }

  // ----- whole streams -----

  lemma ExpectedSent(r: Reader, e: Event, after: Reader, items: seq<Item>)
    requires items != [] && items[0] == Sent(e)
    requires after.lastId == IdAfter(r.lastId, e) && after.reconnection == ReconnectionAfter(r.reconnection, e)
    requires after.messages == r.messages +
      [Message(if e.name == "" then "message" else e.name, LineEnds(e.data), after.lastId, after.reconnection)]
    ensures r.messages + Expected(r.lastId, r.reconnection, items)
         == after.messages + Expected(after.lastId, after.reconnection, items[1..])
  {
  }

  lemma ItemLines(r: Reader, item: Item, rest: string)
    requires item.Sent? ==> ValidEvent(item.event)
    ensures ProcessLines(r, LinesOf(Terminated(LinesOfItem(item)) + rest))
         == ProcessLines(ProcessLines(r, LinesOfItem(item)), LinesOf(rest))
  {
    ItemOneLine(item);
    LinesOfTerminated(LinesOfItem(item), rest);
    ProcessAppend(r, LinesOfItem(item), LinesOf(rest));
  }

  lemma ItemReads(r: Reader, items: seq<Item>)
    requires items != [] && Between(r) && (items[0].Sent? ==> ValidEvent(items[0].event))
    ensures
      var after := ProcessLines(r, LinesOfItem(items[0]));
      && Between(after)
      && r.messages + Expected(r.lastId, r.reconnection, items)
         == after.messages + Expected(after.lastId, after.reconnection, items[1..])
  {
    match items[0]
    case Sent(e) =>
      EventReads(r, e);
      ExpectedSent(r, e, ProcessLines(r, EventLines(e)), items);
    case Remark(comment) => RemarkReads(r, comment);
  }

  lemma {:induction false} StreamReads(r: Reader, items: seq<Item>)
    requires Between(r) && Writable(items)
    ensures ProcessLines(r, LinesOf(Stream(items))).messages == r.messages + Expected(r.lastId, r.reconnection, items)
    decreases |items|
  {
    if items != [] {
      ItemLines(r, items[0], Stream(items[1..]));
      ItemReads(r, items);
      StreamReads(ProcessLines(r, LinesOfItem(items[0])), items[1..]);
    }
  }

  lemma StreamStart(items: seq<Item>)
    requires items != []
    ensures Stream(items) != "" && Stream(items)[0] != BOM
  {
    var lines := LinesOfItem(items[0]);
    assert lines[0] != "" && lines[0][0] != BOM;
    assert Terminated(lines)[0] == lines[0][0];
  }

  /**
   Any interleaving of written events and comments is read back as exactly the events, in order: kind, data up to
   line ends, last id and reconnection time. Comments yield nothing and an event without data is still dispatched.
   */
  lemma RoundTrip(items: seq<Item>)
    requires Writable(items)
    ensures Read(Stream(items)) == Expected("", None, items)
  {
    if items != [] {
      StreamStart(items);
    }
    StreamReads(START, items);
  }

  // ----- what a comment carries -----

  /** The text behind the colon that makes a line a comment, and behind the space that follows it. */
  function Uncommented(line: string): string {
    if |line| >= 2 && line[1] == ' ' then line[2..] else if line != "" then line[1..] else ""
  }

  lemma {:induction false} Uncomment(lines: seq<string>)
    requires AllOneLine(lines)
    ensures |FieldLines(":", lines)| == |lines|
    ensures forall i :: 0 <= i < |lines| ==>
              FieldLines(":", lines)[i] != "" && FieldLines(":", lines)[i][0] == ':'
              && Uncommented(FieldLines(":", lines)[i]) == lines[i]
    decreases |lines|
  {
    if lines != [] {
      Uncomment(lines[1..]);
      var line := FieldLine(":", lines[0]);
      if lines[0] != "" {
        assert line == ": " + lines[0] && line[2..] == lines[0];
      }
    }
  }

  /** A comment is written with all its text: without colons and spaces its lines give the text, up to line ends. */
  lemma CommentCarries(comment: string) returns (lines: seq<string>)
    ensures |CommentLines(comment)| == |lines| + 1 && CommentLines(comment)[|lines|] == ""
    ensures forall i :: 0 <= i < |lines| ==>
              CommentLines(comment)[i] != "" && CommentLines(comment)[i][0] == ':'
              && Uncommented(CommentLines(comment)[i]) == lines[i]
    ensures JoinWith(lines, '\n') == LineEnds(comment)
  {
    lines := SplitAt(ReplaceCr(ReplaceCrLf(comment)), '\n');
    ValueLines(comment);
    Uncomment(lines);
    ReplacedIsLineEnds(comment);
    JoinSplit(LineEnds(comment), '\n');
  }

  // ----- validation is necessary -----

  predicate Carriable(r: Reader) {
    && OneLine(r.kind) && OneLine(r.lastId) && Free(r.lastId, '\0')
    && forall i :: 0 <= i < |r.messages| ==>
         OneLine(r.messages[i].kind) && OneLine(r.messages[i].lastId) && Free(r.messages[i].lastId, '\0')
  }

  lemma {:induction false} LinesAreOneLine(line: string, text: string)
    requires OneLine(line)
    ensures AllOneLine(LinesFrom(line, text))
    decreases |text|
  {
    if text != "" {
      if text[0] == '\r' {
        LinesAreOneLine("", if |text| > 1 && text[1] == '\n' then text[2..] else text[1..]);
      } else if text[0] == '\n' {
        LinesAreOneLine("", text[1..]);
      } else {
        LinesAreOneLine(line + [text[0]], text[1..]);
      }
    }
  }

  lemma {:induction false} StaysCarriable(r: Reader, lines: seq<string>)
    requires Carriable(r) && AllOneLine(lines)
    ensures Carriable(ProcessLines(r, lines))
    decreases |lines|
  {
    if lines != [] {
      StaysCarriable(ProcessLine(r, lines[0]), lines[1..]);
    }
  }

  /**
   No stream whatsoever makes a reader report an id with CR, LF or NUL or a kind with CR or LF: what the
   validation refuses could not be carried.
   */
  lemma RefusedIsUncarriable(text: string, i: nat)
    requires i < |Read(text)|
    ensures ValidEvent(Event(Read(text)[i].lastId, Read(text)[i].kind, 0, Read(text)[i].data))
  {
    var body := if text != "" && text[0] == BOM then text[1..] else text;
    LinesAreOneLine("", body);
    StaysCarriable(START, LinesOf(body));
  }
}
