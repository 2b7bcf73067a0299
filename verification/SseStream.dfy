/**
 The reader of an event stream: sections 9.2.5 (parsing) and 9.2.6 (interpreting) of the HTML Living
 Standard, over the characters of the decoded text.
 */
module SseStream {
  import opened Prelude

  const BOM := '\U{FEFF}'

  /** The lines of a text, ended by CRLF, CR or LF; an unfinished last line is dropped. */
  function LinesOf(text: string): seq<string> {
    LinesFrom("", text)
  }

  function LinesFrom(line: string, text: string): seq<string>
    decreases |text|
  {
    if text == "" then []
    else if text[0] == '\r' then
      [line] + LinesFrom("", if |text| > 1 && text[1] == '\n' then text[2..] else text[1..])
    else if text[0] == '\n' then [line] + LinesFrom("", text[1..])
    else LinesFrom(line + [text[0]], text[1..])
  }

  datatype Message = Message(kind: string, data: string, lastId: string, reconnection: Option<nat>)

  /** The buffers of a stream, its reconnection time, and the events dispatched so far. */
  datatype Reader = Reader(data: string, kind: string, lastId: string, reconnection: Option<nat>,
      messages: seq<Message>)

  const START := Reader("", "", "", None, [])

  predicate IsDigit(c: char) {
    '0' <= c <= '9'
  }

  predicate AllDigits(s: string) {
    s != "" && forall i :: 0 <= i < |s| ==> IsDigit(s[i])
  }

  function Digit(c: char): nat
    requires IsDigit(c)
  {
    assert '0' as int <= c as int;
    c as int - '0' as int
  }

  function DecimalValue(s: string): nat
    requires forall i :: 0 <= i < |s| ==> IsDigit(s[i])
  {
    if s == "" then 0 else 10 * DecimalValue(s[..|s| - 1]) + Digit(s[|s| - 1])
  }

  /** The position of the first colon, or the length. */
  function Colon(line: string): (n: nat)
    ensures n <= |line| && (n < |line| ==> line[n] == ':')
    ensures forall i :: 0 <= i < n ==> line[i] != ':'
  {
    if line == "" || line[0] == ':' then 0 else 1 + Colon(line[1..])
  }

  function WithoutSpace(value: string): string {
    if value != "" && value[0] == ' ' then value[1..] else value
  }

  function Dispatch(r: Reader): Reader {
    if r.data == "" then r.(kind := "")
    else
      var data := if r.data[|r.data| - 1] == '\n' then r.data[..|r.data| - 1] else r.data;
      var kind := if r.kind == "" then "message" else r.kind;
      r.(data := "", kind := "", messages := r.messages + [Message(kind, data, r.lastId, r.reconnection)])
  }

  function ProcessField(r: Reader, field: string, value: string): Reader {
    if field == "event" then r.(kind := value)
    else if field == "data" then r.(data := r.data + value + "\n")
    else if field == "id" then (if '\0' in value then r else r.(lastId := value))
    else if field == "retry" then (if AllDigits(value) then r.(reconnection := Some(DecimalValue(value))) else r)
    else r
  }

  function ProcessLine(r: Reader, line: string): Reader {
    if line == "" then Dispatch(r)
    else if line[0] == ':' then r
    else if Colon(line) < |line| then
      ProcessField(r, line[..Colon(line)], WithoutSpace(line[Colon(line) + 1..]))
    else ProcessField(r, line, "")
  }

  function ProcessLines(r: Reader, lines: seq<string>): Reader
    decreases |lines|
  {
    if lines == [] then r else ProcessLines(ProcessLine(r, lines[0]), lines[1..])
  }

  /** The events a whole stream dispatches; what follows the last blank line is discarded. */
  function Read(text: string): seq<Message> {
    ProcessLines(START, LinesOf(if text != "" && text[0] == BOM then text[1..] else text)).messages
  }

  // ----- facts about the reader -----

  predicate OneLine(s: string) {
    forall i :: 0 <= i < |s| ==> s[i] != '\r' && s[i] != '\n'
  }

  /** Lines written one after the other, each ended by LF. */
  function Terminated(lines: seq<string>): string {
    if lines == [] then "" else lines[0] + "\n" + Terminated(lines[1..])
  }

  predicate AllOneLine(lines: seq<string>) {
    forall i :: 0 <= i < |lines| ==> OneLine(lines[i])
  }

  lemma {:induction false} LinesFromLine(line: string, s: string, rest: string)
    requires OneLine(s)
    ensures LinesFrom(line, s + "\n" + rest) == [line + s] + LinesOf(rest)
    decreases |s|
  {
    var text := s + "\n" + rest;
    if s == "" {
      assert text == "\n" + rest && text[1..] == rest && line + s == line;
    } else {
      assert text[1..] == s[1..] + "\n" + rest;
      LinesFromLine(line + [s[0]], s[1..], rest);
      assert line + [s[0]] + s[1..] == line + s;
    }
  }

  lemma GatherLines(lines: seq<string>, more: seq<string>)
    requires lines != []
    ensures [lines[0]] + (lines[1..] + more) == lines + more
  {
  }

  /** Reading lines back from what was written. */
  lemma {:induction false} LinesOfTerminated(lines: seq<string>, rest: string)
    requires AllOneLine(lines)
    ensures LinesOf(Terminated(lines) + rest) == lines + LinesOf(rest)
    decreases |lines|
  {
    if lines == [] {
      assert Terminated(lines) + rest == rest;
    } else {
      LinesOfTerminated(lines[1..], rest);
      Regroup(lines[0] + "\n", Terminated(lines[1..]), rest);
      LinesFromLine("", lines[0], Terminated(lines[1..]) + rest);
      assert "" + lines[0] == lines[0];
      GatherLines(lines, LinesOf(rest));
    }
  }

  lemma {:induction false} ProcessAppend(r: Reader, a: seq<string>, b: seq<string>)
    ensures ProcessLines(r, a + b) == ProcessLines(ProcessLines(r, a), b)
    decreases |a|
  {
    if a == [] {
      assert a + b == b;
    } else {
      assert (a + b)[0] == a[0] && (a + b)[1..] == a[1..] + b;
      ProcessAppend(ProcessLine(r, a[0]), a[1..], b);
    }
  }

  lemma {:induction false} TerminatedAppend(a: seq<string>, b: seq<string>)
    ensures Terminated(a + b) == Terminated(a) + Terminated(b)
    decreases |a|
  {
    if a == [] {
      assert a + b == b;
    } else {
      assert (a + b)[0] == a[0] && (a + b)[1..] == a[1..] + b;
      TerminatedAppend(a[1..], b);
    }
  }
}
