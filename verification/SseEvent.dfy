/** Writing Server-Sent Events and comments (sse/event.go). */
module SseEvent {
  import opened Prelude
  import opened Splitting
  import opened SseStream

  datatype Event = Event(id: string, name: string, retry: int, data: string) // retry in nanoseconds

  predicate Contains(s: string, c: char) {
    exists i :: 0 <= i < |s| && s[i] == c
  }

  /** validateEvent. */
  predicate ValidEvent(e: Event) {
    && !Contains(e.id, '\r') && !Contains(e.id, '\n') && !Contains(e.id, '\0')
    && !Contains(e.name, '\r') && !Contains(e.name, '\n')
    && e.retry >= 0
  }

  // ----- text functions of the library -----

  /** bytes.ReplaceAll(value, "\r\n", "\n"). */
  function ReplaceCrLf(s: string): string {
    if s == "" then ""
    else if |s| >= 2 && s[0] == '\r' && s[1] == '\n' then "\n" + ReplaceCrLf(s[2..])
    else [s[0]] + ReplaceCrLf(s[1..])
  }

  /** bytes.ReplaceAll(value, "\r", "\n"). */
  function ReplaceCr(s: string): string {
    if s == "" then "" else [if s[0] == '\r' then '\n' else s[0]] + ReplaceCr(s[1..])
  }

  /** fmt's %d for a non-negative number. */
  function Decimal(n: nat): string {
    if n < 10 then [('0' as int + n) as char] else Decimal(n / 10) + [('0' as int + n % 10) as char]
  }

  /** What the standard's reader makes of line ends: CRLF, CR and LF are one line end each. */
  function LineEnds(s: string): string {
    if s == "" then ""
    else if s[0] == '\r' then "\n" + LineEnds(if |s| > 1 && s[1] == '\n' then s[2..] else s[1..])
    else [s[0]] + LineEnds(s[1..])
  }

  // ----- the text of events and comments -----

  function FieldLine(field: string, line: string): string {
    if field == ":" then (if |line| > 0 then ": " + line else ":") else field + ": " + line
  }

  function FieldLines(field: string, lines: seq<string>): seq<string> {
    if lines == [] then [] else [FieldLine(field, lines[0])] + FieldLines(field, lines[1..])
  }

  function DataLines(field: string, value: string): seq<string> {
    FieldLines(field, SplitAt(ReplaceCr(ReplaceCrLf(value)), '\n'))
  }

  function RetryMs(e: Event): nat
    requires e.retry > 0
  {
    Max(1, e.retry / MILLISECOND)
  }

  function Head(e: Event): seq<string> {
    (if e.id != "" then ["id: " + e.id] else []) +
    (if e.name != "" then ["event: " + e.name] else []) +
    (if e.retry > 0 then ["retry: " + Decimal(RetryMs(e))] else [])
  }

  function EventLines(e: Event): seq<string> {
    Head(e) + DataLines("data", e.data) + [""]
  }

  function CommentLines(comment: string): seq<string> {
    DataLines(":", comment) + [""]
  }

  class Buffer {
    var text: string

    constructor ()
      ensures text == ""
    {
      text := "";
    }

    method Write(s: string)
      modifies this
      ensures text == old(text) + s
    {
      text := text + s;
    }
  }

  lemma {:induction false} FieldLinesSnoc(field: string, lines: seq<string>, line: string)
    ensures FieldLines(field, lines + [line]) == FieldLines(field, lines) + [FieldLine(field, line)]
    decreases |lines|
  {
    if lines == [] {
      assert lines + [line] == [line] && [line][1..] == [];
    } else {
      assert (lines + [line])[0] == lines[0] && (lines + [line])[1..] == lines[1..] + [line];
      FieldLinesSnoc(field, lines[1..], line);
    }
  }

  lemma TerminatedSnoc(lines: seq<string>, line: string)
    ensures Terminated(lines + [line]) == Terminated(lines) + line + "\n"
  {
    TerminatedAppend(lines, [line]);
    var one := [line];
    assert one[0] == line && one[1..] == [];
    assert Terminated(one) == line + "\n" + "" == line + "\n";
    assert Terminated(lines) + (line + "\n") == Terminated(lines) + line + "\n";
  }

  lemma TerminatedBlock(lines: seq<string>)
    ensures Terminated(lines + [""]) == Terminated(lines) + "\n"
  {
    TerminatedSnoc(lines, "");
    assert Terminated(lines) + "" == Terminated(lines);
  }

  method WriteLine(buffer: Buffer, field: string, line: string)
    modifies buffer
    ensures buffer.text == old(buffer.text) + FieldLine(field, line) + "\n"
  {
    if field == ":" {
      buffer.Write(":");
      if |line| > 0 {
        buffer.Write(" ");
      }
    } else {
      buffer.Write(field);
      buffer.Write(": ");
    }
    buffer.Write(line);
    buffer.Write("\n");
  }

  lemma OneMoreLine(text: string, field: string, lines: seq<string>, i: nat)
    requires i < |lines|
    ensures text + Terminated(FieldLines(field, lines[..i])) + FieldLine(field, lines[i]) + "\n"
         == text + Terminated(FieldLines(field, lines[..i + 1]))
  {
    var done := FieldLines(field, lines[..i]);
    assert lines[..i + 1] == lines[..i] + [lines[i]];
    FieldLinesSnoc(field, lines[..i], lines[i]);
    TerminatedSnoc(done, FieldLine(field, lines[i]));
    assert text + Terminated(done) + FieldLine(field, lines[i]) + "\n"
        == text + (Terminated(done) + FieldLine(field, lines[i]) + "\n");
  }

  /** writeLines: one `field: ` line for every line of the value. */
  method WriteLines(buffer: Buffer, field: string, value: string)
    modifies buffer
    ensures buffer.text == old(buffer.text) + Terminated(DataLines(field, value))
  {
    var lines := SplitAt(ReplaceCr(ReplaceCrLf(value)), '\n');
    ghost var before := buffer.text;
    var i := 0;
    while i < |lines|
      invariant 0 <= i <= |lines|
      invariant buffer.text == before + Terminated(FieldLines(field, lines[..i]))
    {
      WriteLine(buffer, field, lines[i]);
      OneMoreLine(before, field, lines, i);
      i := i + 1;
    }
    assert lines[..|lines|] == lines;
  }

  /** One formatted line behind the lines written so far. */
  method WriteText(buffer: Buffer, ghost lines: seq<string>, line: string)
    requires buffer.text == Terminated(lines)
    modifies buffer
    ensures buffer.text == Terminated(lines + [line])
  {
    buffer.Write(line + "\n");
    TerminatedSnoc(lines, line);
  }

  /** WriteEvent; None is the validation error. */
  method WriteEvent(e: Event) returns (r: Option<string>)
    ensures r == if ValidEvent(e) then Some(Terminated(EventLines(e))) else None
  {
    if !ValidEvent(e) {
      return None;
    }
    var buffer := new Buffer();
    ghost var lines: seq<string> := [];
    if e.id != "" {
      WriteText(buffer, lines, "id: " + e.id);
      lines := lines + ["id: " + e.id];
    }
    if e.name != "" {
      WriteText(buffer, lines, "event: " + e.name);
      lines := lines + ["event: " + e.name];
    }
    if e.retry > 0 {
      WriteText(buffer, lines, "retry: " + Decimal(RetryMs(e)));
      lines := lines + ["retry: " + Decimal(RetryMs(e))];
    }
    assert lines == Head(e) && buffer.text == Terminated(lines);
    WriteLines(buffer, "data", e.data);
    buffer.Write("\n");
    TerminatedAppend(Head(e), DataLines("data", e.data));
    TerminatedBlock(Head(e) + DataLines("data", e.data));
    assert EventLines(e) == Head(e) + DataLines("data", e.data) + [""];
    return Some(buffer.text);
  }

  /** WriteComment. */
  method WriteComment(comment: string) returns (r: string)
    ensures r == Terminated(CommentLines(comment))
  {
    var buffer := new Buffer();
    WriteLines(buffer, ":", comment);
    buffer.Write("\n");
    TerminatedBlock(DataLines(":", comment));
    return buffer.text;
  }
}
