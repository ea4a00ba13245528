/** The server-sent event printer (`runtime/sse.go`), proved against the client of
    sections 9.2.5 and 9.2.6 of the WHATWG HTML standard. */
module Sse {
  import opened Text
  import opened EventStream

  /** Event data; `Json` carries what the JSON encoder made of the value, if it could. */
  datatype Payload = NoData | Text(text: string) | Bytes(bytes: string) | Json(encoded: Option<string>)

  datatype Event = Event(id: string, name: string, data: Payload)

  /** `sseDataString`. */
  function DataString(p: Payload): Option<string> {
    match p
    case NoData => Some("")
    case Text(s) => Some(s)
    case Bytes(b) => Some(b)
    case Json(encoded) => encoded
  }

  /** `strings.ReplaceAll(s, "\r\n", "\n")`. */
  function ReplaceCrLf(s: string): string {
    if s == "" then ""
    else if |s| >= 2 && s[0] == '\r' && s[1] == '\n' then "\n" + ReplaceCrLf(s[2..])
    else [s[0]] + ReplaceCrLf(s[1..])
  }

  /** `strings.ReplaceAll(s, "\r", "\n")`. */
  function ReplaceCr(s: string): (r: string)
    ensures |r| == |s| && forall i | 0 <= i < |s| :: r[i] == if s[i] == '\r' then '\n' else s[i]
  {
    seq(|s|, i requires 0 <= i < |s| => if s[i] == '\r' then '\n' else s[i])
  }

  function UnixNewlines(s: string): (r: string)
    ensures Avoids(r, '\r')
  {
    ReplaceCr(ReplaceCrLf(s))
  }

  function FieldLine(field: string, value: string): string {
    field + ": " + value
  }

  function DataLines(lines: seq<string>): string {
    if lines == [] then "" else FieldLine("data", lines[0]) + "\n" + DataLines(lines[1..])
  }

  /** A field line, or nothing for a blank value. */
  function OptionalLine(field: string, value: string): string {
    if value != "" then FieldLine(field, value) + "\n" else ""
  }

  /** The text of one event. */
  function Frame(id: string, name: string, data: string): string {
    OptionalLine("id", id) + OptionalLine("event", name) + DataLines(Split(UnixNewlines(data), '\n')) + "\n"
  }

  predicate Encodes(e: Event) {
    DataString(e.data).Some?
  }

  /** What is printed for an event whose data can be encoded. */
  function EventText(e: Event): string
    requires Encodes(e)
  {
    Frame(Trim(e.id), Trim(e.name), DataString(e.data).value)
  }

  lemma {:induction false} DataLinesSnoc(lines: seq<string>, line: string)
    ensures DataLines(lines + [line]) == DataLines(lines) + FieldLine("data", line) + "\n"
  {
    hide FieldLine;
    if lines == [] {
      assert lines + [line] == [line];
    } else {
      assert (lines + [line])[1..] == lines[1..] + [line];
      DataLinesSnoc(lines[1..], line);
    }
  }

  method WriteDataLines(buffer: string, lines: seq<string>) returns (buf: string)
    ensures buf == buffer + DataLines(lines)
  {
    buf := buffer;
    hide FieldLine;
    assert buf == buffer + DataLines(lines[..0]);
    for i := 0 to |lines|
      invariant buf == buffer + DataLines(lines[..i])
    {
      assert lines[..i + 1] == lines[..i] + [lines[i]];
      DataLinesSnoc(lines[..i], lines[i]);
      buf := buf + FieldLine("data", lines[i]) + "\n";
    }
    assert lines[..|lines|] == lines;
  }

  /** `formatSSEEvent`. */
  method FormatEvent(e: Event) returns (r: Option<string>)
    ensures r == if Encodes(e) then Some(EventText(e)) else None
  {
    hide Trim, Split, UnixNewlines, DataString, DataLines, FieldLine;
    var buf := "";
    var id := Trim(e.id);
    if id != "" {
      buf := buf + FieldLine("id", id) + "\n";
    }
    assert buf == OptionalLine("id", id);
    var name := Trim(e.name);
    if name != "" {
      buf := buf + FieldLine("event", name) + "\n";
    }
    assert buf == OptionalLine("id", id) + OptionalLine("event", name);
    var data := DataString(e.data);
    if data.None? {
      return None;
    }
    hide OptionalLine;
    buf := WriteDataLines(buf, Split(UnixNewlines(data.value), '\n'));
    buf := buf + "\n";
    return Some(buf);
  }

  /** The text of the first `n` events in order. */
  function Body(events: seq<Event>, n: nat): string
    requires n <= |events| && forall i | 0 <= i < n :: Encodes(events[i])
  {
    if n == 0 then ""
    else
      assert Encodes(events[n - 1]);
      Body(events, n - 1) + EventText(events[n - 1])
  }

  /** The body of `SSEResponse`: all events, or an error if one cannot be encoded. */
  method SseBody(events: seq<Event>) returns (r: Option<string>)
    ensures (forall i | 0 <= i < |events| :: Encodes(events[i])) ==> r == Some(Body(events, |events|))
    ensures (exists i | 0 <= i < |events| :: !Encodes(events[i])) ==> r == None
  {
    var buf := "";
    hide EventText, Encodes;
    for i := 0 to |events|
      invariant forall k | 0 <= k < i :: Encodes(events[k])
      invariant buf == Body(events, i)
    {
      var b := FormatEvent(events[i]);
      if b.None? {
        return None;
      }
      buf := buf + b.value;
    }
    return Some(buf);
  }

  datatype StreamEnd = Finished | EncodeFailed | ReaderGone

  /** The first event that cannot be encoded, or the number of events. */
  function Encodable(events: seq<Event>): (n: nat)
    ensures n <= |events| && forall i | 0 <= i < n :: Encodes(events[i])
    ensures n < |events| ==> !Encodes(events[n])
  {
    if events == [] || !Encodes(events[0]) then 0 else Encodable(events[1..]) + 1
  }

  /** The pipe's reader leaves before it has taken all of the write for event `goneAt.0`: that event
      is printed, the context is not cancelled before it, and `goneAt.1` of its characters are taken. */
  predicate LeavesEarly(events: seq<Event>, cancelledAt: Option<nat>, goneAt: Option<(nat, nat)>) {
    && goneAt.Some? && goneAt.value.0 < Encodable(events)
    && (cancelledAt.Some? ==> goneAt.value.0 < cancelledAt.value)
    && goneAt.value.1 < |EventText(events[goneAt.value.0])|
  }

  /** `streamSSEEvents` on the events a channel delivers before it is closed.  The context may be
      cancelled before some receive, and the pipe's reader may leave during some write. */
  method StreamEvents(events: seq<Event>, cancelledAt: Option<nat>, goneAt: Option<(nat, nat)>)
    returns (written: string, count: nat, end: StreamEnd)
    ensures count <= Encodable(events)
    ensures LeavesEarly(events, cancelledAt, goneAt) ==>
              && count == goneAt.value.0 && end == ReaderGone
              && written == Body(events, count) + EventText(events[count])[..goneAt.value.1]
    ensures !LeavesEarly(events, cancelledAt, goneAt) ==>
              && written == Body(events, count)
              && if cancelledAt.Some? && cancelledAt.value <= Encodable(events) then
                   count == cancelledAt.value && end == Finished
                 else
                   count == Encodable(events) && end == if count < |events| then EncodeFailed else Finished
  {
    written := "";
    ghost var n := Encodable(events);
    hide EventText, Encodes, Encodable;
    for i := 0 to |events|
      invariant i <= n
      invariant written == Body(events, i)
      invariant cancelledAt.Some? ==> cancelledAt.value >= i
      invariant LeavesEarly(events, cancelledAt, goneAt) ==> goneAt.value.0 >= i
    {
      if cancelledAt == Some(i) {
        return written, i, Finished;
      }
      var b := FormatEvent(events[i]);
      if b.None? {
        return written, i, EncodeFailed;
      }
      if goneAt.Some? && goneAt.value.0 == i && goneAt.value.1 < |b.value| {
        return written + b.value[..goneAt.value.1], i, ReaderGone;
      }
      written := written + b.value;
    }
    return written, |events|, Finished;
  }

  // ----- reading the printed events back -----

  /** The ID in force after the first `n` events. */
  function LastId(events: seq<Event>, n: nat): string
    requires n <= |events|
  {
    if n == 0 then ""
    else if Trim(events[n - 1].id) != "" then Trim(events[n - 1].id)
    else LastId(events, n - 1)
  }

  /** The messages a client should see for the first `n` events. */
  function Expected(events: seq<Event>, n: nat): (r: seq<Message>)
    requires n <= |events| && forall i | 0 <= i < n :: Encodes(events[i])
    ensures |r| == n
  {
    if n == 0 then []
    else
      var e := events[n - 1];
      assert Encodes(e);
      var name := if Trim(e.name) != "" then Trim(e.name) else "message";
      Expected(events, n - 1) + [Message(name, UnixNewlines(DataString(e.data).value), LastId(events, n))]
  }

  /** The trimmed name stays on one line, and so does the trimmed ID, which has no NUL. */
  predicate CleanEvent(e: Event) {
    OneLine(Trim(e.name)) && OneLine(Trim(e.id)) && Avoids(Trim(e.id), NUL)
  }

  // The lines of one printed event.

  /** The line of an optional field, if it is printed. */
  function OptionalWord(field: string, value: string): seq<string> {
    if value != "" then [FieldLine(field, value)] else []
  }

  function FrameLines(id: string, name: string, data: string): seq<string> {
    OptionalWord("id", id) + OptionalWord("event", name) + Prefixed(Split(UnixNewlines(data), '\n')) + [""]
  }

  function Prefixed(lines: seq<string>): seq<string> {
    if lines == [] then [] else [FieldLine("data", lines[0])] + Prefixed(lines[1..])
  }

  predicate AllOneLine(lines: seq<string>) {
    forall i | 0 <= i < |lines| :: OneLine(lines[i])
  }

  lemma {:induction false} DataLinesRead(lines: seq<string>, rest: string)
    requires AllOneLine(lines)
    ensures Lines(DataLines(lines) + rest) == Prefixed(lines) + Lines(rest)
  {
    hide FieldLine, Lines;
    if lines == [] {
      assert DataLines(lines) + rest == rest;
    } else {
      var line := FieldLine("data", lines[0]);
      var more := DataLines(lines[1..]) + rest;
      assert DataLines(lines) + rest == line + "\n" + more;
      FieldLineOneLine("data", lines[0]);
      LineThenRest(line, more);
      DataLinesRead(lines[1..], rest);
    }
  }

  lemma FieldLineOneLine(field: string, value: string)
    requires OneLine(field) && OneLine(value)
    ensures OneLine(FieldLine(field, value))
  {
  }

  lemma OptionalLineRead(field: string, value: string, rest: string)
    requires OneLine(field) && OneLine(value)
    ensures Lines(OptionalLine(field, value) + rest) == OptionalWord(field, value) + Lines(rest)
  {
    if value != "" {
      var line := FieldLine(field, value);
      assert OneLine(line);
      hide FieldLine, Lines;
      assert OptionalLine(field, value) + rest == line + "\n" + rest;
      LineThenRest(line, rest);
    } else {
      assert OptionalLine(field, value) + rest == rest;
    }
  }

  lemma Regroup<T>(a: seq<T>, b: seq<T>, c: seq<T>, d: seq<T>, rest: seq<T>)
    ensures a + b + c + d + rest == a + (b + (c + (d + rest)))
  {
  }

  lemma SplitDataOneLine(data: string)
    ensures AllOneLine(Split(UnixNewlines(data), '\n'))
  {
    var text := UnixNewlines(data);
    hide UnixNewlines, Split;
    SplitAllAvoid(text, '\n');
    SplitAvoids(text, '\n', '\r');
  }

  /** A printed event reads as its own lines, whatever follows. */
  lemma FrameRead(id: string, name: string, data: string, rest: string)
    requires OneLine(id) && OneLine(name)
    ensures Lines(Frame(id, name, data) + rest) == FrameLines(id, name, data) + Lines(rest)
  {
    hide Split, UnixNewlines, Lines, DataLines, Prefixed, OptionalLine, OptionalWord, OneLine, AllOneLine;
    var lines := Split(UnixNewlines(data), '\n');
    SplitDataOneLine(data);
    var tail := "\n" + rest;
    Regroup(OptionalLine("id", id), OptionalLine("event", name), DataLines(lines), "\n", rest);
    ReadParts(id, name, lines, rest);
    Regroup(OptionalWord("id", id), OptionalWord("event", name), Prefixed(lines), [""], Lines(rest));
  }

  lemma ReadParts(id: string, name: string, lines: seq<string>, rest: string)
    requires OneLine(id) && OneLine(name) && AllOneLine(lines)
    ensures Lines(OptionalLine("id", id) + (OptionalLine("event", name) + (DataLines(lines) + ("\n" + rest)))) ==
            OptionalWord("id", id) + (OptionalWord("event", name) + (Prefixed(lines) + ([""] + Lines(rest))))
  {
    hide Lines, DataLines, Prefixed, OptionalLine, OptionalWord, OneLine, AllOneLine;
    var text := DataLines(lines) + ("\n" + rest);
    ReadId(id, OptionalLine("event", name) + text);
    ReadName(name, text);
    ReadData(lines, rest);
  }

  lemma ReadId(id: string, rest: string)
    requires OneLine(id)
    ensures Lines(OptionalLine("id", id) + rest) == OptionalWord("id", id) + Lines(rest)
  {
    hide Lines, OptionalLine, OptionalWord;
    OptionalLineRead("id", id, rest);
  }

  lemma ReadName(name: string, rest: string)
    requires OneLine(name)
    ensures Lines(OptionalLine("event", name) + rest) == OptionalWord("event", name) + Lines(rest)
  {
    hide Lines, OptionalLine, OptionalWord;
    OptionalLineRead("event", name, rest);
  }

  lemma ReadData(lines: seq<string>, rest: string)
    requires AllOneLine(lines)
    ensures Lines(DataLines(lines) + ("\n" + rest)) == Prefixed(lines) + ([""] + Lines(rest))
  {
    hide Lines, DataLines, Prefixed, AllOneLine;
    DataLinesRead(lines, "\n" + rest);
    BlankLineRead(rest);
  }

  lemma BlankLineRead(rest: string)
    ensures Lines("\n" + rest) == [""] + Lines(rest)
  {
    hide Lines;
    LineThenRest("", rest);
    assert "" + "\n" + rest == "\n" + rest;
  }

  // Processing the lines of one printed event.

  function Terminated(lines: seq<string>): string {
    if lines == [] then "" else lines[0] + "\n" + Terminated(lines[1..])
  }

  lemma {:induction false} TerminatedIsJoin(lines: seq<string>)
    requires lines != []
    ensures Terminated(lines) == Join(lines, "\n") + "\n"
  {
    if |lines| == 1 {
      assert Terminated(lines[1..]) == "";
    } else {
      TerminatedIsJoin(lines[1..]);
    }
  }

  lemma ProcessData(c: Client, value: string)
    ensures ProcessLine(c, FieldLine("data", value)) == c.(data := c.data + value + "\n")
  {
    ProcessPrinted(c, "data", value);
    hide ProcessLine;
  }

  lemma ProcessName(c: Client, value: string)
    ensures ProcessLine(c, FieldLine("event", value)) == c.(eventType := value)
  {
    ProcessPrinted(c, "event", value);
    hide ProcessLine;
  }

  lemma ProcessId(c: Client, value: string)
    requires Avoids(value, NUL)
    ensures ProcessLine(c, FieldLine("id", value)) == c.(lastEventId := value)
  {
    ProcessPrinted(c, "id", value);
    hide ProcessLine;
  }

  lemma {:induction false} ProcessDataLines(c: Client, lines: seq<string>)
    ensures ProcessAll(c, Prefixed(lines)) == c.(data := c.data + Terminated(lines))
    decreases |lines|
  {
    hide FieldLine, ProcessLine;
    if lines == [] {
      assert c.data + "" == c.data;
    } else {
      ProcessData(c, lines[0]);
      var d := c.(data := c.data + lines[0] + "\n");
      ProcessDataLines(d, lines[1..]);
      assert d.data + Terminated(lines[1..]) == c.data + Terminated(lines);
      assert Prefixed(lines)[1..] == Prefixed(lines[1..]);
    }
  }

  lemma ProcessBlank(c: Client, data: string)
    requires c.data == data + "\n"
    ensures ProcessLine(c, "") ==
            Client("", "", c.lastEventId,
                   c.messages + [Message(if c.eventType == "" then "message" else c.eventType, data, c.lastEventId)])
  {
    assert c.data[..|c.data| - 1] == data;
  }

  lemma ProcessOne(c: Client, line: string)
    ensures ProcessAll(c, [line]) == ProcessLine(c, line)
  {
    hide ProcessLine;
    assert [line][1..] == [];
  }

  lemma ProcessOptionalId(c: Client, id: string)
    requires Avoids(id, NUL)
    ensures ProcessAll(c, OptionalWord("id", id)) ==
            c.(lastEventId := if id != "" then id else c.lastEventId)
  {
    hide FieldLine, ProcessLine;
    if id != "" {
      ProcessId(c, id);
      ProcessOne(c, FieldLine("id", id));
    }
  }

  lemma ProcessOptionalName(c: Client, name: string)
    requires c.eventType == ""
    ensures ProcessAll(c, OptionalWord("event", name)) == c.(eventType := name)
  {
    hide FieldLine, ProcessLine;
    if name != "" {
      ProcessName(c, name);
      ProcessOne(c, FieldLine("event", name));
    }
  }

  /** The data lines and the final blank line dispatch one message. */
  lemma ProcessDataAndBlank(c: Client, text: string)
    requires c.data == ""
    ensures ProcessAll(c, Prefixed(Split(text, '\n')) + [""]) ==
            Client("", "", c.lastEventId,
                   c.messages + [Message(if c.eventType == "" then "message" else c.eventType, text, c.lastEventId)])
  {
    hide Split, Prefixed, ProcessLine, Terminated, ProcessAll;
    var lines := Split(text, '\n');
    JoinSplit(text, '\n');
    TerminatedIsJoin(lines);
    ProcessAppend(c, Prefixed(lines), [""]);
    ProcessDataLines(c, lines);
    var d := c.(data := text + "\n");
    assert "" + Terminated(lines) == Terminated(lines);
    ProcessOne(d, "");
    ProcessBlank(d, text);
  }

  /** A client with empty buffers sees exactly the printed event. */
  lemma ProcessFrame(c: Client, id: string, name: string, data: string)
    requires c.data == "" && c.eventType == "" && Avoids(id, NUL)
    ensures var lastId := if id != "" then id else c.lastEventId;
            ProcessAll(c, FrameLines(id, name, data)) ==
            Client("", "", lastId,
                   c.messages + [Message(if name != "" then name else "message", UnixNewlines(data), lastId)])
  {
    hide Split, UnixNewlines, Prefixed, OptionalWord, ProcessAll;
    var text := UnixNewlines(data);
    var ids, names := OptionalWord("id", id), OptionalWord("event", name);
    var dataLines := Prefixed(Split(text, '\n'));
    Regroup(ids, names, dataLines, [""], []);
    assert FrameLines(id, name, data) == ids + (names + (dataLines + [""]));
    ProcessAppend(c, ids, names + (dataLines + [""]));
    ProcessOptionalId(c, id);
    var c1 := c.(lastEventId := if id != "" then id else c.lastEventId);
    ProcessAppend(c1, names, dataLines + [""]);
    ProcessOptionalName(c1, name);
    ProcessDataAndBlank(c1.(eventType := name), text);
  }

  ghost function ClientAfter(events: seq<Event>, n: nat): Client
    requires n <= |events| && forall i | 0 <= i < n :: Encodes(events[i])
  {
    Client("", "", LastId(events, n), Expected(events, n))
  }

  /** One more event: its text extends the body, its lines extend the client's messages. */
  lemma EventRead(events: seq<Event>, n: nat, rest: string)
    requires 0 < n <= |events| && forall i | 0 <= i < n :: Encodes(events[i])
    requires CleanEvent(events[n - 1])
    ensures Encodes(events[n - 1])
    ensures ProcessAll(ClientAfter(events, n - 1), Lines(EventText(events[n - 1]) + rest)) ==
            ProcessAll(ClientAfter(events, n), Lines(rest))
  {
    var e := events[n - 1];
    assert Encodes(e);
    var id, name, data := Trim(e.id), Trim(e.name), DataString(e.data).value;
    FrameRead(id, name, data, rest);
    ProcessAppend(ClientAfter(events, n - 1), FrameLines(id, name, data), Lines(rest));
    ProcessFrame(ClientAfter(events, n - 1), id, name, data);
    hide Lines, ProcessAll, FrameLines, Frame, DataString, Trim, UnixNewlines, OneLine, Avoids;
  }

  lemma {:induction false} BodyRead(events: seq<Event>, n: nat, rest: string)
    requires n <= |events| && forall i | 0 <= i < n :: Encodes(events[i])
    requires forall i | 0 <= i < n :: CleanEvent(events[i])
    ensures ProcessAll(ClientAfter(events, 0), Lines(Body(events, n) + rest)) ==
            ProcessAll(ClientAfter(events, n), Lines(rest))
  {
    hide Lines, ProcessAll, CleanEvent, Encodes, ClientAfter, EventText;
    if n == 0 {
      assert Body(events, 0) + rest == rest;
    } else {
      EventRead(events, n, rest);
      assert Body(events, n) + rest == Body(events, n - 1) + (EventText(events[n - 1]) + rest);
      BodyRead(events, n - 1, EventText(events[n - 1]) + rest);
    }
  }

  // ----- reading a broken-off stream -----

  /** No blank line is terminated anywhere in the text, and all its line ends are "\n". */
  predicate NoBlankLine(s: string) {
    && Avoids(s, '\r')
    && (s != "" ==> s[0] != '\n')
    && forall i | 0 <= i < |s| - 1 :: !(s[i] == '\n' && s[i + 1] == '\n')
  }

  lemma NoBlankAppend(a: string, b: string)
    requires NoBlankLine(a) && NoBlankLine(b)
    ensures NoBlankLine(a + b)
  {
    var s := a + b;
    forall i | 0 <= i < |s| - 1 ensures !(s[i] == '\n' && s[i + 1] == '\n') {
      if i >= |a| {
        assert s[i] == b[i - |a|] && s[i + 1] == b[i + 1 - |a|];
      }
    }
  }

  lemma NoBlankPrefix(s: string, k: nat)
    requires NoBlankLine(s) && k <= |s|
    ensures NoBlankLine(s[..k])
  {
  }

  lemma OneLineNoBlank(line: string)
    requires OneLine(line)
    ensures NoBlankLine(line)
    ensures line != "" ==> NoBlankLine(line + "\n")
  {
    assert forall i | 0 <= i < |line| :: !IsBreak(line[i]);
  }

  /** Text without a terminated blank line has no blank line to dispatch on. */
  lemma {:induction false} NoBlankLines(s: string)
    requires NoBlankLine(s)
    ensures forall i | 0 <= i < |Lines(s)| :: Lines(s)[i] != ""
    decreases |s|
  {
    var n := LineLength(s);
    if n < |s| {
      assert s[n] == '\n' && n > 0;
      NoBlankTail(s, n);
      NoBlankLines(s[n + 1..]);
    }
  }

  lemma NoBlankTail(s: string, n: nat)
    requires NoBlankLine(s) && n < |s| && s[n] == '\n'
    ensures NoBlankLine(s[n + 1..])
  {
  }

  lemma LineKeepsMessages(c: Client, line: string)
    requires line != ""
    ensures ProcessLine(c, line).messages == c.messages
  {
  }

  /** Without a blank line nothing is dispatched. */
  lemma {:induction false} NothingDispatched(c: Client, lines: seq<string>)
    requires forall i | 0 <= i < |lines| :: lines[i] != ""
    ensures ProcessAll(c, lines).messages == c.messages
    decreases |lines|
  {
    if lines != [] {
      LineKeepsMessages(c, lines[0]);
      hide ProcessLine;
      NothingDispatched(ProcessLine(c, lines[0]), lines[1..]);
    }
  }

  lemma {:induction false} DataLinesNoBlank(lines: seq<string>)
    requires AllOneLine(lines)
    ensures NoBlankLine(DataLines(lines))
  {
    hide FieldLine, NoBlankLine, OneLine;
    if lines == [] {
      NothingIsBlank();
    } else {
      assert OneLine(lines[0]);
      PrintedLineNoBlank("data", lines[0]);
      DataLinesNoBlank(lines[1..]);
      NoBlankAppend(FieldLine("data", lines[0]) + "\n", DataLines(lines[1..]));
    }
  }

  lemma NothingIsBlank()
    ensures NoBlankLine("") && OneLine("data") && OneLine("id") && OneLine("event")
  {
  }

  lemma PrintedLineNoBlank(field: string, value: string)
    requires OneLine(value) && (field == "data" || field == "id" || field == "event")
    ensures NoBlankLine(FieldLine(field, value) + "\n") && NoBlankLine(OptionalLine(field, value))
  {
    NothingIsBlank();
    FieldLineOneLine(field, value);
    assert FieldLine(field, value) != "";
    hide NoBlankLine, FieldLine, OneLine;
    OneLineNoBlank(FieldLine(field, value));
  }

  /** A printed event is text without a blank line, then the line end that makes one. */
  lemma FrameNoBlank(id: string, name: string, data: string) returns (head: string)
    requires OneLine(id) && OneLine(name)
    ensures Frame(id, name, data) == head + "\n" && NoBlankLine(head)
  {
    hide NoBlankLine, OneLine, AllOneLine, OptionalLine, DataLines, Split, UnixNewlines;
    var lines := Split(UnixNewlines(data), '\n');
    SplitDataOneLine(data);
    PrintedLineNoBlank("id", id);
    PrintedLineNoBlank("event", name);
    DataLinesNoBlank(lines);
    NoBlankAppend(OptionalLine("id", id), OptionalLine("event", name));
    NoBlankAppend(OptionalLine("id", id) + OptionalLine("event", name), DataLines(lines));
    head := OptionalLine("id", id) + OptionalLine("event", name) + DataLines(lines);
  }

  /** Any proper part of a printed event, followed by anything without a line end, dispatches nothing. */
  lemma PartDispatchesNothing(c: Client, e: Event, k: nat, rest: string)
    requires Encodes(e) && CleanEvent(e) && k < |EventText(e)| && OneLine(rest)
    ensures ProcessAll(c, Lines(EventText(e)[..k] + rest)).messages == c.messages
  {
    var head := FrameNoBlank(Trim(e.id), Trim(e.name), DataString(e.data).value);
    assert EventText(e)[..k] == head[..k];
    hide NoBlankLine, EventText, CleanEvent, Frame, Trim, ProcessAll, Lines, OneLine;
    NoBlankPrefix(head, k);
    OneLineNoBlank(rest);
    NoBlankAppend(head[..k], rest);
    NoBlankLines(head[..k] + rest);
    NothingDispatched(c, Lines(head[..k] + rest));
  }

  /** A client that reads the first `n` events and then a proper part of the next, broken off anywhere,
      sees exactly the first `n`: no part of an event is ever dispatched. */
  lemma BrokenOffReadsWhole(events: seq<Event>, n: nat, k: nat, rest: string)
    requires n < |events| && forall i | 0 <= i < |events| :: Encodes(events[i]) && CleanEvent(events[i])
    requires k < |EventText(events[n])| && OneLine(rest) && (n == 0 && k == 0 ==> rest == "")
    ensures Parse(Body(events, n) + (EventText(events[n])[..k] + rest)) == Expected(events, n)
  {
    var tail := EventText(events[n])[..k] + rest;
    NoMarkBefore(events, n, k, rest);
    hide Encodes, CleanEvent, Body, Lines, ProcessAll, Expected, EventText, Parse;
    assert Encodes(events[n]) && CleanEvent(events[n]);
    BodyRead(events, n, tail);
    PartDispatchesNothing(ClientAfter(events, n), events[n], k, rest);
    NewClient(events);
  }

  lemma NoMarkBefore(events: seq<Event>, n: nat, k: nat, rest: string)
    requires n < |events| && forall i | 0 <= i < |events| :: Encodes(events[i])
    requires k < |EventText(events[n])| && (n == 0 && k == 0 ==> rest == "")
    ensures var text := Body(events, n) + (EventText(events[n])[..k] + rest);
            Parse(text) == ProcessAll(Client("", "", "", []), Lines(text)).messages
  {
    hide Encodes, Lines, ProcessAll, EventText;
    assert Encodes(events[n]);
    EventHead(events[n]);
    BodyHead(events, n);
    var text := Body(events, n) + (EventText(events[n])[..k] + rest);
    hide Body;
    if n == 0 {
      assert Body(events, 0) == "" by { EmptyBody(events); }
      assert text == EventText(events[n])[..k] + rest;
      if k == 0 {
        assert text == rest;
      }
    }
  }

  lemma EmptyBody(events: seq<Event>)
    ensures Body(events, 0) == ""
  {
  }

  predicate StartsAField(s: string) {
    s != "" && (s[0] == 'i' || s[0] == 'e' || s[0] == 'd')
  }

  lemma {:induction false} BodyHead(events: seq<Event>, n: nat)
    requires n <= |events| && forall i | 0 <= i < n :: Encodes(events[i])
    ensures n > 0 ==> StartsAField(Body(events, n))
  {
    hide EventText, Encodes;
    if n > 0 {
      EventHead(events[n - 1]);
      BodyHead(events, n - 1);
    }
  }

  lemma EventHead(e: Event)
    requires Encodes(e)
    ensures StartsAField(EventText(e))
  {
    hide UnixNewlines, Trim, Split;
  }

  // ----- the lines of the data -----

  lemma {:induction false} CrLfAfterLine(line: string, rest: string)
    requires OneLine(line)
    ensures ReplaceCrLf(line + rest) == line + ReplaceCrLf(rest)
  {
    if line == "" {
      assert line + rest == rest;
    } else {
      assert (line + rest)[1..] == line[1..] + rest;
      CrLfAfterLine(line[1..], rest);
    }
  }

  lemma CrAfter(a: string, b: string)
    ensures ReplaceCr(a + b) == ReplaceCr(a) + ReplaceCr(b)
  {
  }

  /** A line end of any kind becomes one "\n". */
  lemma UnixAfterLine(line: string, end: string, rest: string)
    requires OneLine(line)
    requires end == "\r\n" || end == "\n" || (end == "\r" && (rest == "" || rest[0] != '\n'))
    ensures UnixNewlines(line + end + rest) == line + "\n" + UnixNewlines(rest)
  {
    var first := if end == "\r" then "\r" else "\n";
    EndReplaced(end, rest);
    CrLfAfterLine(line, end + rest);
    CrAfter(line, first + ReplaceCrLf(rest));
    CrAfter(first, ReplaceCrLf(rest));
    CrInLine(line);
    assert ReplaceCr(first) == "\n";
    hide ReplaceCrLf, ReplaceCr, OneLine;
    Joined(line, end, rest);
    Joined(line, "\n", ReplaceCr(ReplaceCrLf(rest)));
  }

  lemma Joined(a: string, b: string, c: string)
    ensures a + b + c == a + (b + c)
  {
  }

  lemma EndReplaced(end: string, rest: string)
    requires end == "\r\n" || end == "\n" || (end == "\r" && (rest == "" || rest[0] != '\n'))
    ensures ReplaceCrLf(end + rest) == (if end == "\r" then "\r" else "\n") + ReplaceCrLf(rest)
  {
    assert (end + rest)[|end|..] == rest;
  }

  lemma CrInLine(line: string)
    requires OneLine(line)
    ensures ReplaceCr(line) == line
  {
  }

  lemma UnixOneLine(line: string)
    requires OneLine(line)
    ensures UnixNewlines(line) == line && Avoids(line, '\n')
  {
    CrLfAfterLine(line, "");
    assert line + "" == line && ReplaceCrLf("") == "";
    assert ReplaceCr(line) == line;
  }

  lemma WholeLine(data: string)
    ensures LineLength(data) == |data| ==> OneLine(data)
  {
    assert data[..|data|] == data;
  }

  /** The data text up to its first line end. */
  lemma FirstLineEnd(data: string) returns (line: string, end: string, rest: string)
    requires !OneLine(data)
    ensures OneLine(line) && data == line + end + rest
    ensures end == "\r\n" || end == "\n" || (end == "\r" && (rest == "" || rest[0] != '\n'))
  {
    var n := LineLength(data);
    WholeLine(data);
    line := data[..n];
    end := if data[n] == '\r' && n + 1 < |data| && data[n + 1] == '\n' then "\r\n" else [data[n]];
    rest := data[n + |end|..];
  }

  predicate EndsInCr(data: string) {
    data != "" && data[|data| - 1] == '\r'
  }

  /** The lines that a client finds in the data, closed by one more line end.  A final "\r" already
      ends a line, and what follows it is an empty line. */
  function DataLinesOf(data: string): seq<string> {
    if EndsInCr(data) then Lines(data) + [""] else Lines(data + "\n")
  }

  lemma EndedLineRead(line: string, end: string, rest: string)
    requires OneLine(line)
    requires end == "\r\n" || end == "\n" || (end == "\r" && (rest == "" || rest[0] != '\n'))
    ensures Lines(line + end + rest) == [line] + Lines(rest)
  {
    var s := line + end + rest;
    var n := LineLength(s);
    assert s[|line|] == end[0];
    assert forall i | 0 <= i < |line| :: s[i] == line[i];
    assert forall i | 0 <= i < n :: s[..n][i] == s[i];
    assert n == |line|;
    assert s[..n] == line && s[n + |end|..] == rest;
    if end == "\r" && rest != "" { assert s[n + 1] == rest[0]; }
    if end == "\r\n" { assert s[n + 1] == '\n'; }
  }

  /** The data is printed line by line as the standard itself divides text into lines: at each "\r\n",
      each other "\r" and each other "\n". */
  lemma {:induction false} DataDividedByStandard(data: string)
    ensures Split(UnixNewlines(data), '\n') == DataLinesOf(data)
    decreases |data|
  {
    hide UnixNewlines, Lines, Split;
    if OneLine(data) {
      UnixOneLine(data);
      SplitNothing(data);
      EndedLineRead(data, "\n", "");
      NoLines();
      assert data + "\n" + "" == data + "\n";
    } else {
      var line, end, rest := FirstLineEnd(data);
      DataDividedByStandard(rest);
      UnixAfterLine(line, end, rest);
      SplitLine(line, UnixNewlines(rest));
      if rest == "" && end == "\r" {
        EndedLineRead(line, end, rest);
        NoLines();
        assert "" + "\n" == "\n";
      } else if EndsInCr(data) {
        assert rest != "" && rest[|rest| - 1] == '\r';
        EndedLineRead(line, end, rest);
      } else {
        assert !EndsInCr(rest);
        EndedLineRead(line, end, rest + "\n");
        assert line + end + (rest + "\n") == data + "\n";
      }
    }
  }

  lemma NoLines()
    ensures Lines("") == [] && Lines("\n") == [""]
  {
    EndedLineRead("", "\n", "");
    assert "" + "\n" + "" == "\n";
  }

  lemma SplitNothing(s: string)
    requires Avoids(s, '\n')
    ensures Split(s, '\n') == [s]
  {
  }

  lemma SplitLine(line: string, rest: string)
    requires OneLine(line)
    ensures Split(line + "\n" + rest, '\n') == [line] + Split(rest, '\n')
  {
    assert forall i | 0 <= i < |line| :: !IsBreak(line[i]);
    assert line + ['\n'] + rest == line + "\n" + rest;
    SplitCons(line, rest, '\n');
  }

  /** What each kind of payload prints: text and bytes as they are, a value as it is encoded, and a
      missing payload as one empty line. */
  lemma PayloadLines(id: string, name: string, text: string)
    ensures EventText(Event(id, name, Text(text))) == Frame(Trim(id), Trim(name), text)
    ensures EventText(Event(id, name, Bytes(text))) == Frame(Trim(id), Trim(name), text)
    ensures EventText(Event(id, name, Json(Some(text)))) == Frame(Trim(id), Trim(name), text)
    ensures EventText(Event(id, name, NoData)) == OptionalLine("id", Trim(id)) + OptionalLine("event", Trim(name)) + "data: " + "\n\n"
    ensures !Encodes(Event(id, name, Json(None)))
  {
    UnixOneLine("");
    SplitNothing("");
    hide Trim, UnixNewlines, Split, OptionalLine;
    assert DataLines([""]) == "data: " + "\n";
    var a, b := OptionalLine("id", Trim(id)), OptionalLine("event", Trim(name));
    assert a + b + ("data: " + "\n") + "\n" == a + b + "data: " + "\n\n";
  }

  /** The data that a client shows for an event that reads back: the event's lines, as the standard divides
      them, joined by "\n"; so text without "\r" is shown as it is. */
  lemma ShownData(events: seq<Event>, i: nat)
    requires forall k | 0 <= k < |events| :: Encodes(events[k]) && CleanEvent(events[k])
    requires i < |events|
    ensures |Parse(Body(events, |events|))| == |events| && Encodes(events[i])
    ensures var data := DataString(events[i].data).value; var shown := Parse(Body(events, |events|))[i].data;
            shown == Join(DataLinesOf(data), "\n") && (Avoids(data, '\r') ==> shown == data)
  {
    var data := DataString(events[i].data).value;
    UnixPlain(data);
    hide Body, Parse, Encodes, CleanEvent, Expected, UnixNewlines, Split, DataLinesOf, DataString;
    CleanEventsReadBack(events);
    ExpectedData(events, |events|, i);
    DataDividedByStandard(data);
    JoinSplit(UnixNewlines(data), '\n');
  }

  lemma UnixPlain(data: string)
    ensures Avoids(data, '\r') ==> UnixNewlines(data) == data
  {
    if Avoids(data, '\r') {
      CrLfPlain(data);
    }
  }

  lemma {:induction false} CrLfPlain(data: string)
    requires Avoids(data, '\r')
    ensures ReplaceCrLf(data) == data
  {
    if data != "" {
      CrLfPlain(data[1..]);
    }
  }

  lemma {:induction false} ExpectedData(events: seq<Event>, n: nat, i: nat)
    requires i < n <= |events| && forall k | 0 <= k < n :: Encodes(events[k])
    ensures Encodes(events[i]) && Expected(events, n)[i].data == UnixNewlines(DataString(events[i].data).value)
  {
    hide Encodes, Trim, UnixNewlines;
    if i < n - 1 {
      ExpectedData(events, n - 1, i);
    }
  }

  /** Reading the printed events back gives the same events, newlines in data normalised, the
      type defaulting to "message" and the ID persisting, exactly when every trimmed name and ID
      stays on one line and no ID contains a NUL. */
  lemma PrintedEventsReadBack(events: seq<Event>)
    requires forall i | 0 <= i < |events| :: Encodes(events[i])
    ensures Parse(Body(events, |events|)) == Expected(events, |events|) <==>
            forall i | 0 <= i < |events| :: CleanEvent(events[i])
  {
    hide CleanEvent, Encodes;
    if forall i | 0 <= i < |events| :: CleanEvent(events[i]) {
      CleanEventsReadBack(events);
    } else {
      var i :| 0 <= i < |events| && !CleanEvent(events[i]);
      UncleanEventLost(events, i);
    }
  }

  lemma CleanEventsReadBack(events: seq<Event>)
    requires forall i | 0 <= i < |events| :: Encodes(events[i]) && CleanEvent(events[i])
    ensures Parse(Body(events, |events|)) == Expected(events, |events|)
  {
    var n := |events|;
    hide Encodes, CleanEvent, Body, Lines, ProcessAll, Expected;
    BodyHead(events, n);
    BodyRead(events, n, "");
    NothingToRead(ClientAfter(events, n));
    NewClient(events);
    assert Body(events, n) + "" == Body(events, n);
    NoMark(events);
  }

  lemma NothingToRead(c: Client)
    ensures ProcessAll(c, Lines("")) == c
  {
    assert Lines("") == [];
  }

  lemma NewClient(events: seq<Event>)
    ensures ClientAfter(events, 0) == Client("", "", "", [])
  {
  }

  /** The printed text does not start with a byte order mark. */
  lemma NoMark(events: seq<Event>)
    requires forall i | 0 <= i < |events| :: Encodes(events[i])
    ensures var text := Body(events, |events|); Parse(text) == ProcessAll(Client("", "", "", []), Lines(text)).messages
  {
    hide Encodes, Lines, ProcessAll;
    BodyHead(events, |events|);
    if events == [] {
      assert Body(events, 0) == "";
    }
    hide Body;
  }

  lemma {:induction false} ExpectedAt(events: seq<Event>, n: nat, i: nat)
    requires i < n <= |events| && forall k | 0 <= k < n :: Encodes(events[k])
    ensures Trim(events[i].name) != "" ==> Expected(events, n)[i].eventType == Trim(events[i].name)
    ensures Trim(events[i].id) != "" ==> Expected(events, n)[i].lastEventId == Trim(events[i].id)
  {
    hide Encodes, Trim, UnixNewlines;
    if i < n - 1 {
      ExpectedAt(events, n - 1, i);
    }
  }

  lemma UncleanEventLost(events: seq<Event>, i: nat)
    requires forall k | 0 <= k < |events| :: Encodes(events[k])
    requires i < |events| && !CleanEvent(events[i])
    ensures Parse(Body(events, |events|)) != Expected(events, |events|)
  {
    ExpectedAt(events, |events|, i);
    ParseClean(Body(events, |events|));
    hide Body, Parse, Encodes, Trim, Expected;
    assert !CleanMessage(Expected(events, |events|)[i]);
  }
}
