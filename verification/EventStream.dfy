/** The event stream format of sections 9.2.5 and 9.2.6 of the WHATWG HTML standard: how a
    client splits a stream into lines and turns the lines into messages. */
module EventStream {
  import opened Text

  const NUL: char := 0 as char
  const BOM: char := 0xFEFF as char

  /** A dispatched message: its type, its data and the last event ID at that point. */
  datatype Message = Message(eventType: string, data: string, lastEventId: string)

  /** The client's buffers and the messages dispatched so far. */
  datatype Client = Client(data: string, eventType: string, lastEventId: string, messages: seq<Message>)

  predicate IsBreak(c: char) {
    c == '\r' || c == '\n'
  }

  predicate OneLine(s: string) {
    forall i | 0 <= i < |s| :: !IsBreak(s[i])
  }

  function LineLength(s: string): (n: nat)
    ensures n <= |s| && OneLine(s[..n])
    ensures n < |s| ==> IsBreak(s[n])
  {
    if s == "" || IsBreak(s[0]) then 0 else LineLength(s[1..]) + 1
  }

  /** The terminated lines of a stream; text after the last line end is discarded. */
  function Lines(s: string): seq<string>
    decreases |s|
  {
    var n := LineLength(s);
    if n == |s| then []
    else if s[n] == '\r' && n + 1 < |s| && s[n + 1] == '\n' then [s[..n]] + Lines(s[n + 2..])
    else [s[..n]] + Lines(s[n + 1..])
  }

  function Dispatch(c: Client): Client {
    if c.data == "" then c.(eventType := "")
    else
      var data := if c.data[|c.data| - 1] == '\n' then c.data[..|c.data| - 1] else c.data;
      var eventType := if c.eventType == "" then "message" else c.eventType;
      Client("", "", c.lastEventId, c.messages + [Message(eventType, data, c.lastEventId)])
  }

  /** A `retry` field only sets the reconnection time, which no message shows. */
  function ProcessField(c: Client, field: string, value: string): Client {
    if field == "event" then c.(eventType := value)
    else if field == "data" then c.(data := c.data + value + "\n")
    else if field == "id" then (if Avoids(value, NUL) then c.(lastEventId := value) else c)
    else c
  }

  function ProcessLine(c: Client, line: string): Client {
    if line == "" then Dispatch(c)
    else if Avoids(line, ':') then ProcessField(c, line, "")
    else
      var i := IndexOf(line, ':');
      if i == 0 then c
      else
        var value := line[i + 1..];
        ProcessField(c, line[..i], if value != "" && value[0] == ' ' then value[1..] else value)
  }

  function ProcessAll(c: Client, lines: seq<string>): Client
    decreases |lines|
  {
    if lines == [] then c else ProcessAll(ProcessLine(c, lines[0]), lines[1..])
  }

  /** The messages a client dispatches for a complete stream. */
  function Parse(stream: string): seq<Message> {
    var text := if stream != "" && stream[0] == BOM then stream[1..] else stream;
    ProcessAll(Client("", "", "", []), Lines(text)).messages
  }

  // ----- facts about the client -----

  lemma LineThenRest(line: string, rest: string)
    requires OneLine(line)
    ensures Lines(line + "\n" + rest) == [line] + Lines(rest)
  {
    var s := line + "\n" + rest;
    var n := LineLength(s);
    assert s[|line|] == '\n';
    assert forall i | 0 <= i < |line| :: s[i] == line[i];
    assert forall i | 0 <= i < n :: s[..n][i] == s[i];
    assert n == |line|;
    assert s[..n] == line && s[n + 1..] == rest;
  }

  lemma {:induction false} ProcessAppend(c: Client, a: seq<string>, b: seq<string>)
    ensures ProcessAll(c, a + b) == ProcessAll(ProcessAll(c, a), b)
    decreases |a|
  {
    if a == [] {
      assert a + b == b;
    } else {
      assert (a + b)[1..] == a[1..] + b;
      ProcessAppend(ProcessLine(c, a[0]), a[1..], b);
    }
  }

  /** A printed field line reads back as its field and value. */
  lemma ProcessPrinted(c: Client, field: string, value: string)
    requires field != "" && Avoids(field, ':')
    ensures ProcessLine(c, field + ": " + value) == ProcessField(c, field, value)
  {
    var line := field + ": " + value;
    assert line[|field|] == ':';
    assert line[..|field|] == field;
    IndexOfUnique(line, ':', |field|);
    assert line[|field| + 1..] == " " + value;
    assert (" " + value)[1..] == value;
  }

  /** Nothing a client shows as type or ID spans lines, and no ID contains a NUL. */
  predicate CleanMessage(m: Message) {
    OneLine(m.eventType) && OneLine(m.lastEventId) && Avoids(m.lastEventId, NUL)
  }

  predicate CleanClient(c: Client) {
    && OneLine(c.eventType) && OneLine(c.lastEventId) && Avoids(c.lastEventId, NUL)
    && forall i | 0 <= i < |c.messages| :: CleanMessage(c.messages[i])
  }

  lemma ProcessLineClean(c: Client, line: string)
    requires CleanClient(c) && OneLine(line)
    ensures CleanClient(ProcessLine(c, line))
  {
    if line != "" && !Avoids(line, ':') {
      var i := IndexOf(line, ':');
      assert OneLine(line[i + 1..]) && OneLine(line[i + 1..][if i + 1 < |line| then 1 else 0..]);
    }
  }

  lemma {:induction false} ProcessAllClean(c: Client, lines: seq<string>)
    requires CleanClient(c) && forall i | 0 <= i < |lines| :: OneLine(lines[i])
    ensures CleanClient(ProcessAll(c, lines))
    decreases |lines|
  {
    if lines != [] {
      ProcessLineClean(c, lines[0]);
      ProcessAllClean(ProcessLine(c, lines[0]), lines[1..]);
    }
  }

  lemma {:induction false} LinesOneLine(s: string)
    ensures forall i | 0 <= i < |Lines(s)| :: OneLine(Lines(s)[i])
    decreases |s|
  {
    var n := LineLength(s);
    if n < |s| {
      LinesOneLine(s[n + 1..]);
      if n + 1 < |s| { LinesOneLine(s[n + 2..]); }
    }
  }

  lemma ParseClean(stream: string)
    ensures forall i | 0 <= i < |Parse(stream)| :: CleanMessage(Parse(stream)[i])
  {
    var text := if stream != "" && stream[0] == BOM then stream[1..] else stream;
    LinesOneLine(text);
    ProcessAllClean(Client("", "", "", []), Lines(text));
  }
}
