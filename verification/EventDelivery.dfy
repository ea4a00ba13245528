/** Event streams behind a size limit: which events a client sees when the printed bytes are cut off
    (`runtime/sse.go` with `runtime/response_limits.go`). */
module EventDelivery {
  import opened Text
  import opened Bytes
  import opened EventStream
  import opened Sse
  import Utf8
  import Limits = ResponseLimits

  predicate AllClean(events: seq<Event>) {
    forall i | 0 <= i < |events| :: Encodes(events[i]) && CleanEvent(events[i])
  }

  /** The bytes printed for the first `n` events. */
  function BodyBytes(events: seq<Event>, n: nat): seq<Byte>
    requires AllClean(events) && n <= |events|
  {
    Utf8.Encode(Body(events, n))
  }

  /** The most leading events whose bytes fit the budget. */
  function WholeEvents(events: seq<Event>, n: nat, budget: nat): (m: nat)
    requires AllClean(events) && n <= |events|
    ensures m <= n && |BodyBytes(events, m)| <= budget
    ensures m < n ==> |BodyBytes(events, m + 1)| > budget
  {
    NoBytes(events);
    if n == 0 || |BodyBytes(events, n)| <= budget then n else WholeEvents(events, n - 1, budget)
  }

  /** The messages of the first `n` events. */
  function MessagesOf(events: seq<Event>, n: nat): seq<Message>
    requires AllClean(events) && n <= |events|
  {
    Expected(events, n)
  }

  /** What a client makes of received bytes. */
  function ClientSees(bytes: seq<Byte>): seq<Message> {
    Parse(Utf8.DecodeReplacing(bytes))
  }

  lemma {:induction false} BodyExtends(events: seq<Event>, m: nat, n: nat) returns (more: string)
    requires AllClean(events) && m <= n <= |events|
    ensures Body(events, n) == Body(events, m) + more
  {
    hide EventText, Encodes, CleanEvent;
    if m == n {
      more := "";
    } else {
      more := BodyExtends(events, m, n - 1);
      assert Body(events, n) == Body(events, m) + (more + EventText(events[n - 1]));
      more := more + EventText(events[n - 1]);
    }
  }

  /** The cut falls into the first event that does not fit. */
  lemma CutFalls(events: seq<Event>, m: nat, budget: nat)
    requires AllClean(events) && m < |events|
    requires |BodyBytes(events, m)| <= budget < |BodyBytes(events, m + 1)|
    ensures budget <= |BodyBytes(events, |events|)|
    ensures Encodes(events[m])
    ensures var j := budget - |BodyBytes(events, m)|; var next := Utf8.Encode(EventText(events[m]));
            j < |next| && BodyBytes(events, |events|)[..budget] == BodyBytes(events, m) + next[..j]
  {
    hide EventText, CleanEvent, Utf8.Encode;
    assert Encodes(events[m]);
    var more := BodyExtends(events, m + 1, |events|);
    var text := EventText(events[m]);
    assert Body(events, m + 1) == Body(events, m) + text;
    hide Encodes, Body;
    Utf8.EncodeAppend(Body(events, m), text);
    Utf8.EncodeAppend(Body(events, m + 1), more);
    Cut(BodyBytes(events, m), Utf8.Encode(text), Utf8.Encode(more), budget);
  }

  lemma Cut(a: seq<Byte>, b: seq<Byte>, c: seq<Byte>, n: nat)
    requires |a| <= n < |a| + |b|
    ensures (a + b + c)[..n] == a + b[..n - |a|]
  {
  }

  /** Decoding leaves complete characters alone and makes of a broken one text without a line end. */
  lemma CutDecodes(before: string, text: string, j: nat) returns (k: nat, rest: string)
    requires j < |Utf8.Encode(text)|
    ensures k < |text| && OneLine(rest) && (rest != "" ==> text[k] as int >= 0x80)
    ensures Utf8.DecodeReplacing(Utf8.Encode(before) + Utf8.Encode(text)[..j]) == before + (text[..k] + rest)
  {
    hide Utf8.Encode, Utf8.DecodeReplacing;
    var cut: seq<Byte>;
    k, cut := Utf8.PrefixDecodes(text, j);
    Utf8.DecodedNotAscii(cut);
    rest := Utf8.DecodeReplacing(cut);
    NothingDecoded(cut);
    Utf8.EncodeAppend(before, text[..k]);
    Utf8.DecodeReplacingAfter(before + text[..k], cut);
    Grouped(Utf8.Encode(before), Utf8.Encode(text[..k]), cut);
    Grouped(before, text[..k], rest);
  }

  lemma Grouped<T>(a: seq<T>, b: seq<T>, c: seq<T>)
    ensures a + b + c == a + (b + c)
  {
  }

  /** Bytes cut off inside an event, even inside one of its characters, show the events before it. */
  lemma CutReadsWhole(events: seq<Event>, m: nat, j: nat)
    requires AllClean(events) && m < |events| && Encodes(events[m]) && j < |Utf8.Encode(EventText(events[m]))|
    ensures ClientSees(BodyBytes(events, m) + Utf8.Encode(EventText(events[m]))[..j]) == MessagesOf(events, m)
  {
    EventHead(events[m]);
    hide EventText, Encodes, CleanEvent, Body, Utf8.Encode, Utf8.DecodeReplacing, Parse, Expected, OneLine;
    var k, rest := CutDecodes(Body(events, m), EventText(events[m]), j);
    BrokenOffReadsWhole(events, m, k, rest);
  }

  lemma NothingDecoded(cut: seq<Byte>)
    ensures cut == [] ==> Utf8.DecodeReplacing(cut) == ""
  {
  }

  lemma AllReadsWhole(events: seq<Event>)
    requires AllClean(events)
    ensures ClientSees(BodyBytes(events, |events|)) == MessagesOf(events, |events|)
  {
    hide Encodes, CleanEvent, Body, Utf8.Encode, Parse, Expected;
    var text := Body(events, |events|);
    Utf8.DecodeReplacingAfter(text, []);
    NothingDecoded([]);
    assert Utf8.Encode(text) + [] == Utf8.Encode(text) && text + "" == text;
    CleanEventsReadBack(events);
  }

  /** Of a printed event stream cut off at the budget, wherever the cut falls, a client sees exactly the
      leading events that fit whole; something is cut off exactly when not all do. */
  lemma DeliveredEvents(events: seq<Event>, budget: nat)
    requires AllClean(events)
    ensures var total := BodyBytes(events, |events|); var m := WholeEvents(events, |events|, budget);
            && ClientSees(if |total| <= budget then total else total[..budget]) == MessagesOf(events, m)
            && (|total| > budget <==> m < |events|)
  {
    var m := WholeEvents(events, |events|, budget);
    hide AllClean, Encodes, CleanEvent, BodyBytes, MessagesOf, ClientSees, WholeEvents;
    if m == |events| {
      AllReadsWhole(events);
    } else {
      CutOff(events, m, budget);
    }
  }

  /** The same for `limitBodyReader` on a reader that yields the printed events, however it splits them:
      the too-large error comes exactly when not all events fit. */
  method ReadEvents(events: seq<Event>, source: seq<Limits.ReadResult>, limiter: Limits.ResponseSizeLimiter)
    returns (delivered: seq<Byte>, end: Limits.ReaderEnd)
    requires AllClean(events)
    requires Limits.SourceBytes(source) == BodyBytes(events, |events|) && Limits.SourceEnd(source) == Limits.Closed
    modifies limiter
    ensures var m := WholeEvents(events, |events|, old(limiter.State().Budget()));
            && ClientSees(delivered) == MessagesOf(events, m)
            && end == if m < |events| then Limits.TooLarge else Limits.Closed
  {
    hide AllClean, BodyBytes, MessagesOf, ClientSees, WholeEvents, Limits.SourceBytes, Limits.SourceEnd;
    DeliveredEvents(events, limiter.State().Budget());
    delivered, end := Limits.LimitBodyReader(source, limiter);
  }

  lemma CutOff(events: seq<Event>, m: nat, budget: nat)
    requires AllClean(events) && m < |events|
    requires |BodyBytes(events, m)| <= budget < |BodyBytes(events, m + 1)|
    ensures budget < |BodyBytes(events, |events|)|
    ensures ClientSees(BodyBytes(events, |events|)[..budget]) == MessagesOf(events, m)
  {
    hide AllClean, Encodes, CleanEvent, BodyBytes, ClientSees, EventText, Utf8.Encode, MessagesOf;
    Longer(events, m);
    CutFalls(events, m, budget);
    CutReadsWhole(events, m, budget - |BodyBytes(events, m)|);
  }

  lemma NoBytes(events: seq<Event>)
    requires AllClean(events)
    ensures BodyBytes(events, 0) == []
  {
  }

  lemma Longer(events: seq<Event>, m: nat)
    requires AllClean(events) && m < |events|
    ensures |BodyBytes(events, m + 1)| <= |BodyBytes(events, |events|)|
  {
    hide Encodes, CleanEvent, Body, Utf8.Encode;
    var more := BodyExtends(events, m + 1, |events|);
    Utf8.EncodeAppend(Body(events, m + 1), more);
  }
}
