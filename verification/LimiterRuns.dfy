/** The two goroutines that share one response limiter, as atomic steps under an arbitrary
    schedule (`runtime/response_limits.go:76-148`). */
module LimiterRuns {
  import opened Text
  import opened Bytes
  import opened ResponseLimits

  /** Where the reader goroutine stands: before a `Read`, between the `Read` and the limiter's
      lock, between the lock and the pipe write, or finished. */
  datatype ReaderPc =
    | Reading
    | Consuming(data: seq<Byte>, status: ReadStatus)
    | Writing(chunk: seq<Byte>, overflow: bool, next: ReadStatus)
    | ReaderDone(end: ReaderEnd)

  /** Where the stream goroutine stands. */
  datatype StreamPc =
    | Receiving
    | Deciding(bytes: seq<Byte>)
    | Sending(out: StreamChunk, last: bool)
    | StreamDone

  /** Both goroutines, what they still have to read, what the limiter granted them and what
      they passed on. */
  datatype System = System(
    limiter: Limiter,
    reader: ReaderPc, readerTodo: seq<ReadResult>, granted: seq<Byte>, delivered: seq<Byte>,
    stream: StreamPc, streamTodo: seq<StreamChunk>, admitted: seq<StreamChunk>, sent: seq<StreamChunk>)

  /** Who moves; in a reader step that loses its pipe, the read end is closed after `taken` bytes of
      the pending write. */
  datatype Move = ReaderMoves | ReaderLoses(taken: nat) | StreamMoves

  function Start(max: int, bodyLength: nat, results: seq<ReadResult>, chunks: seq<StreamChunk>): System {
    System(Limiter(max, bodyLength, false), Reading, results, [], [], Receiving, chunks, [], [])
  }

  function AfterWrite(status: ReadStatus): ReaderPc {
    match status
    case More => Reading
    case Eof => ReaderDone(Closed)
    case Failed(e) => ReaderDone(SourceError(e))
  }

  /** A write that its reader leaves unfinished ends the goroutine. */
  function ReaderStep(s: System, closedAfter: Option<nat>): System {
    match s.reader
    case Reading =>
      if s.readerTodo == [] then s
      else s.(reader := Consuming(s.readerTodo[0].data, s.readerTodo[0].status), readerTodo := s.readerTodo[1..])
    case Consuming(data, status) =>
      if |data| == 0 then s.(reader := AfterWrite(status))
      else
        var (limiter, emit, overflow) := s.limiter.ConsumeReader(|data|);
        s.(limiter := limiter, granted := s.granted + data[..emit], reader := Writing(data[..emit], overflow, status))
    case Writing(chunk, overflow, status) =>
      if closedAfter.Some? && closedAfter.value < |chunk| then
        s.(delivered := s.delivered + chunk[..closedAfter.value], reader := ReaderDone(Abandoned))
      else s.(delivered := s.delivered + chunk, reader := if overflow then ReaderDone(TooLarge) else AfterWrite(status))
    case ReaderDone(_) => s
  }

  function StreamStep(s: System): System {
    match s.stream
    case Receiving =>
      if s.streamTodo == [] then s.(stream := StreamDone)
      else
        var chunk, rest := s.streamTodo[0], s.streamTodo[1..];
        if chunk.error.Some? then s.(streamTodo := rest, stream := Sending(chunk, true))
        else if |chunk.bytes| == 0 then s.(streamTodo := rest, admitted := s.admitted + [chunk], stream := Sending(Data([]), false))
        else s.(streamTodo := rest, stream := Deciding(chunk.bytes))
    case Deciding(bytes) =>
      var (limiter, ok) := s.limiter.AllowChunk(|bytes|);
      if ok then s.(limiter := limiter, admitted := s.admitted + [Data(bytes)], stream := Sending(Data(bytes), false))
      else s.(limiter := limiter, stream := Sending(Error(ResponseTooLarge), true))
    case Sending(chunk, last) =>
      s.(sent := s.sent + [chunk], stream := if last then StreamDone else Receiving)
    case StreamDone => s
  }

  function Next(s: System, move: Move): System {
    match move
    case ReaderMoves => ReaderStep(s, None)
    case ReaderLoses(taken) => ReaderStep(s, Some(taken))
    case StreamMoves => StreamStep(s)
  }

  /** The state after a schedule: every interleaving is one. */
  function Run(s: System, schedule: seq<Move>): System {
    if schedule == [] then s else Next(Run(s, schedule[..|schedule| - 1]), schedule[|schedule| - 1])
  }

  // ----- what every step keeps -----

  /** The accounting: nothing is granted that the counter has not recorded, and the counter
      never passes the maximum. */
  ghost predicate Accounted(s: System, max: int, bodyLength: nat) {
    && s.limiter.max == max && s.limiter.emitted == bodyLength + |s.granted| + Size(s.admitted)
    && s.limiter.emitted <= max
  }

  /** The reader has passed on, in order, what its source gave it. */
  ghost predicate ReaderFaithful(s: System, results: seq<ReadResult>) {
    var total := SourceBytes(results);
    var end := SourceEnd(results);
    match s.reader
    case Reading =>
      s.granted == s.delivered && s.delivered + SourceBytes(s.readerTodo) == total && SourceEnd(s.readerTodo) == end
    case Consuming(data, status) =>
      && s.granted == s.delivered && s.delivered + data + BytesAfter(status, s.readerTodo) == total
      && EndAfter(status, s.readerTodo) == end
    case Writing(chunk, overflow, status) =>
      && s.granted == s.delivered + chunk
      && (if overflow then s.limiter.tripped && s.granted < total
          else s.granted + BytesAfter(status, s.readerTodo) == total && EndAfter(status, s.readerTodo) == end)
    case ReaderDone(TooLarge) => s.limiter.tripped && s.granted == s.delivered && s.granted < total
    case ReaderDone(Abandoned) => s.delivered <= s.granted <= total
    case ReaderDone(e) => s.granted == s.delivered == total && e == end
  }

  /** What the stream goroutine has sent: the admitted chunks, then perhaps an erroring one. */
  ghost predicate StreamFaithful(s: System, chunks: seq<StreamChunk>) {
    && (forall i | 0 <= i < |s.admitted| :: s.admitted[i].error.None?)
    && match s.stream
       case Receiving => s.sent == s.admitted && s.admitted + s.streamTodo == chunks
       case Deciding(bytes) => s.sent == s.admitted && bytes != [] && s.admitted + [Data(bytes)] + s.streamTodo == chunks
       case Sending(chunk, false) => chunk.error.None? && s.admitted == s.sent + [chunk] && s.admitted + s.streamTodo == chunks
       case Sending(chunk, true) => s.sent == s.admitted && EndsAt(s, chunks, chunk)
       case StreamDone => (s.sent == s.admitted == chunks) || EndedWithError(s, chunks)
  }

  /** The stream stops after the admitted chunks with this chunk: its source's own erroring one, or
      the too-large error because the next chunk did not fit. */
  ghost predicate EndsAt(s: System, chunks: seq<StreamChunk>, chunk: StreamChunk) {
    && chunk.error.Some? && s.admitted < chunks
    && (|| chunks[|s.admitted|] == chunk
        || (chunk == Error(ResponseTooLarge) && s.limiter.tripped && chunks[|s.admitted|].error.None?))
  }

  ghost predicate EndedWithError(s: System, chunks: seq<StreamChunk>) {
    && |s.sent| == |s.admitted| + 1
    && s.sent == s.admitted + [s.sent[|s.admitted|]]
    && EndsAt(s, chunks, s.sent[|s.admitted|])
  }

  ghost predicate Inv(s: System, max: int, bodyLength: nat, results: seq<ReadResult>, chunks: seq<StreamChunk>) {
    Accounted(s, max, bodyLength) && ReaderFaithful(s, results) && StreamFaithful(s, chunks)
  }

  lemma StartInv(max: int, bodyLength: nat, results: seq<ReadResult>, chunks: seq<StreamChunk>)
    requires bodyLength <= max
    ensures Inv(Start(max, bodyLength, results, chunks), max, bodyLength, results, chunks)
  {
  }

  /** A goroutine's own facts survive a step of the other, which can only trip the limiter. */
  lemma ReaderUntouched(s: System, t: System, results: seq<ReadResult>)
    requires ReaderFaithful(s, results)
    requires t.reader == s.reader && t.readerTodo == s.readerTodo && t.granted == s.granted && t.delivered == s.delivered
    requires s.limiter.tripped ==> t.limiter.tripped
    ensures ReaderFaithful(t, results)
  {
  }

  lemma StreamUntouched(s: System, t: System, chunks: seq<StreamChunk>)
    requires StreamFaithful(s, chunks)
    requires t.stream == s.stream && t.streamTodo == s.streamTodo && t.admitted == s.admitted && t.sent == s.sent
    requires s.limiter.tripped ==> t.limiter.tripped
    ensures StreamFaithful(t, chunks)
  {
    assert forall e :: EndsAt(s, chunks, e) ==> EndsAt(t, chunks, e);
  }

  lemma ReaderConsumes(s: System, max: int, bodyLength: nat, results: seq<ReadResult>)
    requires s.reader.Consuming? && |s.reader.data| > 0
    requires Accounted(s, max, bodyLength) && ReaderFaithful(s, results)
    ensures var t := ReaderStep(s, None); Accounted(t, max, bodyLength) && ReaderFaithful(t, results)
  {
    var data, status, total := s.reader.data, s.reader.status, SourceBytes(results);
    var emit := s.limiter.ConsumeReader(|data|).1;
    PartTaken(s.delivered, data, emit, BytesAfter(status, s.readerTodo), total);
  }

  lemma ReaderStepKeeps(s: System, closedAfter: Option<nat>, max: int, bodyLength: nat, results: seq<ReadResult>, chunks: seq<StreamChunk>)
    requires Inv(s, max, bodyLength, results, chunks)
    ensures Inv(ReaderStep(s, closedAfter), max, bodyLength, results, chunks)
  {
    hide StreamFaithful;
    var t := ReaderStep(s, closedAfter);
    StreamUntouched(s, t, chunks);
    if s.reader.Consuming? && |s.reader.data| > 0 {
      ReaderConsumes(s, max, bodyLength, results);
    } else if s.reader.Writing? {
      assert s.delivered + s.reader.chunk == s.granted;
    }
  }

  lemma StreamReceives(s: System, chunks: seq<StreamChunk>)
    requires s.stream == Receiving && s.streamTodo != [] && StreamFaithful(s, chunks)
    ensures StreamFaithful(StreamStep(s), chunks)
    ensures Size(StreamStep(s).admitted) == Size(s.admitted)
  {
    var chunk := s.streamTodo[0];
    SizeAppend(s.admitted, [chunk]);
    assert s.streamTodo == [chunk] + s.streamTodo[1..];
    assert chunks[|s.admitted|] == chunk;
    if chunk.error.None? && chunk.bytes == [] {
      assert chunk == Data([]);
    }
  }

  lemma StreamDecides(s: System, max: int, bodyLength: nat, chunks: seq<StreamChunk>)
    requires s.stream.Deciding? && StreamFaithful(s, chunks) && Accounted(s, max, bodyLength)
    ensures StreamFaithful(StreamStep(s), chunks) && Accounted(StreamStep(s), max, bodyLength)
  {
    var chunk := Data(s.stream.bytes);
    SizeAppend(s.admitted, [chunk]);
    assert chunks[|s.admitted|] == chunk;
  }

  lemma StreamSends(s: System, chunks: seq<StreamChunk>)
    requires s.stream.Sending? && StreamFaithful(s, chunks)
    ensures StreamFaithful(StreamStep(s), chunks)
  {
    var t := StreamStep(s);
    if s.stream.last {
      assert EndsAt(t, chunks, s.stream.out);
      assert t.sent[|t.admitted|] == s.stream.out;
    }
  }

  lemma StreamStepKeeps(s: System, max: int, bodyLength: nat, results: seq<ReadResult>, chunks: seq<StreamChunk>)
    requires Inv(s, max, bodyLength, results, chunks)
    ensures Inv(StreamStep(s), max, bodyLength, results, chunks)
  {
    var t := StreamStep(s);
    ReaderUntouched(s, t, results);
    hide ReaderFaithful;
    match s.stream
    case Receiving =>
      if s.streamTodo != [] { StreamReceives(s, chunks); hide StreamFaithful; }
      else { assert s.admitted == chunks; }
    case Deciding(_) => StreamDecides(s, max, bodyLength, chunks);
    case Sending(_, _) => StreamSends(s, chunks);
    case StreamDone =>
  }

  /** Every state of every interleaving satisfies the invariant. */
  lemma {:induction false} RunInv(
    max: int, bodyLength: nat, results: seq<ReadResult>, chunks: seq<StreamChunk>, schedule: seq<Move>)
    requires bodyLength <= max
    ensures Inv(Run(Start(max, bodyLength, results, chunks), schedule), max, bodyLength, results, chunks)
  {
    if schedule == [] {
      StartInv(max, bodyLength, results, chunks);
    } else {
      var before := schedule[..|schedule| - 1];
      RunInv(max, bodyLength, results, chunks, before);
      var s := Run(Start(max, bodyLength, results, chunks), before);
      match schedule[|schedule| - 1]
      case ReaderMoves => ReaderStepKeeps(s, None, max, bodyLength, results, chunks);
      case ReaderLoses(taken) => ReaderStepKeeps(s, Some(taken), max, bodyLength, results, chunks);
      case StreamMoves => StreamStepKeeps(s, max, bodyLength, results, chunks);
    }
  }

  // ----- safety over whole runs -----

  /** The body and what the limiter grants both sources never exceed the maximum; neither does what
      they pass on before the stream's last, erroring chunk; and each source passes on a prefix of
      its own data. */
  lemma NeverExceedsMax(
    max: int, bodyLength: nat, results: seq<ReadResult>, chunks: seq<StreamChunk>, schedule: seq<Move>)
    requires bodyLength <= max
    ensures var s := Run(Start(max, bodyLength, results, chunks), schedule);
            && bodyLength + |s.granted| + Size(s.admitted) <= max
            && bodyLength + |s.delivered| + Size(DataChunks(s.sent)) <= max
            && s.delivered <= SourceBytes(results)
            && DataChunks(s.sent) <= chunks
  {
    RunInv(max, bodyLength, results, chunks, schedule);
    var s := Run(Start(max, bodyLength, results, chunks), schedule);
    hide Run, Size, DataChunks, SourceBytes;
    DeliveredIsGranted(s, results);
    SentIsAdmitted(s, chunks);
    hide ReaderFaithful, StreamFaithful;
    var sent := DataChunks(s.sent);
    SizeMonotone(s.admitted, |sent|, |s.admitted|);
    assert s.admitted[..|s.admitted|] == s.admitted && s.admitted[..|sent|] == sent;
  }

  lemma DeliveredIsGranted(s: System, results: seq<ReadResult>)
    requires ReaderFaithful(s, results)
    ensures s.delivered <= s.granted <= SourceBytes(results)
  {
    hide SourceBytes, SourceEnd;
  }

  lemma SentIsAdmitted(s: System, chunks: seq<StreamChunk>)
    requires StreamFaithful(s, chunks)
    ensures DataChunks(s.sent) <= s.admitted <= chunks
  {
    AllData(s.admitted);
    match s.stream
    case Sending(chunk, last) =>
      assert s.sent <= s.admitted;
      DataPrefix(s.admitted, |s.sent|);
    case StreamDone =>
      if s.sent != s.admitted {
        DataThenError(s.admitted, s.sent[|s.admitted|]);
      }
    case _ =>
  }

  lemma AllData(chunks: seq<StreamChunk>)
    requires forall i | 0 <= i < |chunks| :: chunks[i].error.None?
    ensures DataChunks(chunks) == chunks
  {
  }

  lemma TrippedStep(s: System, move: Move)
    requires s.limiter.tripped
    ensures var t := Next(s, move);
            t.limiter.tripped && t.granted == s.granted && Size(t.admitted) == Size(s.admitted)
  {
    if s.stream == Receiving && s.streamTodo != [] && s.streamTodo[0].error.None? {
      SizeAppend(s.admitted, [s.streamTodo[0]]);
    }
  }

  /** Once the limiter has tripped it stays tripped, and nothing non-empty is granted any more. */
  lemma {:induction false} TrippedFreezes(s: System, schedule: seq<Move>)
    requires s.limiter.tripped
    ensures var t := Run(s, schedule);
            t.limiter.tripped && t.granted == s.granted && Size(t.admitted) == Size(s.admitted)
  {
    hide Next, Size;
    if schedule != [] {
      TrippedFreezes(s, schedule[..|schedule| - 1]);
      TrippedStep(Run(s, schedule[..|schedule| - 1]), schedule[|schedule| - 1]);
    }
  }

  ghost function Demand(bodyLength: nat, results: seq<ReadResult>, chunks: seq<StreamChunk>): nat {
    bodyLength + |SourceBytes(results)| + Size(DataChunks(chunks))
  }

  lemma PrefixSize(prefix: seq<StreamChunk>, chunks: seq<StreamChunk>)
    requires prefix <= chunks && forall i | 0 <= i < |prefix| :: prefix[i].error.None?
    ensures prefix <= DataChunks(chunks) && Size(prefix) <= Size(DataChunks(chunks))
  {
    var data := DataChunks(chunks);
    assert forall i | 0 <= i < |prefix| :: chunks[i] == prefix[i];
    assert |prefix| <= |data|;
    assert data[..|prefix|] == prefix && data[..|data|] == data;
    SizeMonotone(data, |prefix|, |data|);
  }

  lemma FittingStepKeeps(s: System, move: Move, max: int, bodyLength: nat, results: seq<ReadResult>, chunks: seq<StreamChunk>)
    requires Inv(s, max, bodyLength, results, chunks) && !s.limiter.tripped
    requires Demand(bodyLength, results, chunks) <= max
    ensures !Next(s, move).limiter.tripped
  {
    PrefixSize(s.admitted, chunks) by { AdmittedPrefix(s, chunks); }
    var total := SourceBytes(results);
    match move
    case StreamMoves =>
      if s.stream.Deciding? {
        assert |s.granted| <= |total| by { hide StreamFaithful; }
        FittingChunk(s, chunks);
      }
    case _ =>
      hide StreamFaithful;
      if s.reader.Consuming? {
        assert |s.granted| + |s.reader.data| <= |total|;
      }
  }

  lemma AdmittedPrefix(s: System, chunks: seq<StreamChunk>)
    requires StreamFaithful(s, chunks)
    ensures s.admitted <= chunks
  {
  }

  lemma FittingChunk(s: System, chunks: seq<StreamChunk>)
    requires s.stream.Deciding? && StreamFaithful(s, chunks)
    ensures Size(s.admitted) + |s.stream.bytes| <= Size(DataChunks(chunks))
  {
    var more := s.admitted + [Data(s.stream.bytes)];
    PrefixSize(more, chunks);
    SizeAppend(s.admitted, [Data(s.stream.bytes)]);
  }

  /** The limiter trips in some state of an interleaving only if the two sources and the body
      together demand more than the maximum. */
  lemma {:induction false} FittingNeverTrips(
    max: int, bodyLength: nat, results: seq<ReadResult>, chunks: seq<StreamChunk>, schedule: seq<Move>)
    requires Demand(bodyLength, results, chunks) <= max
    ensures !Run(Start(max, bodyLength, results, chunks), schedule).limiter.tripped
  {
    if schedule != [] {
      var before := schedule[..|schedule| - 1];
      FittingNeverTrips(max, bodyLength, results, chunks, before);
      RunInv(max, bodyLength, results, chunks, before);
      FittingStepKeeps(Run(Start(max, bodyLength, results, chunks), before), schedule[|schedule| - 1],
                       max, bodyLength, results, chunks);
    }
  }

  /** A tripped limiter shows: a goroutine is about to report it, has reported it, or lost its pipe. */
  ghost predicate TripShows(s: System) {
    s.limiter.tripped ==>
      || (s.reader.Writing? && s.reader.overflow)
      || s.reader == ReaderDone(TooLarge) || s.reader == ReaderDone(Abandoned)
      || s.stream == Sending(Error(ResponseTooLarge), true)
      || (s.stream == StreamDone && s.sent != [] && s.sent[|s.sent| - 1] == Error(ResponseTooLarge))
  }

  lemma StartShows(max: int, bodyLength: nat, results: seq<ReadResult>, chunks: seq<StreamChunk>)
    ensures TripShows(Start(max, bodyLength, results, chunks))
  {
  }

  lemma TripShowsStep(s: System, move: Move)
    requires TripShows(s)
    ensures TripShows(Next(s, move))
  {
  }

  lemma {:induction false} TripShown(
    max: int, bodyLength: nat, results: seq<ReadResult>, chunks: seq<StreamChunk>, schedule: seq<Move>)
    ensures TripShows(Run(Start(max, bodyLength, results, chunks), schedule))
  {
    hide Next, TripShows;
    if schedule == [] {
      StartShows(max, bodyLength, results, chunks);
    } else {
      var before := schedule[..|schedule| - 1];
      TripShown(max, bodyLength, results, chunks, before);
      TripShowsStep(Run(Start(max, bodyLength, results, chunks), before), schedule[|schedule| - 1]);
    }
  }

  /** When both goroutines have finished and nobody closed the pipe early: the limiter tripped
      exactly if the demand exceeded the maximum.  If it did, at least one consumer received the
      too-large error; if not, both received everything and the sources' own endings, whatever the
      interleaving. */
  lemma FinishedRun(
    max: int, bodyLength: nat, results: seq<ReadResult>, chunks: seq<StreamChunk>, schedule: seq<Move>)
    requires bodyLength <= max
    ensures var s := Run(Start(max, bodyLength, results, chunks), schedule);
            s.reader.ReaderDone? && s.reader.end != Abandoned && s.stream == StreamDone ==>
              && (s.limiter.tripped <==> Demand(bodyLength, results, chunks) > max)
              && (s.limiter.tripped ==>
                    s.reader.end == TooLarge || (s.sent != [] && s.sent[|s.sent| - 1] == Error(ResponseTooLarge)))
              && (!s.limiter.tripped ==>
                    && s.delivered == SourceBytes(results) && s.reader.end == SourceEnd(results)
                    && s.sent == if |DataChunks(chunks)| < |chunks| then chunks[..|DataChunks(chunks)| + 1] else chunks)
  {
    RunInv(max, bodyLength, results, chunks, schedule);
    TripShown(max, bodyLength, results, chunks, schedule);
    var s := Run(Start(max, bodyLength, results, chunks), schedule);
    if Demand(bodyLength, results, chunks) <= max {
      FittingNeverTrips(max, bodyLength, results, chunks, schedule);
    }
    hide Run;
    if s.stream == StreamDone && !s.limiter.tripped {
      UntrippedStream(s, chunks);
    }
  }

  lemma UntrippedStream(s: System, chunks: seq<StreamChunk>)
    requires StreamFaithful(s, chunks) && s.stream == StreamDone && !s.limiter.tripped
    ensures s.admitted == DataChunks(chunks)
    ensures s.sent == if |DataChunks(chunks)| < |chunks| then chunks[..|DataChunks(chunks)| + 1] else chunks
  {
    if s.sent == s.admitted == chunks {
      AllData(chunks);
    } else {
      AdmittedBeforeError(s.admitted, chunks);
    }
  }

  lemma AdmittedBeforeError(admitted: seq<StreamChunk>, chunks: seq<StreamChunk>)
    requires admitted < chunks && chunks[|admitted|].error.Some?
    requires forall i | 0 <= i < |admitted| :: admitted[i].error.None?
    ensures admitted == DataChunks(chunks)
  {
    PrefixSize(admitted, chunks);
  }

  // ----- the bytes of an erroring chunk -----

  /** The erroring chunk of the stream's source, which some schedule reaches if body and stream data
      fit, either carries no bytes or has room for them beside everything else. */
  ghost predicate ErrorChunkHasRoom(max: int, bodyLength: nat, results: seq<ReadResult>, chunks: seq<StreamChunk>) {
    var data := DataChunks(chunks);
    |data| < |chunks| && bodyLength + Size(data) <= max ==>
      chunks[|data|].bytes == [] || Demand(bodyLength, results, chunks) + |chunks[|data|].bytes| <= max
  }

  /** Everything passed on, the erroring chunk's bytes included, stays within the maximum under every
      schedule exactly when that chunk has room: the limiter is not asked about its bytes. */
  lemma AllBytesWithinMax(max: int, bodyLength: nat, results: seq<ReadResult>, chunks: seq<StreamChunk>)
    requires bodyLength <= max
    ensures (forall schedule: seq<Move> :: WithinMax(max, bodyLength, Run(Start(max, bodyLength, results, chunks), schedule))) <==>
            ErrorChunkHasRoom(max, bodyLength, results, chunks)
  {
    if ErrorChunkHasRoom(max, bodyLength, results, chunks) {
      forall schedule: seq<Move> ensures WithinMax(max, bodyLength, Run(Start(max, bodyLength, results, chunks), schedule)) {
        RoomSuffices(max, bodyLength, results, chunks, schedule);
      }
    } else {
      var schedule := WorstSchedule(max, bodyLength, results, chunks);
    }
  }

  predicate WithinMax(max: int, bodyLength: nat, s: System) {
    bodyLength + |s.delivered| + Size(s.sent) <= max
  }

  lemma RoomSuffices(
    max: int, bodyLength: nat, results: seq<ReadResult>, chunks: seq<StreamChunk>, schedule: seq<Move>)
    requires bodyLength <= max && ErrorChunkHasRoom(max, bodyLength, results, chunks)
    ensures WithinMax(max, bodyLength, Run(Start(max, bodyLength, results, chunks), schedule))
  {
    NeverExceedsMax(max, bodyLength, results, chunks, schedule);
    RunInv(max, bodyLength, results, chunks, schedule);
    var s := Run(Start(max, bodyLength, results, chunks), schedule);
    hide Run, ReaderFaithful, Size;
    SentIsAdmitted(s, chunks);
    AllData(s.admitted);
    if s.stream == StreamDone && s.sent != s.admitted {
      var last := s.sent[|s.admitted|];
      SizeAppend(s.admitted, [last]);
      SizeOfOne(last);
      DataThenError(s.admitted, last);
      if last == chunks[|s.admitted|] {
        AdmittedBeforeError(s.admitted, chunks);
      }
    } else if s.stream.Sending? {
      DataPrefix(s.admitted, |s.sent|);
    }
  }

  lemma {:induction false} RunAppend(s: System, a: seq<Move>, b: seq<Move>)
    ensures Run(s, a + b) == Run(Run(s, a), b)
  {
    hide Next;
    if b == [] {
      assert a + b == a;
    } else {
      var all := a + b;
      assert all[..|all| - 1] == a + b[..|b| - 1];
      RunAppend(s, a, b[..|b| - 1]);
    }
  }

  lemma RunOne(s: System, move: Move)
    ensures Run(s, [move]) == Next(s, move)
  {
    hide Next;
    assert [move][..0] == [];
  }

  /** The schedule with one more move in front. */
  lemma RunFirst(s: System, move: Move, rest: seq<Move>)
    ensures Run(s, [move] + rest) == Run(Next(s, move), rest)
  {
    RunAppend(s, [move], rest);
    RunOne(s, move);
  }

  /** The number of bytes before the first erroring chunk, and with that chunk. */
  function DataSize(todo: seq<StreamChunk>): nat {
    if todo == [] || todo[0].error.Some? then 0 else |todo[0].bytes| + DataSize(todo[1..])
  }

  function PassedSize(todo: seq<StreamChunk>): nat {
    if todo == [] then 0
    else if todo[0].error.Some? then |todo[0].bytes|
    else |todo[0].bytes| + PassedSize(todo[1..])
  }

  /** The stream goroutine has room for all its data and the other one does not move: it sends
      everything, its source's erroring chunk included. */
  lemma {:induction false} StreamRunsOut(s: System) returns (schedule: seq<Move>)
    requires s.stream == Receiving && !s.limiter.tripped
    requires s.limiter.emitted + DataSize(s.streamTodo) <= s.limiter.max
    ensures var t := Run(s, schedule);
            && t.reader == s.reader && t.readerTodo == s.readerTodo && t.delivered == s.delivered
            && t.limiter == s.limiter.(emitted := s.limiter.emitted + DataSize(s.streamTodo))
            && Size(t.sent) == Size(s.sent) + PassedSize(s.streamTodo)
    decreases |s.streamTodo|
  {
    hide Size, Run;
    if s.streamTodo == [] {
      schedule := [];
      RunNothing(s);
    } else if s.streamTodo[0].error.Some? {
      schedule := ErrorSent(s);
    } else {
      var first, t := ChunkSent(s);
      var rest := StreamRunsOut(t);
      schedule := first + rest;
      RunAppend(s, first, rest);
    }
  }

  lemma RunNothing(s: System)
    ensures Run(s, []) == s
  {
  }

  lemma SizeFirst(chunk: StreamChunk, rest: seq<StreamChunk>)
    ensures Size([chunk] + rest) == |chunk.bytes| + Size(rest)
  {
    assert ([chunk] + rest)[1..] == rest;
  }

  lemma {:induction false} DataSizeIs(todo: seq<StreamChunk>)
    ensures DataSize(todo) == Size(DataChunks(todo))
    ensures var d := |DataChunks(todo)|; PassedSize(todo) == DataSize(todo) + if d < |todo| then |todo[d].bytes| else 0
  {
    if todo == [] || todo[0].error.Some? {
      NoData(todo);
    } else {
      DataSizeIs(todo[1..]);
      var rest := DataChunks(todo[1..]);
      assert DataChunks(todo) == [todo[0]] + rest;
      hide DataChunks;
      SizeFirst(todo[0], rest);
      hide Size;
      assert |rest| < |todo[1..]| ==> todo[1..][|rest|] == todo[|rest| + 1];
    }
  }

  lemma NoData(todo: seq<StreamChunk>)
    requires todo == [] || todo[0].error.Some?
    ensures DataChunks(todo) == [] && Size(DataChunks(todo)) == 0
  {
  }

  lemma ErrorSent(s: System) returns (schedule: seq<Move>)
    requires s.stream == Receiving && s.streamTodo != [] && s.streamTodo[0].error.Some?
    ensures var t := Run(s, schedule);
            && t.reader == s.reader && t.readerTodo == s.readerTodo && t.delivered == s.delivered && t.limiter == s.limiter
            && Size(t.sent) == Size(s.sent) + |s.streamTodo[0].bytes|
  {
    schedule := [StreamMoves] + [StreamMoves];
    RunFirst(s, StreamMoves, [StreamMoves]);
    RunOne(StreamStep(s), StreamMoves);
    hide Run;
    SizeAppend(s.sent, [s.streamTodo[0]]);
    SizeOfOne(s.streamTodo[0]);
  }

  lemma ChunkSent(s: System) returns (schedule: seq<Move>, t: System)
    requires s.stream == Receiving && !s.limiter.tripped && s.streamTodo != [] && s.streamTodo[0].error.None?
    requires s.limiter.emitted + |s.streamTodo[0].bytes| <= s.limiter.max
    ensures t == Run(s, schedule) && t.stream == Receiving && t.streamTodo == s.streamTodo[1..]
    ensures t.reader == s.reader && t.readerTodo == s.readerTodo && t.delivered == s.delivered
    ensures t.limiter == s.limiter.(emitted := s.limiter.emitted + |s.streamTodo[0].bytes|)
    ensures Size(t.sent) == Size(s.sent) + |s.streamTodo[0].bytes|
  {
    var chunk := s.streamTodo[0];
    var moves: seq<Move> := if chunk.bytes == [] then [StreamMoves] else [StreamMoves] + [StreamMoves];
    var u := if chunk.bytes == [] then StreamStep(s) else StreamStep(StreamStep(s));
    RunOne(s, StreamMoves);
    RunFirst(s, StreamMoves, [StreamMoves]);
    RunOne(StreamStep(s), StreamMoves);
    RunAppend(s, moves, [StreamMoves]);
    RunOne(u, StreamMoves);
    schedule := moves + [StreamMoves];
    t := StreamStep(u);
    hide Run;
    SizeAppend(s.sent, [Data(chunk.bytes)]);
    SizeOfOne(Data(chunk.bytes));
  }

  /** The reader goroutine alone passes on all its bytes, or as many as still fit. */
  lemma {:induction false} ReaderRunsOut(s: System) returns (schedule: seq<Move>)
    requires s.reader == Reading && !s.limiter.tripped && s.limiter.emitted <= s.limiter.max
    ensures var t := Run(s, schedule); var n := |SourceBytes(s.readerTodo)|;
            && t.sent == s.sent
            && |t.delivered| == |s.delivered| + if n <= s.limiter.Budget() then n else s.limiter.Budget()
    decreases |s.readerTodo|
  {
    if s.readerTodo == [] {
      schedule := [];
    } else {
      var first, t := ReadPassedOn(s);
      if t.reader == Reading {
        var rest := ReaderRunsOut(t);
        schedule := first + rest;
        RunAppend(s, first, rest);
      } else {
        schedule := first;
      }
    }
  }

  /** One read and its bytes passed on. */
  lemma ReadPassedOn(s: System) returns (schedule: seq<Move>, t: System)
    requires s.reader == Reading && !s.limiter.tripped && s.limiter.emitted <= s.limiter.max && s.readerTodo != []
    ensures t == Run(s, schedule) && t.sent == s.sent && t.readerTodo == s.readerTodo[1..]
    ensures var n := |s.readerTodo[0].data|; var budget := s.limiter.Budget();
            && |t.delivered| == |s.delivered| + (if n <= budget then n else budget)
            && (n <= budget ==>
                  && t.limiter == s.limiter.(emitted := s.limiter.emitted + n)
                  && t.reader == AfterWrite(s.readerTodo[0].status))
            && (n > budget ==> t.reader == ReaderDone(TooLarge))
  {
    var read := ReaderStep(s, None);
    RunOne(s, ReaderMoves);
    RunFirst(s, ReaderMoves, [ReaderMoves]);
    RunOne(read, ReaderMoves);
    var consumed := ReaderStep(read, None);
    if s.readerTodo[0].data == [] {
      schedule, t := [ReaderMoves] + [ReaderMoves], consumed;
    } else {
      schedule, t := [ReaderMoves] + [ReaderMoves] + [ReaderMoves], ReaderStep(consumed, None);
      RunAppend(s, [ReaderMoves] + [ReaderMoves], [ReaderMoves]);
      RunOne(consumed, ReaderMoves);
    }
  }

  /** First the stream, then the reader: this schedule passes on the most. */
  lemma WorstSchedule(max: int, bodyLength: nat, results: seq<ReadResult>, chunks: seq<StreamChunk>) returns (schedule: seq<Move>)
    requires bodyLength <= max && !ErrorChunkHasRoom(max, bodyLength, results, chunks)
    ensures !WithinMax(max, bodyLength, Run(Start(max, bodyLength, results, chunks), schedule))
  {
    var start := Start(max, bodyLength, results, chunks);
    DataSizeIs(chunks);
    SizeNothing();
    hide Run, SourceBytes, DataChunks, DataSize, PassedSize, Size;
    var first := StreamRunsOut(start);
    var rest := ReaderRunsOut(Run(start, first));
    schedule := first + rest;
    RunAppend(start, first, rest);
  }

  /** For example: with a maximum of ten bytes and nothing else to send, a chunk of more than ten bytes
      that also carries an error leaves whole. */
  lemma ErrorChunkExceedsMax(bytes: seq<Byte>, error: ErrorId)
    requires |bytes| > 10
    ensures !ErrorChunkHasRoom(10, 0, [], [StreamChunk(bytes, Some(Upstream(error)))])
    ensures exists schedule: seq<Move> ::
              Size(Run(Start(10, 0, [], [StreamChunk(bytes, Some(Upstream(error)))]), schedule).sent) > 10
  {
    var chunks := [StreamChunk(bytes, Some(Upstream(error)))];
    assert DataChunks(chunks) == [];
    assert Size([]) == 0 && SourceBytes([]) == [];
    var schedule := WorstSchedule(10, 0, [], chunks);
    NeverExceedsMax(10, 0, [], chunks, schedule);
    assert Run(Start(10, 0, [], chunks), schedule).delivered == [];
  }
}
