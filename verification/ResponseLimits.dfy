/** The response size limiter shared by a byte reader and a chunk stream
    (`runtime/response_limits.go`), and its consumer (`runtime/body_stream.go`). */
module ResponseLimits {
  import opened Text
  import opened Bytes

  // ----- the limiter -----

  datatype Limiter = Limiter(max: int, emitted: int, tripped: bool) {

    /** `allowChunk`: all of the chunk or nothing. */
    function AllowChunk(size: nat): (r: (Limiter, bool))
      ensures r.1 <==> !tripped && (size == 0 || emitted + size <= max)
      ensures r.0.emitted == emitted + (if r.1 then size else 0) && r.0.max == max
      ensures r.0.tripped <==> tripped || !r.1
    {
      if tripped then (this, false)
      else if size <= 0 then (this, true)
      else if emitted + size > max then (this.(tripped := true), false)
      else (this.(emitted := emitted + size), true)
    }

    /** `consumeReader`: as many bytes as still fit, and whether that is fewer than asked for. */
    function ConsumeReader(size: nat): (r: (Limiter, nat, bool))
      requires size > 0
      ensures r.1 == (if tripped || emitted >= max then 0 else if size <= max - emitted then size else max - emitted)
      ensures r.2 <==> r.1 < size
      ensures r.0.emitted == emitted + r.1 && r.0.max == max
      ensures r.0.tripped <==> tripped || r.2
    {
      if tripped then (this, 0, true)
      else
        var remaining := max - emitted;
        if remaining <= 0 then (this.(tripped := true), 0, true)
        else if size > remaining then (this.(emitted := max, tripped := true), remaining, true)
        else (this.(emitted := emitted + size), size, false)
    }

    function Budget(): nat {
      if tripped || emitted >= max then 0 else max - emitted
    }
  }

  /** The mutex-guarded object: each method body is one critical section. */
  class ResponseSizeLimiter {
    const max: int
    var emitted: int
    var tripped: bool

    function State(): Limiter
      reads this
    {
      Limiter(max, emitted, tripped)
    }

    constructor (max: int, emitted: int)
      ensures State() == Limiter(max, emitted, false)
    {
      this.max, this.emitted, this.tripped := max, emitted, false;
    }

    method AllowChunk(size: nat) returns (ok: bool)
      modifies this
      ensures (State(), ok) == old(State()).AllowChunk(size)
    {
      if tripped {
        return false;
      }
      if size <= 0 {
        return true;
      }
      if emitted + size > max {
        tripped := true;
        return false;
      }
      emitted := emitted + size;
      return true;
    }

    method ConsumeReader(size: nat) returns (emit: nat, overflow: bool)
      requires size > 0
      modifies this
      ensures (State(), emit, overflow) == old(State()).ConsumeReader(size)
    {
      if tripped {
        return 0, true;
      }
      var remaining := max - emitted;
      if remaining <= 0 {
        tripped := true;
        return 0, true;
      }
      if size > remaining {
        emitted := max;
        tripped := true;
        return remaining, true;
      }
      emitted := emitted + size;
      return size, false;
    }
  }

  // ----- the two kinds of source -----

  type ErrorId = int

  datatype ReadStatus = More | Eof | Failed(error: ErrorId)

  /** One `Read`: the bytes it returned and the error it returned with them. */
  datatype ReadResult = ReadResult(data: seq<Byte>, status: ReadStatus)

  /** How a limited reader ends; `Open` while its source has not ended. */
  datatype ReaderEnd = Open | Closed | SourceError(error: ErrorId) | TooLarge | Abandoned

  datatype ChunkError = Upstream(error: ErrorId) | ResponseTooLarge

  /** A chunk may carry bytes and an error at once. */
  datatype StreamChunk = StreamChunk(bytes: seq<Byte>, error: Option<ChunkError>)

  function Data(bytes: seq<Byte>): StreamChunk {
    StreamChunk(bytes, None)
  }

  function Error(error: ChunkError): StreamChunk {
    StreamChunk([], Some(error))
  }

  /** All bytes a reader yields up to its first error or end of file. */
  function SourceBytes(source: seq<ReadResult>): seq<Byte>
    decreases source, 0
  {
    if source == [] then [] else source[0].data + BytesAfter(source[0].status, source[1..])
  }

  function BytesAfter(status: ReadStatus, rest: seq<ReadResult>): seq<Byte>
    decreases rest, 1
  {
    if status == More then SourceBytes(rest) else []
  }

  /** How that reader ends by itself. */
  function SourceEnd(source: seq<ReadResult>): ReaderEnd
    decreases source, 0
  {
    if source == [] then Open else EndAfter(source[0].status, source[1..])
  }

  function EndAfter(status: ReadStatus, rest: seq<ReadResult>): ReaderEnd
    decreases rest, 1
  {
    match status
    case More => SourceEnd(rest)
    case Eof => Closed
    case Failed(e) => SourceError(e)
  }

  /** The chunks of a stream before its first error. */
  function DataChunks(source: seq<StreamChunk>): (r: seq<StreamChunk>)
    ensures |r| <= |source| && r == source[..|r|]
    ensures forall i | 0 <= i < |r| :: r[i].error.None?
    ensures |r| < |source| ==> source[|r|].error.Some?
  {
    if source == [] || source[0].error.Some? then [] else [source[0]] + DataChunks(source[1..])
  }

  /** All bytes of a list of chunks, those of erroring chunks included. */
  function Size(chunks: seq<StreamChunk>): nat {
    if chunks == [] then 0 else |chunks[0].bytes| + Size(chunks[1..])
  }

  lemma {:induction false} SizeAppend(a: seq<StreamChunk>, b: seq<StreamChunk>)
    ensures Size(a + b) == Size(a) + Size(b)
  {
    if a == [] {
      assert a + b == b;
    } else {
      assert (a + b)[1..] == a[1..] + b;
      SizeAppend(a[1..], b);
    }
  }

  // ----- one source alone -----

  /** `limitBodyReader` with nobody else using the limiter: exactly the first bytes that fit,
      however the source splits its reads, and the source's own end if all of them fit. */
  method LimitBodyReader(source: seq<ReadResult>, limiter: ResponseSizeLimiter)
    returns (delivered: seq<Byte>, end: ReaderEnd)
    modifies limiter
    ensures var total := SourceBytes(source);
            var budget := old(limiter.State().Budget());
            if |total| <= budget then
              delivered == total && end == SourceEnd(source)
            else
              delivered == total[..budget] && end == TooLarge
    ensures limiter.State() == Limiter(limiter.max, old(limiter.emitted) + |delivered|, old(limiter.tripped) || end == TooLarge)
  {
    delivered := [];
    ghost var total := SourceBytes(source);
    hide SourceBytes, SourceEnd;
    assert source[0..] == source;
    for i := 0 to |source|
      invariant delivered + SourceBytes(source[i..]) == total
      invariant SourceEnd(source[i..]) == SourceEnd(source)
      invariant |delivered| + limiter.State().Budget() == old(limiter.State().Budget())
      invariant limiter.State() == Limiter(limiter.max, old(limiter.emitted) + |delivered|, old(limiter.tripped))
    {
      var chunk, status := source[i].data, source[i].status;
      ghost var rest := BytesAfter(status, source[i + 1..]);
      SourceStep(source, i);
      assert delivered + chunk + rest == total;
      if |chunk| != 0 {
        ghost var before := delivered;
        var emit, overflow := limiter.ConsumeReader(|chunk|);
        if emit > 0 {
          delivered := delivered + chunk[..emit];
        }
        PartTaken(before, chunk, emit, rest, total);
        if overflow {
          return delivered, TooLarge;
        }
      }
      if status == More {
        continue;
      }
      return delivered, if status == Eof then Closed else SourceError(status.error);
    }
    SourceEnds(source);
    return delivered, Open;
  }

  lemma SourceStep(source: seq<ReadResult>, i: nat)
    requires i < |source|
    ensures SourceBytes(source[i..]) == source[i].data + BytesAfter(source[i].status, source[i + 1..])
    ensures SourceEnd(source[i..]) == EndAfter(source[i].status, source[i + 1..])
  {
    assert source[i..][1..] == source[i + 1..];
  }

  lemma SourceEnds(source: seq<ReadResult>)
    ensures SourceBytes(source[|source|..]) == [] && SourceEnd(source[|source|..]) == Open
  {
  }

  /** Taking the first `emit` bytes of a chunk extends the delivered prefix. */
  lemma PartTaken(before: seq<Byte>, chunk: seq<Byte>, emit: nat, rest: seq<Byte>, total: seq<Byte>)
    requires before + chunk + rest == total && emit <= |chunk|
    ensures before + chunk[..emit] == total[..|before| + emit]
    ensures emit == |chunk| ==> before + chunk[..emit] + rest == total
  {
    assert chunk == chunk[..emit] + chunk[emit..];
  }

  /** `n` is the number of leading chunks a limited stream lets through: all up to an error of
      the source's own or the first chunk that does not fit. */
  ghost predicate LetsThrough(source: seq<StreamChunk>, budget: nat, n: nat) {
    && n <= |DataChunks(source)| && Size(source[..n]) <= budget
    && (n < |DataChunks(source)| ==> Size(source[..n + 1]) > budget)
  }

  lemma {:induction false} SizeMonotone(source: seq<StreamChunk>, m: nat, n: nat)
    requires m <= n <= |source|
    ensures Size(source[..m]) <= Size(source[..n])
  {
    assert source[..n] == source[..m] + source[m..n];
    SizeAppend(source[..m], source[m..n]);
  }

  lemma SizeSnoc(source: seq<StreamChunk>, n: nat)
    requires n < |source|
    ensures Size(source[..n + 1]) == Size(source[..n]) + |source[n].bytes|
  {
    assert source[..n + 1] == source[..n] + [source[n]];
    SizeAppend(source[..n], [source[n]]);
    assert Size([source[n]]) == |source[n].bytes|;
  }

  /** The cut is determined by the chunks and the budget. */
  lemma LetsThroughUnique(source: seq<StreamChunk>, budget: nat, m: nat, n: nat)
    requires LetsThrough(source, budget, m) && LetsThrough(source, budget, n)
    ensures m == n
  {
    if m < n { SizeMonotone(source, m + 1, n); }
    if n < m { SizeMonotone(source, n + 1, m); }
  }

  /** What follows the chunks let through: the too-large error, the source's own erroring chunk
      as it is, or nothing. */
  function Ending(source: seq<StreamChunk>, n: nat): seq<StreamChunk> {
    if n < |DataChunks(source)| then [Error(ResponseTooLarge)]
    else if n < |source| then [source[n]]
    else []
  }

  ghost predicate LimitedStream(source: seq<StreamChunk>, budget: nat, out: seq<StreamChunk>) {
    exists n: nat :: LetsThrough(source, budget, n) && out == source[..n] + Ending(source, n)
  }

  /** `limitBodyStream` with nobody else using the limiter, run until its source is closed.  An
      erroring chunk is passed on whole, without asking the limiter about its bytes. */
  method LimitBodyStream(source: seq<StreamChunk>, limiter: ResponseSizeLimiter) returns (out: seq<StreamChunk>)
    requires !limiter.tripped
    modifies limiter
    ensures LimitedStream(source, old(limiter.State().Budget()), out)
    ensures limiter.emitted == old(limiter.emitted) + Size(DataChunks(out))
  {
    out := [];
    hide Size;
    ghost var budget := limiter.State().Budget();
    SizeNothing();
    for i := 0 to |source|
      invariant out == source[..i]
      invariant !limiter.tripped
      invariant i <= |DataChunks(source)|
      invariant limiter.State().Budget() + Size(out) == budget
      invariant limiter.emitted == old(limiter.emitted) + Size(out)
    {
      var chunk := source[i];
      SizeSnoc(source, i);
      DataPrefix(source, i);
      if chunk.error.Some? {
        assert LetsThrough(source, budget, i);
        DataThenError(out, chunk);
        out := out + [chunk];
        return;
      }
      assert i < |DataChunks(source)|;
      assert source[..i + 1] == source[..i] + [chunk];
      if |chunk.bytes| == 0 {
        assert chunk == Data([]);
        out := out + [Data([])];
        continue;
      }
      var ok := limiter.AllowChunk(|chunk.bytes|);
      if !ok {
        assert LetsThrough(source, budget, i);
        DataThenError(out, Error(ResponseTooLarge));
        out := out + [Error(ResponseTooLarge)];
        return;
      }
      out := out + [chunk];
    }
    assert source[..|source|] == source;
    assert LetsThrough(source, budget, |source|);
    DataPrefix(source, |source|);
  }

  lemma SizeNothing()
    ensures Size([]) == 0
  {
  }

  lemma DataPrefix(source: seq<StreamChunk>, n: nat)
    requires n <= |DataChunks(source)|
    ensures DataChunks(source[..n]) == source[..n] == DataChunks(source)[..n]
  {
    assert forall i | 0 <= i < n :: source[..n][i] == DataChunks(source)[i];
    assert |DataChunks(source[..n])| == n;
  }

  lemma DataThenError(data: seq<StreamChunk>, last: StreamChunk)
    requires DataChunks(data) == data && last.error.Some?
    ensures DataChunks(data + [last]) == data
  {
    var all := data + [last];
    var r := DataChunks(all);
    assert forall i | 0 <= i < |data| :: all[i] == DataChunks(data)[i];
    assert all[|data|] == last && forall i | 0 <= i < |r| :: r[i] == all[i];
    assert |r| == |data|;
  }

  /** A stream whose data fits the budget exactly or with room to spare passes unchanged up to
      and including its own erroring chunk. */
  lemma FittingStreamUnchanged(source: seq<StreamChunk>, budget: nat, out: seq<StreamChunk>)
    requires LimitedStream(source, budget, out)
    requires Size(DataChunks(source)) <= budget
    ensures out == if |DataChunks(source)| < |source| then source[..|DataChunks(source)| + 1] else source
  {
    hide Size;
    var n: nat :| LetsThrough(source, budget, n) && out == source[..n] + Ending(source, n);
    if n < |DataChunks(source)| {
      SizeMonotone(source, n + 1, |DataChunks(source)|);
    }
  }

  /** A limited stream is a run of the source's data chunks within the budget, then its ending. */
  lemma LimitedParts(source: seq<StreamChunk>, budget: nat, out: seq<StreamChunk>) returns (n: nat)
    requires LimitedStream(source, budget, out)
    ensures LetsThrough(source, budget, n)
    ensures DataChunks(out) == source[..n] && out == source[..n] + Ending(source, n)
  {
    hide Size;
    n :| LetsThrough(source, budget, n) && out == source[..n] + Ending(source, n);
    DataPrefix(source, n);
    if Ending(source, n) != [] {
      DataThenError(source[..n], Ending(source, n)[0]);
      assert out == source[..n] + [Ending(source, n)[0]];
    } else {
      assert out == source[..n];
    }
  }

  /** Whatever the source does, the data chunks of a limited stream are a prefix of the source's
      and stay within the budget. */
  lemma LimitedStreamFits(source: seq<StreamChunk>, budget: nat, out: seq<StreamChunk>)
    requires LimitedStream(source, budget, out)
    ensures Size(DataChunks(out)) <= budget
    ensures DataChunks(out) <= DataChunks(source)
  {
    hide Size, DataChunks, LimitedStream;
    var n := LimitedParts(source, budget, out);
    DataPrefix(source, n);
  }

  /** The source's own erroring chunk, which a limited stream reaches if all data before it fits,
      has room for the bytes it carries. */
  predicate ErrorChunkFits(source: seq<StreamChunk>, budget: nat) {
    var data := DataChunks(source);
    |data| < |source| && Size(data) <= budget ==> Size(data) + |source[|data|].bytes| <= budget
  }

  /** All bytes of a limited stream, those of its last, erroring chunk included, are within the
      budget exactly when the source's erroring chunk fits. */
  lemma WholeStreamFits(source: seq<StreamChunk>, budget: nat, out: seq<StreamChunk>)
    requires LimitedStream(source, budget, out)
    ensures Size(out) <= budget <==> ErrorChunkFits(source, budget)
  {
    hide DataChunks, LimitedStream;
    var n := LimitedParts(source, budget, out);
    var d := |DataChunks(source)|;
    SizeAppend(source[..n], Ending(source, n));
    DataPrefix(source, d);
    hide Size;
    if n < d {
      SizeMonotone(source, n + 1, d);
      SizeOfOne(Error(ResponseTooLarge));
    } else if n < |source| {
      SizeOfOne(source[n]);
    } else {
      SizeNothing();
    }
  }

  lemma SizeOfOne(chunk: StreamChunk)
    ensures Size([chunk]) == |chunk.bytes|
  {
  }

  /** The limiter does not bound the bytes of an erroring chunk: whatever the budget, one that
      carries more leaves the limited stream whole. */
  lemma ErrorChunkUnmetered(budget: nat, bytes: seq<Byte>, error: ErrorId)
    requires |bytes| > budget
    ensures var source := [StreamChunk(bytes, Some(Upstream(error)))];
            LimitedStream(source, budget, source) && Size(source) > budget
  {
    var source := [StreamChunk(bytes, Some(Upstream(error)))];
    SizeOfOne(source[0]);
    assert LetsThrough(source, budget, 0);
    assert source == source[..0] + Ending(source, 0);
  }

  /** What a consumer that stops at the first error has received of a limited stream is within
      the budget, however early it stops: it drops the erroring chunk's bytes. */
  lemma CapturedWithinBudget(source: seq<StreamChunk>, budget: nat, out: seq<StreamChunk>, n: nat)
    requires LimitedStream(source, budget, out) && n <= |DataChunks(out)|
    ensures Size(out[..n]) <= budget
  {
    hide Size, DataChunks, LimitedStream;
    var k := LimitedParts(source, budget, out);
    assert out[..n] == source[..n];
    SizeMonotone(source, n, k);
  }

  /** A stream whose data does not fit is seen to be cut: after the chunks that fit comes the too-large
      error, at which every consumer stops. */
  lemma CutStreamEnds(source: seq<StreamChunk>, budget: nat, out: seq<StreamChunk>)
    requires LimitedStream(source, budget, out) && Size(DataChunks(source)) > budget
    ensures var n := |DataChunks(out)|;
            && |out| == n + 1 && out[n] == StreamChunk([], Some(ResponseTooLarge))
            && n < |DataChunks(source)| && out[..n] == source[..n]
            && Size(source[..n]) <= budget < Size(source[..n + 1])
  {
    hide Size, DataChunks, LimitedStream;
    var n := LimitedParts(source, budget, out);
    DataPrefix(source, |DataChunks(source)|);
    assert DataChunks(source)[..|DataChunks(source)|] == DataChunks(source);
  }

  /** The byte contents of the first `n` chunks. */
  function Contents(stream: seq<StreamChunk>, n: nat): (r: seq<seq<Byte>>)
    requires n <= |stream|
    ensures |r| == n && forall i | 0 <= i < n :: r[i] == stream[i].bytes
  {
    if n == 0 then [] else Contents(stream, n - 1) + [stream[n - 1].bytes]
  }

  function Concat(chunks: seq<seq<Byte>>): seq<Byte> {
    if chunks == [] then [] else Concat(chunks[..|chunks| - 1]) + chunks[|chunks| - 1]
  }

  lemma ConcatSnoc(chunks: seq<seq<Byte>>, more: seq<Byte>)
    ensures Concat(chunks + [more]) == Concat(chunks) + more
  {
    assert (chunks + [more])[..|chunks|] == chunks;
  }

  /** One more chunk, empty or not, extends both lists. */
  lemma ContentsSnoc(stream: seq<StreamChunk>, n: nat)
    requires n < |stream|
    ensures Contents(stream, n + 1) == Contents(stream, n) + [stream[n].bytes]
    ensures Concat(Contents(stream, n + 1)) == Concat(Contents(stream, n)) + stream[n].bytes
  {
    ConcatSnoc(Contents(stream, n), stream[n].bytes);
  }

  lemma ContentsNothing(stream: seq<StreamChunk>)
    ensures Contents(stream, 0) == [] && Concat([]) == []
  {
  }

  lemma {:induction false} ConcatSize(stream: seq<StreamChunk>, n: nat)
    requires n <= |stream|
    ensures |Concat(Contents(stream, n))| == Size(stream[..n])
  {
    if n > 0 {
      ConcatSize(stream, n - 1);
      ConcatSnoc(Contents(stream, n - 1), stream[n - 1].bytes);
      SizeSnoc(stream, n - 1);
    }
  }

  datatype CaptureEnd = Complete | Cancelled | Stopped(error: ChunkError)

  /** `CaptureBodyStream`; the context may be cancelled before any of its receives. */
  method CaptureBodyStream(stream: seq<StreamChunk>, cancelledAfter: Option<nat>)
    returns (chunks: seq<seq<Byte>>, body: seq<Byte>, end: CaptureEnd)
    ensures |chunks| <= |DataChunks(stream)| && chunks == Contents(stream, |chunks|)
    ensures body == Concat(chunks) && |body| == Size(stream[..|chunks|])
    ensures var n := |DataChunks(stream)|;
            if cancelledAfter.Some? && cancelledAfter.value <= n then
              |chunks| == cancelledAfter.value && end == Cancelled
            else
              |chunks| == n && end == if n < |stream| then Stopped(stream[n].error.value) else Complete
  {
    chunks, body := [], [];
    ContentsNothing(stream);
    hide Size, DataChunks, Concat, Contents;
    for i := 0 to |stream|
      invariant i <= |DataChunks(stream)|
      invariant chunks == Contents(stream, i) && body == Concat(chunks)
      invariant cancelledAfter.Some? ==> cancelledAfter.value >= i
    {
      ConcatSize(stream, i);
      if cancelledAfter == Some(i) {
        return chunks, body, Cancelled;
      }
      var chunk := stream[i];
      if chunk.error.Some? {
        return chunks, body, Stopped(chunk.error.value);
      }
      ContentsSnoc(stream, i);
      if |chunk.bytes| == 0 {
        assert chunk.bytes == [];
        chunks := chunks + [[]];
      } else {
        chunks := chunks + [chunk.bytes];
        body := body + chunk.bytes;
      }
    }
    ConcatSize(stream, |stream|);
    if cancelledAfter == Some(|stream|) {
      return chunks, body, Cancelled;
    }
    return chunks, body, Complete;
  }

  /** A capture of a limited stream.  If all its data fits, the capture has every chunk and the stream's
      own ending; if not, the chunks that fit and the too-large error; unless it is cancelled first. */
  method CaptureLimited(source: seq<StreamChunk>, limiter: ResponseSizeLimiter, cancelledAfter: Option<nat>)
    returns (chunks: seq<seq<Byte>>, body: seq<Byte>, end: CaptureEnd)
    requires !limiter.tripped
    modifies limiter
    ensures |body| <= old(limiter.State().Budget())
    ensures |chunks| <= |DataChunks(source)| && chunks == Contents(source, |chunks|) && body == Concat(chunks)
    ensures end == Cancelled <==> cancelledAfter == Some(|chunks|)
    ensures end == Complete ==> source == DataChunks(source) && |chunks| == |source|
    ensures end != Cancelled && Size(DataChunks(source)) <= old(limiter.State().Budget()) ==>
              && |chunks| == |DataChunks(source)|
              && end == if |chunks| < |source| then Stopped(source[|chunks|].error.value) else Complete
    ensures end != Cancelled && Size(DataChunks(source)) > old(limiter.State().Budget()) ==> end == Stopped(ResponseTooLarge)
  {
    ghost var budget := limiter.State().Budget();
    var out := LimitBodyStream(source, limiter);
    chunks, body, end := CaptureBodyStream(out, cancelledAfter);
    hide Size, DataChunks, LimitedStream, Concat, Contents;
    CapturedWithinBudget(source, budget, out, |chunks|);
    var n := LimitedParts(source, budget, out);
    ContentsPrefix(source, out, n, |chunks|);
    if Size(DataChunks(source)) <= budget {
      FittingStreamUnchanged(source, budget, out);
      LetsAllThrough(source, budget, n);
    } else {
      CutStreamEnds(source, budget, out);
    }
  }

  lemma LetsAllThrough(source: seq<StreamChunk>, budget: nat, n: nat)
    requires LetsThrough(source, budget, n) && Size(DataChunks(source)) <= budget
    ensures n == |DataChunks(source)|
    ensures n == |source| ==> DataChunks(source) == source
  {
    hide Size;
    DataPrefix(source, |DataChunks(source)|);
    if n < |DataChunks(source)| {
      SizeMonotone(source, n + 1, |DataChunks(source)|);
    }
  }

  lemma {:induction false} ContentsPrefix(source: seq<StreamChunk>, out: seq<StreamChunk>, n: nat, k: nat)
    requires k <= n <= |source| && n <= |out| && out[..n] == source[..n]
    ensures Contents(out, k) == Contents(source, k)
  {
    if k > 0 {
      ContentsPrefix(source, out, n, k - 1);
      assert out[..n][k - 1] == source[..n][k - 1];
    }
  }

  /** What a reader yields and how it ends, by the first read that reports anything beside data: all data
      up to and with that read, then its end of file or its own error. */
  lemma {:induction false} SourceUpTo(source: seq<ReadResult>, i: nat)
    requires i < |source| && source[i].status != More
    requires forall k | 0 <= k < i :: source[k].status == More
    ensures SourceBytes(source) == ReadBytes(source, i + 1)
    ensures SourceEnd(source) == match source[i].status case Eof => Closed case Failed(e) => SourceError(e) case More => Open
  {
    var rest := source[1..];
    if i > 0 {
      assert forall k | 0 <= k < i - 1 :: rest[k] == source[k + 1];
      SourceUpTo(rest, i - 1);
      ReadBytesTail(source, i + 1);
    } else {
      assert ReadBytes(source, 0) == [];
    }
  }

  /** The data of the first `n` reads. */
  function ReadBytes(source: seq<ReadResult>, n: nat): seq<Byte>
    requires n <= |source|
  {
    if n == 0 then [] else ReadBytes(source, n - 1) + source[n - 1].data
  }

  lemma {:induction false} ReadBytesTail(source: seq<ReadResult>, n: nat)
    requires 0 < n <= |source|
    ensures ReadBytes(source, n) == source[0].data + ReadBytes(source[1..], n - 1)
  {
    if n > 1 {
      ReadBytesTail(source, n - 1);
    } else {
      assert ReadBytes(source, 0) == [];
    }
  }
}
