/** Partial batch failures: the generic loop (`runtime/aws_batch.go`) and the hand-written
    DynamoDB loop (`runtime/aws_dynamodb.go`). */
module Batch {
  import opened Text

  datatype RecordOutcome = Ok | Err(error: int) | Panic

  /** The error a recovered panic or a missing handler is turned into. */
  const WORKLOAD_FAILED := -1

  /** A handler call; its position in the batch stands for everything that earlier calls may
      have left behind. */
  type RecordHandler<!R> = (nat, R) -> RecordOutcome

  /** The trimmed non-blank ids of the failing records among the first `n`; without a handler
      every record fails. */
  function FailedIds<R>(records: seq<R>, handler: Option<RecordHandler<R>>, recordId: R -> string, n: nat): seq<string>
    requires n <= |records|
  {
    if n == 0 then []
    else
      FailedIds(records, handler, recordId, n - 1) +
      if (handler.Some? && handler.value(n - 1, records[n - 1]) == Ok) || Trim(recordId(records[n - 1])) == "" then []
      else [Trim(recordId(records[n - 1]))]
  }

  /** The handler panics on none of the first `n` records. */
  predicate PanicFree<R>(records: seq<R>, handler: Option<RecordHandler<R>>, n: nat)
    requires n <= |records|
  {
    handler.None? || forall i | 0 <= i < n :: handler.value(i, records[i]) != Panic
  }

  /** `batchItemFailures`; nothing when a handler call panics, which nothing here recovers. */
  method BatchItemFailures<R>(records: seq<R>, handler: Option<RecordHandler<R>>, recordId: R -> string)
    returns (failures: Option<seq<string>>)
    ensures failures == GenericResult(records, handler, recordId)
  {
    hide Trim;
    var out := [];
    for i := 0 to |records|
      invariant PanicFree(records, handler, i)
      invariant out == FailedIds(records, handler, recordId, i)
    {
      if handler.Some? {
        var outcome := handler.value(i, records[i]);
        if outcome == Panic {
          return None;
        }
        if outcome == Ok {
          continue;
        }
      }
      var id := Trim(recordId(records[i]));
      if id == "" {
        continue;
      }
      out := out + [id];
    }
    return Some(out);
  }

  /** `runDynamoDBStreamRecordHandler`: a missing handler fails, and a panic becomes an error. */
  method RunStreamRecordHandler<R>(i: nat, record: R, handler: Option<RecordHandler<R>>) returns (error: Option<int>)
    ensures error == if handler.None? then Some(WORKLOAD_FAILED)
                     else match handler.value(i, record)
                          case Ok => None
                          case Err(e) => Some(e)
                          case Panic => Some(WORKLOAD_FAILED)
  {
    if handler.None? {
      return Some(WORKLOAD_FAILED);
    }
    var outcome := handler.value(i, record);
    match outcome
    case Ok => return None;
    case Err(e) => return Some(e);
    case Panic => return Some(WORKLOAD_FAILED);
  }

  /** The handler with its panics turned into errors. */
  function PanicAsError<R>(handler: Option<RecordHandler<R>>): Option<RecordHandler<R>> {
    if handler.None? then None
    else Some((i: nat, r: R) => if handler.value(i, r) == Panic then Err(WORKLOAD_FAILED) else handler.value(i, r))
  }

  datatype Observed = Succeeded | Errored

  /** `ServeDynamoDBStream`: the same failure list as the generic loop with panics as errors, and
      one observation per record. */
  method ServeDynamoDBStream<R>(records: seq<R>, handler: Option<RecordHandler<R>>, recordId: R -> string)
    returns (failures: seq<string>, observed: seq<Observed>)
    ensures failures == StreamResult(records, handler, recordId)
    ensures |observed| == |records|
    ensures forall i | 0 <= i < |records| ::
              observed[i] == if handler.Some? && handler.value(i, records[i]) == Ok then Succeeded else Errored
  {
    hide Trim;
    failures, observed := [], [];
    for i := 0 to |records|
      invariant failures == FailedIds(records, PanicAsError(handler), recordId, i)
      invariant |observed| == i
      invariant forall k | 0 <= k < i ::
                  observed[k] == if handler.Some? && handler.value(k, records[k]) == Ok then Succeeded else Errored
    {
      var error := RunStreamRecordHandler(i, records[i], handler);
      if error.Some? {
        var id := Trim(recordId(records[i]));
        if id != "" {
          failures := failures + [id];
        }
        observed := observed + [Errored];
        continue;
      }
      observed := observed + [Succeeded];
    }
  }

  /** What the two loops return, side by side. */
  function GenericResult<R>(records: seq<R>, handler: Option<RecordHandler<R>>, recordId: R -> string): Option<seq<string>> {
    if PanicFree(records, handler, |records|) then Some(FailedIds(records, handler, recordId, |records|)) else None
  }

  function StreamResult<R>(records: seq<R>, handler: Option<RecordHandler<R>>, recordId: R -> string): seq<string> {
    FailedIds(records, PanicAsError(handler), recordId, |records|)
  }

  predicate SomePanics<R>(records: seq<R>, handler: Option<RecordHandler<R>>) {
    handler.Some? && exists i | 0 <= i < |records| :: handler.value(i, records[i]) == Panic
  }

  /** The DynamoDB loop returns what the generic one returns for the handler with its panics turned
      into errors.  For the handler itself the generic loop returns nothing exactly when some call
      panics, and otherwise what the DynamoDB loop returns. */
  lemma LoopsAgree<R>(records: seq<R>, handler: Option<RecordHandler<R>>, recordId: R -> string)
    ensures GenericResult(records, PanicAsError(handler), recordId) == Some(StreamResult(records, handler, recordId))
    ensures GenericResult(records, handler, recordId) ==
            if SomePanics(records, handler) then None else Some(StreamResult(records, handler, recordId))
  {
    PanicsAreFailures(records, handler, recordId, |records|);
    hide FailedIds;
  }

  /** A panicking record is reported like a failing one. */
  lemma {:induction false} PanicsAreFailures<R>(records: seq<R>, handler: Option<RecordHandler<R>>, recordId: R -> string, n: nat)
    requires n <= |records|
    ensures FailedIds(records, handler, recordId, n) == FailedIds(records, PanicAsError(handler), recordId, n)
  {
    hide Trim;
    if n > 0 {
      PanicsAreFailures(records, handler, recordId, n - 1);
    }
  }

  predicate Fails<R>(records: seq<R>, handler: Option<RecordHandler<R>>, i: nat)
    requires i < |records|
  {
    handler.None? || handler.value(i, records[i]) != Ok
  }

  /** The record at `i` is to be reported. */
  predicate Reported<R>(records: seq<R>, handler: Option<RecordHandler<R>>, recordId: R -> string, i: nat)
    requires i < |records|
  {
    Fails(records, handler, i) && Trim(recordId(records[i])) != ""
  }

  /** The reported ids are those of the failing records with a non-blank id, trimmed, each record
      once and in batch order: `at` gives the position each id comes from. */
  lemma {:induction false} FailedIdsInOrder<R>(
    records: seq<R>, handler: Option<RecordHandler<R>>, recordId: R -> string, n: nat) returns (at: seq<nat>)
    requires n <= |records|
    ensures |at| == |FailedIds(records, handler, recordId, n)|
    ensures forall k | 0 <= k < |at| :: at[k] < n && Reported(records, handler, recordId, at[k])
    ensures forall k | 0 <= k < |at| :: FailedIds(records, handler, recordId, n)[k] == Trim(recordId(records[at[k]]))
    ensures forall j, k | 0 <= j < k < |at| :: at[j] < at[k]
    ensures forall i | 0 <= i < n && Reported(records, handler, recordId, i) :: i in at
  {
    hide Trim;
    at := [];
    if n > 0 {
      at := FailedIdsInOrder(records, handler, recordId, n - 1);
      if Reported(records, handler, recordId, n - 1) {
        at := at + [n - 1];
      }
    }
  }
}
