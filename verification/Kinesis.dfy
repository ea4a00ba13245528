/** Safe summaries of Kinesis producer records and of partially failed put-records calls
    (`runtime/kinesis_producer.go`). */
module Kinesis {
  import opened Text
  import opened Bytes
  import opened Decimal
  import opened SafeLog
  import opened LogLines
  import HashKeys
  import Utf8

  const MAX_PARTITION_KEY_BYTES := 256
  const MAX_RECORD_DATA_BYTES := 1024 * 1024
  const MAX_RECORDS := 500
  const MAX_ERROR_CODE_BYTES := 128
  const MAX_ERROR_MESSAGE_BYTES := 4096

  datatype Record = Record(partitionKey: string, data: seq<Byte>, explicitHashKey: string)

  datatype ResultRecord = ResultRecord(errorCode: string, errorMessage: string)

  datatype Failure = Failure(
    index: nat, partitionKey: string, explicitHashKey: string, dataBytes: nat, errorCode: string,
    messagePresent: bool, messageBytes: nat)

  // ----- the log lines -----

  function HashKeyField(key: string): seq<Field> {
    if key != "" then [Field("explicit_hash_key", Safe(key))] else []
  }

  function RecordLine(r: Record): Line {
    Line(None, [Field("partition_key", Safe(r.partitionKey))] + HashKeyField(r.explicitHashKey) +
               [Field("data_bytes", Numeral(|r.data|))])
  }

  /** The `SafeLog` of `kinesisJSONRecordSafeSummary`. */
  function RecordSafeLog(r: Record): string {
    Print(RecordLine(r))
  }

  function BoolText(b: bool): string {
    if b then "true" else "false"
  }

  function FailureLine(f: Failure): Line {
    Line(Some("kinesis_put_records_failure"),
         [Field("index", Numeral(f.index)), Field("partition_key", Safe(f.partitionKey))] +
         HashKeyField(f.explicitHashKey) +
         [Field("data_bytes", Numeral(f.dataBytes)), Field("error_code", Safe(f.errorCode)),
          Field("error_message_present", BoolText(f.messagePresent)), Field("error_message_bytes", Numeral(f.messageBytes))])
  }

  /** `kinesisPutRecordsFailureSafeLog`. */
  function FailureSafeLog(f: Failure): string {
    Print(FailureLine(f))
  }

  /** The record line, spelled out. */
  lemma RecordSafeLogText(r: Record)
    ensures RecordSafeLog(r) ==
            Word(Field("partition_key", Safe(r.partitionKey))) + " " +
            (if r.explicitHashKey != "" then Word(Field("explicit_hash_key", Safe(r.explicitHashKey))) + " " else "") +
            Word(Field("data_bytes", Numeral(|r.data|)))
  {
    hide Safe, Numeral, Word, Words, Join;
    var key, size := Field("partition_key", Safe(r.partitionKey)), Field("data_bytes", Numeral(|r.data|));
    if r.explicitHashKey != "" {
      var hash := Field("explicit_hash_key", Safe(r.explicitHashKey));
      PrintThree(key, hash, size);
      assert RecordLine(r).fields == [key, hash, size];
    } else {
      PrintTwo(key, size);
      assert RecordLine(r).fields == [key, size];
    }
  }

  /** The failure line, spelled out: which text stands under which key, in which order. */
  lemma FailureSafeLogText(f: Failure)
    ensures var hash := if f.explicitHashKey != "" then [Word(Field("explicit_hash_key", Safe(f.explicitHashKey)))] else [];
            FailureSafeLog(f) == Join(
              ["kinesis_put_records_failure", Word(Field("index", Numeral(f.index))),
               Word(Field("partition_key", Safe(f.partitionKey)))] + hash +
              [Word(Field("data_bytes", Numeral(f.dataBytes))), Word(Field("error_code", Safe(f.errorCode))),
               Word(Field("error_message_present", if f.messagePresent then "true" else "false")),
               Word(Field("error_message_bytes", Numeral(f.messageBytes)))], " ")
  {
    hide Safe, Numeral, Word, Join;
    var fields := FailureLine(f).fields;
    WordsAt(fields);
    hide Words;
    var words := ["kinesis_put_records_failure"] + Words(fields);
    var hash := if f.explicitHashKey != "" then [Word(Field("explicit_hash_key", Safe(f.explicitHashKey)))] else [];
    assert words ==
           ["kinesis_put_records_failure", Word(Field("index", Numeral(f.index))),
            Word(Field("partition_key", Safe(f.partitionKey)))] + hash +
           [Word(Field("data_bytes", Numeral(f.dataBytes))), Word(Field("error_code", Safe(f.errorCode))),
            Word(Field("error_message_present", if f.messagePresent then "true" else "false")),
            Word(Field("error_message_bytes", Numeral(f.messageBytes)))];
  }

  lemma {:induction false} WordsAt(fields: seq<Field>)
    ensures forall k | 0 <= k < |fields| :: Words(fields)[k] == Word(fields[k])
  {
    hide Word;
    if fields != [] {
      WordsAt(fields[1..]);
    }
  }

  lemma PrintTwo(a: Field, b: Field)
    ensures Print(Line(None, [a, b])) == Word(a) + " " + Word(b)
  {
    hide Word;
    WordsOfTwo(a, b);
    assert [] + [Word(a), Word(b)] == [Word(a), Word(b)];
    JoinTwo(Word(a), Word(b));
  }

  lemma PrintThree(a: Field, b: Field, c: Field)
    ensures Print(Line(None, [a, b, c])) == Word(a) + " " + Word(b) + " " + Word(c)
  {
    hide Word;
    WordsOfThree(a, b, c);
    assert [] + [Word(a), Word(b), Word(c)] == [Word(a), Word(b), Word(c)];
    JoinThree(Word(a), Word(b), Word(c));
  }

  lemma WordsOfTwo(a: Field, b: Field)
    ensures Words([a, b]) == [Word(a), Word(b)]
  {
    hide Word;
    assert [a, b][1..] == [b] && [b][1..] == [];
  }

  lemma WordsOfThree(a: Field, b: Field, c: Field)
    ensures Words([a, b, c]) == [Word(a), Word(b), Word(c)]
  {
    hide Word;
    assert [a, b, c][1..] == [b, c];
    WordsOfTwo(b, c);
  }

  lemma JoinTwo(a: string, b: string)
    ensures Join([a, b], " ") == a + " " + b
  {
    assert [a, b][1..] == [b];
  }

  lemma JoinThree(a: string, b: string, c: string)
    ensures Join([a, b, c], " ") == a + " " + b + " " + c
  {
    assert [a, b, c][1..] == [b, c];
    JoinTwo(b, c);
  }

  lemma SafePlain(s: string)
    ensures Plain(Safe(s))
  {
    SafeHarmless(s);
    HarmlessAvoids(Safe(s));
    hide Safe;
  }

  lemma NumeralPlain(n: nat)
    ensures Plain(Numeral(n))
  {
    var s := Numeral(n);
    hide Numeral;
    assert forall i | 0 <= i < |s| :: IsDigit(s[i]);
  }

  lemma HashKeyPlain(key: string)
    ensures PlainFields(HashKeyField(key))
  {
    SafePlain(key);
    hide Safe;
  }

  /** A record's log line reads back as its fields. */
  lemma RecordLogParses(r: Record)
    ensures Parse(RecordSafeLog(r)) == Some(RecordLine(r))
  {
    SafePlain(r.partitionKey);
    NumeralPlain(|r.data|);
    HashKeyPlain(r.explicitHashKey);
    assert Plain("partition_key") && Plain("data_bytes");
    hide Plain, Safe, Numeral, HashKeyField, Parse, Print;
    PrintParses(RecordLine(r));
  }

  /** A failure's log line reads back as its fields. */
  lemma FailureLogParses(f: Failure)
    ensures Parse(FailureSafeLog(f)) == Some(FailureLine(f))
  {
    SafePlain(f.partitionKey);
    SafePlain(f.errorCode);
    NumeralPlain(f.index);
    NumeralPlain(f.dataBytes);
    NumeralPlain(f.messageBytes);
    HashKeyPlain(f.explicitHashKey);
    FailureNamesPlain(f.messagePresent);
    hide Plain, Safe, Numeral, HashKeyField, Parse, Print, BoolText;
    PrintParses(FailureLine(f));
  }

  lemma FailureNamesPlain(b: bool)
    ensures Plain("kinesis_put_records_failure") && Plain("index") && Plain("partition_key") && Plain("data_bytes")
    ensures Plain("error_code") && Plain("error_message_present") && Plain("error_message_bytes") && Plain(BoolText(b))
  {
  }

  lemma SafeInjective(a: string, b: string)
    requires Safe(a) == Safe(b)
    ensures a == b
  {
    SafeRoundTrip(a);
    SafeRoundTrip(b);
    hide Safe, Unsafe;
  }

  lemma NumeralInjective(a: nat, b: nat)
    requires Numeral(a) == Numeral(b)
    ensures a == b
  {
    NumeralValue(a);
    NumeralValue(b);
    hide Numeral, Value;
  }

  /** No two failures have the same log line: every field can be recovered from it, with or
      without a hash key. */
  lemma FailureLogInjective(f: Failure, g: Failure)
    requires FailureSafeLog(f) == FailureSafeLog(g)
    ensures f == g
  {
    FailureLogParses(f);
    FailureLogParses(g);
    hide Parse, Print;
    assert FailureLine(f) == FailureLine(g);
    SameFailureFields(f, g);
  }

  lemma SameFailureFields(f: Failure, g: Failure)
    requires FailureLine(f).fields == FailureLine(g).fields
    ensures f == g
  {
    hide Safe, Numeral;
    var a, b := FailureLine(f).fields, FailureLine(g).fields;
    assert |a| == |b|;
    assert f.explicitHashKey == "" <==> g.explicitHashKey == "";
    var k := if f.explicitHashKey == "" then 2 else 3;
    assert a[0] == b[0] && a[1] == b[1] && a[2] == b[2];
    assert a[k] == b[k] && a[k + 1] == b[k + 1] && a[k + 2] == b[k + 2] && a[k + 3] == b[k + 3];
    NumeralInjective(f.index, g.index);
    SafeInjective(f.partitionKey, g.partitionKey);
    if f.explicitHashKey != "" { SafeInjective(f.explicitHashKey, g.explicitHashKey); }
    NumeralInjective(f.dataBytes, g.dataBytes);
    SafeInjective(f.errorCode, g.errorCode);
    NumeralInjective(f.messageBytes, g.messageBytes);
  }

  /** Records with the same log line agree on everything it mentions. */
  lemma RecordLogInjective(r: Record, t: Record)
    requires RecordSafeLog(r) == RecordSafeLog(t)
    ensures r.partitionKey == t.partitionKey && r.explicitHashKey == t.explicitHashKey && |r.data| == |t.data|
  {
    RecordLogParses(r);
    RecordLogParses(t);
    hide Parse, Print, Safe, Numeral;
    var a, b := RecordLine(r).fields, RecordLine(t).fields;
    assert a == b && |a| == |b|;
    assert a[0] == b[0] && a[1] == b[1] && a[|a| - 1] == b[|b| - 1];
    SafeInjective(r.partitionKey, t.partitionKey);
    if r.explicitHashKey != "" { SafeInjective(r.explicitHashKey, t.explicitHashKey); }
    NumeralInjective(|r.data|, |t.data|);
  }

  // ----- the failure report -----

  /** `normalizeKinesisPartitionKey`. */
  function NormalizedPartitionKey(value: string): Option<string> {
    var key := Trim(value);
    if key == "" || |Utf8.Encode(key)| > MAX_PARTITION_KEY_BYTES then None else Some(key)
  }

  /** `normalizeKinesisReportRecord`. */
  function NormalizedRecord(r: Record): Option<Record> {
    var key, hash := NormalizedPartitionKey(r.partitionKey), HashKeys.NormalizedKey(r.explicitHashKey);
    if key.None? || hash.None? || |r.data| == 0 || |r.data| > MAX_RECORD_DATA_BYTES then None
    else Some(r.(partitionKey := key.value, explicitHashKey := hash.value))
  }

  /** `normalizeKinesisPutRecordsResultRecord`. */
  function NormalizedResult(r: ResultRecord): Option<ResultRecord> {
    var code, message := Trim(r.errorCode), Trim(r.errorMessage);
    if code == "" && message != "" then None
    else if |Utf8.Encode(code)| > MAX_ERROR_CODE_BYTES then None
    else if exists i | 0 <= i < |code| :: code[i] <= ' ' || code[i] as int == 0x7F then None
    else if |Utf8.Encode(message)| > MAX_ERROR_MESSAGE_BYTES then None
    else Some(ResultRecord(code, message))
  }

  function FailureOf(index: nat, record: Record, result: ResultRecord): Failure {
    Failure(index, record.partitionKey, record.explicitHashKey, |record.data|, result.errorCode,
            result.errorMessage != "", |Utf8.Encode(result.errorMessage)|)
  }

  datatype Report = Report(recordCount: nat, failedRecordCount: nat, failures: seq<Failure>)

  predicate ValidAt(records: seq<Record>, results: seq<ResultRecord>, i: nat)
    requires i < |records| == |results|
  {
    NormalizedRecord(records[i]).Some? && NormalizedResult(results[i]).Some?
  }

  predicate FailedAt(results: seq<ResultRecord>, i: nat)
    requires i < |results|
  {
    NormalizedResult(results[i]).Some? && NormalizedResult(results[i]).value.errorCode != ""
  }

  /** `failures` holds, in order, one failure for each of the first `n` results with an error code. */
  ghost predicate ReportsFailures(records: seq<Record>, results: seq<ResultRecord>, n: nat, failures: seq<Failure>)
    requires n <= |records| == |results|
  {
    && (forall k | 0 <= k < |failures| ::
          var i := failures[k].index;
          i < n && ValidAt(records, results, i) && FailedAt(results, i) &&
          failures[k] == FailureOf(i, NormalizedRecord(records[i]).value, NormalizedResult(results[i]).value))
    && (forall j, k | 0 <= j < k < |failures| :: failures[j].index < failures[k].index)
    && (forall i | 0 <= i < n && FailedAt(results, i) :: exists k | 0 <= k < |failures| :: failures[k].index == i)
  }

  /** `ReportKinesisPutRecordsFailures`: nothing when the call is malformed. */
  method ReportFailures(records: seq<Record>, results: seq<ResultRecord>) returns (report: Option<Report>)
    ensures report.Some? <==>
              |records| == |results| <= MAX_RECORDS && forall i | 0 <= i < |records| :: ValidAt(records, results, i)
    ensures report.Some? ==>
              && report.value.recordCount == |records| && report.value.failedRecordCount == |report.value.failures|
              && ReportsFailures(records, results, |records|, report.value.failures)
  {
    hide NormalizedRecord, NormalizedResult;
    if |records| != |results| {
      return None;
    }
    if |records| > MAX_RECORDS {
      return None;
    }
    var failures: seq<Failure> := [];
    for i := 0 to |records|
      invariant forall k | 0 <= k < i :: ValidAt(records, results, k)
      invariant ReportsFailures(records, results, i, failures)
    {
      var record := NormalizedRecord(records[i]);
      if record.None? {
        assert !ValidAt(records, results, i);
        return None;
      }
      var result := NormalizedResult(results[i]);
      if result.None? {
        assert !ValidAt(records, results, i);
        return None;
      }
      if result.value.errorCode == "" {
        continue;
      }
      AppendFailure(records, results, i, failures);
      failures := failures + [FailureOf(i, record.value, result.value)];
    }
    return Some(Report(|records|, |failures|, failures));
  }

  /** What a reported failure says about its record and result: their position, the trimmed partition key, the
      numeral of the hash key, the sizes in bytes, and whether there was a message, but not the message. */
  lemma ReportedFailure(records: seq<Record>, results: seq<ResultRecord>, failures: seq<Failure>, k: nat)
    requires |records| == |results| && ReportsFailures(records, results, |records|, failures) && k < |failures|
    ensures var f := failures[k];
            && f.index < |records|
            && var record, result := records[f.index], results[f.index];
               && f.partitionKey == Trim(record.partitionKey) && Some(f.explicitHashKey) == HashKeys.NormalizedKey(record.explicitHashKey)
               && f.dataBytes == |record.data| && f.errorCode == Trim(result.errorCode) != ""
               && f.messagePresent == (Trim(result.errorMessage) != "")
               && f.messageBytes == |Utf8.Encode(Trim(result.errorMessage))|
  {
    hide Trim, HashKeys.NormalizedKey, Utf8.Encode;
    assert ValidAt(records, results, failures[k].index) && FailedAt(results, failures[k].index);
  }

  /** Which records and results a report accepts: a partition key of 1 to 256 bytes after trimming, a hash
      key within range, 1 to 1048576 bytes of data; and an error code of at most 128 bytes without control
      characters or spaces, with a message of at most 4096 bytes only beside a code. */
  lemma AcceptedAt(records: seq<Record>, results: seq<ResultRecord>, i: nat)
    requires i < |records| == |results|
    ensures var r, code, message := records[i], Trim(results[i].errorCode), Trim(results[i].errorMessage);
            ValidAt(records, results, i) <==>
              && Trim(r.partitionKey) != "" && |Utf8.Encode(Trim(r.partitionKey))| <= 256
              && HashKeys.NormalizedKey(r.explicitHashKey).Some?
              && 1 <= |r.data| <= 1048576
              && (code == "" ==> message == "")
              && |Utf8.Encode(code)| <= 128 && |Utf8.Encode(message)| <= 4096
              && forall k | 0 <= k < |code| :: code[k] as int > 0x20 && code[k] as int != 0x7F
  {
    hide Trim, HashKeys.NormalizedKey, Utf8.Encode;
  }

  lemma AppendFailure(records: seq<Record>, results: seq<ResultRecord>, n: nat, failures: seq<Failure>)
    requires n < |records| == |results| && ReportsFailures(records, results, n, failures)
    requires ValidAt(records, results, n) && FailedAt(results, n)
    ensures ReportsFailures(records, results, n + 1,
                            failures + [FailureOf(n, NormalizedRecord(records[n]).value, NormalizedResult(results[n]).value)])
  {
    hide NormalizedRecord, NormalizedResult;
    var next := failures + [FailureOf(n, NormalizedRecord(records[n]).value, NormalizedResult(results[n]).value)];
    forall i | 0 <= i < n + 1 && FailedAt(results, i) ensures exists k | 0 <= k < |next| :: next[k].index == i {
      if i == n {
        assert next[|failures|].index == n;
      } else {
        var k :| 0 <= k < |failures| && failures[k].index == i;
        assert next[k].index == i;
      }
    }
  }
}
