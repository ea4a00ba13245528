/** The context of one non-HTTP event record (`runtime/aws_event_context.go`). */
module EventContext {
  import opened Text
  import opened Bytes

  class EventContext {
    const requestId: string
    const remainingMs: int
    const rawEvent: array<Byte>
    var values: map<string, string>

    constructor (requestId: string, remainingMs: int, rawEvent: array<Byte>)
      ensures this.requestId == requestId && this.remainingMs == remainingMs && this.rawEvent == rawEvent
      ensures values == map[]
    {
      this.requestId, this.remainingMs, this.rawEvent := requestId, remainingMs, rawEvent;
      values := map[];
    }

    /** `cloneForRecord`: a new object with its own copy of the raw event and no values. */
    method CloneForRecord() returns (clone: EventContext)
      ensures fresh(clone) && fresh(clone.rawEvent)
      ensures clone.requestId == requestId && clone.remainingMs == remainingMs
      ensures clone.rawEvent[..] == rawEvent[..] && clone.values == map[]
    {
      var copied := new Byte[rawEvent.Length](i requires 0 <= i < rawEvent.Length reads rawEvent => rawEvent[i]);
      assert copied[..] == rawEvent[..];
      clone := new EventContext(requestId, remainingMs, copied);
    }

    /** `Set`; a blank key is ignored. */
    method Set(key: string, value: string)
      modifies this
      ensures values == if Trim(key) == "" then old(values) else old(values)[Trim(key) := value]
    {
      var name := Trim(key);
      if name == "" {
        return;
      }
      values := values[name := value];
    }

    /** `Get`. */
    function Get(key: string): Option<string>
      reads this
    {
      Lookup(values, key)
    }
  }

  function Lookup(values: map<string, string>, key: string): Option<string> {
    if Trim(key) != "" && Trim(key) in values then Some(values[Trim(key)]) else None
  }

  // ----- record handlers -----

  datatype Action = SetValue(key: string, value: string) | GetValue(key: string)

  /** An action performed and what it returned. */
  datatype Step = Step(action: Action, seen: Option<string>)

  /** A record handler: its next action, if any, may depend on all it has done and seen so far. */
  type RecordHandler = seq<Step> -> Option<Action>

  /** The values of a fresh context after the steps. */
  function Values(steps: seq<Step>): map<string, string> {
    if steps == [] then map[]
    else
      var before := Values(steps[..|steps| - 1]);
      match steps[|steps| - 1].action
      case GetValue(_) => before
      case SetValue(key, value) => if Trim(key) == "" then before else before[Trim(key) := value]
  }

  function Perform(steps: seq<Step>, action: Action): Step {
    Step(action, if action.GetValue? then Lookup(Values(steps), action.key) else None)
  }

  /** The first `n` steps of a handler that has a fresh context to itself. */
  function StepsAlone(handler: RecordHandler, n: nat): (steps: seq<Step>)
    ensures |steps| <= n
  {
    if n == 0 then []
    else
      var before := StepsAlone(handler, n - 1);
      if handler(before).None? then before else before + [Perform(before, handler(before).value)]
  }

  /** Step `j` gives the name `key` a value. */
  predicate Sets(steps: seq<Step>, j: nat, key: string)
    requires j < |steps|
  {
    steps[j].action.SetValue? && Trim(key) != "" && Trim(steps[j].action.key) == Trim(key)
  }

  /** Among the first `n` steps, `j` is the last that gives the name `key` a value. */
  ghost predicate LastSet(steps: seq<Step>, n: nat, j: int, key: string)
    requires n <= |steps|
  {
    0 <= j < n && Sets(steps, j, key) && forall k | j < k < n :: !Sets(steps, k, key)
  }

  ghost predicate NeverSet(steps: seq<Step>, n: nat, key: string)
    requires n <= |steps|
  {
    forall j | 0 <= j < n :: !Sets(steps, j, key)
  }

  /** Looking a key up gives what was last set under any spelling of it. */
  lemma {:induction false} LastSetWins(steps: seq<Step>, n: nat, j: nat, key: string)
    requires n <= |steps| && LastSet(steps, n, j, key)
    ensures Lookup(Values(steps[..n]), key) == Some(steps[j].action.value)
  {
    hide Sets, Lookup, Values;
    LookupStep(steps, n, key);
    if j < n - 1 {
      LastSetWins(steps, n - 1, j, key);
    }
  }

  /** Looking a key up gives nothing if nothing was set under it. */
  lemma {:induction false} NeverSetMissing(steps: seq<Step>, n: nat, key: string)
    requires n <= |steps| && NeverSet(steps, n, key)
    ensures Lookup(Values(steps[..n]), key) == None
  {
    if n > 0 {
      hide Sets, Lookup, Values;
      LookupStep(steps, n, key);
      NeverSetMissing(steps, n - 1, key);
    }
  }

  lemma LookupStep(steps: seq<Step>, n: nat, key: string)
    requires 0 < n <= |steps|
    ensures Lookup(Values(steps[..n]), key) ==
            if Sets(steps, n - 1, key) then Some(steps[n - 1].action.value) else Lookup(Values(steps[..n - 1]), key)
  {
    hide Trim;
    assert steps[..n][..n - 1] == steps[..n - 1];
  }

  lemma {:induction false} StepsExtend(handler: RecordHandler, m: nat, n: nat)
    requires m <= n
    ensures StepsAlone(handler, m) <= StepsAlone(handler, n)
  {
    if m < n {
      StepsExtend(handler, m, n - 1);
    }
  }

  lemma {:induction false} StepSeen(handler: RecordHandler, n: nat, i: nat)
    requires i < |StepsAlone(handler, n)|
    ensures var steps := StepsAlone(handler, n); steps[i] == Perform(steps[..i], steps[i].action)
  {
    var before := StepsAlone(handler, n - 1);
    var steps := StepsAlone(handler, n);
    if i < |before| {
      StepSeen(handler, n - 1, i);
      assert steps[..i] == before[..i];
    } else {
      assert steps[..i] == before;
    }
  }

  /** What a handler's `Get` sees is what the same handler last set under that key, if anything. */
  lemma GetSeesOwnSets(handler: RecordHandler, n: nat, i: nat)
    requires i < |StepsAlone(handler, n)| && StepsAlone(handler, n)[i].action.GetValue?
    ensures var steps := StepsAlone(handler, n); var key := steps[i].action.key;
            && (NeverSet(steps, i, key) ==> steps[i].seen == None)
            && (forall j | LastSet(steps, i, j, key) :: steps[i].seen == Some(steps[j].action.value))
            && (NeverSet(steps, i, key) || exists j :: LastSet(steps, i, j, key))
  {
    hide StepsAlone, Values, Lookup, NeverSet, Trim;
    var steps := StepsAlone(handler, n);
    var key := steps[i].action.key;
    StepSeen(handler, n, i);
    if NeverSet(steps, i, key) {
      NeverSetMissing(steps, i, key);
    }
    forall j | LastSet(steps, i, j, key) ensures Lookup(Values(steps[..i]), key) == Some(steps[j].action.value) {
      LastSetWins(steps, i, j, key);
    }
    SetOrNot(steps, i, key);
  }

  lemma {:induction false} SetOrNot(steps: seq<Step>, n: nat, key: string)
    requires n <= |steps|
    ensures NeverSet(steps, n, key) || exists j :: LastSet(steps, n, j, key)
  {
    hide Sets;
    if n > 0 {
      SetOrNot(steps, n - 1, key);
      if Sets(steps, n - 1, key) {
        assert LastSet(steps, n, n - 1, key);
      } else if !NeverSet(steps, n - 1, key) {
        var j :| LastSet(steps, n - 1, j, key);
        assert LastSet(steps, n, j, key);
      }
    }
  }

  /** At most `n` steps of a handler on its context. */
  method RunHandler(ctx: EventContext, handler: RecordHandler, n: nat) returns (steps: seq<Step>)
    requires ctx.values == map[]
    modifies ctx
    ensures steps == StepsAlone(handler, n) && ctx.values == Values(steps)
  {
    hide Trim;
    steps := [];
    for i := 0 to n
      invariant steps == StepsAlone(handler, i)
      invariant ctx.values == Values(steps)
    {
      var action := handler(steps);
      if action.None? {
        continue;
      }
      ghost var before := steps;
      match action.value {
        case SetValue(key, value) =>
          ctx.Set(key, value);
          steps := steps + [Step(action.value, None)];
        case GetValue(key) =>
          var seen := ctx.Get(key);
          steps := steps + [Step(action.value, seen)];
      }
      assert steps[..|steps| - 1] == before;
    }
  }

  /** Record handlers run one after the other, each on its own clone: every handler does and sees
      exactly what it would alone, every record's context ends with what its own handler set, and the
      shared context is untouched. */
  method RunRecords(shared: EventContext, handlers: seq<RecordHandler>, n: nat)
    returns (contexts: seq<EventContext>, runs: seq<seq<Step>>)
    ensures |contexts| == |runs| == |handlers|
    ensures forall i | 0 <= i < |contexts| :: fresh(contexts[i]) && fresh(contexts[i].rawEvent)
    ensures forall i, j | 0 <= i < j < |contexts| :: contexts[i] != contexts[j] && contexts[i].rawEvent != contexts[j].rawEvent
    ensures forall i | 0 <= i < |runs| :: runs[i] == StepsAlone(handlers[i], n) && contexts[i].values == Values(runs[i])
    ensures forall i | 0 <= i < |contexts| :: contexts[i].rawEvent[..] == shared.rawEvent[..]
    ensures shared.values == old(shared.values) && shared.rawEvent[..] == old(shared.rawEvent[..])
  {
    hide Values, StepsAlone;
    contexts, runs := [], [];
    for i := 0 to |handlers|
      invariant |contexts| == |runs| == i
      invariant forall k | 0 <= k < i :: fresh(contexts[k]) && fresh(contexts[k].rawEvent)
      invariant forall j, k | 0 <= j < k < i :: contexts[j] != contexts[k] && contexts[j].rawEvent != contexts[k].rawEvent
      invariant forall k | 0 <= k < i :: runs[k] == StepsAlone(handlers[k], n) && contexts[k].values == Values(runs[k])
      invariant forall k | 0 <= k < i :: contexts[k].rawEvent[..] == shared.rawEvent[..]
      invariant shared.values == old(shared.values) && shared.rawEvent[..] == old(shared.rawEvent[..])
    {
      var ctx := shared.CloneForRecord();
      var steps := RunHandler(ctx, handlers[i], n);
      contexts := contexts + [ctx];
      runs := runs + [steps];
    }
  }
}
