/** The timeout middleware (`runtime/timeout_middleware.go`): the choice of a timeout, and the
    race between the worker goroutine and the waiting caller under every interleaving. */
module Timeout {
  import opened Text

  // ----- choosing the timeout -----

  const MILLISECOND := 1_000_000
  const INT64_MAX := 0x7FFF_FFFF_FFFF_FFFF

  /** Durations are 64-bit nanosecond counts, and their product wraps around. */
  type Int64 = n: int | -INT64_MAX - 1 <= n <= INT64_MAX

  predicate Fits64(n: int) {
    -INT64_MAX - 1 <= n <= INT64_MAX
  }

  /** The one 64-bit number congruent to `n`. */
  function Wrap64(n: int): (r: Int64)
    ensures (n - r) % 0x1_0000_0000_0000_0000 == 0
    ensures Fits64(n) ==> r == n
    ensures n > 0 ==> r <= n
  {
    var m := n % 0x1_0000_0000_0000_0000;
    if m > INT64_MAX then m - 0x1_0000_0000_0000_0000 else m
  }

  datatype TimeoutConfig = TimeoutConfig(
    defaultTimeout: Int64, operationTimeouts: map<string, Int64>, tenantTimeouts: map<string, Int64>, message: string)

  const DEFAULT_TIMEOUT: Int64 := 30 * 1000 * MILLISECOND

  /** `normalizeTimeoutConfig`. */
  function NormalizedConfig(c: TimeoutConfig): TimeoutConfig {
    c.(defaultTimeout := if c.defaultTimeout == 0 then DEFAULT_TIMEOUT else c.defaultTimeout,
       message := if c.message == "" then "request timeout" else c.message)
  }

  datatype CallContext = CallContext(httpMethod: string, path: string, tenantId: string, remainingMs: Int64)

  /** The most specific configured timeout: by operation, then by tenant, then the default. */
  function ConfiguredTimeout(ctx: CallContext, c: TimeoutConfig): Int64 {
    var operation := ctx.httpMethod + ":" + ctx.path;
    if operation in c.operationTimeouts then c.operationTimeouts[operation]
    else if ctx.tenantId != "" && ctx.tenantId in c.tenantTimeouts then c.tenantTimeouts[ctx.tenantId]
    else c.defaultTimeout
  }

  /** A timeout for the operation wins over one for the tenant, and that over the default; a default that
      is not set is thirty seconds. */
  lemma TimeoutPrecedence(ctx: CallContext, c: TimeoutConfig)
    ensures var operation := ctx.httpMethod + ":" + ctx.path; var t := ConfiguredTimeout(ctx, NormalizedConfig(c));
            && (operation in c.operationTimeouts ==> t == c.operationTimeouts[operation])
            && (operation !in c.operationTimeouts && ctx.tenantId != "" && ctx.tenantId in c.tenantTimeouts ==>
                  t == c.tenantTimeouts[ctx.tenantId])
            && (operation !in c.operationTimeouts && (ctx.tenantId == "" || ctx.tenantId !in c.tenantTimeouts) ==>
                  t == if c.defaultTimeout == 0 then 30_000_000_000 else c.defaultTimeout)
    ensures NormalizedConfig(c).message == if c.message == "" then "request timeout" else c.message
  {
    assert DEFAULT_TIMEOUT == 30_000_000_000;
  }

  /** The remaining time in nanoseconds, as the 64-bit product yields it. */
  function RemainingNanoseconds(ctx: CallContext): Int64 {
    Wrap64(ctx.remainingMs * MILLISECOND)
  }

  /** `timeoutForContext`: what is configured, or the remaining time if it is known and shorter;
      never longer than either, even where the conversion to nanoseconds overflows. */
  method TimeoutForContext(ctx: CallContext, c: TimeoutConfig) returns (timeout: Int64)
    ensures timeout == if ctx.remainingMs > 0 && 0 < RemainingNanoseconds(ctx) < ConfiguredTimeout(ctx, c)
                       then RemainingNanoseconds(ctx) else ConfiguredTimeout(ctx, c)
    ensures timeout <= ConfiguredTimeout(ctx, c)
    ensures ctx.remainingMs > 0 ==> timeout <= ctx.remainingMs * MILLISECOND
  {
    timeout := c.defaultTimeout;
    if ctx.tenantId != "" {
      if ctx.tenantId in c.tenantTimeouts {
        timeout := c.tenantTimeouts[ctx.tenantId];
      }
    }
    var operation := ctx.httpMethod + ":" + ctx.path;
    if operation in c.operationTimeouts {
      timeout := c.operationTimeouts[operation];
    }
    if ctx.remainingMs > 0 {
      var remaining := Wrap64(ctx.remainingMs * MILLISECOND);
      if remaining > 0 && remaining < timeout {
        timeout := remaining;
      }
    }
  }

  /** How long the middleware waits for a call, if it races at all: without a positive timeout it
      calls the handler directly. */
  method ChooseTimeout(config: TimeoutConfig, ctx: CallContext) returns (timeout: Option<Int64>)
    ensures timeout.None? <==> ConfiguredTimeout(ctx, NormalizedConfig(config)) <= 0
    ensures timeout.Some? ==> 0 < timeout.value <= ConfiguredTimeout(ctx, NormalizedConfig(config))
    ensures timeout.Some? && ctx.remainingMs > 0 ==> timeout.value <= ctx.remainingMs * MILLISECOND
    ensures config.defaultTimeout >= 0 && config.operationTimeouts == map[] && config.tenantTimeouts == map[] ==> timeout.Some?
  {
    var cfg := NormalizedConfig(config);
    var t := TimeoutForContext(ctx, cfg);
    if t <= 0 {
      return None;
    }
    return Some(t);
  }

  /** Remaining milliseconds that come from a deadline never overflow: the deadline itself is a
      64-bit count of nanoseconds. */
  lemma DeadlineNeverWraps(ctx: CallContext, untilDeadline: Int64)
    requires untilDeadline > 0 && ctx.remainingMs == untilDeadline / MILLISECOND
    ensures RemainingNanoseconds(ctx) == ctx.remainingMs * MILLISECOND <= untilDeadline
  {
    assert ctx.remainingMs * MILLISECOND <= untilDeadline;
  }

  /** Set by other means they can: these 585 years wrap around to less than a millisecond. */
  lemma RemainingTimeWraps(ctx: CallContext)
    requires ctx.remainingMs == 18_446_744_073_710
    ensures RemainingNanoseconds(ctx) == 448_384
  {
  }

  // ----- the race -----

  /** What the wrapped handler does in the worker goroutine; exiting the goroutine is the way to
      end it without returning or panicking. */
  datatype WorkerBehaviour<+R> = Returns(result: R) | Panics | Exits

  /** A result on its way to the caller: the handler's own, the internal error a panic is turned
      into, or the timeout error. */
  datatype Answer<+R> = FromHandler(result: R) | InternalError | TimeoutError

  datatype WorkerPc<+R> = Running | Sending(message: Answer<R>) | WorkerDone

  datatype CallerPc<+R> = Waiting | Finished(answer: Answer<R>)

  /** The channel has one slot; `sent` counts the sends that completed.  The derived context is done
      when its deadline has passed or its parent is cancelled. */
  datatype Race<+R> = Race(
    worker: WorkerPc<R>, slot: Option<Answer<R>>, sent: nat, deadlinePassed: bool, parentCancelled: bool, caller: CallerPc<R>)
  {
    predicate ContextDone() {
      deadlinePassed || parentCancelled
    }
  }

  /** One atomic step of the worker, the clock, the owner of the parent context or the caller.  The
      caller's select may take either ready case. */
  datatype Move = WorkerMoves | DeadlinePasses | ParentCancels | CallerTakesResult | CallerSeesDone

  function Start<R>(): Race<R> {
    Race(Running, None, 0, false, false, Waiting)
  }

  function Message<R>(b: WorkerBehaviour<R>): Option<Answer<R>> {
    match b
    case Returns(r) => Some(FromHandler(r))
    case Panics => Some(InternalError)
    case Exits => None
  }

  /** The worker cannot complete a send while the slot is taken. */
  predicate WorkerBlocked<R>(s: Race<R>) {
    s.worker.Sending? && s.slot.Some?
  }

  function Next<R>(b: WorkerBehaviour<R>, s: Race<R>, move: Move): Race<R> {
    match move
    case WorkerMoves =>
      (match s.worker
       case Running => if Message(b).None? then s.(worker := WorkerDone) else s.(worker := Sending(Message(b).value))
       case Sending(m) => if s.slot.Some? then s else s.(slot := Some(m), sent := s.sent + 1, worker := WorkerDone)
       case WorkerDone => s)
    case DeadlinePasses => s.(deadlinePassed := true)
    case ParentCancels => s.(parentCancelled := true)
    case CallerTakesResult =>
      if s.caller == Waiting && s.slot.Some? then s.(slot := None, caller := Finished(s.slot.value)) else s
    case CallerSeesDone =>
      if s.caller == Waiting && s.ContextDone() then s.(caller := Finished(TimeoutError)) else s
  }

  function Run<R>(b: WorkerBehaviour<R>, schedule: seq<Move>): Race<R> {
    if schedule == [] then Start() else Next(b, Run(b, schedule[..|schedule| - 1]), schedule[|schedule| - 1])
  }

  ghost predicate Inv<R>(b: WorkerBehaviour<R>, s: Race<R>) {
    && (s.worker.Sending? ==> Message(b) == Some(s.worker.message))
    && (s.slot.Some? ==> s.slot == Message(b) && s.caller != Finished(s.slot.value))
    && s.sent <= 1 && (s.sent == 1 ==> s.worker == WorkerDone && Message(b).Some?)
    && (s.sent == 0 ==> s.slot.None? && (s.worker == WorkerDone ==> Message(b).None?))
    && (s.caller.Finished? ==>
          || (s.caller.answer == TimeoutError && s.ContextDone())
          || (Message(b) == Some(s.caller.answer) && s.sent == 1 && s.slot.None?))
    && (s.caller == Waiting && s.sent == 1 ==> s.slot.Some?)
  }

  lemma {:induction false} RunInv<R>(b: WorkerBehaviour<R>, schedule: seq<Move>)
    ensures Inv(b, Run(b, schedule))
  {
    if schedule != [] {
      RunInv(b, schedule[..|schedule| - 1]);
    }
  }

  /** In every interleaving the worker sends at most once and its send never blocks, and a caller
      that has returned has the worker's own message or, only once the deadline has passed or the
      parent context is cancelled, the timeout error. */
  lemma WorkerNeverBlocks<R>(b: WorkerBehaviour<R>, schedule: seq<Move>)
    ensures var s := Run(b, schedule);
            && s.sent <= 1 && !WorkerBlocked(s)
            && (s.caller.Finished? ==>
                  (s.ContextDone() && s.caller.answer == TimeoutError) || Some(s.caller.answer) == Message(b))
  {
    RunInv(b, schedule);
  }

  /** The answer is final: once the caller has returned, no further step changes what it returned. */
  lemma {:induction false} AnswerIsFinal<R>(b: WorkerBehaviour<R>, before: seq<Move>, after: seq<Move>)
    requires Run(b, before).caller.Finished?
    ensures Run(b, before + after).caller == Run(b, before).caller
  {
    if after == [] {
      assert before + after == before;
    } else {
      var all := before + after;
      assert all[..|all| - 1] == before + after[..|after| - 1];
      AnswerIsFinal(b, before, after[..|after| - 1]);
    }
  }

  /** A waiting caller is never stuck once the worker has ended with a message or the context is
      done, and a worker that has not ended can always take its next step. */
  lemma ProgressPossible<R>(b: WorkerBehaviour<R>, schedule: seq<Move>)
    ensures var s := Run(b, schedule);
            && (s.worker != WorkerDone ==> Next(b, s, WorkerMoves) != s)
            && (s.caller == Waiting && s.ContextDone() ==> Next(b, s, CallerSeesDone).caller.Finished?)
            && (s.caller == Waiting && s.worker == WorkerDone && Message(b).Some? ==>
                  Next(b, s, CallerTakesResult).caller == Finished(Message(b).value))
  {
    RunInv(b, schedule);
  }

  /** Each cause of a done context is in the schedule. */
  lemma {:induction false} DoneHasCause<R>(b: WorkerBehaviour<R>, schedule: seq<Move>)
    ensures Run(b, schedule).deadlinePassed <==> DeadlinePasses in schedule
    ensures Run(b, schedule).parentCancelled <==> ParentCancels in schedule
  {
    if schedule != [] {
      DoneHasCause(b, schedule[..|schedule| - 1]);
    }
  }

  /** A timeout error needs a cause: before the deadline, and unless the parent context is cancelled,
      the only answer is the worker's own. */
  lemma NoCauseNoTimeout<R>(b: WorkerBehaviour<R>, schedule: seq<Move>)
    requires DeadlinePasses !in schedule && ParentCancels !in schedule
    ensures var s := Run(b, schedule); s.caller.Finished? ==> Message(b) == Some(s.caller.answer)
  {
    RunInv(b, schedule);
    DoneHasCause(b, schedule);
  }

  /** Cancelling the parent alone is enough: a caller can get the timeout error before its deadline. */
  lemma CancelledBeforeDeadline<R>(b: WorkerBehaviour<R>)
    ensures var schedule := [ParentCancels, CallerSeesDone];
            && DeadlinePasses !in schedule
            && Run(b, schedule).caller == Finished(TimeoutError)
  {
    var schedule := [ParentCancels, CallerSeesDone];
    assert schedule[..1] == [ParentCancels] && [ParentCancels][..0] == [];
    assert Run(b, [ParentCancels]) == Next(b, Run(b, []), ParentCancels);
  }
}
