/** `ErrorHandlerUtil`: a bounded ledger of recorded error contexts, the
    retry engine `executeWithRetry`, `executeSafe` and `validate`. */
module ErrorHandling {
  import opened Text
  import opened Numbers
  import opened Faults
  import opened ErrorCategories
  import opened ErrorContexts
  import opened ErrorStatistics

  /** `MAX_HISTORY_SIZE`. */
  const MaxHistorySize: nat := 1000

  /** What the ledger holds after `s` has been recorded into it: the last
      `MaxHistorySize` contexts, oldest first. */
  function Bounded(s: seq<ErrorContext>): seq<ErrorContext> {
    TakeLast(s, MaxHistorySize)
  }

  /** The ledger keeps the last `MaxHistorySize` records, or all of them
      when there are fewer. */
  lemma BoundedLast(s: seq<ErrorContext>)
    ensures var r := Bounded(s);
            && |r| == (if |s| <= MaxHistorySize then |s| else MaxHistorySize)
            && r == s[|s| - |r|..]
  {
  }

  /** Recording into an already bounded ledger is recording into the whole
      sequence of records. */
  lemma BoundedAppend(s: seq<ErrorContext>, t: seq<ErrorContext>)
    ensures Bounded(Bounded(s) + t) == Bounded(s + t)
  {
    var b := Bounded(s);
    BoundedLast(s);
    BoundedLast(b + t);
    BoundedLast(s + t);
  }

  /** The ledger after recording `cs` one at a time, each followed by
      eviction from the front. */
  function RecordAll(h: seq<ErrorContext>, cs: seq<ErrorContext>): seq<ErrorContext>
    decreases |cs|
  {
    if cs == [] then h else RecordAll(Bounded(h + [cs[0]]), cs[1..])
  }

  /** Recording one by one keeps exactly the last `MaxHistorySize` records
      in order. */
  lemma {:induction false} RecordAllBounded(h: seq<ErrorContext>, cs: seq<ErrorContext>)
    requires |h| <= MaxHistorySize
    ensures RecordAll(h, cs) == Bounded(h + cs)
    decreases |cs|
  {
    if cs == [] {
      assert h + cs == h;
    } else {
      var h' := Bounded(h + [cs[0]]);
      RecordAllBounded(h', cs[1..]);
      BoundedAppend(h + [cs[0]], cs[1..]);
      assert [cs[0]] + cs[1..] == cs;
      AppendAssoc(h, [cs[0]], cs[1..]);
    }
  }

  lemma AppendAssoc<X>(a: seq<X>, b: seq<X>, c: seq<X>)
    ensures a + b + c == a + (b + c)
  {
  }

  /** The category of every context, in order. */
  function CategoriesOf(errors: seq<ErrorContext>): (r: seq<ErrorCategory>)
    ensures |r| == |errors| && forall i :: 0 <= i < |errors| ==> r[i] == errors[i].category
  {
    seq(|errors|, i requires 0 <= i < |errors| => errors[i].category)
  }

  /** The severity of every context, in order. */
  function SeveritiesOf(errors: seq<ErrorContext>): (r: seq<ErrorSeverity>)
    ensures |r| == |errors| && forall i :: 0 <= i < |errors| ==> r[i] == errors[i].severity
  {
    seq(|errors|, i requires 0 <= i < |errors| => errors[i].severity)
  }

  /** The component of every context, in order. */
  function ComponentsOf(errors: seq<ErrorContext>): (r: seq<string>)
    ensures |r| == |errors| && forall i :: 0 <= i < |errors| ==> r[i] == errors[i].component
  {
    seq(|errors|, i requires 0 <= i < |errors| => errors[i].component)
  }

  /** `toMap` of every context, in order. */
  function MapsOf(errors: seq<ErrorContext>): (r: seq<seq<(string, Value)>>)
    ensures |r| == |errors| && forall i :: 0 <= i < |errors| ==> r[i] == ToMap(errors[i])
  {
    seq(|errors|, i requires 0 <= i < |errors| => ToMap(errors[i]))
  }

  /** `recentErrors`: the serialised last ten contexts, oldest first. */
  function Recent(errors: seq<ErrorContext>): (r: seq<seq<(string, Value)>>)
    ensures |r| == if |errors| < 10 then |errors| else 10
    ensures forall i :: 0 <= i < |r| ==> r[i] == ToMap(errors[|errors| - |r| + i])
  {
    var n := if |errors| < 10 then |errors| else 10;
    seq(n, i requires 0 <= i < n => ToMap(errors[|errors| - n + i]))
  }

  /** `getErrorStats` on a ledger holding `errors`. */
  function Snapshot(errors: seq<ErrorContext>): (s: ErrorStatistics)
    ensures s.totalErrors == |errors|
    ensures MapSum(s.byCategory) == s.totalErrors
    ensures MapSum(s.bySeverity) == s.totalErrors
    ensures MapSum(s.byComponent) == s.totalErrors
    ensures forall c :: c in s.byCategory <==> c in CategoriesOf(errors)
    ensures forall c :: c in s.byCategory ==> s.byCategory[c] == multiset(CategoriesOf(errors))[c]
    ensures forall v :: v in s.bySeverity <==> v in SeveritiesOf(errors)
    ensures forall v :: v in s.bySeverity ==> s.bySeverity[v] == multiset(SeveritiesOf(errors))[v]
    ensures forall n :: n in s.byComponent <==> n in ComponentsOf(errors)
    ensures forall n :: n in s.byComponent ==> s.byComponent[n] == multiset(ComponentsOf(errors))[n]
    ensures s.recentErrors == Recent(errors)
  {
    TallySum(CategoriesOf(errors));
    TallySum(SeveritiesOf(errors));
    TallySum(ComponentsOf(errors));
    ErrorStatistics(
      |errors|,
      Tally(CategoriesOf(errors)),
      Tally(SeveritiesOf(errors)),
      Tally(ComponentsOf(errors)),
      Recent(errors))
  }

  /** The generic failure returned when no attempt is made. */
  const UnexpectedPath: Fault := Fault(Unlisted, "RuntimeException", Some("Unexpected execution path"))

  /** The arguments of one `executeWithRetry` call. The action and the clock
      are functions of the attempt number (from 1): what the action returns
      or throws on that attempt, and `Instant.now()` when its context is
      built. */
  datatype RetryCall<T> = RetryCall(
    component: string,
    operation: string,
    maxAttempts: Int32,
    delayMs: Int64,
    exponentialBackoff: bool,
    onError: Option<Hook>,
    action: int -> Outcome<T>,
    clock: int -> Instant)

  /** How a call of `executeWithRetry` goes: how it ends, the attempt
      numbers it calls the action with, the contexts it records and the
      delays it waits, each in order. */
  datatype RetryRun<T> = RetryRun(
    completion: Completion<KResult<T>>,
    attempts: seq<int>,
    recorded: seq<ErrorContext>,
    delays: seq<int>)

  /** `run` is the attempts, contexts and delays already done followed by
      the rest of the run from attempt index `attempt` with delay `delay`. */
  ghost predicate RunsOn<T>(call: RetryCall<T>, run: RetryRun<T>, attempt: nat, delay: Int64,
                            attempts: seq<int>, recorded: seq<ErrorContext>, delays: seq<int>)
    requires attempt < call.maxAttempts
  {
    var rest := RetryFrom(call, attempt, delay);
    && run.completion == rest.completion
    && run.attempts == attempts + rest.attempts
    && run.recorded == recorded + rest.recorded
    && run.delays == delays + rest.delays
  }

  /** Recording more contexts into the bounded ledger of `start + recorded`. */
  lemma LedgerAdvance(start: seq<ErrorContext>, recorded: seq<ErrorContext>, more: seq<ErrorContext>)
    ensures Bounded(Bounded(start + recorded) + more) == Bounded(start + (recorded + more))
  {
    BoundedAppend(start + recorded, more);
    AppendAssoc(start, recorded, more);
  }

  /** Moving one attempt of a run from the part still to come to the part
      already done. */
  lemma RunAdvance<T>(run: RetryRun<T>, attempts: seq<int>, recorded: seq<ErrorContext>,
                      delays: seq<int>, n: int, context: ErrorContext, delay: int, after: RetryRun<T>)
    requires run.attempts == attempts + ([n] + after.attempts)
    requires run.recorded == recorded + ([context] + after.recorded)
    requires run.delays == delays + ([delay] + after.delays)
    ensures run.attempts == (attempts + [n]) + after.attempts
    ensures run.recorded == (recorded + [context]) + after.recorded
    ensures run.delays == (delays + [delay]) + after.delays
  {
    AppendAssoc(attempts, [n], after.attempts);
    AppendAssoc(recorded, [context], after.recorded);
    AppendAssoc(delays, [delay], after.delays);
  }

  /** The context built when attempt index `attempt` (from 0) throws `e`. */
  function AttemptContext<T>(call: RetryCall<T>, attempt: nat, e: Fault): ErrorContext {
    ErrorContext(call.clock(attempt + 1), FromThrowable(e), e, call.component, call.operation,
                 [("attempt", VInt(attempt + 1)), ("maxAttempts", VInt(call.maxAttempts))],
                 Medium, attempt < call.maxAttempts - 1, None)
  }

  /** The context of a thrown attempt: the fault and its category, MEDIUM,
      the call's component and operation, recoverable exactly before the
      last attempt, and the attempt number (from 1) as metadata. */
  lemma AttemptContextFields<T>(call: RetryCall<T>, attempt: nat, e: Fault)
    ensures var c := AttemptContext(call, attempt, e);
            && c.throwable == e && c.category == FromThrowable(e) && c.severity == Medium
            && c.component == call.component && c.operation == call.operation
            && (c.recoverable <==> attempt < call.maxAttempts - 1)
            && Lookup(c.metadata, "attempt") == Some(VInt(attempt + 1))
            && Lookup(c.metadata, "maxAttempts") == Some(VInt(call.maxAttempts))
            && c.userMessage == None
  {
    var m := AttemptContext(call, attempt, e).metadata;
    assert m[1].0[1] != m[0].0[1];
  }

  /** The rest of a run from attempt index `attempt` on, with `delay` the
      current value of `currentDelay`. */
  function RetryFrom<T>(call: RetryCall<T>, attempt: nat, delay: Int64): RetryRun<T>
    requires attempt < call.maxAttempts
    decreases call.maxAttempts - attempt
  {
    match call.action(attempt + 1)
    case Returns(v) => RetryRun(Completed(Success(v)), [attempt + 1], [], [])
    case Throws(e) =>
      var context := AttemptContext(call, attempt, e);
      match HookFault(call.onError, context)
      case Some(h) => RetryRun(Escaped(h), [attempt + 1], [context], [])
      case None =>
        if attempt < call.maxAttempts - 1 then
          var rest := RetryFrom(call, attempt + 1, NextDelay(delay, call.exponentialBackoff));
          RetryRun(rest.completion, [attempt + 1] + rest.attempts, [context] + rest.recorded,
                   [delay] + rest.delays)
        else
          RetryRun(Completed(Failure(e)), [attempt + 1], [context], [])
  }

  /** The whole run of `executeWithRetry`. */
  function Retry<T>(call: RetryCall<T>): RetryRun<T> {
    if call.maxAttempts <= 0 then RetryRun(Completed(Failure(UnexpectedPath)), [], [], [])
    else RetryFrom(call, 0, call.delayMs)
  }

  /** Attempt index `j` (from 0) threw and its hook did not. */
  predicate FailedQuietly<T>(call: RetryCall<T>, j: nat) {
    call.action(j + 1).Throws? &&
    HookFault(call.onError, AttemptContext(call, j, call.action(j + 1).fault)).None?
  }

  /** From index `i`, the attempts are i+1, i+2, … and every attempt
      but the last failed quietly. */
  lemma {:induction false} RetryFromAttempts<T>(call: RetryCall<T>, i: nat, d: Int64)
    requires i < call.maxAttempts
    ensures var r := RetryFrom(call, i, d);
      && 1 <= |r.attempts| <= call.maxAttempts - i
      && (forall j :: 0 <= j < |r.attempts| ==> r.attempts[j] == i + j + 1)
      && (forall j :: i <= j < i + |r.attempts| - 1 ==> FailedQuietly(call, j))
    decreases call.maxAttempts - i
  {
    var r := RetryFrom(call, i, d);
    if call.action(i + 1).Throws? {
      var e := call.action(i + 1).fault;
      if HookFault(call.onError, AttemptContext(call, i, e)).None? && i < call.maxAttempts - 1 {
        var d' := NextDelay(d, call.exponentialBackoff);
        RetryFromAttempts(call, i + 1, d');
        var rest := RetryFrom(call, i + 1, d');
        assert r.attempts == [i + 1] + rest.attempts;
        forall j | 0 <= j < |r.attempts| ensures r.attempts[j] == i + j + 1 {
          if j > 0 { assert r.attempts[j] == rest.attempts[j - 1]; }
        }
        assert FailedQuietly(call, i);
        assert |r.attempts| == 1 + |rest.attempts|;
      }
    }
  }

  /** From index `i`, the delays are the schedule from `d`, one between
      each pair of neighbouring attempts. */
  lemma {:induction false} RetryFromDelays<T>(call: RetryCall<T>, i: nat, d: Int64)
    requires i < call.maxAttempts
    ensures var r := RetryFrom(call, i, d);
      && |r.delays| == |r.attempts| - 1
      && forall j :: 0 <= j < |r.delays| ==> r.delays[j] == DelayAt(d, call.exponentialBackoff, j)
    decreases call.maxAttempts - i
  {
    var r := RetryFrom(call, i, d);
    var b := call.exponentialBackoff;
    if call.action(i + 1).Throws? {
      var e := call.action(i + 1).fault;
      if HookFault(call.onError, AttemptContext(call, i, e)).None? && i < call.maxAttempts - 1 {
        var d' := NextDelay(d, b);
        RetryFromDelays(call, i + 1, d');
        var rest := RetryFrom(call, i + 1, d');
        assert r.delays == [d] + rest.delays;
        forall j | 0 <= j < |r.delays| ensures r.delays[j] == DelayAt(d, b, j) {
          if j > 0 {
            assert r.delays[j] == rest.delays[j - 1];
            DelayAtShift(d, b, j - 1);
          }
        }
      }
    }
  }

  /** `recorded` holds, in order, the contexts of attempt indices i, i+1, …,
      each of which threw. */
  predicate RecordedFrom<T>(call: RetryCall<T>, i: nat, recorded: seq<ErrorContext>) {
    forall j :: 0 <= j < |recorded| ==> RecordedAt(call, i + j, recorded[j])
  }

  /** `context` is the one recorded for attempt index `k`, which threw. */
  predicate RecordedAt<T>(call: RetryCall<T>, k: nat, context: ErrorContext) {
    call.action(k + 1).Throws? && context == AttemptContext(call, k, call.action(k + 1).fault)
  }

  /** From index `i`, the j-th recorded context is that of attempt i+j+1,
      which threw. */
  lemma {:induction false} RetryFromRecorded<T>(call: RetryCall<T>, i: nat, d: Int64)
    requires i < call.maxAttempts
    ensures RecordedFrom(call, i, RetryFrom(call, i, d).recorded)
    decreases call.maxAttempts - i
  {
    var r := RetryFrom(call, i, d);
    if call.action(i + 1).Throws? {
      var e := call.action(i + 1).fault;
      if HookFault(call.onError, AttemptContext(call, i, e)).None? && i < call.maxAttempts - 1 {
        var d' := NextDelay(d, call.exponentialBackoff);
        RetryFromRecorded(call, i + 1, d');
        var rest := RetryFrom(call, i + 1, d');
        assert r.recorded == [AttemptContext(call, i, e)] + rest.recorded;
        RecordedCons(call, i, rest.recorded);
      } else {
        assert r.recorded == [AttemptContext(call, i, e)];
        assert RecordedAt(call, i + 0, r.recorded[0]);
      }
    }
  }

  /** A context recorded for a throwing attempt, in front of the records
      of the following attempts. */
  lemma RecordedCons<T>(call: RetryCall<T>, i: nat, rest: seq<ErrorContext>)
    requires call.action(i + 1).Throws? && RecordedFrom(call, i + 1, rest)
    ensures RecordedFrom(call, i, [AttemptContext(call, i, call.action(i + 1).fault)] + rest)
  {
    var all := [AttemptContext(call, i, call.action(i + 1).fault)] + rest;
    forall j | 0 <= j < |all|
      ensures RecordedAt(call, i + j, all[j])
    {
      if j > 0 {
        assert all[j] == rest[j - 1];
        assert RecordedAt(call, i + 1 + (j - 1), rest[j - 1]);
      }
    }
  }

  /** How a run of `n` attempts whose last attempt index is `last` ends:
      with the returned value after n-1 records, or after n records with
      the hook's fault, or with the last fault when no hook threw and
      `last` is the final index. */
  ghost predicate Ending<T>(call: RetryCall<T>, last: nat, n: nat, r: RetryRun<T>) {
    match call.action(last + 1)
    case Returns(v) => |r.recorded| == n - 1 && r.completion == Completed(Success(v))
    case Throws(e) =>
      |r.recorded| == n &&
      match HookFault(call.onError, AttemptContext(call, last, e))
      case Some(h) => r.completion == Escaped(h)
      case None => last == call.maxAttempts - 1 && r.completion == Completed(Failure(e))
  }

  /** From index `i`, the run ends as its last attempt decides. */
  lemma {:induction false} RetryFromEnding<T>(call: RetryCall<T>, i: nat, d: Int64)
    requires i < call.maxAttempts
    ensures var r := RetryFrom(call, i, d);
      |r.attempts| >= 1 && Ending(call, i + |r.attempts| - 1, |r.attempts|, r)
    decreases call.maxAttempts - i
  {
    var r := RetryFrom(call, i, d);
    if call.action(i + 1).Throws? {
      var e := call.action(i + 1).fault;
      if HookFault(call.onError, AttemptContext(call, i, e)).None? && i < call.maxAttempts - 1 {
        var d' := NextDelay(d, call.exponentialBackoff);
        RetryFromEnding(call, i + 1, d');
        var rest := RetryFrom(call, i + 1, d');
        assert |r.attempts| == 1 + |rest.attempts|;
        assert |r.recorded| == 1 + |rest.recorded|;
        assert r.completion == rest.completion;
      }
    }
  }

  /** The action is called with 1, 2, … in order, at most `maxAttempts`
      times, and never when `maxAttempts <= 0`; every attempt before the
      last one failed without its hook throwing. */
  lemma RetryAttemptsInOrder<T>(call: RetryCall<T>)
    ensures var r := Retry(call);
      && (call.maxAttempts <= 0 ==> r.attempts == [])
      && (call.maxAttempts > 0 ==> 1 <= |r.attempts| <= call.maxAttempts)
      && (forall j :: 0 <= j < |r.attempts| ==> r.attempts[j] == j + 1)
      && (forall j :: 0 <= j < |r.attempts| - 1 ==> FailedQuietly(call, j))
  {
    if call.maxAttempts > 0 {
      RetryFromAttempts(call, 0, call.delayMs);
    }
  }

  /** A run succeeds exactly with the value of the first attempt that
      returns, when every attempt before it failed quietly; that attempt
      is the last call of the action. */
  lemma RetrySuccess<T>(call: RetryCall<T>, k: nat)
    requires 1 <= k <= call.maxAttempts
    requires forall j :: 0 <= j < k - 1 ==> FailedQuietly(call, j)
    requires call.action(k).Returns?
    ensures Retry(call).completion == Completed(Success(call.action(k).value))
    ensures |Retry(call).attempts| == k
    ensures |Retry(call).recorded| == k - 1
  {
    RetryFromAttempts(call, 0, call.delayMs);
    RetryFromEnding(call, 0, call.delayMs);
    var n := |Retry(call).attempts|;
    assert !FailedQuietly(call, k - 1);
    assert n - 1 < k - 1 ==> FailedQuietly(call, n - 1);
    assert n == k;
  }

  /** A success is the value of the last attempt, which returned; it
      comes after exactly one recorded context per earlier attempt. */
  lemma RetrySuccessIsFirstReturn<T>(call: RetryCall<T>)
    ensures var r := Retry(call);
      r.completion.Completed? && r.completion.result.Success? ==>
        var k := |r.attempts|;
        && call.action(k) == Returns(r.completion.result.value)
        && |r.recorded| == k - 1
        && forall j :: 0 <= j < k - 1 ==> FailedQuietly(call, j)
  {
    if call.maxAttempts > 0 {
      RetryFromAttempts(call, 0, call.delayMs);
      RetryFromEnding(call, 0, call.delayMs);
    }
  }

  /** The j-th recorded context belongs to attempt j+1; it is recoverable
      exactly when it is not for the final attempt index maxAttempts-1. */
  lemma RetryRecorded<T>(call: RetryCall<T>)
    ensures |Retry(call).recorded| <= |Retry(call).attempts|
    ensures RecordedFrom(call, 0, Retry(call).recorded)
    ensures forall j :: 0 <= j < |Retry(call).recorded| ==>
              (Retry(call).recorded[j].recoverable <==> j < call.maxAttempts - 1)
  {
    if call.maxAttempts > 0 {
      RetryFromRecorded(call, 0, call.delayMs);
      RetryFromEnding(call, 0, call.delayMs);
      var r := Retry(call);
      forall j | 0 <= j < |r.recorded| ensures (r.recorded[j].recoverable <==> j < call.maxAttempts - 1) {
        assert RecordedAt(call, 0 + j, r.recorded[j]);
        AttemptContextFields(call, j, call.action(j + 1).fault);
      }
    }
  }

  /** The delays are `delayMs`, then doubled each time with backoff, one
      between neighbouring attempts and none after the last. */
  lemma RetryDelays<T>(call: RetryCall<T>)
    ensures var r := Retry(call);
      && |r.delays| == (if |r.attempts| == 0 then 0 else |r.attempts| - 1)
      && forall j :: 0 <= j < |r.delays| ==>
           r.delays[j] == (if call.exponentialBackoff then WrapLong(call.delayMs * Pow2(j))
                           else call.delayMs)
  {
    if call.maxAttempts > 0 {
      RetryFromDelays(call, 0, call.delayMs);
      var r := Retry(call);
      forall j | 0 <= j < |r.delays|
        ensures r.delays[j] == (if call.exponentialBackoff then WrapLong(call.delayMs * Pow2(j))
                                else call.delayMs)
      {
        DelaySchedule(call.delayMs, call.exponentialBackoff, j);
      }
    }
  }

  /** When every attempt fails quietly the run calls the action
      `maxAttempts` times and fails with the last fault; with
      `maxAttempts <= 0` it fails with the generic fault and records
      nothing. */
  lemma RetryExhausted<T>(call: RetryCall<T>)
    requires forall j :: 0 <= j < call.maxAttempts ==> FailedQuietly(call, j)
    ensures call.maxAttempts > 0 ==>
              && |Retry(call).attempts| == call.maxAttempts
              && call.action(call.maxAttempts as int).Throws?
              && Retry(call).completion == Completed(Failure(call.action(call.maxAttempts as int).fault))
    ensures call.maxAttempts <= 0 ==>
              Retry(call) == RetryRun(Completed(Failure(UnexpectedPath)), [], [], [])
  {
    if call.maxAttempts > 0 {
      RetryFromAttempts(call, 0, call.delayMs);
      RetryFromEnding(call, 0, call.delayMs);
      var n := |Retry(call).attempts|;
      assert FailedQuietly(call, n - 1);
    }
  }

  /** A fault escapes the run only when the hook of the last recorded
      context threw it. */
  lemma RetryHookEscape<T>(call: RetryCall<T>)
    ensures var r := Retry(call);
      r.completion.Escaped? ==>
        |r.recorded| >= 1 && HookFault(call.onError, r.recorded[|r.recorded| - 1]) == Some(r.completion.fault)
  {
    if call.maxAttempts > 0 {
      RetryFromRecorded(call, 0, call.delayMs);
      RetryFromEnding(call, 0, call.delayMs);
    }
  }

  /** How `executeSafe` goes: how it ends and the contexts it records. */
  datatype SafeRun<T> = SafeRun(completion: Completion<Option<T>>, recorded: seq<ErrorContext>)

  /** `executeSafe` with the action's single outcome and the clock value
      `now`. */
  function SafeOutcome<T>(component: string, operation: string, severity: ErrorSeverity,
                          defaultValue: Option<T>, onError: Option<Hook>,
                          outcome: Outcome<T>, now: Instant): (r: SafeRun<T>)
    ensures outcome.Returns? ==> r.completion == Completed(Some(outcome.value)) && r.recorded == []
    ensures outcome.Throws? ==>
              && |r.recorded| == 1
              && r.recorded[0].throwable == outcome.fault
              && r.recorded[0].category == FromThrowable(outcome.fault)
              && r.recorded[0].severity == severity
              && (r.recorded[0].recoverable <==> defaultValue.Some?)
              && r.recorded[0].component == component && r.recorded[0].operation == operation
              && r.recorded[0].metadata == [] && r.recorded[0].userMessage == None
    ensures outcome.Throws? && HookFault(onError, r.recorded[0]).None? ==>
              r.completion == Completed(defaultValue)
    ensures r.completion.Escaped? ==>
              outcome.Throws? && HookFault(onError, r.recorded[0]) == Some(r.completion.fault)
  {
    match outcome
    case Returns(v) => SafeRun(Completed(Some(v)), [])
    case Throws(e) =>
      var context := ErrorContext(now, FromThrowable(e), e, component, operation, [], severity,
                                  defaultValue.Some?, None);
      match HookFault(onError, context)
      case Some(h) => SafeRun(Escaped(h), [context])
      case None => SafeRun(Completed(defaultValue), [context])
  }

  /** How `validate` goes: its result and the contexts it records. */
  datatype ValidationRun<T> = ValidationRun(result: KResult<T>, recorded: seq<ErrorContext>)

  /** The two-entry metadata of a failed validation. */
  function ReasonMetadata(fieldName: string, reason: string): (m: seq<(string, Value)>)
    ensures Lookup(m, "field") == Some(VString(fieldName))
    ensures Lookup(m, "reason") == Some(VString(reason))
  {
    var m := [("field", VString(fieldName)), ("reason", VString(reason))];
    assert m[1].0[0] != m[0].0[0];
    m
  }

  /** The context of a rejected value. */
  function RejectionContext(now: Instant, component: string, error: Fault, fieldName: string,
                            reason: string, userMessage: string): ErrorContext {
    ErrorContext(now, Validation, error, component, "validation",
                 ReasonMetadata(fieldName, reason), Medium, true, Some(userMessage))
  }

  /** `errorMessage ?: fallback`. */
  function OrElse(s: Option<string>, fallback: string): (r: string)
    ensures s.Some? ==> r == s.value
    ensures s.None? ==> r == fallback
  {
    if s.Some? then s.value else fallback
  }

  /** `validate`, with the validator's outcome on the value and the clock
      value `now`. */
  function ValidateOutcome<T>(value: Option<T>, component: string, fieldName: string,
                              validator: T -> Outcome<bool>, errorMessage: Option<string>,
                              now: Instant): (r: ValidationRun<T>)
    ensures r.result.Success? <==> value.Some? && validator(value.value) == Returns(true)
    ensures r.result.Success? ==> r.result.value == value.value && r.recorded == []
    ensures r.result.Failure? ==>
              && |r.recorded| == 1
              && r.recorded[0].throwable == r.result.fault
              && r.recorded[0].component == component
              && r.recorded[0].operation == "validation"
              && r.recorded[0].recoverable
              && Lookup(r.recorded[0].metadata, "field") == Some(VString(fieldName))
    ensures value.None? ==>
              && r.result == Failure(IllegalArgument(fieldName + " cannot be null"))
              && r.recorded[0].category == Validation && r.recorded[0].severity == Medium
              && Lookup(r.recorded[0].metadata, "reason") == Some(VString("null_value"))
              && r.recorded[0].userMessage == Some(OrElse(errorMessage, fieldName + " is required"))
    ensures value.Some? && validator(value.value) == Returns(false) ==>
              && r.result == Failure(IllegalArgument(fieldName + " validation failed"))
              && r.recorded[0].category == Validation && r.recorded[0].severity == Medium
              && Lookup(r.recorded[0].metadata, "reason") == Some(VString("validator_failed"))
              && r.recorded[0].userMessage == Some(OrElse(errorMessage, fieldName + " is invalid"))
    ensures value.Some? && validator(value.value).Throws? ==>
              && r.result == Failure(validator(value.value).fault)
              && r.recorded[0].category == Runtime && r.recorded[0].severity == High
              && r.recorded[0].metadata == [("field", VString(fieldName))]
              && r.recorded[0].userMessage == None
  {
    if value.None? then
      var error := IllegalArgument(fieldName + " cannot be null");
      ValidationRun(Failure(error),
                    [RejectionContext(now, component, error, fieldName, "null_value",
                                      OrElse(errorMessage, fieldName + " is required"))])
    else
      match validator(value.value)
      case Returns(true) => ValidationRun(Success(value.value), [])
      case Returns(false) =>
        var error := IllegalArgument(fieldName + " validation failed");
        ValidationRun(Failure(error),
                      [RejectionContext(now, component, error, fieldName, "validator_failed",
                                        OrElse(errorMessage, fieldName + " is invalid"))])
      case Throws(e) =>
        ValidationRun(Failure(e),
                      [ErrorContext(now, Runtime, e, component, "validation",
                                    [("field", VString(fieldName))], High, true, None)])
  }

  /** The `ErrorHandlerUtil` object: its one piece of state is the error
      ledger, oldest record first. */
  class ErrorHandler {
    var history: seq<ErrorContext>

    /** The ledger never holds more than `MaxHistorySize` records. */
    ghost predicate Valid()
      reads this
    {
      |history| <= MaxHistorySize
    }

    constructor ()
      ensures history == [] && Valid()
    {
      history := [];
    }

    /** `recordError`: append, then evict from the front while too long. */
    method RecordError(context: ErrorContext)
      requires Valid()
      modifies this
      ensures history == Bounded(old(history) + [context])
      ensures Valid()
    {
      history := history + [context];
      ghost var all := history;
      ghost var evicted: nat := 0;
      while |history| > MaxHistorySize
        invariant evicted <= |all| && history == all[evicted..]
        invariant evicted > 0 ==> |history| >= MaxHistorySize
        decreases |history|
      {
        history := history[1..];
        evicted := evicted + 1;
      }
      BoundedLast(all);
    }

    /** `getErrorStats`. */
    function GetErrorStats(): ErrorStatistics
      reads this
    {
      Snapshot(history)
    }

    /** `clearHistory`: the ledger is empty and so are the statistics. */
    method ClearHistory()
      modifies this
      ensures history == [] && Valid()
      ensures GetErrorStats().totalErrors == 0 && GetErrorStats().byCategory == map[]
      ensures GetErrorStats().bySeverity == map[] && GetErrorStats().byComponent == map[]
      ensures GetErrorStats().recentErrors == []
    {
      history := [];
    }

    /** One pass of the `repeat` body of `executeWithRetry`, for attempt
        index `attempt` with `delay` the current delay, inside the run `run`
        whose `attempts`, `recorded` and `delays` are done so far and whose
        ledger started at `start`. When the pass returns (`done`), the run
        is complete; otherwise it goes on from the next index with the next
        delay, `context` recorded. */
    method RetryAttempt<T>(call: RetryCall<T>, attempt: nat, delay: Int64, ghost run: RetryRun<T>,
                           ghost start: seq<ErrorContext>, ghost attempts: seq<int>,
                           ghost recorded: seq<ErrorContext>, ghost delays: seq<int>)
      returns (done: bool, completion: Completion<KResult<T>>, next: Int64, ghost context: ErrorContext)
      requires attempt < call.maxAttempts && Valid()
      requires history == Bounded(start + recorded)
      requires RunsOn(call, run, attempt, delay, attempts, recorded, delays)
      modifies this
      ensures Valid()
      ensures done ==> && completion == run.completion && run.attempts == attempts + [attempt + 1]
                       && run.delays == delays && history == Bounded(start + run.recorded)
      ensures !done ==>
        && attempt + 1 < call.maxAttempts
        && next == NextDelay(delay, call.exponentialBackoff)
        && history == Bounded(start + (recorded + [context]))
        && RunsOn(call, run, attempt + 1, next, attempts + [attempt + 1], recorded + [context],
                  delays + [delay])
    {
      next := delay;
      completion := Completed(Failure(UnexpectedPath));
      context := AttemptContext(call, attempt, UnexpectedPath);
      ghost var rest := RetryFrom(call, attempt, delay);
      match call.action(attempt + 1)
      case Returns(v) =>
        done, completion := true, Completed(Success(v));
        assert recorded + [] == recorded;
        assert run.recorded == recorded;
      case Throws(e) =>
        var c := AttemptContext(call, attempt, e);
        context := c;
        RecordError(c);
        LedgerAdvance(start, recorded, [c]);
        var hookFault := HookFault(call.onError, c);
        if hookFault.Some? {
          done, completion := true, Escaped(hookFault.value);
        } else if attempt < call.maxAttempts - 1 {
          done := false;
          next := NextDelay(delay, call.exponentialBackoff);
          ghost var after := RetryFrom(call, attempt + 1, next);
          RunAdvance(run, attempts, recorded, delays, attempt + 1, context, delay, after);
        } else {
          done, completion := true, Completed(Failure(e));
        }
    }

    /** `executeWithRetry`: the loop of attempts with early returns. The
        result, the attempts made and the delays waited are those of
        `Retry(call)`, and the ledger has recorded that run's contexts. */
    method ExecuteWithRetry<T>(call: RetryCall<T>)
      returns (completion: Completion<KResult<T>>, attempts: seq<int>, delays: seq<int>)
      requires Valid()
      modifies this
      ensures Valid()
      ensures completion == Retry(call).completion
      ensures attempts == Retry(call).attempts && delays == Retry(call).delays
      ensures history == Bounded(old(history) + Retry(call).recorded)
    {
      ghost var run := Retry(call);
      ghost var start := history;
      var currentDelay: Int64 := call.delayMs;
      var attempt: nat := 0;
      attempts, delays := [], [];
      ghost var recorded: seq<ErrorContext> := [];
      assert start + recorded == start;
      while attempt < call.maxAttempts
        invariant attempt < call.maxAttempts || (attempt == 0 && attempts == [] && recorded == [] && delays == [])
        invariant Valid() && history == Bounded(start + recorded)
        invariant attempt < call.maxAttempts ==>
                    RunsOn(call, run, attempt, currentDelay, attempts, recorded, delays)
        decreases call.maxAttempts - attempt
      {
        var done, outcome, next, context :=
          RetryAttempt(call, attempt, currentDelay, run, start, attempts, recorded, delays);
        attempts := attempts + [attempt + 1];
        if done {
          completion := outcome;
          return;
        }
        recorded := recorded + [context];
        delays := delays + [currentDelay];
        currentDelay := next;
        attempt := attempt + 1;
      }
      completion := Completed(Failure(UnexpectedPath));
    }

    /** `executeSafe`: the action's outcome decides; a fault is recorded
        before the hook runs. */
    method ExecuteSafe<T>(component: string, operation: string, severity: ErrorSeverity,
                          defaultValue: Option<T>, onError: Option<Hook>,
                          outcome: Outcome<T>, now: Instant)
      returns (completion: Completion<Option<T>>)
      requires Valid()
      modifies this
      ensures Valid()
      ensures completion == SafeOutcome(component, operation, severity, defaultValue, onError, outcome, now).completion
      ensures history == Bounded(old(history) +
                                 SafeOutcome(component, operation, severity, defaultValue, onError, outcome, now).recorded)
    {
      match outcome
      case Returns(v) =>
        assert old(history) + [] == old(history);
        completion := Completed(Some(v));
      case Throws(e) =>
        var context := ErrorContext(now, FromThrowable(e), e, component, operation, [], severity,
                                    defaultValue.Some?, None);
        RecordError(context);
        var hookFault := HookFault(onError, context);
        if hookFault.Some? {
          completion := Escaped(hookFault.value);
        } else {
          completion := Completed(defaultValue);
        }
    }

    /** `validate`: a rejected or throwing check is recorded in the ledger. */
    method Validate<T>(value: Option<T>, component: string, fieldName: string,
                       validator: T -> Outcome<bool>, errorMessage: Option<string>, now: Instant)
      returns (result: KResult<T>)
      requires Valid()
      modifies this
      ensures Valid()
      ensures result == ValidateOutcome(value, component, fieldName, validator, errorMessage, now).result
      ensures history == Bounded(old(history) +
                                 ValidateOutcome(value, component, fieldName, validator, errorMessage, now).recorded)
    {
      if value.None? {
        var error := IllegalArgument(fieldName + " cannot be null");
        RecordError(RejectionContext(now, component, error, fieldName, "null_value",
                                     OrElse(errorMessage, fieldName + " is required")));
        result := Failure(error);
      } else {
        match validator(value.value)
        case Returns(true) =>
          assert old(history) + [] == old(history);
          result := Success(value.value);
        case Returns(false) =>
          var error := IllegalArgument(fieldName + " validation failed");
          RecordError(RejectionContext(now, component, error, fieldName, "validator_failed",
                                       OrElse(errorMessage, fieldName + " is invalid")));
          result := Failure(error);
        case Throws(e) =>
          RecordError(ErrorContext(now, Runtime, e, component, "validation",
                                   [("field", VString(fieldName))], High, true, None));
          result := Failure(e);
      }
    }
  }
}
