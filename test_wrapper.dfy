/** `TestWrapper`: a second retry loop (`runWithRetries`), whose action
    reports failure either by returning `false` or by throwing, and
    `runSafe`. */
module TestWrapper {
  import opened Text
  import opened Numbers
  import opened Faults
  import opened ErrorCategories
  import opened ErrorContexts

  /** The arguments of `runWithRetries`. The action is what its call at a
      given attempt (from 1) returns or throws; the clock is the timestamp
      taken when the context for an attempt is built. */
  datatype TestCall = TestCall(
    maxAttempts: Int32,
    delayMs: Int64,
    exponentialBackoff: bool,
    actionName: string,
    action: nat -> Outcome<bool>,
    clock: nat -> Instant)

  /** What a run does: whether some attempt returned `true`, how many
      times the action was called, the error contexts collected (and
      logged), in order, and the delays waited, in order. */
  datatype TestRun = TestRun(succeeded: bool, calls: nat, errors: seq<ErrorContext>, delays: seq<int>)

  /** The context built when attempt `attempt` (from 1) throws `e`. */
  function TestContext(call: TestCall, attempt: nat, e: Fault): ErrorContext {
    ErrorContext(call.clock(attempt), FromThrowable(e), e, "TestWrapper", call.actionName,
                 [("attempt", VInt(attempt)), ("maxAttempts", VInt(call.maxAttempts))],
                 if attempt < call.maxAttempts then Medium else High, attempt < call.maxAttempts, None)
  }

  /** The context of a thrown attempt: the fault and its category, the
      wrapper and the action's name, MEDIUM and recoverable exactly before
      the last attempt (HIGH on it), and the attempt numbers as metadata. */
  lemma TestContextFields(call: TestCall, attempt: nat, e: Fault)
    ensures var c := TestContext(call, attempt, e);
            && c.throwable == e && c.category == FromThrowable(e)
            && c.component == "TestWrapper" && c.operation == call.actionName
            && c.severity == (if attempt < call.maxAttempts then Medium else High)
            && (c.recoverable <==> attempt < call.maxAttempts)
            && Lookup(c.metadata, "attempt") == Some(VInt(attempt))
            && Lookup(c.metadata, "maxAttempts") == Some(VInt(call.maxAttempts))
            && c.userMessage == None
  {
    var m := TestContext(call, attempt, e).metadata;
    assert m[1].0[1] != m[0].0[1];
  }

  /** The run from attempt `attempt` on, with `delay` the delay to wait
      after it if it fails and another attempt follows. */
  function RunFrom(call: TestCall, attempt: nat, delay: Int64): TestRun
    requires attempt >= 1
    decreases call.maxAttempts - attempt + 1
  {
    if attempt > call.maxAttempts then TestRun(false, 0, [], [])
    else
      var o := call.action(attempt);
      if o == Returns(true) then TestRun(true, 1, [], [])
      else
        var errs := if o.Throws? then [TestContext(call, attempt, o.fault)] else [];
        var another := attempt + 1 <= call.maxAttempts;
        var rest := RunFrom(call, attempt + 1,
                            if another then NextDelay(delay, call.exponentialBackoff) else delay);
        TestRun(rest.succeeded, 1 + rest.calls, errs + rest.errors,
                (if another then [delay] else []) + rest.delays)
  }

  /** `runWithRetries` from its first attempt. */
  function RunWithRetriesSpec(call: TestCall): TestRun {
    RunFrom(call, 1, call.delayMs)
  }

  /** The contexts of the attempts `lo`, …, `hi - 1` that threw, in order:
      an attempt that returned adds none. */
  function ThrownAt(call: TestCall, lo: nat, hi: nat): (cs: seq<ErrorContext>)
    ensures |cs| <= if hi <= lo then 0 else hi - lo
    decreases hi
  {
    if hi <= lo then []
    else
      var o := call.action(hi - 1);
      ThrownAt(call, lo, hi - 1) + (if o.Throws? then [TestContext(call, hi - 1, o.fault)] else [])
  }

  /** Peeling the first attempt off the front. */
  lemma {:induction false} ThrownAtFront(call: TestCall, lo: nat, hi: nat)
    requires lo < hi
    ensures ThrownAt(call, lo, hi) ==
              (if call.action(lo).Throws? then [TestContext(call, lo, call.action(lo).fault)] else [])
              + ThrownAt(call, lo + 1, hi)
    decreases hi
  {
    if lo + 1 < hi {
      ThrownAtFront(call, lo, hi - 1);
    }
  }

  /** How a run from attempt `i` ends: never more calls than attempts
      remain, every call but the last returned something other than
      `true`, and the run succeeded exactly when the last one returned
      `true`; a failed run used every remaining attempt. */
  predicate CallsFrom(call: TestCall, i: nat, r: TestRun) {
    && (i > call.maxAttempts ==> r.calls == 0 && !r.succeeded)
    && (i <= call.maxAttempts ==> 1 <= r.calls <= call.maxAttempts - i + 1)
    && (forall j :: i <= j < i + r.calls - 1 ==> call.action(j) != Returns(true))
    && (r.succeeded <==> r.calls >= 1 && call.action(i + r.calls - 1) == Returns(true))
    && (!r.succeeded ==> r.calls == if i > call.maxAttempts then 0 else call.maxAttempts - i + 1)
  }

  lemma {:induction false} RunFromCalls(call: TestCall, i: nat, d: Int64)
    requires i >= 1
    ensures CallsFrom(call, i, RunFrom(call, i, d))
    decreases call.maxAttempts - i + 1
  {
    if i <= call.maxAttempts && call.action(i) != Returns(true) {
      var another := i + 1 <= call.maxAttempts;
      RunFromCalls(call, i + 1, if another then NextDelay(d, call.exponentialBackoff) else d);
    }
  }

  /** A run from attempt `i` waits once between consecutive calls, the
      delays following the schedule from `d`. */
  predicate DelaysFrom(call: TestCall, d: Int64, r: TestRun) {
    && |r.delays| == (if r.calls == 0 then 0 else r.calls - 1)
    && forall j :: 0 <= j < |r.delays| ==> r.delays[j] == DelayAt(d, call.exponentialBackoff, j)
  }

  lemma {:induction false} RunFromDelays(call: TestCall, i: nat, d: Int64)
    requires i >= 1
    ensures DelaysFrom(call, d, RunFrom(call, i, d))
    decreases call.maxAttempts - i + 1
  {
    if i <= call.maxAttempts && call.action(i) != Returns(true) {
      var another := i + 1 <= call.maxAttempts;
      var d' := if another then NextDelay(d, call.exponentialBackoff) else d;
      RunFromDelays(call, i + 1, d');
      var rest := RunFrom(call, i + 1, d');
      if another {
        forall j | 0 <= j < |rest.delays|
          ensures rest.delays[j] == DelayAt(d, call.exponentialBackoff, j + 1)
        {
          DelayAtShift(d, call.exponentialBackoff, j);
        }
      } else {
        RunFromCalls(call, i + 1, d');
      }
    }
  }

  /** The contexts a run from attempt `i` collects are those of the calls it
      made that threw. */
  lemma {:induction false} RunFromErrors(call: TestCall, i: nat, d: Int64)
    requires i >= 1
    ensures RunFrom(call, i, d).errors == ThrownAt(call, i, i + RunFrom(call, i, d).calls)
    decreases call.maxAttempts - i + 1
  {
    var r := RunFrom(call, i, d);
    if i <= call.maxAttempts && call.action(i) != Returns(true) {
      var another := i + 1 <= call.maxAttempts;
      var d' := if another then NextDelay(d, call.exponentialBackoff) else d;
      RunFromErrors(call, i + 1, d');
      ThrownAtFront(call, i, i + r.calls);
    } else if i <= call.maxAttempts {
      assert r.calls == 1;
      assert ThrownAt(call, i, i + 1) == ThrownAt(call, i, i) + [];
    }
  }

  /** The action is called with attempts 1, 2, … and no more than
      `maxAttempts` times (not at all when `maxAttempts <= 0`); the run
      stops at the first `true`, and a failed run used every attempt. */
  lemma RunStopsAtFirstTrue(call: TestCall)
    ensures var r := RunWithRetriesSpec(call);
            && r.calls <= (if call.maxAttempts <= 0 then 0 else call.maxAttempts)
            && (forall j :: 1 <= j < r.calls ==> call.action(j) != Returns(true))
            && (r.succeeded <==> r.calls >= 1 && call.action(r.calls) == Returns(true))
            && (!r.succeeded ==> r.calls == if call.maxAttempts <= 0 then 0 else call.maxAttempts)
  {
    RunFromCalls(call, 1, call.delayMs);
  }

  /** With `maxAttempts <= 0` nothing runs, nothing is collected and
      nothing is waited. */
  lemma NothingRunsWithoutAttempts(call: TestCall)
    requires call.maxAttempts <= 0
    ensures RunWithRetriesSpec(call) == TestRun(false, 0, [], [])
  {
  }

  /** Each call that throws adds exactly one context, one that returns
      `false` adds none; only a context for attempt `maxAttempts` is HIGH
      and not recoverable. */
  lemma RunErrors(call: TestCall)
    ensures var r := RunWithRetriesSpec(call);
            && r.errors == ThrownAt(call, 1, 1 + r.calls)
            && forall k :: 0 <= k < |r.errors| - 1 ==> r.errors[k].recoverable && r.errors[k].severity == Medium
  {
    var r := RunWithRetriesSpec(call);
    RunFromErrors(call, 1, call.delayMs);
    RunFromCalls(call, 1, call.delayMs);
    ThrownAtRecoverable(call, 1, 1 + r.calls);
  }

  /** Among the contexts of attempts below `hi`, with `hi` at most one past
      `maxAttempts`, all but the last are for attempts below `maxAttempts`. */
  lemma {:induction false} ThrownAtRecoverable(call: TestCall, lo: nat, hi: nat)
    requires hi <= lo || hi <= call.maxAttempts + 1
    ensures var cs := ThrownAt(call, lo, hi);
            forall k :: 0 <= k < |cs| - 1 ==> cs[k].recoverable && cs[k].severity == Medium
    decreases hi
  {
    if lo < hi {
      var cs := ThrownAt(call, lo, hi);
      var init := ThrownAt(call, lo, hi - 1);
      ThrownAtRecoverable(call, lo, hi - 1);
      ThrownAtBelow(call, lo, hi - 1);
      assert forall k :: 0 <= k < |init| ==> cs[k] == init[k];
    }
  }

  /** Every context of attempts below `hi` is recoverable when `hi` does
      not pass `maxAttempts`. */
  lemma {:induction false} ThrownAtBelow(call: TestCall, lo: nat, hi: nat)
    requires hi <= call.maxAttempts
    ensures forall c :: c in ThrownAt(call, lo, hi) ==> c.recoverable && c.severity == Medium
    decreases hi
  {
    if lo < hi {
      ThrownAtBelow(call, lo, hi - 1);
    }
  }

  /** A delay is waited only when another attempt follows, and the delays
      are d, 2d, 4d, … (as a `Long`) with backoff and d, d, … without. */
  lemma RunDelays(call: TestCall)
    ensures var r := RunWithRetriesSpec(call);
            && |r.delays| == (if r.calls == 0 then 0 else r.calls - 1)
            && forall j :: 0 <= j < |r.delays| ==>
                 r.delays[j] == if call.exponentialBackoff then WrapLong(call.delayMs * Pow2(j)) else call.delayMs
  {
    var r := RunWithRetriesSpec(call);
    RunFromDelays(call, 1, call.delayMs);
    forall j | 0 <= j < |r.delays|
      ensures r.delays[j] == if call.exponentialBackoff then WrapLong(call.delayMs * Pow2(j)) else call.delayMs
    {
      DelaySchedule(call.delayMs, call.exponentialBackoff, j);
    }
  }

  /** A finished prefix of a run followed by the rest of it. */
  function Then(calls: nat, errors: seq<ErrorContext>, delays: seq<int>, rest: TestRun): TestRun {
    TestRun(rest.succeeded, calls + rest.calls, errors + rest.errors, delays + rest.delays)
  }

  lemma ThenThen(c1: nat, e1: seq<ErrorContext>, d1: seq<int>, c2: nat, e2: seq<ErrorContext>, d2: seq<int>,
                 r: TestRun)
    ensures Then(c1, e1, d1, Then(c2, e2, d2, r)) == Then(c1 + c2, e1 + e2, d1 + d2, r)
  {
    assert e1 + (e2 + r.errors) == (e1 + e2) + r.errors;
    assert d1 + (d2 + r.delays) == (d1 + d2) + r.delays;
  }

  /** The errors and delays one attempt that did not return `true` adds. */
  function StepErrors(call: TestCall, attempt: nat): seq<ErrorContext> {
    var o := call.action(attempt);
    if o.Throws? then [TestContext(call, attempt, o.fault)] else []
  }

  /** One failed attempt, moved from the rest of a run to its finished prefix. */
  lemma RunFromStep(call: TestCall, attempt: nat, d: Int64, calls: nat, errors: seq<ErrorContext>, delays: seq<int>)
    requires 1 <= attempt <= call.maxAttempts && call.action(attempt) != Returns(true)
    ensures var another := attempt + 1 <= call.maxAttempts;
            var next := if another then NextDelay(d, call.exponentialBackoff) else d;
            Then(calls, errors, delays, RunFrom(call, attempt, d)) ==
              Then(calls + 1, errors + StepErrors(call, attempt), delays + (if another then [d] else []),
                   RunFrom(call, attempt + 1, next))
  {
    var another := attempt + 1 <= call.maxAttempts;
    var next := if another then NextDelay(d, call.exponentialBackoff) else d;
    ThenThen(calls, errors, delays, 1, StepErrors(call, attempt), if another then [d] else [],
             RunFrom(call, attempt + 1, next));
  }

  /** `runWithRetries`: the `while (attempt <= maxAttempts)` loop. The
      attempt counter is unbounded here; see `AttemptCounterWraps` for the
      `Int` counter of the source. */
  method RunWithRetries(call: TestCall) returns (run: TestRun)
    ensures run == RunWithRetriesSpec(call)
  {
    ghost var spec := RunWithRetriesSpec(call);
    var attempt: nat := 1;
    var currentDelay: Int64 := call.delayMs;
    var errors: seq<ErrorContext> := [];
    var delays: seq<int> := [];
    var calls: nat := 0;
    while attempt <= call.maxAttempts
      invariant attempt >= 1
      invariant Then(calls, errors, delays, RunFrom(call, attempt, currentDelay)) == spec
      decreases call.maxAttempts - attempt + 1
    {
      var o := call.action(attempt);
      if o == Returns(true) {
        assert errors + [] == errors && delays + [] == delays;
        return TestRun(true, calls + 1, errors, delays);
      }
      RunFromStep(call, attempt, currentDelay, calls, errors, delays);
      var errs := if o.Throws? then [TestContext(call, attempt, o.fault)] else [];
      if attempt + 1 <= call.maxAttempts {
        delays := delays + [currentDelay];
        currentDelay := NextDelay(currentDelay, call.exponentialBackoff);
      } else {
        assert delays + [] == delays;
      }
      calls := calls + 1;
      errors := errors + errs;
      attempt := attempt + 1;
    }
    assert errors + [] == errors && delays + [] == delays;
    return TestRun(false, calls, errors, delays);
  }

  /** The source's `attempt++` on an `Int` counter. */
  function NextAttemptAsWritten(attempt: Int32): (r: Int32)
    ensures attempt < 0x7fff_ffff ==> r == attempt + 1
  {
    WrapInt(attempt + 1)
  }

  /** After a failed attempt `Int.MAX_VALUE` with `maxAttempts ==
      Int.MAX_VALUE`, the counter wraps to `Int.MIN_VALUE` and the guard
      `attempt <= maxAttempts` holds again: the loop goes on past
      `maxAttempts` attempts. */
  lemma AttemptCounterWraps()
    ensures NextAttemptAsWritten(0x7fff_ffff) == -0x8000_0000
    ensures NextAttemptAsWritten(0x7fff_ffff) <= 0x7fff_ffff
  {
  }

  /** What `runSafe` returns and the context it logs on a fault. */
  datatype SafeResult<T> = SafeResult(value: Option<T>, logged: Option<ErrorContext>)

  /** `runSafe`: the action's result, or `defaultValue` when it throws,
      with a context that is MEDIUM and recoverable exactly when there is
      a default. */
  function RunSafe<T>(actionName: string, defaultValue: Option<T>, outcome: Outcome<T>, now: Instant)
    : (r: SafeResult<T>)
    ensures outcome.Returns? ==> r == SafeResult(Some(outcome.value), None)
    ensures outcome.Throws? ==>
              && r.value == defaultValue
              && r.logged.Some?
              && r.logged.value.throwable == outcome.fault
              && r.logged.value.category == FromThrowable(outcome.fault)
              && r.logged.value.component == "TestWrapper"
              && r.logged.value.operation == actionName
              && (r.logged.value.severity == Medium <==> defaultValue.Some?)
              && (r.logged.value.severity == High <==> defaultValue.None?)
              && (r.logged.value.recoverable <==> defaultValue.Some?)
              && r.logged.value.metadata == []
  {
    match outcome
    case Returns(v) => SafeResult(Some(v), None)
    case Throws(e) =>
      var severity := if defaultValue.Some? then Medium else High;
      var c := NewContext(now, FromThrowable(e), e, "TestWrapper", actionName);
      SafeResult(defaultValue, Some(c.(severity := severity, recoverable := defaultValue.Some?)))
  }
}
