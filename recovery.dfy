/** `RecoveryStrategy.recover`: a dispatch on the error's category to one
    of five policies, each with its own budget of `retryAction`
    invocations and its own delays. */
module Recovery {
  import opened Text
  import opened Numbers
  import opened Faults
  import opened ErrorCategories
  import opened ErrorContexts

  /** What a recovery does: the value it returns (`T?`), the delays it
      waits, in order, and how many times it invokes `retryAction`. */
  datatype RecoveryRun<T> = RecoveryRun(value: Option<T>, delays: seq<int>, invocations: nat)

  /** The retry action, as what its n-th invocation (from 1) returns or
      throws. */
  type RetryAction<T> = nat -> Outcome<T>

  /** Never invoking the action: the fallback, without waiting. */
  ghost predicate FellBack<T>(fallbackValue: Option<T>, run: RecoveryRun<T>) {
    run == RecoveryRun(fallbackValue, [], 0)
  }

  /** A bounded retry: the action is invoked 1, 2, … times up to `budget`;
      every invocation but the last threw; the returned value is that of
      the last invocation if it returned, and otherwise the budget is used
      up and the value is the fallback. */
  ghost predicate RetriedUpTo<T>(action: RetryAction<T>, budget: nat, fallbackValue: Option<T>,
                                 run: RecoveryRun<T>) {
    && 1 <= run.invocations <= budget
    && (forall j :: 1 <= j < run.invocations ==> action(j).Throws?)
    && (action(run.invocations).Returns? ==> run.value == Some(action(run.invocations).value))
    && (action(run.invocations).Throws? ==> run.invocations == budget && run.value == fallbackValue)
  }

  /** A fault of the action never escapes: the value is the fallback or
      what one of the invocations made returned. */
  ghost predicate Contained<T>(fallbackValue: Option<T>, retryAction: Option<RetryAction<T>>,
                               run: RecoveryRun<T>) {
    || run.value == fallbackValue
    || (&& retryAction.Some? && run.value.Some? && 1 <= run.invocations
        && retryAction.value(run.invocations) == Returns(run.value.value))
  }

  /** The NETWORK policy: without an action the fallback at once;
      otherwise up to 3 invocations, waiting 1000, 2000 and 4000 ms before
      them. */
  ghost predicate NetworkPolicy<T>(fallbackValue: Option<T>, retryAction: Option<RetryAction<T>>,
                                   run: RecoveryRun<T>) {
    && (retryAction.None? ==> FellBack(fallbackValue, run))
    && (retryAction.Some? ==> RetriedUpTo(retryAction.value, 3, fallbackValue, run))
    && |run.delays| == run.invocations
    && forall j :: 0 <= j < |run.delays| ==> run.delays[j] == 1000 * Pow2(j)
  }

  /** The DATABASE policy: up to 2 invocations, each after 1000 ms. */
  ghost predicate DatabasePolicy<T>(fallbackValue: Option<T>, retryAction: Option<RetryAction<T>>,
                                    run: RecoveryRun<T>) {
    && (retryAction.None? ==> FellBack(fallbackValue, run))
    && (retryAction.Some? ==> RetriedUpTo(retryAction.value, 2, fallbackValue, run))
    && |run.delays| == run.invocations
    && forall j :: 0 <= j < |run.delays| ==> run.delays[j] == 1000
  }

  /** A single invocation after 500 ms when `allowed`, else the fallback. */
  ghost predicate SingleRetry<T>(allowed: bool, fallbackValue: Option<T>,
                                 retryAction: Option<RetryAction<T>>, run: RecoveryRun<T>) {
    && (!allowed ==> FellBack(fallbackValue, run))
    && (allowed ==> retryAction.Some? && RetriedUpTo(retryAction.value, 1, fallbackValue, run)
                    && run.delays == [500])
  }

  /** `recoverFromNetworkError`: the `repeat(3)` loop with a doubling delay
      and an early return on the first success. */
  method NetworkRecovery<T>(fallbackValue: Option<T>, retryAction: Option<RetryAction<T>>)
    returns (run: RecoveryRun<T>)
    ensures NetworkPolicy(fallbackValue, retryAction, run)
  {
    if retryAction.None? {
      return RecoveryRun(fallbackValue, [], 0);
    }
    var action := retryAction.value;
    var delay := 1000;
    var delays: seq<int> := [];
    var attempt: nat := 0;
    while attempt < 3
      invariant attempt <= 3
      invariant |delays| == attempt
      invariant forall j :: 0 <= j < attempt ==> delays[j] == 1000 * Pow2(j)
      invariant delay == 1000 * Pow2(attempt)
      invariant forall j :: 1 <= j <= attempt ==> action(j).Throws?
    {
      delays := delays + [delay];
      match action(attempt + 1)
      case Returns(v) =>
        return RecoveryRun(Some(v), delays, attempt + 1);
      case Throws(_) =>
        delay := delay * 2;
        attempt := attempt + 1;
    }
    return RecoveryRun(fallbackValue, delays, 3);
  }

  /** `recoverFromIOError`: one invocation after 500 ms whenever an action
      is given, whatever `recoverable` says. */
  function IORecovery<T>(fallbackValue: Option<T>, retryAction: Option<RetryAction<T>>)
    : (run: RecoveryRun<T>)
    ensures SingleRetry(retryAction.Some?, fallbackValue, retryAction, run)
  {
    if retryAction.None? then RecoveryRun(fallbackValue, [], 0)
    else
      match retryAction.value(1)
      case Returns(v) => RecoveryRun(Some(v), [500], 1)
      case Throws(_) => RecoveryRun(fallbackValue, [500], 1)
  }

  /** `recoverFromValidationError` and `recoverFromParsingError`: the
      fallback, without invoking anything. */
  function FallbackRecovery<T>(fallbackValue: Option<T>): (run: RecoveryRun<T>)
    ensures FellBack(fallbackValue, run)
  {
    RecoveryRun(fallbackValue, [], 0)
  }

  /** `recoverFromDatabaseError`: the `repeat(2)` loop, 1000 ms before
      each invocation. */
  method DatabaseRecovery<T>(fallbackValue: Option<T>, retryAction: Option<RetryAction<T>>)
    returns (run: RecoveryRun<T>)
    ensures DatabasePolicy(fallbackValue, retryAction, run)
  {
    if retryAction.None? {
      return RecoveryRun(fallbackValue, [], 0);
    }
    var action := retryAction.value;
    var delays: seq<int> := [];
    var attempt: nat := 0;
    while attempt < 2
      invariant attempt <= 2
      invariant |delays| == attempt
      invariant forall j :: 0 <= j < attempt ==> delays[j] == 1000
      invariant forall j :: 1 <= j <= attempt ==> action(j).Throws?
    {
      delays := delays + [1000];
      match action(attempt + 1)
      case Returns(v) =>
        return RecoveryRun(Some(v), delays, attempt + 1);
      case Throws(_) =>
        attempt := attempt + 1;
    }
    return RecoveryRun(fallbackValue, delays, 2);
  }

  /** `recoverGeneric`: one invocation after 500 ms, only when an action is
      given and the context is recoverable. */
  function GenericRecovery<T>(context: ErrorContext, fallbackValue: Option<T>,
                              retryAction: Option<RetryAction<T>>): (run: RecoveryRun<T>)
    ensures SingleRetry(retryAction.Some? && context.recoverable, fallbackValue, retryAction, run)
  {
    if retryAction.Some? && context.recoverable then IORecovery(fallbackValue, retryAction)
    else RecoveryRun(fallbackValue, [], 0)
  }

  /** `recover`: the dispatch on the context's category. Whatever the
      category, no fault of the action escapes. */
  method Recover<T>(context: ErrorContext, fallbackValue: Option<T>,
                    retryAction: Option<RetryAction<T>>)
    returns (run: RecoveryRun<T>)
    ensures context.category == Network ==> NetworkPolicy(fallbackValue, retryAction, run)
    ensures context.category == IO ==> SingleRetry(retryAction.Some?, fallbackValue, retryAction, run)
    ensures context.category in {Validation, Parsing} ==> FellBack(fallbackValue, run)
    ensures context.category == Database ==> DatabasePolicy(fallbackValue, retryAction, run)
    ensures context.category in {Security, Configuration, Runtime, Unknown} ==>
              SingleRetry(retryAction.Some? && context.recoverable, fallbackValue, retryAction, run)
    ensures Contained(fallbackValue, retryAction, run)
  {
    match context.category
    case Network => run := NetworkRecovery(fallbackValue, retryAction);
    case IO => run := IORecovery(fallbackValue, retryAction);
    case Validation => run := FallbackRecovery(fallbackValue);
    case Parsing => run := FallbackRecovery(fallbackValue);
    case Database => run := DatabaseRecovery(fallbackValue, retryAction);
    case _ => run := GenericRecovery(context, fallbackValue, retryAction);
  }
}
