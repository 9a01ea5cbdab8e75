# Magisk_Rafaelia error handling, audit and low-level cores in Dafny

This project models five sequential cores of the Magisk_Rafaelia repository
and proves properties of them.

1. **The Kotlin error-handling framework.** It has five parts.
   - The fault classifier `ErrorCategory.fromThrowable`.
   - The `ErrorContext` record and its `toMap` serialiser.
   - The `ErrorStatistics` snapshot.
   - `ErrorHandlerUtil`. This covers the bounded error ledger, the retry
     engine `executeWithRetry`, `executeSafe` and `validate`.
   - `RecoveryStrategy.recover`, the `TypeValidator` field validators and
     the retry loop of the `TestWrapper` test helper.
2. **The Rust audit system** (`rafaelia_audit.rs`). This covers the JSON-line
   rendering of an `AuditEntry`, and `AuditSystem` with its capped history,
   rollback points, enable flag and statistics.
3. **The Python state-matrix validator** (`state_validator.py`). This covers
   loading the matrix rows, the membership checks, and the single pass of
   `validate_audit_log` over an audit log.
4. **The byte-level C/C++ routines** (`lowlevel.c`, `lowlevel.hpp`). These are:
   - `memcmp`, `memcpy`, `memset` and `strlen` over arrays;
   - the naive pattern search `mem_search`;
   - page alignment and the cached page size;
   - decoding of the raw results of `mmap`, `munmap` and `mprotect`.
5. **The rewrite of dynamic entries in `elf-cleaner`.** The cleaner drops the
   search-path and AArch64 entries and masks the first `DT_FLAGS_1` entry.

The model follows the form of the source.
- Pure code is modelled with datatypes and functions:
  - the classifier;
  - the records;
  - the single-field validators;
  - `to_jsonl`'s member list;
  - alignment.
- Code that changes state step by step is modelled with methods:
  - `ErrorHandlerUtil` is a class `ErrorHandler` whose field is the ledger;
  - `AuditSystem` is a class;
  - the `StateValidator` is a class;
  - the retry and recovery loops, `validateAll` and the byte loops are
    methods with loop invariants;
  - in the ELF cleaner, the in-place `retain` and the masking loop run on
    arrays.
- Each method is proved against a function of its inputs and old state,
  and the promised properties are lemmas about those functions.

How the environment is modelled:
- **Actions and hooks.** Caller-supplied actions are total functions from
  the attempt number to an outcome, which returns a value or throws a fault.
  An `onError` hook that throws is an explicit outcome, `Escaped`. The source
  invokes the hook outside any `try`, so its fault leaves `executeWithRetry`
  and `executeSafe`.
- **Inputs from the outside world.** These are parameters:
  - the clock (`Instant.now()`, `SystemTime::now()`);
  - rollback ids;
  - the session id;
  - page sizes from `sysconf`;
  - whether a write to the audit log fails.
- **Delays.** Coroutine delays are recorded as a sequence of durations.
- **Fixed-width integers.** JVM `Int`/`Long` wrap-around and the 64-bit
  `uintptr_t`/`long` arithmetic are written out explicitly.

The classifier as written has two defects, listed under Findings. A corrected
classifier `Classify` is defined and proved beside it. The contexts recorded
by `executeWithRetry`, `executeSafe` and `TestWrapper` are categorised by
`FromThrowable`, as the source does. So an `UnknownHostException` is recorded
as IO there, and an `onError` hook sees that category.

## Model

| member | source | states |
|---|---|---|
| Text.NatToString | native/src/core/rafaelia_audit.rs:38 | The decimal rendering of a `u64` field is a non-empty run of digits. |
| Text.NatToStringValue | native/src/core/rafaelia_audit.rs:38 | The digits denote the number, most significant first, with no leading zero above 0. |
| Text.IntToString | app/src/main/java/com/topjohnwu/magisk/core/validation/TypeValidator.kt:33 | A string template of an `Int` is non-empty and starts with '-' exactly when the value is negative. |
| Text.IntToStringValue | app/src/main/java/com/topjohnwu/magisk/core/validation/TypeValidator.kt:33 | The rendering, read back with its sign, is the integer. |
| Text.IntToStringInjective | app/src/main/java/com/topjohnwu/magisk/core/validation/TypeValidator.kt:33 | Different integers render as different strings. |
| Text.Join | app/src/main/java/com/topjohnwu/magisk/core/validation/TypeValidator.kt:293 | `joinToString` of no parts is empty, and of one part is that part. |
| Text.JoinSnoc | app/src/main/java/com/topjohnwu/magisk/core/validation/TypeValidator.kt:293 | Joining one more part appends the separator and the part. |
| Text.TakeLast | app/src/main/java/com/topjohnwu/magisk/core/error/ErrorHandlerUtil.kt:221 | `takeLast(n)` has length min(n, size) and holds the last elements in order. |
| Numbers.WrapLong | app/src/main/java/com/topjohnwu/magisk/core/error/ErrorHandlerUtil.kt:78 | `Long` arithmetic agrees with the exact result modulo 2^64 and equals it when that fits. |
| Numbers.WrapInt | tests/TestWrapper.kt:92 | `Int` arithmetic agrees with the exact result modulo 2^32 and equals it when that fits. |
| Numbers.WrapLongDouble | app/src/main/java/com/topjohnwu/magisk/core/error/ErrorHandlerUtil.kt:78 | Doubling a wrapped `Long` and wrapping again is wrapping the exact double. |
| Numbers.DelayAtShift | app/src/main/java/com/topjohnwu/magisk/core/error/ErrorHandlerUtil.kt:75-79 | The schedule started one step later is the schedule from the next delay. |
| Numbers.DoublingStep | app/src/main/java/com/topjohnwu/magisk/core/error/ErrorHandlerUtil.kt:78 | One `currentDelay *= 2` step takes the wrapped d·2^(j-1) to the wrapped d·2^j. |
| Numbers.DelaySchedule | app/src/main/java/com/topjohnwu/magisk/core/error/ErrorHandlerUtil.kt:75-79 | The j-th delay is d·2^j (wrapped to a `Long`) with backoff, and d without. |
| Numbers.DelayExact | app/src/main/java/com/topjohnwu/magisk/core/error/ErrorHandlerUtil.kt:75-79 | While nothing overflows, the backoff delays are exactly d·2^j. |
| Faults.IllegalArgument | app/src/main/java/com/topjohnwu/magisk/core/validation/TypeValidator.kt:24 | The fault built is an `IllegalArgumentException` carrying the given message. |
| ErrorCategories.FromName | app/src/main/java/com/topjohnwu/magisk/core/error/ErrorCategory.kt:7-16 | `valueOf` returns only a category whose name is the argument. |
| ErrorCategories.NameRoundTrip | app/src/main/java/com/topjohnwu/magisk/core/error/ErrorCategory.kt:7-16 | Every category's name reads back as that category. |
| ErrorCategories.NetworkFaultsAreIOExceptions | app/src/main/java/com/topjohnwu/magisk/core/error/ErrorCategory.kt:21-27 | Every fault of the six `java.net` classes is an `IOException`. |
| ErrorCategories.FromThrowableTable | app/src/main/java/com/topjohnwu/magisk/core/error/ErrorCategory.kt:19-35 | As written, `fromThrowable` gives a fault each category's condition. IO iff an `IOException`. NETWORK never. SECURITY iff a `SecurityException`. VALIDATION iff an `IllegalArgumentException` or `IllegalStateException`. PARSING iff exactly a `JSONException`. UNKNOWN iff unlisted. DATABASE, CONFIGURATION and RUNTIME never. |
| ErrorCategories.UnknownHostIsIO | app/src/main/java/com/topjohnwu/magisk/core/error/ErrorCategory.kt:21-22 | As written, an `UnknownHostException` is IO. The corrected table makes it NETWORK. |
| ErrorCategories.NumberFormatIsValidation | app/src/main/java/com/topjohnwu/magisk/core/error/ErrorCategory.kt:29-32 | As written, a `NumberFormatException` is VALIDATION. The corrected table makes it PARSING. |
| ErrorCategories.ClassifyTable | app/src/main/java/com/topjohnwu/magisk/core/error/ErrorCategory.kt:19-35 | The corrected table gives each category both ways. NETWORK iff one of the six `java.net` classes. IO iff another `IOException`. PARSING iff a `JSONException` or `NumberFormatException`. VALIDATION iff another illegal-argument or illegal-state fault. UNKNOWN iff unlisted. Three categories are never produced. |
| ErrorCategories.ClassifyAgreesElsewhere | app/src/main/java/com/topjohnwu/magisk/core/error/ErrorCategory.kt:19-35 | The written and corrected tables differ exactly on the `java.net` faults and `NumberFormatException`. |
| ErrorContexts.Ordinal | app/src/main/java/com/topjohnwu/magisk/core/error/ErrorContext.kt:36-41 | A severity's ordinal is its position in declaration order. |
| ErrorContexts.SeverityOrder | app/src/main/java/com/topjohnwu/magisk/core/error/ErrorContext.kt:36-41 | Severities compare as LOW < MEDIUM < HIGH < CRITICAL, and in no other way. |
| ErrorContexts.NewContext | app/src/main/java/com/topjohnwu/magisk/core/error/ErrorContext.kt:9-19 | Default arguments: empty metadata, MEDIUM, recoverable, no user message, and the required fields as given. |
| ErrorContexts.ContextKeysDistinct | app/src/main/java/com/topjohnwu/magisk/core/error/ErrorContext.kt:21-32 | The ten `toMap` keys are pairwise different. |
| ErrorContexts.ToMapFields | app/src/main/java/com/topjohnwu/magisk/core/error/ErrorContext.kt:20-33 | `toMap` has exactly the ten keys, in order, each once. Under each key is its field: the enums by name, and component, operation, recoverable, userMessage and metadata unchanged. |
| ErrorContexts.ToMapRoundTrip | app/src/main/java/com/topjohnwu/magisk/core/error/ErrorContext.kt:20-33 | Reading the serialised map back gives the component, operation, category, severity, recoverability and user message. |
| ErrorContexts.ReadBackOf | app/src/main/java/com/topjohnwu/magisk/core/error/ErrorContext.kt:20-33 | Any map holding a context's fields under `toMap`'s keys reads back as that context. |
| ErrorContexts.SeverityNameRoundTrip | app/src/main/java/com/topjohnwu/magisk/core/error/ErrorContext.kt:36-41 | Every severity's name reads back as that severity. |
| ErrorStatistics.Tally | app/src/main/java/com/topjohnwu/magisk/core/error/ErrorHandlerUtil.kt:212-214 | `groupingBy { }.eachCount()` has as keys the values that occur, each with its number of occurrences. |
| ErrorStatistics.TallySum | app/src/main/java/com/topjohnwu/magisk/core/error/ErrorHandlerUtil.kt:212-219 | The counts of a tally add up to the number of items tallied. |
| ErrorHandling.BoundedLast | app/src/main/java/com/topjohnwu/magisk/core/error/ErrorHandlerUtil.kt:200-205 | The ledger keeps the last 1000 records (or all of them) in order. |
| ErrorHandling.BoundedAppend | app/src/main/java/com/topjohnwu/magisk/core/error/ErrorHandlerUtil.kt:200-205 | Recording into a capped ledger is capping the whole sequence of records. |
| ErrorHandling.RecordAllBounded | app/src/main/java/com/topjohnwu/magisk/core/error/ErrorHandlerUtil.kt:200-205 | Recording contexts one at a time, each followed by eviction, keeps exactly the last 1000 in order. |
| ErrorHandling.CategoriesOf | app/src/main/java/com/topjohnwu/magisk/core/error/ErrorHandlerUtil.kt:212 | The category of each ledger entry, in order. |
| ErrorHandling.SeveritiesOf | app/src/main/java/com/topjohnwu/magisk/core/error/ErrorHandlerUtil.kt:213 | The severity of each ledger entry, in order. |
| ErrorHandling.ComponentsOf | app/src/main/java/com/topjohnwu/magisk/core/error/ErrorHandlerUtil.kt:214 | The component of each ledger entry, in order. |
| ErrorHandling.MapsOf | app/src/main/java/com/topjohnwu/magisk/core/error/ErrorHandlerUtil.kt:221 | The `toMap` of each entry, in order. |
| ErrorHandling.Recent | app/src/main/java/com/topjohnwu/magisk/core/error/ErrorHandlerUtil.kt:221 | `recentErrors` has min(10, size) maps: those of the last entries, oldest first. |
| ErrorHandling.Snapshot | app/src/main/java/com/topjohnwu/magisk/core/error/ErrorHandlerUtil.kt:210-223 | `totalErrors` is the ledger size and equals the sum of each of the three count maps. Each map counts exactly the values that occur. `recentErrors` is the last ten serialised. |
| ErrorHandling.AttemptContextFields | app/src/main/java/com/topjohnwu/magisk/core/error/ErrorHandlerUtil.kt:53-63 | A failed attempt's context has the fault, its category as `fromThrowable` gives it, MEDIUM, the call's component and operation, and the attempt numbers as metadata. It is recoverable iff the index is below maxAttempts-1. |
| ErrorHandling.RetryFromAttempts | app/src/main/java/com/topjohnwu/magisk/core/error/ErrorHandlerUtil.kt:28-51 | From index i, the action is called with i+1, i+2, …, at most the remaining number of times. Every call but the last threw without its hook throwing. |
| ErrorHandling.RetryFromDelays | app/src/main/java/com/topjohnwu/magisk/core/error/ErrorHandlerUtil.kt:75-79 | From index i there is one delay between neighbouring calls, following the schedule. |
| ErrorHandling.RetryFromRecorded | app/src/main/java/com/topjohnwu/magisk/core/error/ErrorHandlerUtil.kt:52-65 | From index i, the j-th recorded context is the one built for attempt i+j+1, which threw. |
| ErrorHandling.RetryFromEnding | app/src/main/java/com/topjohnwu/magisk/core/error/ErrorHandlerUtil.kt:51-88 | The run ends as its last call decides: a value after n-1 records, a hook's escaping fault, or the last fault at the final index. |
| ErrorHandling.RetryAttemptsInOrder | app/src/main/java/com/topjohnwu/magisk/core/error/ErrorHandlerUtil.kt:28-51 | Calls use 1, 2, … in order, between 1 and maxAttempts of them, and none when maxAttempts <= 0. Each call before the last failed quietly. |
| ErrorHandling.RetrySuccess | app/src/main/java/com/topjohnwu/magisk/core/error/ErrorHandlerUtil.kt:40-51 | If attempts 1..k-1 fail quietly and attempt k returns v, the run succeeds with v after k calls and k-1 records. |
| ErrorHandling.RetrySuccessIsFirstReturn | app/src/main/java/com/topjohnwu/magisk/core/error/ErrorHandlerUtil.kt:40-51 | A success is the value of the last call, which returned. Every earlier call failed quietly and left one record. |
| ErrorHandling.RetryRecorded | app/src/main/java/com/topjohnwu/magisk/core/error/ErrorHandlerUtil.kt:53-65 | The j-th record belongs to attempt j+1. It is recoverable iff j < maxAttempts-1. There is never more than one record per call. |
| ErrorHandling.RetryDelays | app/src/main/java/com/topjohnwu/magisk/core/error/ErrorHandlerUtil.kt:27-79 | The delays are delayMs, then doubled (as a `Long`) with backoff or repeated without. There is one between neighbouring calls and none after the last. |
| ErrorHandling.RetryExhausted | app/src/main/java/com/topjohnwu/magisk/core/error/ErrorHandlerUtil.kt:80-92 | If every attempt fails quietly, the action is called maxAttempts times and the run fails with the last fault. With maxAttempts <= 0 it fails with the generic fault and calls, records and waits nothing. |
| ErrorHandling.RetryHookEscape | app/src/main/java/com/topjohnwu/magisk/core/error/ErrorHandlerUtil.kt:66 | A fault escapes only as the one the hook threw on the last recorded context. |
| ErrorHandling.SafeOutcome | app/src/main/java/com/topjohnwu/magisk/core/error/ErrorHandlerUtil.kt:98-133 | A returned value comes back with nothing recorded. A fault records one context with `fromThrowable`'s category, the given severity and recoverable iff there is a default, then returns the default (unless the hook throws, which escapes). |
| ErrorHandling.ReasonMetadata | app/src/main/java/com/topjohnwu/magisk/core/error/ErrorHandlerUtil.kt:154 | The metadata holds the field name under "field" and the reason under "reason". |
| ErrorHandling.OrElse | app/src/main/java/com/topjohnwu/magisk/core/error/ErrorHandlerUtil.kt:156 | `?:` gives the message when there is one, and the fallback otherwise. |
| ErrorHandling.ValidateOutcome | app/src/main/java/com/topjohnwu/magisk/core/error/ErrorHandlerUtil.kt:138-195 | Success iff the value is non-null and the check returns true; the value comes back unchanged and nothing is recorded. Null gives VALIDATION/`null_value`. A false check gives VALIDATION/`validator_failed`. A throwing check gives RUNTIME/HIGH. Each failure records one context. |
| ErrorHandling.ErrorHandler.constructor | app/src/main/java/com/topjohnwu/magisk/core/error/ErrorHandlerUtil.kt:12 | The ledger starts empty. |
| ErrorHandling.ErrorHandler.RecordError | app/src/main/java/com/topjohnwu/magisk/core/error/ErrorHandlerUtil.kt:200-205 | The append-then-`poll` loop leaves the last 1000 records of the old ledger plus the new one. |
| ErrorHandling.ErrorHandler.ClearHistory | app/src/main/java/com/topjohnwu/magisk/core/error/ErrorHandlerUtil.kt:242-245 | The ledger is empty, so the statistics show no errors, no recent errors and empty category, severity and component counts. |
| ErrorHandling.ErrorHandler.RetryAttempt | app/src/main/java/com/topjohnwu/magisk/core/error/ErrorHandlerUtil.kt:29-89 | One pass of the `repeat` body is the next step of the specified run: it returns and completes the run, or it records its context and continues with the next delay. |
| ErrorHandling.ErrorHandler.ExecuteWithRetry | app/src/main/java/com/topjohnwu/magisk/core/error/ErrorHandlerUtil.kt:18-93 | The result, the attempts and the delays are those of the specified run. The ledger has recorded that run's contexts. |
| ErrorHandling.ErrorHandler.ExecuteSafe | app/src/main/java/com/topjohnwu/magisk/core/error/ErrorHandlerUtil.kt:98-133 | The result is the one `SafeOutcome` specifies. Its record is added to the ledger before the hook runs. |
| ErrorHandling.ErrorHandler.Validate | app/src/main/java/com/topjohnwu/magisk/core/error/ErrorHandlerUtil.kt:138-195 | The result is the one `ValidateOutcome` specifies. Its record is added to the ledger. |
| Recovery.NetworkRecovery | app/src/main/java/com/topjohnwu/magisk/core/error/RecoveryStrategy.kt:43-102 | With no action: the fallback, no delay, no call. Otherwise up to 3 calls, each after 1000·2^j ms. The first success is returned, and after three failures the fallback. |
| Recovery.IORecovery | app/src/main/java/com/topjohnwu/magisk/core/error/RecoveryStrategy.kt:107-135 | With an action, exactly one call after 500 ms, whatever `recoverable` says: its value, or the fallback when it throws. Without one, the fallback. |
| Recovery.FallbackRecovery | app/src/main/java/com/topjohnwu/magisk/core/error/RecoveryStrategy.kt:140-165 | VALIDATION and PARSING return the fallback without waiting or calling anything. |
| Recovery.DatabaseRecovery | app/src/main/java/com/topjohnwu/magisk/core/error/RecoveryStrategy.kt:170-204 | Up to 2 calls, each after 1000 ms. The first success is returned, otherwise the fallback. |
| Recovery.GenericRecovery | app/src/main/java/com/topjohnwu/magisk/core/error/RecoveryStrategy.kt:209-237 | One call after 500 ms only when an action is given and the context is recoverable. Otherwise the fallback. |
| Recovery.Recover | app/src/main/java/com/topjohnwu/magisk/core/error/RecoveryStrategy.kt:15-38 | Each category gets its own policy, and no fault of the action escapes: the result is the fallback or what some call returned. |
| TypeValidation.Reject | app/src/main/java/com/topjohnwu/magisk/core/validation/TypeValidator.kt:24 | A rejection is an `IllegalArgumentException` with the message field name + suffix. |
| TypeValidation.ValidateString | app/src/main/java/com/topjohnwu/magisk/core/validation/TypeValidator.kt:14-50 | Success iff non-null, non-empty unless allowed, within maxLength and minLength, and matching; the value comes back unchanged. The first failing check, in source order, gives its message. |
| TypeValidation.ValidateRange | app/src/main/java/com/topjohnwu/magisk/core/validation/TypeValidator.kt:55-108 | Success iff non-null and min <= v <= max for the bounds given. Null, then below min, then above max give their messages. |
| TypeValidation.ValidateInt | app/src/main/java/com/topjohnwu/magisk/core/validation/TypeValidator.kt:55-79 | Success iff non-null and within the given bounds; the value comes back unchanged, and a failure is the range check's. |
| TypeValidation.ValidateLong | app/src/main/java/com/topjohnwu/magisk/core/validation/TypeValidator.kt:84-108 | The same for `Long`. |
| TypeValidation.ValidateBoolean | app/src/main/java/com/topjohnwu/magisk/core/validation/TypeValidator.kt:146-155 | Success iff non-null, with the value unchanged. Null gives "cannot be null". |
| TypeValidation.ValidateNotNull | app/src/main/java/com/topjohnwu/magisk/core/validation/TypeValidator.kt:251-260 | Success iff non-null, with the value unchanged. Null gives "cannot be null". |
| TypeValidation.ValidateSize | app/src/main/java/com/topjohnwu/magisk/core/validation/TypeValidator.kt:160-223 | Success iff present, non-empty unless allowed, and minSize <= size <= maxSize. The checks run in source order, each with its message. |
| TypeValidation.ValidateCollection | app/src/main/java/com/topjohnwu/magisk/core/validation/TypeValidator.kt:160-189 | Success iff non-null, non-empty unless allowed, and within the size bounds; the collection comes back unchanged. Messages say "items". |
| TypeValidation.ValidateMap | app/src/main/java/com/topjohnwu/magisk/core/validation/TypeValidator.kt:194-223 | The same for maps, with messages that say "entries". |
| TypeValidation.NullAlwaysRejected | app/src/main/java/com/topjohnwu/magisk/core/validation/TypeValidator.kt:23-257 | Every validator rejects null with "<field> cannot be null". |
| TypeValidation.Failures | app/src/main/java/com/topjohnwu/magisk/core/validation/TypeValidator.kt:271-287 | There is at most one failure line per validation. |
| TypeValidation.FailuresAppend | app/src/main/java/com/topjohnwu/magisk/core/validation/TypeValidator.kt:273-287 | Failure lines come in argument order: those of a concatenation are the lines of the parts, concatenated. |
| TypeValidation.FailuresEmpty | app/src/main/java/com/topjohnwu/magisk/core/validation/TypeValidator.kt:271-291 | There are no failure lines iff every validation succeeded. |
| TypeValidation.Aggregate | app/src/main/java/com/topjohnwu/magisk/core/validation/TypeValidator.kt:289-295 | Success iff there are no failures. Otherwise the message is "Validation failed: " and the lines joined with "; ". |
| TypeValidation.ValidateAll | app/src/main/java/com/topjohnwu/magisk/core/validation/TypeValidator.kt:266-296 | The `forEach` yields that aggregate of the "name: message" lines in argument order. It succeeds iff every input succeeded. |
| TestWrapper.TestContextFields | tests/TestWrapper.kt:43-54 | A thrown attempt's context has the fault, its category as `fromThrowable` gives it, the wrapper and the action name, and the attempt numbers as metadata. It is MEDIUM and recoverable iff attempt < maxAttempts, and HIGH otherwise. |
| TestWrapper.ThrownAt | tests/TestWrapper.kt:40-66 | Thrown attempts in a range add at most one context each. |
| TestWrapper.ThrownAtFront | tests/TestWrapper.kt:40-66 | The contexts of a range start with the first attempt's, if it threw. |
| TestWrapper.RunFromCalls | tests/TestWrapper.kt:27-79 | From attempt i: no more calls than attempts remain. Every call but the last did not return true. Success iff the last did. A failed run used every remaining attempt. |
| TestWrapper.RunFromDelays | tests/TestWrapper.kt:92-98 | From attempt i, one delay follows the schedule between neighbouring calls. |
| TestWrapper.RunFromErrors | tests/TestWrapper.kt:40-66 | The contexts collected from attempt i are those of the calls made that threw. |
| TestWrapper.RunStopsAtFirstTrue | tests/TestWrapper.kt:27-79 | The action runs at most maxAttempts times (none when <= 0), and the loop stops at the first true. A failed run used every attempt. |
| TestWrapper.NothingRunsWithoutAttempts | tests/TestWrapper.kt:27 | With maxAttempts <= 0 nothing runs, is collected or is waited. |
| TestWrapper.RunErrors | tests/TestWrapper.kt:40-66 | Each throw adds exactly one context and a false adds none. Every context but the last is MEDIUM and recoverable. |
| TestWrapper.ThrownAtRecoverable | tests/TestWrapper.kt:52-53 | Among contexts of attempts up to maxAttempts, all but the last are MEDIUM and recoverable. |
| TestWrapper.ThrownAtBelow | tests/TestWrapper.kt:52-53 | Contexts of attempts below maxAttempts are all MEDIUM and recoverable. |
| TestWrapper.RunDelays | tests/TestWrapper.kt:92-98 | A delay comes only when another attempt follows. The delays are d, 2d, 4d, … (as a `Long`) with backoff and d, d, … without. |
| TestWrapper.RunWithRetries | tests/TestWrapper.kt:15-117 | The `while` loop with an unbounded counter produces exactly the specified run. |
| TestWrapper.NextAttemptAsWritten | tests/TestWrapper.kt:92 | Below `Int.MAX_VALUE`, `attempt++` adds one. |
| TestWrapper.AttemptCounterWraps | tests/TestWrapper.kt:92-93 | At `Int.MAX_VALUE`, `attempt++` wraps to `Int.MIN_VALUE`, which still passes the loop guard at line 27. |
| TestWrapper.RunSafe | tests/TestWrapper.kt:122-152 | The action's value, or the default on a fault. Then one context is logged, with `fromThrowable`'s category: MEDIUM and recoverable iff there is a default, and HIGH iff there is none. |
| RafaeliaAudit.StateIdParts | native/src/core/rafaelia_audit.rs:165 | A state id is "PRIM_", the primitive, "_CTX_" and the context, in that order. |
| RafaeliaAudit.Escape | native/src/core/rafaelia_audit.rs:56 | Escaping never shortens, never starts with a bare quote, and keeps a final quote last. |
| RafaeliaAudit.EscapeRoundTrip | native/src/core/rafaelia_audit.rs:56 | Unescaping the escaped message gives it back. |
| RafaeliaAudit.EscapeQuotes | native/src/core/rafaelia_audit.rs:56 | Every '"' of the escaped message directly follows a backslash. |
| RafaeliaAudit.Optional | native/src/core/rafaelia_audit.rs:45-57 | An optional member is present iff its field is `Some`. |
| RafaeliaAudit.Present | native/src/core/rafaelia_audit.rs:37-57 | A line has between 8 and 11 members. |
| RafaeliaAudit.Body | native/src/core/rafaelia_audit.rs:37-57 | There is one rendered member per present member. |
| RafaeliaAudit.FixedMembersFirst | native/src/core/rafaelia_audit.rs:38-53 | The six fixed members come first in a fixed order, and duration and success are always present. |
| RafaeliaAudit.OptionalMembers | native/src/core/rafaelia_audit.rs:45-57 | `input_hash`, `output_hash` and `error_msg` appear iff they are `Some`. |
| RafaeliaAudit.MembersDistinct | native/src/core/rafaelia_audit.rs:38-57 | No member appears twice. |
| RafaeliaAudit.LastMember | native/src/core/rafaelia_audit.rs:52-57 | The last member is `error_msg` when present, and `success` otherwise. |
| RafaeliaAudit.JsonLineShape | native/src/core/rafaelia_audit.rs:36-64 | The line starts with '{' and ends with '}', and the character before the '}' is not ','. |
| RafaeliaAudit.TerminatedJoin | native/src/core/rafaelia_audit.rs:37-62 | Pushing each member followed by ',' is the comma-join plus one trailing ','. |
| RafaeliaAudit.PushObject | native/src/core/rafaelia_audit.rs:36-64 | The push-and-pop buffer gives '{', the members comma-joined, then '}'. |
| RafaeliaAudit.ToJsonl | native/src/core/rafaelia_audit.rs:35-65 | `to_jsonl` yields the entry's JSON line. |
| RafaeliaAudit.FindPoint | native/src/core/rafaelia_audit.rs:247-251 | None iff no point has the id. Otherwise the first point with it. |
| RafaeliaAudit.CountSuccessfulIsCardinality | native/src/core/rafaelia_audit.rs:278 | The successful count is the number of positions holding a successful entry. |
| RafaeliaAudit.CountBounded | native/src/core/rafaelia_audit.rs:279 | Successes never outnumber entries, so the subtraction cannot underflow. |
| RafaeliaAudit.Statistics | native/src/core/rafaelia_audit.rs:274-294 | total = history length and successful + failed = total. The average is the truncated mean (0 when empty). The session id is passed through. |
| RafaeliaAudit.NewEntry | native/src/core/rafaelia_audit.rs:160-179 | The entry has the derived state id and no hashes. |
| RafaeliaAudit.CappedPush | native/src/core/rafaelia_audit.rs:191-196 | Popping the front when full and then pushing gives the last 1000 entries. |
| RafaeliaAudit.HistoryAfter | native/src/core/rafaelia_audit.rs:181-196 | The history never exceeds 1000. It is unchanged when disabled or when the write fails. |
| RafaeliaAudit.AuditSystem.constructor | native/src/core/rafaelia_audit.rs:101-129 | Enabled, with an empty history, no points and nothing written. |
| RafaeliaAudit.AuditSystem.LogOperation | native/src/core/rafaelia_audit.rs:147-199 | Disabled: nothing changes. Enabled: the line is written and the entry appended to the capped history, or a write error is returned and nothing is kept. Points, session and flag are unchanged. |
| RafaeliaAudit.AuditSystem.CreateRollbackPoint | native/src/core/rafaelia_audit.rs:202-243 | The point records the first clock reading and audit_index = the old history length, and is appended. Then CREATE_ROLLBACK is logged with the second clock reading, which `log_operation` takes. The point is returned unless that write fails. |
| RafaeliaAudit.AuditSystem.PerformRollback | native/src/core/rafaelia_audit.rs:246-271 | NotFound iff no point has the id, and then nothing changes. Otherwise PERFORM_ROLLBACK is logged for the first such point. The points never change. |
| RafaeliaAudit.AuditSystem.GetStatistics | native/src/core/rafaelia_audit.rs:274-294 | The counts cover the whole history and the session id. |
| RafaeliaAudit.AuditSystem.SetEnabled | native/src/core/rafaelia_audit.rs:297-299 | Only the flag changes. |
| RafaeliaAudit.NewestLast | native/src/core/rafaelia_audit.rs:191-196 | The logged entry is last, after the newest 999 older ones in order, so the oldest go first. |
| StateValidation.LeastExists | tools/rafaelia/state_validator.py:62 | Every non-empty set of strings has a least element under Python's `str` order. |
| StateValidation.Sorted | tools/rafaelia/state_validator.py:62 | `sorted(s)` holds exactly the elements of `s`, each once, in strictly increasing order. |
| StateValidation.RowsById | tools/rafaelia/state_validator.py:35-38 | `states` has exactly the non-empty state ids of the rows, each mapped to a row with that id. |
| StateValidation.RowWithoutIdIgnored | tools/rafaelia/state_validator.py:36-44 | A row with an empty state id adds no state, primitive or context. |
| StateValidation.Invalid | tools/rafaelia/state_validator.py:121-127 | An invalid entry adds one to `invalid_entries` and exactly one error, and changes nothing else. |
| StateValidation.StateValidator.constructor | tools/rafaelia/state_validator.py:17-48 | Loading the rows gives the states by id, and the primitives and contexts of the rows that have an id. |
| StateValidation.StateValidator.ValidateStateId | tools/rafaelia/state_validator.py:50-55 | Accepted iff the id is in `states`, else "State ID not found in matrix: …". |
| StateValidation.StateValidator.ValidatePrimitive | tools/rafaelia/state_validator.py:57-63 | Accepted iff known. Otherwise the message lists the five smallest primitives. |
| StateValidation.StateValidator.ValidateContext | tools/rafaelia/state_validator.py:65-71 | Accepted iff known. Otherwise the message lists the five smallest contexts. |
| StateValidation.StateValidator.ValidateStateCombination | tools/rafaelia/state_validator.py:73-76 | Exactly membership of "PRIM_{p}_CTX_{c}" in `states`. |
| StateValidation.StateValidator.ValidateTransition | tools/rafaelia/state_validator.py:78-91 | Accepted iff both states exist. A missing from-state is reported first. |
| StateValidation.StateValidator.ValidateAuditLog | tools/rafaelia/state_validator.py:93-186 | The line-by-line loop with its counters, lists and `prev_state` produces the specified scan's results. |
| StateValidation.StateValidator.CheckRecord | tools/rafaelia/state_validator.py:118-173 | The checks of one JSON object are the specified step. |
| StateValidation.StateValidator.ScanAborted | tools/rafaelia/state_validator.py:183-184 | Once an exception ends the scan, later lines change nothing. |
| StateValidation.StateValidator.StepConsistent | tools/rafaelia/state_validator.py:109-181 | Each line keeps the invariant: total = valid + invalid (+1 if aborted), one error per invalid entry, and `prev_state` a known state. |
| StateValidation.StateValidator.ScanConsistent | tools/rafaelia/state_validator.py:109-181 | The whole scan keeps that invariant. |
| StateValidation.StateValidator.AuditLogCounters | tools/rafaelia/state_validator.py:113-181 | total = valid + invalid, plus the entry that ended the scan if one did, and `len(errors) == invalid_entries`. |
| StateValidation.StateValidator.BlankNotCounted | tools/rafaelia/state_validator.py:109-111 | A blank line changes nothing. |
| StateValidation.StateValidator.IssueLines | tools/rafaelia/state_validator.py:109-181 | Every issue carries the 1-based position of its line, blank lines included in the numbering, and never a blank line's number. |
| StateValidation.StateValidator.StepIssues | tools/rafaelia/state_validator.py:109-181 | A step adds issues only about its own line, and none for a blank line. |
| StateValidation.StateValidator.RecordIssues | tools/rafaelia/state_validator.py:118-173 | The checks of a record add issues only about its line. |
| StateValidation.StateValidator.MismatchOnlyWarns | tools/rafaelia/state_validator.py:143-150 | A state-id mismatch on an otherwise known entry adds a warning and counts the entry as valid, never as invalid. |
| StateValidation.StateValidator.PrevOnlyOnValid | tools/rafaelia/state_validator.py:172-173 | `prev_state` changes only on a valid entry, and then to that entry's state. |
| StateValidation.StateValidator.NoTransitionWarning | tools/rafaelia/state_validator.py:162-170 | If an entry's derived state is in the matrix, the transition check from the scan's `prev_state` always accepts. So the transition warning, `validate_state_id`'s "State ID not found in matrix: …", is never added during a scan. |
| LowLevel.Compare | native/src/base/lowlevel.c:80-90 | The comparison lies in [-255, 255]. |
| LowLevel.CompareAt | native/src/base/lowlevel.c:84-87 | Equal prefixes followed by differing bytes give p1[i]-p2[i]. |
| LowLevel.CompareZero | native/src/base/lowlevel.c:80-90 | The comparison is 0 iff the bytes are equal. |
| LowLevel.CompareAntisymmetric | native/src/base/lowlevel.c:86 | Swapping the arguments negates the answer. |
| LowLevel.Memcmp | native/src/base/lowlevel.c:80-90 | The loop returns that comparison of the first n bytes, and 0 iff they are equal. |
| LowLevel.Memcpy | native/src/base/lowlevel.c:93-100 | dest[0..n) becomes src[0..n). The rest of dest and all of src are unchanged. |
| LowLevel.Memset | native/src/base/lowlevel.c:103-109 | s[0..n) all become c mod 256, and the rest is unchanged. |
| LowLevel.NulIndex | native/src/base/lowlevel.c:112-118 | The length is the index of the first NUL. |
| LowLevel.NulIndexFirst | native/src/base/lowlevel.c:112-118 | Any index of a first NUL is that length. |
| LowLevel.Strlen | native/src/base/lowlevel.c:112-118 | The loop that steps through the string returns the index of the first NUL. |
| LowLevel.HelloWorldLength | native/tests/test_lowlevel.c:19-21 | "Hello, World!" has length 13. |
| LowLevel.DecodeMmap | native/src/base/lowlevel.c:44-52 | MAP_FAILED iff the raw result is in [-4095, -1], with errno = -result. Any other result is the address: a non-negative result as it is, a lower one reinterpreted as unsigned. |
| LowLevel.DecodeMmapInverse | native/src/base/lowlevel.c:45-51 | Every address below the top 4095 bytes, and every error number 1..4095, decodes back as itself. |
| LowLevel.DecodeStatus | native/src/base/lowlevel.c:55-72 | Returns -1 iff the result is negative and 0 otherwise. errno is set exactly when the result is negative, to -result whenever that fits an `int`. |
| LowLevel.DecodeStatusInverse | native/src/base/lowlevel.c:56-61 | A negated error number decodes back as itself. |
| LowLevelInline.FirstMatchFrom | native/src/base/lowlevel.hpp:136-157 | A found offset matches and no smaller one does. None means no offset matches. |
| LowLevelInline.FirstMatchNone | native/src/base/lowlevel.hpp:137-156 | An empty or over-long pattern is never found. Otherwise none iff no offset matches. |
| LowLevelInline.MemSearch | native/src/base/lowlevel.hpp:136-157 | The nested scanning loops return the smallest matching offset, or none. |
| LowLevelInline.AlignDown | native/src/base/lowlevel.hpp:174-178 | The result is at most a, a multiple of ps, and within ps of a. |
| LowLevelInline.AlignUp | native/src/base/lowlevel.hpp:180-184 | The wrapped sum, rounded down, is a multiple of ps. |
| LowLevelInline.AlignUpNoWrap | native/src/base/lowlevel.hpp:180-184 | Without overflow, no wrapping happens. |
| LowLevelInline.AlignUpBounds | native/src/base/lowlevel.hpp:180-184 | Without overflow, a <= page_align_up(a) < a + ps. |
| LowLevelInline.AlignedRoom | native/src/base/lowlevel.hpp:180-184 | An aligned address lies at least a page below 2^64. |
| LowLevelInline.AlignedFixed | native/src/base/lowlevel.hpp:174-184 | An aligned address maps to itself under both alignments. |
| LowLevelInline.AlignIdempotent | native/src/base/lowlevel.hpp:174-184 | Aligning twice is aligning once, for both. |
| LowLevelInline.AlignUpWraps | native/src/base/lowlevel.hpp:183 | Rounding up the top address with 4096-byte pages wraps to 0. |
| LowLevelInline.PageSizeCache.constructor | native/src/base/lowlevel.hpp:166 | The static starts at 0. |
| LowLevelInline.PageSizeCache.GetPageSize | native/src/base/lowlevel.hpp:165-171 | The first call stores `sysconf`'s value. Every later call returns the stored value unchanged. |
| ElfCleaner.Retained | tools/elf-cleaner/src/main.rs:62-99 | `retain` never lengthens the list. |
| ElfCleaner.RetainedOnlyKept | tools/elf-cleaner/src/main.rs:62-99 | Every retained entry comes from the input and passes the rule. |
| ElfCleaner.RetainedKeeps | tools/elf-cleaner/src/main.rs:62-99 | Every input entry that passes the rule is retained. |
| ElfCleaner.RetainedAllKept | tools/elf-cleaner/src/main.rs:62-99 | A list whose entries all pass is unchanged. |
| ElfCleaner.RetainedAppend | tools/elf-cleaner/src/main.rs:62-99 | `retain` works part by part, so the relative order of the entries is kept. |
| ElfCleaner.MaskFirstFlags | tools/elf-cleaner/src/main.rs:103-118 | Masking keeps the length. |
| ElfCleaner.MaskKeepsTags | tools/elf-cleaner/src/main.rs:103-118 | Masking changes no tag and no kind of entry. |
| ElfCleaner.OnlyFirstFlagsMasked | tools/elf-cleaner/src/main.rs:103-117 | Only the first integer `DT_FLAGS_1` changes, to val & (DF_1_NOW \| DF_1_GLOBAL). Entries before and after it are untouched. |
| ElfCleaner.NoFlagsUnchanged | tools/elf-cleaner/src/main.rs:103-118 | Without such an entry nothing changes. |
| ElfCleaner.MaskIdempotent | tools/elf-cleaner/src/main.rs:107 | Masking twice is masking once. |
| ElfCleaner.CleanRemoves | tools/elf-cleaner/src/main.rs:64-97 | No DT_RPATH or DT_RUNPATH remains, and on AArch64 none of the three AArch64 tags. |
| ElfCleaner.OtherMachinesKeepAArch64Tags | tools/elf-cleaner/src/main.rs:78-97 | On another machine, entries with the AArch64 tags are kept. |
| ElfCleaner.CleanIdempotent | tools/elf-cleaner/src/main.rs:62-117 | Filtering and masking twice gives the same entries as once. |
| ElfCleaner.RetainSupported | tools/elf-cleaner/src/main.rs:62-99 | The in-place compaction leaves exactly the retained entries, in order, in the first n slots. |
| ElfCleaner.MaskFlags | tools/elf-cleaner/src/main.rs:103-118 | The loop with `break` masks the first n slots as specified and leaves the rest untouched. |
| ElfCleaner.CleanDynamic | tools/elf-cleaner/src/main.rs:59-118 | One dynamic section is cleaned as specified. |
| ElfCleaner.ProcessedSection | tools/elf-cleaner/src/main.rs:58-59 | A section stays dynamic iff it was. |
| ElfCleaner.ProcessSections | tools/elf-cleaner/src/main.rs:55-120 | Every section becomes its processed form for the binary's machine. |
| ElfCleaner.ProcessedSectionFixed | tools/elf-cleaner/src/main.rs:58-59 | Sections that are not dynamic are not modified, and processing is idempotent. |

## Left out

- Logging: `JSONLogger` output is not modelled, not even as a trace. This affects every `JSONLogger` call, `TestWrapper`'s final error report, `elf-cleaner`'s `println!` and the `print`s of `state_validator.py`. A logger that throws is not modelled either.
- `getErrorStatsMap` is left out. It only copies the statistics fields into a map.
- Concurrency. The `ConcurrentLinkedQueue`, the `Arc<Mutex<…>>` locks and coroutine suspension are modelled sequentially. A lock is taken to always succeed, so the poisoned-mutex paths of `rafaelia_audit.rs` (such as `audit_index` falling back to 0) are not modelled. `delay` is a duration appended to a recorded sequence.
- Clocks, the process id, the timestamped rollback ids and the session id are parameters. Their uniqueness is not claimed.
- `TypeValidator.validateDouble` is left out because it is floating point.
- `TypeValidator.validateEnum` is left out because it uses reflection.
- The `Regex` of `validateString` is an opaque predicate on the text.
- The `component` and `enableLogging` parameters of the validators are left out, because they only feed logging.
- TypeValidation.ValidateString: a Kotlin string's `length` counts UTF-16 code units, but the model counts the characters of a Dafny string.
- ErrorCategories.FromThrowable: the throwable hierarchy is reduced to the twelve listed classes. Any other fault is represented by its most specific listed superclass, or by `Unlisted`.
- TypeValidation.ValidateAll: every validation result has the same value type, where Kotlin's `vararg Pair<String, Result<*>>` mixes types. The aggregate depends only on the failures, so its outcome is the same.
- TestWrapper.RunWithRetries uses an unbounded attempt counter, the corrected form (see Findings). The `Int` counter of the source is modelled by TestWrapper.NextAttemptAsWritten.
- TestWrapper.RunWithRetries: the list of error contexts is returned rather than only logged, and `runBlocking` is not modelled.
- RafaeliaAudit.Statistics: the `u64` sum of durations is unbounded in the model. The overflow of `sum::<u64>()` is not modelled.
- RafaeliaAudit.AuditSystem.LogOperation: a failing `writeln!` and a failing `flush` are one failure, and the log file is always open. A partially written line and the writer being absent are not modelled.
- `AuditSystem::flush`, `Drop`, the global instance (`init_global_audit`, `log_global_operation`), the directory and file creation of `init` and the `RollbackPoint` state snapshot (always empty) are left out, because they are I/O.
- StateValidation.StateValidator.ValidateAuditLog: the lines are given already decoded, as blank, unparsable, not an object, or an object with string fields. JSON fields of other types are not modelled. That includes a list value, which would end the scan with a `TypeError`.
- StateValidation.StateValidator.AuditLogCounters: total = valid + invalid holds only when no exception ended the scan. A line that is JSON but not an object is counted as an entry and then ends the scan, so that case carries +1.
- StateValidation.StateValidator.constructor: the rows are given already read from the CSV file. The missing-file case is an empty row list. A read error part way through is the list of rows read before it.
- `generate_report` and the command-line entry point of `state_validator.py` are left out, because they are formatting and I/O.
- LowLevelInline.AlignDown and LowLevelInline.AlignUp are modelled on integers as a - a % ps and require a power-of-two page size. For such a size this is what the mask computes. For other sizes, which the source does not exclude, the mask is not modelled.
- LowLevel.DecodeStatus: the undefined negation of `LONG_MIN` is given its value wrapped to an `int`.
- LowLevel.Memcpy: the buffers are whole arrays starting at index 0. Overlapping regions at different offsets are not modelled.
- LowLevelInline.MemSearch returns the offset of the match, not its address.
- The syscall wrappers are left out, because they are foreign calls. This covers `lowlevel_open/read/write/close`, `lowlevel_getpagesize`, `process_vm_*`, `getpid/gettid`, `sys_*`, icache flushing, `lowlevel_hook_function`, `alloc/free_executable`, atomic CAS and `mem_copy_safe`.
- ELF reading, parsing and writing through the `object` crate, and `fs::read`/`fs::write`, are left out, because they are I/O. Section data other than dynamic entries is a single `Other` variant.

## Findings

| source | as written | input that shows it | evidently intended | confidence | as-written member | corrected member |
|---|---|---|---|---|---|---|
| app/src/main/java/com/topjohnwu/magisk/core/error/ErrorCategory.kt:21-27 | The `is IOException` arm comes before the `java.net` arm, and all six `java.net` classes extend `IOException`. So NETWORK is never produced. | an `UnknownHostException` is classified IO | the six `java.net` classes give NETWORK, and other I/O faults give IO | high (not executed) | ErrorCategories.UnknownHostIsIO | ErrorCategories.ClassifyTable |
| app/src/main/java/com/topjohnwu/magisk/core/error/ErrorCategory.kt:29-32 | `NumberFormatException` extends `IllegalArgumentException`, so the VALIDATION arm catches it before the PARSING arm that lists it. | a `NumberFormatException` is classified VALIDATION | `NumberFormatException` gives PARSING | high (not executed) | ErrorCategories.NumberFormatIsValidation | ErrorCategories.ClassifyTable |
| tests/TestWrapper.kt:92 | `attempt++` on an `Int` counter, guarded by `attempt <= maxAttempts`. | maxAttempts = Int.MAX_VALUE with every attempt failing: after attempt Int.MAX_VALUE the counter wraps to Int.MIN_VALUE and the loop goes on | at most maxAttempts attempts | low (not executed) | TestWrapper.AttemptCounterWraps | TestWrapper.RunStopsAtFirstTrue |
