/** `TypeValidator`: guard-chain field validators, each failing with an
    `IllegalArgumentException` whose message names the first check that
    failed, and the `validateAll` aggregator. */
module TypeValidation {
  import opened Text
  import opened Numbers
  import opened Faults

  /** A failure with the message `fieldName + suffix`. */
  function Reject<T>(fieldName: string, suffix: string): (r: KResult<T>)
    ensures r.Failure? && r.fault.message == Some(fieldName + suffix)
    ensures IsInstance(r.fault.kind, IllegalArgumentException)
  {
    Failure(IllegalArgument(fieldName + suffix))
  }

  /** `value.matches(pattern)`, kept opaque as a predicate on the text. */
  type Pattern = string -> bool

  /** `validateString`. The checks run in the order null, empty (unless
      `allowEmpty`), `maxLength`, `minLength`, `pattern`; the first one
      that fails decides the message. */
  function ValidateString(value: Option<string>, fieldName: string, allowEmpty: bool,
                          maxLength: Option<Int32>, minLength: Option<Int32>,
                          pattern: Option<Pattern>): (r: KResult<string>)
    ensures r.Success? <==>
              && value.Some?
              && (allowEmpty || |value.value| > 0)
              && (maxLength.None? || |value.value| <= maxLength.value)
              && (minLength.None? || |value.value| >= minLength.value)
              && (pattern.None? || pattern.value(value.value))
    ensures r.Success? ==> r.value == value.value
    ensures value.None? ==> r == Reject(fieldName, " cannot be null")
    ensures value.Some? && !allowEmpty && |value.value| == 0 ==> r == Reject(fieldName, " cannot be empty")
    ensures value.Some? && (allowEmpty || |value.value| > 0) ==>
              && (maxLength.Some? && |value.value| > maxLength.value ==>
                    r == Reject(fieldName, " exceeds maximum length of " + IntToString(maxLength.value)))
              && ((maxLength.None? || |value.value| <= maxLength.value) ==>
                    && (minLength.Some? && |value.value| < minLength.value ==>
                          r == Reject(fieldName, " must be at least " + IntToString(minLength.value) + " characters"))
                    && ((minLength.None? || |value.value| >= minLength.value) &&
                        pattern.Some? && !pattern.value(value.value) ==>
                          r == Reject(fieldName, " does not match required pattern")))
  {
    if value.None? then Reject(fieldName, " cannot be null")
    else
      var v := value.value;
      if !allowEmpty && |v| == 0 then Reject(fieldName, " cannot be empty")
      else if maxLength.Some? && |v| > maxLength.value then
        Reject(fieldName, " exceeds maximum length of " + IntToString(maxLength.value))
      else if minLength.Some? && |v| < minLength.value then
        Reject(fieldName, " must be at least " + IntToString(minLength.value) + " characters")
      else if pattern.Some? && !pattern.value(v) then Reject(fieldName, " does not match required pattern")
      else Success(v)
  }

  /** The range check shared by `validateInt` and `validateLong`: null,
      then `min`, then `max`. */
  function ValidateRange(value: Option<int>, fieldName: string, min: Option<int>, max: Option<int>)
    : (r: KResult<int>)
    ensures r.Success? <==>
              value.Some? && (min.None? || min.value <= value.value) && (max.None? || value.value <= max.value)
    ensures r.Success? ==> r.value == value.value
    ensures value.None? ==> r == Reject(fieldName, " cannot be null")
    ensures value.Some? && min.Some? && value.value < min.value ==>
              r == Reject(fieldName, " must be at least " + IntToString(min.value))
    ensures value.Some? && (min.None? || min.value <= value.value) && max.Some? && value.value > max.value ==>
              r == Reject(fieldName, " must be at most " + IntToString(max.value))
  {
    if value.None? then Reject(fieldName, " cannot be null")
    else if min.Some? && value.value < min.value then
      Reject(fieldName, " must be at least " + IntToString(min.value))
    else if max.Some? && value.value > max.value then
      Reject(fieldName, " must be at most " + IntToString(max.value))
    else Success(value.value)
  }

  /** No unwrapped value is lost by widening an optional `Int` or `Long`. */
  function Widen<N>(o: Option<N>, f: N -> int): (r: Option<int>)
    ensures r.Some? <==> o.Some?
    ensures o.Some? ==> r.value == f(o.value)
  {
    if o.None? then None else Some(f(o.value))
  }

  /** `validateInt`. */
  function ValidateInt(value: Option<Int32>, fieldName: string, min: Option<Int32>, max: Option<Int32>)
    : (r: KResult<Int32>)
    ensures r.Success? <==>
              value.Some? && (min.None? || min.value <= value.value) && (max.None? || value.value <= max.value)
    ensures r.Success? ==> r.value == value.value
    ensures r.Failure? ==>
              r.fault == ValidateRange(Widen(value, x => x as int), fieldName,
                                       Widen(min, x => x as int), Widen(max, x => x as int)).fault
  {
    match ValidateRange(Widen(value, x => x as int), fieldName, Widen(min, x => x as int),
                        Widen(max, x => x as int))
    case Success(_) => Success(value.value)
    case Failure(f) => Failure(f)
  }

  /** `validateLong`. */
  function ValidateLong(value: Option<Int64>, fieldName: string, min: Option<Int64>, max: Option<Int64>)
    : (r: KResult<Int64>)
    ensures r.Success? <==>
              value.Some? && (min.None? || min.value <= value.value) && (max.None? || value.value <= max.value)
    ensures r.Success? ==> r.value == value.value
    ensures r.Failure? ==>
              r.fault == ValidateRange(Widen(value, x => x as int), fieldName,
                                       Widen(min, x => x as int), Widen(max, x => x as int)).fault
  {
    match ValidateRange(Widen(value, x => x as int), fieldName, Widen(min, x => x as int),
                        Widen(max, x => x as int))
    case Success(_) => Success(value.value)
    case Failure(f) => Failure(f)
  }

  /** `validateBoolean`. */
  function ValidateBoolean(value: Option<bool>, fieldName: string): (r: KResult<bool>)
    ensures r.Success? <==> value.Some?
    ensures r.Success? ==> r.value == value.value
    ensures value.None? ==> r == Reject(fieldName, " cannot be null")
  {
    if value.None? then Reject(fieldName, " cannot be null") else Success(value.value)
  }

  /** `validateNotNull`. */
  function ValidateNotNull<T>(value: Option<T>, fieldName: string): (r: KResult<T>)
    ensures r.Success? <==> value.Some?
    ensures r.Success? ==> r.value == value.value
    ensures value.None? ==> r.Failure? && r.fault == IllegalArgument(fieldName + " cannot be null")
  {
    if value.None? then Reject(fieldName, " cannot be null") else Success(value.value)
  }

  /** The size check shared by `validateCollection` ("items") and
      `validateMap` ("entries"): null, empty (unless `allowEmpty`),
      `minSize`, `maxSize`. */
  function ValidateSize(present: bool, size: nat, fieldName: string, allowEmpty: bool,
                        minSize: Option<Int32>, maxSize: Option<Int32>, noun: string)
    : (r: KResult<()>)
    ensures r.Success? <==>
              && present
              && (allowEmpty || size > 0)
              && (minSize.None? || minSize.value <= size)
              && (maxSize.None? || size <= maxSize.value)
    ensures !present ==> r == Reject(fieldName, " cannot be null")
    ensures present && !allowEmpty && size == 0 ==> r == Reject(fieldName, " cannot be empty")
    ensures present && (allowEmpty || size > 0) && minSize.Some? && size < minSize.value ==>
              r == Reject(fieldName, " must have at least " + IntToString(minSize.value) + " " + noun)
    ensures present && (allowEmpty || size > 0) && (minSize.None? || minSize.value <= size) &&
            maxSize.Some? && size > maxSize.value ==>
              r == Reject(fieldName, " must have at most " + IntToString(maxSize.value) + " " + noun)
  {
    if !present then Reject(fieldName, " cannot be null")
    else if !allowEmpty && size == 0 then Reject(fieldName, " cannot be empty")
    else if minSize.Some? && size < minSize.value then
      Reject(fieldName, " must have at least " + IntToString(minSize.value) + " " + noun)
    else if maxSize.Some? && size > maxSize.value then
      Reject(fieldName, " must have at most " + IntToString(maxSize.value) + " " + noun)
    else Success(())
  }

  /** `validateCollection`, a collection being a sequence of its elements. */
  function ValidateCollection<T>(value: Option<seq<T>>, fieldName: string, allowEmpty: bool,
                                 minSize: Option<Int32>, maxSize: Option<Int32>)
    : (r: KResult<seq<T>>)
    ensures r.Success? <==>
              && value.Some?
              && (allowEmpty || |value.value| > 0)
              && (minSize.None? || minSize.value <= |value.value|)
              && (maxSize.None? || |value.value| <= maxSize.value)
    ensures r.Success? ==> r.value == value.value
    ensures r.Failure? ==>
              r.fault == ValidateSize(value.Some?, if value.Some? then |value.value| else 0, fieldName,
                                      allowEmpty, minSize, maxSize, "items").fault
  {
    var size := if value.Some? then |value.value| else 0;
    match ValidateSize(value.Some?, size, fieldName, allowEmpty, minSize, maxSize, "items")
    case Success(_) => Success(value.value)
    case Failure(f) => Failure(f)
  }

  /** `validateMap`. */
  function ValidateMap<K, V>(value: Option<map<K, V>>, fieldName: string, allowEmpty: bool,
                             minSize: Option<Int32>, maxSize: Option<Int32>)
    : (r: KResult<map<K, V>>)
    ensures r.Success? <==>
              && value.Some?
              && (allowEmpty || |value.value| > 0)
              && (minSize.None? || minSize.value <= |value.value|)
              && (maxSize.None? || |value.value| <= maxSize.value)
    ensures r.Success? ==> r.value == value.value
    ensures r.Failure? ==>
              r.fault == ValidateSize(value.Some?, if value.Some? then |value.value| else 0, fieldName,
                                      allowEmpty, minSize, maxSize, "entries").fault
  {
    var size := if value.Some? then |value.value| else 0;
    match ValidateSize(value.Some?, size, fieldName, allowEmpty, minSize, maxSize, "entries")
    case Success(_) => Success(value.value)
    case Failure(f) => Failure(f)
  }

  /** Every validator fails on null with "<field> cannot be null". */
  lemma NullAlwaysRejected<T>(fieldName: string, allowEmpty: bool, bound: Option<Int32>,
                              pattern: Option<Pattern>)
    ensures ValidateString(None, fieldName, allowEmpty, bound, bound, pattern) == Reject(fieldName, " cannot be null")
    ensures ValidateInt(None, fieldName, bound, bound) == Reject(fieldName, " cannot be null")
    ensures ValidateLong(None, fieldName, Widen64(bound), Widen64(bound)) == Reject(fieldName, " cannot be null")
    ensures ValidateBoolean(None, fieldName) == Reject(fieldName, " cannot be null")
    ensures ValidateCollection<T>(None, fieldName, allowEmpty, bound, bound) == Reject(fieldName, " cannot be null")
    ensures ValidateMap<T, T>(None, fieldName, allowEmpty, bound, bound) == Reject(fieldName, " cannot be null")
    ensures ValidateNotNull<T>(None, fieldName) == Reject(fieldName, " cannot be null")
  {
  }

  /** An `Int` bound as a `Long` bound. */
  function Widen64(b: Option<Int32>): (r: Option<Int64>)
    ensures r.Some? <==> b.Some?
    ensures b.Some? ==> r.value == b.value
  {
    if b.None? then None else Some(b.value as int)
  }

  /** The line `validateAll` reports for a failed validation: its name and
      the fault's message, "null" when there is none. */
  function FailureLine(name: string, f: Fault): string {
    name + ": " + (if f.message.None? then "null" else f.message.value)
  }

  /** The failure lines of the failed validations, in argument order. */
  function Failures<T>(validations: seq<(string, KResult<T>)>): (lines: seq<string>)
    ensures |lines| <= |validations|
    decreases |validations|
  {
    if validations == [] then []
    else
      var init, last := validations[..|validations| - 1], validations[|validations| - 1];
      Failures(init) + (if last.1.Failure? then [FailureLine(last.0, last.1.fault)] else [])
  }

  /** Failure lines are reported in argument order: the lines of a
      concatenation are the lines of its parts, concatenated. */
  lemma {:induction false} FailuresAppend<T>(a: seq<(string, KResult<T>)>, b: seq<(string, KResult<T>)>)
    ensures Failures(a + b) == Failures(a) + Failures(b)
    decreases |b|
  {
    if b == [] {
      assert a + b == a;
    } else {
      var b', x := b[..|b| - 1], b[|b| - 1];
      assert (a + b)[..|a + b| - 1] == a + b';
      assert (a + b)[|a + b| - 1] == x;
      FailuresAppend(a, b');
    }
  }

  /** There are no failure lines exactly when every validation succeeded. */
  lemma {:induction false} FailuresEmpty<T>(validations: seq<(string, KResult<T>)>)
    ensures Failures(validations) == [] <==> forall i :: 0 <= i < |validations| ==> validations[i].1.Success?
    decreases |validations|
  {
    if validations != [] {
      var init := validations[..|validations| - 1];
      FailuresEmpty(init);
      assert forall i :: 0 <= i < |init| ==> init[i] == validations[i];
    }
  }

  /** The result `validateAll` returns for a list of failure lines. */
  function Aggregate(failures: seq<string>): (r: KResult<()>)
    ensures r.Success? <==> failures == []
    ensures r.Failure? ==> r.fault == IllegalArgument("Validation failed: " + Join(failures, "; "))
  {
    if failures == [] then Success(())
    else Failure(IllegalArgument("Validation failed: " + Join(failures, "; ")))
  }

  /** `validateAll`: the `forEach` over the validations that collects a
      failure line for each failed one. */
  method ValidateAll<T>(validations: seq<(string, KResult<T>)>) returns (r: KResult<()>)
    ensures r == Aggregate(Failures(validations))
    ensures r.Success? <==> forall i :: 0 <= i < |validations| ==> validations[i].1.Success?
  {
    var failures: seq<string> := [];
    var i := 0;
    while i < |validations|
      invariant 0 <= i <= |validations|
      invariant failures == Failures(validations[..i])
    {
      assert validations[..i + 1][..i] == validations[..i];
      var (name, result) := validations[i];
      if result.Failure? {
        failures := failures + [FailureLine(name, result.fault)];
      }
      i := i + 1;
    }
    assert validations[..i] == validations;
    FailuresEmpty(validations);
    if failures == [] {
      r := Success(());
    } else {
      r := Failure(IllegalArgument("Validation failed: " + Join(failures, "; ")));
    }
  }
}
