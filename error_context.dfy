/** `ErrorContext` (an immutable record of one error occurrence), its flat
    `toMap` serialisation, and the `ErrorSeverity` enum. */
module ErrorContexts {
  import opened Text
  import opened Faults
  import opened ErrorCategories

  datatype ErrorSeverity = Low | Medium | High | Critical

  /** The severities in declaration order (`ErrorSeverity.values()`). */
  const AllSeverities: seq<ErrorSeverity> := [Low, Medium, High, Critical]

  /** The enum constant's `name`. */
  function SeverityName(s: ErrorSeverity): string {
    match s
    case Low => "LOW"
    case Medium => "MEDIUM"
    case High => "HIGH"
    case Critical => "CRITICAL"
  }

  /** The enum constant's `ordinal`: its position in declaration order. */
  function Ordinal(s: ErrorSeverity): (r: nat)
    ensures r < |AllSeverities| && AllSeverities[r] == s
  {
    match s
    case Low => 0
    case Medium => 1
    case High => 2
    case Critical => 3
  }

  /** `a < b` by Kotlin's enum `compareTo`, which compares ordinals. */
  predicate SeverityBelow(a: ErrorSeverity, b: ErrorSeverity) {
    Ordinal(a) < Ordinal(b)
  }

  /** `SeverityBelow` orders LOW < MEDIUM < HIGH < CRITICAL and nothing else. */
  lemma SeverityOrder(a: ErrorSeverity, b: ErrorSeverity)
    ensures SeverityBelow(a, b) <==>
              exists i, j :: 0 <= i < j < |AllSeverities| && AllSeverities[i] == a && AllSeverities[j] == b
  {
    if SeverityBelow(a, b) {
      assert AllSeverities[Ordinal(a)] == a && AllSeverities[Ordinal(b)] == b;
    }
  }

  /** The values a `Map<String, Any?>` holds here. Maps are association
      lists in insertion order, as Kotlin's `mapOf` keeps them. */
  datatype Value =
    | VNull
    | VString(s: string)
    | VBool(b: bool)
    | VInt(i: int)
    | VMap(entries: seq<(string, Value)>)

  /** `java.time.Instant`, kept as its ISO-8601 `toString()` text. */
  datatype Instant = Instant(iso8601: string)

  datatype ErrorContext = ErrorContext(
    timestamp: Instant,
    category: ErrorCategory,
    throwable: Fault,
    component: string,
    operation: string,
    metadata: seq<(string, Value)>,
    severity: ErrorSeverity,
    recoverable: bool,
    userMessage: Option<string>)

  /** An `onError` hook: `Some(f)` when invoking it throws `f`. */
  type Hook = ErrorContext -> Option<Fault>

  /** Invoking an optional hook (`onError?.invoke(context)`): the fault it
      throws, if any. */
  function HookFault(onError: Option<Hook>, context: ErrorContext): Option<Fault> {
    if onError.None? then None else onError.value(context)
  }

  /** The constructor call with only the required arguments: every other
      field takes its declared default. */
  function NewContext(timestamp: Instant, category: ErrorCategory, throwable: Fault,
                      component: string, operation: string): (c: ErrorContext)
    ensures c.timestamp == timestamp && c.category == category && c.throwable == throwable
    ensures c.component == component && c.operation == operation
    ensures c.metadata == [] && c.severity == Medium && c.recoverable && c.userMessage == None
  {
    ErrorContext(timestamp, category, throwable, component, operation, [], Medium, true, None)
  }

  /** The keys of an association list, in order. */
  function Keys(m: seq<(string, Value)>): (ks: seq<string>)
    ensures |ks| == |m| && forall i :: 0 <= i < |m| ==> ks[i] == m[i].0
  {
    if m == [] then [] else [m[0].0] + Keys(m[1..])
  }

  /** `m[key]`: the value of the first entry with that key. */
  function Lookup(m: seq<(string, Value)>, key: string): Option<Value> {
    if m == [] then None else if m[0].0 == key then Some(m[0].1) else Lookup(m[1..], key)
  }

  /** A key is found exactly when it is one of the keys. */
  lemma {:induction false} LookupFound(m: seq<(string, Value)>, key: string)
    ensures Lookup(m, key).Some? <==> key in Keys(m)
  {
    if m != [] {
      LookupFound(m[1..], key);
      assert Keys(m) == [m[0].0] + Keys(m[1..]);
    }
  }

  /** No key occurs twice. */
  predicate DistinctKeys(m: seq<(string, Value)>) {
    forall i, j :: 0 <= i < j < |m| ==> m[i].0 != m[j].0
  }

  /** In a list without repeated keys, an entry is what its key looks up. */
  lemma {:induction false} LookupDistinct(m: seq<(string, Value)>, i: nat)
    requires DistinctKeys(m) && i < |m|
    ensures Lookup(m, m[i].0) == Some(m[i].1)
  {
    if i > 0 {
      assert m[1..][i - 1] == m[i];
      LookupDistinct(m[1..], i - 1);
    }
  }

  /** A nullable string as a map value. */
  function NullableString(s: Option<string>): Value {
    if s.None? then VNull else VString(s.value)
  }

  /** The ten keys of `toMap`, in order. */
  const ContextKeys: seq<string> :=
    ["timestamp", "category", "errorType", "errorMessage", "component",
     "operation", "severity", "recoverable", "userMessage", "metadata"]

  /** The ten keys are pairwise different. */
  lemma ContextKeysDistinct()
    ensures forall i, j :: 0 <= i < j < |ContextKeys| ==> ContextKeys[i] != ContextKeys[j]
  {
    forall i, j | 0 <= i < j < |ContextKeys| ensures ContextKeys[i] != ContextKeys[j] {
      var a, b := ContextKeys[i], ContextKeys[j];
      assert (a[0], a[1], a[5]) != (b[0], b[1], b[5]);
    }
  }

  /** `ErrorContext.toMap()`. */
  function ToMap(c: ErrorContext): seq<(string, Value)> {
    [("timestamp", VString(c.timestamp.iso8601)),
     ("category", VString(Name(c.category))),
     ("errorType", VString(c.throwable.typeName)),
     ("errorMessage", NullableString(c.throwable.message)),
     ("component", VString(c.component)),
     ("operation", VString(c.operation)),
     ("severity", VString(SeverityName(c.severity))),
     ("recoverable", VBool(c.recoverable)),
     ("userMessage", NullableString(c.userMessage)),
     ("metadata", VMap(c.metadata))]
  }

  /** `toMap` has exactly the ten keys, each once, each holding its field. */
  lemma ToMapFields(c: ErrorContext)
    ensures Keys(ToMap(c)) == ContextKeys && DistinctKeys(ToMap(c))
    ensures Lookup(ToMap(c), "timestamp") == Some(VString(c.timestamp.iso8601))
    ensures Lookup(ToMap(c), "category") == Some(VString(Name(c.category)))
    ensures Lookup(ToMap(c), "errorType") == Some(VString(c.throwable.typeName))
    ensures Lookup(ToMap(c), "errorMessage") == Some(NullableString(c.throwable.message))
    ensures Lookup(ToMap(c), "component") == Some(VString(c.component))
    ensures Lookup(ToMap(c), "operation") == Some(VString(c.operation))
    ensures Lookup(ToMap(c), "severity") == Some(VString(SeverityName(c.severity)))
    ensures Lookup(ToMap(c), "recoverable") == Some(VBool(c.recoverable))
    ensures Lookup(ToMap(c), "userMessage") == Some(NullableString(c.userMessage))
    ensures Lookup(ToMap(c), "metadata") == Some(VMap(c.metadata))
  {
    var m := ToMap(c);
    assert Keys(m) == ContextKeys;
    ContextKeysDistinct();
    assert DistinctKeys(m);
    LookupDistinct(m, 0); LookupDistinct(m, 1); LookupDistinct(m, 2); LookupDistinct(m, 3);
    LookupDistinct(m, 4); LookupDistinct(m, 5); LookupDistinct(m, 6); LookupDistinct(m, 7);
    LookupDistinct(m, 8); LookupDistinct(m, 9);
  }

  /** `ErrorSeverity.valueOf(name)`. */
  function SeverityFromName(name: string): Option<ErrorSeverity> {
    if name == "LOW" then Some(Low)
    else if name == "MEDIUM" then Some(Medium)
    else if name == "HIGH" then Some(High)
    else if name == "CRITICAL" then Some(Critical)
    else None
  }

  /** What a consumer of the serialised map reads back from it. */
  datatype Summary = Summary(component: string, operation: string, category: ErrorCategory,
                             severity: ErrorSeverity, recoverable: bool, userMessage: Option<string>)

  /** The string stored under `key`, if it is one. */
  function ReadString(m: seq<(string, Value)>, key: string): Option<string> {
    var v := Lookup(m, key);
    if v.Some? && v.value.VString? then Some(v.value.s) else None
  }

  /** The category named under "category", if it names one. */
  function ReadCategory(m: seq<(string, Value)>): Option<ErrorCategory> {
    var s := ReadString(m, "category");
    if s.Some? then FromName(s.value) else None
  }

  /** The severity named under "severity", if it names one. */
  function ReadSeverity(m: seq<(string, Value)>): Option<ErrorSeverity> {
    var s := ReadString(m, "severity");
    if s.Some? then SeverityFromName(s.value) else None
  }

  /** The flag stored under "recoverable", if it is one. */
  function ReadRecoverable(m: seq<(string, Value)>): Option<bool> {
    var v := Lookup(m, "recoverable");
    if v.Some? && v.value.VBool? then Some(v.value.b) else None
  }

  /** The nullable string stored under "userMessage", if present. */
  function ReadUserMessage(m: seq<(string, Value)>): Option<Option<string>> {
    var v := Lookup(m, "userMessage");
    if v.Some? && v.value.VNull? then Some(None)
    else if v.Some? && v.value.VString? then Some(Some(v.value.s))
    else None
  }

  /** Reading a serialised context back: the string fields as they are,
      the enum fields through their names. */
  function ReadBack(m: seq<(string, Value)>): Option<Summary> {
    var comp, op := ReadString(m, "component"), ReadString(m, "operation");
    var cat, sev := ReadCategory(m), ReadSeverity(m);
    var rec, um := ReadRecoverable(m), ReadUserMessage(m);
    if comp.Some? && op.Some? && cat.Some? && sev.Some? && rec.Some? && um.Some? then
      Some(Summary(comp.value, op.value, cat.value, sev.value, rec.value, um.value))
    else None
  }

  /** Serialising a context and reading it back gives its component,
      operation, category, severity, recoverability and user message. */
  lemma ToMapRoundTrip(c: ErrorContext)
    ensures ReadBack(ToMap(c)) ==
              Some(Summary(c.component, c.operation, c.category, c.severity, c.recoverable, c.userMessage))
  {
    ToMapFields(c);
    ReadBackOf(ToMap(c), c);
  }

  /** Any map holding a context's fields under `toMap`'s keys reads back
      as that context. */
  lemma ReadBackOf(m: seq<(string, Value)>, c: ErrorContext)
    requires Lookup(m, "category") == Some(VString(Name(c.category)))
    requires Lookup(m, "component") == Some(VString(c.component))
    requires Lookup(m, "operation") == Some(VString(c.operation))
    requires Lookup(m, "severity") == Some(VString(SeverityName(c.severity)))
    requires Lookup(m, "recoverable") == Some(VBool(c.recoverable))
    requires Lookup(m, "userMessage") == Some(NullableString(c.userMessage))
    ensures ReadBack(m) ==
              Some(Summary(c.component, c.operation, c.category, c.severity, c.recoverable, c.userMessage))
  {
    assert ReadString(m, "component") == Some(c.component);
    assert ReadString(m, "operation") == Some(c.operation);
    NameRoundTrip(c.category);
    assert ReadCategory(m) == Some(c.category);
    SeverityNameRoundTrip(c.severity);
    assert ReadSeverity(m) == Some(c.severity);
    assert ReadRecoverable(m) == Some(c.recoverable);
    match c.userMessage
    case None =>
      assert Lookup(m, "userMessage") == Some(VNull);
    case Some(u) =>
      assert Lookup(m, "userMessage") == Some(VString(u));
      assert ReadUserMessage(m) == Some(Some(u));
  }

  /** Every severity's name reads back as that severity. */
  lemma SeverityNameRoundTrip(s: ErrorSeverity)
    ensures SeverityFromName(SeverityName(s)) == Some(s)
  {
  }
}
