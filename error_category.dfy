/** `ErrorCategory`: the nine categories and the classification of a thrown
    fault by an ordered, first-match table of `is` tests. */
module ErrorCategories {
  import opened Text
  import opened Faults

  datatype ErrorCategory =
    | Network
    | IO
    | Security
    | Validation
    | Parsing
    | Database
    | Configuration
    | Runtime
    | Unknown

  /** The categories in declaration order (`ErrorCategory.values()`). */
  const AllCategories: seq<ErrorCategory> :=
    [Network, IO, Security, Validation, Parsing, Database, Configuration, Runtime, Unknown]

  /** The enum constant's `name`. */
  function Name(c: ErrorCategory): string {
    match c
    case Network => "NETWORK"
    case IO => "IO"
    case Security => "SECURITY"
    case Validation => "VALIDATION"
    case Parsing => "PARSING"
    case Database => "DATABASE"
    case Configuration => "CONFIGURATION"
    case Runtime => "RUNTIME"
    case Unknown => "UNKNOWN"
  }

  /** `ErrorCategory.valueOf(name)`, the inverse of `Name`. */
  function FromName(name: string): (r: Option<ErrorCategory>)
    ensures r.Some? ==> Name(r.value) == name
  {
    if name == "NETWORK" then Some(Network)
    else if name == "IO" then Some(IO)
    else if name == "SECURITY" then Some(Security)
    else if name == "VALIDATION" then Some(Validation)
    else if name == "PARSING" then Some(Parsing)
    else if name == "DATABASE" then Some(Database)
    else if name == "CONFIGURATION" then Some(Configuration)
    else if name == "RUNTIME" then Some(Runtime)
    else if name == "UNKNOWN" then Some(Unknown)
    else None
  }

  /** Every category's name reads back as that category, and the names
      of distinct categories differ. */
  lemma NameRoundTrip(c: ErrorCategory)
    ensures FromName(Name(c)) == Some(c)
  {
  }

  /** One of the six `java.net` classes of the NETWORK arm. */
  predicate IsNetworkFault(k: FaultKind) {
    || IsInstance(k, UnknownHostException)
    || IsInstance(k, SocketTimeoutException)
    || IsInstance(k, ConnectException)
    || IsInstance(k, SocketException)
    || IsInstance(k, NoRouteToHostException)
    || IsInstance(k, ProtocolException)
  }

  /** Every `java.net` class of the NETWORK arm extends `IOException`. */
  lemma NetworkFaultsAreIOExceptions(k: FaultKind)
    requires IsNetworkFault(k)
    ensures IsInstance(k, IOException)
  {
  }

  /** `ErrorCategory.fromThrowable` as written: the `when` arms in source
      order, the first one that matches deciding. Because the IO arm comes
      first and every NETWORK class extends `IOException`, NETWORK is never
      produced; because `NumberFormatException` extends
      `IllegalArgumentException`, it lands in VALIDATION. */
  function FromThrowable(f: Fault): ErrorCategory
  {
    var k := f.kind;
    if IsInstance(k, IOException) then IO
    else if IsNetworkFault(k) then Network
    else if IsInstance(k, SecurityException) then Security
    else if IsInstance(k, IllegalArgumentException) || IsInstance(k, IllegalStateException) then Validation
    else if IsInstance(k, JSONException) || IsInstance(k, NumberFormatException) then Parsing
    else Unknown
  }

  /** What the as-written table produces for each category. */
  lemma FromThrowableTable(f: Fault)
    ensures FromThrowable(f) == IO <==> IsInstance(f.kind, IOException)
    ensures FromThrowable(f) != Network
    ensures FromThrowable(f) == Security <==> IsInstance(f.kind, SecurityException)
    ensures FromThrowable(f) == Validation <==>
              IsInstance(f.kind, IllegalArgumentException) || IsInstance(f.kind, IllegalStateException)
    ensures FromThrowable(f) == Parsing <==> f.kind == Listed(JSONException)
    ensures FromThrowable(f) == Unknown <==> f.kind == Unlisted
    ensures FromThrowable(f) != Database && FromThrowable(f) != Configuration && FromThrowable(f) != Runtime
  {
    match f.kind
    case Unlisted =>
    case Listed(c) =>
      match c
      case IOException =>
      case UnknownHostException =>
      case SocketTimeoutException =>
      case ConnectException =>
      case SocketException =>
      case NoRouteToHostException =>
      case ProtocolException =>
      case SecurityException =>
      case IllegalArgumentException =>
      case IllegalStateException =>
      case JSONException =>
      case NumberFormatException =>
  }

  /** A `java.net.UnknownHostException`. */
  const UnknownHost: Fault := Fault(Listed(UnknownHostException), "UnknownHostException", None)

  /** A `NumberFormatException`. */
  const BadNumber: Fault := Fault(Listed(NumberFormatException), "NumberFormatException", None)

  /** As written, an unknown host is classified IO, not NETWORK. */
  lemma UnknownHostIsIO()
    ensures FromThrowable(UnknownHost) == IO
    ensures Classify(UnknownHost) == Network
  {
  }

  /** As written, a number-format fault is classified VALIDATION, not PARSING. */
  lemma NumberFormatIsValidation()
    ensures FromThrowable(BadNumber) == Validation
    ensures Classify(BadNumber) == Parsing
  {
  }

  /** The classification the table evidently intends: the specialised
      `java.net` faults before the generic I/O bucket and number-format
      faults in PARSING before the illegal-argument arm. It is the corrected
      table of the two classification findings; the engine and the test
      wrapper record `FromThrowable`, as the source does. */
  function Classify(f: Fault): ErrorCategory {
    var k := f.kind;
    if IsNetworkFault(k) then Network
    else if IsInstance(k, IOException) then IO
    else if IsInstance(k, SecurityException) then Security
    else if IsInstance(k, JSONException) || IsInstance(k, NumberFormatException) then Parsing
    else if IsInstance(k, IllegalArgumentException) || IsInstance(k, IllegalStateException) then Validation
    else Unknown
  }

  /** What the corrected classifier promises for each category. */
  lemma ClassifyTable(f: Fault)
    ensures Classify(f) == Network <==> IsNetworkFault(f.kind)
    ensures Classify(f) == IO <==> IsInstance(f.kind, IOException) && !IsNetworkFault(f.kind)
    ensures Classify(f) == Security <==>
              IsInstance(f.kind, SecurityException) && !IsInstance(f.kind, IOException)
    ensures Classify(f) == Parsing <==>
              f.kind == Listed(JSONException) || f.kind == Listed(NumberFormatException)
    ensures Classify(f) == Validation <==>
              (IsInstance(f.kind, IllegalArgumentException) || IsInstance(f.kind, IllegalStateException)) &&
              f.kind != Listed(NumberFormatException)
    ensures Classify(f) == Unknown <==> f.kind == Unlisted
    ensures Classify(f) != Database && Classify(f) != Configuration && Classify(f) != Runtime
  {
    match f.kind
    case Unlisted =>
    case Listed(c) =>
      match c
      case IOException =>
      case UnknownHostException =>
      case SocketTimeoutException =>
      case ConnectException =>
      case SocketException =>
      case NoRouteToHostException =>
      case ProtocolException =>
      case SecurityException =>
      case IllegalArgumentException =>
      case IllegalStateException =>
      case JSONException =>
      case NumberFormatException =>
  }

  /** The two classifiers differ on exactly the faults of the two findings. */
  lemma ClassifyAgreesElsewhere(f: Fault)
    ensures Classify(f) != FromThrowable(f) <==>
              IsNetworkFault(f.kind) || f.kind == Listed(NumberFormatException)
  {
    match f.kind
    case Unlisted =>
    case Listed(c) =>
      match c
      case IOException =>
      case UnknownHostException =>
      case SocketTimeoutException =>
      case ConnectException =>
      case SocketException =>
      case NoRouteToHostException =>
      case ProtocolException =>
      case SecurityException =>
      case IllegalArgumentException =>
      case IllegalStateException =>
      case JSONException =>
      case NumberFormatException =>
  }
}
