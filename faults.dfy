/** The part of the JVM's throwable hierarchy that the error-handling
    framework looks at, with the subclass relation written out, and the
    Kotlin `Result` and call outcomes built on it. */
module Faults {
  import opened Text

  /** The throwable classes that `ErrorCategory.fromThrowable` tests for. */
  datatype JavaClass =
    | IOException
    | UnknownHostException
    | SocketTimeoutException
    | ConnectException
    | SocketException
    | NoRouteToHostException
    | ProtocolException
    | SecurityException
    | IllegalArgumentException
    | IllegalStateException
    | JSONException
    | NumberFormatException

  /** The nearest superclass of `c` that is itself one of the classes above.
      `SocketTimeoutException` reaches `IOException` through
      `InterruptedIOException`; `SecurityException`, the two
      `Illegal...Exception`s and Android's `org.json.JSONException` extend
      `RuntimeException` or `Exception`, which are not listed. */
  function ListedSuperclass(c: JavaClass): Option<JavaClass> {
    match c
    case UnknownHostException => Some(IOException)
    case SocketTimeoutException => Some(IOException)
    case SocketException => Some(IOException)
    case ConnectException => Some(SocketException)
    case NoRouteToHostException => Some(SocketException)
    case ProtocolException => Some(IOException)
    case NumberFormatException => Some(IllegalArgumentException)
    case _ => None
  }

  /** Length of the chain of listed superclasses above `c`. */
  function Depth(c: JavaClass): nat {
    match c
    case ConnectException => 2
    case NoRouteToHostException => 2
    case _ => if ListedSuperclass(c).Some? then 1 else 0
  }

  /** `a` is `b` or a subclass of `b`. */
  predicate SubclassOf(a: JavaClass, b: JavaClass)
    decreases Depth(a)
  {
    a == b || (ListedSuperclass(a).Some? && SubclassOf(ListedSuperclass(a).value, b))
  }

  /** What a thrown fault is, as far as the listed classes go: `Listed(c)`
      when `c` is the most specific listed class the fault's class is or
      extends, `Unlisted` when it extends none of them. */
  datatype FaultKind = Listed(cls: JavaClass) | Unlisted

  /** Kotlin's `is C` test on a fault of the given kind. */
  predicate IsInstance(k: FaultKind, c: JavaClass) {
    k.Listed? && SubclassOf(k.cls, c)
  }

  /** A thrown fault: its kind, `javaClass.simpleName` and `message`. */
  datatype Fault = Fault(kind: FaultKind, typeName: string, message: Option<string>)

  /** `IllegalArgumentException(msg)`. */
  function IllegalArgument(msg: string): (f: Fault)
    ensures IsInstance(f.kind, IllegalArgumentException) && f.message == Some(msg)
  {
    Fault(Listed(IllegalArgumentException), "IllegalArgumentException", Some(msg))
  }

  /** Kotlin's `Result<T>`. */
  datatype KResult<+T> = Success(value: T) | Failure(fault: Fault)

  /** What one call of a caller-supplied action does: return a value or throw. */
  datatype Outcome<+T> = Returns(value: T) | Throws(fault: Fault)

  /** How a call of the framework ends: normally with a value, or by a
      fault escaping it (thrown by an `onError` hook, outside any `try`). */
  datatype Completion<+T> = Completed(result: T) | Escaped(fault: Fault)
}
