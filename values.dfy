// The Java-side values the Pulsar aspect handles: references that may be null,
// throwables, the objects a handler returns, and the two result holders.

module Values {

  /** A Java reference that may be null: `None` stands for null. */
  datatype Option<+T> = None | Some(value: T)

  /**
   * A `java.lang.Throwable`. Only two things about it matter to the aspect:
   * whether it is an instance of `java.lang.Exception` (as opposed to an
   * `Error` or another direct subclass of `Throwable`), and its message,
   * which `getMessage()` may return as null.
   */
  datatype Throwable = Throwable(className: string, isException: bool, message: Option<string>)

  /** The message `handlePulse` throws when the handler left no id behind. */
  const MissingIdMessage: string :=
    "you must set deferredResultID use setDeferredResultID() of PulsarDeferredResult"

  /** The `IllegalArgumentException` that rejects a missing or empty id. */
  const MissingIdError: Throwable :=
    Throwable("java.lang.IllegalArgumentException", true, Some(MissingIdMessage))

  /**
   * A Spring `DeferredResult`. Its completion machinery belongs to Spring and
   * is not modelled; what the aspect decides about it is whether a timeout
   * hook and an error hook were attached when it was created.
   */
  class DeferredResult {
    const timeoutHooked: bool
    const errorHooked: bool

    constructor (timeoutHooked: bool, errorHooked: bool)
      ensures this.timeoutHooked == timeoutHooked && this.errorHooked == errorHooked
    {
      this.timeoutHooked := timeoutHooked;
      this.errorHooked := errorHooked;
    }
  }

  /**
   * The `PulsarDeferredResult` holder handed to a handler method, on which the
   * handler sets the id its result will later be taken by.
   */
  class PulsarDeferredResult {
    var deferredResultID: Option<string>

    constructor ()
      ensures deferredResultID == None
    {
      deferredResultID := None;
    }
  }

  /** A Java object as far as the aspect can tell them apart. */
  datatype Obj =
    | Null
    | Opaque(tag: nat)                               // anything a handler or callback returns
    | ResponseEntity(status: int, body: Option<string>)
    | WebAsyncTask(timeoutHooked: bool)             // a task wrapping the handler call
    | Deferred(result: DeferredResult)

  /** How a Java call ended: it returned a value or threw. */
  datatype Completion = Returned(value: Obj) | Thrown(thrown: Throwable)

  /** One argument of an intercepted handler call. */
  datatype Arg = Plain(obj: Obj) | Holder(holder: PulsarDeferredResult)

  /**
   * What the intercepted handler method did when it was run in DeferredResult
   * mode: it returned, leaving `deferredResultID` (possibly null or empty) on
   * the holder it was given, or it threw.
   */
  datatype UserRun = Completes(deferredResultID: Option<string>) | Raises(thrown: Throwable)
}
