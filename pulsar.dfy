// The Pulsar aspect: a registry of pending DeferredResults keyed by the id the
// handler chooses, the injection of the id holder into the handler's
// arguments, and the fault handling of the WebAsyncTask mode.

module Pulsar {
  import opened Values
  import opened Registry

  /** The index of the first `PulsarDeferredResult` argument, or None when there is none. */
  function FirstHolder(s: seq<Arg>): (r: Option<nat>)
    ensures r.Some? ==> r.value < |s| && s[r.value].Holder?
    ensures r.Some? ==> forall j :: 0 <= j < r.value ==> !s[j].Holder?
    ensures r.None? ==> forall j :: 0 <= j < |s| ==> !s[j].Holder?
  {
    if s == [] then None
    else if s[0].Holder? then Some(0)
    else match FirstHolder(s[1..])
      case None => None
      case Some(i) => Some(i + 1)
  }

  /**
   * The arguments after injection: the first `PulsarDeferredResult` argument,
   * if there is one, is replaced by `h`; the length and every other position
   * stay as they were.
   */
  function Injected(s: seq<Arg>, h: PulsarDeferredResult): (r: seq<Arg>)
    ensures |r| == |s|
    ensures FirstHolder(s).None? ==> r == s
    ensures FirstHolder(s).Some? ==> r[FirstHolder(s).value] == Holder(h)
    ensures forall i :: 0 <= i < |s| && FirstHolder(s) != Some(i) ==> r[i] == s[i]
  {
    match FirstHolder(s)
    case None => s
    case Some(i) => s[i := Holder(h)]
  }

  /** Injection leaves the first holder position where it was. */
  lemma InjectedKeepsFirstHolder(s: seq<Arg>, h: PulsarDeferredResult)
    ensures FirstHolder(Injected(s, h)) == FirstHolder(s)
  {
  }

  /**
   * The id a `DeferredResult`-mode handler call is expected to leave on the
   * injected holder: the one it set, when it returned and had a
   * `PulsarDeferredResult` parameter to set it on, and null otherwise.
   */
  function LeftId(args: seq<Arg>, run: UserRun): Option<string>
  {
    if run.Completes? && FirstHolder(args).Some? then run.deferredResultID else None
  }

  /** `handlePulse` rejects an id that is null or equal to "". */
  predicate ValidId(id: Option<string>): (valid: bool)
    ensures valid <==> id.Some? && |id.value| > 0
  {
    !(id == None || id == Some(""))
  }

  class Pulsar {
    /** The pending results, by the id their handler chose. */
    var deferredResultMap: map<string, DeferredResult>
    /**
     * Turns an `Error` into a response; unset is null. Applying it may itself
     * throw, so it yields a `Completion`.
     */
    var errorCallback: Option<Throwable -> Completion>
    /** Produces the response of a timed-out request; unset is null. */
    var timeoutCallback: Option<() -> Obj>

    constructor ()
      ensures deferredResultMap == map[]
      ensures errorCallback.None? && timeoutCallback.None?
    {
      deferredResultMap := map[];
      errorCallback := None;
      timeoutCallback := None;
    }

    method SetErrorCallback(callback: Option<Throwable -> Completion>)
      modifies this`errorCallback
      ensures errorCallback == callback
    {
      errorCallback := callback;
    }

    method SetTimeoutCallback(callback: Option<() -> Obj>)
      modifies this`timeoutCallback
      ensures timeoutCallback == callback
    {
      timeoutCallback := callback;
    }

    /**
     * Hands back the pending result registered under `id` (None when there is
     * none) and removes it, so that each registration is taken at most once.
     */
    method TakeDeferredResult(id: string) returns (r: Option<DeferredResult>)
      modifies this`deferredResultMap
      ensures (r, deferredResultMap) == Take(old(deferredResultMap), id)
    {
      var taken := Take(deferredResultMap, id);
      r := taken.0;
      deferredResultMap := taken.1;
    }

    /**
     * Replaces the first `PulsarDeferredResult` argument, if any, by `holder`,
     * in place; the array itself is what the Java method returns.
     */
    method InjectDeferredResult(args: array<Arg>, holder: PulsarDeferredResult)
      modifies args
      ensures args[..] == Injected(old(args[..]), holder)
    {
      var len := args.Length;
      for i := 0 to len
        invariant forall j :: 0 <= j < i ==> !args[j].Holder?
        invariant args[..] == old(args[..])
      {
        if args[i].Holder? {
          args[i] := Holder(holder);
          return;
        }
      }
    }

    /**
     * The around advice of an `@PulsarAsync` handler. `useDeferredResult` is
     * the annotation's mode and `run` what the handler did when invoked.
     * In WebAsyncTask mode the handler is not run here and nothing changes.
     * In DeferredResult mode a fresh result (with a timeout and an error hook
     * exactly when the corresponding callback is set) is registered under
     * the id the handler left, which must be neither null nor "".
     */
    method HandlePulse(useDeferredResult: bool, args: array<Arg>, run: UserRun) returns (r: Completion)
      modifies this`deferredResultMap, args
      ensures !useDeferredResult ==>
        && r == Returned(WebAsyncTask(timeoutCallback.Some?))
        && deferredResultMap == old(deferredResultMap)
        && args[..] == old(args[..])
      ensures useDeferredResult ==>
        exists h: PulsarDeferredResult :: fresh(h) && args[..] == Injected(old(args[..]), h)
      ensures useDeferredResult && run.Raises? ==>
        r == Thrown(run.thrown) && deferredResultMap == old(deferredResultMap)
      ensures useDeferredResult && run.Completes? && !ValidId(LeftId(old(args[..]), run)) ==>
        r == Thrown(MissingIdError) && deferredResultMap == old(deferredResultMap)
      ensures useDeferredResult && ValidId(LeftId(old(args[..]), run)) ==>
        && r.Returned? && r.value.Deferred? && fresh(r.value.result)
        && r.value.result.timeoutHooked == timeoutCallback.Some?
        && r.value.result.errorHooked == errorCallback.Some?
        && deferredResultMap == Register(old(deferredResultMap), LeftId(old(args[..]), run).value, r.value.result)
    {
      if !useDeferredResult {
        r := Returned(WebAsyncTask(timeoutCallback.Some?));
        return;
      }
      var deferredResult := new DeferredResult(timeoutCallback.Some?, errorCallback.Some?);
      var holder := new PulsarDeferredResult();
      ghost var before := args[..];
      InjectDeferredResult(args, holder);
      InjectedKeepsFirstHolder(before, holder);
      // The handler runs with the injected arguments and sets its id on the
      // `PulsarDeferredResult` argument it was handed, if it has one.
      if run.Raises? {
        r := Thrown(run.thrown);
        return;
      }
      var k := FirstHolder(args[..]);
      if k.Some? {
        args[k.value].holder.deferredResultID := run.deferredResultID;
      }
      var id := holder.deferredResultID;
      if id.None? || id.value == "" {
        r := Thrown(MissingIdError);
        return;
      }
      deferredResultMap := Register(deferredResultMap, id.value, deferredResult);
      r := Returned(Deferred(deferredResult));
    }

    /**
     * `WebAsyncTaskCallable.call`: the outcome of the task given how the
     * handler call `invoked` ended. Values pass through, an `Exception`
     * escapes unchanged, and any other throwable is handed to the error
     * callback, when one is set at the time of the call, whose completion
     * (a response, or whatever it throws) is the task's; otherwise it becomes
     * a status-500 response carrying the throwable's message.
     */
    function Call(invoked: Completion): (r: Completion)
      reads this
      ensures invoked.Returned? ==> r == invoked
      ensures invoked.Thrown? && invoked.thrown.isException ==> r == invoked
      ensures invoked.Thrown? && !invoked.thrown.isException && errorCallback.Some? ==>
        r == errorCallback.value(invoked.thrown)
      ensures invoked.Thrown? && !invoked.thrown.isException && errorCallback.None? ==>
        r == Returned(ResponseEntity(500, invoked.thrown.message))
      ensures r.Thrown? && !r.thrown.isException ==>
        invoked.Thrown? && errorCallback.Some? && r == errorCallback.value(invoked.thrown)
    {
      match invoked
      case Returned(_) => invoked
      case Thrown(t) =>
        if t.isException then invoked
        else if errorCallback.Some? then errorCallback.value(t)
        else Returned(ResponseEntity(500, t.message))
    }
  }

  /** The error callback is consulted only for throwables that are not Exceptions. */
  lemma CallConsultsCallbackOnlyForErrors(p: Pulsar, q: Pulsar, invoked: Completion)
    requires invoked.Returned? || invoked.thrown.isException
    ensures p.Call(invoked) == q.Call(invoked)
  {
  }

  /**
   * A client of the registry: a handler that registers under `id` has its
   * result taken exactly once, and the takes leave the other ids as they
   * were before the call.
   */
  method RegisterThenTakeTwice(p: Pulsar, args: array<Arg>, id: string)
    returns (registered: Completion, first: Option<DeferredResult>, second: Option<DeferredResult>)
    requires id != ""
    requires FirstHolder(args[..]).Some?
    modifies p, args
    ensures registered.Returned? && registered.value.Deferred?
    ensures first == Some(registered.value.result) && second == None
    ensures p.deferredResultMap == old(p.deferredResultMap) - {id}
  {
    registered := p.HandlePulse(true, args, Completes(Some(id)));
    first := p.TakeDeferredResult(id);
    second := p.TakeDeferredResult(id);
  }

  /**
   * A handler without a `PulsarDeferredResult` parameter never receives the
   * holder, so in DeferredResult mode every call that returns is rejected
   * with the `IllegalArgumentException`, and neither the registry nor the
   * arguments change.
   */
  method NoHolderNoRegistration(p: Pulsar, args: array<Arg>, run: UserRun) returns (r: Completion)
    requires FirstHolder(args[..]).None? && run.Completes?
    modifies p, args
    ensures r == Thrown(MissingIdError)
    ensures p.deferredResultMap == old(p.deferredResultMap)
    ensures args[..] == old(args[..])
  {
    r := p.HandlePulse(true, args, run);
  }
}
