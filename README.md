# Pulsar: a Dafny model of Milkomeda's asynchronous request aspect

Milkomeda's `Pulsar` is an AspectJ around advice for Spring MVC handler methods
annotated `@PulsarAsync`. It has two modes.

- **WebAsyncTask mode.** The handler call is wrapped in a `WebAsyncTask`. A timeout
  hook is attached when a timeout callback is configured. When the task later
  runs, a value the handler returns passes through and an `Exception` escapes
  unchanged. Any other throwable (an `Error`) goes to the error callback when one
  is set, and the task ends as the callback does. Otherwise it becomes a
  status-500 response carrying the throwable's message.
- **DeferredResult mode.** A fresh `DeferredResult` is created. A fresh
  `PulsarDeferredResult` holder replaces the handler's first argument of that
  type, and the handler runs. The handler must leave an id on the holder that is
  neither null nor `""`, otherwise an `IllegalArgumentException` is thrown. The
  result is then registered under that id. Some other code path later takes the
  result back with `takeDeferredResult(id)`, which removes it, so each
  registration is taken at most once.

The model has three modules:

- `Values` (values.dfy): the Java-side values. It has null as `Option`, throwables
  (whether they are an `Exception`, and their message), the objects a handler
  returns, how a call ended (`Completion`), handler arguments, and what the
  handler did when run (`UserRun`). `DeferredResult` and `PulsarDeferredResult`
  are classes because they are objects with identity.
- `Registry` (registry.dfy): the two map operations the aspect uses, remove and
  put, as functions on `map<string, V>`. It also proves the lemmas that give
  take-once behaviour and the frame.
- `Pulsar` (pulsar.dfy): the `Pulsar` class. It holds the registry as a
  `map<string, DeferredResult>` field and the two callbacks as optional function
  fields. Its methods are the constructor, the setters, `TakeDeferredResult`,
  `InjectDeferredResult` (an in-place loop over an `array<Arg>`) and
  `HandlePulse`. `Call` models `WebAsyncTaskCallable.call` as a function that
  reads the error callback when it is evaluated, as the inner class does.

The handler's own execution (`joinPoint.proceed`) is a parameter. In
DeferredResult mode it is a `UserRun`: the id the handler left on the holder it
received, or the throwable it threw. In WebAsyncTask mode it is the `Completion`
passed to `Call`. The annotation's mode (`useDeferredResult`) is a parameter too.
`LeftId` is the model's assumption about the handler: when it returns and has a
`PulsarDeferredResult` parameter, it sets its id on that parameter; otherwise no id
is set and the holder's id stays null.

`put` silently overwrites a pending entry under the same id
(`Registry.RegisterOverwrites`). There is no duplicate-id rejection, and a take of
an absent id returns null.

## Model

| member | source | states |
|---|---|---|
| `Pulsar.Pulsar.constructor` | Milkomeda/src/main/java/com/github/yizzuide/milkomeda/pulsar/Pulsar.java:46-48 | A new aspect has an empty registry and no error or timeout callback. |
| `Pulsar.Pulsar.SetErrorCallback` | Milkomeda/src/main/java/com/github/yizzuide/milkomeda/pulsar/Pulsar.java:170-172 | Sets the error callback and changes nothing else. |
| `Pulsar.Pulsar.SetTimeoutCallback` | Milkomeda/src/main/java/com/github/yizzuide/milkomeda/pulsar/Pulsar.java:178-180 | Sets the timeout callback and changes nothing else. |
| `Registry.Take` | Milkomeda/src/main/java/com/github/yizzuide/milkomeda/pulsar/Pulsar.java:55-57 | The entry under `id` is returned exactly when `id` is registered. The map loses `id` and keeps every other entry unchanged. |
| `Pulsar.Pulsar.TakeDeferredResult` | Milkomeda/src/main/java/com/github/yizzuide/milkomeda/pulsar/Pulsar.java:55-57 | The returned entry and the new registry are those of `Take` on the old registry. Nothing else changes. |
| `Registry.TakeOnce` | Milkomeda/src/main/java/com/github/yizzuide/milkomeda/pulsar/Pulsar.java:55-57 | A second take of the same id returns null and leaves the registry unchanged. |
| `Registry.TakesCommute` | Milkomeda/src/main/java/com/github/yizzuide/milkomeda/pulsar/Pulsar.java:55-57 | Takes of two different ids return the same entries and leave the same map in either order. |
| `Registry.Register` | Milkomeda/src/main/java/com/github/yizzuide/milkomeda/pulsar/Pulsar.java:104 | After `put`, the id maps to the new result whatever was there before. Every other id is untouched. |
| `Registry.RegisterOverwrites` | Milkomeda/src/main/java/com/github/yizzuide/milkomeda/pulsar/Pulsar.java:104 | A second registration under one id replaces the first; it is not rejected. |
| `Registry.RegisterThenTake` | Milkomeda/src/main/java/com/github/yizzuide/milkomeda/pulsar/Pulsar.java:104 | Taking a just-registered id returns exactly that result and leaves the map as before, without the id. |
| `Registry.RegisterThenTakeOther` | Milkomeda/src/main/java/com/github/yizzuide/milkomeda/pulsar/Pulsar.java:104 | A registration does not change what a take of another id returns. It commutes with that take. |
| `Pulsar.FirstHolder` | Milkomeda/src/main/java/com/github/yizzuide/milkomeda/pulsar/Pulsar.java:191-192 | Returns the index of a `PulsarDeferredResult` argument with none before it, or none when no argument is one. |
| `Pulsar.Injected` | Milkomeda/src/main/java/com/github/yizzuide/milkomeda/pulsar/Pulsar.java:188-198 | Injection keeps the length. It sets only the first `PulsarDeferredResult` position, to the holder. With no such argument the arguments are unchanged. |
| `Pulsar.InjectedKeepsFirstHolder` | Milkomeda/src/main/java/com/github/yizzuide/milkomeda/pulsar/Pulsar.java:191-194 | After injection the first holder argument is at the same index as before. |
| `Pulsar.Pulsar.InjectDeferredResult` | Milkomeda/src/main/java/com/github/yizzuide/milkomeda/pulsar/Pulsar.java:188-198 | The in-place loop leaves the array equal to `Injected` of its old contents. |
| `Pulsar.ValidId` | Milkomeda/src/main/java/com/github/yizzuide/milkomeda/pulsar/Pulsar.java:99-100 | An id passes the check exactly when it is non-null and non-empty. |
| `Pulsar.NoHolderNoRegistration` | Milkomeda/src/main/java/com/github/yizzuide/milkomeda/pulsar/Pulsar.java:95-102 | In DeferredResult mode, a handler with no `PulsarDeferredResult` parameter that returns always gets the `IllegalArgumentException`; the registry and the arguments are unchanged. |
| `Pulsar.Pulsar.HandlePulse` | Milkomeda/src/main/java/com/github/yizzuide/milkomeda/pulsar/Pulsar.java:66-106 | See "HandlePulse in detail" below this table. |
| `Pulsar.Pulsar.Call` | Milkomeda/src/main/java/com/github/yizzuide/milkomeda/pulsar/Pulsar.java:122-138 | See "Call in detail" below this table. |
| `Pulsar.CallConsultsCallbackOnlyForErrors` | Milkomeda/src/main/java/com/github/yizzuide/milkomeda/pulsar/Pulsar.java:129-134 | For a value or an `Exception`, the outcome does not depend on which error callback is set. |
| `Pulsar.RegisterThenTakeTwice` | Milkomeda/src/main/java/com/github/yizzuide/milkomeda/pulsar/Pulsar.java:55-57 | A handler registers under `id`. The first take returns its result and the second returns null. The registry ends as before without `id`. |

**HandlePulse in detail.**

- In WebAsyncTask mode it returns a task whose timeout hook is attached exactly
  when a timeout callback is set. The registry and the arguments are unchanged.
- In DeferredResult mode the arguments become `Injected` with a fresh holder.
  The handler writes its id on the argument it was handed. The id checked and
  registered is the one on the aspect's own fresh holder. It is `LeftId`, which
  holds because injection put that same holder into the arguments.
- If the handler throws, the throwable propagates and the registry is unchanged.
- If the handler left a null or `""` id, it throws the `IllegalArgumentException`
  and the registry is unchanged.
- Otherwise it returns a fresh `DeferredResult`, registered with `Register` under
  that id. The result has a timeout hook and an error hook exactly when the
  corresponding callback is set.

**Call in detail.**

- A returned value passes through unchanged.
- An `Exception` is rethrown unchanged.
- Any other throwable is passed to the error callback when one is set, and the
  callback's completion is the task's: the response it returns, or whatever it
  throws. With no callback set, the outcome is a status-500 response whose body is
  the throwable's message.
- A throwable that is not an `Exception` escapes only when the error callback threw it.

## Left out

- The Spring and AspectJ machinery is not modelled: `DeferredResult`'s completion,
  `WebAsyncTask`'s execution on a pool thread, and the firing of the `onTimeout` and
  `onError` hooks. A `DeferredResult` is an object that records only which hooks
  were attached. `ResponseEntity` is a value with a status and a body.
- `ConcurrentHashMap`'s thread safety is not modelled; the registry is a sequential map.
- `takeDeferredResult(null)` is not modelled: the id is a `string`.
  `ConcurrentHashMap` would throw `NullPointerException`.
- `resolveAnnotation` (reflection through `Class.forName` and `getDeclaredMethod`)
  is not modelled. Its result, the annotation's `useDeferredResult`, is a parameter
  of `HandlePulse`. The exceptions the reflection may throw are not modelled.
- `joinPoint.proceed` and `joinPoint.getArgs` are not modelled. What the handler
  does is a parameter. The argument array is the one `getArgs` returns, and
  `InjectDeferredResult` updates it in place.
- `configureAsyncSupport` is not modelled: it only sets Spring thread-pool
  constants and installs the executor.
- During `joinPoint.proceed` the handler is assumed not to use this `Pulsar`'s
  registry or callbacks. `HandlePulse` therefore registers into the map as it was
  before the call. A handler that called `takeDeferredResult` or a setter on the
  same aspect is not modelled.
- Logging is not modelled.
- What the timeout callback returns, and how its exceptions are caught and logged
  inside the DeferredResult timeout hook, are not modelled.
- `TimelineDiscard` is not part of this model: it reads the wall clock, and its
  logic lives in `SortDiscard` and `TimelineSpot`, outside the aspect.
- `CrustContext` is not part of this model: it is a static accessor that
  delegates every call to `Crust`.
