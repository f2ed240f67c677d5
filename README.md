# ValueEmitter in Dafny

This project models `ValueEmitter` from `packages/util/value-emitter`. It is a
single-event emitter with one mutable, ordered list of listener callbacks (`_listeners`)
and three operations:

- `addListener` pushes a callback onto the list. It returns a disposable handle whose
  `dispose` splices that callback out again: `splice(indexOf(listener), 1)`.
- `emit` copies the list and then calls every callback of the copy, in order, with the
  value.
- `dispose` replaces the list with a fresh empty one.

Listeners are opaque ids of a type with equality. Equality of ids stands in for
JavaScript reference identity. A callback's body cannot be run in Dafny. Instead, what a
listener does to the same emitter while `emit` calls it is given as a finite script of
effects: register a listener, release a handle, dispose the emitter, or throw.

Files:

- `js_array.dfy` (module `JsArray`): `Array.prototype.indexOf` and `splice(start, 1)`,
  including the clamping of a negative start.
- `registry.dfy` (module `Registry`): what releasing a handle does to a list, and its
  properties. It removes the first occurrence of a registered listener. For a listener
  that is absent, it removes the last entry (`indexOf` gives -1, and `splice(-1, 1)`
  removes the last element).
- `emission.dfy` (module `Reentrancy`): an emission as a function of the entry list and
  the effect script. It includes the lemmas about snapshot delivery and about mutation
  during an emission.
- `value_emitter.dfy` (module `ValueEmitters`): the class `ValueEmitter`, with a
  `listeners: seq<L>` field that the methods reassign, and the class `Handle`. `Emit`
  copies the list and loops over the copy. Each step runs the listener's effects through
  the real `AddListener`, `Handle.Dispose` and `Dispose` methods, on the live field.
- `scenarios.dfy` (module `Scenarios`): client methods that replay the emitter's usage
  scenarios using only the contracts above, and small lemmas that work out the outcome of
  each scenario's emission.

The model follows the code in two places where the emitter does less than a user might
expect:

- A handle's release is not idempotent. Releasing it when its listener is no longer
  registered (a second time, or after the emitter was disposed and given new listeners)
  removes the last entry of the list. When another copy of the listener is still
  registered, the release removes that copy instead.
  See `Registry.ReleaseAbsent`, `Registry.ReleaseTwice` and
  `Registry.ReleaseTwiceDropsOther`.
- A disposed emitter is not terminal. `addListener` after `dispose` appends to the new
  empty list, and the next `emit` calls that listener (see `Scenarios.RegisterAfterDispose`).

## Model

| member | source | states |
|---|---|---|
| `JsArray.IndexOf` | packages/util/value-emitter/src/ValueEmitter.js:22 | `indexOf` is -1 exactly when the listener is absent; otherwise it is an index holding it, with no earlier occurrence |
| `JsArray.SpliceStart` | packages/util/value-emitter/src/ValueEmitter.js:22 | the effective splice start is within the array, and it names an element exactly when the array is non-empty and the start is below its length |
| `JsArray.SpliceOne` | packages/util/value-emitter/src/ValueEmitter.js:22 | `splice(start, 1)` removes one element at the effective start, if there is one, and keeps all other elements in order |
| `JsArray.SpliceMinusOne` | packages/util/value-emitter/src/ValueEmitter.js:22 | `splice(-1, 1)` drops the last element of a non-empty array and leaves an empty one unchanged |
| `Registry.Release` | packages/util/value-emitter/src/ValueEmitter.js:21-23 | releasing a handle always makes a non-empty list exactly one shorter and leaves an empty list empty, whether or not the listener is registered |
| `Registry.ReleasePresent` | packages/util/value-emitter/src/ValueEmitter.js:22 | for a registered listener, release removes exactly its leftmost occurrence: the other entries keep their relative order, and one copy leaves the multiset |
| `Registry.AddThenRelease` | packages/util/value-emitter/src/ValueEmitter.js:17-23 | registering a listener that was not registered and then releasing its handle restores the list |
| `Registry.ReleaseAbsent` | packages/util/value-emitter/src/ValueEmitter.js:22 | for an absent listener, release removes the last entry of a non-empty list and changes nothing on an empty one |
| `Registry.ReleaseTwice` | packages/util/value-emitter/src/ValueEmitter.js:22 | release is not idempotent: for a listener registered once in a list of two or more, a second release removes a different listener, the one now last |
| `Registry.ReleaseTwiceDropsOther` | packages/util/value-emitter/src/ValueEmitter.js:20-23 | with `a` then `b` registered, releasing `a`'s handle twice leaves no listener at all |
| `Reentrancy.ApplyEffect` | packages/util/value-emitter/src/ValueEmitter.js:18-40 | definition; no contract: one effect on the live list is a `push` (line 18), the handle's `splice(indexOf(l), 1)` (line 22) or the reassignment to an empty list (line 40) |
| `Reentrancy.RunBody` | packages/util/value-emitter/src/ValueEmitter.js:35 | definition; no contract: one listener call runs its effects in order on the live list and stops at the first throw; `RunBodyThrew`, `RunBodyStops` and `RunBodyAdds` state its properties |
| `Reentrancy.Run` | packages/util/value-emitter/src/ValueEmitter.js:33-36 | definition; no contract: the first `k` iterations of the loop over the copy, each calling the next entry of the copy and running its body on the live list, none after a throw; `RunDelivers`, `RunStops`, `RunQuiet` and `RunAdds` state its properties |
| `Reentrancy.Emission` | packages/util/value-emitter/src/ValueEmitter.js:27-37 | an emission is the loop run over a copy of the list at entry; it calls at most as many listeners as the list had, and exactly that many unless a listener throws |
| `Reentrancy.RunBodyThrew` | packages/util/value-emitter/src/ValueEmitter.js:35 | a listener call throws exactly when its body contains a throw |
| `Reentrancy.RunBodyStops` | packages/util/value-emitter/src/ValueEmitter.js:35 | after a throw, the rest of a listener body has no effect on the emitter |
| `Reentrancy.RunBodyAdds` | packages/util/value-emitter/src/ValueEmitter.js:18 | a listener body that only registers listeners appends them to the live list, in order |
| `Reentrancy.RunStops` | packages/util/value-emitter/src/ValueEmitter.js:34-36 | once a listener has thrown, no further snapshot entry is called and the state stays as it was |
| `Reentrancy.RunDelivers` | packages/util/value-emitter/src/ValueEmitter.js:33-36 | the listeners called so far are a prefix of the snapshot, in order; without an abort the prefix has exactly the step count, and with one it ends at the first listener that throws |
| `Reentrancy.RunQuiet` | packages/util/value-emitter/src/ValueEmitter.js:33-36 | steps whose listeners do not act on the emitter call their snapshot entries and leave the live list unchanged |
| `Reentrancy.RunAdds` | packages/util/value-emitter/src/ValueEmitter.js:28-36 | steps whose listeners only register call their snapshot entries and append the new registrations to the live list |
| `Reentrancy.EmissionDelivers` | packages/util/value-emitter/src/ValueEmitter.js:27-37 | `emit` calls every entry of the list at entry, once each and in order, whatever the listeners register, release or dispose; it stops early if and only if some listener throws, and then it has called exactly the entries up to the first one that throws |
| `Reentrancy.OnlyEntriesCalled` | packages/util/value-emitter/src/ValueEmitter.js:28-33 | for every script, a listener called by `emit` was registered when `emit` began, so a listener registered during the emission is never called by it |
| `Reentrancy.EmissionQuiet` | packages/util/value-emitter/src/ValueEmitter.js:33-36 | `emit` itself never changes the list: with no reentrant effects, the list afterwards equals the list at entry, and the calls made equal that list |
| `Reentrancy.EmissionAdds` | packages/util/value-emitter/src/ValueEmitter.js:28-36 | when every listener called only registers listeners, those registered during `emit` are appended to the live list in registration order, and the calls made are still exactly the entry snapshot |
| `Reentrancy.AddedListenerWaits` | packages/util/value-emitter/src/ValueEmitter.js:28-36 | when every listener called only registers listeners, a listener first registered during `emit` is not called by that emission, is registered afterwards, and is called by the next `emit` when that emission's listeners do nothing to the emitter |
| `Reentrancy.DisposeMidEmission` | packages/util/value-emitter/src/ValueEmitter.js:31-40 | when no listener throws, one listener disposes the emitter as its last effect and the later listeners do nothing to the emitter: the dispose does not stop the running emission, all snapshot entries are still called, and the emitter ends with no listeners |
| `Reentrancy.ReleaseMidEmission` | packages/util/value-emitter/src/ValueEmitter.js:20-36 | when one listener releases a handle during `emit` and the others do nothing, every entry of the list at entry is still called, including the released one; the live list becomes `Release` of that list; and a listener registered once is not called by the next `emit` |
| `ValueEmitters.Calls` | packages/util/value-emitter/src/ValueEmitter.js:35 | definition; no contract: the calls `listeners[i](value)` made to a list of listeners, one per entry, in order; `CallsFollowList` states its properties |
| `ValueEmitters.CallsFollowList` | packages/util/value-emitter/src/ValueEmitter.js:34-36 | the calls of an emission follow the called listeners one for one, and each carries the emitted value |
| `Scenarios.AddDuringEmission` | packages/util/value-emitter/src/ValueEmitter.js:28-30 | with `a` registered, `a` registering `b` during `emit` gets only `a` called, and `[a, b]` is registered afterwards |
| `Scenarios.ReleaseDuringEmission` | packages/util/value-emitter/src/ValueEmitter.js:20-36 | with `a` and `b` registered, `a` releasing `b`'s handle during `emit` still gets both called, and only `[a]` is registered afterwards |
| `Scenarios.ThrowDuringEmission` | packages/util/value-emitter/src/ValueEmitter.js:34-36 | with `a` and `b` registered, `a` throwing ends `emit` after calling `a` only, and leaves the list unchanged |
| `ValueEmitters.ValueEmitter.constructor` | packages/util/value-emitter/src/ValueEmitter.js:15 | a new emitter has no listeners |
| `ValueEmitters.ValueEmitter.AddListener` | packages/util/value-emitter/src/ValueEmitter.js:17-25 | the new list is the old list with the listener appended, so earlier entries are unchanged and a duplicate is a separate entry; the handle returned is fresh and bound to this emitter and listener |
| `ValueEmitters.ValueEmitter.Emit` | packages/util/value-emitter/src/ValueEmitter.js:27-37 | the calls made, the live list afterwards and whether the emission completed are exactly those of `Emission` on the list at entry: the snapshot is taken once, and every effect acts on the live list |
| `ValueEmitters.ValueEmitter.CallListener` | packages/util/value-emitter/src/ValueEmitter.js:35 | a single listener call applies that listener's effects to the live list in order, and stops at a throw |
| `ValueEmitters.ValueEmitter.Dispose` | packages/util/value-emitter/src/ValueEmitter.js:39-41 | afterwards the list is empty, whatever it was before, so a second `dispose` leaves it empty too |
| `ValueEmitters.Handle.constructor` | packages/util/value-emitter/src/ValueEmitter.js:20-24 | a handle holds the emitter and the listener, not the list |
| `ValueEmitters.Handle.Dispose` | packages/util/value-emitter/src/ValueEmitter.js:21-23 | the emitter's current list, which may be a new one created by `dispose`, becomes `Release` of that list for the handle's listener |

## Left out

- The Flow type annotations and the `IDisposable` interface (lines 1-5) are types only. `Handle` plays the role of the disposable.
- Callback bodies and their return values (line 15, `mixed`) are not modelled. The return values are ignored by the source. A listener's body is reduced to the effects it has on the same emitter, given as a finite script.
- A listener that calls `emit` on the same emitter from inside its own call (nested emission) is not modelled. Neither is a listener that acts on another emitter.
- A thrown exception is modelled only as `completed == false` with the emission stopped after the throwing listener. How the exception propagates to the caller is not modelled.
- `ValueEmitters.ValueEmitter.Emit`: a script entry says what the i-th listener called does. In the source, that behaviour can depend on arbitrary program state. The model fixes it before the call.
- The comment on arrays versus sets (lines 12-14) is about performance, not behaviour.
- `splice` also returns the removed elements. The source ignores that result, and so does the model.
- `ValueEmitters.ValueEmitter.Emit`: the source calls each listener as a method of the copy (`listeners[i](value)`, line 35), so a listener written as a plain `function` receives the copy as `this`. It can shorten or lengthen the copy, and line 34 re-reads its length on every iteration. The model treats the copy as a value no listener can reach, so changes to it through `this` are not modelled.
- The list is a `seq` value that the methods reassign, not a shared array. No other code holds a reference to `_listeners`, and `emit`'s copy is a separate array, so the two agree except for the copy being reachable as `this` (the line above).
