# pyee2 `EventEmitter` in Dafny

This project models the listener registry and dispatch loop of pyee2's
`EventEmitter`, a Node.js-style event emitter for Python and asyncio.

The emitter's only state is `_events`: a `defaultdict(OrderedDict)` from
event name to the listeners registered for that event. Each listener is
keyed by its own identity. The stored callable is the listener itself
(`on`), or the wrapper `g` that `once` builds: `g` removes its key and then
calls the listener.

The model has four modules:

- `OrderedDicts`: Python's insertion-ordered dictionary as a sequence of
  pairs. Assigning to a present key replaces it where it stands. A new key
  goes at the end. `pop` closes the gap and leaves the other keys in order.
- `Registry`: the registry operations as pure functions. Indexing the
  defaultdict (`Touch`) inserts an unknown event with no listeners.
  `remove_listener`'s `pop` of a missing key yields a `KeyError` status.
  `Wf` is the invariant every reachable registry keeps: keys are unique,
  every entry sits under the key of the callable it wraps, and every
  once-wrapper sits under the event it pops from.
- `Emission`: what `emit` does. A listener's body is code the model cannot
  see, so it is a `Behaviour`:
  - the calls it makes back into the same emitter (`on`, `once`,
    `remove_listener`, `remove_all_listeners`), in order;
  - how it ends: with a value, with a coroutine, or with an exception.

  A `KeyError` raised by one of those calls ends the body as an exception.
  `emit` swallows every `Exception` raised by the call of a listener, and
  moves on to the next entry of its snapshot. An `async def` listener is
  `Behaviour([], ReturnsCoroutine)`: calling it only creates the coroutine,
  so none of its calls on the emitter run during `emit`. A `Behaviour` with
  calls that ends with `ReturnsCoroutine` stands for a plain function that
  calls the emitter and then returns a coroutine.
- `EventEmitters`: the class `EventEmitter`. Its field `events` is updated
  in place by its methods, and each method is proved against the function
  of `Registry` or `Emission` that specifies it. `Emit` is the loop of
  `emit` over its snapshot, proved with loop invariants. `RunListener` runs
  a listener body's calls on the emitter in a loop. That loop stands for the
  listener's own code, not for a loop of pyee2.

## Model

| member | source | states |
|---|---|---|
| OrderedDicts.Lookup | pyee2/eventemitter.py:118 | a key is found exactly when it is among the dictionary's keys, and what is found is a stored pair |
| OrderedDicts.Put | pyee2/eventemitter.py:64 | assigning a new key appends it; assigning a present key keeps the key order; the assigned key then maps to the new value and every other key maps to what it did before |
| OrderedDicts.Remove | pyee2/eventemitter.py:98 | after `pop` the key is gone, every other pair remains, and popping an absent key leaves the dictionary as it was |
| OrderedDicts.PutInPlace | pyee2/eventemitter.py:64 | with unique keys, assigning to the key at position i replaces that one pair and moves nothing |
| OrderedDicts.RemoveAt | pyee2/eventemitter.py:98 | with unique keys, popping the key at position i leaves the pairs before and after it in their order |
| OrderedDicts.PutTwice | pyee2/eventemitter.py:64 | a second assignment to the same key overrides the first |
| OrderedDicts.PutSame | pyee2/eventemitter.py:64 | assigning a present key its own value changes nothing |
| Registry.Get | pyee2/eventemitter.py:24-26 | an event never inserted has no listeners, and the listeners of a well-formed registry are well formed |
| Registry.Touch | pyee2/eventemitter.py:37 | indexing the defaultdict appends an unknown event to the event names, changes no event's listeners, and keeps the invariant |
| Registry.Register | pyee2/eventemitter.py:60-65 | after `self._events[event][key] = entry` the key maps to the entry, a new key is appended to the event's keys, a present key does not move, no other key of the event and no other event changes, and the invariant holds |
| Registry.RemoveListener | pyee2/eventemitter.py:98 | `KeyError` exactly when the key is not registered for the event, and then only the event is touched; the key is gone afterwards, other events are unchanged, and the invariant holds |
| Registry.RemoveAllListeners | pyee2/eventemitter.py:100-110 | with an event, that event is left with no listeners and every other event is unchanged; without one, no event name remains and every event has no listeners |
| Registry.RegisterPosition | pyee2/eventemitter.py:60-65 | re-registering a key replaces its entry at its original position; a new key is appended after the existing ones |
| Registry.RemoveListenerPosition | pyee2/eventemitter.py:98 | removing a registered key succeeds and keeps the remaining listeners in their relative order |
| Emission.ApplyOp | pyee2/eventemitter.py:46-110 | a call a listener makes on the emitter raises exactly when it is a `remove_listener` of an unregistered key, and it keeps the invariant |
| Emission.RunOps | pyee2/eventemitter.py:38-41 | a listener body's calls keep the invariant |
| Emission.Invoke | pyee2/eventemitter.py:38-44 | calling a listener never counts as "not called"; when the body's calls all succeed, the outcome is the body's ending, so a returned coroutine is scheduled (scheduling is taken to succeed) and a raise is recorded as raised; when one of its calls raises `KeyError`, the outcome is raised; a call is scheduled only when the listener returned a coroutine; a body with no calls leaves the registry alone |
| Emission.Step | pyee2/eventemitter.py:79-84 | a once-wrapper does not call its listener exactly when its key is no longer registered for its event; every step reports the listener it belongs to |
| Emission.Run | pyee2/eventemitter.py:37-44 | the loop makes one call per snapshot entry, in snapshot order, and keeps the invariant |
| Emission.Emit | pyee2/eventemitter.py:37 | `emit` makes one call per listener registered when it starts, in registration order, whatever the listeners do meanwhile; an event with no listeners is only touched |
| Emission.RunCallsPlain | pyee2/eventemitter.py:37-41 | in the loop, whatever the listeners do, only a once-wrapper can end without calling its listener |
| Emission.EmitCallsPlain | pyee2/eventemitter.py:37-41 | whatever the listeners do to the registry, `emit` really calls every listener registered with `on` in its snapshot, even after an earlier listener raised; only a once-registration whose key is gone by its turn is skipped |
| Emission.EmitQuiet | pyee2/eventemitter.py:37-44 | when no listener calls back, every listener is called in order and ends as its body does; afterwards exactly the event's once-registrations are gone and no other event changes |
| Emission.EmitCallsDistinct | pyee2/eventemitter.py:37 | within one emit no listener is called twice |
| Emission.OnceFiresOnce | tests/test_pyee2.py:32-40 | after `once(e, f)`, the first of two emits calls `f` once and drops `f` from `listeners(e)`; the second does not call `f` |
| Emission.RaisingListenerStays | pyee2/eventemitter.py:38-41 | a listener that raises is still called, its exception is swallowed, and it stays registered |
| Emission.PlainThenOnce | pyee2/eventemitter.py:60-90 | `on(e, a)` then `once(e, f)` on an event with no listeners leaves `a` first and `f`'s wrapper second |
| Emission.RemovedBeforeItsTurn | pyee2/eventemitter.py:80-82 | when `a` removes once-listener `f` during the emit, `f`'s wrapper still runs, its `pop` raises, and `f` is not called; only `a` remains registered |
| Emission.StaleWrapperTakesReregistration | pyee2/eventemitter.py:80-84 | when `a` re-registers `f` with `on` during the emit, `f`'s stale wrapper pops that registration and calls `f`, so `f` ends unregistered |
| Emission.OnceRearms | pyee2/eventemitter.py:80-84 | the wrapper pops `f` before `f`'s body runs, so a once-listener that calls `once(e, f)` from its body is called and is registered again afterwards |
| Emission.OnceSelfRemovalRaises | pyee2/eventemitter.py:80-82 | a once-listener that calls `remove_listener(e, f)` from its body finds its key already popped, so the call raises `KeyError`, the call is recorded as raised, and the event is left with no listeners |
| EventEmitters.EventEmitter.constructor | pyee2/eventemitter.py:24-26 | a new emitter has no events |
| EventEmitters.EventEmitter.On | pyee2/eventemitter.py:64-65 | `on` returns the listener and stores it under its own key, as `Registry.Register` states |
| EventEmitters.EventEmitter.Once | pyee2/eventemitter.py:79-90 | `once` returns `f`, not the wrapper, and stores the wrapper under the key `f` |
| EventEmitters.EventEmitter.RemoveListener | pyee2/eventemitter.py:98 | the registry afterwards and the `KeyError` status are those of `Registry.RemoveListener` |
| EventEmitters.EventEmitter.RemoveAllListeners | pyee2/eventemitter.py:107-110 | the registry afterwards is that of `Registry.RemoveAllListeners` |
| EventEmitters.EventEmitter.Listeners | pyee2/eventemitter.py:118 | returns the event's keys in order, without duplicates, and touches the event |
| EventEmitters.EventEmitter.EventNames | pyee2/eventemitter.py:125 | returns the event names in order, without duplicates, and changes nothing |
| EventEmitters.EventEmitter.Perform | pyee2/eventemitter.py:46-110 | a listener's call on the emitter goes through the emitter's own methods, with the effect `Emission.ApplyOp` states |
| EventEmitters.EventEmitter.RunListener | pyee2/eventemitter.py:39-44 | running a listener body in place ends in the registry and outcome `Emission.Invoke` states |
| EventEmitters.EventEmitter.CallEntry | pyee2/eventemitter.py:80-82 | calling one snapshot entry, a once-wrapper included, has the effect `Emission.Step` states |
| EventEmitters.EventEmitter.Emit | pyee2/eventemitter.py:28-44 | the in-place loop over the snapshot ends in the registry and calls `Emission.Emit` states |

## Left out

- The event loop: `asyncio.get_event_loop()` and the `loop` argument of
  `__init__` (pyee2/eventemitter.py:23). A coroutine handed to
  `asyncio.ensure_future` is recorded only as the `Scheduled` outcome of its
  call.
- Running scheduled coroutines, and any error they raise later. Both happen
  on the loop, after `emit` returns. This covers every call an `async def`
  listener makes on the emitter.
- `Emission.Invoke`: `asyncio.ensure_future` (pyee2/eventemitter.py:44) is
  outside the `try`. If it raises, for example because the loop is closed,
  the exception leaves `emit` and the rest of the snapshot is skipped. The
  model takes scheduling to always succeed.
- The decorator forms of `on` and `once` (`listener is None`,
  pyee2/eventemitter.py:57-63, 87-88). They perform the same insertion as the
  direct call, which is modelled.
- The `*args`/`**kwargs` that `emit` forwards. Python callable identity is
  modelled as a natural-number key.
- The kind of exception a listener raises. Every `Exception` is swallowed
  alike, so "raises" is one outcome. A `BaseException` that escapes `emit` is
  not modelled.
- A listener that calls `emit`, `listeners` or `event_names` on the same
  emitter. Nested emits are not modelled.
- `Emission.RunOps`: a listener body that catches the `KeyError` of its own
  `remove_listener` call and carries on. The model ends a body at the first
  `KeyError` of its calls, so such a body cannot be expressed.
- `EventEmitterS`, its boolean `emit` result, `listener_count` and the
  `"error"` event. They are not part of this model. The class modelled here
  emits no error event (pyee2/eventemitter.py:13).
- A result from `emit`: it returns `None` (pyee2/eventemitter.py:28).
  The model's `Emission.Emit` returns the list of calls instead, and that
  list is empty exactly when nobody was listening.
- The order of `event_names()`. The model takes the outer mapping to keep
  insertion order, which Python guarantees for `dict` from 3.7 on (CPython
  3.6 keeps the same order as an implementation detail). setup.py lists only
  Python 3.5 and 3.6. Only the order of the event names depends on this. That order is what
  every ensures stating `Keys(Touch(..))` says: `Registry.Touch`,
  `Registry.Register`, `Registry.RemoveListener`,
  `Registry.RemoveAllListeners`, `Emission.EmitQuiet`,
  `EventEmitters.EventEmitter.Listeners` and
  `EventEmitters.EventEmitter.EventNames`. The listeners of each event are kept in
  an `OrderedDict`, whose order every Python version guarantees.
- `Emission.OnceFiresOnce`, `Emission.EmitQuiet` and
  `Emission.RaisingListenerStays`: these assume listener bodies that make no
  calls back into the emitter. `Emission.Emit`'s own contract (one call per
  snapshot entry, in order) and `Emission.EmitCallsPlain` (every plain
  listener really called) hold for every body.
- `Emission.RemovedBeforeItsTurn` and
  `Emission.StaleWrapperTakesReregistration`: these are stated for the
  registry holding `a` then `f`'s wrapper. `Emission.PlainThenOnce` shows
  that `on(e, a)` followed by `once(e, f)` produces that registry.
