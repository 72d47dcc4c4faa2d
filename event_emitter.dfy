/*
 * The class `EventEmitter` of pyee2: one mutable field, the registry
 * `_events`, and the methods that change it in place. Each method is proved
 * against the pure function of module Registry or Emission that states what
 * it does to the registry; the properties of those functions are proved
 * there.
 */
module EventEmitters {
  import D = OrderedDicts
  import R = Registry
  import E = Emission

  class EventEmitter {
    /** `self._events`: event name to the listeners registered for it, both in insertion order. */
    var events: R.Events

    ghost predicate Valid()
      reads this
    {
      R.Wf(events)
    }

    /** `__init__`: a fresh `defaultdict(OrderedDict)`. */
    constructor ()
      ensures Valid() && events == []
    {
      events := [];
    }

    /** `on(event, listener)`: store the listener under its own key and hand it back. */
    method On(event: R.Name, listener: R.Key) returns (registered: R.Key)
      requires Valid()
      modifies this
      ensures Valid()
      ensures registered == listener
      ensures events == R.Register(old(events), event, listener, R.Plain(listener))
    {
      events := R.Register(events, event, listener, R.Plain(listener));
      registered := listener;
    }

    /** `once(event, f)`: store the wrapper `g` under the key `f` and hand back `f`, not `g`. */
    method Once(event: R.Name, f: R.Key) returns (registered: R.Key)
      requires Valid()
      modifies this
      ensures Valid()
      ensures registered == f
      ensures events == R.Register(old(events), event, f, R.OnceWrap(event, f))
    {
      events := R.Register(events, event, f, R.OnceWrap(event, f));
      registered := f;
    }

    /** `remove_listener(event, listener)`; a `KeyError` from the `pop` is returned as a status. */
    method RemoveListener(event: R.Name, listener: R.Key) returns (status: R.Status)
      requires Valid()
      modifies this
      ensures Valid()
      ensures R.RemoveListener(old(events), event, listener) == R.Effect(events, status)
    {
      var eff := R.RemoveListener(events, event, listener);
      events := eff.events;
      status := eff.status;
    }

    /** `remove_all_listeners(event)`, with `None` for the call without an event. */
    method RemoveAllListeners(event: D.Option<R.Name>)
      requires Valid()
      modifies this
      ensures Valid()
      ensures events == R.RemoveAllListeners(old(events), event)
    {
      events := R.RemoveAllListeners(events, event);
    }

    /** `listeners(event)`: the keys of the event in order; an unknown event is inserted as a side effect. */
    method Listeners(event: R.Name) returns (keys: seq<R.Key>)
      requires Valid()
      modifies this
      ensures Valid()
      ensures events == R.Touch(old(events), event)
      ensures keys == D.Keys(R.Get(old(events), event)) && D.Distinct(keys)
    {
      events := R.Touch(events, event);
      keys := D.Keys(R.Get(events, event));
    }

    /** `event_names()`: every event ever touched and not since cleared, in order, each once. */
    method EventNames() returns (names: seq<R.Name>)
      requires Valid()
      ensures names == D.Keys(events) && D.Distinct(names)
    {
      names := D.Keys(events);
    }

    /** One call a listener body makes on this emitter. */
    method Perform(op: E.Op) returns (status: R.Status)
      requires Valid()
      modifies this
      ensures Valid()
      ensures E.ApplyOp(old(events), op) == R.Effect(events, status)
    {
      match op
      case CallOn(e, l) =>
        var registered := On(e, l);
        status := R.Ok;
      case CallOnce(e, f) =>
        var registered := Once(e, f);
        status := R.Ok;
      case CallRemoveListener(e, l) =>
        status := RemoveListener(e, l);
      case CallRemoveAllListeners(only) =>
        RemoveAllListeners(only);
        status := R.Ok;
    }

    /**
     * Calls listener `k` whose body is `b`: its calls on this emitter run in
     * order until one raises, and that exception ends the body.
     */
    method RunListener(k: R.Key, b: E.Behaviour) returns (outcome: E.Outcome)
      requires Valid()
      modifies this
      ensures Valid()
      ensures E.Invoke(old(events), k, b) == E.Invoked(events, E.Call(k, outcome))
    {
      ghost var goal := E.RunOps(events, b.ops);
      var j := 0;
      while j < |b.ops|
        invariant 0 <= j <= |b.ops|
        invariant Valid()
        invariant E.RunOps(events, b.ops[j..]) == goal
      {
        assert b.ops[j..][1..] == b.ops[j + 1..];
        var status := Perform(b.ops[j]);
        if status == R.KeyError {
          return E.Raised;
        }
        j := j + 1;
      }
      outcome := E.Finish(b.ending);
    }

    /**
     * One callable of the snapshot: the listener itself, or the once-wrapper
     * `g`, which removes its key first and calls the listener only when that
     * removal did not raise.
     */
    method CallEntry(entry: R.Entry, behave: R.Key -> E.Behaviour) returns (c: E.Call)
      requires Valid()
      modifies this
      ensures Valid()
      ensures E.Step(old(events), entry, behave) == E.Invoked(events, c)
    {
      match entry
      case Plain(k) =>
        var outcome := RunListener(k, behave(k));
        c := E.Call(k, outcome);
      case OnceWrap(e, f) =>
        var status := RemoveListener(e, f);
        if status == R.KeyError {
          c := E.Call(f, E.NotCalled);
        } else {
          var outcome := RunListener(f, behave(f));
          c := E.Call(f, outcome);
        }
    }

    /**
     * `emit(event)`: every callable in the snapshot taken at the start is
     * called in order, whatever the listeners change meanwhile; an exception
     * ends only the listener that raised it. Returns what became of each call.
     */
    method Emit(event: R.Name, behave: R.Key -> E.Behaviour) returns (calls: seq<E.Call>)
      requires Valid()
      modifies this
      ensures Valid()
      ensures E.Emit(old(events), event, behave) == E.Dispatch(events, calls)
    {
      var snapshot := D.Values(R.Get(events, event));
      events := R.Touch(events, event);
      ghost var goal := E.Run(events, snapshot, behave);
      assert goal == E.Emit(old(events), event, behave);
      calls := [];
      var i := 0;
      while i < |snapshot|
        invariant 0 <= i <= |snapshot|
        invariant Valid()
        invariant E.Run(events, snapshot[i..], behave).events == goal.events
        invariant calls + E.Run(events, snapshot[i..], behave).calls == goal.calls
      {
        ghost var before := events;
        var c := CallEntry(snapshot[i], behave);
        assert snapshot[i..][1..] == snapshot[i + 1..];
        E.RunFirst(before, snapshot[i..], behave, events, c);
        E.CallsAssoc(calls, [c], E.Run(events, snapshot[i + 1..], behave).calls);
        calls := calls + [c];
        i := i + 1;
      }
      assert snapshot[i..] == [];
    }
  }
}
