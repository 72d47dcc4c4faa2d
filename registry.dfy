/*
 * The listener registry of pyee2's `EventEmitter`: `self._events`, a
 * `defaultdict(OrderedDict)` from event name to the listeners registered
 * for it, each keyed by the listener's identity and holding the callable
 * that `emit` invokes. Every operation here is a pure function from the old
 * registry to the new one; the class in module EventEmitters applies them
 * to its field.
 */
module Registry {
  import opened OrderedDicts

  type Name = string

  /** The identity of a registered callable. */
  type Key = nat

  /**
   * What `emit` calls for a key: the listener itself (`on`), or the wrapper
   * `g` that `once` builds, which first pops `id` from `event` and then calls
   * the listener.
   */
  datatype Entry = Plain(id: Key) | OnceWrap(event: Name, id: Key)

  type Listeners = Dict<Key, Entry>

  /** The outer mapping; its order is the order of `event_names()`. */
  type Events = Dict<Name, Listeners>

  /** Whether a `remove_listener` call returned, or raised `KeyError` from its `pop`. */
  datatype Status = Ok | KeyError

  datatype Effect = Effect(events: Events, status: Status)

  /** An entry stands under the key of the callable it wraps, and a once-wrapper under the event it pops from. */
  ghost predicate Fits(e: Name, p: (Key, Entry))
  {
    p.1.id == p.0 && (p.1.OnceWrap? ==> p.1.event == e)
  }

  ghost predicate WfListeners(e: Name, d: Listeners)
  {
    Distinct(Keys(d)) && forall p :: p in d ==> Fits(e, p)
  }

  /** The invariant every reachable registry keeps. */
  ghost predicate Wf(r: Events)
  {
    Distinct(Keys(r)) && forall p :: p in r ==> WfListeners(p.0, p.1)
  }

  /** `self._events[event]` read: the listeners of `e`, empty for an event never touched. */
  function Get(r: Events, e: Name): (d: Listeners)
    ensures e !in Keys(r) ==> d == []
    ensures Wf(r) ==> WfListeners(e, d)
  {
    match Lookup(r, e)
    case Some(d) => d
    case None => []
  }

  /**
   * The side effect of `self._events[event]` on a defaultdict: an event not
   * yet present is appended with no listeners; nothing else changes.
   */
  function Touch(r: Events, e: Name): (r': Events)
    ensures Keys(r') == if e in Keys(r) then Keys(r) else Keys(r) + [e]
    ensures forall n :: Get(r', n) == Get(r, n)
    ensures Wf(r) ==> Wf(r')
  {
    if e in Keys(r) then r else Put(r, e, [])
  }

  /** Storing well-formed listeners under an event keeps the registry well formed. */
  lemma PutWf(r: Events, e: Name, d: Listeners)
    ensures Wf(r) && WfListeners(e, d) ==> Wf(Put(r, e, d))
  {
    if Wf(r) && WfListeners(e, d) {
      PutKeys(r, e, d);
    }
  }

  /** Storing a fitting entry keeps an event's listeners well formed. */
  lemma ListenersPutWf(e: Name, d: Listeners, l: Key, entry: Entry)
    ensures WfListeners(e, d) && Fits(e, (l, entry)) ==> WfListeners(e, Put(d, l, entry))
  {
    if WfListeners(e, d) {
      PutKeys(d, l, entry);
    }
  }

  /** Deleting a key keeps an event's listeners well formed. */
  lemma ListenersRemoveWf(e: Name, d: Listeners, l: Key)
    ensures WfListeners(e, d) ==> WfListeners(e, Remove(d, l))
  {
    if WfListeners(e, d) {
      RemoveKeys(d, l);
    }
  }

  /**
   * `self._events[event][key] = entry`, the store shared by `on` (entry is
   * the listener) and `once` (entry is the wrapper).
   */
  function Register(r: Events, e: Name, l: Key, entry: Entry): (r': Events)
    ensures Keys(r') == Keys(Touch(r, e))
    ensures Keys(Get(r', e)) == if l in Keys(Get(r, e)) then Keys(Get(r, e)) else Keys(Get(r, e)) + [l]
    ensures Lookup(Get(r', e), l) == Some(entry)
    ensures forall k :: k != l ==> Lookup(Get(r', e), k) == Lookup(Get(r, e), k)
    ensures forall n :: n != e ==> Get(r', n) == Get(r, n)
    ensures Wf(r) && Fits(e, (l, entry)) ==> Wf(r')
  {
    var d := Put(Get(r, e), l, entry);
    ListenersPutWf(e, Get(r, e), l, entry);
    PutWf(r, e, d);
    Put(r, e, d)
  }

  /** `self._events[event].pop(listener)`, which raises `KeyError` when `listener` is not registered. */
  function RemoveListener(r: Events, e: Name, l: Key): (eff: Effect)
    ensures eff.status == KeyError <==> l !in Keys(Get(r, e))
    ensures eff.status == KeyError ==> eff.events == Touch(r, e)
    ensures Keys(eff.events) == Keys(Touch(r, e))
    ensures l !in Keys(Get(eff.events, e))
    ensures forall n :: n != e ==> Get(eff.events, n) == Get(r, n)
    ensures Wf(r) ==> Wf(eff.events)
  {
    if l in Keys(Get(r, e)) then
      var d := Remove(Get(r, e), l);
      ListenersRemoveWf(e, Get(r, e), l);
      PutWf(r, e, d);
      Effect(Put(r, e, d), Ok)
    else Effect(Touch(r, e), KeyError)
  }

  /**
   * `remove_all_listeners(event)`: with an event, that event is reset to no
   * listeners; without one, the whole mapping is replaced by an empty one.
   */
  function RemoveAllListeners(r: Events, event: Option<Name>): (r': Events)
    ensures event.None? ==> Keys(r') == [] && forall n :: Get(r', n) == []
    ensures event.Some? ==> Keys(r') == Keys(Touch(r, event.value))
    ensures event.Some? ==> Get(r', event.value) == []
    ensures event.Some? ==> forall n :: n != event.value ==> Get(r', n) == Get(r, n)
    ensures Wf(r) ==> Wf(r')
  {
    match event
    case None => []
    case Some(e) => PutWf(r, e, []); Put(r, e, [])
  }

  /**
   * `on` and `once` keep a re-registered key where it was first inserted and
   * append a new key at the end; the event's other pairs do not move.
   */
  lemma RegisterPosition(r: Events, e: Name, l: Key, entry: Entry)
    requires Wf(r)
    ensures l !in Keys(Get(r, e)) ==> Get(Register(r, e, l, entry), e) == Get(r, e) + [(l, entry)]
    ensures forall i :: 0 <= i < |Get(r, e)| && Get(r, e)[i].0 == l ==>
              Get(Register(r, e, l, entry), e) == Get(r, e)[i := (l, entry)]
  {
    var d := Get(r, e);
    assert Get(Register(r, e, l, entry), e) == Put(d, l, entry);
    forall i | 0 <= i < |d| && d[i].0 == l
      ensures Get(Register(r, e, l, entry), e) == d[i := (l, entry)]
    {
      PutInPlace(d, l, entry, i);
    }
  }

  /**
   * `remove_listener` deletes exactly the pair keyed `l` and keeps the
   * relative order of the event's other pairs.
   */
  lemma RemoveListenerPosition(r: Events, e: Name, l: Key, i: nat)
    requires Wf(r)
    requires i < |Get(r, e)| && Get(r, e)[i].0 == l
    ensures RemoveListener(r, e, l).status == Ok
    ensures Get(RemoveListener(r, e, l).events, e) == Get(r, e)[..i] + Get(r, e)[i + 1..]
  {
    var d := Get(r, e);
    assert Keys(d)[i] == l;
    RemoveAt(d, l, i);
  }
}
