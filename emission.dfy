/*
 * What `EventEmitter.emit` does to the registry and which listeners it
 * calls. A listener's body is code this model cannot see, so it is given as
 * a Behaviour: the registry calls it makes on the same emitter, in order,
 * and how it ends (a plain value, a coroutine, or an exception).
 */
module Emission {
  import opened OrderedDicts
  import opened Registry

  /** A call a listener body makes back into the emitter it is registered on. */
  datatype Op =
    | CallOn(event: Name, listener: Key)
    | CallOnce(event: Name, listener: Key)
    | CallRemoveListener(event: Name, listener: Key)
    | CallRemoveAllListeners(only: Option<Name>)

  datatype Ending = ReturnsValue | ReturnsCoroutine | Raises

  datatype Behaviour = Behaviour(ops: seq<Op>, ending: Ending)

  /**
   * What became of one entry of the snapshot: its listener returned a value,
   * returned a coroutine that was handed to the loop with `ensure_future`,
   * raised (and `emit` swallowed it), or was never called because the
   * once-wrapper's `pop` raised first.
   */
  datatype Outcome = Returned | Scheduled | Raised | NotCalled

  datatype Call = Call(listener: Key, outcome: Outcome)

  datatype Invoked = Invoked(events: Events, call: Call)

  datatype Dispatch = Dispatch(events: Events, calls: seq<Call>)

  /** Every listener body is free of calls back into the emitter. */
  ghost predicate Quiet(behave: Key -> Behaviour)
  {
    forall k :: behave(k).ops == []
  }

  /** One call from a listener body into the emitter. */
  function ApplyOp(r: Events, op: Op): (eff: Effect)
    ensures eff.status == KeyError <==> op.CallRemoveListener? && op.listener !in Keys(Get(r, op.event))
    ensures Wf(r) ==> Wf(eff.events)
  {
    match op
    case CallOn(e, l) => Effect(Register(r, e, l, Plain(l)), Ok)
    case CallOnce(e, f) => Effect(Register(r, e, f, OnceWrap(e, f)), Ok)
    case CallRemoveListener(e, l) => RemoveListener(r, e, l)
    case CallRemoveAllListeners(only) => Effect(RemoveAllListeners(r, only), Ok)
  }

  /** A listener body's calls, in order; the first `KeyError` propagates out of the body and stops it. */
  function RunOps(r: Events, ops: seq<Op>): (eff: Effect)
    ensures Wf(r) ==> Wf(eff.events)
    decreases |ops|
  {
    if ops == [] then Effect(r, Ok)
    else
      var first := ApplyOp(r, ops[0]);
      if first.status == KeyError then first else RunOps(first.events, ops[1..])
  }

  function Finish(ending: Ending): Outcome
  {
    match ending
    case ReturnsValue => Returned
    case ReturnsCoroutine => Scheduled
    case Raises => Raised
  }

  /**
   * `result = f(*args, **kwargs)` inside the `try` of `emit`: the body runs;
   * a coroutine result is scheduled only when the body did not raise.
   */
  function Invoke(r: Events, k: Key, b: Behaviour): (inv: Invoked)
    ensures inv.call.listener == k && inv.call.outcome != NotCalled
    ensures inv.call.outcome == Scheduled ==> b.ending == ReturnsCoroutine
    ensures RunOps(r, b.ops).status == Ok ==> inv.call.outcome == Finish(b.ending)
    ensures RunOps(r, b.ops).status == KeyError ==> inv.call.outcome == Raised
    ensures b.ops == [] ==> inv == Invoked(r, Call(k, Finish(b.ending)))
    ensures Wf(r) ==> Wf(inv.events)
  {
    var eff := RunOps(r, b.ops);
    Invoked(eff.events, Call(k, if eff.status == KeyError then Raised else Finish(b.ending)))
  }

  /**
   * One iteration of the dispatch loop. A plain entry is the listener. A
   * once-wrapper `g` first pops its key from its event, which raises when
   * the key is gone, so that the listener is called only if the pop succeeds.
   */
  function Step(r: Events, entry: Entry, behave: Key -> Behaviour): (inv: Invoked)
    ensures inv.call.listener == entry.id
    ensures inv.call.outcome == NotCalled <==> entry.OnceWrap? && entry.id !in Keys(Get(r, entry.event))
    ensures Wf(r) ==> Wf(inv.events)
  {
    match entry
    case Plain(k) => Invoke(r, k, behave(k))
    case OnceWrap(e, f) =>
      var popped := RemoveListener(r, e, f);
      if popped.status == KeyError then Invoked(popped.events, Call(f, NotCalled))
      else Invoke(popped.events, f, behave(f))
  }

  /**
   * The dispatch loop over a snapshot of entries: every entry is called once,
   * in order, whatever the listeners do to the registry meanwhile.
   */
  function Run(r: Events, snapshot: seq<Entry>, behave: Key -> Behaviour): (d: Dispatch)
    ensures |d.calls| == |snapshot|
    ensures forall i :: 0 <= i < |snapshot| ==> d.calls[i].listener == snapshot[i].id
    ensures Wf(r) ==> Wf(d.events)
    decreases |snapshot|
  {
    if snapshot == [] then Dispatch(r, [])
    else
      var first := Step(r, snapshot[0], behave);
      var rest := Run(first.events, snapshot[1..], behave);
      Dispatch(rest.events, [first.call] + rest.calls)
  }

  /**
   * `emit(event)`: snapshot `list(self._events[event].values())` (which also
   * inserts an unknown event), then run the loop over the snapshot.
   */
  function Emit(r: Events, e: Name, behave: Key -> Behaviour): (d: Dispatch)
    ensures Wf(r) ==> Wf(d.events)
    ensures Wf(r) ==> |d.calls| == |Get(r, e)| &&
                      forall i :: 0 <= i < |d.calls| ==> d.calls[i].listener == Keys(Get(r, e))[i]
    ensures |d.calls| == |Get(r, e)|
    ensures Get(r, e) == [] ==> d == Dispatch(Touch(r, e), [])
  {
    var snapshot := Values(Get(r, e));
    assert Wf(r) ==> forall i :: 0 <= i < |snapshot| ==> snapshot[i].id == Keys(Get(r, e))[i] by {
      if Wf(r) {
        forall i | 0 <= i < |snapshot| ensures snapshot[i].id == Keys(Get(r, e))[i] {
          assert Get(r, e)[i] in Get(r, e);
        }
      }
    }
    Run(Touch(r, e), snapshot, behave)
  }

  /** In the loop, only a once-wrapper can end without calling its listener. */
  lemma {:induction false} RunCallsPlain(r: Events, snapshot: seq<Entry>, behave: Key -> Behaviour)
    ensures forall i :: 0 <= i < |snapshot| ==>
              Run(r, snapshot, behave).calls[i].outcome == NotCalled ==> snapshot[i].OnceWrap?
    decreases |snapshot|
  {
    if snapshot != [] {
      var first := Step(r, snapshot[0], behave);
      RunCallsPlain(first.events, snapshot[1..], behave);
      var calls := Run(r, snapshot, behave).calls;
      forall i | 0 <= i < |snapshot| && calls[i].outcome == NotCalled
        ensures snapshot[i].OnceWrap?
      {
        if i > 0 {
          assert calls[i] == Run(first.events, snapshot[1..], behave).calls[i - 1];
          assert snapshot[i] == snapshot[1..][i - 1];
        }
      }
    }
  }

  /**
   * `emit` calls every listener registered with `on` that is in its
   * snapshot, whatever the listeners do to the registry meanwhile: only a
   * once-registration can be skipped, when its key is gone by its turn.
   */
  lemma EmitCallsPlain(r: Events, e: Name, behave: Key -> Behaviour)
    ensures forall i :: 0 <= i < |Get(r, e)| ==>
              Emit(r, e, behave).calls[i].outcome == NotCalled ==> Get(r, e)[i].1.OnceWrap?
  {
    var snapshot := Values(Get(r, e));
    RunCallsPlain(Touch(r, e), snapshot, behave);
    assert forall i :: 0 <= i < |Get(r, e)| ==> snapshot[i] == Get(r, e)[i].1;
  }

  /** Only the once-wrappers of `d` removed; the plain entries stay, in order. */
  function KeepPlain(d: Listeners): (kept: Listeners)
    ensures forall p :: p in kept <==> p in d && p.1.Plain?
  {
    if d == [] then []
    else (if d[0].1.Plain? then [d[0]] else []) + KeepPlain(d[1..])
  }

  /** One iteration of the loop when no listener calls back into the emitter. */
  lemma StepQuiet(cur: Events, e: Name, pre: Listeners, rest: Listeners, behave: Key -> Behaviour)
    requires Wf(cur) && Quiet(behave)
    requires Get(cur, e) == pre + rest && rest != []
    ensures Step(cur, rest[0].1, behave).call == Call(rest[0].0, Finish(behave(rest[0].0).ending))
    ensures Step(cur, rest[0].1, behave).events == if rest[0].1.Plain? then cur else Put(cur, e, pre + rest[1..])
  {
    var p := rest[0];
    var all := pre + rest;
    assert all[|pre|] == p;
    assert Fits(e, p);
    assert behave(p.0).ops == [];
    if p.1.OnceWrap? {
      assert Keys(all)[|pre|] == p.0;
      RemoveAt(all, p.0, |pre|);
      assert all[..|pre|] + all[|pre| + 1..] == pre + rest[1..];
    }
  }

  /** Proof step, not a property: unfolds `Run` once. */
  lemma RunCons(r: Events, snapshot: seq<Entry>, behave: Key -> Behaviour)
    requires snapshot != []
    ensures Run(r, snapshot, behave) ==
              var first := Step(r, snapshot[0], behave);
              var tail := Run(first.events, snapshot[1..], behave);
              Dispatch(tail.events, [first.call] + tail.calls)
  {
  }

  /** Proof step, not a property: unfolds `Run` once, given what its first entry did. */
  lemma RunFirst(r: Events, snapshot: seq<Entry>, behave: Key -> Behaviour, next: Events, c: Call)
    requires snapshot != [] && Step(r, snapshot[0], behave) == Invoked(next, c)
    ensures Run(r, snapshot, behave).events == Run(next, snapshot[1..], behave).events
    ensures Run(r, snapshot, behave).calls == [c] + Run(next, snapshot[1..], behave).calls
  {
  }

  /** Proof step, not a property: associativity of `+` on call logs, as a hint to the solver. */
  lemma CallsAssoc(a: seq<Call>, b: seq<Call>, c: seq<Call>)
    ensures (a + b) + c == a + (b + c)
  {
  }

  /** The calls of the loop are the first entry's call followed by the calls of the rest. */
  lemma CallsCons(calls: seq<Call>, c: Call, tail: seq<Call>, rest: Listeners, behave: Key -> Behaviour)
    requires rest != [] && calls == [c] + tail && |tail| == |rest| - 1
    requires c == Call(rest[0].0, Finish(behave(rest[0].0).ending))
    requires forall i :: 0 <= i < |rest| - 1 ==> tail[i] == Call(rest[1..][i].0, Finish(behave(rest[1..][i].0).ending))
    ensures forall i :: 0 <= i < |rest| ==> calls[i] == Call(rest[i].0, Finish(behave(rest[i].0).ending))
  {
    forall i | 0 <= i < |rest|
      ensures calls[i] == Call(rest[i].0, Finish(behave(rest[i].0).ending))
    {
      if i > 0 {
        assert rest[i] == rest[1..][i - 1];
      }
    }
  }

  /** The loop over the remaining entries `rest`, when no listener calls back into the emitter. */
  lemma {:induction false} RunQuiet(cur: Events, e: Name, pre: Listeners, rest: Listeners, behave: Key -> Behaviour)
    requires Wf(cur) && Quiet(behave)
    requires e in Keys(cur)
    requires Get(cur, e) == pre + rest
    ensures Run(cur, Values(rest), behave).events == Put(cur, e, pre + KeepPlain(rest))
    ensures |Run(cur, Values(rest), behave).calls| == |rest|
    ensures forall i :: 0 <= i < |rest| ==>
              Run(cur, Values(rest), behave).calls[i] == Call(rest[i].0, Finish(behave(rest[i].0).ending))
    decreases |rest|, 1
  {
    if rest == [] {
      assert pre + KeepPlain(rest) == Get(cur, e);
      PutSame(cur, e);
    } else if rest[0].1.Plain? {
      RunQuietPlain(cur, e, pre, rest, behave);
    } else {
      RunQuietOnce(cur, e, pre, rest, behave);
    }
  }

  /** Moving a plain first entry of `rest` over to `pre`. */
  lemma ShiftPlain(pre: Listeners, rest: Listeners)
    requires rest != [] && rest[0].1.Plain?
    ensures pre + rest == (pre + [rest[0]]) + rest[1..]
    ensures (pre + [rest[0]]) + KeepPlain(rest[1..]) == pre + KeepPlain(rest)
  {
    assert rest == [rest[0]] + rest[1..];
    assert KeepPlain(rest) == [rest[0]] + KeepPlain(rest[1..]);
  }

  /** The first entry of the loop, when no listener calls back into the emitter. */
  lemma RunQuietHead(cur: Events, e: Name, pre: Listeners, rest: Listeners, behave: Key -> Behaviour)
    requires Wf(cur) && Quiet(behave)
    requires Get(cur, e) == pre + rest && rest != []
    ensures var next := Step(cur, rest[0].1, behave).events;
            var tail := Run(next, Values(rest[1..]), behave);
            next == (if rest[0].1.Plain? then cur else Put(cur, e, pre + rest[1..])) &&
            Run(cur, Values(rest), behave) == Dispatch(tail.events, [Call(rest[0].0, Finish(behave(rest[0].0).ending))] + tail.calls)
  {
    var snap := Values(rest);
    assert snap[0] == rest[0].1 && snap[1..] == Values(rest[1..]);
    StepQuiet(cur, e, pre, rest, behave);
    RunCons(cur, snap, behave);
  }

  lemma {:induction false} RunQuietPlain(cur: Events, e: Name, pre: Listeners, rest: Listeners, behave: Key -> Behaviour)
    requires Wf(cur) && Quiet(behave)
    requires e in Keys(cur)
    requires Get(cur, e) == pre + rest && rest != [] && rest[0].1.Plain?
    ensures Run(cur, Values(rest), behave).events == Put(cur, e, pre + KeepPlain(rest))
    ensures |Run(cur, Values(rest), behave).calls| == |rest|
    ensures forall i :: 0 <= i < |rest| ==>
              Run(cur, Values(rest), behave).calls[i] == Call(rest[i].0, Finish(behave(rest[i].0).ending))
    decreases |rest|, 0
  {
    var p := rest[0];
    ShiftPlain(pre, rest);
    RunQuietHead(cur, e, pre, rest, behave);
    RunQuiet(cur, e, pre + [p], rest[1..], behave);
    var tail := Run(cur, Values(rest[1..]), behave);
    CallsCons(Run(cur, Values(rest), behave).calls, Call(p.0, Finish(behave(p.0).ending)), tail.calls, rest, behave);
  }

  lemma {:induction false} RunQuietOnce(cur: Events, e: Name, pre: Listeners, rest: Listeners, behave: Key -> Behaviour)
    requires Wf(cur) && Quiet(behave)
    requires e in Keys(cur)
    requires Get(cur, e) == pre + rest && rest != [] && rest[0].1.OnceWrap?
    ensures Run(cur, Values(rest), behave).events == Put(cur, e, pre + KeepPlain(rest))
    ensures |Run(cur, Values(rest), behave).calls| == |rest|
    ensures forall i :: 0 <= i < |rest| ==>
              Run(cur, Values(rest), behave).calls[i] == Call(rest[i].0, Finish(behave(rest[i].0).ending))
    decreases |rest|, 0
  {
    var p := rest[0];
    RunQuietHead(cur, e, pre, rest, behave);
    var next := Put(cur, e, pre + rest[1..]);
    assert Wf(next) && e in Keys(next) && Get(next, e) == pre + rest[1..] by {
      PutKeys(cur, e, pre + rest[1..]);
      ListenersRemoveWf(e, pre + rest, p.0);
      PutWf(cur, e, pre + rest[1..]);
    }
    RunQuiet(next, e, pre, rest[1..], behave);
    PutTwice(cur, e, pre + rest[1..], pre + KeepPlain(rest[1..]));
    assert KeepPlain(rest) == KeepPlain(rest[1..]);
    var tail := Run(next, Values(rest[1..]), behave);
    CallsCons(Run(cur, Values(rest), behave).calls, Call(p.0, Finish(behave(p.0).ending)), tail.calls, rest, behave);
  }

  /**
   * When no listener calls back into the emitter, `emit` calls every
   * registered listener once, in registration order, each ending as its body
   * does (a raise included), and afterwards exactly the once-registrations of
   * that event are gone: a listener that raised stays registered, and no
   * other event changes.
   */
  lemma EmitQuiet(r: Events, e: Name, behave: Key -> Behaviour)
    requires Wf(r) && Quiet(behave)
    ensures Keys(Emit(r, e, behave).events) == Keys(Touch(r, e))
    ensures Get(Emit(r, e, behave).events, e) == KeepPlain(Get(r, e))
    ensures forall n :: n != e ==> Get(Emit(r, e, behave).events, n) == Get(r, n)
    ensures forall i :: 0 <= i < |Get(r, e)| ==>
              Emit(r, e, behave).calls[i] == Call(Keys(Get(r, e))[i], Finish(behave(Keys(Get(r, e))[i]).ending))
  {
    var t := Touch(r, e);
    assert Get(t, e) == [] + Get(r, e);
    RunQuiet(t, e, [], Get(r, e), behave);
    assert [] + KeepPlain(Get(r, e)) == KeepPlain(Get(r, e));
    PutKeys(t, e, KeepPlain(Get(r, e)));
  }

  /** How many of `calls` actually ran listener `k`. */
  function TimesCalled(calls: seq<Call>, k: Key): nat
  {
    if calls == [] then 0
    else (if calls[0].listener == k && calls[0].outcome != NotCalled then 1 else 0) + TimesCalled(calls[1..], k)
  }

  lemma {:induction false} NeverCalled(calls: seq<Call>, k: Key)
    requires forall i :: 0 <= i < |calls| ==> calls[i].listener != k
    ensures TimesCalled(calls, k) == 0
  {
    if calls != [] {
      NeverCalled(calls[1..], k);
    }
  }

  lemma {:induction false} CalledOnce(calls: seq<Call>, k: Key, j: nat)
    requires forall a, b :: 0 <= a < b < |calls| ==> calls[a].listener != calls[b].listener
    requires j < |calls| && calls[j].listener == k && calls[j].outcome != NotCalled
    ensures TimesCalled(calls, k) == 1
  {
    if j == 0 {
      NeverCalled(calls[1..], k);
    } else {
      CalledOnce(calls[1..], k, j - 1);
    }
  }

  /** Dropping the once-wrappers drops a key registered with `once`. */
  lemma OnceKeyDropped(d: Listeners, e: Name, f: Key)
    requires WfListeners(e, d)
    requires (f, OnceWrap(e, f)) in d
    ensures f !in Keys(KeepPlain(d))
  {
    if f in Keys(KeepPlain(d)) {
      var i :| 0 <= i < |KeepPlain(d)| && KeepPlain(d)[i].0 == f;
      var p := KeepPlain(d)[i];
      assert p in d && p.1.Plain?;
      LookupUnique(d, f, p.1);
      LookupUnique(d, f, OnceWrap(e, f));
    }
  }

  /** Within one emit no listener is called twice, since keys are unique per event. */
  lemma EmitCallsDistinct(r: Events, e: Name, behave: Key -> Behaviour)
    requires Wf(r)
    ensures forall a, b :: 0 <= a < b < |Emit(r, e, behave).calls| ==>
              Emit(r, e, behave).calls[a].listener != Emit(r, e, behave).calls[b].listener
  {
    var calls := Emit(r, e, behave).calls;
    forall a, b | 0 <= a < b < |calls| ensures calls[a].listener != calls[b].listener {
      assert Keys(Get(r, e))[a] != Keys(Get(r, e))[b];
    }
  }

  /** The first quiet emit after `once(e, f)` calls `f` once ... */
  lemma OnceCalledInFirst(r1: Events, e: Name, f: Key, behave: Key -> Behaviour)
    requires Wf(r1) && Quiet(behave)
    requires (f, OnceWrap(e, f)) in Get(r1, e)
    ensures TimesCalled(Emit(r1, e, behave).calls, f) == 1
  {
    var d := Get(r1, e);
    var calls := Emit(r1, e, behave).calls;
    var j :| 0 <= j < |d| && d[j] == (f, OnceWrap(e, f));
    assert calls[j].listener == f && calls[j].outcome != NotCalled by {
      assert Keys(d)[j] == f;
      EmitQuiet(r1, e, behave);
    }
    EmitCallsDistinct(r1, e, behave);
    CalledOnce(calls, f, j);
  }

  /** ... and leaves `f` unregistered. */
  lemma OnceGoneAfterFirst(r1: Events, e: Name, f: Key, behave: Key -> Behaviour)
    requires Wf(r1) && Quiet(behave)
    requires (f, OnceWrap(e, f)) in Get(r1, e)
    ensures f !in Keys(Get(Emit(r1, e, behave).events, e))
  {
    EmitQuiet(r1, e, behave);
    OnceKeyDropped(Get(r1, e), e, f);
  }

  /**
   * `once(e, f)` followed by two `emit(e)`: `f` runs exactly once, in the
   * first, and after the first it is no longer among `listeners(e)`.
   */
  lemma OnceFiresOnce(r: Events, e: Name, f: Key, behave: Key -> Behaviour)
    requires Wf(r) && Quiet(behave)
    ensures var first := Emit(Register(r, e, f, OnceWrap(e, f)), e, behave);
            var second := Emit(first.events, e, behave);
            TimesCalled(first.calls, f) == 1 && f !in Keys(Get(first.events, e)) &&
            TimesCalled(second.calls, f) == 0
  {
    var r1 := Register(r, e, f, OnceWrap(e, f));
    assert (f, OnceWrap(e, f)) in Get(r1, e);
    OnceCalledInFirst(r1, e, f, behave);
    OnceGoneAfterFirst(r1, e, f, behave);
    var first := Emit(r1, e, behave);
    NeverCalled(Emit(first.events, e, behave).calls, f);
  }

  /**
   * A listener that raises (and calls nothing back) is still called on
   * every emit and stays registered: `emit` swallows the exception.
   */
  lemma RaisingListenerStays(r: Events, e: Name, l: Key, behave: Key -> Behaviour)
    requires Wf(r) && Quiet(behave)
    requires (l, Plain(l)) in Get(r, e)
    requires behave(l).ending == Raises
    ensures Call(l, Raised) in Emit(r, e, behave).calls
    ensures (l, Plain(l)) in Get(Emit(r, e, behave).events, e)
  {
    EmitQuiet(r, e, behave);
    var j :| 0 <= j < |Get(r, e)| && Get(r, e)[j] == (l, Plain(l));
    assert Emit(r, e, behave).calls[j] == Call(l, Raised);
  }

  /** `on(e, a)` then `once(e, f)` on an event with no listeners. */
  lemma PlainThenOnce(r: Events, e: Name, a: Key, f: Key)
    requires Wf(r) && Get(r, e) == [] && a != f
    ensures var r1 := Register(Register(r, e, a, Plain(a)), e, f, OnceWrap(e, f));
            Wf(r1) && e in Keys(r1) && Get(r1, e) == [(a, Plain(a)), (f, OnceWrap(e, f))]
  {
    var r0 := Register(r, e, a, Plain(a));
    RegisterPosition(r, e, a, Plain(a));
    assert Get(r0, e) == [(a, Plain(a))];
    assert Keys(Get(r0, e))[0] == a;
    RegisterPosition(r0, e, f, OnceWrap(e, f));
  }

  /** An emit over exactly two entries. */
  lemma EmitTwo(r: Events, e: Name, x: (Key, Entry), y: (Key, Entry), behave: Key -> Behaviour)
    requires e in Keys(r) && Get(r, e) == [x, y]
    ensures var s1 := Step(r, x.1, behave);
            var s2 := Step(s1.events, y.1, behave);
            Emit(r, e, behave) == Dispatch(s2.events, [s1.call, s2.call])
  {
    var snap := Values([x, y]);
    assert snap == [x.1, y.1];
    assert snap[1..] == [y.1];
    RunCons(r, snap, behave);
    var s1 := Step(r, x.1, behave);
    RunCons(s1.events, [y.1], behave);
  }

  /** After deleting `f`, the event holds `a` alone. */
  lemma DropSecond(r: Events, e: Name, a: Key, x: Entry, f: Key, y: Entry)
    requires Wf(r) && Get(r, e) == [(a, x), (f, y)]
    ensures var r2 := RemoveListener(r, e, f).events;
            RemoveListener(r, e, f).status == Ok && e in Keys(r2) && Get(r2, e) == [(a, x)]
  {
    RemoveListenerPosition(r, e, f, 1);
  }

  /** A listener body that makes one successful call into the emitter. */
  lemma InvokeOneOp(r: Events, k: Key, b: Behaviour, op: Op)
    requires b.ops == [op] && ApplyOp(r, op).status == Ok
    ensures Invoke(r, k, b) == Invoked(ApplyOp(r, op).events, Call(k, Finish(b.ending)))
  {
    assert RunOps(r, b.ops) == RunOps(ApplyOp(r, op).events, []);
  }

  /** A once-wrapper whose key is still registered pops it and calls its listener. */
  lemma StepOnceFound(r: Events, e: Name, f: Key, behave: Key -> Behaviour)
    requires f in Keys(Get(r, e)) && behave(f).ops == []
    ensures Step(r, OnceWrap(e, f), behave) == Invoked(RemoveListener(r, e, f).events, Call(f, Finish(behave(f).ending)))
  {
  }

  /**
   * Listener `a`, registered first, removes once-listener `f` during the
   * emit; `f`'s wrapper is still in the snapshot, its `pop` raises `KeyError`,
   * `emit` swallows it, and `f` is not called.
   */
  lemma RemovedBeforeItsTurn(r1: Events, e: Name, a: Key, f: Key, behave: Key -> Behaviour)
    requires Wf(r1) && e in Keys(r1) && Get(r1, e) == [(a, Plain(a)), (f, OnceWrap(e, f))]
    requires behave(a).ops == [CallRemoveListener(e, f)]
    ensures Emit(r1, e, behave).calls == [Call(a, Finish(behave(a).ending)), Call(f, NotCalled)]
    ensures Get(Emit(r1, e, behave).events, e) == [(a, Plain(a))]
  {
    var r2 := RemoveListener(r1, e, f).events;
    assert RemoveListener(r1, e, f).status == Ok && Get(r2, e) == [(a, Plain(a))] by {
      DropSecond(r1, e, a, Plain(a), f, OnceWrap(e, f));
    }
    assert Step(r1, Plain(a), behave) == Invoked(r2, Call(a, Finish(behave(a).ending))) by {
      InvokeOneOp(r1, a, behave(a), CallRemoveListener(e, f));
    }
    assert Step(r2, OnceWrap(e, f), behave) == Invoked(r2, Call(f, NotCalled)) by {
      assert Keys(Get(r2, e)) == [a];
    }
    EmitTwo(r1, e, (a, Plain(a)), (f, OnceWrap(e, f)), behave);
  }

  /**
   * A once-wrapper still in the snapshot pops whatever is keyed by its
   * listener when its turn comes: if an earlier listener re-registered `f`
   * with `on` during the same emit, the wrapper removes that registration
   * and calls `f`.
   */
  lemma StaleWrapperTakesReregistration(r1: Events, e: Name, a: Key, f: Key, behave: Key -> Behaviour)
    requires Wf(r1) && e in Keys(r1) && Get(r1, e) == [(a, Plain(a)), (f, OnceWrap(e, f))]
    requires behave(a).ops == [CallOn(e, f)] && behave(f).ops == []
    ensures Emit(r1, e, behave).calls == [Call(a, Finish(behave(a).ending)), Call(f, Finish(behave(f).ending))]
    ensures Get(Emit(r1, e, behave).events, e) == [(a, Plain(a))]
  {
    var r2 := Register(r1, e, f, Plain(f));
    assert Wf(r2) && Get(r2, e) == [(a, Plain(a)), (f, Plain(f))] by {
      RegisterPosition(r1, e, f, Plain(f));
      assert Get(r1, e)[1].0 == f;
    }
    assert Step(r1, Plain(a), behave) == Invoked(r2, Call(a, Finish(behave(a).ending))) by {
      InvokeOneOp(r1, a, behave(a), CallOn(e, f));
    }
    var r3 := RemoveListener(r2, e, f).events;
    assert Step(r2, OnceWrap(e, f), behave) == Invoked(r3, Call(f, Finish(behave(f).ending))) by {
      assert Keys(Get(r2, e))[1] == f;
      StepOnceFound(r2, e, f, behave);
    }
    assert Get(r3, e) == [(a, Plain(a))] by {
      DropSecond(r2, e, a, Plain(a), f, Plain(f));
    }
    EmitTwo(r1, e, (a, Plain(a)), (f, OnceWrap(e, f)), behave);
  }

  /** An emit over exactly one entry. */
  lemma EmitOne(r: Events, e: Name, x: (Key, Entry), behave: Key -> Behaviour)
    requires e in Keys(r) && Get(r, e) == [x]
    ensures var s1 := Step(r, x.1, behave);
            Emit(r, e, behave) == Dispatch(s1.events, [s1.call])
  {
    var snap := Values([x]);
    assert snap == [x.1];
    RunCons(r, snap, behave);
  }

  /** Popping the only key of an event and registering it again with `once`. */
  lemma PopThenRearm(r: Events, e: Name, f: Key)
    requires Wf(r) && Get(r, e) == [(f, OnceWrap(e, f))]
    ensures RemoveListener(r, e, f).status == Ok
    ensures Get(Register(RemoveListener(r, e, f).events, e, f, OnceWrap(e, f)), e) == [(f, OnceWrap(e, f))]
  {
    var r2 := RemoveListener(r, e, f).events;
    RemoveListenerPosition(r, e, f, 0);
    RegisterPosition(r2, e, f, OnceWrap(e, f));
  }

  /**
   * The once-wrapper pops its key before the listener's body runs: a
   * once-listener `f` that calls `once(e, f)` from its body registers itself
   * afresh and is still registered after the emit.
   */
  lemma OnceRearms(r: Events, e: Name, f: Key, behave: Key -> Behaviour)
    requires Wf(r) && e in Keys(r) && Get(r, e) == [(f, OnceWrap(e, f))]
    requires behave(f).ops == [CallOnce(e, f)]
    ensures Emit(r, e, behave).calls == [Call(f, Finish(behave(f).ending))]
    ensures Get(Emit(r, e, behave).events, e) == [(f, OnceWrap(e, f))]
  {
    var r2 := RemoveListener(r, e, f).events;
    var r3 := Register(r2, e, f, OnceWrap(e, f));
    PopThenRearm(r, e, f);
    assert Step(r, OnceWrap(e, f), behave) == Invoked(r3, Call(f, Finish(behave(f).ending))) by {
      InvokeOneOp(r2, f, behave(f), CallOnce(e, f));
    }
    EmitOne(r, e, (f, OnceWrap(e, f)), behave);
  }

  /**
   * Because the wrapper has already popped `f` when `f`'s body runs, a
   * once-listener that removes itself from its body gets a `KeyError`,
   * which `emit` swallows.
   */
  lemma OnceSelfRemovalRaises(r: Events, e: Name, f: Key, behave: Key -> Behaviour)
    requires Wf(r) && e in Keys(r) && Get(r, e) == [(f, OnceWrap(e, f))]
    requires behave(f).ops == [CallRemoveListener(e, f)]
    ensures Emit(r, e, behave).calls == [Call(f, Raised)]
    ensures Get(Emit(r, e, behave).events, e) == []
  {
    var r2 := RemoveListener(r, e, f).events;
    assert RemoveListener(r, e, f).status == Ok && e in Keys(r2) && Get(r2, e) == [] by {
      RemoveListenerPosition(r, e, f, 0);
    }
    assert Step(r, OnceWrap(e, f), behave) == Invoked(r2, Call(f, Raised)) by {
      assert RunOps(r2, behave(f).ops) == RemoveListener(r2, e, f);
    }
    EmitOne(r, e, (f, OnceWrap(e, f)), behave);
  }
}
