/** The emitter itself: one mutable listener list, registration that returns a
    disposable handle, emission over a copy of the list, and disposal. */
module ValueEmitters {
  import opened Registry
  import opened Reentrancy

  /** One listener call made by `emit`: which listener, with which value. */
  datatype Call<L, V> = Call(listener: L, value: V)

  /** The calls `emit(value)` makes to `listeners`, one per entry, in order. */
  function Calls<L, V>(listeners: seq<L>, value: V): seq<Call<L, V>>
  {
    if listeners == [] then []
    else Calls(listeners[..|listeners| - 1], value) + [Call(listeners[|listeners| - 1], value)]
  }

  /** One more listener called is one more call at the end. */
  lemma CallsSnoc<L, V>(listeners: seq<L>, l: L, value: V)
    ensures Calls(listeners + [l], value) == Calls(listeners, value) + [Call(l, value)]
  {
  }

  /** Every call in `Calls(listeners, value)` carries `value`, and the calls follow the list. */
  lemma {:induction false} CallsFollowList<L, V>(listeners: seq<L>, value: V)
    ensures |Calls(listeners, value)| == |listeners|
    ensures forall i :: 0 <= i < |listeners| ==> Calls(listeners, value)[i] == Call(listeners[i], value)
  {
    if listeners != [] {
      CallsFollowList(listeners[..|listeners| - 1], value);
    }
  }

  /** A single-event emitter for values of type `V`. Listeners are identified by ids of
      type `L`; two registrations of the same id are two separate entries. */
  class ValueEmitter<V, L(==)> {
    /** The registered listeners in registration order (`_listeners`). */
    var listeners: seq<L>

    constructor ()
      ensures listeners == []
    {
      listeners := [];
    }

    /** Appends `l` (even when it is already registered, and even after `Dispose`) and
        returns a handle that releases it from this emitter. */
    method AddListener(l: L) returns (h: Handle<V, L>)
      modifies this
      ensures listeners == old(listeners) + [l]
      ensures fresh(h) && h.emitter == this && h.listener == l
    {
      listeners := listeners + [l];
      h := new Handle(this, l);
    }

    /** Calls every listener registered at entry with `value`, in order, on a copy of the
        list. `script[i]` is what the i-th listener called does to this emitter while it
        runs. The calls made are returned; `completed` is false when a listener threw,
        which ends the emission (and, in the source, propagates to the caller). */
    method Emit(value: V, script: seq<seq<Effect<L>>>) returns (delivered: seq<Call<L, V>>, completed: bool)
      modifies this
      ensures var p := Emission(old(listeners), script);
        && delivered == Calls(p.delivered, value)
        && listeners == p.live
        && completed == !p.aborted
    {
      var snapshot := listeners;
      delivered, completed := [], true;
      var i := 0;
      ghost var p := Progress([], snapshot, false);
      while i < |snapshot| && completed
        invariant i <= |snapshot| && snapshot == old(listeners)
        invariant p == Run(snapshot, snapshot, script, i)
        invariant delivered == Calls(p.delivered, value)
        invariant listeners == p.live && completed == !p.aborted
      {
        delivered := delivered + [Call(snapshot[i], value)];
        CallsSnoc(p.delivered, snapshot[i], value);
        var threw := CallListener(BodyAt(script, i));
        completed := !threw;
        p := Progress(p.delivered + [snapshot[i]], listeners, threw);
        i := i + 1;
      }
      if !completed {
        RunStops(snapshot, snapshot, script, i, |snapshot|);
      }
    }

    /** One listener call, as far as this emitter can see it: the listener's body runs
        its effects on the live list in order, and a throw ends the body. */
    method CallListener(body: seq<Effect<L>>) returns (threw: bool)
      modifies this
      ensures RunBody(old(listeners), body) == Outcome(listeners, threw)
    {
      threw := false;
      var j := 0;
      while j < |body| && !threw
        invariant j <= |body|
        invariant RunBody(old(listeners), body[..j]) == Outcome(listeners, threw)
      {
        RunBodyStep(old(listeners), body, j);
        match body[j] {
          case Adds(l) =>
            var _ := AddListener(l);
          case Releases(l) =>
            var handle := new Handle(this, l);
            handle.Dispose();
          case Disposes =>
            Dispose();
          case Throws =>
            threw := true;
        }
        j := j + 1;
      }
      if threw {
        RunBodyStops(old(listeners), body, j);
      } else {
        assert body[..j] == body;
      }
    }

    /** Drops every listener by replacing the list with an empty one. */
    method Dispose()
      modifies this
      ensures listeners == []
    {
      listeners := [];
    }
  }

  /** The disposable returned by `AddListener`. It holds the emitter and the listener,
      not the list, so it acts on whatever list the emitter holds when released. */
  class Handle<V, L(==)> {
    const emitter: ValueEmitter<V, L>
    const listener: L

    constructor (emitter: ValueEmitter<V, L>, listener: L)
      ensures this.emitter == emitter && this.listener == listener
    {
      this.emitter := emitter;
      this.listener := listener;
    }

    /** Splices out the entry at the index `indexOf` gives for the listener: its first
        occurrence if it is registered, otherwise the last entry if there is one. */
    method Dispose()
      modifies emitter
      ensures emitter.listeners == Release(old(emitter.listeners), listener)
    {
      emitter.listeners := Release(emitter.listeners, listener);
    }
  }
}
