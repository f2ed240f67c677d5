/** What one `emit` call does, as a function of the listener list at entry and of what
    the listeners do to the emitter while they run.

    A listener is an opaque id; what its body does to the same emitter while it is being
    called is given as a finite script of effects. `emit` copies the list, then calls
    the listeners of the copy in order; the effects of each call act on the LIVE list. */
module Reentrancy {
  import opened Registry

  /** One reentrant action a listener's body takes on the emitter that is calling it. */
  datatype Effect<L> =
    | Adds(listener: L)       // addListener(listener); the returned handle is kept or dropped
    | Releases(listener: L)   // dispose() on a handle this emitter issued for listener
    | Disposes                // dispose() on the emitter itself
    | Throws                  // the body throws: nothing after it runs

  /** The live list after one non-throwing effect. */
  function ApplyEffect<L(==)>(live: seq<L>, e: Effect<L>): seq<L>
  {
    match e
    case Adds(l) => live + [l]
    case Releases(l) => Release(live, l)
    case Disposes => []
    case Throws => live
  }

  /** The live list after a listener body, and whether the body threw. */
  datatype Outcome<L> = Outcome(live: seq<L>, threw: bool)

  /** Runs the effects of one listener body in order, stopping at the first `Throws`. */
  function RunBody<L(==)>(live: seq<L>, body: seq<Effect<L>>): Outcome<L>
    decreases |body|
  {
    if body == [] then Outcome(live, false)
    else
      var o := RunBody(live, body[..|body| - 1]);
      if o.threw then o
      else
        var e := body[|body| - 1];
        Outcome(ApplyEffect(o.live, e), e.Throws?)
  }

  /** The body of the listener called at step `i` of the emission (none past the script). */
  function BodyAt<L>(script: seq<seq<Effect<L>>>, i: nat): seq<Effect<L>>
  {
    if i < |script| then script[i] else []
  }

  /** The state of an emission part-way through: the listeners called so far, in call
      order, the live list, and whether a listener threw (which ends the emission). */
  datatype Progress<L> = Progress(delivered: seq<L>, live: seq<L>, aborted: bool)

  /** The first `k` steps of an emission over `snapshot` that started with live list `live`. */
  function Run<L(==)>(snapshot: seq<L>, live: seq<L>, script: seq<seq<Effect<L>>>, k: nat): (p: Progress<L>)
    requires k <= |snapshot|
  {
    if k == 0 then Progress([], live, false)
    else
      var p := Run(snapshot, live, script, k - 1);
      if p.aborted then p
      else
        var o := RunBody(p.live, BodyAt(script, k - 1));
        Progress(p.delivered + [snapshot[k - 1]], o.live, o.threw)
  }

  /** A whole `emit`: the snapshot is the live list at entry. */
  function Emission<L(==)>(listeners: seq<L>, script: seq<seq<Effect<L>>>): (p: Progress<L>)
    ensures |p.delivered| <= |listeners|
    ensures !p.aborted ==> |p.delivered| == |listeners|
  {
    RunDelivers(listeners, listeners, script, |listeners|);
    Run(listeners, listeners, script, |listeners|)
  }

  /** Whether step `i`'s listener throws. */
  predicate ThrowsAt<L(==)>(script: seq<seq<Effect<L>>>, i: nat)
  {
    Throws in BodyAt(script, i)
  }

  // ---------------------------------------------------------------------------------
  // One listener body

  /** A body throws exactly when it contains a `Throws`. */
  lemma {:induction false} RunBodyThrew<L>(live: seq<L>, body: seq<Effect<L>>)
    ensures RunBody(live, body).threw <==> Throws in body
  {
    if body != [] {
      var front := body[..|body| - 1];
      RunBodyThrew(live, front);
      assert body == front + [body[|body| - 1]];
    }
  }

  /** Running the first `j + 1` effects of a body is running the first `j`, then effect `j`
      unless the body has already thrown. */
  lemma RunBodyStep<L>(live: seq<L>, body: seq<Effect<L>>, j: nat)
    requires j < |body|
    ensures var o := RunBody(live, body[..j]);
      RunBody(live, body[..j + 1])
        == if o.threw then o else Outcome(ApplyEffect(o.live, body[j]), body[j].Throws?)
  {
    assert body[..j + 1][..j] == body[..j];
  }

  /** Once a body has thrown after its first `j` effects, the rest of it does not run. */
  lemma {:induction false} RunBodyStops<L>(live: seq<L>, body: seq<Effect<L>>, j: nat)
    requires j <= |body|
    requires RunBody(live, body[..j]).threw
    ensures RunBody(live, body) == RunBody(live, body[..j])
  {
    if j < |body| {
      var front := body[..|body| - 1];
      assert front[..j] == body[..j];
      RunBodyStops(live, front, j);
    } else {
      assert body[..j] == body;
    }
  }

  /** The listeners a body registers, in order. */
  function AddedBy<L>(body: seq<Effect<L>>): seq<L>
    requires forall e :: e in body ==> e.Adds?
  {
    if body == [] then [] else AddedBy(body[..|body| - 1]) + [body[|body| - 1].listener]
  }

  /** A body that only registers listeners appends them to the live list, in order. */
  lemma {:induction false} RunBodyAdds<L>(live: seq<L>, body: seq<Effect<L>>)
    requires forall e :: e in body ==> e.Adds?
    ensures RunBody(live, body) == Outcome(live + AddedBy(body), false)
  {
    if body != [] {
      var front := body[..|body| - 1];
      assert forall e :: e in front ==> e in body;
      RunBodyAdds(live, front);
    }
  }

  // ---------------------------------------------------------------------------------
  // Steps of an emission

  /** A prefix one longer is the shorter prefix and one more element. */
  lemma PrefixSnoc<T>(s: seq<T>, n: nat)
    requires 0 < n <= |s|
    ensures s[..n - 1] + [s[n - 1]] == s[..n]
  {
  }

  /** An aborted emission stays as it was: no later listener is called. */
  lemma {:induction false} RunStops<L>(snapshot: seq<L>, live: seq<L>, script: seq<seq<Effect<L>>>, k: nat, n: nat)
    requires k <= n <= |snapshot|
    requires Run(snapshot, live, script, k).aborted
    ensures Run(snapshot, live, script, n) == Run(snapshot, live, script, k)
  {
    if k < n {
      RunStops(snapshot, live, script, k, n - 1);
    }
  }

  /** The listeners called are a prefix of the snapshot, in snapshot order. Without an
      abort, the first `k` steps call exactly the first `k` snapshot entries; with one,
      the last listener called is the first whose body throws. */
  lemma {:induction false} RunDelivers<L>(snapshot: seq<L>, live: seq<L>, script: seq<seq<Effect<L>>>, k: nat)
    requires k <= |snapshot|
    ensures var p := Run(snapshot, live, script, k);
      && |p.delivered| <= k
      && p.delivered == snapshot[..|p.delivered|]
      && (!p.aborted ==> |p.delivered| == k && forall j :: 0 <= j < k ==> !ThrowsAt(script, j))
      && (p.aborted ==>
            0 < |p.delivered| && ThrowsAt(script, |p.delivered| - 1)
            && forall j :: 0 <= j < |p.delivered| - 1 ==> !ThrowsAt(script, j))
  {
    if k > 0 {
      RunDelivers(snapshot, live, script, k - 1);
      var p := Run(snapshot, live, script, k - 1);
      if !p.aborted {
        RunBodyThrew(p.live, BodyAt(script, k - 1));
        PrefixSnoc(snapshot, k);
      }
    }
  }

  /** Steps whose listeners do nothing to the emitter leave the live list alone. */
  lemma {:induction false} RunQuiet<L>(snapshot: seq<L>, live: seq<L>, script: seq<seq<Effect<L>>>, m: nat, n: nat)
    requires m <= n <= |snapshot|
    requires !Run(snapshot, live, script, m).aborted
    requires forall j :: m <= j < n ==> BodyAt(script, j) == []
    ensures Run(snapshot, live, script, n)
      == Progress(snapshot[..n], Run(snapshot, live, script, m).live, false)
  {
    if m < n {
      RunQuiet(snapshot, live, script, m, n - 1);
      var q := Run(snapshot, live, script, n - 1);
      assert RunBody(q.live, BodyAt(script, n - 1)) == Outcome(q.live, false);
      PrefixSnoc(snapshot, n);
    } else {
      RunDelivers(snapshot, live, script, m);
    }
  }

  /** The listeners registered by the first `k` bodies of a script that only registers. */
  function AddedDuring<L>(script: seq<seq<Effect<L>>>, k: nat): seq<L>
    requires forall j, e :: 0 <= j < k && e in BodyAt(script, j) ==> e.Adds?
  {
    if k == 0 then [] else AddedDuring(script, k - 1) + AddedBy(BodyAt(script, k - 1))
  }

  /** Steps whose listeners only register listeners append those to the live list. */
  lemma {:induction false} RunAdds<L>(snapshot: seq<L>, live: seq<L>, script: seq<seq<Effect<L>>>, k: nat)
    requires k <= |snapshot|
    requires forall j, e :: 0 <= j < k && e in BodyAt(script, j) ==> e.Adds?
    ensures Run(snapshot, live, script, k) == Progress(snapshot[..k], live + AddedDuring(script, k), false)
  {
    if k > 0 {
      RunAdds(snapshot, live, script, k - 1);
      var before := AddedDuring(script, k - 1);
      var body := BodyAt(script, k - 1);
      assert forall e :: e in body ==> e.Adds?;
      RunBodyAdds(live + before, body);
      assert (live + before) + AddedBy(body) == live + AddedDuring(script, k);
      PrefixSnoc(snapshot, k);
    }
  }

  // ---------------------------------------------------------------------------------
  // Whole emissions

  /** `emit` calls every listener of the list as it stood at entry, each once, in list
      order, whatever the listeners do to the emitter (registering, releasing handles,
      disposing it), unless one of them throws; then it calls exactly the entries up to
      and including the first listener that throws. */
  lemma EmissionDelivers<L>(listeners: seq<L>, script: seq<seq<Effect<L>>>)
    ensures var p := Emission(listeners, script);
      && (!p.aborted <==> forall j :: 0 <= j < |listeners| ==> !ThrowsAt(script, j))
      && (!p.aborted ==> p.delivered == listeners)
      && (p.aborted ==>
            exists n :: 0 < n <= |listeners| && p.delivered == listeners[..n]
              && ThrowsAt(script, n - 1) && forall j :: 0 <= j < n - 1 ==> !ThrowsAt(script, j))
  {
    RunDelivers(listeners, listeners, script, |listeners|);
    var p := Emission(listeners, script);
    if p.aborted {
      var n := |p.delivered|;
      assert ThrowsAt(script, n - 1);
    }
  }

  /** `emit` itself never changes the list: when no listener acts on the emitter, the
      live list afterwards is the list at entry. */
  lemma EmissionQuiet<L>(listeners: seq<L>, script: seq<seq<Effect<L>>>)
    requires forall j :: 0 <= j < |listeners| ==> BodyAt(script, j) == []
    ensures Emission(listeners, script) == Progress(listeners, listeners, false)
  {
    RunQuiet(listeners, listeners, script, 0, |listeners|);
    assert listeners[..|listeners|] == listeners;
  }

  /** Only entries of the list at entry are called: whatever the listeners register
      during the emission, a listener not registered at entry is not called by it. */
  lemma OnlyEntriesCalled<L>(listeners: seq<L>, script: seq<seq<Effect<L>>>, l: L)
    ensures l in Emission(listeners, script).delivered ==> l in listeners
  {
    RunDelivers(listeners, listeners, script, |listeners|);
  }

  /** Listeners registered during an emission are appended to the live list, in the
      order they were registered, and are not called by that emission. */
  lemma EmissionAdds<L>(listeners: seq<L>, script: seq<seq<Effect<L>>>)
    requires forall j, e :: 0 <= j < |listeners| && e in BodyAt(script, j) ==> e.Adds?
    ensures Emission(listeners, script)
      == Progress(listeners, listeners + AddedDuring(script, |listeners|), false)
  {
    RunAdds(listeners, listeners, script, |listeners|);
    assert listeners[..|listeners|] == listeners;
  }

  /** A listener first registered during an emission is not called by it, is registered
      afterwards, and is called by the next emission. */
  lemma AddedListenerWaits<L>(listeners: seq<L>, script: seq<seq<Effect<L>>>, l: L)
    requires forall j, e :: 0 <= j < |listeners| && e in BodyAt(script, j) ==> e.Adds?
    requires l in AddedDuring(script, |listeners|) && l !in listeners
    ensures var p := Emission(listeners, script);
      && l !in p.delivered
      && l in p.live
      && l in Emission(p.live, []).delivered
  {
    EmissionAdds(listeners, script);
    var live := listeners + AddedDuring(script, |listeners|);
    EmissionQuiet(live, []);
  }

  /** A listener that disposes the emitter mid-emission does not stop the emission:
      the later listeners of the snapshot are still called, and when nobody registers
      again the emitter ends with no listeners. */
  lemma DisposeMidEmission<L>(listeners: seq<L>, script: seq<seq<Effect<L>>>, k: nat)
    requires k < |listeners|
    requires forall j :: 0 <= j < |listeners| ==> !ThrowsAt(script, j)
    requires BodyAt(script, k) != [] && BodyAt(script, k)[|BodyAt(script, k)| - 1] == Disposes
    requires forall j :: k < j < |listeners| ==> BodyAt(script, j) == []
    ensures Emission(listeners, script) == Progress(listeners, [], false)
  {
    var body := BodyAt(script, k);
    var front := body[..|body| - 1];
    RunDelivers(listeners, listeners, script, k);
    var p := Run(listeners, listeners, script, k);
    assert !p.aborted;
    assert Throws !in front by {
      assert !ThrowsAt(script, k);
      assert forall e :: e in front ==> e in body;
    }
    RunBodyThrew(p.live, front);
    assert body[..|body|] == body;
    RunBodyStep(p.live, body, |body| - 1);
    assert RunBody(p.live, body) == Outcome([], false);
    assert Run(listeners, listeners, script, k + 1).live == [];
    RunQuiet(listeners, listeners, script, k + 1, |listeners|);
    assert listeners[..|listeners|] == listeners;
  }

  /** A listener that releases a handle mid-emission does not change who this emission
      calls: every snapshot entry is still called, including the released listener if it
      comes later. Only the live list changes, so a listener registered once is not
      called by the next emission. */
  lemma ReleaseMidEmission<L>(listeners: seq<L>, script: seq<seq<Effect<L>>>, k: nat, l: L)
    requires k < |listeners|
    requires BodyAt(script, k) == [Releases(l)]
    requires forall j :: 0 <= j < |listeners| && j != k ==> BodyAt(script, j) == []
    ensures Emission(listeners, script) == Progress(listeners, Release(listeners, l), false)
    ensures multiset(listeners)[l] == 1 ==> l !in Emission(Release(listeners, l), []).delivered
  {
    RunQuiet(listeners, listeners, script, 0, k);
    var body := BodyAt(script, k);
    RunBodyStep(listeners, body, 0);
    assert body[..0] == [] && body[..1] == body;
    assert RunBody(listeners, body) == Outcome(Release(listeners, l), false);
    RunQuiet(listeners, listeners, script, k + 1, |listeners|);
    assert listeners[..|listeners|] == listeners;
    EmissionQuiet(Release(listeners, l), []);
    if multiset(listeners)[l] == 1 {
      ReleasePresent(listeners, l);
      assert multiset(Release(listeners, l))[l] == 0;
    }
  }
}
