/** Client code driving the emitter through its usage scenarios; each assertion
    follows from the contracts of `ValueEmitter`, `Handle` and the lemmas alone. */
module Scenarios {
  import opened Registry
  import opened Reentrancy
  import opened ValueEmitters

  /** Listeners are called in registration order; a released listener is not called again. */
  method OrderThenRelease<L(==)>(a: L, b: L)
    requires a != b
  {
    var e := new ValueEmitter<int, L>();
    var h1 := e.AddListener(a);
    var h2 := e.AddListener(b);
    assert e.listeners == [a, b];
    EmissionQuiet([a, b], []);
    var d, ok := e.Emit(5, []);
    CallsFollowList([a, b], 5);
    assert d == [Call(a, 5), Call(b, 5)] && ok;
    ReleaseTwiceDropsOther(a, b);
    h1.Dispose();
    assert e.listeners == [b];
    EmissionQuiet([b], []);
    d, ok := e.Emit(7, []);
    assert d == [Call(b, 7)];
  }

  /** With `a` registered, `a` registering `b` during the emission calls `a` only and
      leaves `[a, b]` registered. */
  lemma AddDuringEmission<L>(a: L, b: L)
    ensures Emission([a], [[Adds(b)]]) == Progress([a], [a, b], false)
  {
    var script := [[Adds(b)]];
    assert BodyAt(script, 0) == [Adds(b)];
    assert AddedBy([Adds(b)]) == [b] by {
      assert [Adds(b)][..0] == [];
    }
    assert AddedDuring(script, 1) == [b];
    EmissionAdds([a], script);
  }

  /** A listener registered by a listener during an emission waits for the next one. */
  method AddDuringEmit<L(==)>(a: L, b: L) {
    var e := new ValueEmitter<int, L>();
    var h := e.AddListener(a);
    AddDuringEmission(a, b);
    var d, ok := e.Emit(1, [[Adds(b)]]);
    assert d == Calls([a], 1) && e.listeners == [a, b];
    EmissionQuiet([a, b], []);
    d, ok := e.Emit(2, []);
    CallsFollowList([a, b], 2);
    assert d == [Call(a, 2), Call(b, 2)];
  }

  /** With `a` and `b` registered, `a` releasing `b`'s handle still calls both, and
      leaves `[a]` registered. */
  lemma ReleaseDuringEmission<L>(a: L, b: L)
    requires a != b
    ensures Emission([a, b], [[Releases(b)]]) == Progress([a, b], [a], false)
  {
    var script := [[Releases(b)]];
    assert BodyAt(script, 1) == [];
    ReleaseMidEmission([a, b], script, 0, b);
    ReleasePresent([a, b], b);
  }

  /** A listener released by an earlier listener during an emission is still called by it. */
  method ReleaseDuringEmit<L(==)>(a: L, b: L)
    requires a != b
  {
    var e := new ValueEmitter<int, L>();
    var h1 := e.AddListener(a);
    var h2 := e.AddListener(b);
    assert e.listeners == [a, b];
    ReleaseDuringEmission(a, b);
    var d, ok := e.Emit(1, [[Releases(b)]]);
    CallsFollowList([a, b], 1);
    assert d == [Call(a, 1), Call(b, 1)] && e.listeners == [a];
    EmissionQuiet([a], []);
    d, ok := e.Emit(2, []);
    assert d == Calls([a], 2);
  }

  /** A listener disposing the emitter does not stop the running emission. */
  method DisposeDuringEmit<L(==)>(a: L, b: L) {
    var e := new ValueEmitter<int, L>();
    var h1 := e.AddListener(a);
    var h2 := e.AddListener(b);
    assert e.listeners == [a, b];
    DisposeMidEmission([a, b], [[Disposes]], 0);
    var d, ok := e.Emit(1, [[Disposes]]);
    CallsFollowList([a, b], 1);
    assert d == [Call(a, 1), Call(b, 1)] && e.listeners == [];
    EmissionQuiet<L>([], []);
    d, ok := e.Emit(2, []);
    assert d == [];
  }

  /** Releasing one handle twice removes a listener whose handle was never released. */
  method DoubleRelease<L(==)>(a: L, b: L)
    requires a != b
  {
    var e := new ValueEmitter<int, L>();
    var h1 := e.AddListener(a);
    var h2 := e.AddListener(b);
    ReleaseTwiceDropsOther(a, b);
    h1.Dispose();
    assert e.listeners == [b];
    h1.Dispose();
    assert e.listeners == [];
  }

  /** Disposing twice leaves the emitter empty, and registering afterwards is not blocked:
      the new listener is called by the next emission. */
  method RegisterAfterDispose<L(==)>(a: L, c: L)
    requires a != c
  {
    var e := new ValueEmitter<int, L>();
    var h1 := e.AddListener(a);
    e.Dispose();
    e.Dispose();
    assert e.listeners == [];
    var h2 := e.AddListener(c);
    EmissionQuiet([c], []);
    var d, ok := e.Emit(3, []);
    assert d == [Call(c, 3)];
    // the old handle now finds nothing and splices the last entry out
    ReleaseAbsent([c], a);
    h1.Dispose();
    assert e.listeners == [];
  }

  /** With `a` and `b` registered, `a` throwing ends the emission after calling `a`
      only, and the list is unchanged. */
  lemma ThrowDuringEmission<L>(a: L, b: L)
    ensures Emission([a, b], [[Throws]]) == Progress([a], [a, b], true)
  {
    var script := [[Throws]];
    assert RunBody([a, b], [Throws]) == Outcome([a, b], true);
    assert Run([a, b], [a, b], script, 1) == Progress([a], [a, b], true);
    RunStops([a, b], [a, b], script, 1, 2);
  }

  /** A listener that throws ends the emission: the listeners after it are not called. */
  method ThrowDuringEmit<L(==)>(a: L, b: L) {
    var e := new ValueEmitter<int, L>();
    var h1 := e.AddListener(a);
    var h2 := e.AddListener(b);
    assert e.listeners == [a, b];
    ThrowDuringEmission(a, b);
    var d, ok := e.Emit(4, [[Throws]]);
    assert d == Calls([a], 4) && !ok && e.listeners == [a, b];
  }
}
