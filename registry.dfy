/** What releasing a registration handle does to the emitter's listener list.
    The handle remembers only its emitter and its listener; on release it looks the
    listener up with `indexOf` in whatever list the emitter holds at that moment and
    splices one element out at the index it got back. */
module Registry {
  import opened JsArray

  /** The listener list after a handle for `l` is released:
      `listeners.splice(listeners.indexOf(l), 1)`. */
  function Release<L(==)>(listeners: seq<L>, l: L): (r: seq<L>)
    ensures |r| == if listeners == [] then 0 else |listeners| - 1
  {
    SpliceOne(listeners, IndexOf(listeners, l))
  }

  /** Taking out the element at index `k` takes one copy of it out of the multiset. */
  lemma MultisetRemoveAt<L>(s: seq<L>, k: nat)
    requires k < |s|
    ensures multiset(s[..k] + s[k + 1..]) == multiset(s) - multiset{s[k]}
  {
    assert s == s[..k] + [s[k]] + s[k + 1..];
  }

  /** Releasing a registered listener removes exactly its first occurrence: the list is
      one shorter, loses one copy of `l`, and every other entry keeps its relative order. */
  lemma ReleasePresent<L>(listeners: seq<L>, l: L)
    requires l in listeners
    ensures var k := IndexOf(listeners, l);
      && 0 <= k < |listeners| && listeners[k] == l && l !in listeners[..k]
      && Release(listeners, l) == listeners[..k] + listeners[k + 1..]
      && multiset(Release(listeners, l)) == multiset(listeners) - multiset{l}
  {
    var k := IndexOf(listeners, l);
    var rest := listeners[..k] + listeners[k + 1..];
    assert SpliceStart(|listeners|, k) == k;
    assert SpliceOne(listeners, k) == rest;
    assert Release(listeners, l) == rest;
    MultisetRemoveAt(listeners, k);
  }

  /** Adding a listener that was not registered and releasing its handle straight away
      gives back the list as it was. */
  lemma AddThenRelease<L>(listeners: seq<L>, l: L)
    requires l !in listeners
    ensures Release(listeners + [l], l) == listeners
  {
  }

  /** Releasing a listener that is not registered (already released, or dropped by the
      emitter's `dispose`) is not a no-op: `indexOf` gives -1 and `splice(-1, 1)` removes
      the LAST entry of a non-empty list; only an empty list is left unchanged. */
  lemma ReleaseAbsent<L>(listeners: seq<L>, l: L)
    requires l !in listeners
    ensures Release(listeners, l) == if listeners == [] then [] else listeners[..|listeners| - 1]
  {
  }

  /** Release is not idempotent: releasing the handle of a listener registered once, a
      second time, removes another listener, namely the one that is now last. */
  lemma ReleaseTwice<L>(listeners: seq<L>, l: L)
    requires multiset(listeners)[l] == 1
    requires 2 <= |listeners|
    ensures var once := Release(listeners, l);
      && l !in once
      && Release(once, l) == once[..|once| - 1]
      && Release(once, l) != once
  {
    ReleasePresent(listeners, l);
    var once := Release(listeners, l);
    assert multiset(once)[l] == 0;
    ReleaseAbsent(once, l);
  }

  /** The smallest instance: with handles for `a` and `b` issued, releasing `a`'s handle
      twice leaves nobody registered, although `b`'s handle was never released. */
  lemma ReleaseTwiceDropsOther<L>(a: L, b: L)
    requires a != b
    ensures Release([a, b], a) == [b]
    ensures Release(Release([a, b], a), a) == []
  {
    ReleasePresent([a, b], a);
    ReleaseAbsent([b], a);
  }
}
