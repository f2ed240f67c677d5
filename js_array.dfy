/** The two JavaScript array built-ins the emitter relies on, on values:
    `Array.prototype.indexOf` (strict equality) and `Array.prototype.splice`
    with a delete count of one, as ECMAScript defines them. */
module JsArray {

  /** `s.indexOf(x)`: the leftmost index holding `x`, or -1 when there is none. */
  function IndexOf<T(==)>(s: seq<T>, x: T): (r: int)
    ensures -1 <= r < |s|
    ensures r == -1 <==> x !in s
    ensures 0 <= r ==> s[r] == x && x !in s[..r]
  {
    if s == [] then -1
    else if s[0] == x then 0
    else
      var k := IndexOf(s[1..], x);
      if k == -1 then -1
      else
        assert s[..k + 1] == [s[0]] + s[1..][..k];
        k + 1
  }

  /** The index at which `splice(start, ...)` starts on an array of length `len`:
      a negative start counts back from the end, and both ends are clamped. */
  function SpliceStart(len: nat, start: int): (k: nat)
    ensures k <= len
    ensures k < len <==> 0 < len && start < len
  {
    if start < 0 then (if len + start < 0 then 0 else len + start)
    else if start < len then start
    else len
  }

  /** The array `s` after `s.splice(start, 1)`: the element at the effective start
      is removed if there is one, and every other element keeps its order. */
  function SpliceOne<T>(s: seq<T>, start: int): (r: seq<T>)
    ensures var k := SpliceStart(|s|, start);
      && |r| == (if k < |s| then |s| - 1 else |s|)
      && (forall j :: 0 <= j < k && j < |r| ==> r[j] == s[j])
      && (forall j :: k <= j < |r| ==> r[j] == s[j + 1])
  {
    var k := SpliceStart(|s|, start);
    if k < |s| then s[..k] + s[k + 1..] else s
  }

  /** `splice(-1, 1)`, what the emitter's handle runs when `indexOf` found nothing:
      it drops the last element of a non-empty array and leaves an empty one alone. */
  lemma SpliceMinusOne<T>(s: seq<T>)
    ensures SpliceOne(s, -1) == if s == [] then [] else s[..|s| - 1]
  {
  }
}
