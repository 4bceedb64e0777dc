/** The bounded, overwriting queue both ring buffers implement. */
module BoundedQueue {
  /** The last `cap` elements of a sequence. */
  function Last<T>(s: seq<T>, cap: nat): (r: seq<T>)
    ensures |r| <= cap
  {
    if |s| <= cap then s else s[|s| - cap..]
  }

  /** Appends an element; the oldest one goes if there is no room. */
  function Push<T>(s: seq<T>, x: T, cap: nat): seq<T> {
    Last(s + [x], cap)
  }

  lemma PushIs<T>(s: seq<T>, x: T, cap: nat)
    requires |s| <= cap && 0 < cap
    ensures Push(s, x, cap) == if |s| < cap then s + [x] else s[1..] + [x]
  {
    if |s| == cap {
      assert (s + [x])[1..] == s[1..] + [x];
    }
  }

  function PushAll<T>(s: seq<T>, xs: seq<T>, cap: nat): seq<T>
    decreases |xs|
  {
    if xs == [] then s else PushAll(Push(s, xs[0], cap), xs[1..], cap)
  }

  lemma LastOfRest<T>(s: seq<T>, cap: nat)
    requires cap < |s|
    ensures Last(s[1..], cap) == Last(s, cap)
  {
    assert s[1..][|s| - 1 - cap..] == s[|s| - cap..];
  }

  /** Only the last `cap` of everything that was ever appended is left, in order. */
  lemma {:induction false} PushAllKeepsLast<T>(s: seq<T>, xs: seq<T>, cap: nat)
    requires |s| <= cap
    ensures PushAll(s, xs, cap) == Last(s + xs, cap)
    decreases |xs|
  {
    if xs == [] {
      assert s + xs == s;
    } else {
      PushAllKeepsLast(Push(s, xs[0], cap), xs[1..], cap);
      var all := s + xs;
      assert (s + [xs[0]]) + xs[1..] == all;
      if |s| == cap {
        assert Push(s, xs[0], cap) + xs[1..] == all[1..];
        LastOfRest(all, cap);
      }
    }
  }
}
