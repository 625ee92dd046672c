/**
 * The bounded FIFO list the dashboard uses everywhere it keeps recent items: the
 * sample buffer (1000), each metric's history (100), the alert log (50) and a chart's
 * data window (50). Every one of them does `list.push(x)` and then, if the length
 * now exceeds the capacity, `list.shift()`.
 */
module Window {
  import Js

  /** `s.push(x); if (s.length > cap) s.shift();` */
  function PushBounded<T>(s: seq<T>, x: T, cap: nat): (r: seq<T>)
  {
    var t := s + [x];
    if |t| > cap then t[1..] else t
  }

  /** The last `cap` elements of `s`, or all of `s` when it is no longer than `cap`. */
  function Newest<T>(s: seq<T>, cap: nat): (r: seq<T>)
    ensures |r| == Js.Min(|s|, cap)
  {
    if |s| <= cap then s else s[|s| - cap..]
  }

  /** One push keeps the list within its capacity, puts `x` last, and on overflow removes exactly the oldest element. */
  lemma PushBoundedSpec<T>(s: seq<T>, x: T, cap: nat)
    requires 1 <= cap
    requires |s| <= cap
    ensures |PushBounded(s, x, cap)| <= cap
    ensures |PushBounded(s, x, cap)| == Js.Min(|s| + 1, cap)
    ensures PushBounded(s, x, cap)[|PushBounded(s, x, cap)| - 1] == x
    ensures |s| < cap ==> PushBounded(s, x, cap) == s + [x]
    ensures |s| == cap ==> PushBounded(s, x, cap) == s[1..] + [x]
    ensures PushBounded(s, x, cap) == Newest(s + [x], cap)
  {
  }

  /** Successive pushes of the elements of `xs`, in order. */
  function PushAll<T>(s: seq<T>, xs: seq<T>, cap: nat): seq<T>
    decreases |xs|
  {
    if xs == [] then s else PushAll(PushBounded(s, xs[0], cap), xs[1..], cap)
  }

  lemma PushAllOne<T>(s: seq<T>, x: T, cap: nat)
    ensures PushAll(s, [x], cap) == PushBounded(s, x, cap)
  {
    assert [x][1..] == [];
  }

  lemma NewestOfNewest<T>(s: seq<T>, t: seq<T>, cap: nat)
    ensures Newest(Newest(s, cap) + t, cap) == Newest(s + t, cap)
  {
    if |s| > cap {
      var u := Newest(s, cap);
      if |u + t| > cap {
        assert (u + t)[|u + t| - cap..] == (s + t)[|s + t| - cap..];
      }
    }
  }

  /** Any run of pushes into a list within capacity leaves exactly the newest `cap` of all elements ever pushed. */
  lemma {:induction false} PushAllKeepsNewest<T>(s: seq<T>, xs: seq<T>, cap: nat)
    requires |s| <= cap
    ensures PushAll(s, xs, cap) == Newest(s + xs, cap)
    decreases |xs|
  {
    if xs == [] {
      assert s + xs == s;
    } else {
      var s' := PushBounded(s, xs[0], cap);
      assert s' == Newest(s + [xs[0]], cap);
      PushAllKeepsNewest(s', xs[1..], cap);
      NewestOfNewest(s + [xs[0]], xs[1..], cap);
      assert s + [xs[0]] + xs[1..] == s + xs;
    }
  }

  /** From an empty list, after `n > cap` pushes only the last `cap` survive: the first one pushed is gone when it was distinct from the survivors. */
  lemma FillFromEmpty<T>(xs: seq<T>, cap: nat)
    ensures |PushAll([], xs, cap)| == Js.Min(|xs|, cap)
    ensures |xs| > cap ==> PushAll([], xs, cap) == xs[|xs| - cap..]
    ensures |xs| > cap && xs[0] !in xs[1..] ==> xs[0] !in PushAll([], xs, cap)
  {
    PushAllKeepsNewest([], xs, cap);
    assert [] + xs == xs;
    if |xs| > cap && xs[0] !in xs[1..] {
      assert xs[|xs| - cap..] == xs[1..][|xs| - 1 - cap..];
    }
  }

  /** Pushing `xs` and then `ys` is pushing `xs + ys`. */
  lemma {:induction false} PushAllAppend<T>(s: seq<T>, xs: seq<T>, ys: seq<T>, cap: nat)
    ensures PushAll(s, xs + ys, cap) == PushAll(PushAll(s, xs, cap), ys, cap)
    decreases |xs|
  {
    if xs == [] {
      assert xs + ys == ys;
    } else {
      assert (xs + ys)[0] == xs[0] && (xs + ys)[1..] == xs[1..] + ys;
      PushAllAppend(PushBounded(s, xs[0], cap), xs[1..], ys, cap);
    }
  }

  /** A list reached by pushing `xs` and then `ys` is the one reached by pushing `xs + ys`. */
  lemma PushAllThen<T>(s: seq<T>, xs: seq<T>, ys: seq<T>, mid: seq<T>, after: seq<T>, cap: nat)
    requires mid == PushAll(s, xs, cap) && after == PushAll(mid, ys, cap)
    ensures after == PushAll(s, xs + ys, cap)
  {
    PushAllAppend(s, xs, ys, cap);
  }
}
