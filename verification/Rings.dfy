// Array slots used as a ring, shared by the sent-frame buffer of a CS 104 connection and the CS 101 queue.
module Rings {

  /** The entries from slot `oldest` to slot `newest`, wrapping at the end; none when oldest is -1. */
  ghost function Ring<T>(a: seq<T>, oldest: int, newest: int): seq<T>
    requires oldest == -1 || (0 <= oldest < |a| && 0 <= newest < |a|)
  {
    if oldest == -1 then []
    else if oldest <= newest then a[oldest..newest + 1]
    else a[oldest..] + a[..newest + 1]
  }

  /** The slot behind slot i of k. */
  function Following(i: nat, k: nat): nat
    requires k > 0
  {
    (i + 1) % k
  }

  lemma FollowingWraps(i: nat, k: nat)
    requires i < k
    ensures Following(i, k) == if i + 1 == k then 0 else i + 1
  {
    if i + 1 < k { assert (i + 1) / k == 0; } else { assert k / k == 1; }
  }

  /** Moving `oldest` on removes the head; the slot behind `newest` is reached exactly when nothing is left. */
  lemma RingAdvance<T>(a: seq<T>, oldest: nat, newest: nat)
    requires oldest < |a| && newest < |a|
    ensures var next := Following(oldest, |a|);
            && next < |a| && Ring(a, oldest, newest) != [] && Ring(a, oldest, newest)[0] == a[oldest]
            && (next == Following(newest, |a|) <==> oldest == newest)
            && Ring(a, oldest, newest)[1..] == if oldest == newest then [] else Ring(a, next, newest)
  {
    FollowingWraps(oldest, |a|);
    FollowingWraps(newest, |a|);
    var next := Following(oldest, |a|);
    if oldest > newest && next == 0 {
      assert a[oldest..] == [a[oldest]];
    }
  }

  /** The buffer is full exactly when the slot behind `newest` is `oldest`; otherwise storing there appends. */
  lemma RingAppend<T>(a: seq<T>, oldest: nat, newest: nat, x: T)
    requires oldest < |a| && newest < |a|
    ensures var next := Following(newest, |a|);
            && next < |a| && (next == oldest <==> |Ring(a, oldest, newest)| == |a|)
            && (next != oldest ==> Ring(a[next := x], oldest, next) == Ring(a, oldest, newest) + [x])
  {
    FollowingWraps(newest, |a|);
    var next := Following(newest, |a|);
    if next != oldest {
      var b := a[next := x];
      if oldest <= newest {
        if next == 0 {
          assert b[oldest..] == a[oldest..newest + 1];
        }
      } else {
        assert b[..next + 1] == a[..newest + 1] + [x];
      }
    }
  }

  /** Storing into a full ring behind `newest` and moving `oldest` on drops the head. */
  lemma RingReplace<T>(a: seq<T>, oldest: nat, newest: nat, x: T)
    requires oldest < |a| && newest < |a| && |Ring(a, oldest, newest)| == |a|
    ensures var next := Following(newest, |a|);
            var first := Following(next, |a|);
            && next < |a| && first < |a| && next == oldest
            && Ring(a[next := x], first, next) == Ring(a, oldest, newest)[1..] + [x]
  {
    hide Following;
    FollowingWraps(newest, |a|);
    var next := Following(newest, |a|);
    FollowingWraps(next, |a|);
    var first, b := Following(next, |a|), a[next := x];
    assert next == oldest;
    if oldest == 0 {
      assert Ring(a, oldest, newest) == a;
      if |a| > 1 {
        assert b[1..] == a[1..] && b[..1] == [x];
      }
    } else if first == 0 {
      assert b == a[..next] + [x];
      assert Ring(a, oldest, newest)[1..] == a[..next];
    } else {
      assert b[first..] == a[first..] && b[..first] == a[..next] + [x];
      assert Ring(a, oldest, newest)[1..] == a[first..] + a[..next];
    }
  }
}
