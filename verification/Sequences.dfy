/** Rearranging sequences. */
module Sequences {
  lemma Associate<T>(x: seq<T>, y: seq<T>, z: seq<T>)
    ensures x + (y + z) == (x + y) + z
  {
  }

  lemma Split<T>(x: seq<T>, n: nat)
    requires n <= |x|
    ensures x[..n] + x[n..] == x
  {
  }

  lemma DropPast<T>(x: seq<T>, y: seq<T>, n: nat)
    requires |x| <= n <= |x| + |y|
    ensures (x + y)[n..] == y[n - |x|..]
  {
  }

  lemma DropTwice<T>(x: seq<T>, m: nat, n: nat)
    requires m + n <= |x|
    ensures x[m..][n..] == x[m + n..]
  {
  }

  lemma MoveHead<T>(a: seq<T>, b: seq<T>, n: nat)
    requires n < |b|
    ensures (a + [b[0]]) + b[1..][..n] == a + b[..n + 1]
  {
  }
}
