/**
  Small facts about sequences shared by the queue, dispatch, retry and
  navigation models.
 */
module Seqs {
  /** `n` copies of `x`. */
  function Repeat<T>(x: T, n: nat): (r: seq<T>)
    ensures |r| == n
    ensures forall i :: 0 <= i < n ==> r[i] == x
  {
    if n == 0 then [] else [x] + Repeat(x, n - 1)
  }

  /** One more copy can go at either end. */
  lemma RepeatSnoc<T>(x: T, n: nat)
    ensures Repeat(x, n) + [x] == Repeat(x, n + 1)
  {
    assert forall i :: 0 <= i <= n ==> (Repeat(x, n) + [x])[i] == x;
  }

  lemma AppendAssoc<T>(f: seq<T>, x: seq<T>, y: seq<T>)
    ensures f + (x + y) == (f + x) + y
  {
  }

  lemma ConsAppend<T>(a: seq<T>, b: seq<T>)
    requires |a| > 0
    ensures (a + b)[0] == a[0] && (a + b)[1..] == a[1..] + b
  {
  }
}
