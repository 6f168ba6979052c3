/** Small sequence helpers shared by the segmenters and the summary assembly. */
module Seqs {

  function Min(a: int, b: int): (m: int)
    ensures m <= a && m <= b
    ensures m == a || m == b
  {
    if a <= b then a else b
  }

  /** Flattens a sequence of sequences, keeping their order. */
  function Concat<T>(ss: seq<seq<T>>): seq<T>
  {
    if |ss| == 0 then [] else ss[0] + Concat(ss[1..])
  }

  /** Flattening distributes over appending two sequences of pieces. */
  lemma {:induction false} ConcatAppend<T>(a: seq<seq<T>>, b: seq<seq<T>>)
    ensures Concat(a + b) == Concat(a) + Concat(b)
    decreases |a|
  {
    if |a| == 0 {
      assert a + b == b;
    } else {
      assert (a + b)[1..] == a[1..] + b;
      ConcatAppend(a[1..], b);
    }
  }

  /** The total length of the flattened sequence is the sum of the piece lengths;
      in particular it is empty exactly when every piece is empty. */
  lemma {:induction false} ConcatEmpty<T>(ss: seq<seq<T>>)
    ensures |Concat(ss)| == 0 <==> forall i :: 0 <= i < |ss| ==> |ss[i]| == 0
    decreases |ss|
  {
    if |ss| > 0 {
      ConcatEmpty(ss[1..]);
      assert forall i :: 1 <= i < |ss| ==> ss[i] == ss[1..][i - 1];
    }
  }
}
