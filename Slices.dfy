/** Facts about slices of concatenated sequences, shared by the string proofs. */
module Slices {
  /** A slice lying in the right operand of `x + y` is the same slice of `y`, shifted by `|x|`. */
  lemma SliceOfRight<T>(x: seq<T>, y: seq<T>, o: nat, n: nat)
    requires o + n <= |y|
    ensures (x + y)[|x| + o..|x| + o + n] == y[o..o + n]
  {
    var l, r := (x + y)[|x| + o..|x| + o + n], y[o..o + n];
    assert forall t :: 0 <= t < n ==> l[t] == r[t];
  }

  /** A slice lying in the left operand of `x + y` is the same slice of `x`. */
  lemma SliceOfLeft<T>(x: seq<T>, y: seq<T>, o: nat, n: nat)
    requires o + n <= |x|
    ensures (x + y)[o..o + n] == x[o..o + n]
  {
    var l, r := (x + y)[o..o + n], x[o..o + n];
    assert forall t :: 0 <= t < n ==> l[t] == r[t];
  }

  /** Putting an element in front of `x + sep + y`, grouped either way, gives the same sequence. */
  lemma ConsRegroup<T>(c: T, x: seq<T>, sep: seq<T>, y: seq<T>)
    ensures [c] + x + sep + y == [c] + (x + sep + y)
  {
  }
}
