/** Sequence reversal (Python's `list.reverse()`), shared by the activity
    log and the descending market sort. */
module Seqs {

  /** `s` read back to front. */
  function Reverse<T>(s: seq<T>): (r: seq<T>)
    ensures |r| == |s|
    ensures forall i :: 0 <= i < |s| ==> r[i] == s[|s| - 1 - i]
  {
    if s == [] then [] else Reverse(s[1..]) + [s[0]]
  }

  /** Reversal keeps every element the same number of times. */
  lemma {:induction false} ReversePermutes<T>(s: seq<T>)
    ensures multiset(Reverse(s)) == multiset(s)
  {
    if s != [] {
      ReversePermutes(s[1..]);
      assert s == [s[0]] + s[1..];
    }
  }

  /** Reversing a concatenation reverses and swaps the pieces. */
  lemma ReverseConcat<T>(a: seq<T>, b: seq<T>)
    ensures Reverse(a + b) == Reverse(b) + Reverse(a)
  {
  }

  /** A pair read backwards. */
  lemma ReversePair<T>(x: T, y: T)
    ensures Reverse([x, y]) == [y, x]
  {
    var r := Reverse([x, y]);
    assert r[0] == y && r[1] == x;
  }
}
