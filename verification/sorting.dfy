/** The hand-written three-way quicksort of the market view, over any
    element type and any numeric sort key, and the stable descending order
    the leaderboard gets from Python's `sort(key=..., reverse=True)`. */
module Sorting {

  import opened Seqs

  /** Keys never decrease from left to right. */
  ghost predicate Sorted<T>(s: seq<T>, key: T -> real) {
    forall i, j :: 0 <= i < j < |s| ==> key(s[i]) <= key(s[j])
  }

  /** Keys never increase from left to right. */
  ghost predicate SortedDescending<T>(s: seq<T>, key: T -> real) {
    forall i, j :: 0 <= i < j < |s| ==> key(s[i]) >= key(s[j])
  }

  /** `[x for x in s if key(x) < pv]`. */
  function Below<T>(s: seq<T>, key: T -> real, pv: real): (r: seq<T>)
  {
    if s == [] then []
    else (if key(s[0]) < pv then [s[0]] else []) + Below(s[1..], key, pv)
  }

  /** `[x for x in s if key(x) == k]`: the elements with key `k`, in order. */
  function At<T>(s: seq<T>, key: T -> real, k: real): (r: seq<T>)
  {
    if s == [] then []
    else (if key(s[0]) == k then [s[0]] else []) + At(s[1..], key, k)
  }

  /** `[x for x in s if key(x) > pv]`. */
  function Above<T>(s: seq<T>, key: T -> real, pv: real): (r: seq<T>)
  {
    if s == [] then []
    else (if key(s[0]) > pv then [s[0]] else []) + Above(s[1..], key, pv)
  }

  /** The group of key `k` holds exactly the elements of `s` with key `k`. */
  lemma {:induction false} AtMembers<T>(s: seq<T>, key: T -> real, k: real)
    ensures forall i :: 0 <= i < |At(s, key, k)| ==> At(s, key, k)[i] in s && key(At(s, key, k)[i]) == k
    ensures forall i :: 0 <= i < |s| && key(s[i]) == k ==> s[i] in At(s, key, k)
  {
    if s != [] {
      AtMembers(s[1..], key, k);
      var h := if key(s[0]) == k then [s[0]] else [];
      assert At(s, key, k) == h + At(s[1..], key, k);
      assert forall i :: 1 <= i < |s| ==> s[i] == s[1..][i - 1];
    }
  }

  /** Every element of the strictly smaller part is below the pivot key. */
  lemma {:induction false} BelowBound<T>(s: seq<T>, key: T -> real, pv: real)
    ensures AllBelow(Below(s, key, pv), key, pv)
  {
    if s != [] {
      BelowBound(s[1..], key, pv);
    }
  }

  /** Every element of the strictly larger part is above the pivot key. */
  lemma {:induction false} AboveBound<T>(s: seq<T>, key: T -> real, pv: real)
    ensures AllAbove(Above(s, key, pv), key, pv)
  {
    if s != [] {
      AboveBound(s[1..], key, pv);
    }
  }

  /** The three parts together hold every element of `s` exactly once. */
  lemma {:induction false} PartitionIsPermutation<T>(s: seq<T>, key: T -> real, pv: real)
    ensures multiset(Below(s, key, pv)) + multiset(At(s, key, pv)) + multiset(Above(s, key, pv)) == multiset(s)
  {
    if s != [] {
      PartitionIsPermutation(s[1..], key, pv);
      assert s == [s[0]] + s[1..];
    }
  }

  /** Selecting one key from a sequence that starts with `x`. */
  lemma AtCons<T>(x: T, s: seq<T>, key: T -> real, k: real)
    ensures At([x] + s, key, k) == (if key(x) == k then [x] else []) + At(s, key, k)
  {
    assert ([x] + s)[0] == x;
    assert ([x] + s)[1..] == s;
  }

  /** Selecting one key commutes with concatenation. */
  lemma {:induction false} AtConcat<T>(a: seq<T>, b: seq<T>, key: T -> real, k: real)
    ensures At(a + b, key, k) == At(a, key, k) + At(b, key, k)
  {
    if a == [] {
      assert a + b == b;
    } else {
      assert a + b == [a[0]] + (a[1..] + b);
      assert a == [a[0]] + a[1..];
      AtCons(a[0], a[1..] + b, key, k);
      AtCons(a[0], a[1..], key, k);
      AtConcat(a[1..], b, key, k);
    }
  }

  /** Selecting key `k` from the strictly smaller part. */
  lemma {:induction false} AtOfBelow<T>(s: seq<T>, key: T -> real, pv: real, k: real)
    ensures At(Below(s, key, pv), key, k) == if k < pv then At(s, key, k) else []
  {
    if s != [] {
      AtOfBelow(s[1..], key, pv, k);
      var h := if key(s[0]) < pv then [s[0]] else [];
      AtConcat(h, Below(s[1..], key, pv), key, k);
      AtCons(s[0], [], key, k);
      assert [s[0]] + [] == [s[0]];
    }
  }

  /** Selecting key `k` from the group equal to the pivot key. */
  lemma {:induction false} AtOfAt<T>(s: seq<T>, key: T -> real, pv: real, k: real)
    ensures At(At(s, key, pv), key, k) == if k == pv then At(s, key, k) else []
  {
    if s != [] {
      AtOfAt(s[1..], key, pv, k);
      var h := if key(s[0]) == pv then [s[0]] else [];
      AtConcat(h, At(s[1..], key, pv), key, k);
      AtCons(s[0], [], key, k);
      assert [s[0]] + [] == [s[0]];
    }
  }

  /** Selecting key `k` from the strictly larger part. */
  lemma {:induction false} AtOfAbove<T>(s: seq<T>, key: T -> real, pv: real, k: real)
    ensures At(Above(s, key, pv), key, k) == if k > pv then At(s, key, k) else []
  {
    if s != [] {
      AtOfAbove(s[1..], key, pv, k);
      var h := if key(s[0]) > pv then [s[0]] else [];
      AtConcat(h, Above(s[1..], key, pv), key, k);
      AtCons(s[0], [], key, k);
      assert [s[0]] + [] == [s[0]];
    }
  }

  /** The facts about the recursive results that the quicksort step needs. */
  ghost predicate SortsStably<T>(r: seq<T>, s: seq<T>, key: T -> real) {
    && multiset(r) == multiset(s)
    && Sorted(r, key)
    && forall k :: At(r, key, k) == At(s, key, k)
  }

  /** Every key in `r` is below `pv` / above `pv`. */
  ghost predicate AllBelow<T>(r: seq<T>, key: T -> real, pv: real) {
    forall i :: 0 <= i < |r| ==> key(r[i]) < pv
  }

  ghost predicate AllAbove<T>(r: seq<T>, key: T -> real, pv: real) {
    forall i :: 0 <= i < |r| ==> key(r[i]) > pv
  }

  /** A permutation of a part keeps that part's key bound. */
  lemma PermutationKeepsBounds<T>(r: seq<T>, s: seq<T>, key: T -> real, pv: real)
    requires multiset(r) == multiset(s)
    ensures AllBelow(s, key, pv) ==> AllBelow(r, key, pv)
    ensures AllAbove(s, key, pv) ==> AllAbove(r, key, pv)
  {
    forall i | 0 <= i < |r|
      ensures exists j :: 0 <= j < |s| && s[j] == r[i]
    {
      assert r[i] in multiset(r);
      assert r[i] in s;
    }
  }

  /** Lower part, pivot group, upper part: sorted when each part is. */
  lemma SortedJoin<T>(lo: seq<T>, mid: seq<T>, hi: seq<T>, key: T -> real, pv: real)
    requires Sorted(lo, key) && AllBelow(lo, key, pv)
    requires forall i :: 0 <= i < |mid| ==> key(mid[i]) == pv
    requires Sorted(hi, key) && AllAbove(hi, key, pv)
    ensures Sorted(lo + mid + hi, key)
  {
    var r := lo + mid + hi;
    forall i, j | 0 <= i < j < |r|
      ensures key(r[i]) <= key(r[j])
    {
      if i < |lo| {
        assert r[i] == lo[i];
      } else if i < |lo| + |mid| {
        assert r[i] == mid[i - |lo|];
      } else {
        assert r[i] == hi[i - |lo| - |mid|];
      }
      if j < |lo| {
        assert r[j] == lo[j];
      } else if j < |lo| + |mid| {
        assert r[j] == mid[j - |lo|];
      } else {
        assert r[j] == hi[j - |lo| - |mid|];
      }
    }
  }

  /** Joining the sorted lower part, the pivot group and the sorted upper
      part sorts the whole input stably. */
  lemma Assemble<T>(s: seq<T>, key: T -> real, pv: real, lo: seq<T>, hi: seq<T>)
    requires SortsStably(lo, Below(s, key, pv), key)
    requires SortsStably(hi, Above(s, key, pv), key)
    ensures SortsStably(lo + At(s, key, pv) + hi, s, key)
  {
    var mid := At(s, key, pv);
    PartitionIsPermutation(s, key, pv);
    BelowBound(s, key, pv);
    AboveBound(s, key, pv);
    AtMembers(s, key, pv);
    PermutationKeepsBounds(lo, Below(s, key, pv), key, pv);
    PermutationKeepsBounds(hi, Above(s, key, pv), key, pv);
    SortedJoin(lo, mid, hi, key, pv);
    forall k
      ensures At(lo + mid + hi, key, k) == At(s, key, k)
    {
      AssembleGroup(s, key, pv, lo, hi, k);
    }
  }

  /** One key's group of the joined parts is that key's group of the input. */
  lemma AssembleGroup<T>(s: seq<T>, key: T -> real, pv: real, lo: seq<T>, hi: seq<T>, k: real)
    requires At(lo, key, k) == At(Below(s, key, pv), key, k)
    requires At(hi, key, k) == At(Above(s, key, pv), key, k)
    ensures At(lo + At(s, key, pv) + hi, key, k) == At(s, key, k)
  {
    var mid := At(s, key, pv);
    AtConcat(lo, mid, key, k);
    AtConcat(lo + mid, hi, key, k);
    AtOfBelow(s, key, pv, k);
    AtOfAt(s, key, pv, k);
    AtOfAbove(s, key, pv, k);
  }

  /** `quick_sort`: pivot on the middle element, then sort the strictly
      smaller and strictly larger parts and keep the equal group in input
      order. The result is an ascending permutation of `s` in which elements
      with equal keys keep their input order. */
  function QuickSort<T>(s: seq<T>, key: T -> real): (r: seq<T>)
    ensures multiset(r) == multiset(s)
    ensures Sorted(r, key)
    ensures forall k :: At(r, key, k) == At(s, key, k)
    decreases |s|
  {
    if |s| <= 1 then s
    else
      var pv := key(s[|s| / 2]);
      PartitionIsPermutation(s, key, pv);
      AtMembers(s, key, pv);
      assert s[|s| / 2] in At(s, key, pv);
      assert |Below(s, key, pv)| + |At(s, key, pv)| + |Above(s, key, pv)| == |s| by {
        assert |multiset(s)| == |s|;
      }
      var lo := QuickSort(Below(s, key, pv), key);
      var hi := QuickSort(Above(s, key, pv), key);
      Assemble(s, key, pv, lo, hi);
      lo + At(s, key, pv) + hi
  }

  /** The first element of an ascending sequence has the least key. */
  lemma HeadHasLeastKey<T>(a: seq<T>, key: T -> real, x: T)
    requires Sorted(a, key) && x in a
    ensures key(a[0]) <= key(x)
  {
    var j :| 0 <= j < |a| && a[j] == x;
    assert j == 0 || key(a[0]) <= key(a[j]);
  }

  /** Two ascending sequences that agree key by key start with the same key. */
  lemma SameLeastKey<T>(a: seq<T>, b: seq<T>, key: T -> real)
    requires Sorted(a, key) && Sorted(b, key) && a != []
    requires forall k :: At(a, key, k) == At(b, key, k)
    ensures b != [] && key(a[0]) == key(b[0])
  {
    var ka := key(a[0]);
    AtMembers(a, key, ka);
    AtMembers(b, key, ka);
    assert a[0] in At(a, key, ka);
    var xb := At(b, key, ka)[0];
    assert xb in b && key(xb) == ka;
    var kb := key(b[0]);
    AtMembers(a, key, kb);
    AtMembers(b, key, kb);
    assert b[0] in At(b, key, kb);
    var xa := At(a, key, kb)[0];
    assert xa in a && key(xa) == kb;
    HeadHasLeastKey(a, key, xa);
    HeadHasLeastKey(b, key, xb);
  }

  /** Two sequences whose first elements share a key, and whose groups of
      that key agree, start with the same element. */
  lemma SameHead<T>(a: seq<T>, b: seq<T>, key: T -> real)
    requires a != [] && b != [] && key(a[0]) == key(b[0])
    requires At(a, key, key(a[0])) == At(b, key, key(a[0]))
    ensures a[0] == b[0]
  {
    assert a == [a[0]] + a[1..];
    assert b == [b[0]] + b[1..];
    var k := key(a[0]);
    AtCons(a[0], a[1..], key, k);
    AtCons(b[0], b[1..], key, k);
    assert At(a, key, k)[0] == a[0];
    assert At(b, key, k)[0] == b[0];
  }

  /** Sequences with the same first element agree on a key's group exactly
      when their tails do. */
  lemma SameTailGroup<T>(a: seq<T>, b: seq<T>, key: T -> real, k: real)
    requires a != [] && b != [] && a[0] == b[0]
    requires At(a, key, k) == At(b, key, k)
    ensures At(a[1..], key, k) == At(b[1..], key, k)
  {
    assert a == [a[0]] + a[1..];
    assert b == [b[0]] + b[1..];
    AtCons(a[0], a[1..], key, k);
    AtCons(b[0], b[1..], key, k);
    var h := if key(a[0]) == k then [a[0]] else [];
    assert At(a[1..], key, k) == At(a, key, k)[|h|..];
    assert At(b[1..], key, k) == At(b, key, k)[|h|..];
  }

  /** Two sequences that are both ascending and agree, key by key, on the
      order of the elements having that key are the same sequence: a stable
      sort has exactly one possible result. */
  lemma {:induction false} StableSortUnique<T>(a: seq<T>, b: seq<T>, key: T -> real)
    requires Sorted(a, key) && Sorted(b, key)
    requires forall k :: At(a, key, k) == At(b, key, k)
    ensures a == b
    decreases |a|
  {
    if a == [] {
      NoGroupsNoElements(b, key);
    } else {
      SameFirstThenSameTails(a, b, key);
      SortedTail(a, key);
      SortedTail(b, key);
      StableSortUnique(a[1..], b[1..], key);
      assert a == [a[0]] + a[1..];
      assert b == [b[0]] + b[1..];
    }
  }

  /** One step of the uniqueness argument: the first elements coincide and
      the tails still agree key by key. */
  lemma SameFirstThenSameTails<T>(a: seq<T>, b: seq<T>, key: T -> real)
    requires Sorted(a, key) && Sorted(b, key) && a != []
    requires forall k :: At(a, key, k) == At(b, key, k)
    ensures b != [] && a[0] == b[0]
    ensures forall k :: At(a[1..], key, k) == At(b[1..], key, k)
  {
    SameLeastKey(a, b, key);
    SameHead(a, b, key);
    forall k
      ensures At(a[1..], key, k) == At(b[1..], key, k)
    {
      SameTailGroup(a, b, key, k);
    }
  }

  /** A sequence in which every key selects nothing is empty. */
  lemma NoGroupsNoElements<T>(b: seq<T>, key: T -> real)
    requires forall k :: At(b, key, k) == []
    ensures b == []
  {
    if b != [] {
      AtMembers(b, key, key(b[0]));
      assert false;
    }
  }

  /** The tail of an ascending sequence is ascending. */
  lemma SortedTail<T>(a: seq<T>, key: T -> real)
    requires Sorted(a, key) && a != []
    ensures Sorted(a[1..], key)
  {
    forall i, j | 0 <= i < j < |a| - 1
      ensures key(a[1..][i]) <= key(a[1..][j])
    {
      assert a[1..][i] == a[i + 1] && a[1..][j] == a[j + 1];
    }
  }

  /** Whatever stable ascending sort is used, its result is `QuickSort`'s. */
  lemma QuickSortIsTheStableSort<T>(s: seq<T>, r: seq<T>, key: T -> real)
    requires Sorted(r, key)
    requires forall k :: At(r, key, k) == At(s, key, k)
    ensures r == QuickSort(s, key)
  {
    StableSortUnique(r, QuickSort(s, key), key);
  }

  /** The key read with its sign flipped. */
  function Negated<T>(key: T -> real): T -> real {
    x => -key(x)
  }

  /** Selecting `-k` under the negated key selects `k` under the key. */
  lemma {:induction false} AtNegated<T>(s: seq<T>, key: T -> real, k: real)
    ensures At(s, Negated(key), -k) == At(s, key, k)
  {
    if s != [] {
      AtNegated(s[1..], key, k);
    }
  }

  /** Python's stable `sort(key=key, reverse=True)`: a permutation of `s`
      with keys never increasing, in which elements with equal keys keep
      their input order. It is the ascending quicksort on the negated key. */
  function SortDescending<T>(s: seq<T>, key: T -> real): (r: seq<T>)
    ensures multiset(r) == multiset(s)
    ensures SortedDescending(r, key)
    ensures forall k :: At(r, key, k) == At(s, key, k)
  {
    var r := QuickSort(s, Negated(key));
    assert forall k :: At(r, key, k) == At(s, key, k) by {
      forall k
        ensures At(r, key, k) == At(s, key, k)
      {
        AtNegated(r, key, k);
        AtNegated(s, key, k);
      }
    }
    r
  }

  /** Descending under a key is ascending under the negated key. */
  lemma DescendingIsAscendingNegated<T>(r: seq<T>, key: T -> real)
    requires SortedDescending(r, key)
    ensures Sorted(r, Negated(key))
  {
    forall i, j | 0 <= i < j < |r|
      ensures Negated(key)(r[i]) <= Negated(key)(r[j])
    {
      assert key(r[i]) >= key(r[j]);
    }
  }

  /** Whatever stable descending sort is used, its result is `SortDescending`'s. */
  lemma SortDescendingIsTheStableSort<T>(s: seq<T>, r: seq<T>, key: T -> real)
    requires SortedDescending(r, key)
    requires forall k :: At(r, key, k) == At(s, key, k)
    ensures r == SortDescending(s, key)
  {
    var d := SortDescending(s, key);
    NegatedGroupsAgree(r, d, key);
    DescendingIsAscendingNegated(r, key);
    DescendingIsAscendingNegated(d, key);
    StableSortUnique(r, d, Negated(key));
  }

  /** The group of key `k` in a pair. */
  lemma AtOfPair<T>(x: T, y: T, key: T -> real, k: real)
    ensures At([x, y], key, k) == (if key(x) == k then [x] else []) + (if key(y) == k then [y] else [])
  {
    AtCons(x, [y], key, k);
    AtCons(y, [], key, k);
    assert [x] + [y] == [x, y] && [y] + [] == [y];
  }

  /** Of two elements the one with the larger key comes first; tied ones
      keep their order. */
  lemma SortDescendingOfTwo<T>(x: T, y: T, key: T -> real)
    ensures key(x) < key(y) ==> SortDescending([x, y], key) == [y, x]
    ensures key(x) >= key(y) ==> SortDescending([x, y], key) == [x, y]
  {
    if key(x) < key(y) {
      forall k
        ensures At([y, x], key, k) == At([x, y], key, k)
      {
        AtOfPair(x, y, key, k);
        AtOfPair(y, x, key, k);
      }
      SortDescendingIsTheStableSort([x, y], [y, x], key);
    } else {
      SortDescendingIsTheStableSort([x, y], [x, y], key);
    }
  }

  /** Agreeing key by key is the same under the negated key. */
  lemma NegatedGroupsAgree<T>(a: seq<T>, b: seq<T>, key: T -> real)
    requires forall k :: At(a, key, k) == At(b, key, k)
    ensures forall k :: At(a, Negated(key), k) == At(b, Negated(key), k)
  {
    forall k
      ensures At(a, Negated(key), k) == At(b, Negated(key), k)
    {
      AtNegated(a, key, -k);
      AtNegated(b, key, -k);
    }
  }

  /** Selecting one key from a reversed sequence gives that key's group reversed. */
  lemma {:induction false} AtReverse<T>(s: seq<T>, key: T -> real, k: real)
    ensures At(Reverse(s), key, k) == Reverse(At(s, key, k))
  {
    if s != [] {
      var h := if key(s[0]) == k then [s[0]] else [];
      AtReverse(s[1..], key, k);
      AtConcat(Reverse(s[1..]), [s[0]], key, k);
      AtCons(s[0], [], key, k);
      assert [s[0]] + [] == [s[0]];
      ReverseConcat(h, At(s[1..], key, k));
      assert Reverse(h) == h;
    }
  }

  /** Reversing an ascending sequence gives a descending one. */
  lemma ReverseOfSorted<T>(s: seq<T>, key: T -> real)
    requires Sorted(s, key)
    ensures SortedDescending(Reverse(s), key)
  {
  }

  /** When every element has key `k`, selecting `k` selects everything. */
  lemma {:induction false} AtOfUniformKey<T>(s: seq<T>, key: T -> real, k: real)
    requires forall i :: 0 <= i < |s| ==> key(s[i]) == k
    ensures At(s, key, k) == s
  {
    if s != [] {
      AtOfUniformKey(s[1..], key, k);
      assert s == [s[0]] + s[1..];
    }
  }

  /** A permutation of a sequence whose elements all have key `k` is its own
      group of key `k`. */
  lemma PermutationOfUniformKey<T>(r: seq<T>, s: seq<T>, key: T -> real, k: real)
    requires multiset(r) == multiset(s)
    requires forall i :: 0 <= i < |s| ==> key(s[i]) == k
    ensures At(r, key, k) == r
  {
    forall i | 0 <= i < |r|
      ensures key(r[i]) == k
    {
      assert r[i] in multiset(r);
      assert r[i] in s;
    }
    AtOfUniformKey(r, key, k);
  }
}
