/** The Buy/Sell market listing: the quote snapshot fetched once per
    dashboard (`cached_coins_data`), the list currently shown
    (`displayed_coins`), and the search and sort buttons that replace the
    shown list. */
module Market {

  import opened Results
  import opened Text
  import opened Seqs
  import opened Sorting

  /** One market record: NAME, SYMBOL, PRICE_USD, TOTAL_MKT_CAP_USD and the
      24-hour change in percent. An absent NAME or SYMBOL reads as the empty
      string, as the search's `get` does; the leaderboard's `c["SYMBOL"]`
      would raise KeyError there instead. An absent or null market cap or
      change is `None`; the price is always present. */
  datatype Quote = Quote(
    name: string,
    symbol: string,
    price: real,
    marketCap: Option<real>,
    change24h: Option<real>)

  /** The three attributes of the sort menu. */
  datatype Attr = PriceUsd | TotalMarketCapUsd | Change24hPct

  /** `float(q.get(attr, 0) or 0)`: the attribute's value, where a missing
      or null attribute sorts as 0, next to the quotes whose value is 0. */
  function Key(q: Quote, attr: Attr): (r: real)
    ensures attr == PriceUsd ==> r == q.price
    ensures attr == TotalMarketCapUsd ==> (r == 0.0 <==> q.marketCap.None? || q.marketCap == Some(0.0))
    ensures attr == TotalMarketCapUsd && q.marketCap.Some? ==> r == q.marketCap.value
    ensures attr == Change24hPct ==> (r == 0.0 <==> q.change24h.None? || q.change24h == Some(0.0))
    ensures attr == Change24hPct && q.change24h.Some? ==> r == q.change24h.value
  {
    match attr
    case PriceUsd => q.price
    case TotalMarketCapUsd => q.marketCap.GetOr(0.0)
    case Change24hPct => q.change24h.GetOr(0.0)
  }

  function KeyOf(attr: Attr): Quote -> real {
    q => Key(q, attr)
  }

  datatype View = View(cached: seq<Quote>, displayed: seq<Quote>)

  /** `a` is `b` with some elements left out and the rest in their order. */
  ghost predicate IsSubsequence<T>(a: seq<T>, b: seq<T>)
    decreases |b|
  {
    if a == [] then true
    else if b == [] then false
    else if a[0] == b[0] then IsSubsequence(a[1..], b[1..])
    else IsSubsequence(a, b[1..])
  }

  lemma {:induction false} SubsequenceOfItself<T>(s: seq<T>)
    ensures IsSubsequence(s, s)
    decreases |s|
  {
    if s != [] {
      SubsequenceOfItself(s[1..]);
    }
  }

  /** The lower-cased NAME or SYMBOL contains the (lower-cased) query. */
  predicate Matches(q: Quote, query: string) {
    Contains(Lower(q.name), query) || Contains(Lower(q.symbol), query)
  }

  /** The list comprehension of `run_search`: the matching quotes, in order,
      each as often as it occurs. */
  function Matching(s: seq<Quote>, query: string): (r: seq<Quote>)
    ensures IsSubsequence(r, s)
    ensures forall q :: multiset(r)[q] == if Matches(q, query) then multiset(s)[q] else 0
  {
    if s == [] then []
    else
      var rest := Matching(s[1..], query);
      assert s == [s[0]] + s[1..];
      if Matches(s[0], query) then [s[0]] + rest else rest
  }

  /** `run_search`: the shown list becomes the quotes of the snapshot (never
      of the list shown before) whose lower-cased NAME or SYMBOL contains the
      stripped, lower-cased query, in snapshot order; a blank query shows the
      whole snapshot. */
  function RunSearch(v: View, rawQuery: string): (r: View)
    ensures r.cached == v.cached
    ensures Strip(rawQuery) == [] ==> r.displayed == v.cached
    ensures IsSubsequence(r.displayed, v.cached)
    ensures Strip(rawQuery) != [] ==>
              forall q :: multiset(r.displayed)[q] ==
                if Matches(q, Lower(Strip(rawQuery))) then multiset(v.cached)[q] else 0
  {
    var query := Lower(Strip(rawQuery));
    if query == [] then
      SubsequenceOfItself(v.cached);
      View(v.cached, v.cached)
    else View(v.cached, Matching(v.cached, query))
  }

  /** `run_sort` as written: quicksort the shown list ascending by the
      attribute, and for High-to-Low reverse the result. Either way the
      shown list is permuted and ordered; ascending keeps tied quotes in
      their shown order, descending reverses them. */
  function RunSort(v: View, attr: Attr, ascending: bool): (r: View)
    ensures r.cached == v.cached
    ensures multiset(r.displayed) == multiset(v.displayed)
    ensures ascending ==> Sorted(r.displayed, KeyOf(attr))
    ensures ascending ==> forall k :: At(r.displayed, KeyOf(attr), k) == At(v.displayed, KeyOf(attr), k)
    ensures !ascending ==> SortedDescending(r.displayed, KeyOf(attr))
    ensures !ascending ==>
              forall k :: At(r.displayed, KeyOf(attr), k) == Reverse(At(v.displayed, KeyOf(attr), k))
  {
    var sorted := QuickSort(v.displayed, KeyOf(attr));
    if ascending then View(v.cached, sorted)
    else
      ReversePermutes(sorted);
      ReverseOfSorted(sorted, KeyOf(attr));
      forall k
        ensures At(Reverse(sorted), KeyOf(attr), k) == Reverse(At(v.displayed, KeyOf(attr), k))
      {
        AtReverse(sorted, KeyOf(attr), k);
      }
      View(v.cached, Reverse(sorted))
  }

  /** High-to-Low is exactly Low-to-High read backwards. */
  lemma DescendingIsReversedAscending(v: View, attr: Attr)
    ensures RunSort(v, attr, false).displayed == Reverse(RunSort(v, attr, true).displayed)
  {
  }

  /** When every shown quote has the same key, High-to-Low shows the list
      backwards. */
  lemma DescendingOfEqualKeys(v: View, attr: Attr, k: real)
    requires forall i :: 0 <= i < |v.displayed| ==> Key(v.displayed[i], attr) == k
    ensures RunSort(v, attr, false).displayed == Reverse(v.displayed)
  {
    var r := RunSort(v, attr, false).displayed;
    AtOfUniformKey(v.displayed, KeyOf(attr), k);
    PermutationOfUniformKey(r, v.displayed, KeyOf(attr), k);
  }

  /** Any two different quotes with the same price, listed `first` then
      `second`, come out `second` then `first` when sorted High-to-Low. */
  lemma DescendingReversesTies(first: Quote, second: Quote)
    requires first != second && first.price == second.price
    ensures RunSort(View([first, second], [first, second]), PriceUsd, false).displayed == [second, first]
    ensures [second, first] != [first, second]
  {
    var v := View([first, second], [first, second]);
    assert forall i :: 0 <= i < |v.displayed| ==> Key(v.displayed[i], PriceUsd) == first.price by {
      assert v.displayed[0] == first && v.displayed[1] == second;
    }
    DescendingOfEqualKeys(v, PriceUsd, first.price);
    ReversePair(first, second);
  }

  /** The sort with the evidently intended High-to-Low order: descending by
      the attribute with tied quotes kept in their shown order, like the
      ascending order and like the leaderboard's sort. */
  function RunSortStable(v: View, attr: Attr, ascending: bool): (r: View)
    ensures r.cached == v.cached
    ensures multiset(r.displayed) == multiset(v.displayed)
    ensures ascending ==> Sorted(r.displayed, KeyOf(attr))
    ensures !ascending ==> SortedDescending(r.displayed, KeyOf(attr))
    ensures forall k :: At(r.displayed, KeyOf(attr), k) == At(v.displayed, KeyOf(attr), k)
  {
    if ascending then View(v.cached, QuickSort(v.displayed, KeyOf(attr)))
    else View(v.cached, SortDescending(v.displayed, KeyOf(attr)))
  }

  /** When every shown quote has the same key, the stable sort leaves the
      list as it is in either direction. */
  lemma StableOfEqualKeys(v: View, attr: Attr, ascending: bool, k: real)
    requires forall i :: 0 <= i < |v.displayed| ==> Key(v.displayed[i], attr) == k
    ensures RunSortStable(v, attr, ascending).displayed == v.displayed
  {
    var r := RunSortStable(v, attr, ascending).displayed;
    AtOfUniformKey(v.displayed, KeyOf(attr), k);
    PermutationOfUniformKey(r, v.displayed, KeyOf(attr), k);
  }

  /** The stable High-to-Low sort keeps two tied quotes in listing order. */
  lemma StableDescendingKeepsTies(first: Quote, second: Quote)
    requires first.price == second.price
    ensures RunSortStable(View([first, second], [first, second]), PriceUsd, false).displayed == [first, second]
  {
    StableOfEqualKeys(View([first, second], [first, second]), PriceUsd, false, first.price);
  }
}
