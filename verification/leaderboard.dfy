/** The leaderboard: every user's net worth, priced against the one quote
    snapshot of the session, ranked from richest to poorest. */
module Leaderboard {

  import opened Ledger
  import opened Market
  import opened Sorting

  /** Quote `i` is the first one in the snapshot with symbol `sym`. */
  ghost predicate FirstWithSymbol(snapshot: seq<Quote>, sym: string, i: int) {
    && 0 <= i < |snapshot|
    && snapshot[i].symbol == sym
    && forall j :: 0 <= j < i ==> snapshot[j].symbol != sym
  }

  /** `next((c["PRICE_USD"] for c in cached if c["SYMBOL"] == sym), 0.0)`. */
  function PriceOf(snapshot: seq<Quote>, sym: string): (r: real)
    ensures (exists i :: 0 <= i < |snapshot| && snapshot[i].symbol == sym)
            ==> exists i :: 0 <= i < |snapshot| && snapshot[i].symbol == sym && r == snapshot[i].price
    ensures (forall i :: 0 <= i < |snapshot| ==> snapshot[i].symbol != sym) ==> r == 0.0
  {
    if snapshot == [] then 0.0
    else if snapshot[0].symbol == sym then snapshot[0].price
    else PriceOf(snapshot[1..], sym)
  }

  /** The price used for a symbol is that of the first quote with that
      symbol, and 0 when the snapshot has none. */
  lemma {:induction false} PriceOfFirstQuote(snapshot: seq<Quote>, sym: string)
    ensures (forall i :: 0 <= i < |snapshot| ==> snapshot[i].symbol != sym) ==> PriceOf(snapshot, sym) == 0.0
    ensures forall i :: FirstWithSymbol(snapshot, sym, i) ==> PriceOf(snapshot, sym) == snapshot[i].price
  {
    if snapshot != [] && snapshot[0].symbol != sym {
      PriceOfFirstQuote(snapshot[1..], sym);
      assert forall i :: FirstWithSymbol(snapshot, sym, i) ==> i >= 1 && FirstWithSymbol(snapshot[1..], sym, i - 1);
      assert (forall i :: 0 <= i < |snapshot| ==> snapshot[i].symbol != sym) ==>
               (forall i :: 0 <= i < |snapshot| - 1 ==> snapshot[1..][i].symbol != sym);
    }
  }

  /** Removing a key from a map makes it one smaller. */
  lemma RemoveShrinks(m: map<string, real>, k: string)
    requires k in m
    ensures |m - {k}| == |m| - 1
  {
    assert (m - {k}).Keys == m.Keys - {k};
  }

  /** The sum of the values of a map, one key at a time. */
  ghost function Sum(m: map<string, real>): real
    decreases |m|
  {
    if m == map[] then 0.0
    else
      var k :| k in m;
      RemoveShrinks(m, k);
      m[k] + Sum(m - {k})
  }

  /** The sum does not depend on the order of summation: any key can be
      taken out first. */
  lemma {:induction false} SumRemove(m: map<string, real>, k: string)
    requires k in m
    ensures Sum(m) == m[k] + Sum(m - {k})
    decreases |m|
  {
    var j :| j in m && Sum(m) == m[j] + Sum(m - {j});
    if j != k {
      var mj, mk := m - {j}, m - {k};
      RemoveShrinks(m, j);
      RemoveShrinks(m, k);
      assert k in mj && mj[k] == m[k];
      assert j in mk && mk[j] == m[j];
      SumRemove(mj, k);
      SumRemove(mk, j);
      assert mj - {k} == mk - {j};
    }
  }

  /** Setting one entry changes the sum by that entry's change. */
  lemma SumUpdate(m: map<string, real>, k: string, x: real)
    ensures Sum(m[k := x]) == Sum(m) - (if k in m then m[k] else 0.0) + x
  {
    SumRemove(m[k := x], k);
    assert m[k := x] - {k} == m - {k};
    if k in m {
      SumRemove(m, k);
    } else {
      assert m - {k} == m;
    }
  }

  /** A sum of non-negative values is non-negative. */
  lemma {:induction false} SumNonNegative(m: map<string, real>)
    requires forall k :: k in m ==> m[k] >= 0.0
    ensures Sum(m) >= 0.0
    decreases |m|
  {
    if m != map[] {
      var k :| k in m;
      SumRemove(m, k);
      RemoveShrinks(m, k);
      SumNonNegative(m - {k});
    }
  }

  /** What `amt` coins of `sym` are worth at the given prices: `price * amt`. */
  function AtPrices(price: string -> real): (string, real) -> real {
    (sym, amt) => price(sym) * amt
  }

  /** The worth of each holding. */
  function HoldingValues(h: map<string, real>, value: (string, real) -> real): (r: map<string, real>)
    ensures r.Keys == h.Keys
  {
    map k | k in h :: value(k, h[k])
  }

  /** The loop `total_assets += price * amt` over all holdings. */
  ghost function Valuation(h: map<string, real>, value: (string, real) -> real): real {
    Sum(HoldingValues(h, value))
  }

  /** The worth of one holding. */
  lemma HoldingValueAt(h: map<string, real>, k: string, value: (string, real) -> real)
    requires k in h
    ensures HoldingValues(h, value)[k] == value(k, h[k])
  {
  }

  /** Setting one holding sets that holding's worth and no other. */
  lemma HoldingValuesUpdate(h: map<string, real>, k: string, v: real, value: (string, real) -> real)
    ensures HoldingValues(h[k := v], value) == HoldingValues(h, value)[k := value(k, v)]
  {
    forall j | j in h && j != k
      ensures HoldingValues(h[k := v], value)[j] == HoldingValues(h, value)[j]
    {
      HoldingValueAt(h[k := v], j, value);
      HoldingValueAt(h, j, value);
    }
    HoldingValueAt(h[k := v], k, value);
  }

  /** Setting one holding changes the holdings' worth by the difference
      between what the new and the old amount are worth. */
  lemma ValuationUpdate(h: map<string, real>, k: string, v: real, value: (string, real) -> real)
    ensures Valuation(h[k := v], value)
            == Valuation(h, value) - (if k in h then value(k, h[k]) else 0.0) + value(k, v)
  {
    HoldingValuesUpdate(h, k, v, value);
    SumUpdate(HoldingValues(h, value), k, value(k, v));
    if k in h {
      HoldingValueAt(h, k, value);
    }
  }

  /** The snapshot as a price list: `PriceOf` for every symbol. */
  function PriceIn(snapshot: seq<Quote>): string -> real {
    sym => PriceOf(snapshot, sym)
  }

  /** With non-negative quoted prices, the price used is non-negative. */
  lemma PriceOfNonNegative(snapshot: seq<Quote>, sym: string)
    requires forall i :: 0 <= i < |snapshot| ==> snapshot[i].price >= 0.0
    ensures PriceOf(snapshot, sym) >= 0.0
  {
    PriceOfFirstQuote(snapshot, sym);
    if exists i :: 0 <= i < |snapshot| && snapshot[i].symbol == sym {
      FirstIndexExists(snapshot, sym);
    }
  }

  lemma ProductNonNegative(x: real, y: real)
    requires x >= 0.0 && y >= 0.0
    ensures x * y >= 0.0
  {
  }

  /** Non-negative amounts at non-negative prices are worth at least 0. */
  lemma WorthNonNegative(h: map<string, real>, price: string -> real)
    requires forall s :: s in h ==> h[s] >= 0.0 && price(s) >= 0.0
    ensures Valuation(h, AtPrices(price)) >= 0.0
  {
    var m := HoldingValues(h, AtPrices(price));
    forall k | k in m
      ensures m[k] >= 0.0
    {
      HoldingValueAt(h, k, AtPrices(price));
      ProductNonNegative(price(k), h[k]);
    }
    SumNonNegative(m);
  }

  /** With non-negative amounts and snapshot prices the holdings are worth at
      least 0. */
  lemma ValuationNonNegative(h: map<string, real>, snapshot: seq<Quote>)
    requires forall s :: s in h ==> h[s] >= 0.0
    requires forall i :: 0 <= i < |snapshot| ==> snapshot[i].price >= 0.0
    ensures Valuation(h, AtPrices(PriceIn(snapshot))) >= 0.0
  {
    forall s | s in h
      ensures PriceIn(snapshot)(s) >= 0.0
    {
      PriceOfNonNegative(snapshot, s);
    }
    WorthNonNegative(h, PriceIn(snapshot));
  }

  /** A symbol that occurs in the snapshot has a first occurrence. */
  lemma {:induction false} FirstIndexExists(snapshot: seq<Quote>, sym: string)
    requires exists i :: 0 <= i < |snapshot| && snapshot[i].symbol == sym
    ensures exists i :: FirstWithSymbol(snapshot, sym, i)
  {
    if snapshot[0].symbol == sym {
      assert FirstWithSymbol(snapshot, sym, 0);
    } else {
      var i :| 0 <= i < |snapshot| && snapshot[i].symbol == sym;
      assert snapshot[1..][i - 1].symbol == sym;
      FirstIndexExists(snapshot[1..], sym);
      var j :| FirstWithSymbol(snapshot[1..], sym, j);
      assert FirstWithSymbol(snapshot, sym, j + 1);
    }
  }

  /** `bal + total_assets`, at the given price of every coin. */
  ghost function NetWorth(a: Account, price: string -> real): (r: real)
    ensures a.holdings == map[] ==> r == a.balance
  {
    a.balance + Valuation(a.holdings, AtPrices(price))
  }

  /** With non-negative amounts at non-negative prices, net worth is at least
      the USD balance. */
  lemma NetWorthAtLeastBalance(a: Account, price: string -> real)
    requires forall s :: s in a.holdings ==> a.holdings[s] >= 0.0 && price(s) >= 0.0
    ensures NetWorth(a, price) >= a.balance
  {
    WorthNonNegative(a.holdings, price);
  }

  /** A trade moves net worth by the value of the coins bought or sold
      against the USD paid or received, whatever the coin's price; at a price
      consistent with the order (`pay == qty * price`) net worth does not
      change. */
  lemma TradeMovesNetWorth(a: Account, o: Order, fmt: Formats, price: string -> real)
    requires ExecuteTrade(a, o, fmt).Ok?
    ensures var a' := ExecuteTrade(a, o, fmt).value;
            var p := price(o.symbol);
            NetWorth(a', price) == NetWorth(a, price)
              + (if o.side == Buy then o.qty * p - o.pay else o.pay - o.qty * p)
    ensures o.pay == o.qty * price(o.symbol) ==>
              NetWorth(ExecuteTrade(a, o, fmt).value, price) == NetWorth(a, price)
  {
    TradeMovesValuation(a, o, fmt, price);
  }

  /** A trade moves the holdings' worth by the value of the coins bought or
      sold. */
  lemma TradeMovesValuation(a: Account, o: Order, fmt: Formats, price: string -> real)
    requires ExecuteTrade(a, o, fmt).Ok?
    ensures Valuation(ExecuteTrade(a, o, fmt).value.holdings, AtPrices(price))
            == Valuation(a.holdings, AtPrices(price))
               + (if o.side == Buy then o.qty * price(o.symbol) else -(o.qty * price(o.symbol)))
  {
    TradeSetsHolding(a, o, fmt);
    ValuationUpdate(a.holdings, o.symbol, NewAmount(a.holdings, o), AtPrices(price));
    PricedChange(a.holdings, o, price);
  }

  /** The ordered coin's holding gains (Buy) or loses (Sell) the order's
      quantity at its price. */
  lemma PricedChange(h: map<string, real>, o: Order, price: string -> real)
    ensures AtPrices(price)(o.symbol, NewAmount(h, o))
            - (if o.symbol in h then AtPrices(price)(o.symbol, h[o.symbol]) else 0.0)
            == if o.side == Buy then o.qty * price(o.symbol) else -(o.qty * price(o.symbol))
  {
  }

  /** The sort key of a ranking row. */
  function Worth(row: (string, real)): real {
    row.1
  }

  /** `networths`: one row per user, in the order the users were listed. */
  ghost function Worths(users: seq<(string, Account)>, snapshot: seq<Quote>): seq<(string, real)> {
    seq(|users|, i requires 0 <= i < |users| => (users[i].0, NetWorth(users[i].1, PriceIn(snapshot))))
  }

  /** `networths.sort(key=lambda x: x[1], reverse=True)`: every user's row
      exactly once, richest first, users of equal net worth in listing
      order. */
  ghost function Rank(users: seq<(string, Account)>, snapshot: seq<Quote>): (r: seq<(string, real)>)
    ensures multiset(r) == multiset(Worths(users, snapshot))
    ensures SortedDescending(r, Worth)
    ensures forall k :: At(r, Worth, k) == At(Worths(users, snapshot), Worth, k)
  {
    SortDescending(Worths(users, snapshot), Worth)
  }

  /** Python's sort is a stable sort, and a stable sort has one possible
      result: any ranking that is descending and keeps tied users in listing
      order is `Rank`. */
  lemma RankIsTheStableSort(users: seq<(string, Account)>, snapshot: seq<Quote>, r: seq<(string, real)>)
    requires SortedDescending(r, Worth)
    requires forall k :: At(r, Worth, k) == At(Worths(users, snapshot), Worth, k)
    ensures r == Rank(users, snapshot)
  {
    SortDescendingIsTheStableSort(Worths(users, snapshot), r, Worth);
  }

  /** Two rows rank richer first, and in listing order when their net
      worths are equal. */
  lemma RankOfTwo(x: (string, real), y: (string, real))
    ensures x.1 < y.1 ==> SortDescending([x, y], Worth) == [y, x]
    ensures x.1 >= y.1 ==> SortDescending([x, y], Worth) == [x, y]
  {
    SortDescendingOfTwo(x, y, Worth);
  }

  /** USD 100 plus 2 BTC at 50000 is worth 100100. */
  lemma NetWorthExample(a: Account, btc: Quote)
    requires a.balance == 100.0 && a.holdings == map["BTC" := 2.0]
    requires btc.symbol == "BTC" && btc.price == 50000.0
    ensures NetWorth(a, PriceIn([btc])) == 100100.0
  {
    PriceOfFirstQuote([btc], "BTC");
    assert FirstWithSymbol([btc], "BTC", 0);
    var m := HoldingValues(a.holdings, AtPrices(PriceIn([btc])));
    SumRemove(m, "BTC");
    assert m - {"BTC"} == map[];
  }
}
