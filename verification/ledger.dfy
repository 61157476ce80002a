/** One account's ledger: the USD balance, the coin holdings and the
    activity log, with the three operations modelled here (deposit,
    withdraw, trade). Each operation either fails before touching anything
    or applies all of its changes together. */
module Ledger {

  import opened Results
  import opened Activity

  /** A registered user's record, keyed by username in the account store. */
  datatype Account = Account(
    password: string,
    balance: real,
    holdings: map<string, real>,
    activity: seq<Entry>)

  datatype Side = Buy | Sell

  /** A trade request as the order form submits it: `pay` is USD for a Buy
      and USD received for a Sell, `qty` the coin amount bought or sold. The
      two are not checked against each other or the price. */
  datatype Order = Order(side: Side, symbol: string, pay: real, qty: real)

  /** The number formatting of the messages (`:.2f` for USD, `:.6f` for
      coin amounts), supplied from outside the model. */
  datatype Formats = Formats(usd: real -> string, coin: real -> string)

  datatype LedgerError =
    | Cancelled             // the amount dialog returned no number
    | NonPositiveAmount     // deposit or withdrawal of zero or less
    | InsufficientFunds     // withdrawal or purchase above the balance
    | InsufficientHoldings  // sale above the coins held
    | MissingHolding        // sale of an unheld coin: the program raises KeyError

  /** `holdings.get(sym, 0)`. */
  function Held(h: map<string, real>, sym: string): real {
    if sym in h then h[sym] else 0.0
  }

  function DepositText(amount: real, fmt: Formats): string {
    "Deposited $" + fmt.usd(amount) + " USD"
  }

  function WithdrawText(amount: real, fmt: Formats): string {
    "Withdrew $" + fmt.usd(amount) + " USD"
  }

  /** The confirmation message of a trade, before shortening. */
  function TradeText(o: Order, fmt: Formats): (r: string)
    ensures |r| >= 9 && r[|r| - 4..] == " USD"
    ensures o.side == Buy ==> r[..7] == "Bought "
    ensures o.side == Sell ==> r[..5] == "Sold "
  {
    (if o.side == Buy then "Bought " else "Sold ")
      + fmt.coin(o.qty) + " " + o.symbol + " for $" + fmt.usd(o.pay) + " USD"
  }

  /** Buys are logged red, sells green. */
  function TradeColor(side: Side): (r: Color)
    ensures r == Red <==> side == Buy
    ensures r == Green <==> side == Sell
  {
    match side
    case Buy => Red
    case Sell => Green
  }

  /** `deposit`: no number or a non-positive one changes nothing; otherwise
      the balance grows by exactly the amount and one green entry is logged. */
  function Deposit(a: Account, amount: Option<real>, fmt: Formats): (r: Result<Account, LedgerError>)
    ensures r.Err? <==> amount.None? || amount.value <= 0.0
    ensures amount.None? ==> r == Err(Cancelled)
    ensures r.Ok? ==>
      && r.value.balance == a.balance + amount.value
      && r.value.balance > a.balance
      && r.value.holdings == a.holdings
      && r.value.password == a.password
      && r.value.activity == Record(a.activity, Entry(DepositText(amount.value, fmt), Green))
  {
    match amount
    case None => Err(Cancelled)
    case Some(x) =>
      if x <= 0.0 then Err(NonPositiveAmount)
      else
        var e := Entry(DepositText(x, fmt), Green);
        Ok(a.(balance := a.balance + x, activity := Record(a.activity, e)))
  }

  /** `withdraw`: no number, a non-positive one, or one above the balance
      changes nothing; otherwise the balance shrinks by exactly the amount,
      stays non-negative, and one red entry is logged. */
  function Withdraw(a: Account, amount: Option<real>, fmt: Formats): (r: Result<Account, LedgerError>)
    ensures r.Err? <==> amount.None? || amount.value <= 0.0 || amount.value > a.balance
    ensures amount.None? ==> r == Err(Cancelled)
    ensures amount.Some? && amount.value > 0.0 && amount.value > a.balance ==> r == Err(InsufficientFunds)
    ensures r.Ok? ==>
      && r.value.balance == a.balance - amount.value
      && 0.0 <= r.value.balance < a.balance
      && r.value.holdings == a.holdings
      && r.value.password == a.password
      && r.value.activity == Record(a.activity, Entry(WithdrawText(amount.value, fmt), Red))
  {
    match amount
    case None => Err(Cancelled)
    case Some(x) =>
      if x <= 0.0 then Err(NonPositiveAmount)
      else if x > a.balance then Err(InsufficientFunds)
      else
        var e := Entry(WithdrawText(x, fmt), Red);
        Ok(a.(balance := a.balance - x, activity := Record(a.activity, e)))
  }

  /** `execute_trade`. A Buy fails when `pay` exceeds the balance; a Sell
      fails when `qty` exceeds the coins held (an unheld coin counting as 0),
      and a Sell of an unheld coin that passes that check (only possible
      with `qty <= 0`) fails on the missing key. A failure changes nothing.
      Otherwise balance and the one holding move together, every other
      holding is untouched, and one entry with the shortened message is
      logged. */
  function ExecuteTrade(a: Account, o: Order, fmt: Formats): (r: Result<Account, LedgerError>)
    ensures o.side == Buy ==> (r.Err? <==> o.pay > a.balance)
    ensures o.side == Buy && r.Err? ==> r.error == InsufficientFunds
    ensures o.side == Sell ==> (r.Err? <==> o.qty > Held(a.holdings, o.symbol) || o.symbol !in a.holdings)
    ensures o.side == Sell && o.qty > Held(a.holdings, o.symbol) ==> r == Err(InsufficientHoldings)
    ensures r == Err(MissingHolding) <==>
              o.side == Sell && o.qty <= Held(a.holdings, o.symbol) && o.symbol !in a.holdings
    ensures r == Err(MissingHolding) ==> o.qty <= 0.0
    ensures r.Ok? ==>
      && r.value.balance == (if o.side == Buy then a.balance - o.pay else a.balance + o.pay)
      && Held(r.value.holdings, o.symbol) == (if o.side == Buy then Held(a.holdings, o.symbol) + o.qty
                                             else Held(a.holdings, o.symbol) - o.qty)
      && r.value.holdings.Keys == a.holdings.Keys + {o.symbol}
      && (forall s :: s in a.holdings && s != o.symbol ==> r.value.holdings[s] == a.holdings[s])
      && r.value.password == a.password
      && r.value.activity == Record(a.activity, Entry(Truncate(TradeText(o, fmt)), TradeColor(o.side)))
    ensures r.Ok? && o.side == Buy ==> r.value.balance >= 0.0
    ensures r.Ok? && o.side == Sell ==> Held(r.value.holdings, o.symbol) >= 0.0
  {
    var sym := o.symbol;
    var e := Entry(Truncate(TradeText(o, fmt)), TradeColor(o.side));
    if o.side == Buy then
      if o.pay > a.balance then Err(InsufficientFunds)
      else
        Ok(a.(balance := a.balance - o.pay,
              holdings := a.holdings[sym := Held(a.holdings, sym) + o.qty],
              activity := Record(a.activity, e)))
    else
      if o.qty > Held(a.holdings, sym) then Err(InsufficientHoldings)
      else if sym !in a.holdings then Err(MissingHolding)
      else
        Ok(a.(balance := a.balance + o.pay,
              holdings := a.holdings[sym := a.holdings[sym] - o.qty],
              activity := Record(a.activity, e)))
  }

  /** The ordered coin's amount after the order: `holdings.get(sym, 0) + qty`
      for a Buy, `holdings[sym] - qty` for a Sell. */
  function NewAmount(h: map<string, real>, o: Order): real {
    if o.side == Buy then Held(h, o.symbol) + o.qty else Held(h, o.symbol) - o.qty
  }

  /** A successful trade sets the traded coin's holding to its old amount
      plus or minus the quantity and leaves the other holdings as they were. */
  lemma TradeSetsHolding(a: Account, o: Order, fmt: Formats)
    requires ExecuteTrade(a, o, fmt).Ok?
    ensures ExecuteTrade(a, o, fmt).value.holdings == a.holdings[o.symbol := NewAmount(a.holdings, o)]
  {
  }

  /** From a non-negative balance, withdrawing what was just deposited
      restores the balance and the holdings; only the log remembers the round
      trip. */
  lemma DepositThenWithdraw(a: Account, x: real, fmt: Formats)
    requires a.balance >= 0.0 && x > 0.0
    ensures Deposit(a, Some(x), fmt).Ok?
    ensures var b := Deposit(a, Some(x), fmt).value;
            var c := Withdraw(b, Some(x), fmt);
            c.Ok? && c.value.balance == a.balance && c.value.holdings == a.holdings
            && c.value.activity[..2] == [Entry(WithdrawText(x, fmt), Red), Entry(DepositText(x, fmt), Green)]
  {
  }

  /** Selling back the quantity just bought, for the amount paid, restores
      the balance and the coin's amount, provided that amount was not
      negative to begin with. */
  lemma BuyThenSellRestores(a: Account, sym: string, pay: real, qty: real, fmt: Formats)
    requires Held(a.holdings, sym) >= 0.0
    requires ExecuteTrade(a, Order(Buy, sym, pay, qty), fmt).Ok?
    ensures var b := ExecuteTrade(a, Order(Buy, sym, pay, qty), fmt).value;
            var c := ExecuteTrade(b, Order(Sell, sym, pay, qty), fmt);
            c.Ok? && c.value.balance == a.balance
            && Held(c.value.holdings, sym) == Held(a.holdings, sym)
            && forall s :: s in a.holdings ==> s in c.value.holdings && c.value.holdings[s] == a.holdings[s]
  {
  }

  /** The solvency invariant: no negative balance, no negative holding, and
      an activity log within its bound. */
  ghost predicate WellFormed(a: Account) {
    && a.balance >= 0.0
    && (forall s :: s in a.holdings ==> a.holdings[s] >= 0.0)
    && |a.activity| <= MaxEntries
  }

  /** Dropping a holding (the Homepage "Delete" menu, which logs nothing)
      keeps the invariant. */
  lemma RemoveHoldingKeepsWellFormed(a: Account, sym: string)
    requires WellFormed(a)
    ensures WellFormed(a.(holdings := a.holdings - {sym}))
  {
  }

  /** One user action on the dashboard. */
  datatype Op = DepositOp(amount: Option<real>) | WithdrawOp(amount: Option<real>) | TradeOp(order: Order)

  function Apply(a: Account, op: Op, fmt: Formats): Result<Account, LedgerError> {
    match op
    case DepositOp(x) => Deposit(a, x, fmt)
    case WithdrawOp(x) => Withdraw(a, x, fmt)
    case TradeOp(o) => ExecuteTrade(a, o, fmt)
  }

  /** The account after one action: the new record, or the old one when the
      action was rejected. */
  function Step(a: Account, op: Op, fmt: Formats): Account {
    match Apply(a, op, fmt)
    case Ok(a') => a'
    case Err(_) => a
  }

  /** The account after a session of actions, first action first. */
  function Run(a: Account, ops: seq<Op>, fmt: Formats): Account
    decreases |ops|
  {
    if ops == [] then a else Run(Step(a, ops[0], fmt), ops[1..], fmt)
  }

  /** Every trade in the session has a non-negative price and quantity (the
      program itself never checks this). */
  ghost predicate TradesNonNegative(ops: seq<Op>) {
    forall i :: 0 <= i < |ops| && ops[i].TradeOp? ==> ops[i].order.pay >= 0.0 && ops[i].order.qty >= 0.0
  }

  /** One action keeps the solvency invariant when its trade amounts are
      non-negative. */
  lemma StepKeepsWellFormed(a: Account, op: Op, fmt: Formats)
    requires WellFormed(a)
    requires op.TradeOp? ==> op.order.pay >= 0.0 && op.order.qty >= 0.0
    ensures WellFormed(Step(a, op, fmt))
  {
    var r := Apply(a, op, fmt);
    if r.Ok? {
      var b := r.value;
      forall s | s in b.holdings
        ensures b.holdings[s] >= 0.0
      {
        if op.TradeOp? && s == op.order.symbol {
          assert Held(b.holdings, s) == b.holdings[s];
        } else if op.TradeOp? {
          assert s in a.holdings;
        }
      }
    }
  }

  /** Solvency: from a well-formed account, no sequence of deposits,
      withdrawals and trades with non-negative amounts drives the balance or
      any holding below zero or the log past five entries. */
  lemma {:induction false} RunKeepsWellFormed(a: Account, ops: seq<Op>, fmt: Formats)
    requires WellFormed(a)
    requires TradesNonNegative(ops)
    ensures WellFormed(Run(a, ops, fmt))
    decreases |ops|
  {
    if ops != [] {
      StepKeepsWellFormed(a, ops[0], fmt);
      assert TradesNonNegative(ops[1..]) by {
        forall i | 0 <= i < |ops| - 1 && ops[1..][i].TradeOp?
          ensures ops[1..][i].order.pay >= 0.0 && ops[1..][i].order.qty >= 0.0
        {
          assert ops[1..][i] == ops[i + 1];
        }
      }
      RunKeepsWellFormed(Step(a, ops[0], fmt), ops[1..], fmt);
    }
  }

  /** Without the sign condition the invariant fails: a Sell whose proceeds
      are negative pushes an empty balance below zero. */
  lemma NegativeProceedsOverdraw(fmt: Formats)
    ensures var a := Account("pw", 0.0, map["BTC" := 1.0], []);
            var r := ExecuteTrade(a, Order(Sell, "BTC", -1.0, 0.5), fmt);
            r.Ok? && r.value.balance == -1.0
  {
  }
}
