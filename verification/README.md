# CryptoSim trading ledger in Dafny

CryptoSim is a desktop crypto-trading simulator. Users register and log in.
Each user has a USD balance, coin holdings and an activity log of at most
five entries. Users deposit and withdraw USD and buy and sell coins. The
market listing can be searched and sorted, and a leaderboard ranks every
user by net worth. All of it lives in `main.py`.

This project models that core as pure functions over immutable records and
proves what the program promises about them.

- `Results` holds `Option` and `Result`. `Result` is the error path for a
  dialog that was cancelled, a check that failed or an exception.
- `Text` models Python's `str.strip()`, `str.lower()` and the substring
  test `needle in hay`.
- `Seqs` models list reversal.
- `Activity` models the activity log: insert at the front, drop the oldest
  past five. It also models the 30-character shortening of trade messages.
- `Ledger` models an account, deposit, withdraw and `execute_trade`, and the
  solvency invariant over any session of actions.
- `Accounts` models registration and login over the account store. The
  store is the directory of per-user JSON files, seen as a map from
  username to record.
- `Sorting` models the hand-written three-way quicksort and the stable
  descending sort that the leaderboard gets from Python's `sort`. It proves
  that a stable sort has exactly one result.
- `Market` models the quote snapshot, the shown list, `run_search` and
  `run_sort`, and the corrected High-to-Low sort.
- `Leaderboard` models the price lookup, the holdings' worth, net worth and
  the ranking.

Some facts about the code that the model keeps:

- `execute_trade` never checks the sign of `pay` or `qty`, and never looks
  up a price. It accepts a zero or negative amount whenever the balance
  check (Buy) or the quantity check `qty > holdings.get(sym, 0)` (Sell)
  passes. A Sell of a coin not held passes the quantity check only with
  `qty <= 0`, and then raises KeyError on `holdings[sym] -= qty`.
- A trade message longer than 30 characters is logged as its first 27
  characters plus "…". Deposit and withdrawal messages are logged whole.
- The leaderboard's `sort` is stable, so users with equal net worth stay in
  listing order. Nothing breaks ties by username.
- The market's High-to-Low sort reverses the ascending result, so it puts
  tied quotes in reverse shown order; see Findings.

## Model

| member | source | states |
|---|---|---|
| `Text.Strip` | main.py:255-256 | the result is the slice of the input between a run of leading and a run of trailing whitespace, and neither of its ends is whitespace |
| `Text.StripEmptyIffBlank` | main.py:255-257 | a field strips to the empty string exactly when it is all whitespace, so blank fields are rejected |
| `Text.StripIdempotent` | main.py:1216 | stripping a stripped query changes nothing |
| `Text.Lower` | main.py:1216 | lowering keeps the length and lowers each character on its own |
| `Text.LowerIdempotent` | main.py:1221-1222 | a lowered string has no capital letters left, so lowering it again changes nothing |
| `Text.Contains` | main.py:1221-1222 | `q in name` holds exactly when `q` occurs at some position of `name` |
| `Seqs.Reverse` | main.py:1240-1241 | `reverse()` keeps the length and puts element `i` at position `n-1-i` |
| `Seqs.ReversePermutes` | main.py:1240-1241 | reversing keeps every element the same number of times |
| `Seqs.ReverseConcat` | main.py:1239-1241 | reversing a concatenation reverses and swaps the pieces |
| `Activity.Record` | main.py:340-342 | the new entry comes first, then a prefix of the old log, and a log of at most five entries stays at most five |
| `Activity.RecordAllKeepsMostRecent` | main.py:1174-1176 | after any number of insertions the log is exactly the five (or fewer) most recent entries, newest first |
| `Activity.Truncate` | main.py:1173 | the message is kept unchanged exactly when it has at most 30 characters; otherwise it becomes its first 27 characters plus "…" |
| `Activity.TruncateIdempotent` | main.py:1173 | a shortened message is never shortened again |
| `Ledger.Deposit` | main.py:331-346 | a cancelled or non-positive amount is rejected and changes nothing; otherwise the balance grows by exactly the amount, the holdings stay, and the log is the old one with the green entry inserted first and, past five entries, the oldest dropped |
| `Ledger.Withdraw` | main.py:349-366 | a cancelled, non-positive or over-balance amount is rejected; otherwise the balance shrinks by exactly the amount, stays non-negative, and the log is the old one with the red entry inserted first and, past five entries, the oldest dropped |
| `Ledger.DepositThenWithdraw` | main.py:331-366 | from a non-negative balance, withdrawing what was just deposited succeeds and restores balance and holdings; the log shows both, newest first |
| `Ledger.TradeText` | main.py:1160-1167 | a trade message starts with "Bought " for a Buy and "Sold " for a Sell, and ends with " USD" |
| `Ledger.TradeColor` | main.py:1171 | a trade is logged red exactly when it is a Buy, and green exactly when it is a Sell |
| `Ledger.ExecuteTrade` | main.py:1151-1176 | a Buy fails exactly when `pay` exceeds the balance; a Sell fails exactly when `qty` exceeds the coins held or the coin is not held, and with KeyError exactly when it passes the quantity check on a coin not held; on success balance and that one holding move together, every other holding stays, and the log is the old one with the shortened message inserted first, red for a Buy and green for a Sell, the oldest dropped past five |
| `Ledger.TradeSetsHolding` | main.py:1155-1166 | a successful trade sets only the traded coin's holding, to the old amount plus or minus `qty` |
| `Ledger.BuyThenSellRestores` | main.py:1151-1166 | selling back what was just bought, for the same amount, restores the balance and every previously held amount |
| `Ledger.StepKeepsWellFormed` | main.py:1155-1166 | one deposit, withdrawal or trade with non-negative amounts keeps the balance and every holding non-negative and the log within five entries |
| `Ledger.RunKeepsWellFormed` | main.py:331-366 | any session of such actions keeps the solvency invariant |
| `Ledger.RemoveHoldingKeepsWellFormed` | main.py:671-677 | dropping one holding, as the Delete menu does, keeps the balance and the remaining holdings non-negative and the log within five entries |
| `Ledger.NegativeProceedsOverdraw` | main.py:1161-1166 | without the sign condition a Sell with negative proceeds drives an empty balance below zero, because nothing checks the amounts |
| `Accounts.DataKey` | main.py:126-129 | a typed username is always the key of the file read; a blank one falls back to the current user, and to the text "None" when nobody is logged in |
| `Accounts.Register` | main.py:253-274 | registration succeeds exactly when both fields are filled in and the name is free; missing fields (blank or placeholder) and a taken username are each rejected exactly when they occur; otherwise exactly one empty account is added under the stripped name, and every other record stays |
| `Accounts.Login` | main.py:278-303 | login succeeds exactly when the record under the lookup key exists and its password equals the stripped password; the session holds the record under that key, whichever of the typed name, the current user or "None" it is |
| `Accounts.RegisterThenLogin` | main.py:253-292 | logging in right after registering, with the same entries, opens the new empty account |
| `Sorting.AtMembers` | main.py:1235 | the equal group holds exactly the elements whose key is the pivot key |
| `Sorting.PartitionIsPermutation` | main.py:1234-1236 | the smaller, equal and larger parts together hold every element exactly once |
| `Sorting.QuickSort` | main.py:1228-1237 | `quick_sort` returns a permutation of its input, ascending by key, with equal-key elements in input order |
| `Sorting.StableSortUnique` | main.py:1228-1237 | two ascending sequences that keep each key's elements in the same order are equal |
| `Sorting.QuickSortIsTheStableSort` | main.py:1228-1237 | every ascending, order-keeping arrangement of the input is `quick_sort`'s result |
| `Sorting.SortDescending` | main.py:843 | `sort(reverse=True)` returns a permutation, descending by key, with equal-key elements in input order |
| `Sorting.SortDescendingIsTheStableSort` | main.py:843 | every descending, order-keeping arrangement of the input is that sort's result |
| `Sorting.SortDescendingOfTwo` | main.py:843 | of two elements the one with the larger key comes first, and tied ones keep their order |
| `Sorting.AtReverse` | main.py:1239-1241 | reversing a list reverses the order within each key's group |
| `Sorting.ReverseOfSorted` | main.py:1239-1241 | the reverse of an ascending list is descending |
| `Market.Key` | main.py:1233-1236 | the sort reads the chosen attribute's value; a missing or null market cap or 24-hour change reads as 0, and a 0 key means exactly that the value is missing, null or 0 |
| `Market.Matching` | main.py:1219-1222 | the filtered list is a subsequence of the snapshot, and holds each matching quote as often as the snapshot does and no other quote |
| `Market.RunSearch` | main.py:1214-1224 | a blank query shows the whole snapshot; otherwise the matching quotes of the snapshot, never of the list shown before, in snapshot order |
| `Market.RunSort` | main.py:1226-1243 | the shown list is permuted and ordered by the attribute; Low-to-High keeps tied quotes in shown order, High-to-Low reverses them |
| `Market.DescendingIsReversedAscending` | main.py:1239-1241 | High-to-Low is exactly Low-to-High read backwards |
| `Market.DescendingOfEqualKeys` | main.py:1239-1241 | when all shown quotes share one key, High-to-Low shows the list backwards |
| `Market.DescendingReversesTies` | main.py:1239-1241 | two different quotes with the same price, listed A then B, come out B then A from High-to-Low |
| `Market.RunSortStable` | main.py:1226-1243 | the corrected sort: permuted, ordered in the chosen direction, and every key's quotes kept in shown order both ways |
| `Market.StableOfEqualKeys` | main.py:1226-1243 | under the corrected sort, a list whose quotes share one key is left as it is in both directions |
| `Market.StableDescendingKeepsTies` | main.py:1239-1241 | under the corrected sort, two tied quotes keep their listed order in High-to-Low |
| `Leaderboard.PriceOf` | main.py:834-838 | when some quote has the coin's symbol the price is one of those quotes' prices; when none has it the price is 0.0 |
| `Leaderboard.PriceOfFirstQuote` | main.py:832-837 | the price used for a coin is that of the first snapshot quote with its symbol, and 0.0 when there is none |
| `Leaderboard.PriceOfNonNegative` | main.py:832-837 | with non-negative quoted prices, the price used is non-negative |
| `Leaderboard.SumRemove` | main.py:834-839 | the summed total does not depend on the order the holdings are visited in |
| `Leaderboard.SumUpdate` | main.py:834-839 | changing one term changes the total by that term's change |
| `Leaderboard.SumNonNegative` | main.py:834-839 | a total of non-negative terms is non-negative |
| `Leaderboard.HoldingValuesUpdate` | main.py:834-839 | setting one holding changes that holding's worth and no other |
| `Leaderboard.ValuationUpdate` | main.py:834-839 | setting one holding changes `total_assets` by the new amount's worth minus the old amount's worth |
| `Leaderboard.WorthNonNegative` | main.py:834-839 | non-negative amounts at non-negative prices give a `total_assets` of at least 0 |
| `Leaderboard.ValuationNonNegative` | main.py:834-839 | non-negative holdings at non-negative prices are worth at least 0 |
| `Leaderboard.NetWorth` | main.py:828-840 | `bal + total_assets`: with no holdings it is the balance |
| `Leaderboard.NetWorthAtLeastBalance` | main.py:828-840 | with non-negative amounts at non-negative prices, net worth is at least the balance |
| `Leaderboard.TradeMovesValuation` | main.py:1155-1166 | a trade changes the holdings' worth by `qty` times the coin's price, up for a Buy and down for a Sell |
| `Leaderboard.TradeMovesNetWorth` | main.py:1155-1166 | a trade moves net worth by the worth of the coins minus the USD paid, or the reverse for a Sell; at a price with `pay == qty * price` net worth is unchanged |
| `Leaderboard.Rank` | main.py:828-843 | the ranking holds every user's `(username, bal + total_assets)` row once, richest first, with users of equal net worth in listing order |
| `Leaderboard.RankIsTheStableSort` | main.py:843 | any descending, order-keeping ranking is `Rank` |
| `Leaderboard.RankOfTwo` | main.py:843 | of two users, the richer ranks first; with equal net worth they keep listing order (net worths 300.0 and 300.5 rank as [B, A]) |
| `Leaderboard.NetWorthExample` | main.py:829-840 | USD 100 plus 2 BTC at 50000 has net worth 100100 |

## Left out

- The Tkinter interface is not modelled: windows, tabs, buttons, dialogs, message boxes, images and icons. The amount dialog appears as an `Option<real>` argument: `None` means cancelled.
- Persistence is not modelled: JSON files, `save_user_data`, `load_user_data`, `load_all_users_data` and `clear_all_user_data`. The store is a map, and the leaderboard takes the users as a list in listing order. At login a corrupt or unreadable file is treated as missing. The leaderboard skips only a missing or undecodable file; any other read error, such as a permission error, propagates out of `load_all_users_data`. Registration only checks whether the file exists, so a corrupt file still blocks its username; the model has no corrupt files, only present or absent records.
- The network fetch of quotes and coin images is not modelled. The snapshot is a parameter.
- The live conversion between the pay and get fields of the order form is not modelled. It only fills the order's two amounts, which `execute_trade` then trusts.
- Number formatting (`:.2f`, `:.6f`) is a pair of functions passed in (`Formats`). Their digits are not modelled.
- Floating point is not modelled: money and amounts are mathematical reals, with no rounding, overflow, NaN or infinity.
- Text.Lower: lowers ASCII letters only. Python's `str.lower()` also lowers non-ASCII letters.
- Leaderboard.PriceOfFirstQuote: a quote always has a price. The program raises KeyError or TypeError on a quote without `PRICE_USD`, and the model does not cover that case.
- Leaderboard.PriceOf: a quote without SYMBOL is read as having the symbol "". The program's `c["SYMBOL"]` raises KeyError on such a quote, unless an earlier quote already matched; the model returns a price instead.
- Market.Key: a quote always has a price, so a quote without PRICE_USD, which the sort would read as 0, is not modelled.
- The Homepage "Delete" menu (main.py:671-677) removes a holding with no log entry. It is not modelled as an operation; `Ledger.RemoveHoldingKeepsWellFormed` shows that removing a holding keeps the solvency invariant.
- Dict order of holdings is not modelled. The total is proved to be independent of it (`Leaderboard.SumRemove`).
- Market.RunSearch: an absent NAME or SYMBOL is read as the empty string, as `get("NAME", "")` does, so the model has no separate absent case.
- Accounts.Login: a blank username falls back to the current user's record. A missing current user is formatted as the text "None", as Python's f-string does.

## Findings

| source | as written | input that shows it | evidently intended | confidence | as-written member | corrected member |
|---|---|---|---|---|---|---|
| main.py:1239-1241 | High-to-Low reverses the ascending quicksort result, so quotes with equal keys come out in reverse shown order | two different quotes A, B with the same PRICE_USD, shown as [A, B], sorted by Price High-to-Low, give [B, A] | a descending order that keeps tied quotes in shown order, as Low-to-High and the leaderboard's `sort(reverse=True)` do | medium, not executed | `Market.DescendingReversesTies` | `Market.StableDescendingKeepsTies` |
