# Trade-settlement ledger of the finance stock-trading simulator

The simulator is a Flask application whose request handlers keep three SQLite
tables consistent: each user's `cash`, the `stocks` table (one row per user and
symbol, holding a share count and a name/price snapshot) and the append-only
`transactions` table. This project models what the `buy`, `sell` and `transfer`
handlers do to those tables, and the portfolio valuation loop of `index` (repeated
at the end of `buy` and `sell`), and proves their guards, their arithmetic, what
they leave alone, and two invariants: the stocks table agrees with the
transaction log over any series of requests whose quotes match their symbols, and
a trade settled at the current quote leaves every fully quoted user's portfolio
total unchanged.

Layout:

- `finance.dfy` (module `Finance`): the rows of the three tables, the quote, the
  raw form field, failures, and `Upper` (the handler's `.upper()`).
- `settlement.dfy` (module `Settlement`): each handler as a function from the
  database before the request to the database after it and the outcome, a series
  of requests run one after another, and the lemmas on guards, settlement
  arithmetic and frames.
- `audit.dfy` (module `Audit`): the net of BOUGHT/SOLD records per row, and proofs
  that every request whose quote matches its symbol, and so every series of such
  requests from a fresh database, keeps the stocks table equal to it.
- `portfolio.dfy` (module `Portfolio`): the valuation as a sum over the user's rows,
  and how each request changes it.
- `ledger.dfy` (module `Database`): class `Ledger` with mutable `cash`, `stocks` and
  `log` fields; `Buy`, `Sell` and `Transfer` perform the handlers' reads, guards and
  writes in order and are proved to reach the state `Settlement` specifies;
  `PortfolioTotal` is the valuation loop, proved against `Portfolio.Value`.
- `scenarios.dfy` (module `Scenarios`): clients that buy 10 shares at 50, fail an
  unaffordable buy, sell the 10 at 60 and deposit, and that sell out of one symbol
  while another has lost its quote, checking each outcome from the contracts
  alone.

Modelling choices:

- The whole database is modelled, all users at once, because the zero-share
  `DELETE` in `sell` has no `user_id` filter and so reaches other users' rows.
- The quote service is a parameter: `quote: Option<Quote>` for the trade's own
  lookup, a `prices` map for the lookups of a valuation (a symbol with no entry is
  a failed lookup). A trade takes both, since it ends by valuing the user's
  portfolio.
- A numeric form field is `Blank` (missing or empty), `Int(v)`, or `NotAnInt`
  (text that `int()` cannot convert).
- A Python exception raised before any write (`int()` on bad text, `rows[0]` or
  `stocks[0]` on an empty result, subscripting a missing quote) is the outcome
  `Rejected(ServerError)` with nothing written: the application registers an error
  handler that turns it into an apology page.
- The one exception that can come after a write is the valuation at the end of
  `buy` and `sell`: subscripting the `None` that `lookup` returns for an unquoted
  held symbol. Its outcome is `FailedAfterWrite`. The trade's log insert, cash
  update and row update stay, since nothing is rolled back, and a `sell` then skips
  its zero-share `DELETE`, which comes after the valuation.
- Money is in integer cents; share counts are integers. A deposit field is whole
  dollars, so it adds 100 × its value to the cash column.

Behaviour of the handlers worth noting, modelled as the code does it:

- Buy and sell accept a share count of 0; only negative counts are refused. A
  0-share buy of a new symbol creates a stocks row with 0 shares and logs a BOUGHT
  record of 0 shares.
- Sell requires the (user, symbol) row to exist: without it `stocks[0]` raises.
  The insert branch of `sell` is therefore never taken.
- A sell that empties its row runs `DELETE FROM stocks WHERE shares=0`, which drops
  every zero-share row of every user. Such rows come from 0-share buys, and from
  sells that emptied their row but whose closing valuation failed.
- Sell looks the quote up before any check and does not refuse a missing quote
  with a message: the subscript raises.
- Transfer computes `int(bank)` before testing `not bank`, so a blank field raises
  and the emptiness check can never fire. Negative amounts are accepted.
- A deposit appends no transaction record.
- The transactions table records the quote's symbol while the stocks row is keyed
  by the form's symbol (upper-cased in `buy`, as chosen in `sell`). The log and the
  stocks table stay in agreement only while the two coincide; the consistency
  lemmas assume it.
- Nothing is atomic. Each handler is modelled as one step: its writes all follow
  its guards, and the one later failure, in the closing valuation, keeps them.

## Model

| member | source | states |
|---|---|---|
| Finance.UpperIdempotent | application.py:93 | upper-casing the buy symbol keeps its length and a second upper-casing changes nothing |
| Settlement.BuyRejectsBeforeWrite | application.py:96-119 | a buy is rejected iff the quote is missing, the share field is blank, not a number or negative, the user row is missing or price × n exceeds the cash; each case yields its own failure in the handler's order (missing user: server error), 0 shares are accepted, and a rejection writes nothing |
| Settlement.BuySettles | application.py:113-187 | a buy past its checks sets only the buyer's cash to cash − price × n, which is ≥ 0; sets the (user, upper-cased symbol) row to old shares (0 if absent) + n with the quote's name and price, creating it if absent, other rows unchanged; appends exactly one BOUGHT record (user, quote symbol, name, n, price) after the unchanged earlier log; these writes stay, and the request ends in failure exactly when one of the buyer's symbols has no quote at valuation |
| Settlement.BuyStoredSymbolAddsToRow | application.py:93-161 | buying under a symbol as stored (already upper-case) adds the shares to that same row |
| Settlement.SellRejectsBeforeWrite | application.py:363-394 | a sell is rejected iff the quote is missing, the share field is blank, not a number or negative, the user row or the (user, symbol) row is missing, or held shares < n; each case yields its own failure (missing quote, non-number, missing user, missing row: server error) and a rejection writes nothing |
| Settlement.SellSettles | application.py:397-469 | a sell past its checks sets only the seller's cash to cash + price × n and the row to held − n ≥ 0 with the quote's name and price, and appends exactly one SOLD record after the unchanged earlier log; it fails after these writes exactly when one of the seller's symbols has no quote, and then deletes nothing; otherwise, if the row reaches 0, no zero-share row of any user remains and every row with shares is unchanged, and if it keeps shares the key set is unchanged |
| Settlement.TransferCredits | application.py:484-495 | a deposit succeeds iff the user row exists and `int()` reads the field (blank raises); it adds 100 × the dollar amount, of either sign, to that user's cash only, and leaves the stocks table and the log unchanged |
| Settlement.RequestsKeepSharesNonNegative | application.py:105-429 | no buy, sell or deposit makes any stocks row negative |
| Audit.DeleteZeroRowsKeepsShares | application.py:469 | deleting the zero-share rows changes no user's share count for any symbol |
| Audit.BuyKeepsConsistent | application.py:122-161 | when the quote's symbol is the upper-cased form symbol, a buy keeps every row's share count equal to the net of its BOUGHT and SOLD records, whether or not its valuation fails |
| Audit.SellKeepsConsistent | application.py:397-469 | when the quote's symbol is the form symbol, a sell keeps every row's share count equal to the net of its records, with or without the zero-share deletion |
| Audit.TransferKeepsConsistent | application.py:486-495 | a deposit keeps the stocks table in agreement with the log |
| Audit.RunKeepsConsistent | application.py:87-495 | any series of buys, sells and deposits whose quotes match their symbols keeps the stocks table equal to the net of the log |
| Audit.ConsistentFromOpening | application.py:87-495 | starting from a database with users and no trades, the stocks table equals the net of the log after any such series of requests |
| Portfolio.WorthRemove | application.py:53-69 | the summed row values do not depend on the order the query returns the rows in |
| Portfolio.WorthAfterDelete | application.py:466-469 | deleting the zero-share rows leaves each user a subset of their rows and does not change the sum of any user's row values |
| Portfolio.ValueOfEmptyPortfolio | application.py:64-72 | a user with no stocks rows is valued at exactly their cash |
| Portfolio.BuyAtMarketKeepsValue | application.py:113-187 | a buy at the price the quote service still reports leaves every user's portfolio total, or its failure, unchanged |
| Portfolio.SellAtMarketKeepsValue | application.py:390-469 | a sell at the price the quote service still reports leaves every fully quoted user's portfolio total unchanged, the zero-share deletion included |
| Portfolio.TransferRaisesValue | application.py:486-495 | a deposit raises the depositor's portfolio total by 100 × the dollar amount and leaves every other total, and every failed valuation, as it was |
| Database.Ledger.Buy | application.py:87-187 | the buy handler's sequence of reads, checks, log insert, cash update, row update or insert and closing valuation ends in exactly the state and outcome of `Settlement.Buy`, and keeps every share count non-negative |
| Database.Ledger.Sell | application.py:345-469 | the sell handler's sequence of reads, checks, log insert, cash update, row update, closing valuation and zero-share delete ends in exactly the state and outcome of `Settlement.Sell`, and keeps every share count non-negative |
| Database.Ledger.Transfer | application.py:476-495 | the transfer handler's read, conversion and cash update end in exactly the state and outcome of `Settlement.Transfer` |
| Database.Ledger.PortfolioTotal | application.py:48-72 | the valuation loop returns cash plus Σ shares × current price over the user's rows, or fails when a held symbol has no quote or the user row is missing; it writes nothing |

## Left out

- Flask routing, sessions, `login_required`, response headers, templates, `flash`
  and the rendering of apology pages: web plumbing around the ledger.
- `login`, `register` and `logout`: authentication over password hashing and
  database lookups. The `Ledger` constructor stands for a database whose users
  have registered and have not traded.
- `lookup` and `usd`: the quote service is a parameter and formatting is display.
- `history` and `quote`: read-only views with no effect on the tables.
- The GET branch of `sell`, which lists the user's symbols for a drop-down.
- The render-or-redirect decision at the end of `index`, which is page flow; only
  the total it computes is modelled.
- The SQL engine: tables are maps and a sequence; the stocks table is assumed to
  hold at most one row per (user, symbol), which every insert in these handlers
  preserves. The transactions table's timestamp column is not modelled.
- Floating-point prices: money is integer cents, so the rounding of
  `price * int(shares)` is not modelled.
- Concurrency: two requests of one user interleaving between check and write are
  not modelled; each request is one step.
- Upper: models `str.upper` for the ASCII letters only; other characters are left
  as they are.
- A missing `symbol` field in `buy`: `.upper()` on `None` raises before any
  write; the model takes the symbol as a string, so this request is not modelled.
- The exact set of strings `int()` accepts (signs, surrounding spaces,
  underscores) is not modelled; a field is given as already read or not readable.
