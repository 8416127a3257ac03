/** What one POST to `/buy`, `/sell` or `/transfer` does to the database, as a
    function from the database before the request to the database after it and the
    request's outcome. The handlers' quote lookup is the `quote` parameter; the
    lookups of the valuation that ends a trade are the `prices` map. */
module Settlement {
  import opened Finance

  /** `DELETE FROM stocks WHERE shares=0`: every zero-share row goes, whoever owns it. */
  function DeleteZeroRows(stocks: map<Key, Holding>): map<Key, Holding> {
    map k | k in stocks && stocks[k].shares != 0 :: stocks[k]
  }

  /** POST /buy: `symbol` is the form field as typed (the handler upper-cases it) and
      `quote` is what `lookup` returned for the upper-cased symbol. After its writes
      the handler values the user's portfolio, which raises on an unquoted row. */
  function Buy(db: Db, user: UserId, symbol: string, shares: FormInt, quote: Option<Quote>, prices: map<string, int>): Step {
    if quote.None? then Step(db, Rejected(InvalidSymbol))
    else if shares.Blank? then Step(db, Rejected(MissingShares))
    else if shares.NotAnInt? then Step(db, Rejected(ServerError))
    else if shares.value < 0 then Step(db, Rejected(NegativeShares))
    else if user !in db.cash then Step(db, Rejected(ServerError))
    else
      var q, n := quote.value, shares.value;
      if db.cash[user] < q.price * n then Step(db, Rejected(InsufficientFunds))
      else
        var key := Key(user, Upper(symbol));
        var written := Db(db.cash[user := db.cash[user] - q.price * n],
                          db.stocks[key := Holding(q.name, SharesOf(db.stocks, key) + n, q.price)],
                          db.log + [Tx(user, BOUGHT, q.symbol, q.name, n, q.price)]);
        Step(written, if Priced(written.stocks, user, prices) then Done else FailedAfterWrite)
  }

  /** POST /sell: `symbol` is the form field as chosen (not upper-cased) and `quote`
      is what `lookup` returned for it. After its writes the handler values the
      user's portfolio, and only if that does not raise does it delete the
      zero-share rows. */
  function Sell(db: Db, user: UserId, symbol: string, shares: FormInt, quote: Option<Quote>, prices: map<string, int>): Step {
    if quote.None? then Step(db, Rejected(ServerError))
    else if shares.Blank? then Step(db, Rejected(MissingShares))
    else if shares.NotAnInt? then Step(db, Rejected(ServerError))
    else if shares.value < 0 then Step(db, Rejected(NegativeShares))
    else if user !in db.cash then Step(db, Rejected(ServerError))
    else
      var q, n, key := quote.value, shares.value, Key(user, symbol);
      if key !in db.stocks then Step(db, Rejected(ServerError))
      else if db.stocks[key].shares < n then Step(db, Rejected(InsufficientShares))
      else
        var left := db.stocks[key].shares - n;
        var updated := db.stocks[key := Holding(q.name, left, q.price)];
        var written := Db(db.cash[user := db.cash[user] + q.price * n],
                          updated,
                          db.log + [Tx(user, SOLD, q.symbol, q.name, n, q.price)]);
        if !Priced(updated, user, prices) then Step(written, FailedAfterWrite)
        else if left == 0 then Step(written.(stocks := DeleteZeroRows(updated)), Done)
        else Step(written, Done)
  }

  /** POST /transfer: `bank` is the deposit field, in whole dollars. `int(bank)` runs
      before the handler's emptiness check, so a blank field raises like a
      non-number does. */
  function Transfer(db: Db, user: UserId, bank: FormInt): Step {
    if user !in db.cash || !bank.Int? then Step(db, Rejected(ServerError))
    else Step(Db(db.cash[user := db.cash[user] + 100 * bank.value], db.stocks, db.log), Done)
  }

  /** One POST to a trading handler, with what the quote service answers during it. */
  datatype Request =
    | BuyRequest(user: UserId, symbol: string, shares: FormInt, quote: Option<Quote>, prices: map<string, int>)
    | SellRequest(user: UserId, symbol: string, shares: FormInt, quote: Option<Quote>, prices: map<string, int>)
    | TransferRequest(user: UserId, bank: FormInt)

  function Apply(db: Db, r: Request): Step {
    match r
    case BuyRequest(user, symbol, shares, quote, prices) => Buy(db, user, symbol, shares, quote, prices)
    case SellRequest(user, symbol, shares, quote, prices) => Sell(db, user, symbol, shares, quote, prices)
    case TransferRequest(user, bank) => Transfer(db, user, bank)
  }

  /** The database after a series of requests, one after the other, whatever their
      outcomes: a rejected request leaves it as it was, a failed one keeps its writes. */
  function Run(db: Db, rs: seq<Request>): Db
    decreases |rs|
  {
    if rs == [] then db else Run(Apply(db, rs[0]).db, rs[1..])
  }

  /** A buy is rejected exactly when the quote is missing, the share count is blank,
      not a number or negative, the user row is missing, or the cost exceeds the cash;
      each reason has its own failure, checked in that order, and nothing is written.
      Zero shares are accepted. */
  lemma BuyRejectsBeforeWrite(db: Db, user: UserId, symbol: string, shares: FormInt, quote: Option<Quote>, prices: map<string, int>)
    ensures var s := Buy(db, user, symbol, shares, quote, prices);
      && (s.status.Rejected? ==> s.db == db)
      && (!s.status.Rejected? <==>
            quote.Some? && shares.Int? && shares.value >= 0 && user in db.cash
            && db.cash[user] >= quote.value.price * shares.value)
      && (quote.None? ==> s.status == Rejected(InvalidSymbol))
      && (quote.Some? && shares.Blank? ==> s.status == Rejected(MissingShares))
      && (quote.Some? && shares.NotAnInt? ==> s.status == Rejected(ServerError))
      && (quote.Some? && shares.Int? && shares.value < 0 ==> s.status == Rejected(NegativeShares))
      && ((quote.Some? && shares.Int? && shares.value >= 0 && user !in db.cash) ==> s.status == Rejected(ServerError))
      && ((quote.Some? && shares.Int? && shares.value >= 0 && user in db.cash
           && db.cash[user] < quote.value.price * shares.value) ==> s.status == Rejected(InsufficientFunds))
      && (quote.Some? && shares == Int(0) && user in db.cash && db.cash[user] >= 0 ==> !s.status.Rejected?)
  {
  }

  /** A buy that passes its checks debits exactly price × n from the buyer alone,
      which leaves the buyer's cash non-negative; it sets the (user, upper-cased
      symbol) row to the old share count (zero if there was none) plus n with the
      quote's name and price, and touches no other row; it appends exactly one
      BOUGHT transaction. All of this stays when the closing valuation raises, which
      it does exactly when one of the user's symbols is unquoted. */
  lemma BuySettles(db: Db, user: UserId, symbol: string, shares: FormInt, quote: Option<Quote>, prices: map<string, int>)
    requires !Buy(db, user, symbol, shares, quote, prices).status.Rejected?
    ensures quote.Some? && shares.Int? && user in db.cash
    ensures var s, q, n, key := Buy(db, user, symbol, shares, quote, prices), quote.value, shares.value, Key(user, Upper(symbol));
      var d := s.db;
      && (s.status == Done <==> Priced(d.stocks, user, prices))
      && d.cash.Keys == db.cash.Keys
      && d.cash[user] == db.cash[user] - q.price * n >= 0
      && (forall u :: u in db.cash && u != user ==> d.cash[u] == db.cash[u])
      && d.stocks.Keys == db.stocks.Keys + {key}
      && d.stocks[key] == Holding(q.name, SharesOf(db.stocks, key) + n, q.price)
      && (forall k :: k in db.stocks && k != key ==> d.stocks[k] == db.stocks[k])
      && |d.log| == |db.log| + 1
      && d.log[..|db.log|] == db.log
      && d.log[|db.log|] == Tx(user, BOUGHT, q.symbol, q.name, n, q.price)
  {
  }

  /** Buying under a symbol as the stocks table stores it (upper-cased, as the sell
      page lists it) adds to that very row: upper-casing it again changes nothing. */
  lemma {:induction false} BuyStoredSymbolAddsToRow(db: Db, user: UserId, typed: string, shares: FormInt, quote: Option<Quote>, prices: map<string, int>)
    requires !Buy(db, user, Upper(typed), shares, quote, prices).status.Rejected?
    ensures var d, key := Buy(db, user, Upper(typed), shares, quote, prices).db, Key(user, Upper(typed));
      key in d.stocks && d.stocks[key].shares == SharesOf(db.stocks, key) + shares.value
  {
    BuySettles(db, user, Upper(typed), shares, quote, prices);
    UpperIdempotent(typed);
  }

  /** A sell is rejected exactly when the quote is missing, the share count is blank,
      not a number or negative, the user row or the (user, symbol) row is missing, or
      fewer shares are held than offered; each reason has its own failure, checked in
      that order, and nothing is written then. */
  lemma SellRejectsBeforeWrite(db: Db, user: UserId, symbol: string, shares: FormInt, quote: Option<Quote>, prices: map<string, int>)
    ensures var s, key := Sell(db, user, symbol, shares, quote, prices), Key(user, symbol);
      && (s.status.Rejected? ==> s.db == db)
      && (!s.status.Rejected? <==>
            quote.Some? && shares.Int? && shares.value >= 0 && user in db.cash
            && key in db.stocks && db.stocks[key].shares >= shares.value)
      && (quote.None? ==> s.status == Rejected(ServerError))
      && (quote.Some? && shares.Blank? ==> s.status == Rejected(MissingShares))
      && (quote.Some? && shares.NotAnInt? ==> s.status == Rejected(ServerError))
      && (quote.Some? && shares.Int? && shares.value < 0 ==> s.status == Rejected(NegativeShares))
      && ((quote.Some? && shares.Int? && shares.value >= 0 && user !in db.cash) ==> s.status == Rejected(ServerError))
      && ((quote.Some? && shares.Int? && shares.value >= 0 && user in db.cash && key !in db.stocks)
          ==> s.status == Rejected(ServerError))
      && ((quote.Some? && shares.Int? && shares.value >= 0 && user in db.cash && key in db.stocks
           && db.stocks[key].shares < shares.value) ==> s.status == Rejected(InsufficientShares))
  {
  }

  /** A sell that passes its checks credits exactly price × n to the seller alone,
      leaves the row with the old count minus n, which is non-negative, and appends
      exactly one SOLD transaction. The closing valuation raises exactly when one of
      the seller's symbols is unquoted; then the writes stay and nothing is deleted.
      Otherwise, a row left with shares keeps the quote's name and price and every
      other row is untouched, and a row left empty is deleted together with every
      other zero-share row of any user, while every row with shares survives. */
  lemma SellSettles(db: Db, user: UserId, symbol: string, shares: FormInt, quote: Option<Quote>, prices: map<string, int>)
    requires !Sell(db, user, symbol, shares, quote, prices).status.Rejected?
    ensures quote.Some? && shares.Int? && user in db.cash && Key(user, symbol) in db.stocks
    ensures var s, q, n, key := Sell(db, user, symbol, shares, quote, prices), quote.value, shares.value, Key(user, symbol);
      var d, emptied := s.db, db.stocks[key].shares == n;
      && (s.status == Done <==> Priced(db.stocks, user, prices))
      && d.cash.Keys == db.cash.Keys
      && d.cash[user] == db.cash[user] + q.price * n
      && (forall u :: u in db.cash && u != user ==> d.cash[u] == db.cash[u])
      && SharesOf(d.stocks, key) == db.stocks[key].shares - n >= 0
      && (key in d.stocks ==> d.stocks[key] == Holding(q.name, db.stocks[key].shares - n, q.price))
      && (!emptied || s.status == FailedAfterWrite ==> d.stocks.Keys == db.stocks.Keys)
      && (emptied && s.status == Done ==> forall k :: k in d.stocks ==> d.stocks[k].shares != 0)
      && (forall k :: k in db.stocks && k != key ==>
            (k in d.stocks <==> db.stocks[k].shares != 0 || !emptied || s.status == FailedAfterWrite))
      && (forall k :: k in d.stocks && k != key ==> k in db.stocks && d.stocks[k] == db.stocks[k])
      && |d.log| == |db.log| + 1
      && d.log[..|db.log|] == db.log
      && d.log[|db.log|] == Tx(user, SOLD, q.symbol, q.name, n, q.price)
  {
  }

  /** A deposit is refused only for a missing user row or a field `int()` cannot read;
      otherwise it adds the amount, in dollars and of either sign, to the user's cash
      and changes neither the stocks table nor the transaction log. */
  lemma TransferCredits(db: Db, user: UserId, bank: FormInt)
    ensures var s := Transfer(db, user, bank);
      && (s.status.Done? <==> user in db.cash && bank.Int?)
      && (s.status.Rejected? ==> s.db == db && s.status.why == ServerError)
      && s.db.stocks == db.stocks
      && s.db.log == db.log
      && s.db.cash.Keys == db.cash.Keys
      && (s.status.Done? ==> s.db.cash[user] == db.cash[user] + 100 * bank.value)
      && (forall u :: u in db.cash && u != user ==> s.db.cash[u] == db.cash[u])
  {
  }

  /** No request makes a share count negative. */
  lemma RequestsKeepSharesNonNegative(db: Db, user: UserId, symbol: string, shares: FormInt, quote: Option<Quote>, prices: map<string, int>, bank: FormInt)
    requires NonNegative(db.stocks)
    ensures NonNegative(Buy(db, user, symbol, shares, quote, prices).db.stocks)
    ensures NonNegative(Sell(db, user, symbol, shares, quote, prices).db.stocks)
    ensures NonNegative(Transfer(db, user, bank).db.stocks)
  {
  }
}
