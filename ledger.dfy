/** The database the request handlers update in place: the users' cash column, the
    stocks table and the transactions table, with one method per handler. Each
    method performs the handler's reads, guards and writes in the handler's order,
    and is proved to end in the state and outcome that `Settlement` and `Portfolio`
    specify. */
module Database {
  import opened Finance
  import Settlement
  import Portfolio

  class Ledger {
    var cash: map<UserId, int>
    var stocks: map<Key, Holding>
    var log: seq<Tx>

    /** The three tables as one value. */
    function State(): Db
      reads this
    {
      Db(cash, stocks, log)
    }

    ghost predicate Valid()
      reads this
    {
      NonNegative(stocks)
    }

    /** A database with the registered users' cash and no trades yet. */
    constructor (accounts: map<UserId, int>)
      ensures Valid()
      ensures State() == Db(accounts, map[], [])
    {
      cash, stocks, log := accounts, map[], [];
    }

    /** POST /buy; `prices` answers the lookups of the closing valuation. */
    method Buy(user: UserId, symbol: string, shares: FormInt, quote: Option<Quote>, prices: map<string, int>) returns (status: Outcome)
      requires Valid()
      modifies this
      ensures Valid()
      ensures Step(State(), status) == Settlement.Buy(old(State()), user, symbol, shares, quote, prices)
    {
      var sym := Upper(symbol);
      if quote.None? {
        return Rejected(InvalidSymbol);
      }
      if shares.Blank? {
        return Rejected(MissingShares);
      }
      if shares.NotAnInt? {
        return Rejected(ServerError);
      }
      var q, n := quote.value, shares.value;
      if n < 0 {
        return Rejected(NegativeShares);
      }
      if user !in cash {
        return Rejected(ServerError);
      }
      var userCash := cash[user];
      var totalPrice := q.price * n;
      if userCash < totalPrice {
        return Rejected(InsufficientFunds);
      }
      log := log + [Tx(user, BOUGHT, q.symbol, q.name, n, q.price)];
      cash := cash[user := userCash - totalPrice];
      var key := Key(user, sym);
      if key in stocks {
        stocks := stocks[key := Holding(q.name, stocks[key].shares + n, q.price)];
      } else {
        stocks := stocks[key := Holding(q.name, n, q.price)];
      }
      var total := PortfolioTotal(user, prices);
      if total.Err? {
        return FailedAfterWrite;
      }
      status := Done;
    }

    /** POST /sell; `prices` answers the lookups of the closing valuation, which
        runs before the zero-share delete. */
    method Sell(user: UserId, symbol: string, shares: FormInt, quote: Option<Quote>, prices: map<string, int>) returns (status: Outcome)
      requires Valid()
      modifies this
      ensures Valid()
      ensures Step(State(), status) == Settlement.Sell(old(State()), user, symbol, shares, quote, prices)
    {
      if quote.None? {
        return Rejected(ServerError);
      }
      if shares.Blank? {
        return Rejected(MissingShares);
      }
      if shares.NotAnInt? {
        return Rejected(ServerError);
      }
      var q, n := quote.value, shares.value;
      if n < 0 {
        return Rejected(NegativeShares);
      }
      if user !in cash {
        return Rejected(ServerError);
      }
      var userCash := cash[user];
      var key := Key(user, symbol);
      if key !in stocks {
        return Rejected(ServerError);
      }
      var totalShares := stocks[key].shares;
      var totalPrice := q.price * n;
      if totalShares < n {
        return Rejected(InsufficientShares);
      }
      log := log + [Tx(user, SOLD, q.symbol, q.name, n, q.price)];
      cash := cash[user := userCash + totalPrice];
      // The row read above is still there, so the handler's insert branch is never taken.
      assert key in stocks;
      totalShares := stocks[key].shares - n;
      stocks := stocks[key := Holding(q.name, totalShares, q.price)];
      var total := PortfolioTotal(user, prices);
      if total.Err? {
        return FailedAfterWrite;
      }
      if totalShares == 0 {
        stocks := Settlement.DeleteZeroRows(stocks);
      }
      status := Done;
    }

    /** POST /transfer; the field is in dollars and the cash column in cents. */
    method Transfer(user: UserId, bank: FormInt) returns (status: Outcome)
      requires Valid()
      modifies this
      ensures Valid()
      ensures Step(State(), status) == Settlement.Transfer(old(State()), user, bank)
    {
      if user !in cash {
        return Rejected(ServerError);
      }
      var balance := cash[user];
      if !bank.Int? {
        return Rejected(ServerError);
      }
      cash := cash[user := balance + 100 * bank.value];
      status := Done;
    }

    /** The valuation loop of the index page: each of the user's rows is priced
        through the quote service and its `shares * price` added up, then the cash is
        added. An unquoted symbol fails the whole valuation. */
    method PortfolioTotal(user: UserId, prices: map<string, int>) returns (r: Result<int>)
      ensures r == Portfolio.Value(State(), user, prices)
    {
      var rows := Owned(stocks, user);
      var todo := rows;
      var balance := 0;
      while todo != {}
        invariant todo <= rows
        invariant forall k :: k in rows && k !in todo ==> k.symbol in prices
        invariant balance + Portfolio.Worth(todo, stocks, prices) == Portfolio.Worth(rows, stocks, prices)
        decreases todo
      {
        var k :| k in todo;
        if k.symbol !in prices {
          return Err(ServerError);
        }
        Portfolio.WorthRemove(todo, k, stocks, prices);
        balance := balance + stocks[k].shares * prices[k.symbol];
        todo := todo - {k};
      }
      if user !in cash {
        return Err(ServerError);
      }
      r := Ok(cash[user] + balance);
    }
  }
}
