/** Portfolio valuation as the index page (and the tails of the buy and sell
    handlers) compute it: the user's cash plus, over the user's stocks rows, the
    shares times the price `lookup` reports now. `prices` is the quote service: a
    symbol it has no entry for makes `lookup` return `None`, and subscripting that
    raises. */
module Portfolio {
  import opened Finance
  import Settlement

  /** `shares * price` of the row `k` at the current price (nothing for a missing row
      or an unquoted symbol). */
  function RowValue(stocks: map<Key, Holding>, prices: map<string, int>, k: Key): int {
    if k in stocks && k.symbol in prices then stocks[k].shares * prices[k.symbol] else 0
  }

  /** `sum(balance)` over a set of rows: the query's rows come in no specified order. */
  ghost function Worth(rows: set<Key>, stocks: map<Key, Holding>, prices: map<string, int>): int
    decreases rows
  {
    if rows == {} then 0
    else
      var k :| k in rows;
      RowValue(stocks, prices, k) + Worth(rows - {k}, stocks, prices)
  }

  /** `portfolio_total`, or the failure of an unquoted holding or a missing user row. */
  ghost function Value(db: Db, user: UserId, prices: map<string, int>): Result<int> {
    if !Priced(db.stocks, user, prices) || user !in db.cash then Err(ServerError)
    else Ok(db.cash[user] + Worth(Owned(db.stocks, user), db.stocks, prices))
  }

  /** The sum does not depend on which row is taken first. */
  lemma {:induction false} WorthRemove(rows: set<Key>, k: Key, stocks: map<Key, Holding>, prices: map<string, int>)
    requires k in rows
    ensures Worth(rows, stocks, prices) == RowValue(stocks, prices, k) + Worth(rows - {k}, stocks, prices)
    decreases rows
  {
    var j :| j in rows && Worth(rows, stocks, prices) == RowValue(stocks, prices, j) + Worth(rows - {j}, stocks, prices);
    if j != k {
      WorthRemove(rows - {j}, k, stocks, prices);
      WorthRemove(rows - {k}, j, stocks, prices);
      assert rows - {j} - {k} == rows - {k} - {j};
    }
  }

  /** Rows worth nothing can be dropped, and rows of equal value can be swapped,
      without changing the sum. */
  lemma {:induction false} WorthDropZeros(rows: set<Key>, kept: set<Key>, s1: map<Key, Holding>, s2: map<Key, Holding>, prices: map<string, int>)
    requires kept <= rows
    requires forall k :: k in kept ==> RowValue(s1, prices, k) == RowValue(s2, prices, k)
    requires forall k :: k in rows && k !in kept ==> RowValue(s1, prices, k) == 0
    ensures Worth(rows, s1, prices) == Worth(kept, s2, prices)
    decreases rows
  {
    if rows != {} {
      var j :| j in rows;
      WorthRemove(rows, j, s1, prices);
      if j in kept {
        WorthRemove(kept, j, s2, prices);
        WorthDropZeros(rows - {j}, kept - {j}, s1, s2, prices);
      } else {
        WorthDropZeros(rows - {j}, kept, s1, s2, prices);
      }
    }
  }

  /** Writing one row changes a user's holdings worth by that row's change in value,
      and leaves every other user's worth alone. */
  lemma WorthUpdate(stocks: map<Key, Holding>, user: UserId, key: Key, h: Holding, prices: map<string, int>)
    ensures var s' := stocks[key := h];
      Worth(Owned(s', user), s', prices) ==
        if key.user == user
        then Worth(Owned(stocks, user), stocks, prices) - RowValue(stocks, prices, key) + RowValue(s', prices, key)
        else Worth(Owned(stocks, user), stocks, prices)
  {
    var s' := stocks[key := h];
    var o, o' := Owned(stocks, user), Owned(s', user);
    if key.user == user {
      var rest := o' - {key};
      assert o' == o + {key};
      WorthRemove(o', key, s', prices);
      WorthDropZeros(rest, rest, stocks, s', prices);
      if key in o {
        WorthRemove(o, key, stocks, prices);
        assert o - {key} == rest;
      } else {
        assert o == rest;
      }
    } else {
      assert o' == o;
      WorthDropZeros(o, o, stocks, s', prices);
    }
  }

  /** Deleting the zero-share rows leaves every user's worth as it was. */
  lemma WorthAfterDelete(stocks: map<Key, Holding>, user: UserId, prices: map<string, int>)
    ensures var d := Settlement.DeleteZeroRows(stocks);
      && Owned(d, user) <= Owned(stocks, user)
      && Worth(Owned(d, user), d, prices) == Worth(Owned(stocks, user), stocks, prices)
  {
    var d := Settlement.DeleteZeroRows(stocks);
    WorthDropZeros(Owned(stocks, user), Owned(d, user), stocks, d, prices);
  }

  /** With no holdings the total is the cash. */
  lemma ValueOfEmptyPortfolio(db: Db, user: UserId, prices: map<string, int>)
    requires user in db.cash && Owned(db.stocks, user) == {}
    ensures Value(db, user, prices) == Ok(db.cash[user])
  {
  }

  /** A buy settled at the price the quote service still reports leaves every user's
      portfolio total unchanged: the cash paid equals the value of the shares gained.
      This holds whether or not the buyer's closing valuation raised. */
  lemma BuyAtMarketKeepsValue(db: Db, user: UserId, symbol: string, shares: FormInt, quote: Option<Quote>, viewer: UserId, prices: map<string, int>)
    requires quote.Some? && Upper(symbol) in prices && prices[Upper(symbol)] == quote.value.price
    ensures Value(Settlement.Buy(db, user, symbol, shares, quote, prices).db, viewer, prices) == Value(db, viewer, prices)
  {
    var s := Settlement.Buy(db, user, symbol, shares, quote, prices);
    if !s.status.Rejected? {
      var p, n, key := quote.value.price, shares.value, Key(user, Upper(symbol));
      var held := SharesOf(db.stocks, key);
      var h := Holding(quote.value.name, held + n, p);
      assert s.db.stocks == db.stocks[key := h];
      WorthUpdate(db.stocks, viewer, key, h, prices);
      assert Owned(s.db.stocks, viewer) == Owned(db.stocks, viewer) + (if key.user == viewer then {key} else {});
      assert (held + n) * p == held * p + n * p;
    }
  }

  /** A sell settled at the price the quote service still reports leaves every user's
      portfolio total unchanged, the deletion of zero-share rows included. (Every held
      symbol must be quoted beforehand: the deletion can remove the one unquoted row
      that made the valuation fail.) */
  lemma SellAtMarketKeepsValue(db: Db, user: UserId, symbol: string, shares: FormInt, quote: Option<Quote>, viewer: UserId, prices: map<string, int>)
    requires quote.Some? && symbol in prices && prices[symbol] == quote.value.price
    requires Priced(db.stocks, viewer, prices)
    ensures Value(Settlement.Sell(db, user, symbol, shares, quote, prices).db, viewer, prices) == Value(db, viewer, prices)
  {
    var s := Settlement.Sell(db, user, symbol, shares, quote, prices);
    if !s.status.Rejected? {
      var p, n, key := quote.value.price, shares.value, Key(user, symbol);
      var held := db.stocks[key].shares;
      var h := Holding(quote.value.name, held - n, p);
      var updated := db.stocks[key := h];
      WorthUpdate(db.stocks, viewer, key, h, prices);
      assert Owned(updated, viewer) == Owned(db.stocks, viewer);
      assert (held - n) * p == held * p - n * p;
      if held - n == 0 && s.status.Done? {
        WorthAfterDelete(updated, viewer, prices);
      }
    }
  }

  /** A deposit raises the depositor's total by the amount, in cents, and no one
      else's. */
  lemma TransferRaisesValue(db: Db, user: UserId, bank: FormInt, viewer: UserId, prices: map<string, int>)
    ensures var s, before := Settlement.Transfer(db, user, bank), Value(db, viewer, prices);
      Value(s.db, viewer, prices) ==
        if s.status.Done? && viewer == user && before.Ok? then Ok(before.value + 100 * bank.value) else before
  {
  }
}
