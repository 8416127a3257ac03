/** The transactions table as an audit trail of the stocks table: every row's share
    count is the net of the BOUGHT and SOLD records for that user and symbol. */
module Audit {
  import opened Finance
  import Settlement

  /** The signed share change that one transaction records for the row `k`. */
  function Delta(t: Tx, k: Key): int {
    if t.user != k.user || t.symbol != k.symbol then 0
    else if t.exchange == BOUGHT then t.shares
    else -t.shares
  }

  /** Shares bought minus shares sold for `k` over the whole log. */
  function NetShares(log: seq<Tx>, k: Key): int {
    if log == [] then 0 else NetShares(log[..|log| - 1], k) + Delta(log[|log| - 1], k)
  }

  /** The stocks table agrees with the transaction log, row by row; a missing row
      counts as zero shares. */
  ghost predicate Consistent(db: Db) {
    forall k :: SharesOf(db.stocks, k) == NetShares(db.log, k)
  }

  /** A freshly created database, with users and no trades, is consistent. */
  lemma EmptyIsConsistent(cash: map<UserId, int>)
    ensures Consistent(Db(cash, map[], []))
  {
  }

  /** Deleting zero-share rows changes no row's share count. */
  lemma DeleteZeroRowsKeepsShares(stocks: map<Key, Holding>, k: Key)
    ensures SharesOf(Settlement.DeleteZeroRows(stocks), k) == SharesOf(stocks, k)
  {
  }

  /** A buy keeps the stocks table and the log in agreement, provided the quote's
      symbol is the upper-cased form symbol that keys the stocks row (the log records
      the former, the stocks table the latter). */
  lemma BuyKeepsConsistent(db: Db, user: UserId, symbol: string, shares: FormInt, quote: Option<Quote>, prices: map<string, int>)
    requires Consistent(db)
    requires quote.Some? ==> quote.value.symbol == Upper(symbol)
    ensures Consistent(Settlement.Buy(db, user, symbol, shares, quote, prices).db)
  {
  }

  /** A sell keeps the stocks table and the log in agreement, provided the quote's
      symbol is the form symbol that keys the stocks row. */
  lemma SellKeepsConsistent(db: Db, user: UserId, symbol: string, shares: FormInt, quote: Option<Quote>, prices: map<string, int>)
    requires Consistent(db)
    requires quote.Some? ==> quote.value.symbol == symbol
    ensures Consistent(Settlement.Sell(db, user, symbol, shares, quote, prices).db)
  {
  }

  /** A deposit leaves both tables as they were, so it keeps them in agreement. */
  lemma TransferKeepsConsistent(db: Db, user: UserId, bank: FormInt)
    requires Consistent(db)
    ensures Consistent(Settlement.Transfer(db, user, bank).db)
  {
  }

  /** The quote a trade records is for the very symbol that keys its stocks row. */
  predicate SymbolsAgree(r: Settlement.Request) {
    match r
    case BuyRequest(_, symbol, _, quote, _) => quote.Some? ==> quote.value.symbol == Upper(symbol)
    case SellRequest(_, symbol, _, quote, _) => quote.Some? ==> quote.value.symbol == symbol
    case TransferRequest(_, _) => true
  }

  /** Agreement survives any series of requests whose quotes match their symbols. */
  lemma {:induction false} RunKeepsConsistent(db: Db, rs: seq<Settlement.Request>)
    requires Consistent(db)
    requires forall i :: 0 <= i < |rs| ==> SymbolsAgree(rs[i])
    ensures Consistent(Settlement.Run(db, rs))
    decreases |rs|
  {
    if rs != [] {
      var r := rs[0];
      match r {
        case BuyRequest(user, symbol, shares, quote, prices) =>
          BuyKeepsConsistent(db, user, symbol, shares, quote, prices);
        case SellRequest(user, symbol, shares, quote, prices) =>
          SellKeepsConsistent(db, user, symbol, shares, quote, prices);
        case TransferRequest(user, bank) =>
          TransferKeepsConsistent(db, user, bank);
      }
      RunKeepsConsistent(Settlement.Apply(db, r).db, rs[1..]);
    }
  }

  /** From the state of a freshly created database, the stocks table equals the net
      of the transaction log after any series of requests whose quotes match their
      symbols. */
  lemma ConsistentFromOpening(cash: map<UserId, int>, rs: seq<Settlement.Request>)
    requires forall i :: 0 <= i < |rs| ==> SymbolsAgree(rs[i])
    ensures Consistent(Settlement.Run(Db(cash, map[], []), rs))
  {
    EmptyIsConsistent(cash);
    RunKeepsConsistent(Db(cash, map[], []), rs);
  }
}
