/** Values shared by the trade-settlement ledger of the stock-trading simulator:
    the rows of its three tables (users' cash, stocks, transactions), the quote
    returned by the price service, the raw form input and the request outcome. */
module Finance {

  /** `session["user_id"]`: the primary key of the users table. */
  type UserId = int

  /** What `lookup(symbol)` returns when the symbol is known. Money is in integer cents. */
  datatype Quote = Quote(symbol: string, name: string, price: int)

  /** A numeric form field as the handlers read it with `request.form.get`:
      `Blank` is a missing or empty field (`not shares` holds), `Int(v)` a text that
      `int()` converts to `v`, and `NotAnInt` a text on which `int()` raises. */
  datatype FormInt = Blank | Int(value: int) | NotAnInt

  /** The `exchange` column of a transaction. */
  datatype Exchange = BOUGHT | SOLD

  /** One row of the append-only transactions table (the timestamp column is
      filled by the database and not modelled). */
  datatype Tx = Tx(user: UserId, exchange: Exchange, symbol: string, name: string, shares: int, price: int)

  /** The (user_id, symbol) pair that identifies a row of the stocks table. */
  datatype Key = Key(user: UserId, symbol: string)

  /** The remaining columns of a stocks row: a name/price snapshot and the share count. */
  datatype Holding = Holding(name: string, shares: int, price: int)

  /** The whole database: users.cash by user, the stocks table, the transactions table. */
  datatype Db = Db(cash: map<UserId, int>, stocks: map<Key, Holding>, log: seq<Tx>)

  /** Why a request ended in `apology(...)` without writing anything. `ServerError`
      stands for an exception that the registered `errorhandler` turns into an
      apology page (`int()` on a non-number, indexing an empty query result,
      subscripting a missing quote). */
  datatype Failure =
    | InvalidSymbol
    | MissingShares
    | NegativeShares
    | InsufficientFunds
    | InsufficientShares
    | ServerError

  /** How a request ended: `Done` after all its writes; `Rejected` before any write;
      `FailedAfterWrite` when the valuation at the end of a trade raised on a
      symbol `lookup` no longer quotes, after the trade's writes were made (they
      stay: nothing is rolled back). */
  datatype Outcome = Done | Rejected(why: Failure) | FailedAfterWrite

  /** The database after a request, and how the request ended. */
  datatype Step = Step(db: Db, status: Outcome)

  datatype Result<T> = Ok(value: T) | Err(error: Failure)

  /** `lookup` returns a quote or `None`. */
  datatype Option<T> = None | Some(value: T)

  /** Shares held under `k`; a missing row holds none. */
  function SharesOf(stocks: map<Key, Holding>, k: Key): int {
    if k in stocks then stocks[k].shares else 0
  }

  /** The rows `SELECT ... FROM stocks WHERE user_id=:user_id` returns. */
  function Owned(stocks: map<Key, Holding>, user: UserId): set<Key> {
    set k | k in stocks && k.user == user
  }

  /** Every symbol the user holds has a quote in `prices`, the quote service's
      current answers (a symbol without an entry is one `lookup` returns `None` for). */
  predicate Priced(stocks: map<Key, Holding>, user: UserId, prices: map<string, int>) {
    forall k :: k in Owned(stocks, user) ==> k.symbol in prices
  }

  /** No row of the stocks table has a negative share count. */
  ghost predicate NonNegative(stocks: map<Key, Holding>) {
    forall k :: k in stocks ==> stocks[k].shares >= 0
  }

  /** `str.upper` on one character, for the ASCII letters. */
  function UpperChar(c: char): char {
    if 'a' <= c <= 'z' then (c as int - 32) as char else c
  }

  /** `str.upper`, letter by letter. */
  function Upper(s: string): string {
    if s == [] then [] else [UpperChar(s[0])] + Upper(s[1..])
  }

  /** Upper-casing keeps the length, and a second pass changes nothing. */
  lemma {:induction false} UpperIdempotent(s: string)
    ensures |Upper(s)| == |s|
    ensures Upper(Upper(s)) == Upper(s)
  {
    if s != [] {
      UpperIdempotent(s[1..]);
      assert Upper(s)[0] == UpperChar(s[0]) && Upper(s)[1..] == Upper(s[1..]);
    }
  }
}
