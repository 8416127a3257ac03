/** A client of `Database.Ledger` that walks through one user's trades using only
    the methods' contracts and the lemmas about them. */
module Scenarios {
  import opened Finance
  import Settlement
  import Database

  method BuyThenSellAll() {
    var aaa := Quote("AAA", "Triple A", 50);
    var ledger := new Database.Ledger(map[1 := 10000, 2 := 100]);

    // 10 shares at 50: 500 is debited, one row and one BOUGHT record appear.
    var status := ledger.Buy(1, "aaa", Int(10), Some(aaa), map["AAA" := 50]);
    assert Upper("aaa") == "AAA";
    assert status == Done;
    assert ledger.cash[1] == 9500;
    assert ledger.stocks == map[Key(1, "AAA") := Holding("Triple A", 10, 50)];
    assert ledger.log == [Tx(1, BOUGHT, "AAA", "Triple A", 10, 50)];

    // User 2 cannot afford the same order; nothing changes.
    status := ledger.Buy(2, "AAA", Int(10), Some(aaa), map["AAA" := 50]);
    assert Upper("AAA") == "AAA";
    assert status == Rejected(InsufficientFunds);
    assert ledger.cash[2] == 100 && |ledger.log| == 1;

    // Selling all 10 at 60 credits 600 and removes the emptied row.
    var later := aaa.(price := 60);
    status := ledger.Sell(1, "AAA", Int(10), Some(later), map["AAA" := 60]);
    assert status == Done;
    assert ledger.cash[1] == 10100;
    assert Key(1, "AAA") !in ledger.stocks;
    assert |ledger.log| == 2 && ledger.log[1] == Tx(1, SOLD, "AAA", "Triple A", 10, 60);

    // A blank deposit field makes `int()` raise; 5 dollars add 500 cents.
    status := ledger.Transfer(1, Blank);
    assert status == Rejected(ServerError);
    status := ledger.Transfer(1, Int(5));
    assert status == Done && ledger.cash[1] == 10600;
  }

  /** Selling out of one symbol while another held symbol has lost its quote: the
      closing valuation raises after the sale is written, so the emptied row stays. */
  method SellWhileAQuoteIsGone() {
    var ledger := new Database.Ledger(map[1 := 10000]);
    var status := ledger.Buy(1, "AAA", Int(10), Some(Quote("AAA", "Triple A", 50)), map["AAA" := 50, "BBB" := 20]);
    assert Upper("AAA") == "AAA";
    assert status == Done;
    status := ledger.Buy(1, "BBB", Int(5), Some(Quote("BBB", "Double B", 20)), map["AAA" := 50, "BBB" := 20]);
    assert Upper("BBB") == "BBB";
    assert status == Done && ledger.cash[1] == 9400;

    // "BBB" is no longer quoted when the sale of all the AAA shares is valued.
    assert Key(1, "BBB") in Owned(ledger.stocks, 1);
    status := ledger.Sell(1, "AAA", Int(10), Some(Quote("AAA", "Triple A", 60)), map["AAA" := 60]);
    assert status == FailedAfterWrite;
    assert ledger.cash[1] == 10000;
    assert ledger.stocks[Key(1, "AAA")] == Holding("Triple A", 0, 60);
    assert |ledger.log| == 3;
  }
}
