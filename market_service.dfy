/**
 * The in-memory last-price table. A new price is stored under the
 * upper-cased symbol and immediately runs the stop-loss / take-profit
 * sweep of the trade engine for that symbol.
 */
module MarketService {
  import opened Common
  import opened Text
  import opened Store
  import opened WalletService
  import opened TradeEngine

  /** The answer of `setPrice`: refused, or the stored symbol and price. */
  datatype PriceAck = Rejected | Accepted(symbol: string, price: real)

  class Market {
    /** Last price per symbol, keyed by the upper-cased symbol. */
    var prices: map<string, real>

    /** Every key is already upper case and every price is positive. */
    predicate Valid()
      reads this
    {
      forall s | s in prices :: Upper(s) == s && prices[s] > 0.0
    }

    constructor ()
      ensures prices == map[] && Valid()
    {
      prices := map[];
    }

    /** `getPrice`: the last price of a symbol, looked up case-insensitively. */
    function GetPrice(symbol: string): (r: Option<real>)
      reads this
      ensures r.Some? <==> Upper(symbol) in prices
      ensures Valid() && r.Some? ==> r.value > 0.0
    {
      if Upper(symbol) in prices then Some(prices[Upper(symbol)]) else None
    }

    /**
     * `getAllPrices`: the whole table. Each key is an upper-cased symbol
     * whose entry is what `GetPrice` reports, and every symbol with a price
     * has its upper-cased form as a key, so no entry is missing or extra.
     */
    function GetAllPrices(): (r: map<string, real>)
      requires Valid()
      reads this
      ensures forall s | s in r :: Upper(s) == s
      ensures forall s | s in r :: GetPrice(s) == Some(r[s]) && r[s] > 0.0
      ensures forall s :: GetPrice(s).Some? ==> Upper(s) in r
    {
      prices
    }

    /**
     * `setPrice`. An empty symbol or a price that is not a finite positive
     * number is refused and changes nothing. Otherwise the price is stored
     * under the upper-cased symbol, no other symbol's price changes, and
     * every open position of that symbol whose level the price reaches is
     * closed by the trade engine.
     */
    method SetPrice(db: Database, symbol: string, price: Num, now: int) returns (r: PriceAck, ghost order: seq<string>)
      requires Valid()
      modifies this, db`positions, db`history, db`wallets
      ensures Valid()
      ensures r.Rejected? <==> symbol == "" || !IsPositive(price)
      ensures r.Rejected? ==> prices == old(prices) && db.positions == old(db.positions)
                              && db.history == old(db.history) && db.wallets == old(db.wallets)
      ensures r.Accepted? ==> && r == Accepted(Upper(symbol), price.value)
                              && prices == old(prices)[Upper(symbol) := price.value]
                              && GetPrice(symbol) == Some(price.value)
                              && db.positions == Tick(old(db.positions), symbol, price.value, now)
                              && |db.history| == |old(db.history)| + |Hits(old(db.positions), symbol, price.value)|
      ensures forall s | Upper(s) != Upper(symbol) :: GetPrice(s) == old(GetPrice(s))
      ensures TradeEngine.Valid(db.orders, old(db.positions), old(db.history)) ==> TradeEngine.Valid(db.orders, db.positions, db.history)
      ensures NonNegative(old(db.wallets)) ==> NonNegative(db.wallets)
      ensures r.Accepted? ==> && (forall id :: id in order <==> id in Hits(old(db.positions), symbol, price.value))
                              && db.wallets == CloseAll(old(Book(db.positions, db.history, db.wallets)), order, price.value, now).wallets
    {
      order := [];
      var sym := Upper(symbol);
      if sym == "" {
        return Rejected, [];
      }
      if !price.Finite? || price.value <= 0.0 {
        return Rejected, [];
      }
      UpperIdempotent(symbol);
      prices := prices[sym := price.value];
      order := CheckHitForSymbol(db, sym, price.value, now);
      TickSameSymbol(old(db.positions), symbol, price.value, now);
      r := Accepted(sym, price.value);
    }
  }

  /** The sweep for a symbol and for its upper-cased form are the same sweep. */
  lemma TickSameSymbol(positions: map<string, Position>, symbol: string, price: real, now: int)
    ensures Tick(positions, Upper(symbol), price, now) == Tick(positions, symbol, price, now)
    ensures Hits(positions, Upper(symbol), price) == Hits(positions, symbol, price)
  {
    UpperIdempotent(symbol);
  }
}
