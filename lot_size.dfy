/**
 * The contract-size policy shared by the settlement engine and the PnL
 * preview: FX-style symbols quoted in USDT trade in lots of 100 000 units,
 * everything else in lots of one unit.
 */
module LotSizePolicy {
  import opened Text

  const FxLot: int := 100_000

  /** The base-currency prefixes that mark an FX-style symbol. */
  predicate HasFxPrefix(s: string) {
    StartsWith(s, "EUR") || StartsWith(s, "GBP") || StartsWith(s, "AUD")
    || StartsWith(s, "NZD") || StartsWith(s, "USD") || StartsWith(s, "JPY")
  }

  /** The contract size of a symbol: 100 000 for `<FX>...USDT`, otherwise 1 (case-insensitive). */
  function LotSize(symbol: string): (n: int)
    ensures n == FxLot || n == 1
    ensures n > 0
  {
    var s := Upper(symbol);
    if EndsWith(s, "USDT") && HasFxPrefix(s) then FxLot else 1
  }

  /** The policy is decided on the upper-cased symbol, so case does not matter. */
  lemma LotSizeIgnoresCase(symbol: string)
    ensures LotSize(symbol) == LotSize(Upper(symbol))
  {
    UpperIdempotent(symbol);
  }

  /** The FX size is taken exactly when the upper-cased symbol ends in USDT and has an FX prefix. */
  lemma LotSizeIsFxIff(symbol: string)
    ensures LotSize(symbol) == FxLot <==> EndsWith(Upper(symbol), "USDT") && HasFxPrefix(Upper(symbol))
  {
  }

  /** A crypto pair trades in single units. */
  lemma CryptoPairExample()
    ensures LotSize("BTCUSDT") == 1
  {
    var u := Upper("BTCUSDT");
    assert u[..3] == "BTC";
  }

  /** An FX proxy trades in lots of 100 000, whatever its case. */
  lemma FxPairExample()
    ensures LotSize("eurusdt") == FxLot
  {
    var u := Upper("eurusdt");
    assert u[..3] == "EUR" && u[|u| - 4..] == "USDT";
  }

  /** A stablecoin pair also matches the USD prefix and gets the FX size. */
  lemma StablecoinPairExample()
    ensures LotSize("USDCUSDT") == FxLot
  {
    var u := Upper("USDCUSDT");
    assert u[..3] == "USD" && u[|u| - 4..] == "USDT";
  }

  /**
   * The order panel's own copy of the policy (`lotSizeForSymbol`),
   * written as the browser client writes it.
   */
  function ClientLotSizeForSymbol(symbol: string): (n: int)
    ensures n == LotSize(symbol)
  {
    var s := Upper(symbol);
    if EndsWith(s, "USDT")
       && (StartsWith(s, "EUR") || StartsWith(s, "GBP") || StartsWith(s, "AUD")
           || StartsWith(s, "NZD") || StartsWith(s, "USD") || StartsWith(s, "JPY"))
    then 100_000
    else 1
  }
}
