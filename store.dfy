/**
 * The persistent records of the trading back end (the shapes of its
 * database entities) and the database itself: one object whose fields are
 * the tables, each an in-memory map keyed by the table's primary key, and
 * the trade history as an append-only sequence.
 */
module Store {
  import opened Common

  datatype Side = Buy | Sell

  /** `side === 'buy' | 'sell'`; any other string is not a side. */
  function SideOf(s: string): (r: Option<Side>)
    ensures r == Some(Buy) <==> s == "buy"
    ensures r == Some(Sell) <==> s == "sell"
  {
    if s == "buy" then Some(Buy) else if s == "sell" then Some(Sell) else None
  }

  datatype OrderType = MarketOrder
  datatype OrderStatus = Filled
  datatype PositionStatus = Open | Closed
  datatype CloseReason = Manual | TakeProfit | StopLoss

  /** An order: the immutable record of a filled market order. */
  datatype Order = Order(
    id: string, userId: string, symbol: string, side: Side, orderType: OrderType,
    lots: real, entryPrice: real, stopLoss: Option<real>, takeProfit: Option<real>,
    status: OrderStatus, createdAt: int)

  /** A position: the mutable unit of risk opened by an order. */
  datatype Position = Position(
    id: string, orderId: string, userId: string, symbol: string, side: Side,
    lots: real, entryPrice: real, stopLoss: Option<real>, takeProfit: Option<real>,
    status: PositionStatus, closePrice: Option<real>, closeReason: Option<CloseReason>,
    closedAt: Option<int>, marginReserved: real, accountType: AccountKind, openedAt: int)

  /** One row of the trade history, written when a position closes. */
  datatype TradeRecord = TradeRecord(
    id: int, userId: string, orderId: string, positionId: string, symbol: string,
    side: Side, lots: real, entryPrice: real, exitPrice: real, pnl: real, createdAt: int)

  /** A wallet row is identified by its owner and its currency symbol. */
  datatype WalletKey = WalletKey(userId: string, symbol: string)

  const UsdDemo: string := "USD_DEMO"
  const UsdReal: string := "USD_REAL"
  /** The single USD row older versions kept; read as the real balance when no USD_REAL row exists. */
  const UsdLegacy: string := "USD"

  datatype AccountTier = DemoTier | Live
  datatype Role = AdminRole | UserRole

  datatype User = User(
    id: string, email: string, name: string, passwordHash: Option<string>,
    accountType: AccountTier, role: Role, isLocked: bool, createdAt: int)

  datatype DepositStatus = Pending | Success | Failed

  /** A VNPay deposit: `amount` in VND, `amountUsd` what the real wallet is credited. */
  datatype Deposit = Deposit(
    orderId: string, userId: string, amount: real, amountUsd: real, status: DepositStatus,
    vnpTransactionNo: Option<string>, vnpResponseCode: Option<string>,
    ipnPayload: Option<map<string, string>>, creditedAt: Option<int>, createdAt: int)

  /** A user's security confirmation (identity and bank details), keyed by the user. */
  datatype Confirmation = Confirmation(
    userId: string, address: string, citizenId: string, bankAccountNumber: string,
    bankName: string, bankAccountCreatedAt: int, confirmedAt: int)

  /** The seeded demo user. */
  const DemoUserId: string := "demo-user-001"
  const DemoUserEmail: string := "demo@trading.com"
  const DemoUserName: string := "Demo Trader"

  /** The demo user's seed wallet rows: symbol and amount. */
  const DemoWallet: seq<(string, real)> :=
    [(UsdDemo, 25000.0), (UsdReal, 0.0), ("BTC", 0.25), ("ETH", 3.0), ("XAU", 2.0)]

  /** `DEMO_WALLET.find(a => a.symbol === 'USD' || a.symbol === 'USD_DEMO')?.amount`. */
  function FindDemoUsd(rows: seq<(string, real)>): (r: Option<real>)
    ensures r.Some? ==> exists i :: FirstDemoUsdRow(rows, i) && rows[i].1 == r.value
    ensures r.None? ==> forall i :: 0 <= i < |rows| ==> !IsDemoUsdSymbol(rows[i].0)
  {
    if rows == [] then None
    else if IsDemoUsdSymbol(rows[0].0) then
      assert FirstDemoUsdRow(rows, 0);
      Some(rows[0].1)
    else
      var t := FindDemoUsd(rows[1..]);
      assert t.Some? ==> exists i :: FirstDemoUsdRow(rows, i) && rows[i].1 == t.value by {
        if t.Some? {
          var i :| FirstDemoUsdRow(rows[1..], i) && rows[1..][i].1 == t.value;
          assert FirstDemoUsdRow(rows, i + 1);
        }
      }
      t
  }

  /** The symbols `find` is looking for: the legacy `USD` and `USD_DEMO`. */
  predicate IsDemoUsdSymbol(symbol: string) {
    symbol == UsdLegacy || symbol == UsdDemo
  }

  /** Row `i` is the first row holding one of those symbols. */
  predicate FirstDemoUsdRow(rows: seq<(string, real)>, i: int) {
    && 0 <= i < |rows|
    && IsDemoUsdSymbol(rows[i].0)
    && forall j :: 0 <= j < i ==> !IsDemoUsdSymbol(rows[j].0)
  }

  /** The amount a demo wallet is reset to. */
  function DemoInitialBalance(): (r: real)
    ensures r == 25000.0
  {
    FindDemoUsd(DemoWallet).GetOr(25000.0)
  }

  /** The database: every table the core reads or writes. */
  class Database {
    var users: map<string, User>
    var wallets: map<WalletKey, real>
    var orders: map<string, Order>
    var positions: map<string, Position>
    var history: seq<TradeRecord>
    var deposits: map<string, Deposit>
    var confirmations: map<string, Confirmation>

    constructor ()
      ensures users == map[] && wallets == map[] && orders == map[] && positions == map[]
      ensures history == [] && deposits == map[] && confirmations == map[]
    {
      users := map[];
      wallets := map[];
      orders := map[];
      positions := map[];
      history := [];
      deposits := map[];
      confirmations := map[];
    }
  }
}
