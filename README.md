# Simulated trading engine: a Dafny model

This project models the server side of a simulated trading platform (a
NestJS back end over MySQL), together with the browser client's local
account store. Users trade market orders on symbols whose prices an
operator sets. Each order reserves a fixed one-dollar margin from one of two
USD ledgers: the demo ledger (`USD_DEMO`) or the real ledger (`USD_REAL`,
which also reads an older single `USD` row). An open position is closed in
one of two ways:

- by hand;
- by the price sweep, when a tick reaches its take-profit or stop-loss level.

A close writes one trade-history row and settles margin plus PnL back to the
ledger. Real-ledger deposits come through the VNPay gateway, and only for
users who have registered a security confirmation (citizen id and bank
account). An admin service manages users, locks them and exports the trade
history as CSV.

The modules follow the source files:

| module | file | models |
|---|---|---|
| `Common`, `Text` | common.dfy, text.dfy | shared value types: JavaScript numbers that may be NaN or infinite (`Num`), optional JSON fields (`Input`), the two ledgers, and the string operations the services use (ASCII case mapping, JavaScript white-space trimming, white-space removal) |
| `Store` | store.dfy | the database entities, and the database as a class whose fields are the tables |
| `LotSizePolicy` | lot_size.dfy | `lotSize` and the order panel's copy of it |
| `WalletService` | wallet_service.dfy | balances, `deductUsd`, `addUsd`, the demo reset and the demo balance setter |
| `TradeEngine` | trade_engine.dfy | `pnlOf`, `checkHit`, `closePosition` and the `checkHitForSymbol` sweep |
| `OrderService` | order_service.dfy | `placeMarketOrder` and `history` |
| `PositionService` | position_service.dfy | `listOpenWithPnl`, `updateStops` and `close` |
| `MarketService` | market_service.dfy | the price table (a class) and `setPrice` |
| `SecurityConfirmation` | security_confirmation.dfy | `isConfirmed` and `submit` |
| `VnpayService` | vnpay_service.dfy | `createPayment`, the two return-URL confirmations, `handleIpn` and `creditDepositSuccess` |
| `AdminService` | admin_service.dfy | `createUser`, `updateUser`, lock and unlock, `listTradeHistory` and `exportTradeHistoryCsv` |
| `UserService` | user_service.dfy | `ensureDemoUser` and `updateProfile` |
| `TradingAccount` | trading_account.dfy | the client's two `localStorage` records, as a class, and every function that reads or writes them |

How the model is built:

- **Methods and specifications.** Each service operation that updates tables
  is a method on the `Database` object. Its frame names only the tables it
  may change. The method is proved equal to a pure function of the old
  tables, and the lemmas about that function state what the service promises.
- **The trading invariant.** `TradeEngine.Valid` ties orders, positions and
  history together:
  - every position belongs to its own order;
  - a closed position has exactly one history row;
  - an open position has none.

  Placing, editing, closing and sweeping each preserve it.
- **Parameters instead of effects.** Ids, clocks, password hashes, the
  gateway's signature check and date parsing come in as parameters.
- **Money.** Server money is `real`. Client money is whole cents.

## Model

| member | source | states |
|---|---|---|
| Common.AccountKindOf | server/src/modules/order/order.service.ts:56 | the real ledger is chosen exactly for the string "real"; anything else means demo |
| Store.SideOf | server/src/modules/order/order.service.ts:45 | only "buy" and "sell" are sides, and each maps to its own side |
| Store.FindDemoUsd | server/src/modules/wallet/wallet.service.ts:97 | the amount found is that of the first seed row named USD or USD_DEMO, with no such row before it; none is found only when no row has either name |
| Store.DemoInitialBalance | server/src/modules/wallet/wallet.service.ts:97 | the demo reset amount taken from the seed list is 25 000 |
| Text.Upper | server/src/common/lot-size.ts:6 | each character is mapped to its upper-case form, and the length is unchanged |
| Text.UpperIdempotent | server/src/common/lot-size.ts:6 | upper-casing twice is upper-casing once |
| Text.Trim | server/src/modules/admin/admin.service.ts:46-47 | the trimmed string is the infix of the input that is left once white space is cut from both ends: everything before and after it is white space, and it neither starts nor ends with white space |
| Text.TrimEmptyIff | server/src/modules/admin/admin.service.ts:47-49 | a trimmed string is empty exactly when the input is all white space |
| Text.TrimIdempotent | server/src/modules/user/user.service.ts:70 | trimming twice is trimming once |
| Text.StripSpaces | server/src/modules/security-confirmation/security-confirmation.service.ts:35-37 | the result holds no white space; a string without white space is kept as it is, and an all-white-space string becomes empty |
| Text.StripSpacesConcat | server/src/modules/security-confirmation/security-confirmation.service.ts:35-37 | stripping a concatenation strips each part; with the one-character cases this makes the result exactly the input's non-space characters in their order |
| Text.StripSpacesIdempotent | server/src/modules/security-confirmation/security-confirmation.service.ts:35-36 | removing white space twice is removing it once |
| Text.SplitJoinLines | server/src/modules/admin/admin.service.ts:179 | splitting a newline-join of newline-free lines at its newlines gives back those lines |
| LotSizePolicy.LotSize | server/src/common/lot-size.ts:5-19 | a contract size is always 100 000 or 1, and positive |
| LotSizePolicy.LotSizeIgnoresCase | server/src/common/lot-size.ts:6 | the size of a symbol and of its upper-cased form agree |
| LotSizePolicy.LotSizeIsFxIff | server/src/common/lot-size.ts:7-16 | the size is 100 000 exactly when the upper-cased symbol ends in USDT and starts with EUR, GBP, AUD, NZD, USD or JPY |
| LotSizePolicy.CryptoPairExample | server/src/common/lot-size.ts:18 | BTCUSDT trades in single units |
| LotSizePolicy.FxPairExample | server/src/common/lot-size.ts:6-16 | eurusdt, in any case, trades in lots of 100 000 |
| LotSizePolicy.StablecoinPairExample | server/src/common/lot-size.ts:13-16 | USDCUSDT matches the USD prefix and takes the FX size |
| LotSizePolicy.ClientLotSizeForSymbol | client/trading/components/trading-page/order-panel.tsx:17-32 | the client's copy of the policy gives the server's size for every symbol |
| WalletService.SymbolFor | server/src/modules/wallet/wallet.service.ts:27-29 | the real ledger maps to USD_REAL, the demo ledger to USD_DEMO, and the two symbols differ |
| WalletService.DemoBalance | server/src/modules/wallet/wallet.service.ts:32-36 | the demo balance is 0 without a USD_DEMO row, and never negative in a non-negative table |
| WalletService.RealBalance | server/src/modules/wallet/wallet.service.ts:39-45 | the USD_REAL row is read first, then the legacy USD row, then 0 |
| WalletService.UsdBalance | server/src/modules/wallet/wallet.service.ts:48-50 | the balance of either ledger is non-negative in a non-negative table |
| WalletService.RelabelKeepsBalances | server/src/modules/wallet/wallet.service.ts:57-64 | moving the legacy row to USD_REAL changes no balance and no other user, and makes a usable row exist under the ledger's symbol |
| WalletService.DebitedEffect | server/src/modules/wallet/wallet.service.ts:53-72 | a debit succeeds exactly for a finite positive amount with a row whose balance covers it; the balance then drops by exactly the amount; the other ledger and other users never move; no row goes negative |
| WalletService.DeductUsd | server/src/modules/wallet/wallet.service.ts:53-72 | the method's success flag and new table are those of the debit function |
| WalletService.CreditedEffect | server/src/modules/wallet/wallet.service.ts:75-85 | a finite positive credit raises the ledger by exactly the amount, and any other amount is ignored; the other ledger and other users never move |
| WalletService.AddUsd | server/src/modules/wallet/wallet.service.ts:75-85 | the method's new table is the corrected credit function's (see Findings) |
| WalletService.AsWrittenCreditHidesLegacy | server/src/modules/wallet/wallet.service.ts:78-82 | with only a legacy row of 50, the credit as written leaves a real balance of 10 after crediting 10; the corrected credit leaves 60 |
| WalletService.DebitThenCredit | server/src/modules/wallet/wallet.service.ts:53-85 | a successful debit followed by a credit of the same amount restores the balance |
| WalletService.ResetDemoWallet | server/src/modules/wallet/wallet.service.ts:93-108 | an unknown user is refused; a non-Demo user keeps the table and gets the demo balance; a Demo user's USD_DEMO row becomes 25 000; the real balance and other users never change |
| WalletService.SetDemoUsdBalance | server/src/modules/wallet/wallet.service.ts:111-123 | a finite non-negative value becomes the USD_DEMO row, and anything else changes nothing; the answer is the demo balance; the real balance never changes |
| TradeEngine.PnlAtEntry | server/src/modules/trade-engine/trade-engine.service.ts:10-14 | at the entry price the PnL is zero |
| TradeEngine.PnlSidesOpposite | server/src/modules/trade-engine/trade-engine.service.ts:12 | a buy and a sell of the same size and entry have opposite PnL |
| TradeEngine.BuyPnlSign | server/src/modules/trade-engine/trade-engine.service.ts:10-14 | a long position gains exactly when the price is above the entry, and loses exactly when it is below |
| TradeEngine.SellPnlSign | server/src/modules/trade-engine/trade-engine.service.ts:10-14 | a short position gains exactly when the price is below the entry, and loses exactly when it is above |
| TradeEngine.CheckHit | server/src/modules/trade-engine/trade-engine.service.ts:36-47 | take-profit is reported exactly when its level is reached; stop-loss exactly when it is reached and take-profit is not; nothing otherwise |
| TradeEngine.HitIsNeverManual | server/src/modules/trade-engine/trade-engine.service.ts:36-47 | the hit rule never yields a manual close |
| TradeEngine.TakeProfitWinsTies | server/src/modules/trade-engine/trade-engine.service.ts:40-44 | when both levels are reached, take-profit wins |
| TradeEngine.NoLevelsNoHit | server/src/modules/trade-engine/trade-engine.service.ts:37-46 | a position with no levels never triggers |
| TradeEngine.BuyBetweenLevelsNoHit | server/src/modules/trade-engine/trade-engine.service.ts:39-41 | a long position priced strictly between its stop and its target is left alone |
| TradeEngine.ClosedAs | server/src/modules/trade-engine/trade-engine.service.ts:61-65 | a closed position is well formed and has status closed |
| TradeEngine.LinkedAfterUpdate | server/src/modules/trade-engine/trade-engine.service.ts:61-65 | rewriting a position as another well-formed version of the same trade keeps the links to orders |
| TradeEngine.SettledEffect | server/src/modules/trade-engine/trade-engine.service.ts:81-88 | a gain or a covered loss moves the balance by exactly the amount; an uncovered loss leaves it unchanged; the other ledger and other users never move |
| TradeEngine.ShortfallIsDropped | server/src/modules/trade-engine/trade-engine.service.ts:84-87 | a ledger of 0.5 that loses 2 keeps its 0.5 |
| TradeEngine.CloseFrame | server/src/modules/trade-engine/trade-engine.service.ts:55-57 | a close is refused exactly when the position is missing, not open, or owned by someone other than a named requester; a refused close changes nothing, and no close touches another position |
| TradeEngine.CloseRecordsOnce | server/src/modules/trade-engine/trade-engine.service.ts:58-79 | a close sets status, price (given, else entry), reason and time and keeps every other field; it appends exactly one history row with that exit price and PnL |
| TradeEngine.CloseTwiceIsNoop | server/src/modules/trade-engine/trade-engine.service.ts:56 | a second close of the same position is refused and changes nothing |
| TradeEngine.CloseSettles | server/src/modules/trade-engine/trade-engine.service.ts:81-88 | the position's ledger receives margin plus PnL, except that an uncovered loss is dropped; the other ledger and other users never move |
| TradeEngine.ManualCloseReturnsMargin | server/src/modules/trade-engine/trade-engine.service.ts:58-88 | a close without a price realises no PnL and gives back exactly the reserved margin |
| TradeEngine.HistoryKeepsValid | server/src/modules/trade-engine/trade-engine.service.ts:67-79 | appending the row of a just-closed position keeps each closed position at exactly one row |
| TradeEngine.CloseKeepsValid | server/src/modules/trade-engine/trade-engine.service.ts:49-91 | every close keeps the trading invariant, and positions only move forward |
| TradeEngine.ClosePosition | server/src/modules/trade-engine/trade-engine.service.ts:49-91 | the method's new tables and result are the close function's |
| TradeEngine.AfterTick | server/src/modules/trade-engine/trade-engine.service.ts:25-34 | a tick closes a targeted position at the tick price with the hit reason when a level is hit, and leaves every other position as it is |
| TradeEngine.TickTouchesOnlyItsSymbol | server/src/modules/trade-engine/trade-engine.service.ts:26-27 | a tick keeps every position of another symbol or already closed, and positions only move forward |
| TradeEngine.TickClosesWithHitReason | server/src/modules/trade-engine/trade-engine.service.ts:29-31 | every position the tick hits is closed, at the tick price, with the reason the hit rule gives |
| TradeEngine.TickIdempotent | server/src/modules/trade-engine/trade-engine.service.ts:25-34 | ticking the same price again closes nothing more |
| TradeEngine.CloseHit | server/src/modules/trade-engine/trade-engine.service.ts:31 | one close of the sweep closes that position and appends exactly one row for it |
| TradeEngine.CloseAllKeepsValid | server/src/modules/trade-engine/trade-engine.service.ts:28-33 | any sequence of closes keeps the trading invariant |
| TradeEngine.CheckHitForSymbol | server/src/modules/trade-engine/trade-engine.service.ts:25-34 | the positions become exactly the tick of the old positions; one history row is appended per hit position, and only for hit positions; the invariant is kept; the tables, wallets included, are those of closing the hit positions one after another, in an order that lists exactly the hit positions |
| OrderService.MarginRequired | server/src/modules/order/order.service.ts:15-18 | the margin is one USD whatever the order |
| OrderService.ValidateOrderSpec | server/src/modules/order/order.service.ts:43-56 | a request is accepted exactly when all hold: a non-empty symbol, a buy or sell side, finite positive lots and entry, and two finite stops of any sign; each failure reports the first failing check; an accepted request keeps its values with the symbol upper-cased |
| OrderService.NonPositiveStopsAccepted | server/src/modules/order/order.service.ts:50-55 | a negative stop-loss and a zero take-profit pass validation |
| OrderService.MissingStopLossRefused | server/src/modules/order/order.service.ts:50-52 | a missing or null stop-loss is refused |
| OrderService.PlacementBalanceRule | server/src/modules/order/order.service.ts:58-83 | a valid request is refused for balance exactly when the chosen ledger holds less than the margin; the transaction's own check never refuses what the pre-check passed |
| OrderService.PlacementDebitsMargin | server/src/modules/order/order.service.ts:70-85 | an accepted order lowers the chosen ledger by exactly the margin; the other ledger and other users never move |
| OrderService.PlacedRecords | server/src/modules/order/order.service.ts:87-118 | the order is filled with the request's values; the position is open for that order, with the same side, size, entry and stops, the margin, the ledger and no close fields |
| OrderService.LegacyRowRelabelled | server/src/modules/order/order.service.ts:72-80 | a legacy USD row pays for a real-ledger order and is renamed USD_REAL |
| OrderService.PlacementKeepsValid | server/src/modules/order/order.service.ts:87-118 | adding the new order and its position keeps the trading invariant |
| OrderService.OpenThenManualCloseRestores | server/src/modules/order/order.service.ts:70-85 | opening a position and closing it by hand gives the ledger back exactly its old balance |
| OrderService.PlaceMarketOrder | server/src/modules/order/order.service.ts:31-128 | the result is the placement function's; a refused order changes no table; an accepted one adds exactly its order and position and debits the margin |
| OrderService.LastPnl | server/src/modules/order/order.service.ts:136-139 | a reported PnL comes from a history row of that order; none is reported only when no row names the order |
| OrderService.History | server/src/modules/order/order.service.ts:130-144 | there is one entry for each of the user's orders and no other, each with that order's last realised PnL |
| OrderService.RealizedPnlMatchesClose | server/src/modules/order/order.service.ts:136-143 | under the invariant, an order's reported PnL is its position's realised PnL once closed, and none while open |
| PositionService.Notional | server/src/modules/position/position.service.ts:26 | the size the percentage is taken of is always positive |
| PositionService.ViewMatchesClose | server/src/modules/position/position.service.ts:22-25 | the unrealised PnL shown is what closing at the shown price would realise |
| PositionService.ViewPercentSign | server/src/modules/position/position.service.ts:22-27 | the percentage has the sign of the PnL; without a market price the position is marked flat at its entry |
| PositionService.ListOpenWithPnl | server/src/modules/position/position.service.ts:19-30 | the list holds exactly the user's open positions, each unchanged, shown at the market's last price for its symbol (the entry price without one), with its quantity, the PnL the engine's `pnlOf` gives at that price, and that PnL as a percentage of the notional |
| PositionService.ViewMarks | server/src/modules/position/position.service.ts:22-28 | every view shows its position at the given price with the engine's PnL and its percentage |
| PositionService.StopsUpdateSpec | server/src/modules/position/position.service.ts:32-49 | an edit succeeds exactly for the user's open position with acceptable levels; it changes the two levels as asked and nothing else, and every level it sets is positive |
| PositionService.StopsKeepValid | server/src/modules/position/position.service.ts:32-49 | a stop edit keeps the trading invariant |
| PositionService.StopsUpdateIdempotent | server/src/modules/position/position.service.ts:36-47 | repeating a stop edit changes nothing more |
| PositionService.ClearedStopsNeverHit | server/src/modules/position/position.service.ts:40-46 | a position whose two levels were cleared is never closed by a tick |
| PositionService.UpdateStops | server/src/modules/position/position.service.ts:32-52 | the edited position is stored only when every check passes; otherwise nothing changes |
| PositionService.ClosePositionManually | server/src/modules/position/position.service.ts:54-56 | a close succeeds exactly when the position is the requester's and open; it realises no PnL and gives the margin back |
| MarketService.Market.constructor | server/src/modules/market/market.service.ts:7 | the price table starts empty |
| MarketService.Market.GetPrice | server/src/modules/market/market.service.ts:14-16 | a price is found exactly for the upper-cased symbol, and it is positive |
| MarketService.Market.GetAllPrices | server/src/modules/market/market.service.ts:18-20 | exactly the price table: every key is an upper-cased symbol whose entry is that symbol's price, and every symbol with a price has its upper-cased form as a key |
| MarketService.Market.SetPrice | server/src/modules/market/market.service.ts:22-30 | an empty symbol or a price that is not finite and positive is refused, and nothing changes; otherwise the price is stored under the upper-cased symbol and the sweep runs; other symbols keep their prices; the trading invariant is kept; the wallets are those of closing exactly the hit positions one after another |
| MarketService.TickSameSymbol | server/src/modules/market/market.service.ts:23-28 | the sweep for a symbol and for its upper-cased form are the same |
| SecurityConfirmation.IsConfirmed | server/src/modules/security-confirmation/security-confirmation.service.ts:14-17 | a user is confirmed exactly when they have a record |
| SecurityConfirmation.SubmissionSpec | server/src/modules/security-confirmation/security-confirmation.service.ts:29-64 | a submission is accepted exactly when all hold: no record for the user, no record holding the white-space-free citizen id or bank account, and a parseable date; the stored record holds the normalised numbers and the trimmed texts |
| SecurityConfirmation.SubmissionKeepsValid | server/src/modules/security-confirmation/security-confirmation.service.ts:38-62 | an accepted submission keeps the citizen id and the bank account each held by at most one user, and confirms the user |
| SecurityConfirmation.SpacedCitizenIdConflicts | server/src/modules/security-confirmation/security-confirmation.service.ts:35-41 | a citizen id written with different white space is refused for another user |
| SecurityConfirmation.Submit | server/src/modules/security-confirmation/security-confirmation.service.ts:29-64 | the method stores the record exactly when the submission is accepted; a refusal changes nothing |
| VnpayService.AmountUsdOf | server/src/modules/vnpay/vnpay.service.ts:75 | the USD amount times 24 000 is the VND amount |
| VnpayService.PaymentCreation | server/src/modules/vnpay/vnpay.service.ts:62-84 | a deposit is created exactly when the gateway is configured, the user is confirmed and the amount is finite and at least 1000 VND; it is pending and uncredited, at the fixed rate |
| VnpayService.PickVnpParams | server/src/modules/vnpay/vnpay.service.ts:107-113 | the parameters kept are exactly those whose name starts with `vnp_`, with their values |
| VnpayService.PublicAmountRuleRefusesExactAmount | server/src/modules/vnpay/vnpay.service.ts:197-202 | an amount reported in VND fails the public rule as written and passes the intended rule |
| VnpayService.FirstCreditEffect | server/src/modules/vnpay/vnpay.service.ts:115-140 | a first credit marks the deposit successful, raises the owner's real balance by its USD amount and changes nothing else |
| VnpayService.CreditAtMostOnce | server/src/modules/vnpay/vnpay.service.ts:124 | crediting the same order again changes nothing and gives the same reply |
| VnpayService.PublicConfirmAsWrittenRefusesVndAmount | server/src/modules/vnpay/vnpay.service.ts:184-208 | a successful payment reported in VND is refused by the public path as written, and credited by the corrected path and by the signed-in path |
| VnpayService.UnverifiedChangesNothing | server/src/modules/vnpay/vnpay.service.ts:150-151 | a bad signature changes nothing on every path |
| VnpayService.UnsuccessfulIpnOnlyFailsPending | server/src/modules/vnpay/vnpay.service.ts:217-233 | an unsuccessful IPN moves no money and only turns pending deposits into failed ones |
| VnpayService.ConfirmOnlyOwnDeposit | server/src/modules/vnpay/vnpay.service.ts:160-161 | the signed-in confirm never touches another user's deposit |
| VnpayService.CreditedDepositIsFinal | server/src/modules/vnpay/vnpay.service.ts:162-242 | a credited deposit is never credited again on any path |
| VnpayService.MismatchCreditsNothing | server/src/modules/vnpay/vnpay.service.ts:164-172 | a mismatched amount credits nothing on any path |
| VnpayService.DepositsStayValid | server/src/modules/vnpay/vnpay.service.ts:62-261 | every deposit operation keeps each deposit under its order id, at the fixed rate, and successful once credited |
| VnpayService.CreatePayment | server/src/modules/vnpay/vnpay.service.ts:62-97 | the method stores exactly the deposit the creation function gives, and nothing on refusal |
| VnpayService.CreditDepositSuccess | server/src/modules/vnpay/vnpay.service.ts:115-140 | the method's tables and reply are the credit function's |
| VnpayService.ConfirmFromReturnUrl | server/src/modules/vnpay/vnpay.service.ts:147-178 | the method's tables and reply are those of the signed-in confirm function |
| VnpayService.ConfirmFromReturnUrlPublic | server/src/modules/vnpay/vnpay.service.ts:184-208 | the method's tables and reply are the public confirm function's, with the corrected amount rule |
| VnpayService.HandleIpn | server/src/modules/vnpay/vnpay.service.ts:211-261 | the method's tables and reply are the IPN function's |
| AdminService.NormalizeEmail | server/src/modules/admin/admin.service.ts:46 | the normalised email is the trimmed input lower-cased letter by letter, of the same length, with no upper-case letter left |
| AdminService.NormalizeEmailEmptyIff | server/src/modules/admin/admin.service.ts:46-49 | the normalised email is empty exactly when the input is all white space |
| AdminService.NormalizeEmailIdempotent | server/src/modules/admin/admin.service.ts:46 | normalising twice is normalising once |
| AdminService.RoleOf | server/src/modules/admin/admin.service.ts:58 | the admin role is granted exactly for "admin" |
| AdminService.UserCreationSpec | server/src/modules/admin/admin.service.ts:45-70 | a user is created exactly when all hold: a non-empty normalised email and trimmed name, a password of at least six characters, and an email nobody holds; the user is live and unlocked |
| AdminService.UserCreationKeepsValid | server/src/modules/admin/admin.service.ts:53-70 | a created user keeps emails unique |
| AdminService.StarterWallets | server/src/modules/admin/admin.service.ts:72-75 | the new user has both ledger rows at zero; nobody else's rows change |
| AdminService.CreateUser | server/src/modules/admin/admin.service.ts:45-86 | the method stores the created user and the starter rows, and nothing on refusal |
| AdminService.UserUpdateSpec | server/src/modules/admin/admin.service.ts:93-117 | left-out fields keep their values, an empty password changes nothing and the user's own email may be given again; id, tier, lock and creation time never change |
| AdminService.UpdateToTakenEmailRefused | server/src/modules/admin/admin.service.ts:104-106 | an email held by another user is refused |
| AdminService.UserUpdateKeepsValid | server/src/modules/admin/admin.service.ts:93-119 | a successful edit keeps emails unique |
| AdminService.UpdateUser | server/src/modules/admin/admin.service.ts:89-128 | the edited user is stored only when every check passes |
| AdminService.LockUpdateSpec | server/src/modules/admin/admin.service.ts:131-146 | an unknown user is refused; otherwise only that user's lock flag changes, and setting it twice is setting it once |
| AdminService.LockKeepsValid | server/src/modules/admin/admin.service.ts:131-146 | locking keeps emails unique |
| AdminService.SetLocked | server/src/modules/admin/admin.service.ts:131-146 | the method's table and answer are the lock function's |
| AdminService.LockUser | server/src/modules/admin/admin.service.ts:131-137 | the user is locked, or not found |
| AdminService.UnlockUser | server/src/modules/admin/admin.service.ts:140-146 | the user is unlocked, or not found |
| AdminService.Newest | server/src/modules/admin/admin.service.ts:150-155 | every row listed is a history row of the requested user, or of anyone for an empty id |
| AdminService.NewestComplete | server/src/modules/admin/admin.service.ts:150-155 | every history row of the requested user (of anyone for an empty id) is listed |
| AdminService.NewestDescending | server/src/modules/admin/admin.service.ts:152 | with auto-increment ids, the rows come out newest first |
| AdminService.ListTradeHistory | server/src/modules/admin/admin.service.ts:149-169 | exactly min(matching rows, limit, 2000) rows, a prefix of the newest-first list, so all of it when it fits |
| AdminService.ListTradeHistoryNewest | server/src/modules/admin/admin.service.ts:149-169 | with ids growing along the history, a matching row is left out only when the listing is full, and then it is older than every row listed |
| AdminService.CsvLines | server/src/modules/admin/admin.service.ts:175-178 | there is one line per row, each that row's CSV line |
| AdminService.ExportLines | server/src/modules/admin/admin.service.ts:172-180 | reading the export back line by line gives the header and then one line per listed row, in order |
| UserService.DemoUserRow | server/src/modules/user/demo-user.constants.ts:1-6 | the demo row has the demo profile, no password, and is unlocked |
| UserService.SeededUsers | server/src/modules/user/user.service.ts:18-28 | a present demo user is kept; otherwise it is added, unless its email is taken, when nothing changes |
| UserService.SeedRows | server/src/modules/user/user.service.ts:30-49 | existing rows keep their amounts, every seed symbol ends up with a row, and each new row has its seed amount |
| UserService.SeedRowsIdempotent | server/src/modules/user/user.service.ts:30-49 | seeding twice is seeding once |
| UserService.SeedRowsFresh | server/src/modules/user/user.service.ts:31-41 | a missing seed row gets exactly its seed amount |
| UserService.EnsureDemoUser | server/src/modules/user/user.service.ts:15-52 | the answer is the demo profile; users and wallets become the seeding functions of the old tables |
| UserService.EnsureDemoUserIdempotent | server/src/modules/user/user.service.ts:15-52 | a second run changes nothing |
| UserService.SeededUsersKeepValid | server/src/modules/user/user.service.ts:18-28 | seeding keeps emails unique |
| UserService.ProfileUpdateUnknownUser | server/src/modules/user/user.service.ts:67-68 | the unknown-user refusal is given exactly when the user does not exist |
| UserService.ProfileNameRefused | server/src/modules/user/user.service.ts:69-72 | a present name that does not trim to 1 to 255 characters is refused |
| UserService.ProfileEmailRefused | server/src/modules/user/user.service.ts:75-78 | a present email that does not trim and lower-case to 1 to 255 characters is refused |
| UserService.ProfileUpdateSpec | server/src/modules/user/user.service.ts:69-84 | an accepted edit sets the trimmed name and the normalised email as asked and changes nothing else |
| UserService.OwnEmailAccepted | server/src/modules/user/user.service.ts:79 | giving one's own email again is accepted |
| UserService.TakenEmailRefused | server/src/modules/user/user.service.ts:79-81 | another user's email is refused |
| UserService.ProfileUpdateIdempotent | server/src/modules/user/user.service.ts:64-92 | repeating an edit changes nothing more |
| UserService.ProfileUpdateKeepsValid | server/src/modules/user/user.service.ts:64-92 | an accepted edit keeps emails unique |
| UserService.UpdateProfile | server/src/modules/user/user.service.ts:64-92 | the profile is saved and returned exactly when the edit is accepted; a refusal changes nothing |
| TradingAccount.Round | client/trading/lib/trading-account.ts:15 | the result is the nearest integer, halves rounded up |
| TradingAccount.ClampMoneySpec | client/trading/lib/trading-account.ts:13-16 | a non-finite value and anything below half a cent clamp to 0; a non-negative amount clamps to its nearest cent |
| TradingAccount.ClampMoneyIdempotent | client/trading/lib/trading-account.ts:13-16 | clamping twice is clamping once |
| TradingAccount.LoadAccount | client/trading/lib/trading-account.ts:26-41 | a state loads exactly when a record exists whose selected ledger is "demo" or "real" |
| TradingAccount.SaveLoadRoundTrip | client/trading/lib/trading-account.ts:26-52 | a saved state loads back as exactly the normalised state |
| TradingAccount.NormalizedOfState | client/trading/lib/trading-account.ts:45-49 | saving a loaded state stores that same state |
| TradingAccount.FreshDefaults | client/trading/lib/trading-account.ts:107-111 | without a seed, demo is selected with 10 000 USD and the real ledger is empty |
| TradingAccount.EnsuredSpec | client/trading/lib/trading-account.ts:104-114 | an existing state is returned and not rewritten; otherwise the fresh state is saved and loads back as itself |
| TradingAccount.DeductedSpec | client/trading/lib/trading-account.ts:131-143 | a deduction under half a cent changes nothing; otherwise only the selected balance drops, by the clamped amount, floored at 0 |
| TradingAccount.CreditedSelectedSpec | client/trading/lib/trading-account.ts:145-157 | only the selected balance rises, by the clamped amount |
| TradingAccount.CreditThenDeductRestores | client/trading/lib/trading-account.ts:131-157 | deducting what was just credited restores the state |
| TradingAccount.CreditedToSpec | client/trading/lib/trading-account.ts:160-172 | a credit of 0 or of no number changes nothing; otherwise only the named balance changes, to old plus amount to the cent, floored at 0 |
| TradingAccount.MetaOf | client/trading/lib/trading-account.ts:65-69 | the ledger is real only when so named; the locked margin falls back to `notionalUsd`, then 0 |
| TradingAccount.LoadedPositions | client/trading/lib/trading-account.ts:54-75 | the keys are exactly the stored non-empty keys |
| TradingAccount.PositionsRoundTrip | client/trading/lib/trading-account.ts:54-81 | saved entries load back exactly, whatever the time of reading |
| TradingAccount.TradingStorage.constructor | client/trading/lib/trading-account.ts:9-10 | storage starts with neither record |
| TradingAccount.TradingStorage.SaveTradingAccountState | client/trading/lib/trading-account.ts:43-52 | the normalised state is written and loads back as itself; the positions record is untouched |
| TradingAccount.TradingStorage.LoadTradingPositionsState | client/trading/lib/trading-account.ts:54-75 | the loop's result is the load function's |
| TradingAccount.TradingStorage.SaveTradingPositionsState | client/trading/lib/trading-account.ts:77-81 | the entries are written as given; the account record is untouched |
| TradingAccount.TradingStorage.RecordOpenPosition | client/trading/lib/trading-account.ts:83-89 | an empty id changes nothing; otherwise the loaded entries are saved with this entry set |
| TradingAccount.TradingStorage.RemovePositionMeta | client/trading/lib/trading-account.ts:96-102 | the entry is deleted and nothing else changes; an unknown id writes nothing |
| TradingAccount.TradingStorage.EnsureTradingAccountState | client/trading/lib/trading-account.ts:104-114 | the answer is the stored state or the fresh one, and the record then loads as the answer |
| TradingAccount.TradingStorage.RecordOpenPositionForSelectedAccount | client/trading/lib/trading-account.ts:91-94 | the entry is recorded under the selected ledger |
| TradingAccount.TradingStorage.SetSelectedTradingAccount | client/trading/lib/trading-account.ts:116-119 | only the selected ledger changes |
| TradingAccount.TradingStorage.SetDemoUsdBalance | client/trading/lib/trading-account.ts:121-124 | only the demo balance changes, to the clamped value |
| TradingAccount.TradingStorage.SetRealUsdBalance | client/trading/lib/trading-account.ts:126-129 | only the real balance changes, to the clamped value |
| TradingAccount.TradingStorage.DeductSelectedAccountUsd | client/trading/lib/trading-account.ts:131-143 | the answer is the deducted state, saved unless nothing was deducted |
| TradingAccount.TradingStorage.CreditSelectedAccountUsd | client/trading/lib/trading-account.ts:145-157 | the answer is the credited state, saved unless nothing was credited |
| TradingAccount.TradingStorage.CreditAccountUsd | client/trading/lib/trading-account.ts:160-172 | the answer is the credited state, saved unless the amount is 0 or not a number |

## Left out

- Events and server-sent events (`EventsService.emit`) are not modelled: they are notifications with no effect on state.
- Concurrency and transactions are not modelled: each operation runs alone. The unique-email race (`ER_DUP_ENTRY`) appears only as a refusal of a taken email.
- MySQL details are not modelled:
  - the wallet foreign key;
  - the wallet `lastPrice` column;
  - case-insensitive collation: emails, citizen ids and bank account numbers are compared exactly, so the uniqueness lookups of `createUser`, `updateUser`, `updateProfile` and `submit` may accept a value the database would find equal to a stored one up to case;
  - the truncation of `bigint` amounts.
- The `internal_error` catch of `creditDepositSuccess` is not modelled: the database never fails here.
- Case mapping covers ASCII letters only; `toUpperCase` and `toLowerCase` on other scripts are not modelled.
- Query ordering is not modelled for orders and positions. `history` and `listOpenWithPnl` return maps keyed by id. Trade history is newest-first by reverse append order, which matches creation order under auto-increment ids.
- Numbers are exact: server money is `real` instead of IEEE doubles, and client money is integer cents.
- String lengths count characters, not UTF-16 code units.
- Several things outside the code become parameters:
  - the payment URL built by the gateway library;
  - bcrypt hashing;
  - JWT authentication;
  - the gateway's signature verification and parsed fields;
  - `new Date(...)` parsing;
  - ids and clocks.
- AdminService.ListTradeHistory: requires `limit > 0`; a zero or negative limit, where the query builder's behaviour is undocumented, is not modelled.
- AdminService.ExportLines: number and date rendering is a `TextFormat` parameter rather than JavaScript's `String` and `toISOString`.
- `listUsers`, `listChatMessages`, `deleteChatMessage` and `listByUserId` are not modelled: they are table reads or chat features outside the trading core.
- `getDemoUser`, `getById`, `getStatus`, `getDepositStatus`, `verifyReturnUrl`, `isConfigured` and `getConfiguredReturnUrl` are not modelled: they are look-ups or pass-throughs to the gateway library. `isConfigured` becomes the `configured` parameter of `createPayment`.
- TradeEngine.ClosePosition: the source reads a `marginReserved` that is not a finite number as 0; in the model the stored margin is always a number, so that fallback is not modelled.
- TradeEngine.CheckHitForSymbol: an error in one close would abort the sweep in the source; the model has no failing close.
- TradeEngine.CheckHitForSymbol: the order in which hit positions are closed is left open (the source takes the order of the query result); the wallets are stated as the result of closing them in that order.
- TradeEngine.PnlOf is a definition without a contract. Its meaning is stated by `BuyPnlSign`, `SellPnlSign`, `PnlAtEntry` and `PnlSidesOpposite`.
- TradingAccount.TradingStorage.LoadTradingPositionsState: one time of reading stands for every `new Date()` of the loop.
- The browser's `typeof window` check, the change event and the two subscribe functions of the client store are not modelled; storage is always present.

## Findings

| source | as written | input that shows it | evidently intended | confidence | as-written member | corrected member |
|---|---|---|---|---|---|---|
| server/src/modules/wallet/wallet.service.ts:75-85 | `addUsd` looks up only the `USD_REAL` row and creates it at 0 when missing. Unlike `deductUsd` (lines 57-64), it ignores the legacy `USD` row. | A user with only a legacy `USD` row of 50 receives a real credit of 10: a new `USD_REAL` row of 10 appears, and the real balance reads 10 instead of 60, hiding the 50. | The legacy row is carried over as `deductUsd` does, so the credit lands on it. | medium, not executed | WalletService.AsWrittenCreditHidesLegacy | WalletService.CreditedEffect |
| server/src/modules/vnpay/vnpay.service.ts:197-202 | The public confirm compares `vnp_Amount` with `deposit.amount` using strict equality. The column is a MySQL `bigint`, which the driver returns as a decimal string, so the equality never holds. Only the hundredfold comparison can succeed. The other two paths convert with `Number(...)` first (lines 165 and 245). | A deposit of 50 000 VND whose gateway report carries `vnp_Amount` = 50000 is refused with `amount_mismatch` on the public path and credited on the signed-in path. | Compare with `Number(deposit.amount)`, as the other two paths do. | medium, not executed | VnpayService.PublicConfirmAsWrittenRefusesVndAmount | VnpayService.ConfirmFromReturnUrlPublic |
