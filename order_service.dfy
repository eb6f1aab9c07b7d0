/**
 * Order intake: validation of a market-order request, the fixed margin,
 * the debit of that margin and the creation of the filled order and its
 * open position; and the per-user order history joined with realised PnL.
 */
module OrderService {
  import opened Common
  import opened Text
  import opened Store
  import opened WalletService
  import opened TradeEngine

  /** `marginRequired`: one USD per order, whatever the symbol, size or price. */
  function MarginRequired(symbol: string, lots: real, entryPrice: real): (m: real)
    ensures m == 1.0
  {
    1.0
  }

  /** A request body: every field as the client sent it. */
  datatype OrderRequest = OrderRequest(
    symbol: string, side: string, lots: Num, entryPrice: Num,
    stopLoss: Input, takeProfit: Input, accountType: string)

  datatype OrderError =
    | SymbolRequired | SideInvalid | LotsInvalid | EntryPriceInvalid
    | StopLossRequired | TakeProfitRequired | InsufficientBalance

  /** A request that passed validation, normalised. */
  datatype Ticket = Ticket(
    symbol: string, side: Side, lots: real, entryPrice: real,
    stopLoss: real, takeProfit: real, kind: AccountKind)

  /** The validation chain of `placeMarketOrder`, in the source's order. */
  function ValidateOrder(req: OrderRequest): Result<Ticket, OrderError> {
    var symbol := Upper(req.symbol);
    if symbol == "" then Err(SymbolRequired)
    else if SideOf(req.side).None? then Err(SideInvalid)
    else if !IsPositive(req.lots) then Err(LotsInvalid)
    else if !IsPositive(req.entryPrice) then Err(EntryPriceInvalid)
    else if !IsFiniteInput(req.stopLoss) then Err(StopLossRequired)
    else if !IsFiniteInput(req.takeProfit) then Err(TakeProfitRequired)
    else Ok(Ticket(symbol, SideOf(req.side).value, req.lots.value, req.entryPrice.value,
                   req.stopLoss.n.value, req.takeProfit.n.value, AccountKindOf(req.accountType)))
  }

  /**
   * A request is accepted exactly when the symbol is non-empty, the side is
   * buy or sell, lots and entry price are finite and positive, and both
   * stops are finite numbers (of any sign). Each failure is reported with
   * the first check that fails. An accepted request keeps its values, with
   * the symbol upper-cased, and selects the real account only for "real".
   */
  lemma ValidateOrderSpec(req: OrderRequest)
    ensures var r := ValidateOrder(req);
            && (r == Err(SymbolRequired) <==> req.symbol == "")
            && (r == Err(SideInvalid) <==> req.symbol != "" && req.side != "buy" && req.side != "sell")
            && (r == Err(LotsInvalid) <==> req.symbol != "" && (req.side == "buy" || req.side == "sell") && !IsPositive(req.lots))
            && (r == Err(EntryPriceInvalid) <==> req.symbol != "" && (req.side == "buy" || req.side == "sell")
                                                 && IsPositive(req.lots) && !IsPositive(req.entryPrice))
            && (r == Err(StopLossRequired) <==> req.symbol != "" && (req.side == "buy" || req.side == "sell")
                                                && IsPositive(req.lots) && IsPositive(req.entryPrice)
                                                && !IsFiniteInput(req.stopLoss))
            && (r == Err(TakeProfitRequired) <==> req.symbol != "" && (req.side == "buy" || req.side == "sell")
                                                  && IsPositive(req.lots) && IsPositive(req.entryPrice)
                                                  && IsFiniteInput(req.stopLoss) && !IsFiniteInput(req.takeProfit))
            && (r.Ok? <==> (req.symbol != "" && (req.side == "buy" || req.side == "sell")
                            && IsPositive(req.lots) && IsPositive(req.entryPrice)
                            && IsFiniteInput(req.stopLoss) && IsFiniteInput(req.takeProfit)))
            && (r.Ok? ==> r.value.symbol == Upper(req.symbol)
                          && r.value.lots == req.lots.value && r.value.entryPrice == req.entryPrice.value
                          && r.value.stopLoss == req.stopLoss.n.value && r.value.takeProfit == req.takeProfit.n.value
                          && (r.value.side == Buy <==> req.side == "buy")
                          && (r.value.kind.Real? <==> req.accountType == "real"))
            && r != Err(InsufficientBalance)
  {
    assert |Upper(req.symbol)| == |req.symbol|;
    if SideOf(req.side).Some? {
      assert SideOf(req.side).value == Buy <==> req.side == "buy";
    }
  }

  /** Intake checks only that a stop is a finite number: a negative stop-loss and a zero take-profit pass. */
  lemma NonPositiveStopsAccepted()
    ensures ValidateOrder(OrderRequest("btcusdt", "buy", Finite(1.0), Finite(100.0),
                                       Given(Finite(-5.0)), Given(Finite(0.0)), "demo")).Ok?
  {
    assert Upper("btcusdt") != "";
  }

  /** A missing stop-loss is refused even though the position service would accept clearing it later. */
  lemma MissingStopLossRefused(req: OrderRequest)
    requires req.symbol != "" && req.side == "buy" && IsPositive(req.lots) && IsPositive(req.entryPrice)
    requires req.stopLoss == Null || req.stopLoss == Absent
    ensures ValidateOrder(req) == Err(StopLossRequired)
  {
    assert |Upper(req.symbol)| == |req.symbol|;
  }

  datatype Placed = Placed(order: Order, position: Position)

  /** The filled market order recorded for an accepted request. */
  function OrderOf(t: Ticket, userId: string, orderId: string, now: int): Order {
    Order(orderId, userId, t.symbol, t.side, MarketOrder, t.lots, t.entryPrice,
          Some(t.stopLoss), Some(t.takeProfit), Filled, now)
  }

  /** The open position created from an order, holding the reserved margin. */
  function PositionOf(o: Order, positionId: string, margin: real, kind: AccountKind, now: int): Position {
    Position(positionId, o.id, o.userId, o.symbol, o.side, o.lots, o.entryPrice, o.stopLoss, o.takeProfit,
             Open, None, None, None, margin, kind, now)
  }

  /**
   * The outcome of `placeMarketOrder` against a wallet table: the order and
   * position it creates, or the error it raises.
   */
  function Placement(w: Wallets, userId: string, req: OrderRequest, orderId: string, positionId: string,
                     now: int): Result<Placed, OrderError> {
    match ValidateOrder(req)
    case Err(e) => Err(e)
    case Ok(t) =>
      var margin := MarginRequired(t.symbol, t.lots, t.entryPrice);
      if UsdBalance(w, userId, t.kind) < margin then Err(InsufficientBalance)
      else if !Debited(w, userId, Finite(margin), t.kind).ok then Err(InsufficientBalance)
      else
        var o := OrderOf(t, userId, orderId, now);
        Ok(Placed(o, PositionOf(o, positionId, margin, t.kind, now)))
  }

  /** The wallet table after a placement: debited by the margin when accepted, untouched otherwise. */
  function PlacementWallets(w: Wallets, userId: string, req: OrderRequest, orderId: string, positionId: string,
                            now: int): Wallets {
    var r := Placement(w, userId, req, orderId, positionId, now);
    if r.Ok? then Debited(w, userId, Finite(1.0), r.value.position.accountType).wallets else w
  }

  /**
   * A valid request is refused for the balance exactly when the chosen
   * account holds less than the margin; the check inside the transaction
   * never refuses what the pre-check let through.
   */
  lemma PlacementBalanceRule(w: Wallets, userId: string, req: OrderRequest, orderId: string, positionId: string, now: int)
    requires ValidateOrder(req).Ok?
    ensures var r := Placement(w, userId, req, orderId, positionId, now);
            r == Err(InsufficientBalance) <==> UsdBalance(w, userId, ValidateOrder(req).value.kind) < 1.0
  {
    var t := ValidateOrder(req).value;
    DebitedEffect(w, userId, Finite(1.0), t.kind);
  }

  /**
   * An accepted order lowers the chosen account by exactly the margin and
   * leaves the other account and every other user as they were.
   */
  lemma PlacementDebitsMargin(w: Wallets, userId: string, req: OrderRequest, orderId: string, positionId: string, now: int)
    requires Placement(w, userId, req, orderId, positionId, now).Ok?
    ensures var p := Placement(w, userId, req, orderId, positionId, now).value.position;
            var w' := PlacementWallets(w, userId, req, orderId, positionId, now);
            && p.marginReserved == 1.0
            && UsdBalance(w', userId, p.accountType) == UsdBalance(w, userId, p.accountType) - 1.0
            && UsdBalance(w', userId, OtherKind(p.accountType)) == UsdBalance(w, userId, OtherKind(p.accountType))
            && OthersUnchanged(w, w', userId)
            && (NonNegative(w) ==> NonNegative(w'))
  {
    var t := ValidateOrder(req).value;
    DebitedEffect(w, userId, Finite(1.0), t.kind);
  }

  /**
   * The created records: a filled market order with the request's values,
   * and an open position of that order with the same side, size, entry and
   * stops, the reserved margin, the chosen account and no close fields.
   */
  lemma PlacedRecords(w: Wallets, userId: string, req: OrderRequest, orderId: string, positionId: string, now: int)
    requires Placement(w, userId, req, orderId, positionId, now).Ok?
    ensures var pl := Placement(w, userId, req, orderId, positionId, now).value;
            var o := pl.order;
            var p := pl.position;
            && o.id == orderId && o.userId == userId && o.symbol == Upper(req.symbol)
            && o.orderType == MarketOrder && o.status == Filled
            && o.lots == req.lots.value && o.entryPrice == req.entryPrice.value
            && o.stopLoss == Some(req.stopLoss.n.value) && o.takeProfit == Some(req.takeProfit.n.value)
            && p.id == positionId && p.orderId == o.id && p.userId == userId && p.symbol == o.symbol
            && p.side == o.side && p.lots == o.lots && p.entryPrice == o.entryPrice
            && p.stopLoss == o.stopLoss && p.takeProfit == o.takeProfit
            && p.status == Open && WellFormed(p)
            && p.marginReserved == 1.0 && (p.accountType.Real? <==> req.accountType == "real")
  {
    ValidateOrderSpec(req);
  }

  /** A legacy user's 'USD' row pays for a real-account order and is relabelled USD_REAL. */
  lemma LegacyRowRelabelled(req: OrderRequest, now: int)
    requires ValidateOrder(req).Ok? && req.accountType == "real"
    ensures var w := map[WalletKey("u", UsdLegacy) := 5.0];
            var w' := PlacementWallets(w, "u", req, "o", "p", now);
            Placement(w, "u", req, "o", "p", now).Ok?
            && w' == map[WalletKey("u", UsdReal) := 4.0]
  {
    var w := map[WalletKey("u", UsdLegacy) := 5.0];
    ValidateOrderSpec(req);
    assert WalletKey("u", UsdReal) !in w;
    assert Relabel(w, "u", Real) == map[WalletKey("u", UsdReal) := 5.0];
  }

  /** Adding an order and a new open position of it keeps the orders-and-positions half of the invariant. */
  lemma LinkedAfterAdd(orders: map<string, Order>, positions: map<string, Position>, o: Order, p: Position)
    requires Linked(orders, positions)
    requires o.id !in orders && p.id !in positions
    requires p.orderId == o.id && p.userId == o.userId && p.symbol == o.symbol && WellFormed(p)
    ensures Linked(orders[o.id := o], positions[p.id := p])
  {
    var ps := positions[p.id := p];
    forall a, b | a in ps && b in ps && ps[a].orderId == ps[b].orderId
      ensures a == b
    {
    }
  }

  /** A new open position leaves the history valid. */
  lemma HistoryValidAfterAdd(positions: map<string, Position>, history: seq<TradeRecord>, p: Position)
    requires HistoryValid(positions, history)
    requires p.id !in positions && p.status == Open
    ensures HistoryValid(positions[p.id := p], history)
  {
    forall i | 0 <= i < |history|
      ensures history[i].positionId != p.id
    {
    }
  }

  /** Adding a new order and its new position keeps the trading invariant. */
  lemma PlacementKeepsValid(orders: map<string, Order>, positions: map<string, Position>, history: seq<TradeRecord>,
                            w: Wallets, userId: string, req: OrderRequest, orderId: string, positionId: string, now: int)
    requires Valid(orders, positions, history)
    requires orderId !in orders && positionId !in positions
    requires Placement(w, userId, req, orderId, positionId, now).Ok?
    ensures var pl := Placement(w, userId, req, orderId, positionId, now).value;
            var ps := positions[positionId := pl.position];
            Valid(orders[orderId := pl.order], ps, history) && Evolves(positions, ps)
  {
    var pl := Placement(w, userId, req, orderId, positionId, now).value;
    LinkedAfterAdd(orders, positions, pl.order, pl.position);
    HistoryValidAfterAdd(positions, history, pl.position);
  }

  /**
   * Money is conserved over a round trip: opening a position and closing it
   * by hand (no price, so at the entry) gives the account back exactly the
   * balance it had.
   */
  lemma OpenThenManualCloseRestores(positions: map<string, Position>, history: seq<TradeRecord>, w: Wallets,
                                    userId: string, req: OrderRequest, orderId: string, positionId: string,
                                    now: int, later: int)
    requires Placement(w, userId, req, orderId, positionId, now).Ok?
    ensures var p := Placement(w, userId, req, orderId, positionId, now).value.position;
            var b1 := Book(positions[positionId := p], history,
                           PlacementWallets(w, userId, req, orderId, positionId, now));
            var b2 := Close(b1, positionId, Some(userId), None, Manual, later).0;
            UsdBalance(b2.wallets, userId, p.accountType) == UsdBalance(w, userId, p.accountType)
            && UsdBalance(b2.wallets, userId, OtherKind(p.accountType)) == UsdBalance(w, userId, OtherKind(p.accountType))
  {
    var p := Placement(w, userId, req, orderId, positionId, now).value.position;
    var w1 := PlacementWallets(w, userId, req, orderId, positionId, now);
    var b1 := Book(positions[positionId := p], history, w1);
    PlacementDebitsMargin(w, userId, req, orderId, positionId, now);
    assert MayClose(b1.positions, positionId, Some(userId));
    ManualCloseReturnsMargin(b1, positionId, Some(userId), later);
    CloseSettles(b1, positionId, Some(userId), None, Manual, later);
  }

  /**
   * `placeMarketOrder`. The ids are the fresh ones the source generates.
   * The wallet work of the transaction is done on a copy that is written
   * back only when the whole transaction succeeds.
   */
  method PlaceMarketOrder(db: Database, userId: string, req: OrderRequest, orderId: string, positionId: string,
                          now: int) returns (r: Result<Placed, OrderError>)
    requires orderId !in db.orders && positionId !in db.positions
    modifies db`orders, db`positions, db`wallets
    ensures r == Placement(old(db.wallets), userId, req, orderId, positionId, now)
    ensures r.Err? ==> db.orders == old(db.orders) && db.positions == old(db.positions) && db.wallets == old(db.wallets)
    ensures r.Ok? ==> && db.orders == old(db.orders)[orderId := r.value.order]
                      && db.positions == old(db.positions)[positionId := r.value.position]
                      && db.wallets == PlacementWallets(old(db.wallets), userId, req, orderId, positionId, now)
  {
    var symbol := Upper(req.symbol);
    if symbol == "" { return Err(SymbolRequired); }
    var side := SideOf(req.side);
    if side.None? { return Err(SideInvalid); }
    if !req.lots.Finite? || req.lots.value <= 0.0 { return Err(LotsInvalid); }
    if !req.entryPrice.Finite? || req.entryPrice.value <= 0.0 { return Err(EntryPriceInvalid); }
    if !req.stopLoss.Given? || !req.stopLoss.n.Finite? { return Err(StopLossRequired); }
    if !req.takeProfit.Given? || !req.takeProfit.n.Finite? { return Err(TakeProfitRequired); }
    var kind := AccountKindOf(req.accountType);

    var margin := MarginRequired(symbol, req.lots.value, req.entryPrice.value);
    var balance := UsdBalance(db.wallets, userId, kind);
    if balance < margin { return Err(InsufficientBalance); }

    // The transaction: wallet changes are made on `w` and committed at the end.
    var w := db.wallets;
    var key := WalletKey(userId, SymbolFor(kind));
    var found := key in w;
    if !found && kind == Real {
      var legacy := WalletKey(userId, UsdLegacy);
      if legacy in w {
        w := (w - {legacy})[key := w[legacy]];
        found := true;
      }
    }
    if !found { return Err(InsufficientBalance); }
    var current := w[key];
    if current < margin { return Err(InsufficientBalance); }
    w := w[key := current - margin];

    var order := Order(orderId, userId, symbol, side.value, MarketOrder, req.lots.value, req.entryPrice.value,
                       Some(req.stopLoss.n.value), Some(req.takeProfit.n.value), Filled, now);
    var position := Position(positionId, order.id, userId, symbol, order.side, order.lots, order.entryPrice,
                             order.stopLoss, order.takeProfit, Open, None, None, None, margin, kind, now);
    db.wallets := w;
    db.orders := db.orders[orderId := order];
    db.positions := db.positions[positionId := position];
    r := Ok(Placed(order, position));
  }

  /** One entry of the order history: the order and the PnL realised by its trade, if any. */
  datatype HistoryEntry = HistoryEntry(order: Order, realizedPnl: Option<real>)

  /** The PnL of the last history row for an order: what a map filled row by row ends up holding. */
  function LastPnl(h: seq<TradeRecord>, orderId: string): (r: Option<real>)
    ensures r.Some? ==> exists k :: 0 <= k < |h| && h[k].orderId == orderId && h[k].pnl == r.value
    ensures r.None? ==> forall k :: 0 <= k < |h| ==> h[k].orderId != orderId
    decreases |h|
  {
    if h == [] then None
    else if h[|h| - 1].orderId == orderId then Some(h[|h| - 1].pnl)
    else LastPnl(h[..|h| - 1], orderId)
  }

  /** The ids of the user's orders. */
  function UserOrders(orders: map<string, Order>, userId: string): set<string> {
    set o | o in orders && orders[o].userId == userId
  }

  /**
   * `history`: one entry per order of the user, with the PnL of that
   * order's history row, or none when the order has no row.
   */
  method History(db: Database, userId: string) returns (r: map<string, HistoryEntry>)
    ensures r.Keys == UserOrders(db.orders, userId)
    ensures forall o | o in r :: r[o] == HistoryEntry(db.orders[o], LastPnl(db.history, o))
  {
    var mine := UserOrders(db.orders, userId);
    var pnlByOrderId: map<string, real> := map[];
    var i := 0;
    while i < |db.history|
      invariant 0 <= i <= |db.history|
      invariant forall o :: o in pnlByOrderId <==> o in mine && LastPnl(db.history[..i], o).Some?
      invariant forall o | o in pnlByOrderId :: pnlByOrderId[o] == LastPnl(db.history[..i], o).value
    {
      var t := db.history[i];
      assert db.history[..i + 1][..i] == db.history[..i];
      if t.orderId in mine {
        pnlByOrderId := pnlByOrderId[t.orderId := t.pnl];
      }
      i := i + 1;
    }
    assert db.history[..i] == db.history;
    r := map o | o in mine :: HistoryEntry(db.orders[o], if o in pnlByOrderId then Some(pnlByOrderId[o]) else None);
  }

  /**
   * Under the trading invariant, the PnL the history reports for a position's
   * order is that position's realised PnL once it is closed, and none while
   * it is open.
   */
  lemma RealizedPnlMatchesClose(orders: map<string, Order>, positions: map<string, Position>,
                                history: seq<TradeRecord>, pid: string)
    requires Valid(orders, positions, history)
    requires pid in positions
    ensures var p := positions[pid];
            && (p.status == Closed ==> LastPnl(history, p.orderId) == Some(PnlOf(p, p.closePrice.value)))
            && (p.status == Open ==> LastPnl(history, p.orderId).None?)
  {
    var p := positions[pid];
    var r := LastPnl(history, p.orderId);
    // Every row of this order is the row of this position.
    forall k | 0 <= k < |history| && history[k].orderId == p.orderId
      ensures history[k].positionId == pid
    {
      var q := positions[history[k].positionId];
      assert history[k] == RecordOf(q, k + 1);
    }
    if p.status == Closed {
      var i :| 0 <= i < |history| && history[i].positionId == pid;
      assert history[i] == RecordOf(p, i + 1);
      assert r.Some?;
      var k :| 0 <= k < |history| && history[k].orderId == p.orderId && history[k].pnl == r.value;
      assert history[k] == RecordOf(p, k + 1);
    }
  }
}
