/**
 * The user's view of positions: open positions marked to the last market
 * price, edits of the stop-loss and take-profit levels, and the manual
 * close.
 */
module PositionService {
  import opened Common
  import opened Store
  import opened WalletService
  import opened TradeEngine
  import opened MarketService

  /** An open position with its mark-to-market figures. */
  datatype PositionView = PositionView(position: Position, lastPrice: real, qty: real, pnl: real, pnlPercent: real)

  function Abs(x: real): real {
    if x < 0.0 then -x else x
  }

  /** `Math.abs(entryPrice * qty) || 1`: the size the percentage is taken of, never zero. */
  function Notional(p: Position): (n: real)
    ensures n > 0.0
  {
    var a := Abs(p.entryPrice * Qty(p));
    if a == 0.0 then 1.0 else a
  }

  /** The view of one position given the market's last price for its symbol, if any. */
  function ViewOf(p: Position, price: Option<real>): PositionView {
    var last := price.GetOr(p.entryPrice);
    var qty := Qty(p);
    var diff := if p.side == Buy then last - p.entryPrice else p.entryPrice - last;
    var pnl := diff * qty;
    PositionView(p, last, qty, pnl, (pnl / Notional(p)) * 100.0)
  }

  /**
   * The unrealised PnL shown for a position is exactly what closing it at
   * the shown price would realise.
   */
  lemma ViewMatchesClose(p: Position, price: Option<real>, reason: CloseReason, now: int, rowId: int)
    ensures var v := ViewOf(p, price);
            && v.lastPrice == price.GetOr(p.entryPrice)
            && v.pnl == PnlOf(p, v.lastPrice)
            && v.pnl == RecordOf(ClosedAs(p, v.lastPrice, reason, now), rowId).pnl
  {
    var last := price.GetOr(p.entryPrice);
    ViewPnl(p, price);
    var q := ClosedAs(p, last, reason, now);
    assert q.side == p.side && q.entryPrice == p.entryPrice && Qty(q) == Qty(p);
    assert RecordOf(q, rowId).pnl == PnlOf(q, last);
    assert PnlOf(q, last) == PnlOf(p, last);
  }

  /**
   * The percentage has the sign of the PnL; with no market price the
   * position is marked at its entry, flat.
   */
  lemma ViewPercentSign(p: Position, price: Option<real>)
    ensures var v := ViewOf(p, price);
            && (v.pnl > 0.0 <==> v.pnlPercent > 0.0)
            && (v.pnl < 0.0 <==> v.pnlPercent < 0.0)
            && (price.None? ==> v.pnl == 0.0 && v.pnlPercent == 0.0)
  {
    var v := ViewOf(p, price);
    PercentSign(v.pnl, Notional(p));
    if price.None? {
      assert v.pnl == PnlOf(p, p.entryPrice);
      PnlAtEntry(p);
    }
  }

  /** `(x / n) * 100` has the sign of `x` when `n` is positive. */
  lemma PercentSign(x: real, n: real)
    requires n > 0.0
    ensures x > 0.0 <==> (x / n) * 100.0 > 0.0
    ensures x < 0.0 <==> (x / n) * 100.0 < 0.0
    ensures x == 0.0 ==> (x / n) * 100.0 == 0.0
  {
    var q := x / n;
    assert q * n == x;
    if q > 0.0 { assert q * n > 0.0; }
    if q < 0.0 { assert q * n < 0.0; }
  }

  /** The positions `listOpenWithPnl` reports: the user's open ones. */
  function OpenOf(positions: map<string, Position>, userId: string): set<string> {
    set id | id in positions && positions[id].userId == userId && positions[id].status == Open
  }

  /**
   * `listOpenWithPnl`: every open position of the user, and only those,
   * each marked to the market's last price for its symbol.
   */
  function ListOpenWithPnl(db: Database, market: Market, userId: string): (r: map<string, PositionView>)
    reads db, market
    ensures r.Keys == OpenOf(db.positions, userId)
    ensures forall id | id in r :: Marks(r[id], db.positions[id], market.GetPrice(db.positions[id].symbol))
  {
    var r := map id | id in OpenOf(db.positions, userId) :: ViewOf(db.positions[id], market.GetPrice(db.positions[id].symbol));
    assert forall id | id in r :: Marks(r[id], db.positions[id], market.GetPrice(db.positions[id].symbol)) by {
      forall id | id in r
        ensures Marks(r[id], db.positions[id], market.GetPrice(db.positions[id].symbol))
      {
        ViewMarks(db.positions[id], market.GetPrice(db.positions[id].symbol));
      }
    }
    r
  }

  /**
   * `v` shows `p` marked to `price`: the price (the entry price when the
   * market has none), the quantity, the PnL the engine would realise at
   * that price, and that PnL as a percentage of the notional.
   */
  predicate Marks(v: PositionView, p: Position, price: Option<real>) {
    && v.position == p
    && v.lastPrice == price.GetOr(p.entryPrice)
    && v.qty == Qty(p)
    && v.pnl == PnlOf(p, v.lastPrice)
    && v.pnlPercent == (v.pnl / Notional(p)) * 100.0
  }

  /** Every view marks its position to the given price. */
  lemma ViewMarks(p: Position, price: Option<real>)
    ensures Marks(ViewOf(p, price), p, price)
  {
    ViewPnl(p, price);
  }

  /** The view's PnL, computed inline as in the view, is the engine's `pnlOf` at the shown price. */
  lemma ViewPnl(p: Position, price: Option<real>)
    ensures ViewOf(p, price).pnl == PnlOf(p, price.GetOr(p.entryPrice))
  {
  }

  datatype StopsError = PositionNotOpen | StopLossInvalid | TakeProfitInvalid

  /** A stop edit is acceptable when it is left out, cleared, or a finite positive number. */
  predicate AcceptableStop(x: Input) {
    !x.Given? || IsPositive(x.n)
  }

  /** A left-out field keeps its level, `null` clears it, a number replaces it. */
  function Applied(current: Option<real>, x: Input): Option<real> {
    match x
    case Absent => current
    case Null => None
    case Given(n) => if n.Finite? then Some(n.value) else current
  }

  /**
   * `updateStops`: the edited position, or the first error: a position that
   * is not the user's open position, then an invalid stop-loss, then an
   * invalid take-profit.
   */
  function StopsUpdate(positions: map<string, Position>, userId: string, id: string, sl: Input, tp: Input)
    : Result<Position, StopsError>
  {
    if id !in positions || positions[id].userId != userId || positions[id].status != Open then Err(PositionNotOpen)
    else if !AcceptableStop(sl) then Err(StopLossInvalid)
    else if !AcceptableStop(tp) then Err(TakeProfitInvalid)
    else
      var p := positions[id];
      Ok(p.(stopLoss := Applied(p.stopLoss, sl), takeProfit := Applied(p.takeProfit, tp)))
  }

  /**
   * An edit succeeds exactly for the user's open position with acceptable
   * levels; it changes the two levels as asked and nothing else, and every
   * level it sets is positive.
   */
  lemma StopsUpdateSpec(positions: map<string, Position>, userId: string, id: string, sl: Input, tp: Input)
    ensures var r := StopsUpdate(positions, userId, id, sl, tp);
            && (r == Err(PositionNotOpen) <==> !(id in positions && positions[id].userId == userId && positions[id].status == Open))
            && (r.Ok? <==> id in positions && positions[id].userId == userId && positions[id].status == Open
                           && AcceptableStop(sl) && AcceptableStop(tp))
            && (r.Ok? ==> var p := positions[id];
                          && r.value == p.(stopLoss := r.value.stopLoss, takeProfit := r.value.takeProfit)
                          && (sl.Absent? ==> r.value.stopLoss == p.stopLoss)
                          && (sl.Null? ==> r.value.stopLoss.None?)
                          && (sl.Given? ==> r.value.stopLoss == Some(sl.n.value) && sl.n.value > 0.0)
                          && (tp.Absent? ==> r.value.takeProfit == p.takeProfit)
                          && (tp.Null? ==> r.value.takeProfit.None?)
                          && (tp.Given? ==> r.value.takeProfit == Some(tp.n.value) && tp.n.value > 0.0))
  {
  }

  /** Editing the levels of an open position keeps the trading invariant. */
  lemma StopsKeepValid(orders: map<string, Order>, positions: map<string, Position>, history: seq<TradeRecord>,
                       userId: string, id: string, sl: Input, tp: Input)
    requires Valid(orders, positions, history)
    requires StopsUpdate(positions, userId, id, sl, tp).Ok?
    ensures var ps := positions[id := StopsUpdate(positions, userId, id, sl, tp).value];
            Valid(orders, ps, history) && Evolves(positions, ps)
  {
    var q := StopsUpdate(positions, userId, id, sl, tp).value;
    var p := positions[id];
    assert q == p.(stopLoss := q.stopLoss, takeProfit := q.takeProfit);
    assert q.status == Open && SameTrade(p, q) && WellFormed(q);
    LinkedAfterUpdate(orders, positions, id, q);
    var ps := positions[id := q];
    forall i | 0 <= i < |history|
      ensures history[i].positionId != id && ps[history[i].positionId] == positions[history[i].positionId]
    {
    }
    forall k | k in ps && ps[k].status == Closed
      ensures exists i :: 0 <= i < |history| && history[i].positionId == k
    {
      assert k != id && ps[k] == positions[k];
    }
    assert HistoryValid(ps, history);
  }

  /** Repeating an edit changes nothing more. */
  lemma StopsUpdateIdempotent(positions: map<string, Position>, userId: string, id: string, sl: Input, tp: Input)
    requires StopsUpdate(positions, userId, id, sl, tp).Ok?
    ensures var q := StopsUpdate(positions, userId, id, sl, tp).value;
            StopsUpdate(positions[id := q], userId, id, sl, tp) == Ok(q)
  {
  }

  /** A position whose two levels were cleared is never closed by a price tick. */
  lemma ClearedStopsNeverHit(positions: map<string, Position>, userId: string, id: string, price: real)
    requires StopsUpdate(positions, userId, id, Null, Null).Ok?
    ensures CheckHit(StopsUpdate(positions, userId, id, Null, Null).value, price).None?
  {
    NoLevelsNoHit(StopsUpdate(positions, userId, id, Null, Null).value, price);
  }

  /** `updateStops` on the database: the edited position is saved only when every check passes. */
  method UpdateStops(db: Database, userId: string, id: string, sl: Input, tp: Input)
    returns (r: Result<Position, StopsError>)
    modifies db`positions
    ensures r == StopsUpdate(old(db.positions), userId, id, sl, tp)
    ensures r.Ok? ==> db.positions == old(db.positions)[id := r.value]
    ensures r.Err? ==> db.positions == old(db.positions)
  {
    if id !in db.positions || db.positions[id].userId != userId || db.positions[id].status != Open {
      return Err(PositionNotOpen);
    }
    var p := db.positions[id];
    if !sl.Absent? {
      if sl.Given? && (!sl.n.Finite? || sl.n.value <= 0.0) {
        return Err(StopLossInvalid);
      }
      p := p.(stopLoss := if sl.Given? then Some(sl.n.value) else None);
    }
    if !tp.Absent? {
      if tp.Given? && (!tp.n.Finite? || tp.n.value <= 0.0) {
        return Err(TakeProfitInvalid);
      }
      p := p.(takeProfit := if tp.Given? then Some(tp.n.value) else None);
    }
    db.positions := db.positions[id := p];
    r := Ok(p);
  }

  /**
   * `close`: the manual close of one of the user's positions, at its entry
   * price, so it realises no PnL and gives the reserved margin back.
   */
  method ClosePositionManually(db: Database, userId: string, id: string, now: int) returns (r: Option<CloseOutcome>)
    modifies db`positions, db`history, db`wallets
    ensures (Book(db.positions, db.history, db.wallets), r)
            == Close(old(Book(db.positions, db.history, db.wallets)), id, Some(userId), None, Manual, now)
    ensures r.Some? <==> MayClose(old(db.positions), id, Some(userId))
    ensures r.Some? && old(db.positions)[id].marginReserved >= 0.0 ==>
              && r.value.pnl == 0.0
              && var p := old(db.positions)[id];
                 UsdBalance(db.wallets, p.userId, p.accountType) == UsdBalance(old(db.wallets), p.userId, p.accountType) + p.marginReserved
  {
    ghost var b := Book(db.positions, db.history, db.wallets);
    r := ClosePosition(db, id, Some(userId), None, Manual, now);
    if r.Some? && b.positions[id].marginReserved >= 0.0 {
      ManualCloseReturnsMargin(b, id, Some(userId), now);
    }
  }
}
