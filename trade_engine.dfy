/**
 * The trigger engine: the profit-and-loss rule, the take-profit /
 * stop-loss hit rule, closing a position (status, trade-history row and
 * settlement of margin plus PnL to the ledger) and the per-tick sweep over
 * the open positions of one symbol.
 *
 * Closing is a method on the database proved equal to the function
 * `Close` on a snapshot of the tables it touches; the properties of a
 * close (terminal, exactly one history row, settlement) are lemmas about
 * that function. `Valid` is the invariant tying positions, orders and
 * history together.
 */
module TradeEngine {
  import opened Common
  import opened Text
  import opened LotSizePolicy
  import opened Store
  import opened WalletService

  /** The position's size in units: lots times the symbol's contract size. */
  function Qty(p: Position): real {
    p.lots * LotSize(p.symbol) as real
  }

  /** `pnlOf`: the price move in the position's favour times its size. */
  function PnlOf(p: Position, last: real): real {
    var diff := if p.side == Buy then last - p.entryPrice else p.entryPrice - last;
    diff * Qty(p)
  }

  /** At the entry price a position has neither gained nor lost. */
  lemma PnlAtEntry(p: Position)
    ensures PnlOf(p, p.entryPrice) == 0.0
  {
  }

  /** A buy and a sell of the same size at the same entry have opposite PnL. */
  lemma PnlSidesOpposite(p: Position, last: real)
    ensures PnlOf(p.(side := Buy), last) == -PnlOf(p.(side := Sell), last)
  {
  }

  /** A long position of positive size gains exactly when the price has risen above the entry. */
  lemma BuyPnlSign(p: Position, last: real)
    requires p.side == Buy && p.lots > 0.0
    ensures PnlOf(p, last) > 0.0 <==> last > p.entryPrice
    ensures PnlOf(p, last) < 0.0 <==> last < p.entryPrice
  {
    QtyPositive(p);
    ProductSign(last - p.entryPrice, Qty(p));
  }

  /** A short position of positive size gains exactly when the price has fallen below the entry. */
  lemma SellPnlSign(p: Position, last: real)
    requires p.side == Sell && p.lots > 0.0
    ensures PnlOf(p, last) > 0.0 <==> last < p.entryPrice
    ensures PnlOf(p, last) < 0.0 <==> last > p.entryPrice
  {
    QtyPositive(p);
    ProductSign(p.entryPrice - last, Qty(p));
  }

  lemma QtyPositive(p: Position)
    requires p.lots > 0.0
    ensures Qty(p) > 0.0
  {
    ProductSign(p.lots, LotSize(p.symbol) as real);
  }

  /** Multiplying by a positive factor keeps the sign. */
  lemma ProductSign(a: real, q: real)
    requires q > 0.0
    ensures a > 0.0 <==> a * q > 0.0
    ensures a < 0.0 <==> a * q < 0.0
  {
    if a > 0.0 {
      assert a * q > 0.0;
    } else if a < 0.0 {
      assert (-a) * q > 0.0;
    } else {
      assert a * q == 0.0;
    }
  }

  /** The take-profit level, if set, has been reached at this price. */
  predicate TpReached(p: Position, price: real) {
    p.takeProfit.Some? && (if p.side == Buy then price >= p.takeProfit.value else price <= p.takeProfit.value)
  }

  /** The stop-loss level, if set, has been reached at this price. */
  predicate SlReached(p: Position, price: real) {
    p.stopLoss.Some? && (if p.side == Buy then price <= p.stopLoss.value else price >= p.stopLoss.value)
  }

  /** `checkHit`: take-profit is tested before stop-loss, on either side. */
  function CheckHit(p: Position, price: real): (r: Option<CloseReason>)
    ensures r == Some(TakeProfit) <==> TpReached(p, price)
    ensures r == Some(StopLoss) <==> !TpReached(p, price) && SlReached(p, price)
    ensures r.None? <==> !TpReached(p, price) && !SlReached(p, price)
  {
    var sl := p.stopLoss;
    var tp := p.takeProfit;
    if p.side == Buy then
      if tp.Some? && price >= tp.value then Some(TakeProfit)
      else if sl.Some? && price <= sl.value then Some(StopLoss)
      else None
    else
      if tp.Some? && price <= tp.value then Some(TakeProfit)
      else if sl.Some? && price >= sl.value then Some(StopLoss)
      else None
  }

  /** A tick never produces a manual close. */
  lemma HitIsNeverManual(p: Position, price: real)
    ensures CheckHit(p, price) != Some(Manual)
  {
  }

  /** When a price reaches both levels (they are crossed), take-profit wins. */
  lemma TakeProfitWinsTies(p: Position, price: real)
    requires TpReached(p, price) && SlReached(p, price)
    ensures CheckHit(p, price) == Some(TakeProfit)
  {
  }

  /** A position with neither level set never triggers. */
  lemma NoLevelsNoHit(p: Position, price: real)
    requires p.stopLoss.None? && p.takeProfit.None?
    ensures CheckHit(p, price).None?
  {
  }

  /** A long position with its stop below and its target above the price is left alone. */
  lemma BuyBetweenLevelsNoHit(p: Position, price: real)
    requires p.side == Buy && p.stopLoss.Some? && p.takeProfit.Some?
    requires p.stopLoss.value < price < p.takeProfit.value
    ensures CheckHit(p, price).None?
  {
  }

  /** A closed position carries its close fields; an open one carries none. */
  predicate WellFormed(p: Position) {
    if p.status == Closed then p.closePrice.Some? && p.closeReason.Some? && p.closedAt.Some?
    else p.closePrice.None? && p.closeReason.None? && p.closedAt.None?
  }

  /** The position after a close at `last`: everything but the close fields is kept. */
  function ClosedAs(p: Position, last: real, reason: CloseReason, now: int): (q: Position)
    ensures WellFormed(q) && q.status == Closed
  {
    p.(status := Closed, closePrice := Some(last), closeReason := Some(reason), closedAt := Some(now))
  }

  /** The trade-history row of a closed position, with the history's auto-increment id. */
  function RecordOf(p: Position, rowId: int): TradeRecord {
    var last := p.closePrice.GetOr(p.entryPrice);
    TradeRecord(rowId, p.userId, p.orderId, p.id, p.symbol, p.side, p.lots, p.entryPrice,
                last, PnlOf(p, last), p.closedAt.GetOr(0))
  }

  /**
   * The invariant of the trading tables:
   * positions and orders are stored under their own ids and every position
   * is well formed; each position belongs to a distinct order of the same
   * user and symbol; every history row is the record of a closed position,
   * numbered from 1 in order; and every closed position has exactly one row
   * while an open one has none.
   */
  predicate Valid(orders: map<string, Order>, positions: map<string, Position>, history: seq<TradeRecord>) {
    Linked(orders, positions) && HistoryValid(positions, history)
  }

  /** The orders-and-positions half of `Valid`. */
  predicate Linked(orders: map<string, Order>, positions: map<string, Position>) {
    && (forall o | o in orders :: orders[o].id == o)
    && KeyedById(positions)
    && (forall id | id in positions :: WellFormed(positions[id]))
    && (forall id | id in positions ::
          positions[id].orderId in orders
          && orders[positions[id].orderId].userId == positions[id].userId
          && orders[positions[id].orderId].symbol == positions[id].symbol)
    && (forall a, b | a in positions && b in positions && positions[a].orderId == positions[b].orderId :: a == b)
  }

  /** Every position is stored under its own id. */
  predicate KeyedById(positions: map<string, Position>) {
    forall id | id in positions :: positions[id].id == id
  }

  /** Two versions of a position that are the same trade: same id, order, owner and symbol. */
  predicate SameTrade(p: Position, q: Position) {
    q.id == p.id && q.orderId == p.orderId && q.userId == p.userId && q.symbol == p.symbol
  }

  /** Rewriting one position as a well-formed version of the same trade keeps the links to orders. */
  lemma LinkedAfterUpdate(orders: map<string, Order>, positions: map<string, Position>, id: string, q: Position)
    requires Linked(orders, positions)
    requires id in positions && SameTrade(positions[id], q) && WellFormed(q)
    ensures Linked(orders, positions[id := q])
  {
    var ps := positions[id := q];
    assert forall k | k in ps :: SameTrade(positions[k], ps[k]);
  }

  /** The history half of `Valid`. */
  predicate HistoryValid(positions: map<string, Position>, history: seq<TradeRecord>) {
    && (forall i | 0 <= i < |history| ::
          history[i].positionId in positions
          && positions[history[i].positionId].status == Closed
          && history[i] == RecordOf(positions[history[i].positionId], i + 1))
    && (forall i, j | 0 <= i < |history| && 0 <= j < |history| && history[i].positionId == history[j].positionId :: i == j)
    && (forall id | id in positions && positions[id].status == Closed ::
          exists i :: 0 <= i < |history| && history[i].positionId == id)
  }

  /** Once closed, a position never changes again and no position disappears. */
  predicate Evolves(before: map<string, Position>, after: map<string, Position>) {
    forall id | id in before :: id in after && (before[id].status == Closed ==> after[id] == before[id])
  }

  /**
   * Settling `amount` to a wallet: a positive amount is credited, a negative
   * one is debited only when the balance covers it (otherwise the loss is
   * dropped and the wallet kept), zero does nothing.
   */
  function Settled(w: Wallets, user: string, kind: AccountKind, amount: real): Wallets {
    if amount > 0.0 then Credited(w, user, Finite(amount), kind)
    else if amount < 0.0 then Debited(w, user, Finite(-amount), kind).wallets
    else w
  }

  /**
   * A gain or a covered loss moves the balance by exactly the amount; an
   * uncovered loss leaves it as it was. The other partition and other users
   * never move, and no balance goes below zero.
   */
  lemma SettledEffect(w: Wallets, user: string, kind: AccountKind, amount: real)
    ensures var w' := Settled(w, user, kind, amount);
            && (amount >= 0.0 || (HasRow(w, user, kind) && UsdBalance(w, user, kind) >= -amount) ==>
                  UsdBalance(w', user, kind) == UsdBalance(w, user, kind) + amount)
            && (amount < 0.0 && !(HasRow(w, user, kind) && UsdBalance(w, user, kind) >= -amount) ==>
                  UsdBalance(w', user, kind) == UsdBalance(w, user, kind))
            && UsdBalance(w', user, OtherKind(kind)) == UsdBalance(w, user, OtherKind(kind))
            && OthersUnchanged(w, w', user)
            && (NonNegative(w) ==> NonNegative(w'))
  {
    if amount > 0.0 {
      CreditedEffect(w, user, Finite(amount), kind);
    } else if amount < 0.0 {
      DebitedEffect(w, user, Finite(-amount), kind);
    }
  }

  /** A loss larger than the balance is dropped: a 0.5 balance losing 2 keeps its 0.5. */
  lemma ShortfallIsDropped()
    ensures var w := map[WalletKey("u", UsdDemo) := 0.5];
            UsdBalance(Settled(w, "u", Demo, -2.0), "u", Demo) == 0.5
  {
    SettledEffect(map[WalletKey("u", UsdDemo) := 0.5], "u", Demo, -2.0);
  }

  /** The tables a close reads and writes. */
  datatype Book = Book(positions: map<string, Position>, history: seq<TradeRecord>, wallets: Wallets)

  datatype CloseOutcome = CloseOutcome(positionId: string, pnl: real, closePrice: real, reason: CloseReason)

  /**
   * A close may go ahead: the position exists and is open, and a requesting
   * user, when one is named (a non-empty id), owns it.
   */
  predicate MayClose(positions: map<string, Position>, positionId: string, requester: Option<string>) {
    && positionId in positions
    && positions[positionId].status == Open
    && (requester.None? || requester.value == "" || positions[positionId].userId == requester.value)
  }

  /** `closePosition` on a snapshot of the tables: the new tables and the result (None for null). */
  function Close(b: Book, positionId: string, requester: Option<string>, closePrice: Option<real>,
                 reason: CloseReason, now: int): (Book, Option<CloseOutcome>)
  {
    if !MayClose(b.positions, positionId, requester) then (b, None)
    else
      var p := b.positions[positionId];
      var last := closePrice.GetOr(p.entryPrice);
      var pnl := PnlOf(p, last);
      var q := ClosedAs(p, last, reason, now);
      var row := RecordOf(q, |b.history| + 1);
      var toSettle := p.marginReserved + pnl;
      (Book(b.positions[positionId := q], b.history + [row], Settled(b.wallets, p.userId, p.accountType, toSettle)),
       Some(CloseOutcome(positionId, pnl, last, reason)))
  }

  /**
   * A close is refused (null) exactly when it may not go ahead, and then
   * changes nothing; in every case it touches no other position.
   */
  lemma CloseFrame(b: Book, positionId: string, requester: Option<string>, closePrice: Option<real>,
                   reason: CloseReason, now: int)
    ensures var r := Close(b, positionId, requester, closePrice, reason, now);
            && (r.1.None? <==> !MayClose(b.positions, positionId, requester))
            && (r.1.None? ==> r.0 == b)
            && r.0.positions.Keys == b.positions.Keys
            && (forall id | id in b.positions && id != positionId :: r.0.positions[id] == b.positions[id])
  {
  }

  /**
   * A successful close: the position is closed at `last` (the given price,
   * or the entry price) with the given reason and otherwise unchanged, and
   * exactly one history row is appended carrying that exit price and PnL.
   */
  lemma CloseRecordsOnce(b: Book, positionId: string, requester: Option<string>, closePrice: Option<real>,
                         reason: CloseReason, now: int)
    requires MayClose(b.positions, positionId, requester)
    ensures var r := Close(b, positionId, requester, closePrice, reason, now);
            var p := b.positions[positionId];
            var last := closePrice.GetOr(p.entryPrice);
            && r.1 == Some(CloseOutcome(positionId, PnlOf(p, last), last, reason))
            && r.0.positions[positionId] == p.(status := Closed, closePrice := Some(last),
                                               closeReason := Some(reason), closedAt := Some(now))
            && |r.0.history| == |b.history| + 1
            && r.0.history[..|b.history|] == b.history
            && r.0.history[|b.history|].positionId == p.id
            && r.0.history[|b.history|].orderId == p.orderId
            && r.0.history[|b.history|].userId == p.userId
            && r.0.history[|b.history|].exitPrice == last
            && r.0.history[|b.history|].pnl == PnlOf(p, last)
  {
    var r := Close(b, positionId, requester, closePrice, reason, now);
    var p := b.positions[positionId];
    var last := closePrice.GetOr(p.entryPrice);
    var q := ClosedAs(p, last, reason, now);
    assert r.0.history == b.history + [RecordOf(q, |b.history| + 1)];
    assert r.0.history[..|b.history|] == b.history;
    assert PnlOf(q, last) == PnlOf(p, last);
  }

  /** Closing is terminal: a second close of the same position is refused and changes nothing. */
  lemma CloseTwiceIsNoop(b: Book, positionId: string, requester: Option<string>, closePrice: Option<real>,
                         reason: CloseReason, now: int,
                         requester2: Option<string>, closePrice2: Option<real>, reason2: CloseReason, now2: int)
    requires MayClose(b.positions, positionId, requester)
    ensures var b1 := Close(b, positionId, requester, closePrice, reason, now).0;
            Close(b1, positionId, requester2, closePrice2, reason2, now2) == (b1, None)
  {
    var b1 := Close(b, positionId, requester, closePrice, reason, now).0;
    assert b1.positions[positionId].status == Closed;
  }

  /**
   * Settlement: the position's wallet gets back margin plus PnL. A net gain
   * (or a covered loss) moves the balance by exactly that amount; an
   * uncovered loss leaves the balance as it was. The other partition and
   * other users' rows do not move.
   */
  lemma CloseSettles(b: Book, positionId: string, requester: Option<string>, closePrice: Option<real>,
                     reason: CloseReason, now: int)
    requires MayClose(b.positions, positionId, requester)
    ensures var p := b.positions[positionId];
            var w := b.wallets;
            var w' := Close(b, positionId, requester, closePrice, reason, now).0.wallets;
            var toSettle := p.marginReserved + PnlOf(p, closePrice.GetOr(p.entryPrice));
            && (toSettle >= 0.0 || (HasRow(w, p.userId, p.accountType) && UsdBalance(w, p.userId, p.accountType) >= -toSettle) ==>
                  UsdBalance(w', p.userId, p.accountType) == UsdBalance(w, p.userId, p.accountType) + toSettle)
            && (toSettle < 0.0 && !(HasRow(w, p.userId, p.accountType) && UsdBalance(w, p.userId, p.accountType) >= -toSettle) ==>
                  UsdBalance(w', p.userId, p.accountType) == UsdBalance(w, p.userId, p.accountType))
            && UsdBalance(w', p.userId, OtherKind(p.accountType)) == UsdBalance(w, p.userId, OtherKind(p.accountType))
            && OthersUnchanged(w, w', p.userId)
  {
    var p := b.positions[positionId];
    SettledEffect(b.wallets, p.userId, p.accountType, p.marginReserved + PnlOf(p, closePrice.GetOr(p.entryPrice)));
  }

  /** A close without a price (the manual close) settles at the entry: PnL 0, the margin comes back. */
  lemma ManualCloseReturnsMargin(b: Book, positionId: string, requester: Option<string>, now: int)
    requires MayClose(b.positions, positionId, requester)
    requires b.positions[positionId].marginReserved >= 0.0
    ensures var p := b.positions[positionId];
            var r := Close(b, positionId, requester, None, Manual, now);
            && r.1.value.pnl == 0.0
            && r.1.value.closePrice == p.entryPrice
            && UsdBalance(r.0.wallets, p.userId, p.accountType)
               == UsdBalance(b.wallets, p.userId, p.accountType) + p.marginReserved
  {
    var p := b.positions[positionId];
    PnlAtEntry(p);
    SettledEffect(b.wallets, p.userId, p.accountType, p.marginReserved);
  }

  /** The history part of the invariant survives appending the row of a position that has just closed. */
  lemma {:induction false} HistoryKeepsValid(positions: map<string, Position>, history: seq<TradeRecord>,
                                             id: string, q: Position)
    requires HistoryValid(positions, history)
    requires id in positions && positions[id].status == Open
    requires q.status == Closed && q.id == id
    ensures HistoryValid(positions[id := q], history + [RecordOf(q, |history| + 1)])
  {
    var ps := positions[id := q];
    var h := history + [RecordOf(q, |history| + 1)];
    forall i | 0 <= i < |h|
      ensures h[i].positionId in ps && ps[h[i].positionId].status == Closed && h[i] == RecordOf(ps[h[i].positionId], i + 1)
    {
      if i < |history| {
        assert h[i] == history[i];
        assert history[i].positionId != id;
      }
    }
    forall i, j | 0 <= i < |h| && 0 <= j < |h| && h[i].positionId == h[j].positionId
      ensures i == j
    {
      if i < |history| { assert h[i] == history[i]; assert history[i].positionId != id; }
      if j < |history| { assert h[j] == history[j]; assert history[j].positionId != id; }
    }
    forall k | k in ps && ps[k].status == Closed
      ensures exists i :: 0 <= i < |h| && h[i].positionId == k
    {
      if k == id {
        assert h[|history|].positionId == k;
      } else {
        var i :| 0 <= i < |history| && history[i].positionId == k;
        assert h[i] == history[i];
      }
    }
  }

  /** A close keeps the invariant, and only ever moves positions forward. */
  lemma CloseKeepsValid(orders: map<string, Order>, b: Book, positionId: string, requester: Option<string>,
                        closePrice: Option<real>, reason: CloseReason, now: int)
    requires Valid(orders, b.positions, b.history)
    ensures var r := Close(b, positionId, requester, closePrice, reason, now).0;
            Valid(orders, r.positions, r.history) && Evolves(b.positions, r.positions)
  {
    if MayClose(b.positions, positionId, requester) {
      var p := b.positions[positionId];
      var last := closePrice.GetOr(p.entryPrice);
      var q := ClosedAs(p, last, reason, now);
      var r := Close(b, positionId, requester, closePrice, reason, now).0;
      assert r.positions == b.positions[positionId := q];
      assert r.history == b.history + [RecordOf(q, |b.history| + 1)];
      HistoryKeepsValid(b.positions, b.history, positionId, q);
      LinkedAfterUpdate(orders, b.positions, positionId, q);
    }
  }

  /** `closePosition`. */
  method ClosePosition(db: Database, positionId: string, requester: Option<string>, closePrice: Option<real>,
                       reason: CloseReason, now: int) returns (r: Option<CloseOutcome>)
    modifies db`positions, db`history, db`wallets
    ensures (Book(db.positions, db.history, db.wallets), r)
            == Close(old(Book(db.positions, db.history, db.wallets)), positionId, requester, closePrice, reason, now)
  {
    ghost var b0 := Book(db.positions, db.history, db.wallets);
    ghost var expected := Close(b0, positionId, requester, closePrice, reason, now);
    if positionId !in db.positions || db.positions[positionId].status != Open {
      assert !MayClose(b0.positions, positionId, requester);
      return None;
    }
    var p := db.positions[positionId];
    if requester.Some? && requester.value != "" && p.userId != requester.value {
      assert !MayClose(b0.positions, positionId, requester);
      return None;
    }
    assert MayClose(b0.positions, positionId, requester);
    var last := closePrice.GetOr(p.entryPrice);
    var pnl := PnlOf(p, last);

    var q := p.(status := Closed, closePrice := Some(last), closeReason := Some(reason), closedAt := Some(now));
    assert q == ClosedAs(p, last, reason, now);
    db.positions := db.positions[positionId := q];
    db.history := db.history + [RecordOf(q, |db.history| + 1)];
    assert db.positions == expected.0.positions && db.history == expected.0.history;

    Settle(db, p.userId, p.accountType, p.marginReserved + pnl);
    r := Some(CloseOutcome(positionId, pnl, last, reason));
  }

  /** The wallet half of a close: credit a gain, debit a loss, do nothing at zero. */
  method Settle(db: Database, user: string, kind: AccountKind, amount: real)
    modifies db`wallets
    ensures db.wallets == Settled(old(db.wallets), user, kind, amount)
  {
    if amount > 0.0 {
      AddUsd(db, user, Finite(amount), kind);
    } else if amount < 0.0 {
      var _ := DeductUsd(db, user, Finite(-amount), kind);
    }
  }

  /** The positions a tick on `symbol` is checked against: the open ones of that (upper-cased) symbol. */
  predicate Targeted(p: Position, symbol: string) {
    p.symbol == Upper(symbol) && p.status == Open
  }

  /** What one position becomes on a tick: closed at the tick price when a level is hit. */
  function AfterTick(p: Position, symbol: string, price: real, now: int): (q: Position)
    ensures !Targeted(p, symbol) || CheckHit(p, price).None? ==> q == p
    ensures Targeted(p, symbol) && CheckHit(p, price).Some? ==>
              q == ClosedAs(p, price, CheckHit(p, price).value, now)
  {
    if Targeted(p, symbol) && CheckHit(p, price).Some? then ClosedAs(p, price, CheckHit(p, price).value, now) else p
  }

  /** The effect of `checkHitForSymbol` on the positions table. */
  function Tick(positions: map<string, Position>, symbol: string, price: real, now: int): map<string, Position> {
    map id | id in positions :: AfterTick(positions[id], symbol, price, now)
  }

  /** The positions a tick closes. */
  function Hits(positions: map<string, Position>, symbol: string, price: real): set<string> {
    set id | id in positions && Targeted(positions[id], symbol) && CheckHit(positions[id], price).Some?
  }

  /**
   * A tick only touches open positions of its own symbol: positions of other
   * symbols and closed positions keep every field, and positions move forward.
   */
  lemma TickTouchesOnlyItsSymbol(positions: map<string, Position>, symbol: string, price: real, now: int)
    ensures var t := Tick(positions, symbol, price, now);
            && t.Keys == positions.Keys
            && (forall id | id in positions && (positions[id].symbol != Upper(symbol) || positions[id].status == Closed) ::
                  t[id] == positions[id])
            && Evolves(positions, t)
  {
  }

  /** A closed position is closed with the reason the hit rule gives, and at the tick price. */
  lemma TickClosesWithHitReason(positions: map<string, Position>, symbol: string, price: real, now: int, id: string)
    requires id in Hits(positions, symbol, price)
    ensures var q := Tick(positions, symbol, price, now)[id];
            && q.status == Closed
            && q.closePrice == Some(price)
            && q.closeReason == CheckHit(positions[id], price)
  {
  }

  /** Ticking the same price twice closes nothing the second time. */
  lemma TickIdempotent(positions: map<string, Position>, symbol: string, price: real, now: int, later: int)
    ensures var t := Tick(positions, symbol, price, now);
            Tick(t, symbol, price, later) == t && Hits(t, symbol, price) == {}
  {
    var t := Tick(positions, symbol, price, now);
    forall id | id in t
      ensures AfterTick(t[id], symbol, price, later) == t[id]
    {
      var p := positions[id];
      if Targeted(p, symbol) && CheckHit(p, price).Some? {
        assert t[id].status == Closed;
      } else {
        assert t[id] == p;
      }
    }
    assert Tick(t, symbol, price, later) == t;
    forall id | id in t
      ensures id !in Hits(t, symbol, price)
    {
      var p := positions[id];
      if Targeted(p, symbol) && CheckHit(p, price).Some? {
        assert t[id].status == Closed;
      } else {
        assert t[id] == p;
      }
    }
  }

  /** One close of the sweep: an open position closed at the tick price, seen through its effect on the tables. */
  method CloseHit(db: Database, id: string, price: real, reason: CloseReason, now: int)
    requires id in db.positions && db.positions[id].status == Open
    modifies db`positions, db`history, db`wallets
    ensures Book(db.positions, db.history, db.wallets)
            == Close(old(Book(db.positions, db.history, db.wallets)), id, None, Some(price), reason, now).0
    ensures db.positions == old(db.positions)[id := ClosedAs(old(db.positions)[id], price, reason, now)]
    ensures |db.history| == |old(db.history)| + 1 && old(db.history) <= db.history
    ensures db.history[|old(db.history)|].positionId == old(db.positions)[id].id
    ensures NonNegative(old(db.wallets)) ==> NonNegative(db.wallets)
  {
    var _ := ClosePosition(db, id, None, Some(price), reason, now);
  }

  /** Closing the given positions one after another at the tick price, each with the reason the hit rule gives. */
  function CloseAll(b: Book, ids: seq<string>, price: real, now: int): Book
    decreases |ids|
  {
    if ids == [] then b
    else
      var b1 := CloseAll(b, ids[..|ids| - 1], price, now);
      var id := ids[|ids| - 1];
      if id in b1.positions && CheckHit(b1.positions[id], price).Some? then
        Close(b1, id, None, Some(price), CheckHit(b1.positions[id], price).value, now).0
      else b1
  }

  /** Closing one more hit position extends the sequence of closes. */
  lemma CloseAllStep(b0: Book, visit: seq<string>, id: string, price: real, reason: CloseReason, now: int, before: Book, after: Book)
    requires before == CloseAll(b0, visit, price, now)
    requires id in before.positions && CheckHit(before.positions[id], price) == Some(reason)
    requires after == Close(before, id, None, Some(price), reason, now).0
    ensures after == CloseAll(b0, visit + [id], price, now)
  {
    assert (visit + [id])[..|visit|] == visit;
  }

  lemma EvolvesTransitive(a: map<string, Position>, b: map<string, Position>, c: map<string, Position>)
    requires Evolves(a, b) && Evolves(b, c)
    ensures Evolves(a, c)
  {
  }

  /** Any sequence of closes keeps the invariant and only moves positions forward. */
  lemma {:induction false} CloseAllKeepsValid(orders: map<string, Order>, b: Book, ids: seq<string>, price: real, now: int)
    requires Valid(orders, b.positions, b.history)
    ensures var r := CloseAll(b, ids, price, now);
            Valid(orders, r.positions, r.history) && Evolves(b.positions, r.positions)
  {
    if ids != [] {
      var prefix := ids[..|ids| - 1];
      var b1 := CloseAll(b, prefix, price, now);
      CloseAllKeepsValid(orders, b, prefix, price, now);
      var id := ids[|ids| - 1];
      if id in b1.positions && CheckHit(b1.positions[id], price).Some? {
        var hit := CheckHit(b1.positions[id], price).value;
        CloseKeepsValid(orders, b1, id, None, Some(price), hit, now);
        EvolvesTransitive(b.positions, b1.positions, Close(b1, id, None, Some(price), hit, now).0.positions);
      }
    }
  }

  /**
   * The state of the sweep part-way: `done` (the targets already visited)
   * are as the tick leaves them, everything else is as in the snapshot, and
   * `closed` are the visited targets that the price hit.
   */
  ghost predicate SweepInv(snap: map<string, Position>, cur: map<string, Position>, targets: set<string>,
                           todo: set<string>, closed: set<string>, symbol: string, price: real, now: int) {
    && todo <= targets
    && (forall id :: id in targets <==> id in snap && Targeted(snap[id], symbol))
    && cur.Keys == snap.Keys
    && (forall id | id in snap && id !in targets - todo :: cur[id] == snap[id])
    && (forall id | id in targets - todo :: cur[id] == AfterTick(snap[id], symbol, price, now))
    && (forall id :: id in closed <==> id in targets - todo && CheckHit(snap[id], price).Some?)
  }

  lemma SweepStart(snap: map<string, Position>, targets: set<string>, symbol: string, price: real, now: int)
    requires forall id :: id in targets <==> id in snap && Targeted(snap[id], symbol)
    ensures SweepInv(snap, snap, targets, targets, {}, symbol, price, now)
  {
  }

  /** Visiting one more target keeps the sweep state: a hit closes it, a miss leaves it. */
  lemma SweepStep(snap: map<string, Position>, cur: map<string, Position>, targets: set<string>,
                  todo: set<string>, closed: set<string>, symbol: string, price: real, now: int, id: string)
    requires SweepInv(snap, cur, targets, todo, closed, symbol, price, now)
    requires id in todo
    ensures cur[id] == snap[id] && cur[id].status == Open && id !in closed
    ensures CheckHit(snap[id], price).Some? ==>
              SweepInv(snap, cur[id := ClosedAs(cur[id], price, CheckHit(snap[id], price).value, now)],
                       targets, todo - {id}, closed + {id}, symbol, price, now)
    ensures CheckHit(snap[id], price).None? ==>
              SweepInv(snap, cur, targets, todo - {id}, closed, symbol, price, now)
  {
  }

  /** The rows the sweep has appended so far: one per closed position, for that position. */
  ghost predicate SweepRows(h0: seq<TradeRecord>, h: seq<TradeRecord>, closed: set<string>, keyed: bool) {
    && h0 <= h
    && |h| == |h0| + |closed|
    && (keyed ==> forall i | |h0| <= i < |h| :: h[i].positionId in closed)
  }

  lemma RowsStep(h0: seq<TradeRecord>, h: seq<TradeRecord>, closed: set<string>, keyed: bool,
                 row: TradeRecord, id: string)
    requires SweepRows(h0, h, closed, keyed)
    requires id !in closed && (keyed ==> row.positionId == id)
    ensures SweepRows(h0, h + [row], closed + {id}, keyed)
  {
    assert h0 <= h + [row];
  }

  lemma SweepEnd(snap: map<string, Position>, cur: map<string, Position>, targets: set<string>,
                 closed: set<string>, symbol: string, price: real, now: int)
    requires SweepInv(snap, cur, targets, {}, closed, symbol, price, now)
    ensures cur == Tick(snap, symbol, price, now)
    ensures closed == Hits(snap, symbol, price)
  {
  }

  /** The whole state of the sweep: positions, rows appended, and the closes made so far. */
  ghost predicate SweepState(snap: map<string, Position>, targets: set<string>, todo: set<string>, closed: set<string>,
                             h0: seq<TradeRecord>, b0: Book, visit: seq<string>, cur: Book,
                             symbol: string, price: real, now: int) {
    && SweepInv(snap, cur.positions, targets, todo, closed, symbol, price, now)
    && SweepRows(h0, cur.history, closed, KeyedById(snap))
    && cur == CloseAll(b0, visit, price, now)
    && (forall id :: id in visit <==> id in closed)
  }

  /** One turn of the sweep: check the hit rule on one target and close it if hit. */
  method Visit(db: Database, snap: map<string, Position>, ghost targets: set<string>, todo: set<string>,
               ghost closed: set<string>, ghost h0: seq<TradeRecord>, ghost b0: Book, ghost visit: seq<string>,
               id: string, symbol: string, price: real, now: int)
    returns (ghost closed': set<string>, ghost visit': seq<string>)
    requires id in todo
    requires SweepState(snap, targets, todo, closed, h0, b0, visit, Book(db.positions, db.history, db.wallets), symbol, price, now)
    modifies db`positions, db`history, db`wallets
    ensures SweepState(snap, targets, todo - {id}, closed', h0, b0, visit', Book(db.positions, db.history, db.wallets), symbol, price, now)
    ensures NonNegative(old(db.wallets)) ==> NonNegative(db.wallets)
  {
    SweepStep(snap, db.positions, targets, todo, closed, symbol, price, now, id);
    closed', visit' := closed, visit;
    var hit := CheckHit(snap[id], price);
    if hit.Some? {
      ghost var h := db.history;
      ghost var before := Book(db.positions, db.history, db.wallets);
      CloseHit(db, id, price, hit.value, now);
      RowsStep(h0, h, closed, KeyedById(snap), db.history[|h|], id);
      CloseAllStep(b0, visit, id, price, hit.value, now, before, Book(db.positions, db.history, db.wallets));
      closed' := closed + {id};
      visit' := visit + [id];
    }
  }

  /** The end of the sweep: every target visited, so the tables are as the tick specifies. */
  lemma SweepDone(orders: map<string, Order>, snap: map<string, Position>, targets: set<string>, closed: set<string>,
                  b0: Book, visit: seq<string>, cur: Book, symbol: string, price: real, now: int)
    requires b0.positions == snap
    requires SweepState(snap, targets, {}, closed, b0.history, b0, visit, cur, symbol, price, now)
    ensures cur.positions == Tick(snap, symbol, price, now)
    ensures b0.history <= cur.history
    ensures |cur.history| == |b0.history| + |Hits(snap, symbol, price)|
    ensures Valid(orders, snap, b0.history) ==>
              forall i | |b0.history| <= i < |cur.history| :: cur.history[i].positionId in Hits(snap, symbol, price)
    ensures Valid(orders, snap, b0.history) ==> Valid(orders, cur.positions, cur.history)
  {
    SweepEnd(snap, cur.positions, targets, closed, symbol, price, now);
    if Valid(orders, snap, b0.history) {
      CloseAllKeepsValid(orders, b0, visit, price, now);
    }
  }

  /**
   * `checkHitForSymbol`: every open position of the symbol that the price
   * hits is closed at that price with the hit reason, settled, and given one
   * history row; no other position changes.
   */
  method CheckHitForSymbol(db: Database, symbol: string, price: real, now: int) returns (ghost order: seq<string>)
    modifies db`positions, db`history, db`wallets
    ensures db.positions == Tick(old(db.positions), symbol, price, now)
    ensures old(db.history) <= db.history
    ensures |db.history| == |old(db.history)| + |Hits(old(db.positions), symbol, price)|
    ensures Valid(db.orders, old(db.positions), old(db.history)) ==>
              forall i | |old(db.history)| <= i < |db.history| :: db.history[i].positionId in Hits(old(db.positions), symbol, price)
    ensures Valid(db.orders, old(db.positions), old(db.history)) ==> Valid(db.orders, db.positions, db.history)
    ensures NonNegative(old(db.wallets)) ==> NonNegative(db.wallets)
    ensures forall id :: id in order <==> id in Hits(old(db.positions), symbol, price)
    ensures Book(db.positions, db.history, db.wallets)
            == CloseAll(old(Book(db.positions, db.history, db.wallets)), order, price, now)
  {
    var snap := db.positions;
    ghost var h0 := db.history;
    ghost var wasNonNegative := NonNegative(db.wallets);
    var sym := Upper(symbol);
    var todo := set id | id in snap && snap[id].symbol == sym && snap[id].status == Open;
    ghost var targets := todo;
    ghost var closed: set<string> := {};
    ghost var b0 := Book(db.positions, db.history, db.wallets);
    ghost var visit: seq<string> := [];
    SweepStart(snap, targets, symbol, price, now);
    while todo != {}
      invariant SweepState(snap, targets, todo, closed, h0, b0, visit, Book(db.positions, db.history, db.wallets), symbol, price, now)
      invariant wasNonNegative ==> NonNegative(db.wallets)
      decreases todo
    {
      var id :| id in todo;
      closed, visit := Visit(db, snap, targets, todo, closed, h0, b0, visit, id, symbol, price, now);
      todo := todo - {id};
    }
    SweepDone(db.orders, snap, targets, closed, b0, visit, Book(db.positions, db.history, db.wallets), symbol, price, now);
    order := visit;
  }
}
