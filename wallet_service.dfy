/**
 * The ledger: per-user USD balances in two partitions, USD_DEMO and
 * USD_REAL (with the older single USD row read as the real balance), and
 * the debit and credit primitives every other service goes through.
 *
 * Each primitive is a method that updates the wallet table row by row,
 * proved against a function on the table that states its effect on the
 * balances.
 */
module WalletService {
  import opened Common
  import opened Store

  type Wallets = map<WalletKey, real>

  /** The wallet symbol that holds an account kind's balance. */
  function SymbolFor(kind: AccountKind): (s: string)
    ensures s == UsdDemo || s == UsdReal
    ensures (s == UsdReal) <==> kind.Real?
  {
    assert UsdDemo[4] != UsdReal[4];
    if kind == Demo then UsdDemo else UsdReal
  }

  function OtherKind(kind: AccountKind): AccountKind {
    if kind == Demo then Real else Demo
  }

  /** No wallet row holds a negative amount. */
  predicate NonNegative(w: Wallets) {
    forall k | k in w :: w[k] >= 0.0
  }

  /** Every row of other users is kept, with its amount, and no row of another user appears. */
  predicate OthersUnchanged(w: Wallets, w': Wallets, user: string) {
    && (forall k | k in w && k.userId != user :: k in w' && w'[k] == w[k])
    && (forall k | k in w' && k.userId != user :: k in w)
  }

  /** The demo balance: the USD_DEMO row, or 0 when there is none. */
  function DemoBalance(w: Wallets, user: string): (b: real)
    ensures NonNegative(w) ==> b >= 0.0
    ensures WalletKey(user, UsdDemo) !in w ==> b == 0.0
  {
    var key := WalletKey(user, UsdDemo);
    if key in w then w[key] else 0.0
  }

  /** The real balance: the USD_REAL row, else the legacy USD row, else 0. */
  function RealBalance(w: Wallets, user: string): (b: real)
    ensures NonNegative(w) ==> b >= 0.0
    ensures WalletKey(user, UsdReal) in w ==> b == w[WalletKey(user, UsdReal)]
    ensures WalletKey(user, UsdReal) !in w && WalletKey(user, UsdLegacy) in w ==> b == w[WalletKey(user, UsdLegacy)]
  {
    var realKey := WalletKey(user, UsdReal);
    var legacy := WalletKey(user, UsdLegacy);
    if realKey in w then w[realKey] else if legacy in w then w[legacy] else 0.0
  }

  /** The balance of one account kind, as trading sees it. */
  function UsdBalance(w: Wallets, user: string, kind: AccountKind): (b: real)
    ensures NonNegative(w) ==> b >= 0.0
  {
    if kind == Demo then DemoBalance(w, user) else RealBalance(w, user)
  }

  /** A row exists that a debit of this kind can use (for real, possibly the legacy row). */
  predicate HasRow(w: Wallets, user: string, kind: AccountKind) {
    WalletKey(user, SymbolFor(kind)) in w || (kind == Real && WalletKey(user, UsdLegacy) in w)
  }

  /**
   * Moving the legacy USD row to the USD_REAL symbol when a real-account
   * operation finds no USD_REAL row.
   */
  function Relabel(w: Wallets, user: string, kind: AccountKind): Wallets {
    var realKey := WalletKey(user, UsdReal);
    var legacy := WalletKey(user, UsdLegacy);
    if kind == Real && realKey !in w && legacy in w then (w - {legacy})[realKey := w[legacy]] else w
  }

  /** The relabel moves no balance and makes the row a debit or credit will use exist. */
  lemma RelabelKeepsBalances(w: Wallets, user: string, kind: AccountKind)
    ensures var w' := Relabel(w, user, kind);
            && DemoBalance(w', user) == DemoBalance(w, user)
            && RealBalance(w', user) == RealBalance(w, user)
            && HasRow(w', user, kind) == HasRow(w, user, kind)
            && (HasRow(w, user, kind) ==> WalletKey(user, SymbolFor(kind)) in w')
            && OthersUnchanged(w, w', user)
            && (NonNegative(w) ==> NonNegative(w'))
  {
  }

  datatype Debit = Debit(ok: bool, wallets: Wallets)

  /** The effect of `deductUsd` on the wallet table, and whether it succeeded. */
  function Debited(w: Wallets, user: string, amount: Num, kind: AccountKind): Debit {
    if !IsPositive(amount) then Debit(false, w)
    else
      var w1 := Relabel(w, user, kind);
      var key := WalletKey(user, SymbolFor(kind));
      if key !in w1 || w1[key] < amount.value then Debit(false, w1)
      else Debit(true, w1[key := w1[key] - amount.value])
  }

  /**
   * A debit succeeds exactly when the amount is finite and positive, a row
   * exists and the balance covers the amount; then the balance drops by
   * exactly the amount. A failed debit changes no balance (the legacy
   * relabel may still have been saved). The other partition and other
   * users never move, and no balance goes below zero.
   */
  lemma DebitedEffect(w: Wallets, user: string, amount: Num, kind: AccountKind)
    ensures var d := Debited(w, user, amount, kind);
            && (d.ok <==> IsPositive(amount) && HasRow(w, user, kind) && UsdBalance(w, user, kind) >= amount.value)
            && UsdBalance(d.wallets, user, kind) == UsdBalance(w, user, kind) - (if d.ok then amount.value else 0.0)
            && UsdBalance(d.wallets, user, OtherKind(kind)) == UsdBalance(w, user, OtherKind(kind))
            && OthersUnchanged(w, d.wallets, user)
            && (NonNegative(w) ==> NonNegative(d.wallets))
  {
    RelabelKeepsBalances(w, user, kind);
  }

  /**
   * The effect of `addUsd`, with the legacy row carried over as `deductUsd`
   * does: a finite positive amount is added to the row (created at 0 first
   * if missing); anything else is ignored.
   */
  function Credited(w: Wallets, user: string, amount: Num, kind: AccountKind): Wallets {
    if !IsPositive(amount) then w
    else
      var w1 := Relabel(w, user, kind);
      var key := WalletKey(user, SymbolFor(kind));
      var current := if key in w1 then w1[key] else 0.0;
      w1[key := current + amount.value]
  }

  /**
   * A credit raises the balance by exactly a finite positive amount and
   * ignores any other; the other partition and other users never move, and
   * a non-negative table stays non-negative.
   */
  lemma CreditedEffect(w: Wallets, user: string, amount: Num, kind: AccountKind)
    ensures var w' := Credited(w, user, amount, kind);
            && UsdBalance(w', user, kind) == UsdBalance(w, user, kind) + (if IsPositive(amount) then amount.value else 0.0)
            && UsdBalance(w', user, OtherKind(kind)) == UsdBalance(w, user, OtherKind(kind))
            && (IsPositive(amount) ==> WalletKey(user, SymbolFor(kind)) in w')
            && OthersUnchanged(w, w', user)
            && (NonNegative(w) ==> NonNegative(w'))
  {
    RelabelKeepsBalances(w, user, kind);
  }

  /**
   * `addUsd` as the source writes it: the USD_REAL row is looked up and,
   * when missing, created at 0 without looking at the legacy row.
   */
  function CreditedAsWritten(w: Wallets, user: string, amount: Num, kind: AccountKind): Wallets {
    if !IsPositive(amount) then w
    else
      var key := WalletKey(user, SymbolFor(kind));
      var current := if key in w then w[key] else 0.0;
      w[key := current + amount.value]
  }

  /**
   * With only a legacy row of 50, crediting 10 to the real account as the
   * source does leaves a real balance of 10, not 60: the legacy balance is
   * hidden behind the new USD_REAL row.
   */
  lemma AsWrittenCreditHidesLegacy()
    ensures var w := map[WalletKey("u", UsdLegacy) := 50.0];
            RealBalance(CreditedAsWritten(w, "u", Finite(10.0), Real), "u") == 10.0
            && RealBalance(Credited(w, "u", Finite(10.0), Real), "u") == 60.0
  {
    var w := map[WalletKey("u", UsdLegacy) := 50.0];
    assert WalletKey("u", UsdReal) !in w;
    assert CreditedAsWritten(w, "u", Finite(10.0), Real) == w[WalletKey("u", UsdReal) := 10.0];
  }

  /** A successful debit followed by a credit of the same amount restores the balance. */
  lemma DebitThenCredit(w: Wallets, user: string, amount: Num, kind: AccountKind)
    requires Debited(w, user, amount, kind).ok
    ensures UsdBalance(Credited(Debited(w, user, amount, kind).wallets, user, amount, kind), user, kind)
            == UsdBalance(w, user, kind)
  {
    DebitedEffect(w, user, amount, kind);
    CreditedEffect(Debited(w, user, amount, kind).wallets, user, amount, kind);
  }

  /** `deductUsd`: debit one account kind, refusing rather than going below zero. */
  method DeductUsd(db: Database, user: string, amount: Num, kind: AccountKind) returns (ok: bool)
    modifies db`wallets
    ensures Debit(ok, db.wallets) == Debited(old(db.wallets), user, amount, kind)
  {
    if !amount.Finite? || amount.value <= 0.0 {
      return false;
    }
    var symbol := SymbolFor(kind);
    var key := WalletKey(user, symbol);
    var found := key in db.wallets;
    if symbol == UsdReal && !found {
      var legacy := WalletKey(user, UsdLegacy);
      if legacy in db.wallets {
        db.wallets := (db.wallets - {legacy})[key := db.wallets[legacy]];
        found := true;
      }
    }
    if !found {
      return false;
    }
    var current := db.wallets[key];
    if current < amount.value {
      return false;
    }
    db.wallets := db.wallets[key := current - amount.value];
    ok := true;
  }

  /** `addUsd`: credit one account kind, creating its row if missing. */
  method AddUsd(db: Database, user: string, amount: Num, kind: AccountKind)
    modifies db`wallets
    ensures db.wallets == Credited(old(db.wallets), user, amount, kind)
  {
    if !amount.Finite? || amount.value <= 0.0 {
      return;
    }
    var symbol := SymbolFor(kind);
    var key := WalletKey(user, symbol);
    if symbol == UsdReal && key !in db.wallets {
      var legacy := WalletKey(user, UsdLegacy);
      if legacy in db.wallets {
        db.wallets := (db.wallets - {legacy})[key := db.wallets[legacy]];
      }
    }
    var current := if key in db.wallets then db.wallets[key] else 0.0;
    db.wallets := db.wallets[key := current + amount.value];
  }

  datatype WalletError = UserNotFound

  /** `resetDemoWallet`: a Demo-tier user's USD_DEMO row becomes the initial 25 000; others are untouched. */
  method ResetDemoWallet(db: Database, user: string) returns (r: Result<real, WalletError>)
    modifies db`wallets
    ensures user !in db.users ==> r == Err(UserNotFound) && db.wallets == old(db.wallets)
    ensures user in db.users && db.users[user].accountType != DemoTier ==>
              db.wallets == old(db.wallets) && r == Ok(DemoBalance(db.wallets, user))
    ensures user in db.users && db.users[user].accountType == DemoTier ==>
              db.wallets == old(db.wallets)[WalletKey(user, UsdDemo) := DemoInitialBalance()]
              && r == Ok(25000.0)
    ensures RealBalance(db.wallets, user) == RealBalance(old(db.wallets), user)
    ensures OthersUnchanged(old(db.wallets), db.wallets, user)
    ensures NonNegative(old(db.wallets)) ==> NonNegative(db.wallets)
  {
    if user !in db.users {
      return Err(UserNotFound);
    }
    if db.users[user].accountType != DemoTier {
      return Ok(DemoBalance(db.wallets, user));
    }
    var initial := DemoInitialBalance();
    db.wallets := db.wallets[WalletKey(user, UsdDemo) := initial];
    r := Ok(db.wallets[WalletKey(user, UsdDemo)]);
  }

  /** `setDemoUsdBalance`: a finite non-negative value becomes the demo balance; anything else is ignored. */
  method SetDemoUsdBalance(db: Database, user: string, amount: Num) returns (balance: real)
    modifies db`wallets
    ensures !amount.Finite? || amount.value < 0.0 ==> db.wallets == old(db.wallets)
    ensures amount.Finite? && amount.value >= 0.0 ==>
              db.wallets == old(db.wallets)[WalletKey(user, UsdDemo) := amount.value]
    ensures balance == DemoBalance(db.wallets, user)
    ensures RealBalance(db.wallets, user) == RealBalance(old(db.wallets), user)
    ensures NonNegative(old(db.wallets)) ==> NonNegative(db.wallets)
  {
    if !amount.Finite? || amount.value < 0.0 {
      return DemoBalance(db.wallets, user);
    }
    db.wallets := db.wallets[WalletKey(user, UsdDemo) := amount.value];
    balance := amount.value;
  }
}
