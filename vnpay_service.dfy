/**
 * VNPay deposits into the real account: a pending deposit is created with
 * its USD equivalent; the gateway's return redirect (authenticated or
 * public) or its IPN call credits it at most once, guarded by `creditedAt`,
 * when the reported amount matches; an unsuccessful IPN marks a pending
 * deposit failed. The gateway's signature check and the fields it parses
 * are an input of each call.
 */
module VnpayService {
  import opened Common
  import opened Text
  import opened Store
  import opened WalletService
  import opened SecurityConfirmation

  const VndToUsdRate: real := 24000.0
  const MinDepositVnd: real := 1000.0

  /** `amountVnd / VND_TO_USD_RATE`. */
  function AmountUsdOf(vnd: real): (usd: real)
    ensures usd * VndToUsdRate == vnd
    ensures vnd > 0.0 ==> usd > 0.0
  {
    vnd / VndToUsdRate
  }

  datatype PaymentError = NotConfigured | NotConfirmed | AmountInvalid

  /**
   * `createPayment`: the pending deposit it stores, or the first failing
   * requirement: the gateway configured, the user security-confirmed, a
   * finite amount of at least 1000 VND.
   */
  function PaymentCreation(configured: bool, confirmations: Registry, userId: string, amountVnd: Num,
                           orderId: string, now: int): (r: Result<Deposit, PaymentError>)
    ensures r.Ok? <==> configured && IsConfirmed(confirmations, userId)
                       && amountVnd.Finite? && amountVnd.value >= MinDepositVnd
    ensures !configured ==> r == Err(NotConfigured)
    ensures configured && !IsConfirmed(confirmations, userId) ==> r == Err(NotConfirmed)
    ensures r.Ok? ==> && r.value.orderId == orderId && r.value.userId == userId
                      && r.value.amount == amountVnd.value
                      && r.value.amountUsd * VndToUsdRate == amountVnd.value
                      && r.value.status == Pending && r.value.creditedAt.None?
  {
    if !configured then Err(NotConfigured)
    else if !IsConfirmed(confirmations, userId) then Err(NotConfirmed)
    else if !amountVnd.Finite? || amountVnd.value < MinDepositVnd then Err(AmountInvalid)
    else Ok(Deposit(orderId, userId, amountVnd.value, AmountUsdOf(amountVnd.value), Pending, None, None, None, None, now))
  }

  /** What the gateway library reports about a callback: signature valid, payment successful, and the parsed fields. */
  datatype GatewayCheck = GatewayCheck(
    verified: bool, success: bool, txnRef: Option<string>, amount: Option<real>,
    transactionNo: Option<string>, responseCode: Option<string>)

  /** `if (!orderId)`: an absent or empty reference names no order. */
  predicate HasOrderRef(g: GatewayCheck) {
    g.txnRef.Some? && g.txnRef.value != ""
  }

  /** The query parameters the gateway signs: those whose name starts with `vnp_`. */
  function VnpParams(query: map<string, string>): map<string, string> {
    map k | k in query && StartsWith(k, "vnp_") :: query[k]
  }

  /** `pickVnpParams`, one entry at a time. */
  method PickVnpParams(query: map<string, string>) returns (picked: map<string, string>)
    ensures picked == VnpParams(query)
  {
    picked := map[];
    var todo := query.Keys;
    while todo != {}
      invariant todo <= query.Keys
      invariant forall k :: k in picked <==> k in query && k !in todo && StartsWith(k, "vnp_")
      invariant forall k | k in picked :: picked[k] == query[k]
      decreases todo
    {
      var k :| k in todo;
      if StartsWith(k, "vnp_") {
        picked := picked[k := query[k]];
      }
      todo := todo - {k};
    }
  }

  /**
   * The amount rule: no reported amount, the deposit's amount, or a
   * hundred times it (the gateway's minor units).
   */
  predicate AmountMatches(reported: Option<real>, amount: real) {
    reported.None? || reported.value == amount || reported.value == amount * 100.0
  }

  /**
   * The public confirm compares the reported amount with the stored amount
   * as loaded: a `bigint` column that the MySQL driver returns as a decimal
   * string, so the strict equality with a number never holds and only the
   * hundredfold comparison (which converts the string) can succeed.
   */
  predicate AmountMatchesPublicAsWritten(reported: Option<real>, amount: real) {
    reported.None? || reported.value == amount * 100.0
  }

  /** A gateway that reports the amount in VND is refused by the public rule as written and accepted by the intended one. */
  lemma PublicAmountRuleRefusesExactAmount()
    ensures !AmountMatchesPublicAsWritten(Some(50000.0), 50000.0)
    ensures AmountMatches(Some(50000.0), 50000.0)
  {
  }

  /** The deposit table and the wallets: the state the confirmation paths change. */
  datatype Payments = Payments(deposits: map<string, Deposit>, wallets: Wallets)

  datatype ConfirmStatus = InvalidSignature | PaymentUnsuccessful | MissingOrder | OrderNotFound | AmountMismatch

  /** The reply of a confirmation: credited (now or before) with the deposit's USD amount, or refused. */
  datatype ConfirmReply = Paid(amountUsd: real) | Declined(status: ConfirmStatus)

  /**
   * `creditDepositSuccess`: an unknown order is refused; a deposit already
   * credited is reported again without any change; otherwise the deposit is
   * marked successful and credited now, and its USD amount is added to the
   * owner's real account.
   */
  function CreditSuccess(s: Payments, orderId: string, payload: map<string, string>,
                         transactionNo: Option<string>, responseCode: Option<string>, now: int): (Payments, ConfirmReply) {
    if orderId !in s.deposits then (s, Declined(OrderNotFound))
    else
      var d := s.deposits[orderId];
      if d.creditedAt.Some? then (s, Paid(d.amountUsd))
      else
        var d' := d.(status := Success, vnpTransactionNo := transactionNo, vnpResponseCode := responseCode,
                     ipnPayload := Some(payload), creditedAt := Some(now));
        (Payments(s.deposits[orderId := d'], Credited(s.wallets, d.userId, Finite(d.amountUsd), Real)),
         Paid(d.amountUsd))
  }

  /** The first credit of a deposit raises its owner's real balance by its USD amount and nothing else. */
  lemma FirstCreditEffect(s: Payments, orderId: string, payload: map<string, string>,
                          transactionNo: Option<string>, responseCode: Option<string>, now: int)
    requires orderId in s.deposits && s.deposits[orderId].creditedAt.None?
    requires s.deposits[orderId].amountUsd > 0.0
    ensures var d := s.deposits[orderId];
            var (s', reply) := CreditSuccess(s, orderId, payload, transactionNo, responseCode, now);
            && reply == Paid(d.amountUsd)
            && s'.deposits[orderId].status == Success && s'.deposits[orderId].creditedAt == Some(now)
            && RealBalance(s'.wallets, d.userId) == RealBalance(s.wallets, d.userId) + d.amountUsd
            && DemoBalance(s'.wallets, d.userId) == DemoBalance(s.wallets, d.userId)
            && OthersUnchanged(s.wallets, s'.wallets, d.userId)
            && (forall o | o in s.deposits && o != orderId :: o in s'.deposits && s'.deposits[o] == s.deposits[o])
  {
    var d := s.deposits[orderId];
    CreditedEffect(s.wallets, d.userId, Finite(d.amountUsd), Real);
  }

  /** Crediting is idempotent: a second credit of the same order changes nothing and gives the same reply. */
  lemma CreditAtMostOnce(s: Payments, orderId: string, payload: map<string, string>,
                         transactionNo: Option<string>, responseCode: Option<string>, now: int,
                         payload2: map<string, string>, transactionNo2: Option<string>, responseCode2: Option<string>, later: int)
    ensures var (s1, r1) := CreditSuccess(s, orderId, payload, transactionNo, responseCode, now);
            CreditSuccess(s1, orderId, payload2, transactionNo2, responseCode2, later) == (s1, r1)
  {
  }

  /**
   * `confirmFromReturnUrl` for a signed-in user: the signature must verify,
   * the payment succeed, the reference name an order of this very user,
   * and the amount match, before the deposit is credited.
   */
  function ConfirmReturn(s: Payments, userId: string, g: GatewayCheck, query: map<string, string>, now: int)
    : (Payments, ConfirmReply)
  {
    if !g.verified then (s, Declined(InvalidSignature))
    else if !g.success then (s, Declined(PaymentUnsuccessful))
    else if !HasOrderRef(g) then (s, Declined(MissingOrder))
    else
      var orderId := g.txnRef.value;
      if orderId !in s.deposits || s.deposits[orderId].userId != userId then (s, Declined(OrderNotFound))
      else if s.deposits[orderId].creditedAt.Some? then (s, Paid(s.deposits[orderId].amountUsd))
      else if !AmountMatches(g.amount, s.deposits[orderId].amount) then (s, Declined(AmountMismatch))
      else CreditSuccess(s, orderId, VnpParams(query), g.transactionNo, g.responseCode, now)
  }

  /** `confirmFromReturnUrlPublic`: the same without the owner check; it credits the deposit's own user. */
  function ConfirmReturnPublic(s: Payments, g: GatewayCheck, query: map<string, string>, now: int)
    : (Payments, ConfirmReply)
  {
    if !g.verified then (s, Declined(InvalidSignature))
    else if !g.success then (s, Declined(PaymentUnsuccessful))
    else if !HasOrderRef(g) then (s, Declined(MissingOrder))
    else
      var orderId := g.txnRef.value;
      if orderId !in s.deposits then (s, Declined(OrderNotFound))
      else if s.deposits[orderId].creditedAt.Some? then (s, Paid(s.deposits[orderId].amountUsd))
      else if !AmountMatches(g.amount, s.deposits[orderId].amount) then (s, Declined(AmountMismatch))
      else CreditSuccess(s, orderId, VnpParams(query), g.transactionNo, g.responseCode, now)
  }

  /** The public confirm as written: its amount rule is `AmountMatchesPublicAsWritten`. */
  function ConfirmReturnPublicAsWritten(s: Payments, g: GatewayCheck, query: map<string, string>, now: int)
    : (Payments, ConfirmReply)
  {
    if !g.verified then (s, Declined(InvalidSignature))
    else if !g.success then (s, Declined(PaymentUnsuccessful))
    else if !HasOrderRef(g) then (s, Declined(MissingOrder))
    else
      var orderId := g.txnRef.value;
      if orderId !in s.deposits then (s, Declined(OrderNotFound))
      else if s.deposits[orderId].creditedAt.Some? then (s, Paid(s.deposits[orderId].amountUsd))
      else if !AmountMatchesPublicAsWritten(g.amount, s.deposits[orderId].amount) then (s, Declined(AmountMismatch))
      else CreditSuccess(s, orderId, VnpParams(query), g.transactionNo, g.responseCode, now)
  }

  /**
   * A successful payment reported in VND units: the public path as written
   * refuses it, the corrected one credits it, like the authenticated path.
   */
  lemma PublicConfirmAsWrittenRefusesVndAmount(d: Deposit, query: map<string, string>, now: int)
    requires d.amount == 50000.0 && d.creditedAt.None?
    ensures var s := Payments(map["o" := d], map[]);
            var g := GatewayCheck(true, true, Some("o"), Some(50000.0), None, None);
            && ConfirmReturnPublicAsWritten(s, g, query, now).1 == Declined(AmountMismatch)
            && ConfirmReturnPublic(s, g, query, now).1 == Paid(d.amountUsd)
            && ConfirmReturn(s, d.userId, g, query, now).1 == Paid(d.amountUsd)
  {
    PublicAmountRuleRefusesExactAmount();
  }

  datatype IpnReply = IpnSuccess | IpnFailChecksum | IpnOrderNotFound | IpnInvalidAmount | IpnAlreadyConfirmed | IpnUnknownError

  /** The failure marking of `handleIpn`: a pending deposit of an unsuccessful payment becomes failed. */
  function MarkFailed(s: Payments, g: GatewayCheck, query: map<string, string>): Payments {
    if HasOrderRef(g) && g.txnRef.value in s.deposits && s.deposits[g.txnRef.value].status == Pending && !g.success then
      var d := s.deposits[g.txnRef.value];
      s.(deposits := s.deposits[g.txnRef.value := d.(status := Failed, vnpResponseCode := g.responseCode,
                                                      ipnPayload := Some(query))])
    else s
  }

  /** `handleIpn`: the gateway's server-to-server notification, with the whole query kept as the payload. */
  function HandleIpnCall(s: Payments, g: GatewayCheck, query: map<string, string>, now: int): (Payments, IpnReply) {
    if !g.verified then (s, IpnFailChecksum)
    else
      var s1 := MarkFailed(s, g, query);
      if !g.success then (s1, IpnUnknownError)
      else if !HasOrderRef(g) then (s1, IpnOrderNotFound)
      else
        var orderId := g.txnRef.value;
        if orderId !in s1.deposits then (s1, IpnOrderNotFound)
        else if s1.deposits[orderId].creditedAt.Some? then (s1, IpnAlreadyConfirmed)
        else if !AmountMatches(g.amount, s1.deposits[orderId].amount) then (s1, IpnInvalidAmount)
        else
          var (s2, reply) := CreditSuccess(s1, orderId, query, g.transactionNo, g.responseCode, now);
          if reply.Declined? then (s2, IpnUnknownError) else (s2, IpnSuccess)
  }

  /** A callback whose signature does not verify changes nothing, on every path. */
  lemma UnverifiedChangesNothing(s: Payments, userId: string, g: GatewayCheck, query: map<string, string>, now: int)
    requires !g.verified
    ensures ConfirmReturn(s, userId, g, query, now) == (s, Declined(InvalidSignature))
    ensures ConfirmReturnPublic(s, g, query, now) == (s, Declined(InvalidSignature))
    ensures HandleIpnCall(s, g, query, now) == (s, IpnFailChecksum)
  {
  }

  /**
   * An unsuccessful IPN never moves money, and it changes a deposit only
   * when that deposit was pending, into failed.
   */
  lemma UnsuccessfulIpnOnlyFailsPending(s: Payments, g: GatewayCheck, query: map<string, string>, now: int)
    requires g.verified && !g.success
    ensures var (s', reply) := HandleIpnCall(s, g, query, now);
            && reply == IpnUnknownError
            && s'.wallets == s.wallets
            && s'.deposits.Keys == s.deposits.Keys
            && (forall o | o in s.deposits && s'.deposits[o] != s.deposits[o] ::
                  s.deposits[o].status == Pending && s'.deposits[o].status == Failed
                  && s'.deposits[o].creditedAt == s.deposits[o].creditedAt)
  {
  }

  /** The authenticated confirm never touches another user's deposit. */
  lemma ConfirmOnlyOwnDeposit(s: Payments, userId: string, g: GatewayCheck, query: map<string, string>, now: int)
    requires HasOrderRef(g) && g.txnRef.value in s.deposits && s.deposits[g.txnRef.value].userId != userId
    ensures ConfirmReturn(s, userId, g, query, now).0 == s
  {
  }

  /** After a deposit has been credited, no path credits it again: every wallet stays as it is. */
  lemma CreditedDepositIsFinal(s: Payments, userId: string, g: GatewayCheck, query: map<string, string>, now: int)
    requires HasOrderRef(g) && g.txnRef.value in s.deposits && s.deposits[g.txnRef.value].creditedAt.Some?
    ensures ConfirmReturn(s, userId, g, query, now).0.wallets == s.wallets
    ensures ConfirmReturnPublic(s, g, query, now).0.wallets == s.wallets
    ensures HandleIpnCall(s, g, query, now).0.wallets == s.wallets
  {
  }

  /** A report whose amount does not match credits nothing on any path. */
  lemma MismatchCreditsNothing(s: Payments, userId: string, g: GatewayCheck, query: map<string, string>, now: int)
    requires HasOrderRef(g) && g.txnRef.value in s.deposits
    requires !AmountMatches(g.amount, s.deposits[g.txnRef.value].amount)
    ensures ConfirmReturn(s, userId, g, query, now).0 == s
    ensures ConfirmReturnPublic(s, g, query, now).0 == s
    ensures HandleIpnCall(s, g, query, now).0.wallets == s.wallets
  {
  }

  /**
   * The deposit table's invariant: each deposit is stored under its order
   * id, its USD amount is its VND amount at the fixed rate, and a credited
   * deposit is marked successful.
   */
  predicate DepositsValid(deposits: map<string, Deposit>) {
    forall o | o in deposits ::
      && deposits[o].orderId == o
      && deposits[o].amountUsd * VndToUsdRate == deposits[o].amount
      && (deposits[o].creditedAt.Some? ==> deposits[o].status == Success)
  }

  /** Every operation on deposits keeps their invariant. */
  lemma DepositsStayValid(s: Payments, userId: string, g: GatewayCheck, query: map<string, string>, now: int,
                          configured: bool, confirmations: Registry, amountVnd: Num, orderId: string)
    requires DepositsValid(s.deposits)
    ensures DepositsValid(ConfirmReturn(s, userId, g, query, now).0.deposits)
    ensures DepositsValid(ConfirmReturnPublic(s, g, query, now).0.deposits)
    ensures DepositsValid(HandleIpnCall(s, g, query, now).0.deposits)
    ensures var r := PaymentCreation(configured, confirmations, userId, amountVnd, orderId, now);
            r.Ok? ==> DepositsValid(s.deposits[orderId := r.value])
  {
    ReturnKeepsDepositsValid(s, userId, g, query, now);
    PublicReturnKeepsDepositsValid(s, g, query, now);
    IpnKeepsDepositsValid(s, g, query, now);
  }

  lemma ReturnKeepsDepositsValid(s: Payments, userId: string, g: GatewayCheck, query: map<string, string>, now: int)
    requires DepositsValid(s.deposits)
    ensures DepositsValid(ConfirmReturn(s, userId, g, query, now).0.deposits)
  {
    var r := ConfirmReturn(s, userId, g, query, now);
    if g.verified && g.success && HasOrderRef(g) && g.txnRef.value in s.deposits
       && s.deposits[g.txnRef.value].userId == userId && s.deposits[g.txnRef.value].creditedAt.None?
       && AmountMatches(g.amount, s.deposits[g.txnRef.value].amount) {
      assert r == CreditSuccess(s, g.txnRef.value, VnpParams(query), g.transactionNo, g.responseCode, now);
      CreditKeepsDepositsValid(s, g.txnRef.value, VnpParams(query), g.transactionNo, g.responseCode, now);
    } else {
      assert r.0 == s;
    }
  }

  lemma PublicReturnKeepsDepositsValid(s: Payments, g: GatewayCheck, query: map<string, string>, now: int)
    requires DepositsValid(s.deposits)
    ensures DepositsValid(ConfirmReturnPublic(s, g, query, now).0.deposits)
  {
    var r := ConfirmReturnPublic(s, g, query, now);
    if g.verified && g.success && HasOrderRef(g) && g.txnRef.value in s.deposits
       && s.deposits[g.txnRef.value].creditedAt.None?
       && AmountMatches(g.amount, s.deposits[g.txnRef.value].amount) {
      assert r == CreditSuccess(s, g.txnRef.value, VnpParams(query), g.transactionNo, g.responseCode, now);
      CreditKeepsDepositsValid(s, g.txnRef.value, VnpParams(query), g.transactionNo, g.responseCode, now);
    } else {
      assert r.0 == s;
    }
  }

  lemma IpnKeepsDepositsValid(s: Payments, g: GatewayCheck, query: map<string, string>, now: int)
    requires DepositsValid(s.deposits)
    ensures DepositsValid(HandleIpnCall(s, g, query, now).0.deposits)
  {
    var r := HandleIpnCall(s, g, query, now);
    if g.verified {
      var s1 := MarkFailed(s, g, query);
      assert DepositsValid(s1.deposits);
      if g.success && HasOrderRef(g) && g.txnRef.value in s1.deposits
         && s1.deposits[g.txnRef.value].creditedAt.None?
         && AmountMatches(g.amount, s1.deposits[g.txnRef.value].amount) {
        var c := CreditSuccess(s1, g.txnRef.value, query, g.transactionNo, g.responseCode, now);
        assert r.0 == c.0;
        CreditKeepsDepositsValid(s1, g.txnRef.value, query, g.transactionNo, g.responseCode, now);
      } else {
        assert r.0 == s1;
      }
    }
  }

  /** A credit keeps the deposits' invariant. */
  lemma CreditKeepsDepositsValid(s: Payments, orderId: string, payload: map<string, string>,
                                 transactionNo: Option<string>, responseCode: Option<string>, now: int)
    requires DepositsValid(s.deposits)
    ensures DepositsValid(CreditSuccess(s, orderId, payload, transactionNo, responseCode, now).0.deposits)
  {
  }

  /** `createPayment` on the database: the new pending deposit (the payment URL is left to the gateway library). */
  method CreatePayment(db: Database, configured: bool, userId: string, amountVnd: Num, orderId: string, now: int)
    returns (r: Result<Deposit, PaymentError>)
    requires orderId !in db.deposits
    modifies db`deposits
    ensures r == PaymentCreation(configured, db.confirmations, userId, amountVnd, orderId, now)
    ensures r.Ok? ==> db.deposits == old(db.deposits)[orderId := r.value]
    ensures r.Err? ==> db.deposits == old(db.deposits)
  {
    if !configured {
      return Err(NotConfigured);
    }
    var confirmed := IsConfirmed(db.confirmations, userId);
    if !confirmed {
      return Err(NotConfirmed);
    }
    if !amountVnd.Finite? || amountVnd.value < MinDepositVnd {
      return Err(AmountInvalid);
    }
    var amountUsd := amountVnd.value / VndToUsdRate;
    var deposit := Deposit(orderId, userId, amountVnd.value, amountUsd, Pending, None, None, None, None, now);
    db.deposits := db.deposits[orderId := deposit];
    r := Ok(deposit);
  }

  /** `creditDepositSuccess` on the database. */
  method CreditDepositSuccess(db: Database, orderId: string, payload: map<string, string>,
                              transactionNo: Option<string>, responseCode: Option<string>, now: int)
    returns (reply: ConfirmReply)
    modifies db`deposits, db`wallets
    ensures (Payments(db.deposits, db.wallets), reply)
            == CreditSuccess(old(Payments(db.deposits, db.wallets)), orderId, payload, transactionNo, responseCode, now)
  {
    if orderId !in db.deposits {
      return Declined(OrderNotFound);
    }
    var deposit := db.deposits[orderId];
    if deposit.creditedAt.Some? {
      return Paid(deposit.amountUsd);
    }
    deposit := deposit.(status := Success, vnpTransactionNo := transactionNo, vnpResponseCode := responseCode,
                        ipnPayload := Some(payload), creditedAt := Some(now));
    db.deposits := db.deposits[orderId := deposit];
    AddUsd(db, deposit.userId, Finite(deposit.amountUsd), Real);
    reply := Paid(deposit.amountUsd);
  }

  /** `confirmFromReturnUrl` on the database. */
  method ConfirmFromReturnUrl(db: Database, userId: string, g: GatewayCheck, query: map<string, string>, now: int)
    returns (reply: ConfirmReply)
    modifies db`deposits, db`wallets
    ensures (Payments(db.deposits, db.wallets), reply)
            == ConfirmReturn(old(Payments(db.deposits, db.wallets)), userId, g, query, now)
  {
    var vnpQuery := PickVnpParams(query);
    if !g.verified {
      return Declined(InvalidSignature);
    }
    if !g.success {
      return Declined(PaymentUnsuccessful);
    }
    if g.txnRef.None? || g.txnRef.value == "" {
      return Declined(MissingOrder);
    }
    var orderId := g.txnRef.value;
    if orderId !in db.deposits || db.deposits[orderId].userId != userId {
      return Declined(OrderNotFound);
    }
    var deposit := db.deposits[orderId];
    if deposit.creditedAt.Some? {
      return Paid(deposit.amountUsd);
    }
    var amountMatch := g.amount.None? || g.amount.value == deposit.amount || g.amount.value == deposit.amount * 100.0;
    if !amountMatch {
      return Declined(AmountMismatch);
    }
    reply := CreditDepositSuccess(db, orderId, vnpQuery, g.transactionNo, g.responseCode, now);
  }

  /** `confirmFromReturnUrlPublic` on the database, with the corrected amount rule. */
  method ConfirmFromReturnUrlPublic(db: Database, g: GatewayCheck, query: map<string, string>, now: int)
    returns (reply: ConfirmReply)
    modifies db`deposits, db`wallets
    ensures (Payments(db.deposits, db.wallets), reply)
            == ConfirmReturnPublic(old(Payments(db.deposits, db.wallets)), g, query, now)
  {
    var vnpQuery := PickVnpParams(query);
    if !g.verified {
      return Declined(InvalidSignature);
    }
    if !g.success {
      return Declined(PaymentUnsuccessful);
    }
    if g.txnRef.None? || g.txnRef.value == "" {
      return Declined(MissingOrder);
    }
    var orderId := g.txnRef.value;
    if orderId !in db.deposits {
      return Declined(OrderNotFound);
    }
    var deposit := db.deposits[orderId];
    if deposit.creditedAt.Some? {
      return Paid(deposit.amountUsd);
    }
    var amountMatch := g.amount.None? || g.amount.value == deposit.amount || g.amount.value == deposit.amount * 100.0;
    if !amountMatch {
      return Declined(AmountMismatch);
    }
    reply := CreditDepositSuccess(db, orderId, vnpQuery, g.transactionNo, g.responseCode, now);
  }

  /** `handleIpn` on the database. */
  method HandleIpn(db: Database, g: GatewayCheck, query: map<string, string>, now: int) returns (reply: IpnReply)
    modifies db`deposits, db`wallets
    ensures (Payments(db.deposits, db.wallets), reply) == HandleIpnCall(old(Payments(db.deposits, db.wallets)), g, query, now)
  {
    if !g.verified {
      return IpnFailChecksum;
    }
    var hasRef := g.txnRef.Some? && g.txnRef.value != "";
    if hasRef {
      var orderId := g.txnRef.value;
      if orderId in db.deposits && db.deposits[orderId].status == Pending && !g.success {
        var d := db.deposits[orderId];
        db.deposits := db.deposits[orderId := d.(status := Failed, vnpResponseCode := g.responseCode,
                                                   ipnPayload := Some(query))];
      }
    }
    if !g.success {
      return IpnUnknownError;
    }
    if !hasRef {
      return IpnOrderNotFound;
    }
    var orderId := g.txnRef.value;
    if orderId !in db.deposits {
      return IpnOrderNotFound;
    }
    var deposit := db.deposits[orderId];
    if deposit.creditedAt.Some? {
      return IpnAlreadyConfirmed;
    }
    var amountMatch := g.amount.None? || g.amount.value == deposit.amount || g.amount.value == deposit.amount * 100.0;
    if !amountMatch {
      return IpnInvalidAmount;
    }
    var credited := CreditDepositSuccess(db, orderId, query, g.transactionNo, g.responseCode, now);
    if credited.Declined? {
      return IpnUnknownError;
    }
    reply := IpnSuccess;
  }
}
