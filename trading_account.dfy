/**
 * The browser's mirror of the two USD balances and of the margin each open
 * position locked, kept in two local-storage records. Amounts are JavaScript
 * numbers rounded to the cent, so the model keeps every stored balance in
 * whole cents; the raw records are what was last written under the two
 * storage keys, possibly by an older client.
 */
module TradingAccount {
  import opened Common

  /** A whole number of cents as a dollar amount. */
  function Money(c: int): real {
    c as real / 100.0
  }

  /** `Math.round`: the nearest integer, halves rounded up. */
  function Round(x: real): (r: int)
    ensures r as real - 0.5 <= x < r as real + 0.5
  {
    (x + 0.5).Floor
  }

  /** `clampMoney`, in cents: 0 for a value that is not a finite number, otherwise the nearest cent, at least 0. */
  function ClampMoney(n: Num): nat {
    if !n.Finite? then 0
    else
      var c := Round(n.value * 100.0);
      if c < 0 then 0 else c
  }

  /**
   * Not a finite number clamps to 0, nothing positive below half a cent
   * survives, and a non-negative amount is rounded to its nearest cent.
   */
  lemma ClampMoneySpec(n: Num)
    ensures !n.Finite? ==> ClampMoney(n) == 0
    ensures n.Finite? && n.value < 0.005 ==> ClampMoney(n) == 0
    ensures n.Finite? && n.value >= 0.0 ==> Money(ClampMoney(n)) - 0.005 <= n.value < Money(ClampMoney(n)) + 0.005
  {
    if n.Finite? && n.value >= 0.0 {
      var c := Round(n.value * 100.0);
      assert c as real - 0.5 <= n.value * 100.0 < c as real + 0.5;
      assert c >= 0;
    }
  }

  /** An amount already in whole cents clamps to itself, or to 0 when negative. */
  lemma ClampCents(c: int)
    ensures ClampMoney(Finite(Money(c))) == Max(0, c)
  {
    assert Money(c) * 100.0 == c as real;
    assert (c as real + 0.5).Floor == c;
  }

  /** Clamping twice is clamping once. */
  lemma ClampMoneyIdempotent(n: Num)
    ensures ClampMoney(Finite(Money(ClampMoney(n)))) == ClampMoney(n)
  {
    ClampCents(ClampMoney(n));
  }

  /** The normalised account record: the selected ledger and the two balances in cents. */
  datatype AccountState = AccountState(selected: AccountKind, demoCents: nat, realCents: nat)

  function Balance(s: AccountState, kind: AccountKind): nat {
    if kind == Demo then s.demoCents else s.realCents
  }

  function WithBalance(s: AccountState, kind: AccountKind, c: nat): (s': AccountState)
    ensures Balance(s', kind) == c && Balance(s', if kind == Demo then Real else Demo) == Balance(s, if kind == Demo then Real else Demo)
    ensures s'.selected == s.selected
  {
    if kind == Demo then s.(demoCents := c) else s.(realCents := c)
  }

  /**
   * The account record as parsed from storage. `selected` is whatever the
   * field held (any value that is not one of the two names stands for any
   * other JSON value); each balance may be missing, null or any value.
   */
  datatype RawAccount = RawAccount(selected: string, demoUsdBalance: Input, realUsdBalance: Input)

  /** `x ?? d`: the field if present and not null, otherwise the default. */
  function OrDefault(x: Input, d: real): Num {
    if x.Given? then x.n else Finite(d)
  }

  /**
   * `loadTradingAccountState`: nothing when no record is stored (or it does
   * not parse) or its `selected` is not one of the two names, otherwise the
   * record with both balances clamped.
   */
  function LoadAccount(raw: Option<RawAccount>): (r: Option<AccountState>)
    ensures r.Some? <==> raw.Some? && (raw.value.selected == "demo" || raw.value.selected == "real")
  {
    if raw.None? || (raw.value.selected != "demo" && raw.value.selected != "real") then None
    else Some(AccountState(AccountKindOf(raw.value.selected), ClampMoney(OrDefault(raw.value.demoUsdBalance, 0.0)),
                           ClampMoney(OrDefault(raw.value.realUsdBalance, 0.0))))
  }

  /** The argument of `saveTradingAccountState`. */
  datatype Draft = Draft(selected: AccountKind, demoUsdBalance: Num, realUsdBalance: Num)

  /** What `saveTradingAccountState` writes, before serialising: both balances clamped. */
  function Normalized(d: Draft): AccountState {
    AccountState(d.selected, ClampMoney(d.demoUsdBalance), ClampMoney(d.realUsdBalance))
  }

  /** The record as it is serialised. */
  function Encoded(s: AccountState): RawAccount {
    RawAccount(KindName(s.selected), Given(Finite(Money(s.demoCents))), Given(Finite(Money(s.realCents))))
  }

  /** `{ ...curr }`: a state handed back to the save function. */
  function DraftOf(s: AccountState): Draft {
    Draft(s.selected, Finite(Money(s.demoCents)), Finite(Money(s.realCents)))
  }

  /** A saved record is read back as exactly the normalised state it was saved as. */
  lemma SaveLoadRoundTrip(d: Draft)
    ensures LoadAccount(Some(Encoded(Normalized(d)))) == Some(Normalized(d))
  {
    var s := Normalized(d);
    ClampCents(s.demoCents);
    ClampCents(s.realCents);
  }

  /** Saving a state that came from storage stores that same state. */
  lemma NormalizedOfState(s: AccountState)
    ensures Normalized(DraftOf(s)) == s
  {
    ClampCents(s.demoCents);
    ClampCents(s.realCents);
  }

  /** The optional seed of `ensureTradingAccountState`. A `selected` that is not "real" means demo. */
  datatype Seed = Seed(selected: string, demoUsdBalance: Input, realUsdBalance: Input)

  /** The 10 000 USD a new demo ledger starts with, in cents. */
  const DefaultDemoCents: nat := 1000000

  /** The state a fresh client starts from. */
  function Fresh(seed: Option<Seed>): AccountState {
    if seed.None? then AccountState(Demo, ClampMoney(Finite(10000.0)), ClampMoney(Finite(0.0)))
    else AccountState(if seed.value.selected == "real" then Real else Demo,
                      ClampMoney(OrDefault(seed.value.demoUsdBalance, 10000.0)),
                      ClampMoney(OrDefault(seed.value.realUsdBalance, 0.0)))
  }

  /** Without a seed the demo ledger is selected, holding 10 000 USD, and the real one is empty. */
  lemma FreshDefaults()
    ensures Fresh(None) == AccountState(Demo, DefaultDemoCents, 0)
  {
    ClampCents(1000000);
    assert Money(1000000) == 10000.0;
    ClampCents(0);
  }

  /** The state `ensureTradingAccountState` answers with: the stored one if it loads, else the fresh one. */
  function Ensured(raw: Option<RawAccount>, seed: Option<Seed>): AccountState {
    LoadAccount(raw).GetOr(Fresh(seed))
  }

  /** The record after `ensureTradingAccountState`: untouched if it loads, else the fresh state saved. */
  function EnsuredRecord(raw: Option<RawAccount>, seed: Option<Seed>): Option<RawAccount> {
    if LoadAccount(raw).Some? then raw else Some(Encoded(Fresh(seed)))
  }

  /**
   * An existing state is returned unchanged and its record is not
   * rewritten; otherwise the fresh state is saved and loads back as itself.
   */
  lemma EnsuredSpec(raw: Option<RawAccount>, seed: Option<Seed>)
    ensures LoadAccount(raw).Some? ==> Ensured(raw, seed) == LoadAccount(raw).value && EnsuredRecord(raw, seed) == raw
    ensures LoadAccount(raw).None? ==> Ensured(raw, seed) == Fresh(seed)
    ensures LoadAccount(EnsuredRecord(raw, seed)) == Some(Ensured(raw, seed))
  {
    if LoadAccount(raw).None? {
      NormalizedOfState(Fresh(seed));
      SaveLoadRoundTrip(DraftOf(Fresh(seed)));
    }
  }

  /** `deductSelectedAccountUsd` on a state: the clamped amount taken from the selected ledger, floored at 0. */
  function Deducted(s: AccountState, amount: Num): AccountState {
    var amt := ClampMoney(amount);
    if amt <= 0 then s
    else WithBalance(s, s.selected, ClampMoney(Finite(Money(Balance(s, s.selected)) - Money(amt))))
  }

  /** `creditSelectedAccountUsd` on a state: the clamped amount added to the selected ledger. */
  function CreditedSelected(s: AccountState, amount: Num): AccountState {
    var amt := ClampMoney(amount);
    if amt <= 0 then s
    else WithBalance(s, s.selected, ClampMoney(Finite(Money(Balance(s, s.selected)) + Money(amt))))
  }

  /** `creditAccountUsd` on a state: the raw amount, which may be negative, added to the named ledger. */
  function CreditedTo(s: AccountState, kind: AccountKind, amount: Num): AccountState {
    if !amount.Finite? || amount.value == 0.0 then s
    else WithBalance(s, kind, ClampMoney(Finite(Money(Balance(s, kind)) + amount.value)))
  }

  /**
   * A deduction of less than half a cent (or of no number) changes
   * nothing; otherwise only the selected balance drops, by the clamped
   * amount, and never below 0.
   */
  lemma DeductedSpec(s: AccountState, amount: Num)
    ensures var amt := ClampMoney(amount);
            var s' := Deducted(s, amount);
            var other := if s.selected == Demo then Real else Demo;
            && (amt == 0 ==> s' == s)
            && s'.selected == s.selected
            && Balance(s', other) == Balance(s, other)
            && Balance(s', s.selected) == Max(0, Balance(s, s.selected) - amt)
  {
    var amt := ClampMoney(amount);
    var b: int := Balance(s, s.selected);
    assert Money(b) - Money(amt) == Money(b - amt);
    ClampCents(b - amt);
  }

  /** A credit to the selected ledger adds the clamped amount to it and to nothing else. */
  lemma CreditedSelectedSpec(s: AccountState, amount: Num)
    ensures var s' := CreditedSelected(s, amount);
            var other := if s.selected == Demo then Real else Demo;
            && s'.selected == s.selected
            && Balance(s', other) == Balance(s, other)
            && Balance(s', s.selected) == Balance(s, s.selected) + ClampMoney(amount)
  {
    var amt := ClampMoney(amount);
    var b := Balance(s, s.selected);
    assert Money(b) + Money(amt) == Money(b + amt);
    ClampCents(b + amt);
  }

  /** Taking back what was just credited to the selected ledger restores the state. */
  lemma CreditThenDeductRestores(s: AccountState, amount: Num)
    ensures Deducted(CreditedSelected(s, amount), amount) == s
  {
    CreditedSelectedSpec(s, amount);
    DeductedSpec(CreditedSelected(s, amount), amount);
  }

  /**
   * A credit of 0 or of no number changes nothing; otherwise only the named
   * balance changes: to the old balance plus the amount, to the cent,
   * floored at 0.
   */
  lemma CreditedToSpec(s: AccountState, kind: AccountKind, amount: Num)
    ensures var s' := CreditedTo(s, kind, amount);
            var other := if kind == Demo then Real else Demo;
            && (!amount.Finite? || amount.value == 0.0 ==> s' == s)
            && s'.selected == s.selected
            && Balance(s', other) == Balance(s, other)
            && (amount.Finite? && amount.value != 0.0 ==>
                  Balance(s', kind) == ClampMoney(Finite(Money(Balance(s, kind)) + amount.value)))
            && (amount.Finite? && amount.value >= 0.0 ==> Balance(s', kind) >= Balance(s, kind))
            && (amount.Finite? && Money(Balance(s, kind)) + amount.value < 0.005 ==> Balance(s', kind) == 0)
  {
    if amount.Finite? && amount.value != 0.0 {
      var b := Balance(s, kind);
      var x := Money(b) + amount.value;
      ClampMoneySpec(Finite(x));
      if amount.value >= 0.0 {
        assert Round(x * 100.0) as real + 0.5 > x * 100.0 >= b as real;
      }
    }
  }

  /** One position's entry in storage: the fields as parsed, a null entry having none of them. */
  datatype RawEntry = RawEntry(account: string, lockedUsd: Input, notionalUsd: Input, openedAt: Option<string>)

  /** The margin a position locked, its ledger and when it opened. */
  datatype Meta = Meta(account: AccountKind, lockedCents: nat, openedAt: string)

  /**
   * One entry normalised: the ledger is real only when so named, the
   * locked margin falls back to the older `notionalUsd` field and then to 0,
   * and a missing opening time becomes the time of reading.
   */
  function MetaOf(v: RawEntry, now: string): (m: Meta)
    ensures m.account == AccountKindOf(v.account)
    ensures v.lockedUsd.Given? ==> m.lockedCents == ClampMoney(v.lockedUsd.n)
    ensures !v.lockedUsd.Given? ==> m.lockedCents == ClampMoney(OrDefault(v.notionalUsd, 0.0))
  {
    Meta(if v.account == "real" then Real else Demo,
         ClampMoney(if v.lockedUsd.Given? then v.lockedUsd.n else OrDefault(v.notionalUsd, 0.0)),
         v.openedAt.GetOr(now))
  }

  /** `loadTradingPositionsState` as a function: every entry with a non-empty key, normalised. */
  function LoadedPositions(raw: Option<map<string, RawEntry>>, now: string): (r: map<string, Meta>)
    ensures "" !in r
    ensures raw.Some? ==> r.Keys == raw.value.Keys - {""}
  {
    if raw.None? then map[] else map k | k in raw.value && k != "" :: MetaOf(raw.value[k], now)
  }

  function EncodedMeta(m: Meta): RawEntry {
    RawEntry(KindName(m.account), Given(Finite(Money(m.lockedCents))), Absent, Some(m.openedAt))
  }

  function EncodedPositions(m: map<string, Meta>): map<string, RawEntry> {
    map k | k in m :: EncodedMeta(m[k])
  }

  /** Saved position entries are read back exactly, whatever the time of reading. */
  lemma PositionsRoundTrip(m: map<string, Meta>, now: string)
    requires "" !in m
    ensures LoadedPositions(Some(EncodedPositions(m)), now) == m
  {
    forall k | k in m
      ensures MetaOf(EncodedMeta(m[k]), now) == m[k]
    {
      ClampCents(m[k].lockedCents);
    }
  }

  /** The two local-storage records. */
  class TradingStorage {
    /** The account record, `trade:account:v1`; none when missing or unparsable. */
    var accountRecord: Option<RawAccount>
    /** The position entries, `trade:positions:v1`; none when missing, unparsable or not an object. */
    var positionsRecord: Option<map<string, RawEntry>>

    constructor ()
      ensures accountRecord == None && positionsRecord == None
    {
      accountRecord := None;
      positionsRecord := None;
    }

    /** `loadTradingAccountState` on the stored record. */
    function Account(): Option<AccountState>
      reads this
    {
      LoadAccount(accountRecord)
    }

    function Positions(now: string): map<string, Meta>
      reads this
    {
      LoadedPositions(positionsRecord, now)
    }

    /** `saveTradingAccountState`: the normalised state is written, and loads back as itself. */
    method SaveTradingAccountState(next: Draft)
      modifies this
      ensures accountRecord == Some(Encoded(Normalized(next)))
      ensures positionsRecord == old(positionsRecord)
      ensures Account() == Some(Normalized(next))
    {
      var normalized := AccountState(next.selected, ClampMoney(next.demoUsdBalance), ClampMoney(next.realUsdBalance));
      accountRecord := Some(RawAccount(KindName(normalized.selected), Given(Finite(Money(normalized.demoCents))),
                                       Given(Finite(Money(normalized.realCents)))));
      SaveLoadRoundTrip(next);
    }

    /** `loadTradingPositionsState`: the entries normalised one at a time. */
    method LoadTradingPositionsState(now: string) returns (out: map<string, Meta>)
      ensures out == Positions(now)
    {
      out := map[];
      if positionsRecord.None? {
        return;
      }
      var parsed := positionsRecord.value;
      var todo := parsed.Keys;
      while todo != {}
        invariant todo <= parsed.Keys
        invariant out == map k | k in parsed.Keys - todo && k != "" :: MetaOf(parsed[k], now)
        decreases todo
      {
        var k :| k in todo;
        todo := todo - {k};
        if k == "" {
          continue;
        }
        var v := parsed[k];
        var acct := if v.account == "real" then Real else Demo;
        var lockedUsd := ClampMoney(if v.lockedUsd.Given? then v.lockedUsd.n
                                    else if v.notionalUsd.Given? then v.notionalUsd.n else Finite(0.0));
        var openedAt := if v.openedAt.Some? then v.openedAt.value else now;
        out := out[k := Meta(acct, lockedUsd, openedAt)];
      }
      assert parsed.Keys - todo == parsed.Keys;
    }

    /** `saveTradingPositionsState`: the entries written as they are. */
    method SaveTradingPositionsState(next: map<string, Meta>)
      modifies this
      ensures positionsRecord == Some(EncodedPositions(next))
      ensures accountRecord == old(accountRecord)
    {
      positionsRecord := Some(EncodedPositions(next));
    }

    /**
     * `recordOpenPosition`: an empty id changes nothing; otherwise the
     * normalised entries are saved with this one entry set.
     */
    method RecordOpenPosition(positionId: string, account: AccountKind, lockedUsd: Num, openedAt: Option<string>, now: string)
      modifies this
      ensures accountRecord == old(accountRecord)
      ensures positionId == "" ==> positionsRecord == old(positionsRecord)
      ensures positionId != "" ==>
                var m := old(Positions(now))[positionId := Meta(account, ClampMoney(lockedUsd), openedAt.GetOr(now))];
                positionsRecord == Some(EncodedPositions(m)) && Positions(now) == m
    {
      if positionId == "" {
        return;
      }
      var curr := LoadTradingPositionsState(now);
      var at := if openedAt.Some? then openedAt.value else now;
      curr := curr[positionId := Meta(account, ClampMoney(lockedUsd), at)];
      SaveTradingPositionsState(curr);
      PositionsRoundTrip(curr, now);
    }

    /**
     * `removePositionMeta`: the entry is deleted and nothing else changes;
     * an empty or unknown id leaves storage as it was.
     */
    method RemovePositionMeta(positionId: string, now: string)
      modifies this
      ensures accountRecord == old(accountRecord)
      ensures positionId !in old(Positions(now)) ==> positionsRecord == old(positionsRecord)
      ensures positionId in old(Positions(now)) ==> positionsRecord == Some(EncodedPositions(old(Positions(now)) - {positionId}))
      ensures Positions(now) == old(Positions(now)) - {positionId}
    {
      if positionId == "" {
        return;
      }
      var curr := LoadTradingPositionsState(now);
      if positionId !in curr {
        return;
      }
      curr := curr - {positionId};
      SaveTradingPositionsState(curr);
      PositionsRoundTrip(curr, now);
    }

    /** `ensureTradingAccountState`: the stored state, or the fresh one, which is then saved. */
    method EnsureTradingAccountState(seed: Option<Seed>) returns (s: AccountState)
      modifies this
      ensures s == Ensured(old(accountRecord), seed)
      ensures accountRecord == EnsuredRecord(old(accountRecord), seed)
      ensures positionsRecord == old(positionsRecord)
      ensures Account() == Some(s)
    {
      var existing := LoadAccount(accountRecord);
      if existing.Some? {
        return existing.value;
      }
      var selected := if seed.Some? && seed.value.selected == "real" then Real else Demo;
      var demo := if seed.Some? then OrDefault(seed.value.demoUsdBalance, 10000.0) else Finite(10000.0);
      var realBalance := if seed.Some? then OrDefault(seed.value.realUsdBalance, 0.0) else Finite(0.0);
      s := AccountState(selected, ClampMoney(demo), ClampMoney(realBalance));
      SaveTradingAccountState(DraftOf(s));
      NormalizedOfState(s);
    }

    /** `recordOpenPositionForSelectedAccount`: the entry is recorded under the selected ledger. */
    method RecordOpenPositionForSelectedAccount(positionId: string, lockedUsd: Num, now: string)
      modifies this
      ensures accountRecord == EnsuredRecord(old(accountRecord), None)
      ensures positionId == "" ==> positionsRecord == old(positionsRecord)
      ensures positionId != "" ==>
                var acct := Ensured(old(accountRecord), None).selected;
                Positions(now) == old(Positions(now))[positionId := Meta(acct, ClampMoney(lockedUsd), now)]
    {
      var curr := EnsureTradingAccountState(None);
      RecordOpenPosition(positionId, curr.selected, lockedUsd, None, now);
    }

    /** `setSelectedTradingAccount`: only the selected ledger changes. */
    method SetSelectedTradingAccount(selected: AccountKind)
      modifies this
      ensures var s := Ensured(old(accountRecord), None).(selected := selected);
              accountRecord == Some(Encoded(s)) && Account() == Some(s)
      ensures positionsRecord == old(positionsRecord)
    {
      var curr := EnsureTradingAccountState(None);
      SaveTradingAccountState(DraftOf(curr).(selected := selected));
      NormalizedOfState(curr.(selected := selected));
    }

    /** `setDemoUsdBalance`: only the demo balance changes, to the clamped value. */
    method SetDemoUsdBalance(demoUsdBalance: Num)
      modifies this
      ensures var s := Ensured(old(accountRecord), None).(demoCents := ClampMoney(demoUsdBalance));
              accountRecord == Some(Encoded(s)) && Account() == Some(s)
      ensures positionsRecord == old(positionsRecord)
    {
      var curr := EnsureTradingAccountState(None);
      SaveTradingAccountState(DraftOf(curr).(demoUsdBalance := demoUsdBalance));
      NormalizedOfState(curr);
    }

    /** `setRealUsdBalance`: only the real balance changes, to the clamped value. */
    method SetRealUsdBalance(realUsdBalance: Num)
      modifies this
      ensures var s := Ensured(old(accountRecord), None).(realCents := ClampMoney(realUsdBalance));
              accountRecord == Some(Encoded(s)) && Account() == Some(s)
      ensures positionsRecord == old(positionsRecord)
    {
      var curr := EnsureTradingAccountState(None);
      SaveTradingAccountState(DraftOf(curr).(realUsdBalance := realUsdBalance));
      NormalizedOfState(curr);
    }

    /** `deductSelectedAccountUsd`: the answer is the new state, saved unless nothing was deducted. */
    method DeductSelectedAccountUsd(amountUsd: Num) returns (s: AccountState)
      modifies this
      ensures s == Deducted(Ensured(old(accountRecord), None), amountUsd)
      ensures accountRecord == if ClampMoney(amountUsd) == 0 then EnsuredRecord(old(accountRecord), None) else Some(Encoded(s))
      ensures Account() == Some(s)
      ensures positionsRecord == old(positionsRecord)
    {
      var curr := EnsureTradingAccountState(None);
      var amt := ClampMoney(amountUsd);
      if amt <= 0 {
        return curr;
      }
      if curr.selected == Demo {
        s := curr.(demoCents := ClampMoney(Finite(Money(curr.demoCents) - Money(amt))));
      } else {
        s := curr.(realCents := ClampMoney(Finite(Money(curr.realCents) - Money(amt))));
      }
      SaveTradingAccountState(DraftOf(s));
      NormalizedOfState(s);
    }

    /** `creditSelectedAccountUsd`: the answer is the new state, saved unless nothing was credited. */
    method CreditSelectedAccountUsd(amountUsd: Num) returns (s: AccountState)
      modifies this
      ensures s == CreditedSelected(Ensured(old(accountRecord), None), amountUsd)
      ensures accountRecord == if ClampMoney(amountUsd) == 0 then EnsuredRecord(old(accountRecord), None) else Some(Encoded(s))
      ensures Account() == Some(s)
      ensures positionsRecord == old(positionsRecord)
    {
      var curr := EnsureTradingAccountState(None);
      var amt := ClampMoney(amountUsd);
      if amt <= 0 {
        return curr;
      }
      if curr.selected == Demo {
        s := curr.(demoCents := ClampMoney(Finite(Money(curr.demoCents) + Money(amt))));
      } else {
        s := curr.(realCents := ClampMoney(Finite(Money(curr.realCents) + Money(amt))));
      }
      SaveTradingAccountState(DraftOf(s));
      NormalizedOfState(s);
    }

    /** `creditAccountUsd`: the answer is the new state, saved unless the amount is 0 or not a number. */
    method CreditAccountUsd(accountType: AccountKind, amountUsd: Num) returns (s: AccountState)
      modifies this
      ensures s == CreditedTo(Ensured(old(accountRecord), None), accountType, amountUsd)
      ensures accountRecord == if !amountUsd.Finite? || amountUsd.value == 0.0 then EnsuredRecord(old(accountRecord), None)
                               else Some(Encoded(s))
      ensures Account() == Some(s)
      ensures positionsRecord == old(positionsRecord)
    {
      var curr := EnsureTradingAccountState(None);
      if !amountUsd.Finite? || amountUsd.value == 0.0 {
        return curr;
      }
      var amt := amountUsd.value;
      if accountType == Demo {
        s := curr.(demoCents := ClampMoney(Finite(Money(curr.demoCents) + amt)));
      } else {
        s := curr.(realCents := ClampMoney(Finite(Money(curr.realCents) + amt)));
      }
      SaveTradingAccountState(DraftOf(s));
      NormalizedOfState(s);
    }
  }
}
