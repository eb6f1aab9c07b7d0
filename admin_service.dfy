/**
 * Account administration: creating, editing, locking and unlocking users,
 * the trade-history listing and its CSV export.
 */
module AdminService {
  import opened Common
  import opened Text
  import opened Store
  import opened WalletService

  datatype AdminError = EmailRequired | NameRequired | PasswordTooShort | EmailTaken | UnknownUser

  const MinPasswordLength: nat := 6

  /** `trim().toLowerCase()`. */
  function NormalizeEmail(s: string): (r: string)
    ensures |r| == |Trim(s)|
    ensures forall i :: 0 <= i < |r| ==> r[i] == LowerChar(Trim(s)[i]) && !IsAsciiUpper(r[i])
  {
    Lower(Trim(s))
  }

  /** An address normalises to the empty string exactly when it is all white space. */
  lemma NormalizeEmailEmptyIff(s: string)
    ensures NormalizeEmail(s) == [] <==> forall k :: 0 <= k < |s| ==> IsSpace(s[k])
  {
    TrimEmptyIff(s);
  }

  /** Normalising an address twice is normalising it once. */
  lemma NormalizeEmailIdempotent(s: string)
    ensures NormalizeEmail(NormalizeEmail(s)) == NormalizeEmail(s)
  {
    var t := Trim(s);
    var l := Lower(t);
    if l != [] {
      assert l[0] == LowerChar(t[0]) && l[|l| - 1] == LowerChar(t[|t| - 1]);
      assert !IsSpace(t[0]) && !IsSpace(t[|t| - 1]);
      assert !IsSpace(l[0]) && !IsSpace(l[|l| - 1]);
    }
    TrimOfTrimmed(l);
    LowerIdempotent(t);
  }

  predicate EmailHeld(users: map<string, User>, email: string) {
    exists id | id in users :: users[id].email == email
  }

  /** The user table's invariant: stored under their ids, no two users with one email. */
  predicate UsersValid(users: map<string, User>) {
    && (forall id | id in users :: users[id].id == id)
    && (forall a, b | a in users && b in users && users[a].email == users[b].email :: a == b)
  }

  /** `body.role === 'admin' ? 'admin' : 'user'`. */
  function RoleOf(role: Option<string>): (r: Role)
    ensures r == AdminRole <==> role == Some("admin")
  {
    if role == Some("admin") then AdminRole else UserRole
  }

  /** The create form. A password that is not a string is absent. */
  datatype NewUserForm = NewUserForm(email: string, name: string, password: Option<string>, role: Option<string>)

  /** `createUser`: the new live, unlocked user, or the first failing check. */
  function UserCreation(users: map<string, User>, f: NewUserForm, id: string, passwordHash: string, now: int)
    : Result<User, AdminError>
  {
    var email := NormalizeEmail(f.email);
    var name := Trim(f.name);
    if email == "" then Err(EmailRequired)
    else if name == "" then Err(NameRequired)
    else if f.password.None? || |f.password.value| < MinPasswordLength then Err(PasswordTooShort)
    else if EmailHeld(users, email) then Err(EmailTaken)
    else Ok(User(id, email, name, Some(passwordHash), Live, RoleOf(f.role), false, now))
  }

  /**
   * A user is created exactly when the normalised email and the trimmed
   * name are non-empty, the password has at least six characters and no
   * user holds the email; the new user is live, unlocked, an admin only when
   * asked for exactly "admin".
   */
  lemma UserCreationSpec(users: map<string, User>, f: NewUserForm, id: string, passwordHash: string, now: int)
    ensures var r := UserCreation(users, f, id, passwordHash, now);
            && (r.Ok? <==> NormalizeEmail(f.email) != "" && Trim(f.name) != ""
                           && f.password.Some? && |f.password.value| >= 6
                           && (forall u | u in users :: users[u].email != NormalizeEmail(f.email)))
            && (r == Err(EmailTaken) ==> exists u | u in users :: users[u].email == NormalizeEmail(f.email))
            && (r.Ok? ==> && r.value.id == id && r.value.email == NormalizeEmail(f.email)
                          && r.value.name == Trim(f.name) && r.value.accountType == Live
                          && !r.value.isLocked && (r.value.role == AdminRole <==> f.role == Some("admin")))
  {
    var email := NormalizeEmail(f.email);
    var name := Trim(f.name);
    var r := UserCreation(users, f, id, passwordHash, now);
    if email == "" {
      assert r == Err(EmailRequired);
    } else if name == "" {
      assert r == Err(NameRequired);
    } else if f.password.None? || |f.password.value| < MinPasswordLength {
      assert r == Err(PasswordTooShort);
    } else if EmailHeld(users, email) {
      assert r == Err(EmailTaken);
    } else {
      assert r == Ok(User(id, email, name, Some(passwordHash), Live, RoleOf(f.role), false, now));
    }
  }

  /** Creating a user under a fresh id keeps the user table valid. */
  lemma UserCreationKeepsValid(users: map<string, User>, f: NewUserForm, id: string, passwordHash: string, now: int)
    requires UsersValid(users) && id !in users
    requires UserCreation(users, f, id, passwordHash, now).Ok?
    ensures UsersValid(users[id := UserCreation(users, f, id, passwordHash, now).value])
  {
    UserCreationSpec(users, f, id, passwordHash, now);
    var u := UserCreation(users, f, id, passwordHash, now).value;
    assert !EmailHeld(users, u.email);
    FreshEmailKeepsValid(users, id, u);
  }

  /** Adding a user under a fresh id with an email nobody holds keeps the user table valid. */
  lemma FreshEmailKeepsValid(users: map<string, User>, id: string, u: User)
    requires UsersValid(users) && id !in users && u.id == id
    requires !EmailHeld(users, u.email)
    ensures UsersValid(users[id := u])
  {
    assert forall k | k in users :: users[k].email != u.email;
  }

  /** The wallet rows a new user is given: USD_DEMO and USD_REAL, both at zero. */
  function StarterWallets(w: Wallets, id: string): (w': Wallets)
    ensures DemoBalance(w', id) == 0.0 && RealBalance(w', id) == 0.0
    ensures HasRow(w', id, Demo) && HasRow(w', id, Real)
    ensures OthersUnchanged(w, w', id)
  {
    assert UsdDemo[4] != UsdReal[4];
    w[WalletKey(id, UsdDemo) := 0.0][WalletKey(id, UsdReal) := 0.0]
  }

  /** `createUser` on the database; the password hash is computed by the caller. */
  method CreateUser(db: Database, f: NewUserForm, id: string, passwordHash: string, now: int)
    returns (r: Result<User, AdminError>)
    modifies db`users, db`wallets
    ensures r == UserCreation(old(db.users), f, id, passwordHash, now)
    ensures r.Ok? ==> db.users == old(db.users)[id := r.value] && db.wallets == StarterWallets(old(db.wallets), id)
    ensures r.Err? ==> db.users == old(db.users) && db.wallets == old(db.wallets)
  {
    ghost var s := UserCreation(db.users, f, id, passwordHash, now);
    var email := NormalizeEmail(f.email);
    var name := Trim(f.name);
    if email == "" {
      assert s == Err(EmailRequired);
      return Err(EmailRequired);
    }
    if name == "" {
      assert s == Err(NameRequired);
      return Err(NameRequired);
    }
    if f.password.None? || |f.password.value| < MinPasswordLength {
      assert s == Err(PasswordTooShort);
      return Err(PasswordTooShort);
    }
    var existing := exists k | k in db.users :: db.users[k].email == email;
    if existing {
      assert s == Err(EmailTaken);
      return Err(EmailTaken);
    }
    var role := if f.role == Some("admin") then AdminRole else UserRole;
    var user := User(id, email, name, Some(passwordHash), Live, role, false, now);
    assert s == Ok(user);
    db.users := db.users[id := user];
    db.wallets := db.wallets[WalletKey(id, UsdDemo) := 0.0][WalletKey(id, UsdReal) := 0.0];
    r := Ok(user);
  }

  /** The edit form: each field may be left out. */
  datatype UserEdit = UserEdit(name: Option<string>, email: Option<string>, password: Option<string>, role: Option<string>)

  /**
   * `updateUser`: the edited user or the first failing check, in the
   * source's order: unknown user, empty name, empty email, email of
   * another user, password of one to five characters.
   */
  function UserUpdate(users: map<string, User>, userId: string, e: UserEdit, newHash: string): Result<User, AdminError> {
    if userId !in users then Err(UnknownUser)
    else
      var u := users[userId];
      if e.name.Some? && Trim(e.name.value) == "" then Err(NameRequired)
      else
        var u1 := if e.name.Some? then u.(name := Trim(e.name.value)) else u;
        if e.email.Some? && NormalizeEmail(e.email.value) == "" then Err(EmailRequired)
        else if e.email.Some? && NormalizeEmail(e.email.value) != u.email && EmailHeld(users, NormalizeEmail(e.email.value))
        then Err(EmailTaken)
        else
          var u2 := if e.email.Some? then u1.(email := NormalizeEmail(e.email.value)) else u1;
          if e.password.Some? && 0 < |e.password.value| < MinPasswordLength then Err(PasswordTooShort)
          else
            var u3 := if e.password.Some? && |e.password.value| > 0 then u2.(passwordHash := Some(newHash)) else u2;
            Ok(if e.role.Some? then u3.(role := RoleOf(e.role)) else u3)
  }

  /**
   * Left-out fields keep their values, an empty password changes nothing,
   * the user's own email may be given again, and identity, tier, lock state
   * and creation time never change through an edit.
   */
  lemma UserUpdateSpec(users: map<string, User>, userId: string, e: UserEdit, newHash: string)
    requires userId in users
    ensures var u := users[userId];
            var r := UserUpdate(users, userId, e, newHash);
            && (r.Ok? ==> && r.value.id == u.id && r.value.accountType == u.accountType
                          && r.value.isLocked == u.isLocked && r.value.createdAt == u.createdAt
                          && (e.name.None? ==> r.value.name == u.name)
                          && (e.name.Some? ==> r.value.name == Trim(e.name.value))
                          && (e.email.None? ==> r.value.email == u.email)
                          && (e.email.Some? ==> r.value.email == NormalizeEmail(e.email.value))
                          && ((e.password.None? || e.password == Some("")) ==> r.value.passwordHash == u.passwordHash)
                          && (e.role.None? ==> r.value.role == u.role))
            && (e.password.Some? && 0 < |e.password.value| < 6 ==> r.Err?)
            && (e.name.None? && e.password.None? && e.email == Some(u.email)
                && u.email != "" && NormalizeEmail(u.email) == u.email
                ==> r.Ok?)
  {
    var u := users[userId];
    var r := UserUpdate(users, userId, e, newHash);
    if e.name.Some? && Trim(e.name.value) == "" {
      assert r == Err(NameRequired);
    } else {
      var u1 := if e.name.Some? then u.(name := Trim(e.name.value)) else u;
      var email := if e.email.Some? then NormalizeEmail(e.email.value) else "";
      if e.email.Some? && email == "" {
        assert r == Err(EmailRequired);
      } else if e.email.Some? && email != u.email && EmailHeld(users, email) {
        assert r == Err(EmailTaken);
      } else {
        var u2 := if e.email.Some? then u1.(email := email) else u1;
        if e.password.Some? && 0 < |e.password.value| < MinPasswordLength {
          assert r == Err(PasswordTooShort);
        } else {
          var u3 := if e.password.Some? && |e.password.value| > 0 then u2.(passwordHash := Some(newHash)) else u2;
          assert r == Ok(if e.role.Some? then u3.(role := RoleOf(e.role)) else u3);
        }
      }
    }
  }

  /** An email held by another user is refused. */
  lemma UpdateToTakenEmailRefused(users: map<string, User>, userId: string, other: string, e: UserEdit, newHash: string)
    requires UsersValid(users)
    requires userId in users && other in users && other != userId
    requires e.name.None? && e.email.Some? && NormalizeEmail(e.email.value) == users[other].email
    ensures UserUpdate(users, userId, e, newHash) == Err(EmailTaken)
            || UserUpdate(users, userId, e, newHash) == Err(EmailRequired)
  {
    assert users[userId].email != users[other].email;
  }

  /** A successful edit keeps the user table valid. */
  lemma UserUpdateKeepsValid(users: map<string, User>, userId: string, e: UserEdit, newHash: string)
    requires UsersValid(users)
    requires UserUpdate(users, userId, e, newHash).Ok?
    ensures UsersValid(users[userId := UserUpdate(users, userId, e, newHash).value])
  {
    var u' := UserUpdate(users, userId, e, newHash).value;
    UserUpdateSpec(users, userId, e, newHash);
    assert u'.email == users[userId].email || !EmailHeld(users, u'.email);
    ReplaceKeepsValid(users, userId, u');
  }

  /** Replacing a user by one with the same id and either its old email or one nobody holds keeps the table valid. */
  lemma ReplaceKeepsValid(users: map<string, User>, id: string, u: User)
    requires UsersValid(users) && id in users && u.id == id
    requires u.email == users[id].email || !EmailHeld(users, u.email)
    ensures UsersValid(users[id := u])
  {
    if u.email != users[id].email {
      assert forall k | k in users :: users[k].email != u.email;
    }
  }

  /** `updateUser` on the database: the edits are made on a copy, saved only when every check passes. */
  method UpdateUser(db: Database, userId: string, e: UserEdit, newHash: string) returns (r: Result<User, AdminError>)
    modifies db`users
    ensures r == UserUpdate(old(db.users), userId, e, newHash)
    ensures r.Ok? ==> db.users == old(db.users)[userId := r.value]
    ensures r.Err? ==> db.users == old(db.users)
  {
    ghost var s := UserUpdate(db.users, userId, e, newHash);
    if userId !in db.users {
      return Err(UnknownUser);
    }
    var u := db.users[userId];
    if e.name.Some? {
      var name := Trim(e.name.value);
      if name == "" {
        assert s == Err(NameRequired);
        return Err(NameRequired);
      }
      u := u.(name := name);
    }
    if e.email.Some? {
      var email := NormalizeEmail(e.email.value);
      if email == "" {
        assert s == Err(EmailRequired);
        return Err(EmailRequired);
      }
      if email != db.users[userId].email {
        var existing := exists k | k in db.users :: db.users[k].email == email;
        if existing {
          assert s == Err(EmailTaken);
          return Err(EmailTaken);
        }
        u := u.(email := email);
      }
    }
    if e.password.Some? && |e.password.value| > 0 {
      if |e.password.value| < MinPasswordLength {
        assert s == Err(PasswordTooShort);
        return Err(PasswordTooShort);
      }
      u := u.(passwordHash := Some(newHash));
    }
    if e.role.Some? {
      u := u.(role := if e.role == Some("admin") then AdminRole else UserRole);
    }
    db.users := db.users[userId := u];
    r := Ok(u);
  }

  /** `lockUser` / `unlockUser`: the user's lock flag set, or not found. */
  function LockUpdate(users: map<string, User>, userId: string, locked: bool): Result<map<string, User>, AdminError> {
    if userId !in users then Err(UnknownUser) else Ok(users[userId := users[userId].(isLocked := locked)])
  }

  /** Locking changes only the flag of that one user, and doing it twice is doing it once. */
  lemma LockUpdateSpec(users: map<string, User>, userId: string, locked: bool)
    ensures var r := LockUpdate(users, userId, locked);
            && (r.Ok? <==> userId in users)
            && (r.Ok? ==> && r.value.Keys == users.Keys
                          && r.value[userId].isLocked == locked
                          && r.value[userId] == users[userId].(isLocked := locked)
                          && (forall k | k in users && k != userId :: r.value[k] == users[k])
                          && LockUpdate(r.value, userId, locked) == r)
  {
    if userId in users {
      var m := users[userId := users[userId].(isLocked := locked)];
      assert m[userId := m[userId].(isLocked := locked)] == m;
    }
  }

  /** Locking keeps the user table valid. */
  lemma LockKeepsValid(users: map<string, User>, userId: string, locked: bool)
    requires UsersValid(users) && userId in users
    ensures UsersValid(LockUpdate(users, userId, locked).value)
  {
    var us := LockUpdate(users, userId, locked).value;
    assert forall k | k in us :: us[k].email == users[k].email;
  }

  method SetLocked(db: Database, userId: string, locked: bool) returns (r: Result<bool, AdminError>)
    modifies db`users
    ensures var s := LockUpdate(old(db.users), userId, locked);
            && (s.Ok? ==> r == Ok(locked) && db.users == s.value)
            && (s.Err? ==> r == Err(UnknownUser) && db.users == old(db.users))
  {
    if userId !in db.users {
      return Err(UnknownUser);
    }
    var u := db.users[userId];
    u := u.(isLocked := locked);
    db.users := db.users[userId := u];
    r := Ok(locked);
  }

  /** `lockUser`. */
  method LockUser(db: Database, userId: string) returns (r: Result<bool, AdminError>)
    modifies db`users
    ensures var s := LockUpdate(old(db.users), userId, true);
            && (s.Ok? ==> r == Ok(true) && db.users == s.value)
            && (s.Err? ==> r == Err(UnknownUser) && db.users == old(db.users))
  {
    r := SetLocked(db, userId, true);
  }

  /** `unlockUser`. */
  method UnlockUser(db: Database, userId: string) returns (r: Result<bool, AdminError>)
    modifies db`users
    ensures var s := LockUpdate(old(db.users), userId, false);
            && (s.Ok? ==> r == Ok(false) && db.users == s.value)
            && (s.Err? ==> r == Err(UnknownUser) && db.users == old(db.users))
  {
    r := SetLocked(db, userId, false);
  }

  const MaxHistoryRows: int := 2000
  const ExportLimit: int := 10000

  /** `if (userId)`: an empty user id means every user. */
  predicate RowOf(t: TradeRecord, userId: string) {
    userId == "" || t.userId == userId
  }

  /** The matching rows, newest first (the history is appended in closing order). */
  function Newest(h: seq<TradeRecord>, userId: string): (r: seq<TradeRecord>)
    ensures |r| <= |h|
    ensures forall i :: 0 <= i < |r| ==> r[i] in h && RowOf(r[i], userId)
    decreases |h|
  {
    if h == [] then []
    else
      var last := h[|h| - 1];
      var rest := Newest(h[..|h| - 1], userId);
      if RowOf(last, userId) then [last] + rest else rest
  }

  /** Nothing is dropped: every row of the history that matches the filter is listed. */
  lemma {:induction false} NewestComplete(h: seq<TradeRecord>, userId: string)
    ensures forall i | 0 <= i < |h| && RowOf(h[i], userId) :: h[i] in Newest(h, userId)
  {
    if h != [] {
      var init := h[..|h| - 1];
      NewestComplete(init, userId);
      var r := Newest(h, userId);
      forall i | 0 <= i < |h| - 1 && RowOf(h[i], userId)
        ensures h[i] in r
      {
        assert h[i] == init[i];
      }
    }
  }

  /** Ids that grow along the history, as the auto-increment ids do. */
  predicate IdsIncreasing(h: seq<TradeRecord>) {
    forall i, j :: 0 <= i < j < |h| ==> h[i].id < h[j].id
  }

  predicate IdsDecreasing(r: seq<TradeRecord>) {
    forall i, j :: 0 <= i < j < |r| ==> r[i].id > r[j].id
  }

  /** Newest first: the rows come out with strictly decreasing ids. */
  lemma {:induction false} NewestDescending(h: seq<TradeRecord>, userId: string)
    requires IdsIncreasing(h)
    ensures IdsDecreasing(Newest(h, userId))
  {
    if h != [] {
      var init := h[..|h| - 1];
      var last := h[|h| - 1];
      NewestDescending(init, userId);
      var rest := Newest(init, userId);
      forall m | 0 <= m < |init|
        ensures init[m].id < last.id
      {
        assert init[m] == h[m];
      }
      NewestBelow(init, userId, last.id);
      var r := Newest(h, userId);
      if RowOf(last, userId) {
        assert r == [last] + rest;
        forall i, j | 0 <= i < j < |r|
          ensures r[i].id > r[j].id
        {
          assert r[j] == rest[j - 1];
          if i > 0 {
            assert r[i] == rest[i - 1];
          }
        }
      } else {
        assert r == rest;
      }
    }
  }

  /** Every listed row comes from the history, so a bound on the history's ids bounds the listing's. */
  lemma NewestBelow(h: seq<TradeRecord>, userId: string, bound: int)
    requires forall m | 0 <= m < |h| :: h[m].id < bound
    ensures forall k | 0 <= k < |Newest(h, userId)| :: Newest(h, userId)[k].id < bound
  {
    var rest := Newest(h, userId);
    forall k | 0 <= k < |rest|
      ensures rest[k].id < bound
    {
      var m :| 0 <= m < |h| && h[m] == rest[k];
    }
  }

  /** `listTradeHistory`: at most `min(limit, 2000)` of the matching rows, newest first. */
  function ListTradeHistory(h: seq<TradeRecord>, userId: string, limit: int): (r: seq<TradeRecord>)
    requires limit > 0
    ensures |r| <= Min(limit, MaxHistoryRows)
    ensures r <= Newest(h, userId)
    ensures |Newest(h, userId)| <= Min(limit, MaxHistoryRows) ==> r == Newest(h, userId)
    ensures |r| == Min(|Newest(h, userId)|, Min(limit, MaxHistoryRows))
  {
    var all := Newest(h, userId);
    all[..Min(|all|, Min(limit, MaxHistoryRows))]
  }

  /**
   * The listing keeps the newest rows: every matching row is listed, or the
   * listing is full and each matching row it leaves out is older (has a
   * smaller id) than every row it shows.
   */
  lemma ListTradeHistoryNewest(h: seq<TradeRecord>, userId: string, limit: int)
    requires limit > 0
    requires IdsIncreasing(h)
    ensures var r := ListTradeHistory(h, userId, limit);
            forall i | 0 <= i < |h| && RowOf(h[i], userId) && h[i] !in r ::
              && |r| == Min(limit, MaxHistoryRows)
              && forall j | 0 <= j < |r| :: r[j].id > h[i].id
  {
    var all := Newest(h, userId);
    var r := ListTradeHistory(h, userId, limit);
    NewestComplete(h, userId);
    NewestDescending(h, userId);
    forall i | 0 <= i < |h| && RowOf(h[i], userId) && h[i] !in r
      ensures |r| == Min(limit, MaxHistoryRows)
      ensures forall j | 0 <= j < |r| :: r[j].id > h[i].id
    {
      var k :| 0 <= k < |all| && all[k] == h[i];
      assert k >= |r|;
      forall j | 0 <= j < |r|
        ensures r[j].id > h[i].id
      {
        assert r[j] == all[j];
      }
    }
  }

  /** How numbers and the row timestamp are rendered (JavaScript's `String` and `toISOString`). */
  datatype TextFormat = TextFormat(num: real -> string, whole: int -> string, date: int -> string)

  const CsvHeader: string := HeaderIds + HeaderRefs + HeaderTrade + HeaderPrices + HeaderOutcome + HeaderTime
  const HeaderIds: string := "id,userId,"
  const HeaderRefs: string := "orderId,positionId,"
  const HeaderTrade: string := "symbol,side,lots,"
  const HeaderPrices: string := "entryPrice,exitPrice,"
  const HeaderOutcome: string := "pnl,"
  const HeaderTime: string := "createdAt"

  lemma HeaderIsOneLine()
    ensures '\n' !in CsvHeader
  {
    assert '\n' !in HeaderIds;
    assert '\n' !in HeaderRefs;
    assert '\n' !in HeaderTrade;
    assert '\n' !in HeaderPrices;
    assert '\n' !in HeaderOutcome;
    assert '\n' !in HeaderTime;
  }

  function SideText(s: Side): string {
    if s == Buy then "buy" else "sell"
  }

  function Quoted(s: string): string {
    "\"" + s + "\""
  }

  /** One CSV line: ids and the timestamp quoted, numbers bare, no escaping. */
  function CsvLine(t: TradeRecord, fmt: TextFormat): string {
    fmt.whole(t.id) + "," + Quoted(t.userId) + "," + Quoted(t.orderId) + "," + Quoted(t.positionId) + ","
    + t.symbol + "," + SideText(t.side) + "," + fmt.num(t.lots) + "," + fmt.num(t.entryPrice) + ","
    + fmt.num(t.exitPrice) + "," + fmt.num(t.pnl) + "," + Quoted(fmt.date(t.createdAt))
  }

  function CsvLines(rows: seq<TradeRecord>, fmt: TextFormat): (lines: seq<string>)
    ensures |lines| == |rows|
    ensures forall i :: 0 <= i < |rows| ==> lines[i] == CsvLine(rows[i], fmt)
  {
    if rows == [] then [] else [CsvLine(rows[0], fmt)] + CsvLines(rows[1..], fmt)
  }

  /** `exportTradeHistoryCsv`: the header and one line per listed row, joined with newlines. */
  function ExportTradeHistoryCsv(h: seq<TradeRecord>, userId: string, fmt: TextFormat): string {
    JoinLines([CsvHeader] + CsvLines(ListTradeHistory(h, userId, ExportLimit), fmt))
  }

  /**
   * Reading the export back line by line gives the header and then exactly
   * one line per exported row, in order, when no rendered line holds a
   * newline; the export asks for 10000 rows but the listing caps it at 2000.
   */
  lemma ExportLines(h: seq<TradeRecord>, userId: string, fmt: TextFormat)
    requires forall t | t in h :: '\n' !in CsvLine(t, fmt)
    ensures var rows := ListTradeHistory(h, userId, ExportLimit);
            var lines := SplitLines(ExportTradeHistoryCsv(h, userId, fmt));
            && |rows| <= MaxHistoryRows
            && lines[0] == CsvHeader
            && |lines| == |rows| + 1
            && forall i :: 0 <= i < |rows| ==> lines[i + 1] == CsvLine(rows[i], fmt)
  {
    var rows := ListTradeHistory(h, userId, ExportLimit);
    forall t | t in rows
      ensures '\n' !in CsvLine(t, fmt)
    {
      var k :| 0 <= k < |rows| && rows[k] == t;
      assert t == Newest(h, userId)[k];
    }
    HeaderIsOneLine();
    HeaderAndLines(CsvHeader, rows, fmt);
  }

  /** A one-line header followed by one-line rows splits back into exactly those lines. */
  lemma HeaderAndLines(header: string, rows: seq<TradeRecord>, fmt: TextFormat)
    requires '\n' !in header
    requires forall t | t in rows :: '\n' !in CsvLine(t, fmt)
    ensures SplitLines(JoinLines([header] + CsvLines(rows, fmt))) == [header] + CsvLines(rows, fmt)
  {
    var all := [header] + CsvLines(rows, fmt);
    forall i | 0 <= i < |all|
      ensures '\n' !in all[i]
    {
      if i > 0 {
        assert all[i] == CsvLine(rows[i - 1], fmt);
      }
    }
    SplitJoinLines(all);
  }
}
