/**
 * The user's own account: seeding the demo user and its wallet rows, and
 * the profile edit (name and email) with its length limits and the email
 * uniqueness rule.
 */
module UserService {
  import opened Common
  import opened Text
  import opened Store
  import opened WalletService
  import AdminService

  /** The fields the profile endpoints return. */
  datatype Profile = Profile(id: string, email: string, name: string, accountType: AccountTier)

  function ProfileOf(u: User): Profile {
    Profile(u.id, u.email, u.name, u.accountType)
  }

  /** `DEMO_USER`, the value `ensureDemoUser` answers with. */
  const DemoProfile: Profile := Profile(DemoUserId, DemoUserEmail, DemoUserName, DemoTier)

  /** The row `users.create(DEMO_USER)` inserts: no password, the default role, unlocked. */
  function DemoUserRow(now: int): (u: User)
    ensures ProfileOf(u) == DemoProfile && u.passwordHash.None? && !u.isLocked
  {
    User(DemoUserId, DemoUserEmail, DemoUserName, None, DemoTier, UserRole, false, now)
  }

  /**
   * The user table after the first half of `ensureDemoUser`: an existing
   * demo user is left alone; otherwise the row is inserted, unless the
   * unique email index refuses it, a duplicate-entry error the source
   * swallows.
   */
  function SeededUsers(users: map<string, User>, now: int): (r: map<string, User>)
    ensures DemoUserId in users ==> r == users
    ensures DemoUserId !in users && !AdminService.EmailHeld(users, DemoUserEmail) ==> r == users[DemoUserId := DemoUserRow(now)]
    ensures DemoUserId !in users && AdminService.EmailHeld(users, DemoUserEmail) ==> r == users
  {
    if DemoUserId in users || AdminService.EmailHeld(users, DemoUserEmail) then users
    else users[DemoUserId := DemoUserRow(now)]
  }

  /** The key of a demo wallet row. */
  function DemoKey(symbol: string): WalletKey {
    WalletKey(DemoUserId, symbol)
  }

  /** One turn of the wallet loop: insert the row only when the demo user has none for that symbol. */
  function SeedRow(w: Wallets, row: (string, real)): Wallets {
    if DemoKey(row.0) in w then w else w[DemoKey(row.0) := row.1]
  }

  /**
   * The wallet table after the loop over the seed rows. Existing rows keep
   * their amounts, every seed symbol has a row, and every new row is the
   * demo user's row for a seed symbol at that seed's amount.
   */
  function SeedRows(w: Wallets, rows: seq<(string, real)>): (r: Wallets)
    ensures forall k | k in w :: k in r && r[k] == w[k]
    ensures forall i | 0 <= i < |rows| :: DemoKey(rows[i].0) in r
    ensures forall k | k in r && k !in w :: exists i | 0 <= i < |rows| :: k == DemoKey(rows[i].0) && r[k] == rows[i].1
    decreases |rows|
  {
    if rows == [] then w
    else SeedRow(SeedRows(w, rows[..|rows| - 1]), rows[|rows| - 1])
  }

  /** Seeding rows that all exist already changes nothing. */
  lemma {:induction false} SeedRowsPresent(w: Wallets, rows: seq<(string, real)>)
    requires forall i | 0 <= i < |rows| :: DemoKey(rows[i].0) in w
    ensures SeedRows(w, rows) == w
    decreases |rows|
  {
    if rows != [] {
      SeedRowsPresent(w, rows[..|rows| - 1]);
      assert DemoKey(rows[|rows| - 1].0) in w;
    }
  }

  /** Seeding twice is seeding once. */
  lemma SeedRowsIdempotent(w: Wallets, rows: seq<(string, real)>)
    ensures SeedRows(SeedRows(w, rows), rows) == SeedRows(w, rows)
  {
    SeedRowsPresent(SeedRows(w, rows), rows);
  }

  /** Seed rows with distinct symbols: a row that was missing gets exactly its seed amount. */
  lemma {:induction false} SeedRowsFresh(w: Wallets, rows: seq<(string, real)>)
    requires forall i, j | 0 <= i < j < |rows| :: rows[i].0 != rows[j].0
    ensures forall i | 0 <= i < |rows| && DemoKey(rows[i].0) !in w :: SeedRows(w, rows)[DemoKey(rows[i].0)] == rows[i].1
    decreases |rows|
  {
    if rows != [] {
      var init := rows[..|rows| - 1];
      var last := rows[|rows| - 1];
      SeedRowsFresh(w, init);
      var before := SeedRows(w, init);
      var after := SeedRows(w, rows);
      assert after == SeedRow(before, last);
      forall i | 0 <= i < |rows| && DemoKey(rows[i].0) !in w
        ensures after[DemoKey(rows[i].0)] == rows[i].1
      {
        if i < |rows| - 1 {
          assert init[i] == rows[i];
          assert DemoKey(rows[i].0) != DemoKey(last.0);
          assert after[DemoKey(rows[i].0)] == before[DemoKey(init[i].0)];
        } else {
          forall j | 0 <= j < |init|
            ensures DemoKey(init[j].0) != DemoKey(last.0)
          {
            assert init[j] == rows[j];
          }
          assert DemoKey(last.0) !in before;
        }
      }
    }
  }

  /** The five seed symbols are distinct. */
  lemma DemoWalletDistinct()
    ensures forall i, j | 0 <= i < j < |DemoWallet| :: DemoWallet[i].0 != DemoWallet[j].0
  {
    assert UsdDemo[4] == 'D' && UsdReal[4] == 'R';
  }

  /**
   * `ensureDemoUser`. Afterwards every seed symbol has a demo wallet row,
   * and the demo user exists unless another user holds its email; nothing
   * that existed is overwritten, and the answer is the demo profile.
   */
  method EnsureDemoUser(db: Database, now: int) returns (p: Profile)
    modifies db`users, db`wallets
    ensures p == DemoProfile
    ensures db.users == SeededUsers(old(db.users), now)
    ensures db.wallets == SeedRows(old(db.wallets), DemoWallet)
  {
    if DemoUserId !in db.users {
      var emailTaken := exists k | k in db.users :: db.users[k].email == DemoUserEmail;
      if !emailTaken {
        db.users := db.users[DemoUserId := User(DemoUserId, DemoUserEmail, DemoUserName, None, DemoTier, UserRole, false, now)];
      }
    }
    ghost var users := db.users;
    ghost var w0 := db.wallets;
    var rows := DemoWallet;
    SeedRowsPrefix(w0, rows, 0);
    for i := 0 to |rows|
      invariant db.users == users
      invariant db.wallets == SeedRows(w0, rows[..i])
    {
      var a := rows[i];
      SeedRowsPrefix(w0, rows, i + 1);
      if DemoKey(a.0) !in db.wallets {
        db.wallets := db.wallets[DemoKey(a.0) := a.1];
      }
    }
    assert rows[..|rows|] == rows;
    p := DemoProfile;
  }

  /** The seeding of a prefix, one row longer. */
  lemma SeedRowsPrefix(w: Wallets, rows: seq<(string, real)>, n: nat)
    requires n <= |rows|
    ensures n == 0 ==> SeedRows(w, rows[..n]) == w
    ensures n > 0 ==> SeedRows(w, rows[..n]) == SeedRow(SeedRows(w, rows[..n - 1]), rows[n - 1])
  {
    if n > 0 {
      assert rows[..n][..n - 1] == rows[..n - 1];
    }
  }

  /**
   * Running `ensureDemoUser` again, at any later time, changes nothing, and
   * the first run leaves the demo user (or the holder of its email) and a
   * demo row for every seed symbol, a new one at its seed amount.
   */
  lemma EnsureDemoUserIdempotent(users: map<string, User>, w: Wallets, now: int, later: int)
    ensures SeededUsers(SeededUsers(users, now), later) == SeededUsers(users, now)
    ensures SeedRows(SeedRows(w, DemoWallet), DemoWallet) == SeedRows(w, DemoWallet)
    ensures DemoUserId in SeededUsers(users, now) || AdminService.EmailHeld(users, DemoUserEmail)
    ensures forall i | 0 <= i < |DemoWallet| && DemoKey(DemoWallet[i].0) !in w
              :: SeedRows(w, DemoWallet)[DemoKey(DemoWallet[i].0)] == DemoWallet[i].1
  {
    SeedRowsIdempotent(w, DemoWallet);
    DemoWalletDistinct();
    SeedRowsFresh(w, DemoWallet);
  }

  /** Seeding the demo user keeps the user table valid. */
  lemma SeededUsersKeepValid(users: map<string, User>, now: int)
    requires AdminService.UsersValid(users)
    ensures AdminService.UsersValid(SeededUsers(users, now))
  {
    if DemoUserId !in users && !AdminService.EmailHeld(users, DemoUserEmail) {
      AdminService.FreshEmailKeepsValid(users, DemoUserId, DemoUserRow(now));
    }
  }

  const MaxFieldLength: nat := 255

  /** A profile field: left out, a string, or present but not a string (read as the empty string). */
  datatype Field = Omitted | Text(s: string) | NotText

  datatype ProfileEdit = ProfileEdit(name: Field, email: Field)

  datatype ProfileError = NoSuchUser | NameRequired | NameTooLong | EmailRequired | EmailTooLong | EmailAlreadyUsed

  /** `typeof x === 'string' ? x.trim() : ''` for a present field. */
  function TrimmedText(f: Field): string {
    if f.Text? then Trim(f.s) else ""
  }

  /** `typeof x === 'string' ? x.trim().toLowerCase() : ''` for a present field. */
  function NormalizedText(f: Field): string {
    if f.Text? then AdminService.NormalizeEmail(f.s) else ""
  }

  /**
   * `updateProfile`: the user with the edits, or the first failing check in
   * the source's order: unknown user, then the name, then the email.
   */
  function ProfileUpdate(users: map<string, User>, userId: string, e: ProfileEdit): Result<User, ProfileError> {
    if userId !in users then Err(NoSuchUser)
    else
      var u := users[userId];
      var name := TrimmedText(e.name);
      var email := NormalizedText(e.email);
      if !e.name.Omitted? && name == "" then Err(NameRequired)
      else if !e.name.Omitted? && |name| > MaxFieldLength then Err(NameTooLong)
      else if !e.email.Omitted? && email == "" then Err(EmailRequired)
      else if !e.email.Omitted? && |email| > MaxFieldLength then Err(EmailTooLong)
      else if !e.email.Omitted? && email != u.email && AdminService.EmailHeld(users, email) then Err(EmailAlreadyUsed)
      else
        var u1 := if e.name.Omitted? then u else u.(name := name);
        Ok(if e.email.Omitted? then u1 else u1.(email := email))
  }

  /** Only an unknown user is refused with `NoSuchUser`. */
  lemma ProfileUpdateUnknownUser(users: map<string, User>, userId: string, e: ProfileEdit)
    ensures ProfileUpdate(users, userId, e) == Err(NoSuchUser) <==> userId !in users
  {
    if userId in users {
      var r := ProfileUpdate(users, userId, e);
      assert r.Err? ==> r.error != NoSuchUser;
    }
  }

  /** A present name that does not trim to one to 255 characters is refused. */
  lemma ProfileNameRefused(users: map<string, User>, userId: string, e: ProfileEdit)
    requires !e.name.Omitted? && !(0 < |TrimmedText(e.name)| <= 255)
    ensures ProfileUpdate(users, userId, e).Err?
  {
    var name := TrimmedText(e.name);
    assert |name| == 0 ==> name == "";
  }

  /** A present email that does not normalise to one to 255 characters is refused. */
  lemma ProfileEmailRefused(users: map<string, User>, userId: string, e: ProfileEdit)
    requires !e.email.Omitted? && !(0 < |NormalizedText(e.email)| <= 255)
    ensures ProfileUpdate(users, userId, e).Err?
  {
    var email := NormalizedText(e.email);
    assert |email| == 0 ==> email == "";
    assert email == "" || |email| > MaxFieldLength;
  }

  /**
   * An accepted edit differs from the old row in the name and the email
   * only: each left-out field keeps its value, each present one is the
   * trimmed (and, for the email, lower-cased) text, and the email is the
   * user's own or one nobody holds.
   */
  lemma ProfileUpdateSpec(users: map<string, User>, userId: string, e: ProfileEdit)
    requires ProfileUpdate(users, userId, e).Ok?
    ensures var r := ProfileUpdate(users, userId, e).value;
            var u := users[userId];
            && r == u.(name := r.name, email := r.email)
            && (e.name.Omitted? ==> r.name == u.name)
            && (!e.name.Omitted? ==> r.name == TrimmedText(e.name) && 0 < |r.name| <= 255)
            && (e.email.Omitted? ==> r.email == u.email)
            && (!e.email.Omitted? ==> r.email == NormalizedText(e.email) && 0 < |r.email| <= 255)
            && (r.email == u.email || !AdminService.EmailHeld(users, r.email))
  {
  }

  /** Giving the user's own email again, with no name, is accepted and changes nothing. */
  lemma OwnEmailAccepted(users: map<string, User>, userId: string, s: string)
    requires userId in users && AdminService.NormalizeEmail(s) == users[userId].email
    requires 0 < |users[userId].email| <= 255
    ensures ProfileUpdate(users, userId, ProfileEdit(Omitted, Text(s))) == Ok(users[userId])
  {
  }

  /** Changing to an email another user holds is refused. */
  lemma TakenEmailRefused(users: map<string, User>, userId: string, other: string, e: ProfileEdit)
    requires AdminService.UsersValid(users)
    requires userId in users && other in users && other != userId
    requires e.email.Text? && AdminService.NormalizeEmail(e.email.s) == users[other].email
    ensures ProfileUpdate(users, userId, e).Err?
  {
    assert users[userId].email != users[other].email;
    var email := NormalizedText(e.email);
    assert AdminService.EmailHeld(users, email) by {
      assert users[other].email == email;
    }
    AcceptedEmailFree(users, userId, e);
  }

  /** An accepted edit's email is the user's own or one nobody holds. */
  lemma AcceptedEmailFree(users: map<string, User>, userId: string, e: ProfileEdit)
    requires !e.email.Omitted?
    ensures ProfileUpdate(users, userId, e).Ok? ==>
              NormalizedText(e.email) == users[userId].email || !AdminService.EmailHeld(users, NormalizedText(e.email))
  {
  }

  /** Applying an accepted edit to its own result gives the same user. */
  lemma ProfileUpdateIdempotent(users: map<string, User>, userId: string, e: ProfileEdit)
    requires ProfileUpdate(users, userId, e).Ok?
    ensures var u := ProfileUpdate(users, userId, e).value;
            ProfileUpdate(users[userId := u], userId, e) == Ok(u)
  {
  }

  /** An accepted edit keeps the user table valid. */
  lemma ProfileUpdateKeepsValid(users: map<string, User>, userId: string, e: ProfileEdit)
    requires AdminService.UsersValid(users)
    requires ProfileUpdate(users, userId, e).Ok?
    ensures AdminService.UsersValid(users[userId := ProfileUpdate(users, userId, e).value])
  {
    ProfileUpdateSpec(users, userId, e);
    AdminService.ReplaceKeepsValid(users, userId, ProfileUpdate(users, userId, e).value);
  }

  /**
   * `updateProfile` on the database: the checks run on a copy of the row,
   * which is saved only when all pass; the answer is the saved row's profile.
   */
  method UpdateProfile(db: Database, userId: string, e: ProfileEdit) returns (r: Result<Profile, ProfileError>)
    modifies db`users
    ensures var s := ProfileUpdate(old(db.users), userId, e);
            && (s.Ok? ==> r == Ok(ProfileOf(s.value)) && db.users == old(db.users)[userId := s.value])
            && (s.Err? ==> r == Err(s.error) && db.users == old(db.users))
  {
    ghost var s := ProfileUpdate(db.users, userId, e);
    if userId !in db.users {
      return Err(NoSuchUser);
    }
    var u := db.users[userId];
    if !e.name.Omitted? {
      var name := TrimmedText(e.name);
      if |name| == 0 {
        assert s == Err(NameRequired);
        return Err(NameRequired);
      }
      if |name| > MaxFieldLength {
        assert s == Err(NameTooLong);
        return Err(NameTooLong);
      }
      u := u.(name := name);
    }
    if !e.email.Omitted? {
      var email := NormalizedText(e.email);
      if |email| == 0 {
        assert s == Err(EmailRequired);
        return Err(EmailRequired);
      }
      if |email| > MaxFieldLength {
        assert s == Err(EmailTooLong);
        return Err(EmailTooLong);
      }
      if email != u.email {
        var existing := exists k | k in db.users :: db.users[k].email == email;
        if existing {
          assert s == Err(EmailAlreadyUsed);
          return Err(EmailAlreadyUsed);
        }
        u := u.(email := email);
      }
    }
    assert s == Ok(u);
    db.users := db.users[userId := u];
    r := Ok(ProfileOf(u));
  }
}
