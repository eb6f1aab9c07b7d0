/**
 * The security-confirmation registry: at most one identity-and-bank
 * record per user, with the citizen id and the bank account number each
 * held by at most one record, compared and stored without white space.
 */
module SecurityConfirmation {
  import opened Common
  import opened Text
  import opened Store

  type Registry = map<string, Confirmation>

  /** The submitted form. The bank-account date is the result of parsing the submitted text: none when unparsable. */
  datatype SubmitForm = SubmitForm(
    address: string, citizenId: string, bankAccountNumber: string, bankName: string,
    bankAccountCreatedAt: Option<int>)

  datatype SubmitError = AlreadyConfirmed | CitizenIdTaken | BankAccountTaken | BankDateInvalid

  /** The registry's invariant. */
  predicate RegistryValid(c: Registry) {
    && (forall u | u in c :: c[u].userId == u)
    && (forall u, v | u in c && v in c && c[u].citizenId == c[v].citizenId :: u == v)
    && (forall u, v | u in c && v in c && c[u].bankAccountNumber == c[v].bankAccountNumber :: u == v)
  }

  /** `isConfirmed`: whether the user has a record. */
  function IsConfirmed(c: Registry, userId: string): (b: bool)
    ensures b <==> userId in c
  {
    userId in c
  }

  predicate CitizenIdHeld(c: Registry, citizenId: string) {
    exists u | u in c :: c[u].citizenId == citizenId
  }

  predicate BankAccountHeld(c: Registry, account: string) {
    exists u | u in c :: c[u].bankAccountNumber == account
  }

  /** The record a successful submission stores. */
  function RecordOf(userId: string, f: SubmitForm, date: int, now: int): Confirmation {
    Confirmation(userId, Trim(f.address), StripSpaces(f.citizenId), StripSpaces(f.bankAccountNumber),
                 Trim(f.bankName), date, now)
  }

  /** The outcome of `submit`: the record to add, or the first check that fails. */
  function Submission(c: Registry, userId: string, f: SubmitForm, now: int): Result<Confirmation, SubmitError> {
    var citizenId := StripSpaces(f.citizenId);
    var account := StripSpaces(f.bankAccountNumber);
    if userId in c then Err(AlreadyConfirmed)
    else if CitizenIdHeld(c, citizenId) then Err(CitizenIdTaken)
    else if BankAccountHeld(c, account) then Err(BankAccountTaken)
    else if f.bankAccountCreatedAt.None? then Err(BankDateInvalid)
    else Ok(RecordOf(userId, f, f.bankAccountCreatedAt.value, now))
  }

  /**
   * A submission is accepted exactly when the user has no record, no record
   * holds the white-space-free citizen id or bank account, and the date
   * parsed; the stored record carries the white-space-free numbers and the
   * trimmed address and bank name.
   */
  lemma SubmissionSpec(c: Registry, userId: string, f: SubmitForm, now: int)
    ensures var r := Submission(c, userId, f, now);
            && (r == Err(AlreadyConfirmed) <==> userId in c)
            && (r.Ok? <==> && userId !in c
                           && (forall u | u in c :: c[u].citizenId != StripSpaces(f.citizenId))
                           && (forall u | u in c :: c[u].bankAccountNumber != StripSpaces(f.bankAccountNumber))
                           && f.bankAccountCreatedAt.Some?)
            && (r.Ok? ==> && r.value.userId == userId
                          && r.value.citizenId == StripSpaces(f.citizenId)
                          && r.value.bankAccountNumber == StripSpaces(f.bankAccountNumber)
                          && r.value.address == Trim(f.address) && r.value.bankName == Trim(f.bankName)
                          && r.value.bankAccountCreatedAt == f.bankAccountCreatedAt.value)
  {
  }

  /** An accepted submission keeps the registry's invariant and confirms the user. */
  lemma SubmissionKeepsValid(c: Registry, userId: string, f: SubmitForm, now: int)
    requires RegistryValid(c)
    requires Submission(c, userId, f, now).Ok?
    ensures var c' := c[userId := Submission(c, userId, f, now).value];
            RegistryValid(c') && IsConfirmed(c', userId)
  {
    var rec := Submission(c, userId, f, now).value;
    assert userId !in c;
    assert rec.userId == userId;
    assert forall u | u in c :: c[u].citizenId != rec.citizenId && c[u].bankAccountNumber != rec.bankAccountNumber;
    var c' := c[userId := rec];
    forall u, v | u in c' && v in c' && c'[u].citizenId == c'[v].citizenId
      ensures u == v
    {
      if u != userId && v != userId {
        assert c[u].citizenId == c[v].citizenId;
      }
    }
    forall u, v | u in c' && v in c' && c'[u].bankAccountNumber == c'[v].bankAccountNumber
      ensures u == v
    {
      if u != userId && v != userId {
        assert c[u].bankAccountNumber == c[v].bankAccountNumber;
      }
    }
  }

  /**
   * Once a citizen id is registered, another user who submits the same id
   * written with different white space is refused.
   */
  lemma SpacedCitizenIdConflicts(c: Registry, u: string, f: SubmitForm, v: string, g: SubmitForm, now: int, later: int)
    requires Submission(c, u, f, now).Ok?
    requires v != u && StripSpaces(g.citizenId) == StripSpaces(f.citizenId)
    ensures Submission(c[u := Submission(c, u, f, now).value], v, g, later) == Err(CitizenIdTaken)
            || Submission(c[u := Submission(c, u, f, now).value], v, g, later) == Err(AlreadyConfirmed)
  {
    var c' := c[u := Submission(c, u, f, now).value];
    if v !in c' {
      assert c'[u].citizenId == StripSpaces(g.citizenId);
      assert CitizenIdHeld(c', StripSpaces(g.citizenId));
    }
  }

  datatype SubmitAck = Submitted | Refused(error: SubmitError)

  /**
   * `submit` on the database: the lookups in order, then the insert. A
   * refusal changes nothing.
   */
  method Submit(db: Database, userId: string, f: SubmitForm, now: int) returns (r: SubmitAck)
    modifies db`confirmations
    ensures var s := Submission(old(db.confirmations), userId, f, now);
            && (s.Ok? ==> r == Submitted && db.confirmations == old(db.confirmations)[userId := s.value])
            && (s.Err? ==> r == Refused(s.error) && db.confirmations == old(db.confirmations))
  {
    if userId in db.confirmations {
      return Refused(AlreadyConfirmed);
    }
    var citizenId := StripSpaces(f.citizenId);
    var account := StripSpaces(f.bankAccountNumber);
    var duplicateCitizen := exists u | u in db.confirmations :: db.confirmations[u].citizenId == citizenId;
    if duplicateCitizen {
      return Refused(CitizenIdTaken);
    }
    var duplicateBank := exists u | u in db.confirmations :: db.confirmations[u].bankAccountNumber == account;
    if duplicateBank {
      return Refused(BankAccountTaken);
    }
    if f.bankAccountCreatedAt.None? {
      return Refused(BankDateInvalid);
    }
    db.confirmations := db.confirmations[userId := Confirmation(userId, Trim(f.address), citizenId, account,
                                                                Trim(f.bankName), f.bankAccountCreatedAt.value, now)];
    r := Submitted;
  }
}
