/** Creating a payment: domain validation, payload normalisation, and one
    transaction that inserts the payment and moves money between accounts.
    The transaction is a snapshot of the accounts and payments tables that is
    put back when the callback fails or panics; the activity log, the code
    counter and the payments auto-increment counter are not part of it. */
module PaymentStore {
  import opened Common
  import opened Dates
  import opened Database
  import PaymentAccounts
  import Payments
  import Generates
  import ActivityLogs

  const EXPENSE: nat := 1
  const INCOME: nat := 2
  const TRANSFER: nat := 3
  const WITHDRAWAL: nat := 4

  const ACCOUNT_NOT_FOUND := "Payment account not found"
  const DESTINATION_NOT_FOUND := "Payment account destination not found"
  const E01 := "Insufficient balance for this payment account (e01)"
  const E02 := "Insufficient balance for this payment account (e02)"
  const UPDATE_FAILED := "Failed to update payment account, please try again"
  const DESTINATION_UPDATE_FAILED := "Failed to update payment account destination, please try again"
  const CREATE_FAILED := "Failed to create payment, please try again"
  const CREATED_MESSAGE := "Payment created successfully"
  /** The alias of the code counter that numbers payments. */
  const PAYMENT_ALIAS := "payment"
  /** The text of the runtime error a nil pointer dereference raises; the
      recover middleware hands it to the error handler, which answers 500. */
  const NIL_DEREFERENCE := "runtime error: invalid memory address or nil pointer dereference"

  const REQUIRED_WITHOUT_ITEMS := "This field is required when the payment has no items"
  const GREATER_THAN_ZERO := "This field must be greater than 0"
  const REQUIRED_FOR_TRANSFER := "This field is required when the category is transfer or widrawal."

  datatype StorePaymentRequest = StorePaymentRequest(
    name: Option<string>,
    amount: Option<Int64>,
    typeId: nat,
    date: string,
    paymentAccountId: nat,
    paymentAccountToId: Option<nat>,
    hasItems: bool,
    isDraft: bool,
    isScheduled: bool)

  type Errors = map<string, seq<string>>

  /** Which database calls fail during one request. */
  datatype Faults = Faults(
    counterSaveFails: bool,
    insertFails: bool,
    reloadFails: bool,
    originWriteFails: bool,
    destinationWriteFails: bool,
    auditFails: bool)

  /** How a step inside the transaction callback ends. */
  datatype StepResult = Done | Fail(message: string) | Panic

  /** The accounts and the audit entries a balance step leaves behind. */
  datatype Effect = Effect(result: StepResult, accounts: map<nat, PaymentAccount>, entries: seq<ActivityLog>)

  datatype StoreResponse =
    | ValidationFailed(errors: Errors)
    | Failed(status: int, message: string)
    | Succeeded(status: int, message: string, payment: Payment)

  // ---------------------------------------------------------------------
  // Validation and payload normalisation

  predicate AmountMissing(p: StorePaymentRequest) { p.amount.None? || p.amount.value < 1 }
  predicate NameMissing(p: StorePaymentRequest) { p.name.None? || p.name.value == "" }
  predicate IsTransferOrWithdrawal(typeId: nat) { typeId == TRANSFER || typeId == WITHDRAWAL }

  /** The domain rules: without items a positive amount and a name are needed;
      a transfer or withdrawal needs a destination account. */
  predicate DomainValid(p: StorePaymentRequest)
  {
    (p.hasItems || (!AmountMissing(p) && !NameMissing(p)))
    && (IsTransferOrWithdrawal(p.typeId) ==> p.paymentAccountToId.Some?)
  }

  /** validate: the rule checker's errors when it reports any (its outcome is
      an input here), else the domain errors collected field by field, else
      nothing. */
  method Validate(p: StorePaymentRequest, ruleErrors: Option<Errors>) returns (errs: Option<Errors>)
    ensures ruleErrors.Some? ==> errs == ruleErrors
    ensures ruleErrors.None? ==> (errs.None? <==> DomainValid(p))
    ensures ruleErrors.None? && errs.Some? ==>
              var e := errs.value;
              e.Keys <= {"amount", "name", "payment_account_to_id"}
              && ("amount" in e <==> !p.hasItems && AmountMissing(p))
              && ("name" in e <==> !p.hasItems && NameMissing(p))
              && ("payment_account_to_id" in e <==> IsTransferOrWithdrawal(p.typeId) && p.paymentAccountToId.None?)
              && ("amount" in e ==> e["amount"] == [REQUIRED_WITHOUT_ITEMS, GREATER_THAN_ZERO])
              && ("name" in e ==> e["name"] == [REQUIRED_WITHOUT_ITEMS])
              && ("payment_account_to_id" in e ==> e["payment_account_to_id"] == [REQUIRED_FOR_TRANSFER])
  {
    if ruleErrors.Some? {
      return ruleErrors;
    }
    var validationErrs: Errors := map[];
    if !p.hasItems {
      if p.amount.None? || p.amount.value < 1 {
        validationErrs := validationErrs["amount" := [REQUIRED_WITHOUT_ITEMS, GREATER_THAN_ZERO]];
      }
      if p.name.None? || p.name.value == "" {
        validationErrs := validationErrs["name" := [REQUIRED_WITHOUT_ITEMS]];
      }
    }
    if p.typeId == 3 || p.typeId == 4 {
      if p.paymentAccountToId.None? {
        validationErrs := validationErrs["payment_account_to_id" := [REQUIRED_FOR_TRANSFER]];
      }
    }
    if |validationErrs| > 0 {
      return Some(validationErrs);
    }
    return None;
  }

  /** preparePayload: a payment with items drops its amount and name and
      becomes an expense; any other payload is left as it is. */
  function Prepared(p: StorePaymentRequest): (q: StorePaymentRequest)
    ensures q.hasItems == p.hasItems && q.isDraft == p.isDraft && q.isScheduled == p.isScheduled
    ensures q.date == p.date && q.paymentAccountId == p.paymentAccountId
    ensures q.paymentAccountToId == p.paymentAccountToId
    ensures p.hasItems ==> q.amount.None? && q.name.None? && q.typeId == EXPENSE
    ensures !p.hasItems ==> q == p
  {
    if p.hasItems then p.(amount := None, name := None, typeId := EXPENSE) else p
  }

  lemma PreparedIdempotent(p: StorePaymentRequest)
    ensures Prepared(Prepared(p)) == Prepared(p)
  {
  }

  /** A payload that passed the domain rules still passes them once prepared. */
  lemma PreparedKeepsValid(p: StorePaymentRequest)
    requires DomainValid(p)
    ensures DomainValid(Prepared(p))
  {
  }

  // ---------------------------------------------------------------------
  // Balance steps, as functions of the accounts table
  //
  // Every deposit write is taken to set the deposit, zero included. The Go
  // code writes with `Updates(struct)`, which skips a zero deposit, so a
  // write of 0 leaves the stored balance as it was. The properties below hold
  // of this explicit write, not of that case.

  function WriteDeposit(accounts: map<nat, PaymentAccount>, id: nat, deposit: Int64): (r: map<nat, PaymentAccount>)
    ensures r.Keys == accounts.Keys
    ensures id in accounts ==> r[id] == accounts[id].(deposit := deposit)
    ensures forall k :: k in accounts && k != id ==> r[k] == accounts[k]
  {
    if id in accounts then accounts[id := accounts[id].(deposit := deposit)] else accounts
  }

  /** The audit entry of one successful deposit write. */
  function AuditOf(userId: nat, after: map<nat, PaymentAccount>, before: PaymentAccount, auditFails: bool): seq<ActivityLog>
  {
    if auditFails || before.id !in after then []
    else [PaymentAccounts.UpdatedEntry(userId, before, PaymentAccounts.Projection(after[before.id]))]
  }

  /** handleIncomeOrExpense on one account. */
  function IncomeOrExpense(userId: nat, accounts: map<nat, PaymentAccount>, p: StorePaymentRequest, f: Faults): Effect
  {
    var id := p.paymentAccountId;
    if id !in accounts then Effect(Fail(ACCOUNT_NOT_FOUND), accounts, [])
    else if p.amount.None? then Effect(Panic, accounts, [])
    else
      var snapshot := PaymentAccounts.Projection(accounts[id]);
      var amount := p.amount.value;
      if p.typeId == EXPENSE && amount > snapshot.deposit then Effect(Fail(E01), accounts, [])
      else
        var balance := if p.typeId == EXPENSE then Wrap64(snapshot.deposit - amount)
                       else Wrap64(snapshot.deposit + amount);
        if f.originWriteFails then Effect(Fail(UPDATE_FAILED), accounts, [])
        else
          var written := WriteDeposit(accounts, id, balance);
          Effect(Done, written, AuditOf(userId, written, snapshot, f.auditFails))
  }

  /** handleTransferOrWithdrawal: both accounts are read first, then the
      origin is written, then the destination from its earlier snapshot. */
  function TransferOrWithdrawal(userId: nat, accounts: map<nat, PaymentAccount>, p: StorePaymentRequest, f: Faults): Effect
  {
    var id := p.paymentAccountId;
    if id !in accounts then Effect(Fail(ACCOUNT_NOT_FOUND), accounts, [])
    else if p.paymentAccountToId.None? then Effect(Panic, accounts, [])
    else if p.paymentAccountToId.value !in accounts then Effect(Fail(DESTINATION_NOT_FOUND), accounts, [])
    else if p.amount.None? then Effect(Panic, accounts, [])
    else
      var to := p.paymentAccountToId.value;
      var origin := PaymentAccounts.Projection(accounts[id]);
      var destination := PaymentAccounts.Projection(accounts[to]);
      var amount := p.amount.value;
      if origin.deposit < amount then Effect(Fail(E02), accounts, [])
      else if f.originWriteFails then Effect(Fail(UPDATE_FAILED), accounts, [])
      else
        var first := WriteDeposit(accounts, id, Wrap64(origin.deposit - amount));
        var firstLog := AuditOf(userId, first, origin, f.auditFails);
        if f.destinationWriteFails then Effect(Fail(DESTINATION_UPDATE_FAILED), first, firstLog)
        else
          var second := WriteDeposit(first, to, Wrap64(destination.deposit + amount));
          Effect(Done, second, firstLog + AuditOf(userId, second, destination, f.auditFails))
  }

  /** updateBalances: dispatch on the payment type; other types move nothing. */
  function BalanceUpdate(userId: nat, accounts: map<nat, PaymentAccount>, p: StorePaymentRequest, f: Faults): (e: Effect)
    ensures !(1 <= p.typeId <= 4) ==> e == Effect(Done, accounts, [])
  {
    if p.typeId == EXPENSE || p.typeId == INCOME then IncomeOrExpense(userId, accounts, p, f)
    else if p.typeId == TRANSFER || p.typeId == WITHDRAWAL then TransferOrWithdrawal(userId, accounts, p, f)
    else Effect(Done, accounts, [])
  }

  /** The balance step of the transaction: skipped for drafts and scheduled payments. */
  function LedgerStep(userId: nat, accounts: map<nat, PaymentAccount>, p: StorePaymentRequest, f: Faults): (e: Effect)
    ensures p.isDraft || p.isScheduled ==> e == Effect(Done, accounts, [])
  {
    if p.isDraft || p.isScheduled then Effect(Done, accounts, []) else BalanceUpdate(userId, accounts, p, f)
  }

  // ---------------------------------------------------------------------
  // Properties of the balance steps

  /** An expense never overdraws: it succeeds only when the amount is at most
      the balance, and then it takes exactly the amount off. Other accounts
      are untouched. Under the explicit write an amount equal to the balance
      leaves zero; the Go code's `Updates(struct)` skips that zero and so
      leaves the balance unchanged. */
  lemma ExpenseRule(userId: nat, accounts: map<nat, PaymentAccount>, p: StorePaymentRequest, f: Faults)
    requires p.typeId == EXPENSE && p.paymentAccountId in accounts && p.amount.Some? && p.amount.value >= 0
    ensures var e := IncomeOrExpense(userId, accounts, p, f);
            var old_ := accounts[p.paymentAccountId].deposit;
            (p.amount.value > old_ ==> e.result == Fail(E01) && e.accounts == accounts && e.entries == [])
            && (e.result.Done? <==> p.amount.value <= old_ && !f.originWriteFails)
            && (e.result.Done? ==> e.accounts[p.paymentAccountId].deposit == old_ - p.amount.value)
            && (forall k :: k in accounts && k != p.paymentAccountId ==> k in e.accounts && e.accounts[k] == accounts[k])
  {
  }

  /** Income adds the amount (int64 arithmetic) and has no balance check. */
  lemma IncomeRule(userId: nat, accounts: map<nat, PaymentAccount>, p: StorePaymentRequest, f: Faults)
    requires p.typeId == INCOME && p.paymentAccountId in accounts && p.amount.Some?
    ensures var e := IncomeOrExpense(userId, accounts, p, f);
            var old_ := accounts[p.paymentAccountId].deposit;
            (e.result.Done? <==> !f.originWriteFails)
            && (e.result.Done? ==> e.accounts[p.paymentAccountId].deposit == Wrap64(old_ + p.amount.value))
  {
  }

  /** A successful transfer between two different accounts moves the amount:
      the origin loses it, the destination gains it, their sum is unchanged
      and no other account changes. This holds of the explicit write: when
      the transfer empties the origin, the Go code's `Updates(struct)` skips
      the zero deposit, so the origin keeps its balance while the
      destination is credited. */
  lemma TransferConserves(userId: nat, accounts: map<nat, PaymentAccount>, p: StorePaymentRequest, f: Faults)
    requires AccountsKeyed(accounts)
    requires TransferOrWithdrawal(userId, accounts, p, f).result.Done?
    requires p.paymentAccountToId.Some? && p.paymentAccountId != p.paymentAccountToId.value
    requires p.amount.Some? && p.amount.value >= 0
    requires p.paymentAccountToId.value in accounts
    requires accounts[p.paymentAccountToId.value].deposit + p.amount.value <= INT64_MAX
    ensures var e := TransferOrWithdrawal(userId, accounts, p, f);
            var o := p.paymentAccountId;
            var t := p.paymentAccountToId.value;
            var amount := p.amount.value;
            e.accounts.Keys == accounts.Keys
            && amount <= accounts[o].deposit
            && e.accounts[o].deposit == accounts[o].deposit - amount
            && e.accounts[t].deposit == accounts[t].deposit + amount
            && e.accounts[o].deposit + e.accounts[t].deposit == accounts[o].deposit + accounts[t].deposit
            && (forall k :: k in accounts && k != o && k != t ==> e.accounts[k] == accounts[k])
            && |e.entries| == if f.auditFails then 0 else 2
  {
    var o := p.paymentAccountId;
    var t := p.paymentAccountToId.value;
    var amount := p.amount.value;
    var first := WriteDeposit(accounts, o, Wrap64(accounts[o].deposit - amount));
    assert first[t] == accounts[t];
  }

  /** When origin and destination are the same account, the destination write
      uses the snapshot taken before the origin write, so the account ends at
      its old balance plus the amount. */
  lemma TransferToSelf(userId: nat, accounts: map<nat, PaymentAccount>, p: StorePaymentRequest, f: Faults)
    requires TransferOrWithdrawal(userId, accounts, p, f).result.Done?
    requires p.paymentAccountToId == Some(p.paymentAccountId)
    ensures var e := TransferOrWithdrawal(userId, accounts, p, f);
            var o := p.paymentAccountId;
            e.accounts[o].deposit == Wrap64(accounts[o].deposit + p.amount.value)
  {
  }

  /** The origin balance is checked before any write: an amount above it
      fails with "(e02)" and changes nothing. */
  lemma TransferInsufficient(userId: nat, accounts: map<nat, PaymentAccount>, p: StorePaymentRequest, f: Faults)
    requires p.paymentAccountId in accounts && p.paymentAccountToId.Some?
    requires p.paymentAccountToId.value in accounts && p.amount.Some?
    requires accounts[p.paymentAccountId].deposit < p.amount.value
    ensures TransferOrWithdrawal(userId, accounts, p, f) == Effect(Fail(E02), accounts, [])
  {
  }

  /** A payment with items that is neither draft nor scheduled reaches the
      amount dereference with no amount once its account is found. */
  lemma ItemsPaymentPanics(userId: nat, accounts: map<nat, PaymentAccount>, p: StorePaymentRequest, f: Faults)
    requires p.hasItems && !p.isDraft && !p.isScheduled && p.paymentAccountId in accounts
    ensures LedgerStep(userId, accounts, Prepared(p), f).result == Panic
  {
  }

  /** Every balance step keeps each account stored under its own id. */
  lemma LedgerStepKeepsKeys(userId: nat, accounts: map<nat, PaymentAccount>, p: StorePaymentRequest, f: Faults)
    requires AccountsKeyed(accounts)
    ensures AccountsKeyed(LedgerStep(userId, accounts, p, f).accounts)
    ensures LedgerStep(userId, accounts, p, f).accounts.Keys == accounts.Keys
  {
  }

  // ---------------------------------------------------------------------
  // The service

  /** The code-counter table after createPayment's GetCode: the "payment"
      row advanced, unless there is none or its Save fails. */
  function CounterAfter(generates: map<string, Generate>, today: string, saveFails: bool): map<string, Generate>
    requires IsDateStamp(today)
  {
    if PAYMENT_ALIAS in generates && !saveFails
    then generates[PAYMENT_ALIAS := Generates.Advanced(generates[PAYMENT_ALIAS], today)]
    else generates
  }

  /** The code createPayment is handed: the fallback code when there is no
      "payment" counter. */
  function PaymentCode(generates: map<string, Generate>, today: string, rnd: nat): string
    requires IsDateStamp(today) && rnd < 90000
  {
    if PAYMENT_ALIAS in generates then Generates.CodeFor(generates[PAYMENT_ALIAS], today) else Generates.FallbackCode(rnd)
  }

  /** The struct createPayment hands to the repository: no id and no stamps yet. */
  function PaymentDraft(userId: nat, p: StorePaymentRequest, code: string): Payment
  {
    Payment(0, userId, code, p.name, ParseYMDOrZero(p.date), p.amount, p.hasItems, p.isScheduled,
            p.isDraft, NoAttachments, p.typeId, p.paymentAccountId, p.paymentAccountToId, 0, 0)
  }

  /** The row createPayment inserts, as the database stores it. */
  function NewRow(userId: nat, p: StorePaymentRequest, code: string, id: nat, now: int): (row: Payment)
    ensures row.id == id && row.userId == userId && row.code == code && row.amount == p.amount
    ensures row.date == ParseYMDOrZero(p.date) && row.attachments == NoAttachments
  {
    PaymentDraft(userId, p, code).(id := id, createdAt := now, updatedAt := now)
  }

  /** The entry list an audit write adds: nothing when it fails. */
  function Logged(entry: ActivityLog, auditFails: bool): seq<ActivityLog>
  {
    if auditFails then [] else [entry]
  }

  class StoreService {
    const db: Db
    const payment: Payments.PaymentRepository
    const paymentAccount: PaymentAccounts.PaymentAccountRepository
    const generate: Generates.GenerateRepository
    const activityLog: ActivityLogs.ActivityLogRepository

    /** All repositories work on the same database. */
    predicate Wired()
    {
      payment.db == db && payment.Wired() && paymentAccount.db == db && paymentAccount.Wired()
      && generate.db == db && activityLog.db == db
    }

    constructor(db: Db)
      ensures this.db == db && Wired()
    {
      this.db := db;
      payment := new Payments.PaymentRepository(db);
      paymentAccount := new PaymentAccounts.PaymentAccountRepository(db);
      generate := new Generates.GenerateRepository(db);
      activityLog := new ActivityLogs.ActivityLogRepository(db);
    }

    method HandleIncomeOrExpense(userId: nat, p: StorePaymentRequest, f: Faults) returns (res: StepResult)
      requires Wired() && AccountsKeyed(db.accounts)
      modifies db`accounts, db`activityLogs
      ensures var e := IncomeOrExpense(userId, old(db.accounts), p, f);
              res == e.result && db.accounts == e.accounts && db.activityLogs == old(db.activityLogs) + e.entries
    {
      var account := paymentAccount.SelectByID(p.paymentAccountId);
      if account.None? {
        return Fail(ACCOUNT_NOT_FOUND);
      }
      if p.amount.None? {
        return Panic;
      }
      var depositChange := account.value.deposit;
      if p.typeId == EXPENSE {
        if p.amount.value > depositChange {
          return Fail(E01);
        }
        depositChange := Wrap64(depositChange - p.amount.value);
      } else {
        depositChange := Wrap64(depositChange + p.amount.value);
      }
      var updated := paymentAccount.Update(userId, p.paymentAccountId, depositChange, account,
                                           f.originWriteFails, f.auditFails);
      if updated.None? {
        return Fail(UPDATE_FAILED);
      }
      return Done;
    }

    method HandleTransferOrWithdrawal(userId: nat, p: StorePaymentRequest, f: Faults) returns (res: StepResult)
      requires Wired() && AccountsKeyed(db.accounts)
      modifies db`accounts, db`activityLogs
      ensures var e := TransferOrWithdrawal(userId, old(db.accounts), p, f);
              res == e.result && db.accounts == e.accounts && db.activityLogs == old(db.activityLogs) + e.entries
    {
      var origin := paymentAccount.SelectByID(p.paymentAccountId);
      if origin.None? {
        return Fail(ACCOUNT_NOT_FOUND);
      }
      if p.paymentAccountToId.None? {
        return Panic;
      }
      var destination := paymentAccount.SelectByID(p.paymentAccountToId.value);
      if destination.None? {
        return Fail(DESTINATION_NOT_FOUND);
      }
      if p.amount.None? {
        return Panic;
      }
      var balanceOrigin := origin.value.deposit;
      var balanceTo := destination.value.deposit;
      if balanceOrigin < p.amount.value {
        return Fail(E02);
      }
      balanceOrigin := Wrap64(balanceOrigin - p.amount.value);
      balanceTo := Wrap64(balanceTo + p.amount.value);
      ghost var accounts0, logs0 := db.accounts, db.activityLogs;
      var updated := paymentAccount.Update(userId, p.paymentAccountId, balanceOrigin, origin,
                                           f.originWriteFails, f.auditFails);
      if updated.None? {
        return Fail(UPDATE_FAILED);
      }
      ghost var first := WriteDeposit(accounts0, p.paymentAccountId, balanceOrigin);
      assert db.accounts == first;
      assert db.activityLogs == logs0 + AuditOf(userId, first, origin.value, f.auditFails);
      ghost var logs1 := db.activityLogs;
      updated := paymentAccount.Update(userId, p.paymentAccountToId.value, balanceTo, destination,
                                       f.destinationWriteFails, f.auditFails);
      if updated.None? {
        return Fail(DESTINATION_UPDATE_FAILED);
      }
      ghost var second := WriteDeposit(first, p.paymentAccountToId.value, balanceTo);
      assert db.accounts == second;
      assert db.activityLogs == logs1 + AuditOf(userId, second, destination.value, f.auditFails);
      return Done;
    }

    method UpdateBalances(userId: nat, p: StorePaymentRequest, f: Faults) returns (res: StepResult)
      requires Wired() && AccountsKeyed(db.accounts)
      modifies db`accounts, db`activityLogs
      ensures var e := BalanceUpdate(userId, old(db.accounts), p, f);
              res == e.result && db.accounts == e.accounts && db.activityLogs == old(db.activityLogs) + e.entries
    {
      if p.typeId == EXPENSE || p.typeId == INCOME {
        res := HandleIncomeOrExpense(userId, p, f);
      } else if p.typeId == TRANSFER || p.typeId == WITHDRAWAL {
        res := HandleTransferOrWithdrawal(userId, p, f);
      } else {
        res := Done;
      }
    }

    /** createPayment: a committed code from the "payment" counter, the date
        read with the "2006-01-02" layout (the zero date when it does not
        parse), and the insert. */
    method CreatePayment(userId: nat, p: StorePaymentRequest, today: string, rnd: nat, now: int, f: Faults)
      returns (result: Option<Payment>, message: string)
      requires Wired() && db.Valid() && IsDateStamp(today) && rnd < 90000
      modifies db`generates, db`payments, db`nextPaymentId, db`activityLogs
      ensures db.Valid() && db.accounts == old(db.accounts)
      ensures result.None? ==> message == CREATE_FAILED
      ensures result.Some? <==> !f.insertFails && !f.reloadFails
      ensures var row := NewRow(userId, p, PaymentCode(old(db.generates), today, rnd), old(db.nextPaymentId), now);
              (f.insertFails ==> db.payments == old(db.payments) && db.nextPaymentId == old(db.nextPaymentId))
              && (!f.insertFails ==> db.payments == old(db.payments) + [row] && db.nextPaymentId == old(db.nextPaymentId) + 1)
              && (result.Some? ==> result.value == row)
              && db.activityLogs == if result.Some? then old(db.activityLogs) + Logged(PaymentCreatedEntry(userId, row), f.auditFails)
                                    else old(db.activityLogs)
      ensures db.generates == CounterAfter(old(db.generates), today, f.counterSaveFails)
    {
      var code := generate.GetCode(PAYMENT_ALIAS, today, rnd, true, f.counterSaveFails);
      result := payment.Create(userId, PaymentDraft(userId, p, code), now, f.insertFails, f.reloadFails, f.auditFails);
      message := if result.None? then CREATE_FAILED else "";
    }

    /** saveLog: the service's own "Created" entry; a failure is only reported. */
    method SaveLog(userId: nat, result: Payment, auditFails: bool)
      requires Wired()
      modifies db`activityLogs
      ensures db.activityLogs == if auditFails then old(db.activityLogs)
                                 else old(db.activityLogs) + [PaymentCreatedEntry(userId, result)]
    {
      var _ := activityLog.Store(PaymentCreatedEntry(userId, result), auditFails);
    }

    /** The transaction callback of Store with GORM's rollback: on an error
        or a panic the accounts and payments are put back; the counter row,
        the auto-increment value and the audit entries stay. */
    method Transaction(userId: nat, payload: StorePaymentRequest, today: string, rnd: nat, now: int, f: Faults)
      returns (result: Option<Payment>, outcome: StepResult)
      requires Wired() && db.Valid() && IsDateStamp(today) && rnd < 90000
      modifies db`accounts, db`payments, db`nextPaymentId, db`activityLogs, db`generates
      ensures db.Valid()
      ensures db.generates == CounterAfter(old(db.generates), today, f.counterSaveFails)
      ensures outcome.Done? <==> result.Some?
      ensures !outcome.Done? ==> db.accounts == old(db.accounts) && db.payments == old(db.payments)
      ensures f.insertFails || f.reloadFails ==>
                outcome == Fail(CREATE_FAILED) && db.activityLogs == old(db.activityLogs)
      ensures var row := NewRow(userId, payload, PaymentCode(old(db.generates), today, rnd), old(db.nextPaymentId), now);
              var step := LedgerStep(userId, old(db.accounts), payload, f);
              !f.insertFails && !f.reloadFails ==>
                outcome == step.result
                && db.activityLogs == old(db.activityLogs) + Logged(PaymentCreatedEntry(userId, row), f.auditFails) + step.entries
                && (outcome.Done? ==>
                      result == Some(row) && db.accounts == step.accounts && db.payments == old(db.payments) + [row])
    {
      var savedAccounts := db.accounts;
      var savedPayments := db.payments;
      var message;
      result, message := CreatePayment(userId, payload, today, rnd, now, f);
      if result.None? {
        Rollback(savedAccounts, savedPayments);
        return None, Fail(message);
      }
      outcome := Ledger(userId, payload, f);
      if !outcome.Done? {
        Rollback(savedAccounts, savedPayments);
        result := None;
      }
    }

    /** The callback's balance step: updateBalances unless the payment is a
        draft or scheduled. */
    method Ledger(userId: nat, p: StorePaymentRequest, f: Faults) returns (outcome: StepResult)
      requires Wired() && AccountsKeyed(db.accounts)
      modifies db`accounts, db`activityLogs
      ensures AccountsKeyed(db.accounts)
      ensures var e := LedgerStep(userId, old(db.accounts), p, f);
              outcome == e.result && db.accounts == e.accounts && db.activityLogs == old(db.activityLogs) + e.entries
    {
      LedgerStepKeepsKeys(userId, db.accounts, p, f);
      outcome := Done;
      if !(p.isDraft || p.isScheduled) {
        outcome := UpdateBalances(userId, p, f);
      }
    }

    /** GORM's rollback: the accounts and payments tables go back to the
        snapshot taken when the transaction began. */
    method Rollback(accounts: map<nat, PaymentAccount>, payments: seq<Payment>)
      requires AccountsKeyed(accounts) && PaymentIdsBelow(payments, db.nextPaymentId)
      requires GeneratesKeyed(db.generates) && db.nextPaymentId >= 1
      modifies db`accounts, db`payments
      ensures db.Valid() && db.accounts == accounts && db.payments == payments
    {
      db.accounts, db.payments := accounts, payments;
    }

    /** Store: validate, prepare, run the transaction, then log. An error of
        the callback answers 400 with its message, a panic 500. */
    method Store(userId: nat, request: StorePaymentRequest, ruleErrors: Option<Errors>,
                 today: string, rnd: nat, now: int, f: Faults) returns (resp: StoreResponse)
      requires Wired() && db.Valid() && IsDateStamp(today) && rnd < 90000
      modifies db`accounts, db`payments, db`nextPaymentId, db`activityLogs, db`generates
      ensures db.Valid()
      ensures resp.ValidationFailed? <==> ruleErrors.Some? || !DomainValid(request)
      ensures resp.ValidationFailed? ==>
                db.accounts == old(db.accounts) && db.payments == old(db.payments)
                && db.activityLogs == old(db.activityLogs) && db.generates == old(db.generates)
                && db.nextPaymentId == old(db.nextPaymentId)
      ensures !resp.ValidationFailed? ==>
                db.generates == CounterAfter(old(db.generates), today, f.counterSaveFails)
      ensures resp.Failed? ==> db.accounts == old(db.accounts) && db.payments == old(db.payments)
      ensures !resp.ValidationFailed? && (f.insertFails || f.reloadFails) ==>
                resp == Failed(400, CREATE_FAILED) && db.activityLogs == old(db.activityLogs)
      ensures var payload := Prepared(request);
              var step := LedgerStep(userId, old(db.accounts), payload, f);
              var row := NewRow(userId, payload, PaymentCode(old(db.generates), today, rnd), old(db.nextPaymentId), now);
              var created := Logged(PaymentCreatedEntry(userId, row), f.auditFails);
              !resp.ValidationFailed? && !f.insertFails && !f.reloadFails ==>
                (step.result.Done? ==>
                   resp == Succeeded(200, CREATED_MESSAGE, row)
                   && db.accounts == step.accounts && db.payments == old(db.payments) + [row]
                   && db.activityLogs == old(db.activityLogs) + created + step.entries + created)
                && (step.result.Fail? ==> resp == Failed(400, step.result.message))
                && (step.result.Panic? ==> resp == Failed(500, NIL_DEREFERENCE))
                && (!step.result.Done? ==> db.activityLogs == old(db.activityLogs) + created + step.entries)
    {
      var errs := Validate(request, ruleErrors);
      if errs.Some? {
        return ValidationFailed(errs.value);
      }
      var payload := Prepared(request);
      var result, outcome := Transaction(userId, payload, today, rnd, now, f);
      match outcome
      case Fail(message) =>
        return Failed(400, message);
      case Panic =>
        return Failed(500, NIL_DEREFERENCE);
      case Done =>
        SaveLog(userId, result.value, f.auditFails);
        return Succeeded(200, CREATED_MESSAGE, result.value);
    }
  }
}
