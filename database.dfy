/** The tables the payment ledger works on, with GORM's handles reduced to
    direct field access: payment accounts keyed by id, payments in insertion
    order, the append-only activity log and the per-alias code counters. */
module Database {
  import opened Common
  import opened Dates

  datatype PaymentAccount = PaymentAccount(
    id: nat, userId: nat, name: string, deposit: Int64, logo: string)

  /** The raw JSON column `payments.attachments`: absent or empty, a JSON array
      of paths, or text that does not decode as an array of strings. */
  datatype Attachments = NoAttachments | Paths(paths: seq<string>) | Malformed

  datatype Payment = Payment(
    id: nat,
    userId: nat,
    code: string,
    name: Option<string>,
    date: Date,
    amount: Option<Int64>,
    hasItems: bool,
    isScheduled: bool,
    isDraft: bool,
    attachments: Attachments,
    typeId: nat,
    paymentAccountId: nat,
    paymentAccountToId: Option<nat>,
    createdAt: int,
    updatedAt: int)

  /** The JSON documents kept in `prev_properties` / `properties`. The
      account document has no user id and no logo: both are `json:"-"`. */
  datatype LogProperties =
    | AccountProperties(id: nat, name: string, deposit: Int64, difference: Option<Int64>)
    | PaymentProperties(
        paymentId: nat, ownerId: nat, code: string, paymentName: Option<string>, date: Date,
        amount: Option<Int64>, hasItems: bool, isScheduled: bool, isDraft: bool,
        typeId: nat, paymentAccountId: nat, paymentAccountToId: Option<nat>)

  datatype ActivityLog = ActivityLog(
    logName: string,
    description: string,
    subjectId: Option<nat>,
    subjectType: Option<string>,
    event: string,
    causerId: nat,
    causerType: string,
    prevProperties: Option<LogProperties>,
    properties: Option<LogProperties>)

  /** A row of the code-generator table. */
  datatype Generate = Generate(
    alias: string, queue: int, separator: string, prefix: Option<string>, suffix: Option<string>)

  /** The payment fields copied into an audit entry (the attachments and the
      timestamps are not among them). */
  function PaymentLogProps(p: Payment): (r: LogProperties)
    ensures r.PaymentProperties? && r.paymentId == p.id && r.code == p.code && r.amount == p.amount
  {
    PaymentProperties(p.id, p.userId, p.code, p.name, p.date, p.amount, p.hasItems,
                      p.isScheduled, p.isDraft, p.typeId, p.paymentAccountId, p.paymentAccountToId)
  }

  /** The fixed texts of the audit entries. */
  const RESOURCE_LOG := "Resource"
  const USER_MODEL := "App\\Models\\User"
  const PAYMENT_MODEL := "App\\Models\\Payment"
  const PAYMENT_CREATED := "Payment Created by Nova Ardiansyah (Hardcode)"
  const CREATED_EVENT := "Created"

  /** The "Created" entry written for a new payment, both by the repository's
      afterCreate hook and by the service's saveLog. */
  function PaymentCreatedEntry(userId: nat, p: Payment): ActivityLog
  {
    ActivityLog(RESOURCE_LOG, PAYMENT_CREATED, Some(p.id), Some(PAYMENT_MODEL), CREATED_EVENT, userId, USER_MODEL,
                None, Some(PaymentLogProps(p)))
  }

  /** The entry is a "Created" event on the payment, caused by the user, with
      the payment's properties and no previous ones. */
  lemma PaymentCreatedEntryFields(userId: nat, p: Payment)
    ensures var e := PaymentCreatedEntry(userId, p);
            e.event == "Created" && e.subjectId == Some(p.id) && e.causerId == userId
            && e.prevProperties.None? && e.properties == Some(PaymentLogProps(p))
  {
  }

  /** Every payment id is distinct and below the next auto-increment value. */
  predicate PaymentIdsBelow(payments: seq<Payment>, next: nat)
  {
    (forall i :: 0 <= i < |payments| ==> 1 <= payments[i].id < next)
    && (forall i, j :: 0 <= i < j < |payments| ==> payments[i].id != payments[j].id)
  }

  /** Appending a row under the next id keeps the ids distinct and below the new next id. */
  lemma PaymentIdsAppend(payments: seq<Payment>, next: nat, stored: Payment)
    requires PaymentIdsBelow(payments, next) && stored.id == next && next >= 1
    ensures PaymentIdsBelow(payments + [stored], next + 1)
  {
    var s := payments + [stored];
    forall i | 0 <= i < |s| ensures 1 <= s[i].id < next + 1 {
      if i < |payments| { assert s[i] == payments[i]; }
    }
    forall i, j | 0 <= i < j < |s| ensures s[i].id != s[j].id {
      assert s[i] == payments[i];
      if j < |payments| { assert s[j] == payments[j]; }
    }
  }

  /** Every account is stored under its own id. */
  predicate AccountsKeyed(accounts: map<nat, PaymentAccount>)
  {
    forall id :: id in accounts ==> accounts[id].id == id
  }

  /** Every counter row is stored under its own alias. */
  predicate GeneratesKeyed(generates: map<string, Generate>)
  {
    forall a :: a in generates ==> generates[a].alias == a
  }

  class Db {
    var accounts: map<nat, PaymentAccount>
    var payments: seq<Payment>
    var activityLogs: seq<ActivityLog>
    var generates: map<string, Generate>
    /** The payments table's auto-increment counter; a rollback does not rewind it. */
    var nextPaymentId: nat

    predicate Valid()
      reads this
    {
      AccountsKeyed(accounts) && GeneratesKeyed(generates)
      && PaymentIdsBelow(payments, nextPaymentId) && nextPaymentId >= 1
    }

    constructor(accounts: map<nat, PaymentAccount>, generates: map<string, Generate>)
      requires AccountsKeyed(accounts) && GeneratesKeyed(generates)
      ensures Valid()
      ensures this.accounts == accounts && this.generates == generates
      ensures payments == [] && activityLogs == [] && nextPaymentId == 1
    {
      this.accounts := accounts;
      this.generates := generates;
      payments := [];
      activityLogs := [];
      nextPaymentId := 1;
    }
  }
}
