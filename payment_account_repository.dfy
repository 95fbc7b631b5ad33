/** The payment-account repository: reads by id with a column projection, a
    paginated listing per user, and the deposit write with its audit entry.
    The audit entry goes through the repository's own activity-log repository,
    not through the transaction. */
module PaymentAccounts {
  import opened Common
  import opened Database
  import opened Paging
  import opened ActivityLogs

  /** `Select("id", "user_id", "name", "deposit")`: the other columns read as zero values. */
  function Projection(a: PaymentAccount): (r: PaymentAccount)
    ensures r.id == a.id && r.userId == a.userId && r.name == a.name && r.deposit == a.deposit
    ensures r.logo == ""
  {
    a.(logo := "")
  }

  /** afterUpdate's difference: the deposit before minus the deposit after,
      in int64 arithmetic. */
  function Difference(before: PaymentAccount, after: PaymentAccount): (d: Int64)
    ensures INT64_MIN <= before.deposit - after.deposit <= INT64_MAX ==> d == before.deposit - after.deposit
  {
    Wrap64(before.deposit - after.deposit)
  }

  /** `PaymentAccountLogProperties` as marshalled: id, name, deposit and the
      difference; the user id and the logo are not written. */
  function Props(a: PaymentAccount, difference: Int64): LogProperties
  {
    AccountProperties(a.id, a.name, a.deposit, Some(difference))
  }

  const ACCOUNT_MODEL := "App\\Models\\PaymentAccount"
  const ACCOUNT_UPDATED := "Payment Account Updated by Nova Ardiansyah (Hardcode)"
  const UPDATED_EVENT := "Updated"

  /** The "Updated" audit entry: subject the account read back, causer the
      acting user, the same difference in both property documents. */
  function UpdatedEntry(userId: nat, before: PaymentAccount, after: PaymentAccount): ActivityLog
  {
    var d := Difference(before, after);
    ActivityLog(RESOURCE_LOG, ACCOUNT_UPDATED, Some(after.id), Some(ACCOUNT_MODEL), UPDATED_EVENT, userId, USER_MODEL,
                Some(Props(before, d)), Some(Props(after, d)))
  }

  /** The entry is an "Updated" event on the account, caused by the user.
      Each property document names the account (id, name) and its deposit,
      before and after, with the same difference on both sides; there is no
      user id in them. */
  lemma UpdatedEntryFields(userId: nat, before: PaymentAccount, after: PaymentAccount)
    ensures var e := UpdatedEntry(userId, before, after);
            e.event == "Updated" && e.logName == "Resource"
            && e.subjectId == Some(after.id) && e.subjectType == Some("App\\Models\\PaymentAccount")
            && e.causerId == userId && e.causerType == "App\\Models\\User"
            && e.prevProperties.Some? && e.prevProperties.value.AccountProperties?
            && e.properties.Some? && e.properties.value.AccountProperties?
            && e.prevProperties.value.deposit == before.deposit && e.properties.value.deposit == after.deposit
            && e.prevProperties.value.difference == e.properties.value.difference == Some(Difference(before, after))
            && e.prevProperties.value.id == before.id && e.prevProperties.value.name == before.name
            && e.properties.value.id == after.id && e.properties.value.name == after.name
  {
  }

  /** The user's accounts in the order the table returns them. */
  function UserAccounts(accounts: map<nat, PaymentAccount>, order: seq<nat>, userId: nat): (r: seq<PaymentAccount>)
    ensures forall k :: 0 <= k < |r| ==> r[k].userId == userId && r[k] in accounts.Values
    ensures |r| <= |order|
  {
    if order == [] then []
    else
      var rest := UserAccounts(accounts, order[1..], userId);
      var id := order[0];
      if id in accounts && accounts[id].userId == userId then [accounts[id]] + rest else rest
  }

  /** When the order lists every id, every account of the user is listed,
      and nothing else is. */
  lemma {:induction false} UserAccountsComplete(accounts: map<nat, PaymentAccount>, order: seq<nat>, userId: nat, a: PaymentAccount)
    ensures a in UserAccounts(accounts, order, userId) <==>
            a.userId == userId && exists k :: 0 <= k < |order| && order[k] in accounts && accounts[order[k]] == a
  {
    if order != [] {
      UserAccountsComplete(accounts, order[1..], userId, a);
      if exists k :: 0 <= k < |order| && order[k] in accounts && accounts[order[k]] == a {
        var k :| 0 <= k < |order| && order[k] in accounts && accounts[order[k]] == a;
        if k > 0 { assert order[1..][k - 1] == order[k]; }
      }
      if exists k :: 0 <= k < |order[1..]| && order[1..][k] in accounts && accounts[order[1..][k]] == a {
        var k :| 0 <= k < |order[1..]| && order[1..][k] in accounts && accounts[order[1..][k]] == a;
        assert order[k + 1] == order[1..][k];
      }
    }
  }

  class PaymentAccountRepository {
    const db: Db
    const activityLogRepository: ActivityLogRepository

    /** The audit log is written through a repository on the same database. */
    predicate Wired() { activityLogRepository.db == db }

    constructor(db: Db)
      ensures this.db == db && Wired()
    {
      this.db := db;
      activityLogRepository := new ActivityLogRepository(db);
    }

    /** SelectByID with the id/user_id/name/deposit projection. */
    method SelectByID(id: nat) returns (r: Option<PaymentAccount>)
      ensures r.Some? <==> id in db.accounts
      ensures r.Some? ==> r.value == Projection(db.accounts[id])
    {
      if id in db.accounts {
        r := Some(Projection(db.accounts[id]));
      } else {
        r := None;
      }
    }

    /** FindAllPaginated: the user's accounts, `limit` at a time from offset (page-1)*limit. */
    method FindAllPaginated(userId: nat, page: int, limit: int, order: seq<nat>) returns (rows: seq<PaymentAccount>)
      requires page >= 1 && limit >= 1
      ensures rows == Page(UserAccounts(db.accounts, order, userId), page, limit)
      ensures |rows| <= limit
      ensures forall k :: 0 <= k < |rows| ==> rows[k].userId == userId
    {
      var all := UserAccounts(db.accounts, order, userId);
      rows := Page(all, page, limit);
      PageWithin(all, page, limit);
      forall k | 0 <= k < |rows| ensures rows[k].userId == userId {
        assert rows[k] in all;
      }
    }

    /** beforeUpdate: the supplied snapshot unchanged, or else a projected read. */
    method BeforeUpdate(id: nat, prev: Option<PaymentAccount>) returns (before: Option<PaymentAccount>)
      ensures prev.Some? ==> before == prev
      ensures prev.None? && id in db.accounts ==> before == Some(Projection(db.accounts[id]))
      ensures prev.None? && id !in db.accounts ==> before.None?
    {
      if prev.Some? {
        before := prev;
      } else {
        before := SelectByID(id);
      }
    }

    /** afterUpdate: re-read the account and log the change; a failed read or
        a failed audit write is reported but changes nothing. */
    method AfterUpdate(userId: nat, before: PaymentAccount, auditFails: bool) returns (ok: bool)
      requires Wired()
      modifies db`activityLogs
      ensures ok == (before.id in db.accounts && !auditFails)
      ensures db.activityLogs ==
                if ok then old(db.activityLogs) + [UpdatedEntry(userId, before, Projection(db.accounts[before.id]))]
                else old(db.activityLogs)
    {
      var after := SelectByID(before.id);
      if after.None? {
        return false;
      }
      ok := activityLogRepository.Store(UpdatedEntry(userId, before, after.value), auditFails);
    }

    /** Update: write the new deposit of account `id`, then log the change
        against the snapshot. The snapshot is dereferenced after the write, so
        a missing account with no snapshot supplied is excluded by the
        precondition unless the write itself fails. The audit outcome is
        discarded. */
    method Update(userId: nat, id: nat, deposit: Int64, prev: Option<PaymentAccount>,
                  writeFails: bool, auditFails: bool) returns (r: Option<PaymentAccount>)
      requires Wired()
      requires prev.Some? || id in db.accounts || writeFails
      modifies db`accounts, db`activityLogs
      ensures r.Some? <==> !writeFails
      ensures r.Some? ==> r.value == PaymentAccount(id, 0, "", deposit, "")
      ensures db.accounts == if writeFails || id !in old(db.accounts) then old(db.accounts)
                             else old(db.accounts)[id := old(db.accounts)[id].(deposit := deposit)]
      ensures writeFails ==> db.activityLogs == old(db.activityLogs)
      ensures !writeFails ==>
                var before := if prev.Some? then prev.value else Projection(old(db.accounts)[id]);
                db.activityLogs ==
                  if auditFails || before.id !in db.accounts then old(db.activityLogs)
                  else old(db.activityLogs) + [UpdatedEntry(userId, before, Projection(db.accounts[before.id]))]
    {
      var before := BeforeUpdate(id, prev);
      if writeFails {
        return None;
      }
      if id in db.accounts {
        db.accounts := db.accounts[id := db.accounts[id].(deposit := deposit)];
      }
      var _ := AfterUpdate(userId, before.value, auditFails);
      r := Some(PaymentAccount(id, 0, "", deposit, ""));
    }
  }
}
