/** The payment repository: one conjunctive filter shared by the paginated
    listing and the count, and the insert with its "Created" audit entry. */
module Payments {
  import opened Common
  import opened Dates
  import opened Database
  import opened Paging
  import ActivityLogs

  /** The query filter; an empty string or a value of zero means "any". */
  datatype PaymentFilter = PaymentFilter(
    dateFrom: string, dateTo: string, typeId: int, accountId: int, search: string, userId: nat)

  const NoFilter: PaymentFilter := PaymentFilter("", "", 0, 0, "", 0)

  /** The WHERE clauses both queries build. The date bounds compare against
      the bound read as a "2006-01-02" date; the name search is a substring
      test, and a NULL name matches no search. */
  predicate MatchesFilter(p: Payment, f: PaymentFilter)
  {
    (f.dateFrom != "" ==> !Before(p.date, ParseYMDOrZero(f.dateFrom)))
    && (f.dateTo != "" ==> !Before(ParseYMDOrZero(f.dateTo), p.date))
    && (f.typeId > 0 ==> p.typeId == f.typeId)
    && (f.accountId > 0 ==> p.paymentAccountId == f.accountId)
    && (f.search != "" ==> p.name.Some? && Contains(p.name.value, f.search))
    && (f.userId > 0 ==> p.userId == f.userId)
  }

  /** The rows the filter selects, in table order. */
  function Matching(payments: seq<Payment>, f: PaymentFilter): (r: seq<Payment>)
    ensures |r| <= |payments|
    ensures forall k :: 0 <= k < |r| ==> r[k] in payments && MatchesFilter(r[k], f)
  {
    if payments == [] then []
    else
      var rest := Matching(payments[1..], f);
      if MatchesFilter(payments[0], f) then [payments[0]] + rest else rest
  }

  /** A row is selected exactly when it is in the table and passes the filter. */
  lemma {:induction false} MatchingMembership(payments: seq<Payment>, f: PaymentFilter, p: Payment)
    ensures p in Matching(payments, f) <==> p in payments && MatchesFilter(p, f)
  {
    if payments != [] {
      MatchingMembership(payments[1..], f, p);
      assert payments == [payments[0]] + payments[1..];
    }
  }

  /** A filter with every field zero or empty selects the whole table. */
  lemma {:induction false} NoFilterSelectsAll(payments: seq<Payment>)
    ensures Matching(payments, NoFilter) == payments
  {
    if payments != [] {
      NoFilterSelectsAll(payments[1..]);
      assert MatchesFilter(payments[0], NoFilter);
      assert payments == [payments[0]] + payments[1..];
    }
  }

  // ---------------------------------------------------------------------
  // ORDER BY updated_at DESC

  predicate SortedByUpdatedDesc(s: seq<Payment>)
  {
    forall i, j :: 0 <= i < j < |s| ==> s[i].updatedAt >= s[j].updatedAt
  }

  function InsertByUpdated(p: Payment, s: seq<Payment>): (r: seq<Payment>)
    ensures |r| == |s| + 1
  {
    if s == [] || p.updatedAt >= s[0].updatedAt then [p] + s
    else [s[0]] + InsertByUpdated(p, s[1..])
  }

  /** Inserting into a sorted listing keeps it sorted and adds exactly the row. */
  lemma {:induction false} InsertKeepsSorted(p: Payment, s: seq<Payment>)
    requires SortedByUpdatedDesc(s)
    ensures var r := InsertByUpdated(p, s);
            r[0] == (if s == [] || p.updatedAt >= s[0].updatedAt then p else s[0])
            && SortedByUpdatedDesc(r) && multiset(r) == multiset(s) + multiset{p}
  {
    if s == [] || p.updatedAt >= s[0].updatedAt {
      SortedCons(p, s);
    } else {
      SortedTail(s);
      InsertKeepsSorted(p, s[1..]);
      var rest := InsertByUpdated(p, s[1..]);
      assert |s| > 1 ==> s[0].updatedAt >= s[1].updatedAt;
      SortedCons(s[0], rest);
      assert s == [s[0]] + s[1..];
      assert multiset([s[0]] + rest) == multiset{s[0]} + multiset(rest);
    }
  }

  /** A row no older than the head of a sorted listing can go in front of it. */
  lemma SortedCons(x: Payment, rest: seq<Payment>)
    requires SortedByUpdatedDesc(rest) && (rest == [] || rest[0].updatedAt <= x.updatedAt)
    ensures SortedByUpdatedDesc([x] + rest)
  {
    var r := [x] + rest;
    forall i, j | 0 <= i < j < |r| ensures r[i].updatedAt >= r[j].updatedAt {
      assert r[j] == rest[j - 1];
      if i > 0 {
        assert r[i] == rest[i - 1];
      } else if j > 1 {
        assert rest[0].updatedAt >= rest[j - 1].updatedAt;
      }
    }
  }

  /** The listing order: most recently updated first. Rows with the same
      `updated_at` keep table order here; that is one fixed choice, since SQL
      leaves the order among ties unspecified, and only the sortedness and the
      permutation are promised. */
  function SortByUpdatedDesc(s: seq<Payment>): (r: seq<Payment>)
    ensures SortedByUpdatedDesc(r)
    ensures multiset(r) == multiset(s)
  {
    if s == [] then []
    else
      var sortedTail := SortByUpdatedDesc(s[1..]);
      InsertKeepsSorted(s[0], sortedTail);
      assert s == [s[0]] + s[1..];
      InsertByUpdated(s[0], sortedTail)
  }

  lemma SortedTail(s: seq<Payment>)
    requires SortedByUpdatedDesc(s) && s != []
    ensures SortedByUpdatedDesc(s[1..])
  {
    var t := s[1..];
    forall i, j | 0 <= i < j < |t| ensures t[i].updatedAt >= t[j].updatedAt {
      assert t[i] == s[i + 1] && t[j] == s[j + 1];
    }
  }

  /** A contiguous part of a sorted listing is sorted. */
  lemma SortedSlice(s: seq<Payment>, lo: int, hi: int)
    requires SortedByUpdatedDesc(s) && 0 <= lo <= hi <= |s|
    ensures SortedByUpdatedDesc(s[lo..hi])
  {
    var t := s[lo..hi];
    forall i, j | 0 <= i < j < |t| ensures t[i].updatedAt >= t[j].updatedAt {
      assert t[i] == s[lo + i] && t[j] == s[lo + j];
    }
  }

  /** A page of the listing holds filtered rows of the table, newest first. */
  lemma SortedPage(payments: seq<Payment>, f: PaymentFilter, page: int, limit: int)
    requires page >= 1 && limit >= 1
    ensures var rows := Page(SortByUpdatedDesc(Matching(payments, f)), page, limit);
            SortedByUpdatedDesc(rows)
            && forall k :: 0 <= k < |rows| ==> rows[k] in payments && MatchesFilter(rows[k], f)
  {
    var matching := Matching(payments, f);
    var sorted := SortByUpdatedDesc(matching);
    var rows := Page(sorted, page, limit);
    PageOfSorted(sorted, page, limit);
    PageOfPermutation(sorted, matching, page, limit);
  }

  lemma PageOfSorted(sorted: seq<Payment>, page: int, limit: int)
    requires page >= 1 && limit >= 1 && SortedByUpdatedDesc(sorted)
    ensures SortedByUpdatedDesc(Page(sorted, page, limit))
  {
    var off := Offset(page, limit);
    if off >= |sorted| {
      assert Page(sorted, page, limit) == [];
    } else if off + limit <= |sorted| {
      SortedSlice(sorted, off, off + limit);
      assert Page(sorted, page, limit) == sorted[off..off + limit];
    } else {
      SortedSlice(sorted, off, |sorted|);
      assert Page(sorted, page, limit) == sorted[off..|sorted|];
    }
  }

  /** Every row on a page of a reordering of s is a row of s. */
  lemma PageOfPermutation<T>(sorted: seq<T>, s: seq<T>, page: int, limit: int)
    requires page >= 1 && limit >= 1 && multiset(sorted) == multiset(s)
    ensures forall k :: 0 <= k < |Page(sorted, page, limit)| ==> Page(sorted, page, limit)[k] in s
  {
    var r := Page(sorted, page, limit);
    PageWithin(sorted, page, limit);
    forall k | 0 <= k < |r| ensures r[k] in s {
      assert r[k] in sorted;
      assert r[k] in multiset(sorted);
    }
  }

  class PaymentRepository {
    const db: Db
    const activityLogRepository: ActivityLogs.ActivityLogRepository

    predicate Wired() { activityLogRepository.db == db }

    constructor(db: Db)
      ensures this.db == db && Wired()
    {
      this.db := db;
      activityLogRepository := new ActivityLogs.ActivityLogRepository(db);
    }

    /** Count: how many payments pass the filter. */
    method Count(f: PaymentFilter) returns (count: nat)
      ensures count == |Matching(db.payments, f)|
      ensures count <= |db.payments|
      ensures f == NoFilter ==> count == |db.payments|
    {
      if f == NoFilter {
        NoFilterSelectsAll(db.payments);
      }
      count := |Matching(db.payments, f)|;
    }

    /** FindAllPaginated: the filtered payments, newest update first, one page. */
    method FindAllPaginated(page: int, limit: int, f: PaymentFilter) returns (rows: seq<Payment>)
      requires page >= 1 && limit >= 1
      ensures rows == Page(SortByUpdatedDesc(Matching(db.payments, f)), page, limit)
      ensures |rows| <= limit
      ensures forall k :: 0 <= k < |rows| ==> rows[k] in db.payments && MatchesFilter(rows[k], f)
      ensures SortedByUpdatedDesc(rows)
    {
      rows := Page(SortByUpdatedDesc(Matching(db.payments, f)), page, limit);
      SortedPage(db.payments, f, page, limit);
    }

    /** Create: insert with the next id and the current time, reload, and log
        "Created" through the repository's own handle. A failed insert changes
        nothing; a failed reload leaves the inserted row in place for the
        caller's transaction to discard, and writes no audit entry. */
    method Create(userId: nat, payment: Payment, now: int,
                  insertFails: bool, reloadFails: bool, auditFails: bool) returns (r: Option<Payment>)
      requires Wired() && db.Valid()
      modifies db`payments, db`nextPaymentId, db`activityLogs
      ensures db.Valid()
      ensures r.Some? <==> !insertFails && !reloadFails
      ensures insertFails ==> db.payments == old(db.payments) && db.nextPaymentId == old(db.nextPaymentId)
      ensures !insertFails ==>
                var stored := payment.(id := old(db.nextPaymentId), createdAt := now, updatedAt := now);
                db.payments == old(db.payments) + [stored]
                && db.nextPaymentId == old(db.nextPaymentId) + 1
                && (r.Some? ==> r.value == stored)
      ensures db.activityLogs ==
                if r.Some? && !auditFails then old(db.activityLogs) + [PaymentCreatedEntry(userId, r.value)]
                else old(db.activityLogs)
    {
      if insertFails {
        return None;
      }
      var stored := payment.(id := db.nextPaymentId, createdAt := now, updatedAt := now);
      PaymentIdsAppend(db.payments, db.nextPaymentId, stored);
      db.payments := db.payments + [stored];
      db.nextPaymentId := db.nextPaymentId + 1;
      if reloadFails {
        return None;
      }
      r := Some(stored);
      AfterCreate(userId, stored, auditFails);
    }

    /** afterCreate: the audit entry; a failure is only reported. */
    method AfterCreate(userId: nat, p: Payment, auditFails: bool)
      requires Wired()
      modifies db`activityLogs
      ensures db.activityLogs == if auditFails then old(db.activityLogs)
                                 else old(db.activityLogs) + [PaymentCreatedEntry(userId, p)]
    {
      var _ := activityLogRepository.Store(PaymentCreatedEntry(userId, p), auditFails);
    }
  }
}
