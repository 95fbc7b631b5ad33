/** The payment controller's own logic: the listing's page clamps, the
    summary's integer totals and the naming of attachment files. */
module PaymentController {
  import opened Common
  import opened Dates
  import opened Database
  import opened Responses
  import Payments

  const EXPENSE := 1
  const INCOME := 2
  const TRANSFER := 3
  const WITHDRAWAL := 4

  // ---------------------------------------------------------------------
  // Index: the page and per_page query values after strconv.Atoi (which
  // yields 0 for text that is not a number)

  function ClampPage(page: int): (r: int)
    ensures r >= 1
    ensures page >= 1 ==> r == page
  {
    if page < 1 then 1 else page
  }

  function ClampPerPage(perPage: int): (r: int)
    ensures r >= 1
    ensures perPage >= 1 ==> r == perPage
  {
    if perPage < 1 then 10 else perPage
  }

  /** Clamping is idempotent, keeps every valid value (there is no upper
      bound) and sends an unparsable value to the defaults 1 and 10. */
  lemma ClampsNormalise(page: int, perPage: int)
    ensures ClampPage(ClampPage(page)) == ClampPage(page)
    ensures ClampPerPage(ClampPerPage(perPage)) == ClampPerPage(perPage)
    ensures ClampPage(0) == 1 && ClampPerPage(0) == 10
    ensures page < 1 ==> ClampPage(page) == 1
    ensures perPage < 1 ==> ClampPerPage(perPage) == 10
  {
  }

  // ---------------------------------------------------------------------
  // Summary

  /** The period: a non-empty string parameter, otherwise the first or the
      last day of the current month. */
  function FirstOfMonth(today: Date): (d: Date)
    requires ValidDate(today) && 0 <= today.year <= 9999
    ensures ValidDate(d) && d.year == today.year && d.month == today.month && d.day == 1
    ensures !Before(today, d)
  {
    Date(today.year, today.month, 1)
  }

  /** `time.Date(y, m+1, 0, ...)`: day zero of the next month is the last day of this one. */
  function LastOfMonth(today: Date): (d: Date)
    requires ValidDate(today) && 0 <= today.year <= 9999
    ensures ValidDate(d) && d.year == today.year && d.month == today.month
    ensures !ValidDate(d.(day := d.day + 1))
    ensures !Before(d, today)
  {
    Date(today.year, today.month, DaysIn(today.year, today.month))
  }

  function PeriodBound(param: Option<string>, fallback: Date): (s: string)
    requires ValidDate(fallback) && 0 <= fallback.year <= 9999
    ensures param.Some? && param.value != "" ==> s == param.value
    ensures (param.None? || param.value == "") ==> ParseYMD(s) == Some(fallback)
  {
    if param.Some? && param.value != "" then param.value
    else FormatYMDRoundTrip(fallback); FormatYMD(fallback)
  }

  /** The default period of a month: its first and its last day. */
  lemma DefaultPeriod(today: Date)
    requires ValidDate(today) && 0 <= today.year <= 9999
    ensures var start := ParseYMDOrZero(PeriodBound(None, FirstOfMonth(today)));
            var end := ParseYMDOrZero(PeriodBound(None, LastOfMonth(today)));
            start.day == 1 && !Before(today, start) && !Before(end, today)
            && start.month == end.month == today.month
  {
  }

  /** The amount a SQL SUM adds for a row: a NULL amount adds nothing. */
  function AmountOf(p: Payment): int { if p.amount.Some? then p.amount.value else 0 }

  /** `user_id = ? AND date BETWEEN start AND end`, the bounds read as dates. */
  predicate InPeriod(p: Payment, userId: nat, start: Date, end: Date)
  {
    p.userId == userId && !Before(p.date, start) && !Before(end, p.date)
  }

  /** `SUM(CASE WHEN type_id = ? [AND is_scheduled = 1] THEN amount ELSE 0 END)`. */
  function TypeTotal(payments: seq<Payment>, userId: nat, start: Date, end: Date,
                     typeId: nat, scheduledOnly: bool): int
  {
    if payments == [] then 0
    else
      var p := payments[|payments| - 1];
      var counted := InPeriod(p, userId, start, end) && p.typeId == typeId && (!scheduledOnly || p.isScheduled);
      TypeTotal(payments[..|payments| - 1], userId, start, end, typeId, scheduledOnly)
        + (if counted then AmountOf(p) else 0)
  }

  /** With no negative amounts, the scheduled expenses are part of the
      expenses, so they never exceed the expense total. */
  lemma {:induction false} ScheduledWithinExpense(payments: seq<Payment>, userId: nat, start: Date, end: Date)
    requires forall k :: 0 <= k < |payments| ==> AmountOf(payments[k]) >= 0
    ensures 0 <= TypeTotal(payments, userId, start, end, EXPENSE, true)
                <= TypeTotal(payments, userId, start, end, EXPENSE, false)
  {
    if payments != [] {
      ScheduledWithinExpense(payments[..|payments| - 1], userId, start, end);
    }
  }

  /** Payments outside the period, of another user or of another type add nothing. */
  lemma {:induction false} TypeTotalIgnoresOthers(payments: seq<Payment>, userId: nat, start: Date, end: Date,
                                                 typeId: nat, scheduledOnly: bool)
    requires forall k :: 0 <= k < |payments| ==> !InPeriod(payments[k], userId, start, end) || payments[k].typeId != typeId
    ensures TypeTotal(payments, userId, start, end, typeId, scheduledOnly) == 0
  {
    if payments != [] {
      TypeTotalIgnoresOthers(payments[..|payments| - 1], userId, start, end, typeId, scheduledOnly);
    }
  }

  datatype Totals = Totals(income: Int64, expense: Int64, withdrawal: Int64, transfer: Int64, scheduledExpense: Int64)

  datatype SummaryResponse = SummaryResponse(
    totalBalance: Int64, scheduledExpense: Int64, totalAfterScheduled: Int64, initialBalance: Int64,
    income: Int64, expenses: Int64, withdrawal: Int64, transfer: Int64,
    percentsComputed: bool, startDate: string, endDate: string)

  /** The integer part of the summary: the initial balance is income plus
      expenses, the total after scheduled is the account balance minus the
      scheduled expenses (both in int64), and percentages are computed only
      for a positive initial balance. */
  function Summary(t: Totals, totalBalance: Int64, startDate: string, endDate: string): (r: SummaryResponse)
    ensures INT64_MIN <= t.income + t.expense <= INT64_MAX ==> r.initialBalance == t.income + t.expense
    ensures INT64_MIN <= totalBalance - t.scheduledExpense <= INT64_MAX ==>
              r.totalAfterScheduled == totalBalance - t.scheduledExpense
    ensures r.percentsComputed <==> r.initialBalance > 0
    ensures r.income == t.income && r.expenses == t.expense && r.withdrawal == t.withdrawal
            && r.transfer == t.transfer && r.scheduledExpense == t.scheduledExpense && r.totalBalance == totalBalance
    ensures r.startDate == startDate && r.endDate == endDate
  {
    var initial := Wrap64(t.income + t.expense);
    SummaryResponse(totalBalance, t.scheduledExpense, Wrap64(totalBalance - t.scheduledExpense), initial,
                    t.income, t.expense, t.withdrawal, t.transfer, initial > 0, startDate, endDate)
  }

  /** With non-negative sums that fit in int64, what is left after the
      scheduled expenses is at least the balance minus every expense, and no
      income or expense means no percentages. */
  lemma SummaryBounds(t: Totals, totalBalance: Int64, startDate: string, endDate: string)
    requires 0 <= t.scheduledExpense <= t.expense && 0 <= t.income
    requires t.income + t.expense <= INT64_MAX && totalBalance >= 0
    ensures var r := Summary(t, totalBalance, startDate, endDate);
            totalBalance - t.expense <= r.totalAfterScheduled <= totalBalance
            && r.initialBalance >= r.income
            && (t.income == 0 && t.expense == 0 ==> !r.percentsComputed)
  {
  }

  // ---------------------------------------------------------------------
  // GetAttachments: Go's path.Base and path.Ext

  function DropTrailingSlashes(s: string): (r: string)
    ensures |r| <= |s|
  {
    if |s| > 0 && s[|s| - 1] == '/' then DropTrailingSlashes(s[..|s| - 1]) else s
  }

  /** What follows the last '/'. */
  function LastSegment(s: string): (r: string)
    ensures |r| <= |s|
  {
    if s == [] || s[|s| - 1] == '/' then []
    else LastSegment(s[..|s| - 1]) + [s[|s| - 1]]
  }

  /** DropTrailingSlashes keeps a prefix that does not end in '/'. */
  lemma {:induction false} DropTrailingSlashesMeans(s: string)
    ensures var r := DropTrailingSlashes(s); r == s[..|r|] && (r == [] || r[|r| - 1] != '/')
  {
    if |s| > 0 && s[|s| - 1] == '/' {
      DropTrailingSlashesMeans(s[..|s| - 1]);
    }
  }

  /** LastSegment is the longest '/'-free suffix. */
  lemma {:induction false} LastSegmentMeans(s: string)
    ensures var r := LastSegment(s);
            r == s[|s| - |r|..] && (forall k :: 0 <= k < |r| ==> r[k] != '/')
            && (|r| < |s| ==> s[|s| - |r| - 1] == '/')
  {
    if !(s == [] || s[|s| - 1] == '/') {
      var init := s[..|s| - 1];
      LastSegmentMeans(init);
      var t := LastSegment(init);
      var r := t + [s[|s| - 1]];
      assert LastSegment(s) == r;
      SuffixSnoc(s, |t|);
      forall k | 0 <= k < |r| ensures r[k] != '/' {
        if k < |t| {
          assert r[k] == t[k];
        }
      }
      if |r| < |s| {
        assert s[|s| - |r| - 1] == init[|init| - |t| - 1];
      }
    }
  }

  /** The last n + 1 characters are the last n before the final one, then the final one. */
  lemma SuffixSnoc(s: string, n: nat)
    requires n < |s|
    ensures s[|s| - n - 1..] == s[..|s| - 1][|s| - 1 - n..] + [s[|s| - 1]]
  {
  }

  /** path.Base: the last element, "." for the empty path and "/" for a path of slashes. */
  function Base(p: string): string
  {
    if p == "" then "."
    else
      var tail := LastSegment(DropTrailingSlashes(p));
      if tail == "" then "/" else tail
  }

  /** Base is never empty and is "/" or free of slashes. */
  lemma BaseMeans(p: string)
    ensures |Base(p)| >= 1
    ensures Base(p) == "/" || forall k :: 0 <= k < |Base(p)| ==> Base(p)[k] != '/'
  {
    if p != "" {
      LastSegmentMeans(DropTrailingSlashes(p));
    }
  }

  /** path.Ext: the suffix from the last '.' of the final element, or "". */
  function Ext(p: string): (e: string)
    ensures |e| <= |p|
  {
    if p == [] || p[|p| - 1] == '/' then ""
    else if p[|p| - 1] == '.' then "."
    else
      var e := Ext(p[..|p| - 1]);
      if e == "" then "" else e + [p[|p| - 1]]
  }

  /** Ext is a suffix that starts at a '.' and holds no further '.' or '/'. */
  lemma {:induction false} ExtMeans(p: string)
    ensures var e := Ext(p);
            e == p[|p| - |e|..] && (e != "" ==> e[0] == '.')
            && (forall k :: 1 <= k < |e| ==> e[k] != '.' && e[k] != '/')
  {
    if !(p == [] || p[|p| - 1] == '/') && p[|p| - 1] != '.' {
      var init := p[..|p| - 1];
      ExtMeans(init);
      var e := Ext(init);
      if e != "" {
        assert Ext(p) == e + [p[|p| - 1]];
        assert init[|init| - |e|..] + [p[|p| - 1]] == p[|p| - |e| - 1..];
      }
    }
  }

  /** `strings.TrimPrefix(path.Ext(f), ".")`. */
  function Extension(filename: string): string
  {
    var e := Ext(filename);
    if |e| > 0 then e[1..] else e
  }

  /** `strings.TrimSuffix(f, path.Ext(f))`. */
  function NameOnly(filename: string): string
  {
    filename[..|filename| - |Ext(filename)|]
  }

  function MediumName(filename: string): string
  {
    "medium-" + NameOnly(filename) + "." + Extension(filename)
  }

  /** The medium file name is the original file name behind "medium-"; a file
      without an extension gets a trailing dot. */
  lemma MediumNameOfFile(filename: string)
    ensures Ext(filename) != "" ==> MediumName(filename) == "medium-" + filename
    ensures Ext(filename) == "" ==> MediumName(filename) == "medium-" + filename + "."
  {
    var e := Ext(filename);
    var name, ext := NameOnly(filename), Extension(filename);
    assert MediumName(filename) == "medium-" + name + "." + ext;
    if e != "" {
      NameAndExtension(filename, e, |filename| - |e|);
      Regroup("medium-", name, ext, filename);
    } else {
      assert name == filename && ext == "";
    }
  }

  lemma Regroup(prefix: string, name: string, ext: string, whole: string)
    requires name + "." + ext == whole
    ensures prefix + name + "." + ext == prefix + whole
  {
    assert prefix + name + "." + ext == prefix + (name + "." + ext);
  }

  lemma NameAndExtension(filename: string, e: string, n: int)
    requires e == Ext(filename) && e != "" && n == |filename| - |e|
    ensures NameOnly(filename) + "." + Extension(filename) == filename
  {
    ExtMeans(filename);
    var name := filename[..n];
    var rest := e[1..];
    assert NameOnly(filename) == name;
    assert Extension(filename) == rest;
    assert e == filename[n..] && e[0] == '.';
    JoinAtDot(filename, n, name, rest);
  }

  /** Splitting a text at a '.' and joining it back around that '.'. */
  lemma JoinAtDot(s: string, n: nat, name: string, rest: string)
    requires n < |s| && s[n] == '.' && name == s[..n] && rest == s[n + 1..]
    ensures name + "." + rest == s
  {
    assert |name + "." + rest| == |s|;
    forall k | 0 <= k < |s| ensures (name + "." + rest)[k] == s[k] {
      if k < n {
      } else if k == n {
      } else {
        assert (name + "." + rest)[k] == rest[k - n - 1];
      }
    }
  }

  /** A bare file name (no '/') is its own base, so only the extension is split off. */
  lemma {:induction false} BaseOfFileName(name: string)
    requires name != "" && forall k :: 0 <= k < |name| ==> name[k] != '/'
    ensures Base(name) == name
  {
    LastSegmentOfPlain(name);
  }

  lemma {:induction false} LastSegmentOfPlain(s: string)
    requires forall k :: 0 <= k < |s| ==> s[k] != '/'
    ensures DropTrailingSlashes(s) == s && LastSegment(s) == s
  {
    if s != [] {
      LastSegmentOfPlain(s[..|s| - 1]);
    }
  }

  const ATTACHMENT_DIR := "images/payment/"
  const ATTACHMENTS_FOUND := "Attachments found"
  const NO_ATTACHMENTS := "No attachments found"

  datatype OriginalAttachment = OriginalAttachment(url: string, formattedSize: string)

  datatype AttachmentResponse = AttachmentResponse(
    id: int, url: string, filepath: string, filename: string, extension: string,
    formattedSize: string, original: OriginalAttachment)

  /** The entry for the attachment at position i. */
  function AttachmentAt(i: nat, attachment: string, cdnUrl: string): AttachmentResponse
  {
    var filename := Base(attachment);
    var mediumName := MediumName(filename);
    var mediumPath := ATTACHMENT_DIR + mediumName;
    var originalPath := ATTACHMENT_DIR + filename;
    AttachmentResponse(i + 1, cdnUrl + "/" + mediumPath, mediumPath, mediumName, Extension(filename), "0 KB",
                       OriginalAttachment(cdnUrl + "/" + originalPath, "0 KB"))
  }

  /** Entries are numbered from 1; the listed file is the medium copy of the
      stored file's base name, under the attachment directory of the CDN, and
      the original entry points at the stored file itself. */
  lemma AttachmentFields(i: nat, attachment: string, cdnUrl: string)
    ensures var a := AttachmentAt(i, attachment, cdnUrl);
            a.id == i + 1
            && a.filename == MediumName(Base(attachment)) && a.extension == Extension(Base(attachment))
            && a.filepath == ATTACHMENT_DIR + a.filename && a.url == cdnUrl + "/" + a.filepath
            && a.original.url == cdnUrl + "/" + ATTACHMENT_DIR + Base(attachment)
  {
  }

  /** The stored column decoded as `[]string`: empty or undecodable gives no paths. */
  function DecodedAttachments(a: Attachments): (r: seq<string>)
    ensures a.Paths? ==> r == a.paths
    ensures !a.Paths? ==> r == []
  {
    match a
    case Paths(ps) => ps
    case _ => []
  }

  /** `First(&payment, id)`: the row with that primary key. */
  function FindByID(payments: seq<Payment>, id: int): (r: Option<Payment>)
    ensures r.Some? ==> r.value in payments && r.value.id == id
    ensures r.None? ==> forall k :: 0 <= k < |payments| ==> payments[k].id != id
  {
    if payments == [] then None
    else if payments[0].id == id then Some(payments[0])
    else FindByID(payments[1..], id)
  }

  /** The loop of GetAttachments: one entry per path, numbered from 1. */
  method AttachmentEntries(attachments: seq<string>, cdnUrl: string) returns (responseData: seq<AttachmentResponse>)
    ensures |responseData| == |attachments|
    ensures forall k :: 0 <= k < |attachments| ==> responseData[k] == AttachmentAt(k, attachments[k], cdnUrl)
  {
    responseData := [];
    var i := 0;
    while i < |attachments|
      invariant 0 <= i <= |attachments| && |responseData| == i
      invariant forall k :: 0 <= k < i ==> responseData[k] == AttachmentAt(k, attachments[k], cdnUrl)
    {
      var entry := AttachmentAt(i, attachments[i], cdnUrl);
      ghost var before := responseData;
      responseData := responseData + [entry];
      assert forall k :: 0 <= k < i ==> responseData[k] == before[k];
      i := i + 1;
    }
  }

  class PaymentController {
    const repo: Payments.PaymentRepository
    /** config.CdnUrl */
    const cdnUrl: string

    constructor(repo: Payments.PaymentRepository, cdnUrl: string)
      ensures this.repo == repo && this.cdnUrl == cdnUrl
    {
      this.repo := repo;
      this.cdnUrl := cdnUrl;
    }

    /** GetAttachments: 400 for an id that is not a number, 404 for an
        unknown payment, otherwise one entry per stored path, in order. */
    method GetAttachments(id: Option<int>) returns (r: Envelope<seq<AttachmentResponse>>)
      ensures id.None? ==> r == ErrorResponse(400, "Invalid payment ID")
      ensures id.Some? && FindByID(repo.db.payments, id.value).None? ==> r == ErrorResponse(404, "Payment not found")
      ensures id.Some? && FindByID(repo.db.payments, id.value).Some? ==>
                var paths := DecodedAttachments(FindByID(repo.db.payments, id.value).value.attachments);
                r.status == 200 && r.success && r.data.Some?
                && |r.data.value| == |paths|
                && (forall k :: 0 <= k < |paths| ==> r.data.value[k] == AttachmentAt(k, paths[k], cdnUrl))
                && r.message == (if |paths| > 0 then ATTACHMENTS_FOUND else NO_ATTACHMENTS)
    {
      if id.None? {
        return ErrorResponse(400, "Invalid payment ID");
      }
      var payments := repo.db.payments;
      var payment := FindByID(payments, id.value);
      if payment.None? {
        return ErrorResponse(404, "Payment not found");
      }
      var attachments := DecodedAttachments(payment.value.attachments);
      var responseData := AttachmentEntries(attachments, cdnUrl);
      var message := NO_ATTACHMENTS;
      if |responseData| > 0 {
        message := ATTACHMENTS_FOUND;
      }
      r := SuccessResponse(message, Some(responseData));
    }
  }
}
