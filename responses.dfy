/** The JSON envelopes every handler answers with, and the pagination
    metadata, whose last page is the ceiling of total / limit computed with
    Go's truncating integer division. */
module Responses {
  import opened Common
  import opened Paging

  const STATUS_OK := 200
  const STATUS_CREATED := 201

  /** `Response`: `data` is omitted from the JSON when it is nil. */
  datatype Envelope<T> = Envelope(status: int, success: bool, message: string, data: Option<T>)

  datatype Meta = Meta(currentPage: int, perPage: int, total: Int64, lastPage: Int64)

  /** `PaginatedResponse`: `data` is always present. */
  datatype PaginatedEnvelope<T> = PaginatedEnvelope(
    status: int, success: bool, message: string, data: T, meta: Meta)

  // ---------------------------------------------------------------------
  // Go's integer division, which truncates toward zero

  function Abs(a: int): nat { if a < 0 then -a else a }

  /** Go's `/`: the quotient of the magnitudes, negated when the signs differ. */
  function GoQuot(a: int, b: int): int
    requires b != 0
  {
    var m := Abs(a) / Abs(b);
    if (a < 0) != (b < 0) then -m else m
  }

  /** Go's `%`: what the truncated quotient leaves over, with the sign of `a`. */
  function GoRem(a: int, b: int): int
    requires b != 0
  {
    a - b * GoQuot(a, b)
  }

  /** On non-negative operands Go's division is the mathematical one. */
  lemma GoDivNonNegative(a: int, b: int)
    requires a >= 0 && b > 0
    ensures GoQuot(a, b) == a / b && GoRem(a, b) == a % b
  {
    assert a == b * (a / b) + a % b;
  }

  /** lastPage: how many pages of `limit` rows hold `total` rows, in 64-bit
      arithmetic (`int(total) / limit`, plus one when a remainder is left). */
  function LastPage(total: Int64, limit: int): Int64
    requires limit != 0
  {
    var q := Wrap64(GoQuot(total, limit));
    if GoRem(total, limit) != 0 then Wrap64(q + 1) else q
  }

  /** For a row count and a positive page size, the last page is the least
      number of pages that covers every row: no rows give no pages. */
  lemma {:induction false} LastPageIsCeiling(total: Int64, limit: int)
    requires total >= 0 && limit > 0
    ensures var last := LastPage(total, limit);
            last >= 0 && (last - 1) * limit < total <= last * limit
    ensures total == 0 ==> LastPage(total, limit) == 0
  {
    GoDivNonNegative(total, limit);
    var q, rem := total / limit, total % limit;
    CeilingSteps(total, limit, q, rem);
    assert Wrap64(q) == q;
    if rem != 0 {
      assert Wrap64(q + 1) == q + 1;
    }
  }

  lemma CeilingSteps(total: int, limit: int, q: int, rem: int)
    requires total >= 0 && limit > 0 && total == q * limit + rem && 0 <= rem < limit
    ensures 0 <= q <= total && (rem != 0 ==> q + 1 <= total)
    ensures rem == 0 ==> (q - 1) * limit < total <= q * limit
    ensures rem != 0 ==> q * limit < total <= (q + 1) * limit
    ensures total == 0 ==> q == 0
  {
    MulShift(q, limit);
    if q < 0 {
      MulNegative(q, limit);
    }
    if q >= 0 { MulAtLeast(q, limit); }
  }

  lemma MulShift(q: int, limit: int)
    ensures (q + 1) * limit == q * limit + limit && (q - 1) * limit == q * limit - limit
  {
  }

  lemma MulNegative(q: int, limit: int)
    requires q < 0 && limit > 0
    ensures q * limit <= -limit
  {
  }

  lemma MulAtLeast(q: int, limit: int)
    requires q >= 0 && limit > 0
    ensures q * limit >= q
  {
  }

  /** Tied to the page slicing: the last page has rows and the one past it is
      empty; with no rows even the first page is empty. */
  lemma LastPageIsLastNonEmpty<T>(rows: seq<T>, limit: int)
    requires limit > 0 && |rows| <= INT64_MAX
    ensures var last := LastPage(|rows|, limit);
            last >= 0 && (last >= 1 ==> |Page(rows, last, limit)| > 0)
            && Page(rows, last + 1, limit) == []
  {
    var last := LastPage(|rows|, limit);
    LastPageIsCeiling(|rows|, limit);
    assert Offset(last + 1, limit) == last * limit;
    if last >= 1 {
      assert Offset(last, limit) == (last - 1) * limit;
    }
  }

  // ---------------------------------------------------------------------
  // Envelopes

  /** SuccessResponse: status 200 and `success` true, with the data (if any). */
  function SuccessResponse<T>(message: string, data: Option<T>): (r: Envelope<T>)
    ensures r.status == STATUS_OK && r.success
    ensures r.message == message && r.data == data
  {
    Envelope(STATUS_OK, true, message, data)
  }

  /** CreatedResponse: status 201 and `success` true, with the data (if any). */
  function CreatedResponse<T>(message: string, data: Option<T>): (r: Envelope<T>)
    ensures r.status == STATUS_CREATED && r.success
    ensures r.message == message && r.data == data
  {
    Envelope(STATUS_CREATED, true, message, data)
  }

  /** ErrorResponse: the status given, `success` false and no data. */
  function ErrorResponse<T>(status: int, message: string): (r: Envelope<T>)
    ensures r.status == status && !r.success
    ensures r.message == message && r.data.None?
  {
    Envelope(status, false, message, None)
  }

  /** PaginatedSuccessResponse: status 200, the meta echoing the request and
      the computed last page. */
  function PaginatedSuccessResponse<T>(message: string, data: T, page: int, limit: int, total: Int64): (r: PaginatedEnvelope<T>)
    requires limit != 0
    ensures r.status == STATUS_OK && r.success && r.message == message && r.data == data
    ensures r.meta.currentPage == page && r.meta.perPage == limit && r.meta.total == total
    ensures total >= 0 && limit > 0 ==> (r.meta.lastPage - 1) * limit < total <= r.meta.lastPage * limit
  {
    var r := PaginatedEnvelope(STATUS_OK, true, message, data, Meta(page, limit, total, LastPage(total, limit)));
    if total >= 0 && limit > 0 then LastPageIsCeiling(total, limit); r else r
  }

  /** The three plain envelopes are told apart by `success` alone: success
      and created answers always carry 2xx statuses, errors never succeed. */
  lemma EnvelopesDistinguished<T>(message: string, data: Option<T>, status: int, other: string)
    ensures SuccessResponse(message, data) != ErrorResponse<T>(status, other)
    ensures CreatedResponse(message, data) != ErrorResponse<T>(status, other)
    ensures SuccessResponse(message, data) != CreatedResponse(message, data)
  {
  }
}
