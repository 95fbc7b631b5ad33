/** SQL `LIMIT limit OFFSET (page-1)*limit` over an ordered result. */
module Paging {
  import opened Common

  function Offset(page: int, limit: int): int { (page - 1) * limit }

  /** The rows a paginated query returns: at most `limit` rows, starting at
      the offset, in result order. */
  function Page<T>(rows: seq<T>, page: int, limit: int): (r: seq<T>)
    requires page >= 1 && limit >= 1
    ensures |r| <= limit
    ensures Offset(page, limit) >= |rows| ==> r == []
    ensures Offset(page, limit) + limit <= |rows| ==> |r| == limit
    ensures forall k :: 0 <= k < |r| ==> Offset(page, limit) + k < |rows| && r[k] == rows[Offset(page, limit) + k]
  {
    var off := Offset(page, limit);
    if off >= |rows| then []
    else if off + limit <= |rows| then rows[off..off + limit]
    else rows[off..]
  }

  /** `LIMIT limit OFFSET offset` stated by the offset itself. */
  function LimitOffset<T>(rows: seq<T>, limit: nat, offset: nat): (r: seq<T>)
    ensures |r| <= limit
    ensures offset >= |rows| ==> r == []
    ensures offset + limit <= |rows| ==> |r| == limit
    ensures forall k :: 0 <= k < |r| ==> offset + k < |rows| && r[k] == rows[offset + k]
  {
    if offset >= |rows| then []
    else if offset + limit <= |rows| then rows[offset..offset + limit]
    else rows[offset..]
  }

  /** A page is the limit/offset window at its page's offset. */
  lemma PageIsLimitOffset<T>(rows: seq<T>, page: int, limit: int)
    requires page >= 1 && limit >= 1
    ensures Page(rows, page, limit) == LimitOffset(rows, limit, Offset(page, limit))
  {
  }

  /** A page holds only rows of the result. */
  lemma PageWithin<T>(rows: seq<T>, page: int, limit: int)
    requires page >= 1 && limit >= 1
    ensures forall k :: 0 <= k < |Page(rows, page, limit)| ==> Page(rows, page, limit)[k] in rows
  {
    var r := Page(rows, page, limit);
    forall k | 0 <= k < |r| ensures r[k] in rows {
      assert r[k] == rows[Offset(page, limit) + k];
    }
  }

  /** Pages tile the result: the row at position i is on page i/limit + 1 at
      position i % limit, so walking the pages visits every row exactly once. */
  lemma PageCovers<T>(rows: seq<T>, limit: int, i: int)
    requires limit >= 1 && 0 <= i < |rows|
    ensures var p := i / limit + 1;
            i % limit < |Page(rows, p, limit)| && Page(rows, p, limit)[i % limit] == rows[i]
  {
    var p := i / limit + 1;
    assert Offset(p, limit) == (i / limit) * limit;
    assert Offset(p, limit) + i % limit == i;
  }

  /** Consecutive pages follow each other without overlap. */
  lemma PagesAdjacent<T>(rows: seq<T>, page: int, limit: int)
    requires page >= 1 && limit >= 1
    requires Offset(page + 1, limit) <= |rows|
    ensures Page(rows, page, limit) + Page(rows, page + 1, limit)
            == rows[Offset(page, limit)..Min(Offset(page, limit) + 2 * limit, |rows|)]
  {
    var off := Offset(page, limit);
    assert Offset(page + 1, limit) == off + limit;
  }
}
