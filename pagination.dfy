/** Query-parameter normalisation and the pagination arithmetic shared by
    the product and favorites listings. A query parameter arrives as the
    result of `parseInt`, with `None` standing for NaN (missing or
    unparseable). */
module Pagination {
  import opened Http
  import opened Rows

  const MaxLimit := 50

  /** `Math.max(1, parseInt(page) || 1)`. */
  function NormalizePage(raw: Option<int>): (page: int)
    ensures page >= 1
    ensures raw.Some? && raw.value >= 1 ==> page == raw.value
    ensures raw.None? || raw.value <= 0 ==> page == 1
  {
    var n := if raw.None? || raw.value == 0 then 1 else raw.value;
    if n < 1 then 1 else n
  }

  /** `Math.min(50, Math.max(1, n))`. */
  function Clamp(n: int): int {
    if n < 1 then 1 else if n > MaxLimit then MaxLimit else n
  }

  /** `Math.min(50, Math.max(1, parseInt(limit) || fallback))`. */
  function NormalizeLimit(raw: Option<int>, fallback: int): (limit: int)
    ensures 1 <= limit <= MaxLimit
    ensures raw.None? || raw.value == 0 ==> limit == Clamp(fallback)
    ensures raw.Some? && 1 <= raw.value <= MaxLimit ==> limit == raw.value
    ensures raw.Some? && raw.value < 0 ==> limit == 1
    ensures raw.Some? && raw.value > MaxLimit ==> limit == MaxLimit
  {
    Clamp(if raw.None? || raw.value == 0 then fallback else raw.value)
  }

  /** `(page - 1) * limit`: the number of rows on the pages before `page`,
      a whole number of pages. */
  function Offset(page: int, limit: int): (offset: nat)
    requires page >= 1 && limit >= 1
    ensures offset % limit == 0 && offset / limit == page - 1
  {
    WholePages(page - 1, limit);
    (page - 1) * limit
  }

  /** SQLite binds `OFFSET` as a 64-bit signed integer; a bound value
      beyond it fails the statement with a datatype mismatch. */
  const MaxOffset := 0x7FFF_FFFF_FFFF_FFFF

  lemma MulMonotone(a: int, b: int, c: int)
    requires 0 <= a <= b && c >= 0
    ensures a * c <= b * c
  {
  }

  /** `q` whole pages divide back into `q` pages with nothing left over. */
  lemma WholePages(q: nat, limit: int)
    requires limit >= 1
    ensures (q * limit) % limit == 0 && (q * limit) / limit == q
  {
    var d := (q * limit) / limit;
    DivMod(q * limit, limit);
    if d < q {
      MulMonotone(d + 1, q, limit);
    } else if d > q {
      MulMonotone(q + 1, d, limit);
    }
  }

  /** `Math.ceil(total / limit)`: the fewest pages of `limit` rows that hold
      `total` rows. */
  function TotalPages(total: nat, limit: int): (pages: nat)
    requires limit >= 1
    ensures pages * limit >= total
    ensures pages == 0 || (pages - 1) * limit < total
    ensures pages == 0 <==> total == 0
  {
    var q := (total + limit - 1) / limit;
    assert q * limit <= total + limit - 1 < (q + 1) * limit;
    q
  }

  /** The `pagination` object of a listing response. */
  datatype Meta = Meta(page: int, limit: int, total: int, totalPages: int, hasNext: bool, hasPrev: bool)

  function Paginate(page: int, limit: int, total: nat): (m: Meta)
    requires page >= 1 && limit >= 1
    ensures m.page == page && m.limit == limit && m.total == total
    ensures m.totalPages == TotalPages(total, limit)
    ensures m.hasNext <==> page * limit < total
    ensures m.hasPrev <==> page >= 2
  {
    var pages := TotalPages(total, limit);
    if page < pages then
      MulMonotone(page, pages - 1, limit);
      Meta(page, limit, total, pages, true, page > 1)
    else
      MulMonotone(pages, page, limit);
      Meta(page, limit, total, pages, false, page > 1)
  }

  /** A page holds rows exactly when its number is at most `totalPages`. */
  lemma {:induction false} PageNonEmpty<T>(s: seq<T>, page: int, limit: int)
    requires page >= 1 && limit >= 1
    ensures |Window(s, Offset(page, limit), limit)| > 0 <==> page <= TotalPages(|s|, limit)
  {
    var pages := TotalPages(|s|, limit);
    if page <= pages {
      MulMonotone(page - 1, pages - 1, limit);
    } else {
      MulMonotone(pages, page - 1, limit);
    }
  }

  /** `hasNext` says exactly that the next page holds rows, and `hasPrev`
      that the page is not the first. */
  lemma HasNextMeansMoreRows<T>(s: seq<T>, page: int, limit: int)
    requires page >= 1 && limit >= 1
    ensures Paginate(page, limit, |s|).hasNext <==> |Window(s, Offset(page + 1, limit), limit)| > 0
    ensures Paginate(page, limit, |s|).hasPrev <==> page >= 2
  {
    PageNonEmpty(s, page + 1, limit);
  }

  /** `k / limit` and `k % limit` split a row number into whole pages and
      a position within a page. */
  lemma DivMod(k: nat, limit: int)
    requires limit >= 1
    ensures k / limit >= 0 && 0 <= k % limit < limit && k == (k / limit) * limit + k % limit
  {
  }

  /** Row `q * limit + m` of the listing is row `m` of page `q + 1`, and
      that page is within `totalPages`. */
  lemma RowOfPage<T>(s: seq<T>, limit: int, q: nat, m: nat)
    requires limit >= 1 && m < limit && q * limit + m < |s|
    ensures q + 1 <= TotalPages(|s|, limit)
    ensures m < |Window(s, Offset(q + 1, limit), limit)|
    ensures Window(s, Offset(q + 1, limit), limit)[m] == s[q * limit + m]
  {
    assert Offset(q + 1, limit) == q * limit;
    var pages := TotalPages(|s|, limit);
    if pages <= q {
      MulMonotone(pages, q, limit);
    }
  }

  /** Row `q * limit + m` is on no page but `q + 1`. */
  lemma OnlyItsPage(limit: int, q: nat, m: nat, page: int)
    requires limit >= 1 && m < limit && page >= 1 && page != q + 1
    ensures !(Offset(page, limit) <= q * limit + m < Offset(page, limit) + limit)
  {
    if page <= q {
      MulMonotone(page, q, limit);
    } else {
      MulMonotone(q + 1, page - 1, limit);
    }
  }

  /** Every row is on exactly one page: row `k` is row `k % limit` of page
      `k / limit + 1`, which is a page within `totalPages`, and no other page
      shows it. */
  lemma {:induction false} RowOnItsPage<T>(s: seq<T>, limit: int, k: int)
    requires limit >= 1 && 0 <= k < |s|
    ensures var page := k / limit + 1;
      && 1 <= page <= TotalPages(|s|, limit)
      && k % limit < |Window(s, Offset(page, limit), limit)|
      && Window(s, Offset(page, limit), limit)[k % limit] == s[k]
    ensures forall page | page >= 1 && page != k / limit + 1 ::
      !(Offset(page, limit) <= k < Offset(page, limit) + limit)
  {
    DivMod(k, limit);
    var q, m := k / limit, k % limit;
    RowOfPage(s, limit, q, m);
    forall page | page >= 1 && page != q + 1
      ensures !(Offset(page, limit) <= k < Offset(page, limit) + limit)
    {
      OnlyItsPage(limit, q, m, page);
    }
  }
}
