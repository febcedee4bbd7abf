/**
 * The page metadata that both the `GET /api/links` handler
 * (src/app/api/links/route.ts) and the dashboard's `getLinks` action
 * (src/shared/components/dashboard/actions/get.action.ts) compute from one
 * page of rows, the table's row count, the limit and the offset.
 */
module Pagination {
  import opened LinkStore

  /** The response body: `data`, `total`, `limit`, `offset`, `total_pages`, `current_page`, `has_next`, `has_prev`. */
  datatype PageInfo = PageInfo(
    data: seq<Url>,
    total: nat,
    limit: int,
    offset: int,
    totalPages: nat,
    currentPage: real,
    hasNext: bool,
    hasPrev: bool)

  /** `Math.ceil(a / b)` for a natural number and a positive divisor. */
  function CeilDiv(a: nat, b: nat): (q: nat)
    requires b >= 1
    ensures q * b >= a
    ensures q == 0 || (q - 1) * b < a
  {
    if a == 0 then 0 else (a - 1) / b + 1
  }

  /** The metadata expression shared by both callers; `offset / limit + 1` is a floating-point division. */
  function Metadata(data: seq<Url>, total: nat, limit: int, offset: int): (p: PageInfo)
    requires limit >= 1
    ensures p.data == data && p.total == total && p.limit == limit && p.offset == offset
  {
    PageInfo(
      data, total, limit, offset,
      CeilDiv(total, limit),
      offset as real / limit as real + 1.0,
      offset + limit < total,
      offset > 0)
  }

  /**
   * The page count is the smallest number of `limit`-row pages that holds
   * every row, `has_next` says rows remain after this page and `has_prev`
   * that rows precede it.
   */
  lemma MetadataMeaning(data: seq<Url>, total: nat, limit: int, offset: int)
    requires limit >= 1
    ensures var p := Metadata(data, total, limit, offset);
      && p.totalPages * limit >= total
      && (p.totalPages == 0 || (p.totalPages - 1) * limit < total)
      && (p.totalPages == 0 <==> total == 0)
      && (p.hasNext <==> offset + limit < total)
      && (p.hasPrev <==> offset > 0)
  {
  }

  /** A page that has a next page is not the last one: `current_page < total_pages`. */
  lemma NextPageExists(data: seq<Url>, total: nat, limit: int, offset: int)
    requires limit >= 1 && offset >= 0
    requires Metadata(data, total, limit, offset).hasNext
    ensures Metadata(data, total, limit, offset).currentPage < Metadata(data, total, limit, offset).totalPages as real
  {
    var p := Metadata(data, total, limit, offset);
    assert offset < (p.totalPages - 1) * limit;
    QuotientBelow(offset, limit, p.totalPages - 1);
  }

  /** Over the reals, x / l < y whenever x < y * l for a positive l. */
  lemma QuotientBelow(x: int, l: int, y: int)
    requires l >= 1 && x < y * l
    ensures x as real / l as real < y as real
  {
    var q := x as real / l as real;
    assert q * l as real == x as real;
    assert (y * l) as real == y as real * l as real;
    assert (y as real - q) * l as real > 0.0;
  }

  /** A page with a previous page is past the first: `current_page > 1`. */
  lemma PrevPageExists(data: seq<Url>, total: nat, limit: int, offset: int)
    requires limit >= 1 && offset >= 0
    ensures Metadata(data, total, limit, offset).hasPrev <==> Metadata(data, total, limit, offset).currentPage > 1.0
  {
    var l := limit as real;
    if offset > 0 {
      assert offset as real / l > 0.0;
    }
  }
}
