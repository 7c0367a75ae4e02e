/**
 * PaginationService.buildResponse: the envelope every paginated answer of
 * the API is wrapped in. The page number is computed with JavaScript number
 * arithmetic, so a division by a zero limit gives an infinite page.
 */
module Pagination {

  /** A JavaScript number that Math.floor(...) + 1 can produce from two
      integers: an integer, or one of the infinities of a division by 0. */
  datatype PageNumber = Page(n: int) | PlusInfinity | MinusInfinity

  /** The envelope: items, page, page_size, total and the echoed params. */
  datatype PaginatedResponse<T, P> = PaginatedResponse(
    items: seq<T>, page: PageNumber, pageSize: int, total: int, params: P)

  /** Math.floor(offset / limit) + 1 for offset != 0, with / the division of
      real numbers. */
  function PageOf(offset: int, limit: int): (p: PageNumber)
    requires offset != 0
    ensures limit != 0 ==> p.Page? && (p.n - 1) as real <= offset as real / limit as real < p.n as real
    ensures limit == 0 ==> p == if offset > 0 then PlusInfinity else MinusInfinity
  {
    if limit == 0 then (if offset > 0 then PlusInfinity else MinusInfinity)
    else Page((offset as real / limit as real).Floor + 1)
  }

  function BuildResponse<T, P>(items: seq<T>, total: int, limit: int, offset: int, params: P)
    : (r: PaginatedResponse<T, P>)
    ensures r.items == items && r.total == total && r.params == params
    ensures r.pageSize == limit
    ensures offset == 0 ==> r.page == Page(1)
    ensures offset != 0 && limit != 0 ==> r.page.Page?
  {
    var page := if offset == 0 then Page(1) else PageOf(offset, limit);
    PaginatedResponse(items, page, limit, total, params)
  }

  /** For a positive limit and an offset that is not negative, the page is
      offset div limit + 1 on both branches: the offset 0 case agrees with the
      general formula. */
  lemma PageFormula<T, P>(items: seq<T>, total: int, limit: int, offset: int, params: P)
    requires limit >= 1 && offset >= 0
    ensures BuildResponse(items, total, limit, offset, params).page == Page(offset / limit + 1)
  {
    if offset != 0 {
      FloorOfQuotient(offset, limit);
    }
  }

  /** For a positive divisor, the floor of the real quotient is the integer
      quotient. */
  lemma FloorOfQuotient(a: int, b: int)
    requires b >= 1
    ensures (a as real / b as real).Floor == a / b
  {
    var q, r := a / b, a % b;
    assert a == b * q + r && 0 <= r < b;
    assert a as real / b as real == q as real + r as real / b as real;
    assert 0.0 <= r as real / b as real < 1.0;
  }

  /** The page holds the offset: (page - 1) * limit <= offset < page * limit,
      and the page is at least 1. */
  lemma PageBounds<T, P>(items: seq<T>, total: int, limit: int, offset: int, params: P)
    requires limit >= 1 && offset >= 0
    ensures var p := BuildResponse(items, total, limit, offset, params).page;
      p.Page? && p.n >= 1 && (p.n - 1) * limit <= offset < p.n * limit
  {
    PageFormula(items, total, limit, offset, params);
  }
}
