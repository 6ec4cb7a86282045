/**
 * The pagination middleware: reads page and limit from the query string,
 * caps the limit and stores page, limit and offset on the request before
 * handing it on. parseInt is a parameter: None stands for NaN.
 */
module Paginate {
  import opened Wrappers

  datatype Pagination = Pagination(page: int, limit: int, offset: int)

  /** The part of an Express request this middleware writes. */
  class Request {
    var pagination: Option<Pagination>
    var nextCalled: bool

    constructor ()
      ensures pagination == None && !nextCalled
    {
      pagination := None;
      nextCalled := false;
    }
  }

  /** The row offset of a page: the rows of all earlier pages. */
  function Offset(page: int, limit: int): int {
    (page - 1) * limit
  }

  /** `parseInt(x) || fallback`: NaN and 0 are falsy. */
  function OrDefault(parsed: Option<int>, fallback: int): (r: int)
    ensures parsed.Some? && parsed.value != 0 ==> r == parsed.value
    ensures parsed.None? || parsed == Some(0) ==> r == fallback
  {
    if parsed.Some? && parsed.value != 0 then parsed.value else fallback
  }

  /** paginate(defaultLimit, maxLimit) applied to one request. */
  method Paginate(req: Request, pageParam: Option<int>, limitParam: Option<int>, defaultLimit: int, maxLimit: int)
    modifies req
    ensures req.nextCalled
    ensures req.pagination.Some?
    ensures req.pagination.value.page == OrDefault(pageParam, 1)
    ensures req.pagination.value.limit <= maxLimit
    ensures req.pagination.value.limit == OrDefault(limitParam, defaultLimit) || req.pagination.value.limit == maxLimit
    ensures OrDefault(limitParam, defaultLimit) <= maxLimit ==> req.pagination.value.limit == OrDefault(limitParam, defaultLimit)
    ensures req.pagination.value.offset == Offset(req.pagination.value.page, req.pagination.value.limit)
  {
    var page := OrDefault(pageParam, 1);
    var limit := OrDefault(limitParam, defaultLimit);
    limit := if limit < maxLimit then limit else maxLimit;
    var offset := (page - 1) * limit;
    req.pagination := Some(Pagination(page, limit, offset));
    req.nextCalled := true;
  }

  /** The first page starts at row 0 and each page starts where the previous
      one ends, so consecutive pages cover the rows without gaps or overlap. */
  lemma {:induction false} PagesTile(page: int, limit: int)
    ensures Offset(1, limit) == 0
    ensures Offset(page + 1, limit) == Offset(page, limit) + limit
    ensures page >= 1 && limit >= 0 ==> Offset(page, limit) >= 0
  {
    assert (page + 1 - 1) * limit == (page - 1) * limit + limit;
    if page >= 1 && limit >= 0 {
      assert (page - 1) * limit >= 0;
    }
  }

  /** Nothing bounds page or limit from below: a negative page is kept and
      gives a negative offset. */
  lemma NoLowerBound(page: int, limit: int)
    requires page < 0 && limit > 0
    ensures OrDefault(Some(page), 1) == page
    ensures Offset(OrDefault(Some(page), 1), limit) < 0
  {
    assert (page - 1) * limit < 0;
  }
}
