/**
 * The dashboard's `getLinks(page)` server action
 * (src/shared/components/dashboard/actions/get.action.ts): ten rows a page,
 * page numbers counted from 1. It does not catch the store's errors, so a
 * ValidationError from `getUrlsPaginated` is what the caller receives.
 */
module DashboardActions {
  import opened Common
  import opened LinkStore
  import opened Pagination

  const PageSize: int := 10

  /** The offset of a page: `(page - 1) * limit`. */
  function PageOffset(page: int): int
  {
    (page - 1) * PageSize
  }

  /** `getLinks(page)`; the page number is an integer here. */
  function GetLinks(db: Database, page: int): (r: Result<PageInfo, DbError>)
    reads db
    ensures r.Success? <==> page >= 1
    ensures r.Failure? ==> r.error == ValidationError(OffsetMessage)
    ensures r.Success? ==> r.value.limit == PageSize && r.value.offset == (page - 1) * PageSize && r.value.total == |db.urls|
  {
    var offset := PageOffset(page);
    match db.GetUrlsPaginated(PageSize, offset)
    case Failure(e) => Failure(e)
    case Success(rows) => Success(Metadata(rows, db.GetUrlCount(), PageSize, offset))
  }

  /**
   * For a page number of 1 or more the action succeeds with limit 10 and
   * offset (page - 1) * 10; the page it reports is the one asked for, it has a
   * previous page exactly when it is past page 1, a next page exactly when
   * rows remain beyond page * 10, and the page count is the row count divided
   * by ten, rounded up.
   */
  lemma GetLinksPage(db: Database, page: int)
    requires page >= 1
    ensures var r := GetLinks(db, page);
      && r.Success?
      && r.value.limit == 10 && r.value.offset == (page - 1) * 10
      && r.value.currentPage == page as real
      && (r.value.hasPrev <==> page > 1)
      && (r.value.hasNext <==> page * 10 < |db.urls|)
      && r.value.totalPages == CeilDiv(|db.urls|, 10)
      && r.value.total == |db.urls|
      && |r.value.data| == Max(0, Min(10, |db.urls| - (page - 1) * 10))
  {
    var offset := PageOffset(page);
    assert offset as real / 10.0 == (page - 1) as real;
  }

  /** A page that has a next page is below the page count. */
  lemma NextPageBelowCount(db: Database, page: int)
    requires page >= 1
    ensures GetLinks(db, page).Success?
    ensures GetLinks(db, page).value.hasNext ==> page < GetLinks(db, page).value.totalPages
  {
    GetLinksPage(db, page);
    var r := GetLinks(db, page).value;
    if r.hasNext {
      NextPageExists(r.data, r.total, 10, r.offset);
    }
  }

  /** Page 0 or below gives a negative offset, which the store rejects. */
  lemma NonPositivePageRejected(db: Database, page: int)
    requires page <= 0
    ensures GetLinks(db, page) == Failure(ValidationError(OffsetMessage))
  {
  }
}
