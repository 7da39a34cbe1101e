/** The leaderboard's page arithmetic on `get '/'` and `get '/page/:page'`:
    ten users per page, the page clamped to the last page, the offset of the
    first user shown, and whether a next and a previous page exist. */
module Pagination {

  const UserPerPage: nat := 10
  const DefaultPage: int := 1

  /** The number of pages, ceil(count / 10). */
  function MaxPages(count: nat): (m: nat)
    ensures m * 10 >= count
    ensures m == 0 || (m - 1) * 10 < count
  {
    (count + 9) / 10
  }

  datatype Listing = Listing(page: int, maxPages: nat, offset: int, hasNext: bool, hasPrevious: bool)

  /** A page request redirects to the index or shows a listing. */
  datatype PageView = RedirectHome | Show(listing: Listing)

  /** `get '/'`: page 1, or the page count when that is below 1; a negative
      offset is raised to 0. */
  function Index(count: nat): Listing
  {
    var maxPages := MaxPages(count);
    var page := if DefaultPage > maxPages then maxPages else DefaultPage;
    var offset := page * UserPerPage - UserPerPage;
    var offset := if offset < 0 then 0 else offset;
    Listing(page, maxPages, offset, count > offset + UserPerPage, page > 1)
  }

  /** `get '/page/:page'` as written: a page of 0 or less redirects, a page
      past the last is clamped to the last, and the offset is not floored. */
  function PageAsWritten(p: int, count: nat): PageView
  {
    if p <= 0 then RedirectHome
    else
      var maxPages := MaxPages(count);
      var page := if p > maxPages then maxPages else p;
      var offset := page * UserPerPage - UserPerPage;
      Show(Listing(page, maxPages, offset, count > offset + UserPerPage, page > 1))
  }

  /** `get '/page/:page'` with the offset floored at 0, as `get '/'` does. */
  function Page(p: int, count: nat): PageView
  {
    if p <= 0 then RedirectHome
    else
      var maxPages := MaxPages(count);
      var page := if p > maxPages then maxPages else p;
      var offset := page * UserPerPage - UserPerPage;
      var offset := if offset < 0 then 0 else offset;
      Show(Listing(page, maxPages, offset, count > offset + UserPerPage, page > 1))
  }

  /** The index shows the first page from offset 0, never has a previous
      page, and has a next page exactly when more than ten users picked. */
  lemma IndexListing(count: nat)
    ensures Index(count).offset == 0 && !Index(count).hasPrevious
    ensures Index(count).page == if count == 0 then 0 else 1
    ensures Index(count).hasNext <==> count > UserPerPage
  {
  }

  /** A positive page on a non-empty leaderboard shows page p clamped into
      1..maxPages; its offset is where that page starts, inside the list;
      there is a next page exactly when it is not the last, and a previous
      page exactly when it is not the first. */
  lemma PageInRange(p: int, count: nat)
    requires p > 0 && count > 0
    ensures Page(p, count).Show?
    ensures var l := Page(p, count).listing;
      1 <= l.page <= l.maxPages && l.maxPages == MaxPages(count) &&
      (p <= l.maxPages ==> l.page == p) &&
      l.offset == (l.page - 1) * UserPerPage && 0 <= l.offset < count &&
      (l.hasNext <==> l.page < l.maxPages) && (l.hasPrevious <==> l.page > 1)
  {
  }

  /** A positive page always shows a listing whose offset is never
      negative, and lies inside the list when the list is not empty. */
  lemma PageOffsetInList(p: int, count: nat)
    requires p > 0
    ensures Page(p, count).Show?
    ensures 0 <= Page(p, count).listing.offset
    ensures count > 0 ==> Page(p, count).listing.offset < count
  {
  }

  /** Every page past the last shows the last page. */
  lemma PageClamps(p: int, count: nat)
    requires p > MaxPages(count) > 0
    ensures Page(p, count) == Page(MaxPages(count), count)
  {
  }

  /** Page 1 is the index: as written whenever someone has picked, and on
      every leaderboard once the offset is floored. On the empty leaderboard
      the page as written differs from the index by its offset alone. */
  lemma FirstPageIsIndex(count: nat)
    ensures count > 0 ==> PageAsWritten(1, count) == Show(Index(count))
    ensures Page(1, count) == Show(Index(count))
    ensures PageAsWritten(1, 0) == Show(Index(0).(offset := -10))
  {
  }

  /** With 25 users, page 3 starts at offset 20 and is the last page. */
  lemma PageExample()
    ensures Page(3, 25) == Show(Listing(3, 3, 20, false, true))
    ensures Page(0, 25) == RedirectHome
  {
  }

  /** As written, a page request on an empty leaderboard yields offset -10. */
  lemma NegativeOffsetOnEmptyBoard(p: int)
    requires p > 0
    ensures PageAsWritten(p, 0) == Show(Listing(0, 0, -10, false, false))
    ensures Page(p, 0) == Show(Listing(0, 0, 0, false, false))
  {
  }

  /** The floor changes nothing on a non-empty leaderboard. */
  lemma AsWrittenAgreesWhenNonEmpty(p: int, count: nat)
    requires count > 0
    ensures PageAsWritten(p, count) == Page(p, count)
  {
  }
}
