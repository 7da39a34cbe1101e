# Voty: the contest engine of an awards-picking site

Voty is a small Sinatra application where users predict the winner of each
category of an awards show. They submit one *pick* and optionally one
*favourite* per category. When the administrator enters the winners, a
leaderboard ranks users by how many picks were correct. This project models
the engine behind that as an in-memory state, and proves what each operation
does to it:

- `model.dfy` (module `Model`) holds the entities of `model.rb`. These are
  users with their column defaults, categories with their nominees and at
  most one winner, and picks and favourites. `Entry` is one datatype shared
  by both, because they have the same columns and the same `is_correct` and
  `is_open`. The module also has the first-match lookups that the routes use.
- `ranking.dfy` (module `Ranking`) holds the two SQL `UPDATE` statements of
  `voty.rb`, stated as functions over the user table:
  - the correct-pick recount;
  - the dense ranking;
  - `update_user_ranking`, which ranks first and recounts second.
- `submission.dfy` (module `Submission`) covers `post '/:twitter/picks'`:
  - the three guards, in order;
  - the picks and favourites built from the form;
  - the replacement of the user's earlier rows.
- `admin.dfy` (module `Admin`) holds the winner form and the lock form.
- `pagination.dfy` (module `Pagination`) holds the leaderboard page
  arithmetic of `get '/'` and `get '/page/:page'`.
- `voty.dfy` (module `Voty`) holds the class `Store`. Its fields are the
  tables and the `votes_are_open` status. Its methods are the parts of
  `voty.rb` that change state in place, each proved against the functions
  above. The methods are:
  - the lock helpers;
  - the two queries, run row by row;
  - the submission loop;
  - the winner loop;
  - the profile's loop that counts correct favourites.

A route's redirect is modelled as a value: `Outcome` for the submission,
`PageView` for a page request, and `None` for the profile.

The model follows the code as written:

- Both queries rewrite every user, not only those who have picked.
- Completeness compares the number of categories with the number of
  request parameters minus 4 (the route's own `twitter` capture counts
  among them). It does not check each category.
- A pick whose submitted name matches no nominee of its category is stored
  with no nominee. There is no separate invalid-nominee error.
- A favourite's nominee is looked up among all nominees, not only the
  category's own.
- A winner-form name that matches no nominee clears the winner.

## Model

| member | source | states |
|---|---|---|
| Model.NewUser | model.rb:6-9 | a new user has picked 0, correct_picks 0, ranking 1 and the default avatar |
| Model.VerdictAgrees | model.rb:24-30 | for an entry with a nominee, is_open and is_correct give exactly the open/correct/incorrect verdict, and never hold together |
| Model.NilPickInOpenCategory | model.rb:24-30 | a pick with no nominee in an open category counts as both open and correct |
| Model.Entry.IsCorrect | model.rb:24-26 | is_correct of a pick or a favourite: the category's winner equals the entry's nominee, nil included |
| Model.Entry.IsOpen | model.rb:28-30 | is_open of a pick or a favourite: the category has no winner |
| Model.Judge | model.rb:24-30 | the independent open/correct/incorrect verdict that `VerdictAgrees` checks is_open and is_correct against |
| Model.UniqueCategoryIds | model.rb:53 | category ids are distinct, as a serial key makes them |
| Model.UniqueUserIds | model.rb:3 | user ids are distinct, as a serial key makes them |
| Model.FirstIndex | voty.rb:273 | the first position whose element satisfies a condition, none exactly when no element does: the search behind every `first(...)` lookup |
| Model.CategoryIndex | model.rb:20 | the category a row belongs to is the first with that id, and there is none exactly when no category has the id |
| Model.CategoryIndexById | model.rb:20 | which category a row belongs to depends only on the category ids |
| Model.NomineeNamed | voty.rb:293 | the nominee found is the first in the list carrying the submitted name; nil exactly when no name was given or none matches |
| Model.UserByHandle | voty.rb:273 | the first user with the handle; none exactly when no user has it |
| Model.UserByUid | voty.rb:78-81 | the session's user is the first with that uid; none exactly when there is no session or no such user |
| Model.WinnerRows | model.rb:78-83 | the WinnerCategory table: one (category id, nominee) row per category that has a winner |
| Model.AtMostOneWinner | model.rb:60-61 | with distinct category ids, a category has at most one winner row |
| Model.WinnerRowIffCorrect | model.rb:78-83 | a pick's (category, nominee) pair is a winner row exactly when is_correct holds for its category |
| Ranking.Wins | voty.rb:57-61 | the recount's match: the pick has a nominee and its (category, nominee) pair is a winner row |
| Ranking.CorrectPickCount | voty.rb:53-64 | the recount's value for one user: the number of that user's winning picks, 0 without any (the coalesce) |
| Ranking.Recount | voty.rb:53-64 | UPDATE_CORRECT_PICKS_QUERY: every user, picked or not, gets their recount; nothing else changes |
| Ranking.DistinctAbove | voty.rb:66 | COUNT(DISTINCT correct_picks) over the counts strictly above a threshold |
| Ranking.DenseRank | voty.rb:66 | one plus the number of distinct counts strictly above a user's own |
| Ranking.RankAll | voty.rb:66 | UPDATE_USER_RANKING_QUERY: every user gets the dense rank of their count in the table as it was |
| Ranking.UpdateUserRanking | voty.rb:107-115 | update_user_ranking: the ranking query on the counts as they are, then the recount |
| Ranking.NoPicksCountZero | voty.rb:53-64 | the recount gives 0 to a user with no picks (the coalesce) |
| Ranking.RecountMatchesVerdict | voty.rb:53-64 | for every user, the recount equals the number of their picks that have a nominee and for which is_correct holds; a pick without a nominee is never counted, even in an open category where nil equals nil makes is_correct hold |
| Ranking.OtherCategoryKeepsVerdict | voty.rb:53-64 | changing one category's winner keeps the recount's verdict on every pick in another category |
| Ranking.RejudgeKeepsOtherCounts | voty.rb:53-64 | changing one category's winner leaves unchanged the count of every user whose picks there keep their verdict: no pick there, or a pick that neither became nor stopped being correct |
| Ranking.RecountDifference | voty.rb:53-64 | changing the winners changes a user's count by the picks that now win minus the picks that no longer win |
| Ranking.DistinctAboveAntitone | voty.rb:66 | raising the threshold never counts more distinct values |
| Ranking.DistinctAboveDrops | voty.rb:66 | raising the threshold past a value that occurs counts strictly fewer |
| Ranking.DistinctAboveGap | voty.rb:66 | two thresholds with no value between them count the same |
| Ranking.DistinctAboveStep | voty.rb:66 | moving the threshold to the next value above it drops exactly one distinct value |
| Ranking.DistinctAboveZero | voty.rb:66 | nothing is counted exactly when no value exceeds the threshold |
| Ranking.SameCountsSameRanks | voty.rb:66 | the rank depends only on the correct_picks column |
| Ranking.RankOrder | voty.rb:66 | a higher count gives a strictly smaller rank, and equal counts give equal ranks, both ways |
| Ranking.LeastAbove | voty.rb:66 | some user holds the smallest count above a given count, when any count is above it |
| Ranking.RankDense | voty.rb:66 | ranks leave no gaps: below any rank above 1 some user holds the previous rank |
| Ranking.TopRank | voty.rb:66 | rank 1 belongs exactly to the users with the highest count |
| Ranking.DenseRankExample | voty.rb:66 | counts [5, 5, 3, 1] rank [1, 1, 2, 3] |
| Ranking.RecountIgnoresRanking | voty.rb:53-64 | the recount does not depend on the columns it overwrites |
| Ranking.UpdateTouchesOnlyLeaderboard | voty.rb:107-115 | update_user_ranking changes only correct_picks (to the recount) and ranking (to the dense rank of the count before the recount) |
| Ranking.UpdateKeepsUniqueIds | voty.rb:107-115 | update_user_ranking keeps the user ids, so they stay distinct |
| Ranking.OneRunCanBeStale | voty.rb:107-115 | one run can leave a ranking that disagrees with the counts it leaves behind |
| Ranking.TwoRunsSettle | voty.rb:107-115 | after two runs with nothing changed between them the ranking agrees with the counts, and a third run changes nothing |
| Submission.Guard | voty.rb:276-286 | the three guards in source order: not the session's user, votes closed, fewer request parameters than categories plus 4 |
| Submission.PickFor | voty.rb:292-296 | the pick for one category, its nominee looked up by the submitted name among the category's own nominees |
| Submission.FavouriteFor | voty.rb:298-308 | the favourite for one category, if any, its nominee looked up by the `_fav` name among all nominees |
| Submission.PicksFor | voty.rb:291-301 | the picks the loop over the categories appends, in category order |
| Submission.FavouritesFor | voty.rb:291-308 | the favourites the loop over the categories appends, in category order |
| Submission.EntriesOf | voty.rb:288-289 | a user's rows (`user.picks`, `user.favourites`), in table order |
| Submission.Without | voty.rb:288-289 | the table after `user.picks.destroy`: every row of other users, in order |
| Submission.PicksForExtend | voty.rb:291-301 | one more loop step appends exactly that category's pick |
| Submission.FavouritesForExtend | voty.rb:298-308 | one more loop step appends exactly that category's favourite, if any |
| Submission.GuardOrder | voty.rb:276-286 | a submission is stored exactly when all three guards pass, and an earlier failing guard wins over a later one |
| Submission.PicksForShape | voty.rb:291-301 | exactly one pick per category, in category order |
| Submission.PickNomineeInCategory | voty.rb:292-296 | a pick's nominee is the first of its category's nominees carrying the submitted name; it is nil exactly when the name is absent or matches none of the category's nominees |
| Submission.FavouritesForShape | voty.rb:298-308 | no more favourites than categories; each belongs to the user, has a nominee from the global list, and names a category whose `_fav` entry carries its name |
| Submission.FavouriteWhereNameResolves | voty.rb:298-308 | a category whose `_fav` name matches a nominee gets that favourite |
| Submission.OneFavouritePerCategory | voty.rb:298-308 | with distinct category ids, no two new favourites share a category |
| Submission.FavouriteMayLieOutsideCategory | voty.rb:299 | a favourite's nominee need not be one of its category's nominees |
| Submission.ParamCountAdmitsMissingPick | voty.rb:284-286 | the completeness guard can pass with a category missing from the form, and that category's pick then has no nominee |
| Submission.ReplaceEntries | voty.rb:288-289 | after destroying a user's rows and appending new ones, that user owns exactly the new rows and every other user keeps their rows |
| Submission.WithoutKeepsOldRows | voty.rb:288-289 | destroying a user's rows keeps only old rows of other users |
| Submission.BuiltRowsAreOwn | voty.rb:301-307 | every built pick and favourite belongs to the submitting user |
| Submission.BuiltRowsReferToCategories | voty.rb:295-306 | every built row names an existing category, and every built favourite has a nominee |
| Admin.Rejudged | voty.rb:364-369 | one category after the winner form: a submitted name makes the first of its nominees with that name the winner, or nil when none has it; without a name the category is kept |
| Admin.WinnersUpdated | voty.rb:363-370 | a category left out of the form keeps its winner; a named one gets the first of the category's own nominees with that name, or nil exactly when none has it; nothing else changes |
| Admin.WinnersStayEligible | voty.rb:363-370 | after the winner form each winner is still a nominee of its own category, and ids stay distinct |
| Admin.SameNamesMakePicksCorrect | voty.rb:366 | the winner lookup is the same first-match lookup as the pick's at voty.rb:293: when the winner form repeats a submission's names for every category, every pick of that submission is correct afterwards: pick and winner are the same first-match nominee |
| Admin.LockRequested | voty.rb:340 | the lock form asks for the lock exactly when its `lock_votes` entry reads "lock_votes" |
| Pagination.MaxPages | voty.rb:174 | the page count is the ceiling of the user count over 10 |
| Pagination.Index | voty.rb:172-186 | the listing of `get '/'`: page 1 clamped to the page count, offset floored at 0, next and previous flags |
| Pagination.PageAsWritten | voty.rb:194-209 | `get '/page/:page'` as written: redirect for a page of 0 or less, clamp to the last page, unfloored offset, next and previous flags |
| Pagination.Page | voty.rb:194-209 | the same route with the offset floored at 0, as `get '/'` floors it |
| Pagination.IndexListing | voty.rb:172-186 | the index starts at offset 0, has no previous page, is page 1 (or 0 when empty), and has a next page exactly when more than ten users picked |
| Pagination.PageInRange | voty.rb:194-209 | on a non-empty leaderboard (where the page as written and the corrected page agree) a positive page is clamped into 1..max_pages, its offset is where it starts inside the list, and next and previous exist exactly when it is not the last and not the first page |
| Pagination.PageOffsetInList | voty.rb:194-204 | on the corrected (floored) page, a positive page's offset is never negative, and lies inside the list when it is not empty |
| Pagination.PageClamps | voty.rb:201-203 | a page past the last shows the last page |
| Pagination.FirstPageIsIndex | voty.rb:172-209 | page 1 as written shows the same listing as the index whenever someone has picked; on the empty leaderboard it differs only by its offset of -10; the corrected page 1 is the index on every leaderboard |
| Pagination.PageExample | voty.rb:197-209 | with 25 users, page 3 is the last page from offset 20, and page 0 redirects |
| Pagination.NegativeOffsetOnEmptyBoard | voty.rb:204 | as written, any page on an empty leaderboard has offset -10; the floored version gives 0 |
| Pagination.AsWrittenAgreesWhenNonEmpty | voty.rb:204 | the floor changes nothing on a non-empty leaderboard |
| Voty.CorrectCount | voty.rb:250-255 | the profile's count: the favourites whose category exists and for which is_correct holds |
| Voty.CorrectCountBounded | voty.rb:250-255 | the correct-favourite count is at most the number of favourites |
| Voty.NoCorrectWhileOpen | voty.rb:250-255 | while every category is open, no favourite is counted correct |
| Voty.RowsReferToCategories | model.rb:20-22 | every pick and favourite names an existing category, and every favourite has a nominee |
| Voty.RowsReferById | model.rb:20 | whether the rows name existing categories depends only on the category ids |
| Voty.ReplacementKeepsReferences | voty.rb:288-309 | replacing a user's rows keeps every row pointing at an existing category |
| Voty.SubmissionReplacesRows | voty.rb:288-309 | after a submission the user owns exactly the new picks and favourites, and every other user's rows are unchanged |
| Voty.Store.Valid | model.rb:20-22 | user ids and category ids are distinct, every category nominee is a row of the nominee table, each winner is one of its category's nominees, and every row names an existing category |
| Voty.Store.VotesAreClosed | voty.rb:90-93 | votes are closed whenever the status is not 1 |
| Voty.Store.constructor | model.rb:90 | a fresh database over seeded users (with the column defaults), categories and nominees: no picks or favourites, every category open, and the vote status at its default 0, so votes start closed |
| Voty.Store.LockVotes | voty.rb:95-99 | the status becomes 0 and votes are closed; nothing else changes |
| Voty.Store.OpenVotes | voty.rb:101-105 | the status becomes 1 and votes are open; nothing else changes |
| Voty.Store.SetVoteLock | voty.rb:340-344 | votes end up closed exactly when the form's lock_votes entry reads "lock_votes" |
| Voty.Store.RunRankingQuery | voty.rb:66 | every user's ranking becomes the dense rank of their count in the table as it was |
| Voty.Store.RunCorrectPicksQuery | voty.rb:53-64 | every user's correct_picks becomes the recount |
| Voty.Store.UpdateUserRanking | voty.rb:107-115 | ranking first, then the recount |
| Voty.Store.SubmitPicks | voty.rb:271-317 | the result is the first failing guard, and then nothing changes; otherwise the user's rows are replaced by the built ones, picked becomes 1, the ranking is updated, and the store stays valid |
| Voty.Store.StoreSubmission | voty.rb:288-314 | destroys the user's rows, appends the built ones, sets picked and updates the ranking |
| Voty.Store.AppendSubmission | voty.rb:291-309 | the loop appends exactly the picks and favourites built for the categories |
| Voty.Store.UpdateWinners | voty.rb:356-376 | categories become the re-judged categories, the ranking is updated on them, and the store stays valid |
| Voty.Store.CorrectFavourites | voty.rb:242-258 | on a valid store: no count exactly when the profile redirects; otherwise the number of the user's favourites for which is_correct holds |

## Left out

- HTTP, the `before` filter, sessions and cookies are not modelled. The session is an optional uid parameter, and redirects are result values.
- OmniAuth login, the callback that creates users, `/login` and `/logout` are not modelled. They are plumbing around an external identity provider.
- Haml rendering, `cache_expire`, and the GET views of `/:twitter/pick`, `/:twitter/picks` and `/stats` are not modelled. They are presentation only.
- DataMapper persistence and SQL execution are not modelled; the two queries are modelled by their results.
- The leaderboard's `ORDER BY ranking, name` and its offset/limit slicing are not modelled; only the page arithmetic is.
- The administrator check (`requires_role :admin`) is not modelled. The winner and lock operations assume an authorised caller.
- Pagination.MaxPages: the source's float division and `ceil` are modelled as integer ceiling division, which agrees for non-negative counts.
- Voty.Store.SubmitPicks: a pick with no nominee is stored as is. The source's `belongs_to :nominee` validation may refuse to save such a pick, and database validation is not part of this model.
- Voty.Store.CorrectFavourites: it requires `Store.Valid`, which excludes a favourite whose category is missing. The source would fail calling `winner` on nil for such a row.
- The `votes_are_open` row is assumed to exist. A missing Preference row, on which the source fails, is not modelled.
- Concurrency and transaction atomicity between requests are not modelled.
- Nominee and category identity is value equality, not row identity.

## Findings

| source | as written | input that shows it | evidently intended | confidence | as-written member | corrected member |
|---|---|---|---|---|---|---|
| voty.rb:204 | `/page/:page` computes the offset as `(page * 10) - 10` and never floors it | no user has picked yet and `/page/1` is requested: max_pages is 0, the page is clamped to 0, and the offset is -10 | floor the offset at 0, as `get '/'` does at voty.rb:179-181 | medium; not executed | Pagination.NegativeOffsetOnEmptyBoard | Pagination.PageOffsetInList |
