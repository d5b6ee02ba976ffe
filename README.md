# codesnippet-hub core, modelled in Dafny

This project models the core of codesnippet-hub, a site for sharing code snippets. The
model covers:

- the Express route handlers for snippets, tags and users;
- the relative-time formatter of the frontend;
- the create-snippet form's submit guard and tag parsing.

The backend keeps its data in MySQL and caches responses in Redis. In the model:

- **Database.** `Db.Tables` is one value snapshot of every table. Each table is a
  sequence of rows in insertion order, and the auto-increment counters are kept beside
  the tables.
- **Cache.** Redis is the `cache` map of the `Storage.Store` class. Each key maps to
  the stored body and its time-to-live.
- **Route handlers that change state.** The snippet and tag handlers are methods on a
  `Store`:
  - They modify `db`, `cache`, or both.
  - Their `ensures` clauses give the whole new state for every branch of the handler.
  - That includes the 400, 403, 404 and 500 answers.
- **Read-only queries.** The queries of `users.js`, the SQL statements, the date
  formatter and the form logic are pure functions over that state.
- **Properties.** Each function is paired with lemmas stating what the source promises:
  - filtering, ordering and paging of every listing;
  - the totals and `totalPages`;
  - cache-hit behaviour and cache-key injectivity;
  - the transaction's rollback;
  - usage counting per tag occurrence;
  - toggles that flip and restore;
  - which cache keys are ever deleted;
  - the unit choice and bounds of the relative time;
  - the tag-field round trip.

Modules follow the source:

| module | file | models |
|---|---|---|
| `Text` | text.dfy | `String.prototype.trim`, `split`/`join`, decimal rendering of numbers, string ordering |
| `Ordering` | ordering.dfy | `WHERE` and `COUNT(*)` as filters, `ORDER BY` as a stable sort |
| `Paging` | paging.dfy | `LIMIT`/`OFFSET` and `Math.ceil(total / limit)` |
| `Db` | db.dfy | tables, row lookups, tag usage, `GROUP_CONCAT` of tag names |
| `Views` | views.dfy | response bodies |
| `Storage` | storage.dfy | the shared store: database and Redis |
| `SnippetQueries` | snippet_queries.dfy | the SQL of `backend/routes/snippets.js`, the view counter, cache keys |
| `SnippetCreate` | snippet_create.dfy | the data written by `POST /snippets` |
| `SnippetRoutes` | snippet_routes.dfy | the handlers of `backend/routes/snippets.js` |
| `TagRoutes` | tag_routes.dfy | `backend/routes/tags.js` |
| `UserRoutes` | user_routes.dfy | `backend/routes/users.js` |
| `RelativeTime` | relative_time.dfy | `formatDistanceToNow` in `frontend/src/utils/date.js` |
| `CreateForm` | create_form.dfy | `handleSubmit` in `frontend/src/pages/CreateSnippet.jsx` |

## Model

| member | source | states |
|---|---|---|
| Text.Trim | backend/routes/snippets.js:166 | `trim()` leaves no whitespace at either end and never lengthens the string |
| Text.TrimIsSlice | backend/routes/snippets.js:166 | the trimmed text is a contiguous slice of the input |
| Text.TrimEmptyIff | frontend/src/pages/CreateSnippet.jsx:28 | a string trims to empty exactly when every character is whitespace |
| Text.TrimIdempotent | frontend/src/pages/CreateSnippet.jsx:37 | trimming twice is trimming once |
| Text.SplitCount | frontend/src/pages/CreateSnippet.jsx:36 | `split(sep)` yields one piece more than there are separators |
| Text.JoinSplit | backend/routes/snippets.js:82 | joining the pieces of a split gives the original string back |
| Text.SplitJoin | backend/routes/snippets.js:82 | splitting a join of separator-free pieces gives the pieces back |
| Text.JoinSnoc | backend/routes/snippets.js:16 | joining one more piece appends the separator and the piece |
| Text.NatToStringInjective | backend/routes/snippets.js:16 | different numbers render as different decimal texts in a template literal |
| Text.LexTotal | backend/routes/tags.js:17 | any two names are ordered one way or the other by `ORDER BY name` |
| Text.LexTransitive | backend/routes/tags.js:17 | the name order is transitive |
| Text.LexAntisymmetric | backend/routes/tags.js:17 | names ordered both ways are equal |
| Ordering.SortBy | backend/routes/snippets.js:56 | `ORDER BY` returns exactly the rows it is given (same multiset) |
| Ordering.SortBySorted | backend/routes/snippets.js:56 | for a total preorder, the sorted rows are in the requested order |
| Ordering.SortByMembers | backend/routes/snippets.js:56 | a row is in the sorted result exactly when it is in the input |
| Ordering.Filter | backend/routes/snippets.js:31 | `WHERE` keeps exactly the rows that satisfy it, and only rows of the table |
| Ordering.CountWhere | backend/routes/snippets.js:62 | `COUNT(*)` is bounded by the table size and is 0 exactly when no row qualifies |
| Ordering.CountIsFilterLength | backend/routes/snippets.js:62-77 | a count query with the same `WHERE` counts exactly the rows the row query selects |
| Ordering.CountWhereMonotone | backend/routes/snippets.js:62-77 | a stricter `WHERE` never counts more rows |
| Ordering.FilterKeepsAll | frontend/src/pages/CreateSnippet.jsx:38 | a filter every element passes changes nothing |
| Ordering.FilterEmptyIff | frontend/src/pages/CreateSnippet.jsx:38 | a filter leaves nothing exactly when no element passes |
| Paging.Window | backend/routes/snippets.js:56-57 | `LIMIT limit OFFSET offset` returns at most `limit` rows: the rows from position `offset` on, as many as exist |
| Paging.TotalPages | backend/routes/snippets.js:88 | `Math.ceil(total / limit)`: 0 for no rows, otherwise the least page count that holds `total` rows |
| Paging.RowOnItsPage | backend/routes/snippets.js:13 | with `offset = (page - 1) * limit`, row k is on page `k / limit + 1` at slot `k % limit` |
| Paging.RowOnSomePage | backend/routes/snippets.js:13 | every row of a listing appears on some page at or after page 1 |
| Paging.WindowFromStart | backend/routes/tags.js:43 | `LIMIT` without offset returns a prefix, and the whole result when that is shorter than the limit |
| Paging.WindowOfSorted | backend/routes/snippets.js:56-57 | a page of an ordered result keeps the order |
| Paging.PagesInRangeNonEmpty | backend/routes/snippets.js:88 | pages 1 to `totalPages` are non-empty and every later page is empty |
| Db.FindSnippet | backend/routes/snippets.js:285-288 | the lookup by id returns a row of the table with that id, and nothing exactly when no row has it |
| Db.FindSnippetUnique | backend/routes/snippets.js:116-125 | with unique ids the lookup returns the one row carrying the id |
| Db.FindUser | backend/routes/users.js:12-19 | the user lookup returns a row with that id, and nothing exactly when none exists |
| Db.FindTagByName | backend/routes/snippets.js:194 | `SELECT id FROM tags WHERE name = ?` finds a tag with that name, and nothing exactly when none exists |
| Db.FindTagById | backend/routes/snippets.js:27-28 | the join on tag id finds a tag with that id, and nothing exactly when none exists |
| Db.FindTagByUniqueName | backend/routes/snippets.js:194 | with unique names the lookup returns the one tag that has the name |
| Db.SameTagId | backend/routes/snippets.js:201 | with unique tag ids, two tags sharing an id are the same row |
| Db.IncrementUsage | backend/routes/snippets.js:206 | `usage_count + 1` on the row with the id; ids, names and other counts unchanged |
| Db.TagNamesOf | backend/routes/snippets.js:27-28 | a name is in a snippet's tag list only if a tag linked to that snippet has it, and every link of the snippet whose tag exists contributes that tag's name |
| Db.TagNamesOfSameNames | backend/routes/snippets.js:27-28 | a snippet's tag names depend only on the names its links resolve to |
| Db.TagNamesOfNone | backend/routes/snippets.js:27-28 | a snippet with no links has no tag names |
| Db.TagsFieldRoundTrip | backend/routes/snippets.js:82 | non-empty comma-free names survive `GROUP_CONCAT` then `split(',')` unchanged |
| Db.TagsFieldSplitsCommaNames | backend/routes/snippets.js:147 | a tag named `a,b` comes back as the two tags `a` and `b` |
| Storage.Store.constructor | backend/server.js:34-68 | the handlers start from a well-formed database, an empty Redis and a positive `CACHE_TTL` |
| Storage.Store.Get | backend/routes/snippets.js:19 | `get` returns the value stored under exactly that key, and nothing when the key is absent |
| Storage.Store.SetEx | backend/routes/snippets.js:93 | `setEx` stores the value and time-to-live under the key and leaves every other key as it was |
| Storage.Store.Del | backend/routes/snippets.js:295-296 | `del` removes exactly the literal key given, no pattern, and keeps every other entry |
| SnippetQueries.NewerOrSameIsTotalPreorder | backend/routes/snippets.js:56 | `ORDER BY created_at DESC` is a total preorder |
| SnippetQueries.ListSnippetsQuery | backend/routes/snippets.js:24-90 | the page is the window at `(page - 1) * limit` of the listable rows; total is the count query; `totalPages` is its ceiling |
| SnippetQueries.ListedRowsMembers | backend/routes/snippets.js:24-54 | every listed row is a row of the table that passes every non-empty filter and the owner join |
| SnippetQueries.ListedRowsNewestFirst | backend/routes/snippets.js:56 | the listable rows come newest first |
| SnippetQueries.ListingItems | backend/routes/snippets.js:24-90 | a page holds at most `limit` items, each public and matching the filters, with its like count and tags |
| SnippetQueries.ListingNewestFirst | backend/routes/snippets.js:56 | the items of a page are ordered by `created_at` descending |
| SnippetQueries.EveryListedSnippetOnSomePage | backend/routes/snippets.js:13 | every listable snippet appears on some page of the listing |
| SnippetQueries.ListedRowIndex | backend/routes/snippets.js:24-56 | every listable snippet has a position in the ordered listing |
| SnippetQueries.TotalCoversListedRows | backend/routes/snippets.js:62-77 | the count query, which omits the tag filter and the user join, never counts fewer rows than are listable |
| SnippetQueries.TotalIgnoresPagingAndTag | backend/routes/snippets.js:62-77 | the total depends only on search and language |
| SnippetQueries.TagFilterOverstatesTotal | backend/routes/snippets.js:47-88 | a tag filter matching nothing still yields total 1 and one page for a table with one public snippet |
| SnippetQueries.SnippetDetailQuery | backend/routes/snippets.js:116-147 | no row exactly when the id or its owner is missing; otherwise the row with its like count, tags, and the viewer's flags exactly when a viewer is given |
| SnippetQueries.BumpViews | backend/routes/snippets.js:153 | the view update changes the snippets table only |
| SnippetQueries.BumpRows | backend/routes/snippets.js:153 | the update keeps the row count and every row's id |
| SnippetQueries.Viewed | backend/routes/snippets.js:153 | a viewed row has one more view and every other column unchanged |
| SnippetQueries.BumpViewsByOne | backend/routes/snippets.js:112 | after the update the lookup by id finds the same snippet with `views` one higher |
| SnippetQueries.BumpRowsFound | backend/routes/snippets.js:153 | the first row with the id is the one found after the update, with one more view |
| SnippetQueries.BumpRowsAt | backend/routes/snippets.js:153 | rows with the id gain one view; every other row is unchanged |
| SnippetQueries.BumpViewsWellFormed | backend/routes/snippets.js:153 | the view update keeps keys unique and below their counters |
| SnippetQueries.ListKeyIsJoin | backend/routes/snippets.js:16 | the listing key is its seven fields joined with `:` |
| SnippetQueries.ListKeyInjective | backend/routes/snippets.js:16 | with no `:` in search, language or tag, different queries get different keys |
| SnippetQueries.ListKeyCollision | backend/routes/snippets.js:16 | search `a:b` and search `a` with language `b:` are different queries sharing one key |
| SnippetQueries.ListKeyIsNotWildcard | backend/routes/snippets.js:213 | no listing key equals the literal `snippets:list:*` handed to `DEL` |
| SnippetQueries.SnippetKeyIsNotListKey | backend/routes/snippets.js:108 | a `snippet:<id>` key is never a listing key |
| SnippetQueries.SnippetKeyInjective | backend/routes/snippets.js:108 | different ids get different snippet keys |
| SnippetCreate.AddTagsPrefix | backend/routes/snippets.js:192-207 | the loop over the first i+1 names is the loop over the first i followed by one more iteration |
| SnippetCreate.FindTagByNameAppend | backend/routes/snippets.js:198 | after `INSERT INTO tags`, the lookup by name finds the old tag if there was one, else the new one |
| SnippetCreate.FindTagByIdAppend | backend/routes/snippets.js:198 | after `INSERT INTO tags`, the lookup by id finds the old tag if there was one, else the new one |
| SnippetCreate.FindTagByNameIncrement | backend/routes/snippets.js:206 | after the usage update, the lookup by name finds the same tag, incremented when its id matches |
| SnippetCreate.FindTagByIdIncrement | backend/routes/snippets.js:206 | after the usage update, the lookup by id finds the same tag, incremented when its id matches |
| SnippetCreate.IncrementUsageTail | backend/routes/snippets.js:206 | the usage update acts on the first row and on the rest independently |
| SnippetCreate.AddTagUsage | backend/routes/snippets.js:192-207 | one iteration adds 1 to the usage of its name and 0 to every other name, whether the tag existed or was created |
| SnippetCreate.AddTagWellFormed | backend/routes/snippets.js:194-206 | one iteration keeps ids and names unique and links below the counters; snippets are untouched |
| SnippetCreate.EnsureTagWellFormed | backend/routes/snippets.js:194-202 | find-or-create keeps the database well formed and yields a tag id below the counter |
| SnippetCreate.LinkWellFormed | backend/routes/snippets.js:205-206 | linking existing ids and counting the use keeps the database well formed |
| SnippetCreate.AddTagsWellFormed | backend/routes/snippets.js:191-208 | the whole loop keeps the database well formed and leaves snippets alone |
| SnippetCreate.AddTagsUsage | backend/routes/snippets.js:191-208 | after the loop every name's usage has grown by its number of occurrences in `tags`; duplicates count twice |
| SnippetCreate.InsertSnippetWellFormed | backend/routes/snippets.js:183-188 | the insert under the next id keeps ids unique, and the new row is found by `insertId` |
| SnippetCreate.AfterCreateSpec | backend/routes/snippets.js:178-208 | a committed create stores, under the reported id, the body's fields with the title trimmed to 1-200 characters, `isPublic` true unless sent as false and no views; its tag names read back as `tags` as a multiset, repeats included, and in link order in the model; every listed name exists with usage raised by its occurrences |
| SnippetCreate.AddTagNames | backend/routes/snippets.js:194-205 | one iteration appends its name, in link order, to the snippet's tag names and keeps the names of earlier links |
| SnippetCreate.AddTagsNames | backend/routes/snippets.js:191-208 | the loop appends the given names to the snippet's tag names, repeats included, in link order (the model's choice for `GROUP_CONCAT`) |
| SnippetRoutes.ListSnippets | backend/routes/snippets.js:10-100 | a cache hit returns the stored body and writes nothing; a miss returns the query result and stores it under the listing key with `CACHE_TTL` |
| SnippetRoutes.GetSnippet | backend/routes/snippets.js:103-160 | a hit returns the stored body and still adds one view; an unknown id answers 404 with no writes; otherwise the detail is stored and one view added |
| SnippetRoutes.CreateSnippet | backend/routes/snippets.js:163-227 | 400 leaves state untouched; a failure before commit answers 500 with the database as before; success commits the snippet and tags and deletes only the literal `snippets:list:*` key |
| SnippetRoutes.Transaction | backend/routes/snippets.js:180-222 | a commit yields the created state; any failure before it restores the snapshot |
| SnippetRoutes.TagLoop | backend/routes/snippets.js:191-208 | the loop runs every iteration in order unless one fails, and then reports the failure |
| SnippetRoutes.AddTagStep | backend/routes/snippets.js:194-206 | one iteration: find or create the tag, link it, count one use |
| SnippetRoutes.ToggleLike | backend/routes/snippets.js:230-254 | the answer is the negation of the previous state; the like flips and the snippet's cache entry is deleted |
| SnippetRoutes.ToggleFavorite | backend/routes/snippets.js:257-277 | the answer is the negation of the previous state; the favorite flips; the cache is not touched |
| SnippetRoutes.DeleteSnippet | backend/routes/snippets.js:280-303 | 404 and 403 leave everything unchanged; the owner's delete removes the row and the `snippet:<id>` key |
| SnippetRoutes.RemoveSnippetSpec | backend/routes/snippets.js:294 | the delete removes exactly the rows with the id, keeps every other row, and keeps ids unique |
| SnippetRoutes.RemoveSnippetUnique | backend/routes/snippets.js:294 | removing rows keeps snippet ids unique |
| SnippetRoutes.ToggleLikeFlips | backend/routes/snippets.js:239-249 | the toggle flips the requester's like on that snippet and no other pair |
| SnippetRoutes.ToggleLikeTwice | backend/routes/snippets.js:230-254 | two like toggles restore who likes what |
| SnippetRoutes.ToggleFavoriteFlips | backend/routes/snippets.js:266-272 | the toggle flips the requester's favorite on that snippet and no other pair |
| SnippetRoutes.ToggleFavoriteTwice | backend/routes/snippets.js:257-277 | two favorite toggles restore who has favorited what |
| SnippetRoutes.ListingSurvivesInvalidation | backend/routes/snippets.js:295-296 | a cached listing survives the deletes done by create and delete, unchanged |
| SnippetRoutes.StaleListingAfterCreate | backend/routes/snippets.js:213 | a listing read, a create, and the same listing read again return the same body |
| SnippetRoutes.CachedFlagsShared | backend/routes/snippets.js:108-150 | a second viewer receives the first viewer's `isLiked`/`isFavorited` from the cache |
| TagRoutes.ByNameIsTotalPreorder | backend/routes/tags.js:17 | `ORDER BY name ASC` is a total preorder |
| TagRoutes.ByPopularityIsTotalPreorder | backend/routes/tags.js:43 | `ORDER BY usage_count DESC, name ASC` is a total preorder |
| TagRoutes.AllTagsSpec | backend/routes/tags.js:16-18 | every tag is listed, each once per row, in name order |
| TagRoutes.RankedTagsSpec | backend/routes/tags.js:42-45 | exactly the tags with usage above 0, ranked by usage, then name |
| TagRoutes.PopularTagsSpec | backend/routes/tags.js:42-45 | at most `limit` tags, each used at least once and from the table, in popularity order |
| TagRoutes.PopularTagsAreTheTop | backend/routes/tags.js:43 | a used tag left out means the list is full and every listed tag ranks at least as high |
| TagRoutes.GetAllTags | backend/routes/tags.js:7-28 | a hit returns the stored body; a miss stores the sorted tags under `tags:all` with TTL 3600 |
| TagRoutes.GetPopularTags | backend/routes/tags.js:31-55 | a hit returns the stored body; a miss stores the popular tags under `tags:popular:<limit>` with TTL 1800 |
| TagRoutes.PopularKeyInjective | backend/routes/tags.js:36 | different limits are cached under different keys |
| TagRoutes.TagKeysAreNeverDeleted | backend/routes/tags.js:10-36 | no key the snippet handlers delete is a tag key |
| TagRoutes.StalePopularAfterCreate | backend/routes/tags.js:36-48 | a cached popular list is returned unchanged after a create, however the counts moved |
| UserRoutes.GetUser | backend/routes/users.js:8-43 | 404 exactly when no user has the id; otherwise that user's row with the two counters, whose meaning `UserSnippetsTotalExact` and `LikesReceivedCountsOwnSnippets` state |
| UserRoutes.LikesReceivedCountsOwnSnippets | backend/routes/users.js:27-30 | with unique snippet ids, `likesReceived` counts exactly the likes on the user's snippets, private ones included |
| UserRoutes.LikesReceivedIncludePrivate | backend/routes/users.js:22-30 | a like on a private snippet gives `likesReceived` 1 while `snippetsCount` is 0 |
| UserRoutes.UserSnippetsQuery | backend/routes/users.js:46-81 | the page is the window of the user's public snippets, newest first; total is the public count; `totalPages` is its ceiling |
| UserRoutes.UserSnippetsItems | backend/routes/users.js:52-61 | at most `limit` items, each a public snippet of the user, newest first |
| UserRoutes.UserSnippetsTotalExact | backend/routes/users.js:63-66 | for an existing user, the total equals the number of rows paged and the profile's `snippetsCount` |
| UserRoutes.MySnippetsQuery | backend/routes/users.js:84-118 | the page is the window of all the requester's snippets, newest first, with like and favorite counts; total and `totalPages` as stated |
| UserRoutes.MySnippetsTotal | backend/routes/users.js:100-103 | the total equals the rows paged and is at least the public total |
| UserRoutes.EveryOwnSnippetOnSomePage | backend/routes/users.js:89-98 | every own snippet, private ones included, appears on some page |
| UserRoutes.OwnRowIndex | backend/routes/users.js:89-95 | every own snippet has a position in the ordered rows |
| UserRoutes.JoinFavorites | backend/routes/users.js:130-133 | each joined row is one of the user's favorites with its snippet and owner found |
| UserRoutes.MyFavoritesQuery | backend/routes/users.js:121-157 | the page is the window of the joined favorites, most recent first; total counts the user's favorite rows |
| UserRoutes.MyFavoritesItems | backend/routes/users.js:126-137 | at most `limit` items, each a snippet the user favorited, private ones included, by `favorited_at` descending |
| UserRoutes.JoinedFavoritesCounted | backend/routes/users.js:139-142 | the joined rows never outnumber the user's favorite rows |
| UserRoutes.FavoriteOfPrivateSnippetListed | backend/routes/users.js:130-133 | a favorite whose snippet and owner exist is listed whether or not the snippet is public |
| UserRoutes.MyFavoritesTotal | backend/routes/users.js:139-150 | the total is at least the number of listable favorites |
| RelativeTime.ElapsedSeconds | frontend/src/utils/date.js:4 | `Math.floor((now - date) / 1000)` is the floor of the millisecond difference over 1000 |
| RelativeTime.Pick | frontend/src/utils/date.js:14-21 | a unit result has count at least 1 and a unit from the list |
| RelativeTime.PickStep | frontend/src/utils/date.js:15-16 | one turn of the loop: the count reaches 1 exactly when the seconds reach the unit |
| RelativeTime.DivReachesOne | frontend/src/utils/date.js:15-16 | a floored quotient by a positive unit is at least 1 exactly when the dividend reaches the unit |
| RelativeTime.DistanceUnrolled | frontend/src/utils/date.js:6-21 | the first unit, largest first, that the elapsed seconds reach wins |
| RelativeTime.DistanceCases | frontend/src/utils/date.js:6-21 | each range picks its unit with the floored count; counts stay at most 12 months, 29 days, 23 hours or 59 minutes; below 60 seconds gives "刚刚" |
| RelativeTime.ShownBounds | frontend/src/utils/date.js:15 | the amount shown is within one unit below the elapsed time; "刚刚" exactly below a minute, future dates included |
| RelativeTime.ShownMonotone | frontend/src/utils/date.js:4-21 | as time passes, the amount shown never goes down |
| RelativeTime.UnitGrows | frontend/src/utils/date.js:14-19 | later, the unit is the same or one the earlier time had not reached |
| RelativeTime.UnitNamesDistinct | frontend/src/utils/date.js:7-11 | the five unit labels are pairwise different |
| RelativeTime.RenderJustNowIff | frontend/src/utils/date.js:17-21 | only "just now" renders as "刚刚" |
| RelativeTime.RenderInjective | frontend/src/utils/date.js:17 | two counted distances with the same text are equal |
| RelativeTime.JustNowIff | frontend/src/utils/date.js:1-22 | "刚刚" exactly for an unparsable date or less than 60000 ms elapsed, future dates included |
| RelativeTime.FormatDeterminesShown | frontend/src/utils/date.js:17 | two dates with the same text stand for the same shown amount |
| CreateForm.TrimAll | frontend/src/pages/CreateSnippet.jsx:37 | `map(t => t.trim())` trims every piece and keeps their number |
| CreateForm.Submit | frontend/src/pages/CreateSnippet.jsx:28-43 | nothing is sent exactly when the trimmed title or trimmed code is empty |
| CreateForm.SubmittedFormValidates | frontend/src/pages/CreateSnippet.jsx:28-31 | a submitted form passes the server validators exactly when the trimmed title is at most 200 characters and a language is set |
| CreateForm.TrimmedPieceWellFormed | frontend/src/pages/CreateSnippet.jsx:36-38 | a non-blank piece trims to a non-empty, comma-free, trimmed name |
| CreateForm.ParsedTagsWellFormed | frontend/src/pages/CreateSnippet.jsx:35-38 | every parsed tag is non-empty, comma-free and trimmed |
| CreateForm.ParsedTagsCount | frontend/src/pages/CreateSnippet.jsx:35-38 | at most one tag per comma plus one |
| CreateForm.SplitPiecesFrom | frontend/src/pages/CreateSnippet.jsx:36 | every character of a piece comes from the field |
| CreateForm.NoNamesIff | frontend/src/pages/CreateSnippet.jsx:37-38 | trimming and dropping empties leaves nothing exactly when every piece is blank |
| CreateForm.NoTagsIff | frontend/src/pages/CreateSnippet.jsx:35-38 | the field yields no tags exactly when every piece between commas is blank |
| CreateForm.BlankFieldNoTags | frontend/src/pages/CreateSnippet.jsx:35-38 | a field of only commas and whitespace yields no tags |
| CreateForm.ParseTagsRoundTrip | frontend/src/pages/CreateSnippet.jsx:35-38 | well-formed names typed with commas come back in order, repetitions included |
| CreateForm.ParsedTagsReadBack | frontend/src/pages/CreateSnippet.jsx:35-38 | parsed tags survive the server's `GROUP_CONCAT` and `split` unchanged |
| CreateForm.RepeatedTagKept | frontend/src/pages/CreateSnippet.jsx:35-38 | `react,react` parses to two `react` tags: no deduplication |
| CreateForm.RepeatedTagCountsTwice | frontend/src/pages/CreateSnippet.jsx:35-38 | a tag typed twice raises its usage count by two once created |

## Left out

- The Socket.IO relay, `server.js` start-up, `auth.js`, the `authenticateToken` and `optionalAuth` middleware, and every frontend file except the two functions above are not part of this model. The requester's id is a parameter.
- `database/schema.sql` is not part of this model. Constraints are assumed as follows:
  - Primary keys are unique and auto-incremented.
  - Tag names are unique.
  - `usage_count` starts at 0.
  - A snippet delete removes no row of `likes`, `favorites` or `snippet_tags`; foreign-key cascades are not modelled.
  - A like or favorite on a missing snippet is inserted rather than refused.
  - `snippet_tags` has no unique key on `(snippet_id, tag_id)`.
    - The tag loop links every occurrence, so `tags: ["react", "react"]` stores two links and adds 2 to the usage count.
    - With such a key, the second `INSERT` would fail, the create would roll back and answer 500.
    - `SnippetCreate.AddTagsUsage`, `SnippetCreate.AfterCreateSpec` and `CreateForm.RepeatedTagCountsTwice` rest on this assumption.
  - Tag names compare and sort under a binary collation.
    - `WHERE name = ?` is exact equality (`Db.FindTagByName`).
    - `ORDER BY name` is code-point order (`Text.LexLessEq`).
    - Under MySQL's default case-insensitive collation, `React` would find the tag `react`, which changes per-name usage counts and the order of `GET /tags`.
- The 500 answers of every handler except create are not modelled: the database and Redis never fail outside the create transaction. For create, a `Fault` parameter chooses the failing step.
- Query-string coercion is not modelled. `page`, `limit` and ids are natural numbers, page and limit at least 1. The source keeps them as strings: in cache keys, `page=01` and `page=1` are different keys, and a non-numeric value gives `NaN`.
- SnippetQueries.MatchesSearch: `LIKE` is substring containment, with `%`, `_` and the collation's case folding left out.
- SnippetQueries.ListKeyInjective holds only without `:` in the filters. `ListKeyCollision` shows why.
- MySQL does not specify the order of `ORDER BY` among equal keys, or the order of `GROUP_CONCAT`.
  - The model sorts stably and concatenates tag names in link order.
  - Listing contracts state only the requested order and the multiset of rows.
  - SnippetCreate.AddTagNames, SnippetCreate.AddTagsNames and SnippetCreate.AfterCreateSpec also fix the tag names in link order, which is the model's choice and not a MySQL guarantee. `AfterCreateSpec` states the guaranteed part separately, as the multiset of the body's `tags`.
  - `group_concat_max_len` truncation is left out.
- UserRoutes.LikeReceivedBy joins a like to the first snippet with its id, which equals the SQL join while snippet ids are unique.
- Redis time-to-live expiry and the JSON round trip are not modelled:
  - An entry stays until `DEL`.
  - A cached body is stored as the structured value that `JSON.stringify` would serialise.
- Concurrency is not modelled: each handler runs to completion before the next begins.
  - SnippetRoutes.GetSnippet: the view update on a cache hit is fire-and-forget in the source. The model applies it before answering, and its failure is not modelled.
- SnippetRoutes.Transaction: a rollback restores the auto-increment counters. InnoDB would not restore them, so ids after a failed create may differ from the source's.
- SnippetRoutes.CreateSnippet:
  - The body's `tags` is taken to be a list of strings. A non-array value and non-string entries are left out.
  - Only the first validator message's existence is modelled, not its text.
- `CACHE_TTL` parsing is left out. The store holds a positive `cacheTtl` chosen when it is created.
- Route order in `backend/routes/users.js` is not modelled.
  - `GET /users/:id/snippets` (line 46) is declared before `GET /users/me/snippets` (line 84) and never passes the request on.
  - Express therefore always answers `/users/me/snippets` with the public listing of a user whose id is `me`.
  - `UserRoutes.MySnippetsQuery` models the handler at line 84 as written, though Express never reaches it.
- RelativeTime.FormatDistanceToNow: date parsing is left out. A date is a millisecond timestamp, or `None` when `new Date` yields an invalid date. The clock is the `nowMs` parameter.
- `formatDate` in `frontend/src/utils/date.js` is left out: it depends on the locale formatting of the runtime.
