/**
 * backend/routes/users.js: read-only queries over the database. A profile with two
 * counters, a user's public snippets, the requester's own snippets (private ones
 * included) and the requester's favorites, each listing paged by `LIMIT`/`OFFSET` and
 * reported with `totalPages = ceil(total / limit)`.
 */
module UserRoutes {
  import opened Ordering
  import opened Paging
  import opened Db
  import opened Views
  import opened SnippetQueries

  datatype UserStats = UserStats(snippetsCount: nat, likesReceived: nat)

  datatype UserProfile = UserProfile(user: User, stats: UserStats)

  predicate PublicOf(s: Snippet, userId: nat)
  {
    s.userId == userId && s.isPublic
  }

  /** `likes l JOIN snippets s ON l.snippet_id = s.id WHERE s.user_id = ?`, with snippet ids unique. */
  predicate LikeReceivedBy(db: Tables, l: Like, userId: nat)
  {
    FindSnippet(db.snippets, l.snippetId).Some? && FindSnippet(db.snippets, l.snippetId).value.userId == userId
  }

  /** `GET /users/:id` (lines 8-43): 404 when no user has the id. */
  function GetUser(db: Tables, id: nat): (r: Option<UserProfile>)
    ensures r.None? <==> forall i :: 0 <= i < |db.users| ==> db.users[i].id != id
    ensures r.Some? ==> r.value.user in db.users && r.value.user.id == id
  {
    match FindUser(db.users, id)
    case None => None
    case Some(u) =>
      Some(UserProfile(u, UserStats(CountWhere(db.snippets, (s: Snippet) => PublicOf(s, id)),
                                    CountWhere(db.likes, (l: Like) => LikeReceivedBy(db, l, id)))))
  }

  /** A like is on one of the user's snippets, public or private. */
  predicate OnSnippetOf(db: Tables, l: Like, userId: nat)
  {
    exists s :: s in db.snippets && s.id == l.snippetId && s.userId == userId
  }

  /**
   * With snippet ids unique, `likesReceived` counts exactly the likes on the user's
   * snippets, whether or not they are public.
   */
  lemma LikesReceivedCountsOwnSnippets(db: Tables, id: nat)
    requires UniqueSnippetIds(db.snippets) && GetUser(db, id).Some?
    ensures GetUser(db, id).value.stats.likesReceived == CountWhere(db.likes, (l: Like) => OnSnippetOf(db, l, id))
  {
    forall l | l in db.likes
      ensures LikeReceivedBy(db, l, id) <==> OnSnippetOf(db, l, id)
    {
      if OnSnippetOf(db, l, id) {
        var s :| s in db.snippets && s.id == l.snippetId && s.userId == id;
        var k :| 0 <= k < |db.snippets| && db.snippets[k] == s;
        FindSnippetUnique(db.snippets, k);
      }
    }
    CountWhereMonotone(db.likes, (l: Like) => LikeReceivedBy(db, l, id), (l: Like) => OnSnippetOf(db, l, id));
    CountWhereMonotone(db.likes, (l: Like) => OnSnippetOf(db, l, id), (l: Like) => LikeReceivedBy(db, l, id));
  }

  /** A like on a private snippet counts towards `likesReceived`, though the snippet is not in `snippetsCount`. */
  lemma LikesReceivedIncludePrivate()
    ensures var db := Tables([User(1, "u", None, None, None, 0)],
                             [Snippet(7, 1, "t", None, "c", "go", false, 0, 0)],
                             [], [], [Like(2, 7)], [], 8, 1);
            GetUser(db, 1) == Some(UserProfile(User(1, "u", None, None, None, 0), UserStats(0, 1)))
  {
    var s := Snippet(7, 1, "t", None, "c", "go", false, 0, 0);
    var db := Tables([User(1, "u", None, None, None, 0)], [s], [], [], [Like(2, 7)], [], 8, 1);
    assert !PublicOf(s, 1);
    assert db.snippets[1..] == [] && db.likes[1..] == [];
    assert LikeReceivedBy(db, Like(2, 7), 1);
  }

  // `GET /users/:id/snippets` (lines 46-81).

  datatype UserSnippetItem = UserSnippetItem(snippet: Snippet, username: string, avatar: Option<string>, likesCount: nat)

  datatype UserSnippetsPage = UserSnippetsPage(items: seq<UserSnippetItem>, pagination: Pagination)

  /** The rows of the join `snippets s JOIN users u`, filtered to the user's public snippets, newest first. */
  function UserSnippetRows(db: Tables, userId: nat): seq<Snippet>
  {
    SortBy(Filter(db.snippets, (s: Snippet) => PublicOf(s, userId) && FindUser(db.users, s.userId).Some?), NewerOrSame)
  }

  function UserSnippetItemOf(db: Tables, s: Snippet): UserSnippetItem
  {
    var owner := FindUser(db.users, s.userId);
    UserSnippetItem(s, if owner.Some? then owner.value.username else [],
                    if owner.Some? then owner.value.avatar else None, LikesCount(db, s.id))
  }

  function UserSnippetsQuery(db: Tables, userId: nat, page: nat, limit: nat): (r: UserSnippetsPage)
    requires page >= 1 && limit >= 1
    ensures |r.items| == |Window(UserSnippetRows(db, userId), Offset(page, limit), limit)|
    ensures forall i :: 0 <= i < |r.items| ==>
      r.items[i] == UserSnippetItemOf(db, Window(UserSnippetRows(db, userId), Offset(page, limit), limit)[i])
    ensures r.pagination.page == page && r.pagination.limit == limit
    ensures r.pagination.total == CountWhere(db.snippets, (s: Snippet) => PublicOf(s, userId))
    ensures r.pagination.totalPages == TotalPages(r.pagination.total, limit)
  {
    var w := Window(UserSnippetRows(db, userId), Offset(page, limit), limit);
    var total := CountWhere(db.snippets, (s: Snippet) => PublicOf(s, userId));
    UserSnippetsPage(seq(|w|, i requires 0 <= i < |w| => UserSnippetItemOf(db, w[i])),
                     Pagination(page, limit, total, TotalPages(total, limit)))
  }

  /** Every item is a public snippet of the user, newest first, at most `limit` of them. */
  lemma UserSnippetsItems(db: Tables, userId: nat, page: nat, limit: nat)
    requires page >= 1 && limit >= 1
    ensures var items := UserSnippetsQuery(db, userId, page, limit).items;
      && |items| <= limit
      && (forall i :: 0 <= i < |items| ==> items[i].snippet in db.snippets && PublicOf(items[i].snippet, userId))
      && (forall i, j :: 0 <= i < j < |items| ==> items[i].snippet.createdAt >= items[j].snippet.createdAt)
  {
    var p := (s: Snippet) => PublicOf(s, userId) && FindUser(db.users, s.userId).Some?;
    var rows := UserSnippetRows(db, userId);
    var off := Offset(page, limit);
    SortBySorted(Filter(db.snippets, p), NewerOrSame);
    WindowOfSorted(rows, off, limit, NewerOrSame);
    var items := UserSnippetsQuery(db, userId, page, limit).items;
    forall i | 0 <= i < |items|
      ensures items[i].snippet in db.snippets && PublicOf(items[i].snippet, userId)
    {
      assert items[i].snippet == rows[off + i];
      SortByMembers(Filter(db.snippets, p), NewerOrSame, rows[off + i]);
    }
  }

  /**
   * For an existing user the count query and the row query agree, and both agree with the
   * profile's `snippetsCount`; the pages then hold exactly `total` rows.
   */
  lemma UserSnippetsTotalExact(db: Tables, userId: nat, page: nat, limit: nat)
    requires page >= 1 && limit >= 1
    requires FindUser(db.users, userId).Some?
    ensures UserSnippetsQuery(db, userId, page, limit).pagination.total == |UserSnippetRows(db, userId)|
    ensures UserSnippetsQuery(db, userId, page, limit).pagination.total == GetUser(db, userId).value.stats.snippetsCount
  {
    var p := (s: Snippet) => PublicOf(s, userId) && FindUser(db.users, s.userId).Some?;
    var q := (s: Snippet) => PublicOf(s, userId);
    CountIsFilterLength(db.snippets, p);
    CountWhereMonotone(db.snippets, p, q);
    CountWhereMonotone(db.snippets, q, p);
    assert |multiset(UserSnippetRows(db, userId))| == |multiset(Filter(db.snippets, p))|;
  }

  // `GET /users/me/snippets` (lines 84-118).

  datatype MySnippetItem = MySnippetItem(snippet: Snippet, likesCount: nat, favoritesCount: nat)

  datatype MySnippetsPage = MySnippetsPage(items: seq<MySnippetItem>, pagination: Pagination)

  /** All the user's snippets, private ones included, newest first; no join. */
  function MySnippetRows(db: Tables, userId: nat): seq<Snippet>
  {
    SortBy(Filter(db.snippets, (s: Snippet) => s.userId == userId), NewerOrSame)
  }

  function MySnippetsQuery(db: Tables, userId: nat, page: nat, limit: nat): (r: MySnippetsPage)
    requires page >= 1 && limit >= 1
    ensures |r.items| == |Window(MySnippetRows(db, userId), Offset(page, limit), limit)|
    ensures forall i :: 0 <= i < |r.items| ==>
      var s := Window(MySnippetRows(db, userId), Offset(page, limit), limit)[i];
      r.items[i] == MySnippetItem(s, LikesCount(db, s.id), FavoritesCount(db, s.id))
    ensures r.pagination.page == page && r.pagination.limit == limit
    ensures r.pagination.total == CountWhere(db.snippets, (s: Snippet) => s.userId == userId)
    ensures r.pagination.totalPages == TotalPages(r.pagination.total, limit)
  {
    var w := Window(MySnippetRows(db, userId), Offset(page, limit), limit);
    var total := CountWhere(db.snippets, (s: Snippet) => s.userId == userId);
    MySnippetsPage(seq(|w|, i requires 0 <= i < |w| => MySnippetItem(w[i], LikesCount(db, w[i].id), FavoritesCount(db, w[i].id))),
                   Pagination(page, limit, total, TotalPages(total, limit)))
  }

  /** The total is exactly the number of rows the pages hold, and it never falls below the public count. */
  lemma MySnippetsTotal(db: Tables, userId: nat, page: nat, limit: nat)
    requires page >= 1 && limit >= 1
    ensures MySnippetsQuery(db, userId, page, limit).pagination.total == |MySnippetRows(db, userId)|
    ensures MySnippetsQuery(db, userId, page, limit).pagination.total >=
            UserSnippetsQuery(db, userId, page, limit).pagination.total
  {
    var mine := (s: Snippet) => s.userId == userId;
    CountIsFilterLength(db.snippets, mine);
    CountWhereMonotone(db.snippets, (s: Snippet) => PublicOf(s, userId), mine);
    assert |multiset(MySnippetRows(db, userId))| == |multiset(Filter(db.snippets, mine))|;
  }

  /** Every snippet of the user, public or private, is on the page its position says. */
  lemma EveryOwnSnippetOnSomePage(db: Tables, userId: nat, limit: nat, s: Snippet) returns (page: nat, i: nat)
    requires limit >= 1 && s in db.snippets && s.userId == userId
    ensures page >= 1
    ensures i < |MySnippetsQuery(db, userId, page, limit).items|
    ensures MySnippetsQuery(db, userId, page, limit).items[i].snippet == s
  {
    var k := OwnRowIndex(db, userId, s);
    page, i := RowOnSomePage(MySnippetRows(db, userId), limit, k);
    var r := MySnippetsQuery(db, userId, page, limit);
    assert r.items[i].snippet == Window(MySnippetRows(db, userId), Offset(page, limit), limit)[i];
  }

  /** An own snippet has a position in the ordered rows. */
  lemma OwnRowIndex(db: Tables, userId: nat, s: Snippet) returns (k: nat)
    requires s in db.snippets && s.userId == userId
    ensures k < |MySnippetRows(db, userId)| && MySnippetRows(db, userId)[k] == s
  {
    var mine := Filter(db.snippets, (x: Snippet) => x.userId == userId);
    SortByMembers(mine, NewerOrSame, s);
    k :| 0 <= k < |MySnippetRows(db, userId)| && MySnippetRows(db, userId)[k] == s;
  }

  // `GET /users/me/favorites` (lines 121-157).

  /** One row of `favorites f JOIN snippets s JOIN users u`. */
  datatype FavoriteRow = FavoriteRow(favorite: Favorite, snippet: Snippet, owner: User)

  datatype FavoriteItem = FavoriteItem(snippet: Snippet, username: string, avatar: Option<string>,
                                       likesCount: nat, favoritedAt: int)

  datatype FavoritesPage = FavoritesPage(items: seq<FavoriteItem>, pagination: Pagination)

  /** The user's favorites whose snippet and owner exist, in table order; no visibility filter. */
  function JoinFavorites(db: Tables, favorites: seq<Favorite>, userId: nat): (r: seq<FavoriteRow>)
    ensures |r| <= |favorites|
    ensures forall i :: 0 <= i < |r| ==>
      && r[i].favorite in favorites
      && r[i].favorite.userId == userId
      && FindSnippet(db.snippets, r[i].favorite.snippetId) == Some(r[i].snippet)
      && FindUser(db.users, r[i].snippet.userId) == Some(r[i].owner)
  {
    if favorites == [] then []
    else
      var rest := JoinFavorites(db, favorites[1..], userId);
      var f := favorites[0];
      var s := FindSnippet(db.snippets, f.snippetId);
      if f.userId == userId && s.Some? && FindUser(db.users, s.value.userId).Some? then
        [FavoriteRow(f, s.value, FindUser(db.users, s.value.userId).value)] + rest
      else rest
  }

  /** `ORDER BY f.created_at DESC`. */
  predicate FavoritedLater(a: FavoriteRow, b: FavoriteRow)
  {
    a.favorite.createdAt >= b.favorite.createdAt
  }

  function FavoriteRows(db: Tables, userId: nat): seq<FavoriteRow>
  {
    SortBy(JoinFavorites(db, db.favorites, userId), FavoritedLater)
  }

  function FavoriteItemOf(db: Tables, row: FavoriteRow): FavoriteItem
  {
    FavoriteItem(row.snippet, row.owner.username, row.owner.avatar, LikesCount(db, row.snippet.id), row.favorite.createdAt)
  }

  function MyFavoritesQuery(db: Tables, userId: nat, page: nat, limit: nat): (r: FavoritesPage)
    requires page >= 1 && limit >= 1
    ensures |r.items| == |Window(FavoriteRows(db, userId), Offset(page, limit), limit)|
    ensures forall i :: 0 <= i < |r.items| ==>
      r.items[i] == FavoriteItemOf(db, Window(FavoriteRows(db, userId), Offset(page, limit), limit)[i])
    ensures r.pagination.page == page && r.pagination.limit == limit
    ensures r.pagination.total == CountWhere(db.favorites, (f: Favorite) => f.userId == userId)
    ensures r.pagination.totalPages == TotalPages(r.pagination.total, limit)
  {
    var w := Window(FavoriteRows(db, userId), Offset(page, limit), limit);
    var total := CountWhere(db.favorites, (f: Favorite) => f.userId == userId);
    FavoritesPage(seq(|w|, i requires 0 <= i < |w| => FavoriteItemOf(db, w[i])),
                  Pagination(page, limit, total, TotalPages(total, limit)))
  }

  /**
   * Every item is a snippet the user has favorited, most recently favorited first; the
   * snippet may be private, and at most `limit` items come back.
   */
  lemma MyFavoritesItems(db: Tables, userId: nat, page: nat, limit: nat)
    requires page >= 1 && limit >= 1
    ensures var items := MyFavoritesQuery(db, userId, page, limit).items;
      && |items| <= limit
      && (forall i :: 0 <= i < |items| ==>
            items[i].snippet in db.snippets && Favorited(db, userId, items[i].snippet.id))
      && (forall i, j :: 0 <= i < j < |items| ==> items[i].favoritedAt >= items[j].favoritedAt)
  {
    var joined := JoinFavorites(db, db.favorites, userId);
    var rows := FavoriteRows(db, userId);
    var off := Offset(page, limit);
    SortBySorted(joined, FavoritedLater);
    WindowOfSorted(rows, off, limit, FavoritedLater);
    var items := MyFavoritesQuery(db, userId, page, limit).items;
    forall i | 0 <= i < |items|
      ensures items[i].snippet in db.snippets && Favorited(db, userId, items[i].snippet.id)
    {
      var row := rows[off + i];
      assert items[i].snippet == row.snippet;
      SortByMembers(joined, FavoritedLater, row);
      var k :| 0 <= k < |joined| && joined[k] == row;
      var f := row.favorite;
      var m :| 0 <= m < |db.favorites| && db.favorites[m] == f;
      assert IsFavoriteOf(db.favorites[m], userId, row.snippet.id);
    }
  }

  /** The total counts the user's favorite rows, so it never falls below the number of rows listed. */
  lemma {:induction false} JoinedFavoritesCounted(db: Tables, favorites: seq<Favorite>, userId: nat)
    ensures |JoinFavorites(db, favorites, userId)| <= CountWhere(favorites, (f: Favorite) => f.userId == userId)
  {
    if favorites != [] {
      JoinedFavoritesCounted(db, favorites[1..], userId);
    }
  }

  /** A favorite whose snippet and owner exist is listed, whether or not the snippet is public. */
  lemma {:induction false} FavoriteOfPrivateSnippetListed(db: Tables, favorites: seq<Favorite>, userId: nat, k: nat)
    requires k < |favorites| && favorites[k].userId == userId
    requires FindSnippet(db.snippets, favorites[k].snippetId).Some?
    requires FindUser(db.users, FindSnippet(db.snippets, favorites[k].snippetId).value.userId).Some?
    ensures exists i :: 0 <= i < |JoinFavorites(db, favorites, userId)| &&
                        JoinFavorites(db, favorites, userId)[i].favorite == favorites[k]
  {
    var r := JoinFavorites(db, favorites, userId);
    if k == 0 {
      assert r[0].favorite == favorites[0];
    } else {
      FavoriteOfPrivateSnippetListed(db, favorites[1..], userId, k - 1);
      var rest := JoinFavorites(db, favorites[1..], userId);
      var i :| 0 <= i < |rest| && rest[i].favorite == favorites[k];
      var off := |r| - |rest|;
      assert r[off + i] == rest[i];
    }
  }

  /** The favorites total is the user's favorite rows, at least as many as the listable rows. */
  lemma MyFavoritesTotal(db: Tables, userId: nat, page: nat, limit: nat)
    requires page >= 1 && limit >= 1
    ensures |FavoriteRows(db, userId)| <= MyFavoritesQuery(db, userId, page, limit).pagination.total
  {
    JoinedFavoritesCounted(db, db.favorites, userId);
    var joined := JoinFavorites(db, db.favorites, userId);
    assert |multiset(FavoriteRows(db, userId))| == |multiset(joined)|;
  }
}
