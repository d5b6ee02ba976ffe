/**
 * The read side of `backend/routes/snippets.js` as pure functions of the database:
 * the listing query and its separate count query, the single-snippet query, the view
 * counter update, and the Redis key templates.
 */
module SnippetQueries {
  import opened Text
  import opened Ordering
  import opened Paging
  import opened Db
  import opened Views

  /** The query string of `GET /snippets` after defaults: page 1, limit 12, empty filters. */
  datatype ListQuery = ListQuery(page: nat, limit: nat, search: string, language: string, tag: string)
  {
    function Where(): Filters
    {
      Filters(search, language, tag)
    }
  }

  /** The text filters of a listing; an empty one is not applied. */
  datatype Filters = Filters(search: string, language: string, tag: string)

  predicate ValidQuery(q: ListQuery)
  {
    q.page >= 1 && q.limit >= 1
  }

  /** `s.title LIKE %search% OR s.description LIKE %search%`; a NULL description never matches. */
  predicate MatchesSearch(s: Snippet, search: string)
  {
    search == [] || Contains(s.title, search) ||
    (s.description.Some? && Contains(s.description.value, search))
  }

  predicate MatchesLanguage(s: Snippet, language: string)
  {
    language == [] || s.language == language
  }

  /** The WHERE clause of the count query: public, search and language only. */
  predicate Counted(s: Snippet, f: Filters)
  {
    s.isPublic && MatchesSearch(s, f.search) && MatchesLanguage(s, f.language)
  }

  /** The WHERE clause of the row query, with its inner `JOIN users` and the tag sub-select. */
  predicate Listed(db: Tables, s: Snippet, f: Filters)
  {
    && Counted(s, f)
    && (f.tag == [] || f.tag in TagNames(db, s.id))
    && FindUser(db.users, s.userId).Some?
  }

  /** `ORDER BY s.created_at DESC`. */
  predicate NewerOrSame(a: Snippet, b: Snippet)
  {
    a.createdAt >= b.createdAt
  }

  lemma NewerOrSameIsTotalPreorder()
    ensures TotalPreorder(NewerOrSame)
  {
  }

  function ListedRows(db: Tables, f: Filters): seq<Snippet>
  {
    SortBy(Filter(db.snippets, (s: Snippet) => Listed(db, s, f)), NewerOrSame)
  }

  function CountTotal(db: Tables, f: Filters): nat
  {
    CountWhere(db.snippets, (s: Snippet) => Counted(s, f))
  }

  /** One row of the listing: the snippet with `u.username`, `u.avatar`, `likes_count`, `tags`. */
  function ToListItem(db: Tables, s: Snippet): ListItem
  {
    var owner := FindUser(db.users, s.userId);
    ListItem(s, if owner.Some? then owner.value.username else [],
             if owner.Some? then owner.value.avatar else None,
             LikesCount(db, s.id), TagsField(TagNames(db, s.id)))
  }

  /**
   * The body `GET /snippets` builds on a cache miss (lines 24-90): the page-sized window,
   * at offset `(page - 1) * limit`, of the listable rows newest first, and the metadata.
   */
  function ListSnippetsQuery(db: Tables, q: ListQuery): (r: ListPage)
    requires ValidQuery(q)
    ensures |r.items| == |Window(ListedRows(db, q.Where()), Offset(q.page, q.limit), q.limit)|
    ensures forall i :: 0 <= i < |r.items| ==>
      r.items[i] == ToListItem(db, Window(ListedRows(db, q.Where()), Offset(q.page, q.limit), q.limit)[i])
    ensures r.pagination.page == q.page && r.pagination.limit == q.limit
    ensures r.pagination.total == CountTotal(db, q.Where())
    ensures r.pagination.totalPages == TotalPages(r.pagination.total, q.limit)
  {
    var window := Window(ListedRows(db, q.Where()), Offset(q.page, q.limit), q.limit);
    var total := CountTotal(db, q.Where());
    ListPage(seq(|window|, i requires 0 <= i < |window| => ToListItem(db, window[i])),
             Pagination(q.page, q.limit, total, TotalPages(total, q.limit)))
  }

  /** The listable rows are rows of the table that pass the filters. */
  lemma ListedRowsMembers(db: Tables, f: Filters)
    ensures forall i :: 0 <= i < |ListedRows(db, f)| ==>
      ListedRows(db, f)[i] in db.snippets && Listed(db, ListedRows(db, f)[i], f)
  {
    var filtered := Filter(db.snippets, (s: Snippet) => Listed(db, s, f));
    var rows := ListedRows(db, f);
    forall i | 0 <= i < |rows|
      ensures rows[i] in db.snippets && Listed(db, rows[i], f)
    {
      SortByMembers(filtered, NewerOrSame, rows[i]);
    }
  }

  /** The listable rows come newest first. */
  lemma ListedRowsNewestFirst(db: Tables, f: Filters)
    ensures forall i, j :: 0 <= i < j < |ListedRows(db, f)| ==>
      NewerOrSame(ListedRows(db, f)[i], ListedRows(db, f)[j])
  {
    SortBySorted(Filter(db.snippets, (s: Snippet) => Listed(db, s, f)), NewerOrSame);
  }

  /**
   * What a listing page holds: at most `limit` items, each a public row of the table that
   * passes every non-empty filter, with its like count and tag list.
   */
  lemma ListingItems(db: Tables, q: ListQuery)
    requires ValidQuery(q)
    ensures var items := ListSnippetsQuery(db, q).items;
      && |items| <= q.limit
      && (forall i :: 0 <= i < |items| ==>
            && items[i].snippet in db.snippets
            && Listed(db, items[i].snippet, q.Where())
            && items[i].likesCount == LikesCount(db, items[i].snippet.id)
            && items[i].tags == TagsField(TagNames(db, items[i].snippet.id)))
  {
    var rows := ListedRows(db, q.Where());
    ListedRowsMembers(db, q.Where());
    var off := Offset(q.page, q.limit);
    var items := ListSnippetsQuery(db, q).items;
    forall i | 0 <= i < |items|
      ensures items[i].snippet in db.snippets && Listed(db, items[i].snippet, q.Where())
    {
      assert items[i].snippet == rows[off + i];
    }
  }

  /** A listing page is ordered newest first. */
  lemma ListingNewestFirst(db: Tables, q: ListQuery)
    requires ValidQuery(q)
    ensures var items := ListSnippetsQuery(db, q).items;
      forall i, j :: 0 <= i < j < |items| ==> items[i].snippet.createdAt >= items[j].snippet.createdAt
  {
    var rows := ListedRows(db, q.Where());
    ListedRowsNewestFirst(db, q.Where());
    WindowOfSorted(rows, Offset(q.page, q.limit), q.limit, NewerOrSame);
  }

  /** Every listable snippet is on some page of the listing: the one its position says. */
  lemma EveryListedSnippetOnSomePage(db: Tables, q: ListQuery, s: Snippet) returns (page: nat, i: nat)
    requires ValidQuery(q) && s in db.snippets && Listed(db, s, q.Where())
    ensures page >= 1
    ensures i < |ListSnippetsQuery(db, q.(page := page)).items|
    ensures ListSnippetsQuery(db, q.(page := page)).items[i].snippet == s
  {
    var f := q.Where();
    var k := ListedRowIndex(db, f, s);
    page, i := RowOnSomePage(ListedRows(db, f), q.limit, k);
    var q' := q.(page := page);
    assert q'.Where() == f;
    var r := ListSnippetsQuery(db, q');
    assert r.items[i].snippet == Window(ListedRows(db, f), Offset(page, q.limit), q.limit)[i];
  }

  /** A listable snippet has a position in the ordered listing. */
  lemma ListedRowIndex(db: Tables, f: Filters, s: Snippet) returns (k: nat)
    requires s in db.snippets && Listed(db, s, f)
    ensures k < |ListedRows(db, f)| && ListedRows(db, f)[k] == s
  {
    var filtered := Filter(db.snippets, (x: Snippet) => Listed(db, x, f));
    SortByMembers(filtered, NewerOrSame, s);
    k :| 0 <= k < |ListedRows(db, f)| && ListedRows(db, f)[k] == s;
  }

  /** The count query ignores the tag filter and the users join: it never counts fewer rows than are listable. */
  lemma TotalCoversListedRows(db: Tables, f: Filters)
    ensures |ListedRows(db, f)| <= CountTotal(db, f)
  {
    var filtered := Filter(db.snippets, (s: Snippet) => Listed(db, s, f));
    CountIsFilterLength(db.snippets, (s: Snippet) => Listed(db, s, f));
    CountWhereMonotone(db.snippets, (s: Snippet) => Listed(db, s, f), (s: Snippet) => Counted(s, f));
    assert |multiset(ListedRows(db, f))| == |multiset(filtered)|;
  }

  /** The total does not depend on page, limit or tag. */
  lemma TotalIgnoresPagingAndTag(db: Tables, q1: ListQuery, q2: ListQuery)
    requires q1.search == q2.search && q1.language == q2.language
    ensures CountTotal(db, q1.Where()) == CountTotal(db, q2.Where())
  {
    var f1, f2 := q1.Where(), q2.Where();
    CountWhereMonotone(db.snippets, (s: Snippet) => Counted(s, f1), (s: Snippet) => Counted(s, f2));
    CountWhereMonotone(db.snippets, (s: Snippet) => Counted(s, f2), (s: Snippet) => Counted(s, f1));
  }

  /** A tag filter that matches nothing still reports the untagged total and a page count. */
  lemma TagFilterOverstatesTotal()
    ensures var s := Snippet(1, 1, "t", None, "c", "go", true, 0, 0);
            var db := Tables([User(1, "u", None, None, None, 0)], [s], [], [], [], [], 2, 1);
            var q := ListQuery(1, 12, "", "", "react");
            ListSnippetsQuery(db, q).items == [] &&
            ListSnippetsQuery(db, q).pagination.total == 1 &&
            ListSnippetsQuery(db, q).pagination.totalPages == 1
  {
    var s := Snippet(1, 1, "t", None, "c", "go", true, 0, 0);
    var db := Tables([User(1, "u", None, None, None, 0)], [s], [], [], [], [], 2, 1);
    var q := ListQuery(1, 12, "", "", "react");
    var f := q.Where();
    assert !Listed(db, s, f);
    assert Filter(db.snippets, (x: Snippet) => Listed(db, x, f)) == [];
    assert Counted(s, f);
    assert CountTotal(db, f) == 1 by {
      assert db.snippets[1..] == [];
    }
  }

  /** The row `GET /snippets/:id` selects (lines 116-147); `viewer` is `req.user`. */
  function SnippetDetailQuery(db: Tables, id: nat, viewer: Option<nat>): (r: Option<SnippetDetail>)
    ensures r.None? <==> FindSnippet(db.snippets, id).None? ||
                         FindUser(db.users, FindSnippet(db.snippets, id).value.userId).None?
    ensures r.Some? ==> r.value.snippet in db.snippets && r.value.snippet.id == id
    ensures r.Some? ==> r.value.likesCount == LikesCount(db, id)
    ensures r.Some? ==> r.value.tags == TagsField(TagNames(db, id))
    ensures r.Some? ==> (r.value.viewer.Some? <==> viewer.Some?)
    ensures r.Some? && viewer.Some? ==>
      r.value.viewer.value == ViewerFlags(Liked(db, viewer.value, id), Favorited(db, viewer.value, id))
  {
    match FindSnippet(db.snippets, id)
    case None => None
    case Some(s) =>
      match FindUser(db.users, s.userId)
      case None => None
      case Some(u) =>
        var flags := if viewer.Some? then Some(ViewerFlags(Liked(db, viewer.value, id), Favorited(db, viewer.value, id)))
                     else None;
        Some(SnippetDetail(s, u.username, u.avatar, u.bio, LikesCount(db, id), TagsField(TagNames(db, id)), flags))
  }

  /** `UPDATE snippets SET views = views + 1 WHERE id = ?`. */
  function BumpViews(db: Tables, id: nat): (r: Tables)
    ensures r.(snippets := db.snippets) == db
  {
    db.(snippets := BumpRows(db.snippets, id))
  }

  /** A row that has been viewed once more. */
  function Viewed(s: Snippet): (r: Snippet)
    ensures r.id == s.id && r.views == s.views + 1
    ensures r.(views := s.views) == s
  {
    s.(views := s.views + 1)
  }

  /** The rows after the update: the rows with the id count one more view, the others are unchanged. */
  function BumpRows(rows: seq<Snippet>, id: nat): (r: seq<Snippet>)
    ensures |r| == |rows|
    ensures forall i :: 0 <= i < |r| ==> r[i].id == rows[i].id
  {
    if rows == [] then []
    else [if rows[0].id == id then Viewed(rows[0]) else rows[0]] + BumpRows(rows[1..], id)
  }

  /** The view counter of the snippet rises by exactly one. */
  lemma BumpViewsByOne(db: Tables, id: nat)
    requires FindSnippet(db.snippets, id).Some?
    ensures FindSnippet(BumpViews(db, id).snippets, id) == Some(Viewed(FindSnippet(db.snippets, id).value))
  {
    BumpRowsFound(db.snippets, id);
  }

  lemma {:induction false} BumpRowsFound(rows: seq<Snippet>, id: nat)
    requires FindSnippet(rows, id).Some?
    ensures FindSnippet(BumpRows(rows, id), id) == Some(Viewed(FindSnippet(rows, id).value))
  {
    var r := BumpRows(rows, id);
    if rows[0].id == id {
      assert r[0] == Viewed(rows[0]);
    } else {
      assert r[0] == rows[0];
      assert r[1..] == BumpRows(rows[1..], id);
      BumpRowsFound(rows[1..], id);
    }
  }

  /** Every other row is left as it was. */
  lemma {:induction false} BumpRowsAt(rows: seq<Snippet>, id: nat, i: nat)
    requires i < |rows|
    ensures BumpRows(rows, id)[i] == if rows[i].id == id then Viewed(rows[i]) else rows[i]
  {
    if i > 0 {
      assert BumpRows(rows, id)[i] == BumpRows(rows[1..], id)[i - 1];
      BumpRowsAt(rows[1..], id, i - 1);
    }
  }

  /** Bumping views keeps the database well formed. */
  lemma BumpViewsWellFormed(db: Tables, id: nat)
    requires WellFormed(db)
    ensures WellFormed(BumpViews(db, id))
  {
  }

  /** `snippets:list:${page}:${limit}:${search}:${language}:${tag}`. */
  function ListKey(q: ListQuery): string
  {
    "snippets:list:" + NatToString(q.page) + ":" + NatToString(q.limit) + ":" +
    q.search + ":" + q.language + ":" + q.tag
  }

  /** The key the create and delete handlers pass to `DEL`. */
  const ListWildcard: string := "snippets:list:*"

  /** `snippet:${id}`. */
  function SnippetKey(id: nat): string
  {
    "snippet:" + NatToString(id)
  }

  function ListKeyFields(q: ListQuery): seq<string>
  {
    ["snippets", "list", NatToString(q.page), NatToString(q.limit), q.search, q.language, q.tag]
  }

  /** The key is the fields joined with ':'. */
  lemma ListKeyIsJoin(q: ListQuery)
    ensures ListKey(q) == Join(ListKeyFields(q), ':')
  {
    var p, l := NatToString(q.page), NatToString(q.limit);
    var f1: seq<string> := ["snippets"];
    var f2 := f1 + ["list"];
    var f3 := f2 + [p];
    var f4 := f3 + [l];
    var f5 := f4 + [q.search];
    var f6 := f5 + [q.language];
    assert f6 + [q.tag] == ListKeyFields(q);
    JoinSnoc(f1, "list", ':');
    JoinSnoc(f2, p, ':');
    JoinSnoc(f3, l, ':');
    JoinSnoc(f4, q.search, ':');
    JoinSnoc(f5, q.language, ':');
    JoinSnoc(f6, q.tag, ':');
    assert "snippets" + [':'] + "list" + [':'] == "snippets:list:";
  }

  predicate NoColon(q: ListQuery)
  {
    ':' !in q.search && ':' !in q.language && ':' !in q.tag
  }

  /** Without ':' in the text filters, different queries get different cache keys. */
  lemma ListKeyInjective(q1: ListQuery, q2: ListQuery)
    requires NoColon(q1) && NoColon(q2)
    requires ListKey(q1) == ListKey(q2)
    ensures q1 == q2
  {
    ListKeyIsJoin(q1);
    ListKeyIsJoin(q2);
    var f1, f2 := ListKeyFields(q1), ListKeyFields(q2);
    assert forall i :: 0 <= i < |f1| ==> ':' !in f1[i] by {
      assert ':' !in NatToString(q1.page) && ':' !in NatToString(q1.limit);
    }
    assert forall i :: 0 <= i < |f2| ==> ':' !in f2[i] by {
      assert ':' !in NatToString(q2.page) && ':' !in NatToString(q2.limit);
    }
    SplitJoin(f1, ':');
    SplitJoin(f2, ':');
    assert f1 == f2;
    assert f1[2] == f2[2] && f1[3] == f2[3];
    NatToStringInjective(q1.page, q2.page);
    NatToStringInjective(q1.limit, q2.limit);
  }

  /** With a ':' in a filter two different queries share a key, and so share a cached page. */
  lemma ListKeyCollision()
    ensures ListQuery(1, 12, "a:b", "", "") != ListQuery(1, 12, "a", "b:", "")
    ensures ListKey(ListQuery(1, 12, "a:b", "", "")) == ListKey(ListQuery(1, 12, "a", "b:", ""))
  {
    assert NatToString(1) == "1";
    assert NatToString(12) == "12" by {
      assert NatToString(1) + [Digit(2)] == "12";
    }
  }

  /** No listing key is the literal key `DEL` is given, so create and delete invalidate no listing. */
  lemma ListKeyIsNotWildcard(q: ListQuery)
    ensures ListKey(q) != ListWildcard
  {
    var k := ListKey(q);
    assert k[14] == NatToString(q.page)[0];
    assert ListWildcard[14] == '*';
  }

  /** Listing keys and single-snippet keys never collide. */
  lemma SnippetKeyIsNotListKey(id: nat, q: ListQuery)
    ensures SnippetKey(id) != ListKey(q)
  {
    assert SnippetKey(id)[7] == ':';
    assert ListKey(q)[7] == 's';
  }

  lemma SnippetKeyInjective(a: nat, b: nat)
    requires SnippetKey(a) == SnippetKey(b)
    ensures a == b
  {
    assert SnippetKey(a)[8..] == NatToString(a);
    assert SnippetKey(b)[8..] == NatToString(b);
    NatToStringInjective(a, b);
  }
}
