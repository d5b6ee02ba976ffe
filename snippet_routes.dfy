/**
 * The handlers of backend/routes/snippets.js over the shared store: cache-aside reads for
 * the listing and for one snippet, the transactional create, the like and favorite
 * toggles and the owner-checked delete.
 */
module SnippetRoutes {
  import opened Ordering
  import opened Db
  import opened Views
  import opened Storage
  import opened SnippetQueries
  import opened SnippetCreate

  datatype GetResult = Found(body: Json) | NotFound

  datatype CreateResult = Created(snippetId: nat) | BadRequest | ServerError

  datatype DeleteResult = Deleted | DeleteNotFound | Forbidden

  /**
   * Where a create may fail: the snippet insert, any query of the loop iteration for
   * `tags[index]`, the commit, or the cache delete that follows the commit.
   */
  datatype Fault = NoFault | FailInsert | FailAtTag(index: nat) | FailCommit | FailCacheDel

  /** The faults that reach the `catch` before `commit` has succeeded, so the rollback undoes the work. */
  predicate RolledBack(f: Fault, tagCount: nat)
  {
    f == FailInsert || (f.FailAtTag? && f.index < tagCount) || f == FailCommit
  }

  /** `GET /snippets` (lines 10-100). A hit returns the stored body as it is; a miss runs the queries and stores the result. */
  method ListSnippets(st: Store, q: ListQuery) returns (r: Json)
    requires ValidQuery(q)
    modifies st`cache
    ensures ListKey(q) in old(st.cache) ==> r == old(st.cache)[ListKey(q)].value && st.cache == old(st.cache)
    ensures ListKey(q) !in old(st.cache) ==>
      r == ListJson(ListSnippetsQuery(st.db, q)) && st.cache == old(st.cache)[ListKey(q) := Entry(r, st.cacheTtl)]
  {
    var key := ListKey(q);
    var cached := st.Get(key);
    if cached.Some? {
      return cached.value;
    }
    r := ListJson(ListSnippetsQuery(st.db, q));
    st.SetEx(key, st.cacheTtl, r);
  }

  /**
   * `GET /snippets/:id` (lines 103-160). A hit returns the stored body, whoever stored it,
   * and still counts the view; a miss on an unknown id answers 404 and writes nothing.
   */
  method GetSnippet(st: Store, id: nat, viewer: Option<nat>) returns (r: GetResult)
    requires st.Valid()
    modifies st
    ensures st.Valid()
    ensures SnippetKey(id) in old(st.cache) ==>
      && r == Found(old(st.cache)[SnippetKey(id)].value)
      && st.cache == old(st.cache)
      && st.db == BumpViews(old(st.db), id)
    ensures SnippetKey(id) !in old(st.cache) && SnippetDetailQuery(old(st.db), id, viewer).None? ==>
      r == NotFound && st.cache == old(st.cache) && st.db == old(st.db)
    ensures SnippetKey(id) !in old(st.cache) && SnippetDetailQuery(old(st.db), id, viewer).Some? ==>
      && r == Found(SnippetJson(SnippetDetailQuery(old(st.db), id, viewer).value))
      && st.cache == old(st.cache)[SnippetKey(id) := Entry(r.body, st.cacheTtl)]
      && st.db == BumpViews(old(st.db), id)
  {
    var key := SnippetKey(id);
    var cached := st.Get(key);
    if cached.Some? {
      BumpViewsWellFormed(st.db, id);
      st.db := BumpViews(st.db, id);
      return Found(cached.value);
    }
    var detail := SnippetDetailQuery(st.db, id, viewer);
    if detail.None? {
      return NotFound;
    }
    r := Found(SnippetJson(detail.value));
    st.SetEx(key, st.cacheTtl, r.body);
    BumpViewsWellFormed(st.db, id);
    st.db := BumpViews(st.db, id);
  }

  /**
   * `POST /snippets` (lines 163-227). Validation failure answers 400 before anything is
   * written; a failure up to the commit rolls the database back to the snapshot taken at
   * `beginTransaction`; a failure of the cache delete leaves the commit in place but
   * answers 500.
   */
  method CreateSnippet(st: Store, userId: nat, body: CreateBody, now: int, fault: Fault) returns (r: CreateResult)
    requires st.Valid()
    modifies st
    ensures st.Valid()
    ensures !Validates(body) ==> r == BadRequest && st.db == old(st.db) && st.cache == old(st.cache)
    ensures Validates(body) && RolledBack(fault, |body.tags|) ==>
      r == ServerError && st.db == old(st.db) && st.cache == old(st.cache)
    ensures Validates(body) && !RolledBack(fault, |body.tags|) ==>
      st.db == AfterCreate(old(st.db), userId, body, now)
    ensures Validates(body) && !RolledBack(fault, |body.tags|) && fault != FailCacheDel ==>
      r == Created(old(st.db).nextSnippetId) && st.cache == old(st.cache) - {ListWildcard}
    ensures Validates(body) && fault == FailCacheDel ==> r == ServerError && st.cache == old(st.cache)
    ensures st.cache == old(st.cache) || st.cache == old(st.cache) - {ListWildcard}
  {
    if !Validates(body) {
      return BadRequest;
    }
    var sid := st.db.nextSnippetId;
    var committed := Transaction(st, userId, body, now, fault);
    if !committed || fault == FailCacheDel {
      return ServerError;
    }
    st.Del(ListWildcard);
    r := Created(sid);
  }

  /**
   * `beginTransaction`, the snippet insert, the tag loop and `commit` (lines 180-210); on a
   * failure the `catch` block's `rollback` restores the snapshot.
   */
  method Transaction(st: Store, userId: nat, body: CreateBody, now: int, fault: Fault) returns (committed: bool)
    requires WellFormed(st.db)
    modifies st`db
    ensures WellFormed(st.db)
    ensures committed == !RolledBack(fault, |body.tags|)
    ensures committed ==> st.db == AfterCreate(old(st.db), userId, body, now)
    ensures !committed ==> st.db == old(st.db)
  {
    var snapshot := st.db;
    if fault == FailInsert {
      st.db := snapshot;
      return false;
    }
    var sid := st.db.nextSnippetId;
    var row := NewSnippet(st.db, userId, body, now);
    InsertSnippetWellFormed(st.db, row);
    st.db := InsertSnippet(st.db, row);
    ghost var inserted := st.db;
    var failed := TagLoop(st, sid, body.tags, fault);
    if failed || fault == FailCommit {
      st.db := snapshot;
      return false;
    }
    AddTagsWellFormed(inserted, sid, body.tags);
    committed := true;
  }

  /**
   * The `for (const tagName of tags)` loop inside the transaction (lines 191-208). It stops
   * at the iteration the fault names; otherwise it has run every iteration.
   */
  method TagLoop(st: Store, sid: nat, tags: seq<string>, fault: Fault) returns (failed: bool)
    modifies st`db
    ensures failed <==> fault.FailAtTag? && fault.index < |tags|
    ensures !failed ==> st.db == AddTags(old(st.db), sid, tags)
  {
    ghost var db0 := st.db;
    var i := 0;
    while i < |tags|
      invariant 0 <= i <= |tags|
      invariant st.db == AddTags(db0, sid, tags[..i])
      invariant fault.FailAtTag? ==> fault.index >= i
    {
      if fault == FailAtTag(i) {
        return true;
      }
      AddTagStep(st, sid, tags[i]);
      AddTagsPrefix(db0, sid, tags, i);
      i := i + 1;
    }
    assert tags[..i] == tags;
    failed := false;
  }

  /** One iteration: `SELECT id FROM tags WHERE name = ?`, the insert when absent, the link and the increment. */
  method AddTagStep(st: Store, sid: nat, name: string)
    modifies st`db
    ensures st.db == AddTag(old(st.db), sid, name)
  {
    var found := FindTagByName(st.db.tags, name);
    var tagId;
    if found.Some? {
      tagId := found.value.id;
    } else {
      tagId := st.db.nextTagId;
      st.db := st.db.(tags := st.db.tags + [Tag(tagId, name, 0)], nextTagId := tagId + 1);
    }
    st.db := st.db.(snippetTags := st.db.snippetTags + [SnippetTag(sid, tagId)]);
    st.db := st.db.(tags := IncrementUsage(st.db.tags, tagId));
  }

  /** `DELETE FROM likes WHERE user_id = ? AND snippet_id = ?` when liked, else `INSERT INTO likes`. */
  function ToggledLikes(likes: seq<Like>, userId: nat, snippetId: nat): seq<Like>
  {
    if Like(userId, snippetId) in likes then Filter(likes, (l: Like) => l != Like(userId, snippetId))
    else likes + [Like(userId, snippetId)]
  }

  /** The favorites counterpart; the inserted row is stamped with the current time. */
  function ToggledFavorites(favorites: seq<Favorite>, userId: nat, snippetId: nat, now: int): seq<Favorite>
  {
    if exists i :: 0 <= i < |favorites| && IsFavoriteOf(favorites[i], userId, snippetId) then
      Filter(favorites, (f: Favorite) => !IsFavoriteOf(f, userId, snippetId))
    else favorites + [Favorite(userId, snippetId, now)]
  }

  /** `POST /snippets/:id/like` (lines 230-254): flips the like and drops the cached snippet. */
  method ToggleLike(st: Store, userId: nat, snippetId: nat) returns (liked: bool)
    requires st.Valid()
    modifies st
    ensures st.Valid()
    ensures liked == !Liked(old(st.db), userId, snippetId)
    ensures st.db == old(st.db).(likes := ToggledLikes(old(st.db.likes), userId, snippetId))
    ensures st.cache == old(st.cache) - {SnippetKey(snippetId)}
  {
    var existing := Liked(st.db, userId, snippetId);
    st.db := st.db.(likes := ToggledLikes(st.db.likes, userId, snippetId));
    st.Del(SnippetKey(snippetId));
    liked := !existing;
  }

  /** `POST /snippets/:id/favorite` (lines 257-277): flips the favorite; the cache is not touched. */
  method ToggleFavorite(st: Store, userId: nat, snippetId: nat, now: int) returns (favorited: bool)
    requires st.Valid()
    modifies st`db
    ensures st.Valid()
    ensures favorited == !Favorited(old(st.db), userId, snippetId)
    ensures st.db == old(st.db).(favorites := ToggledFavorites(old(st.db.favorites), userId, snippetId, now))
  {
    var existing := Favorited(st.db, userId, snippetId);
    st.db := st.db.(favorites := ToggledFavorites(st.db.favorites, userId, snippetId, now));
    favorited := !existing;
  }

  /** `DELETE FROM snippets WHERE id = ?`. */
  function RemoveSnippet(rows: seq<Snippet>, id: nat): seq<Snippet>
  {
    Filter(rows, (s: Snippet) => s.id != id)
  }

  /** `DELETE /snippets/:id` (lines 280-303): only the owner may delete. */
  method DeleteSnippet(st: Store, requester: nat, id: nat) returns (r: DeleteResult)
    requires st.Valid()
    modifies st
    ensures st.Valid()
    ensures FindSnippet(old(st.db).snippets, id).None? ==>
      r == DeleteNotFound && st.db == old(st.db) && st.cache == old(st.cache)
    ensures FindSnippet(old(st.db).snippets, id).Some? && FindSnippet(old(st.db).snippets, id).value.userId != requester ==>
      r == Forbidden && st.db == old(st.db) && st.cache == old(st.cache)
    ensures FindSnippet(old(st.db).snippets, id).Some? && FindSnippet(old(st.db).snippets, id).value.userId == requester ==>
      && r == Deleted
      && st.db == old(st.db).(snippets := RemoveSnippet(old(st.db).snippets, id))
      && st.cache == old(st.cache) - {SnippetKey(id)} - {ListWildcard}
  {
    var found := FindSnippet(st.db.snippets, id);
    if found.None? {
      return DeleteNotFound;
    }
    if found.value.userId != requester {
      return Forbidden;
    }
    RemoveSnippetSpec(st.db.snippets, id);
    st.db := st.db.(snippets := RemoveSnippet(st.db.snippets, id));
    st.Del(SnippetKey(id));
    st.Del(ListWildcard);
    r := Deleted;
  }

  /**
   * The delete removes exactly the rows with the id, keeps every other row in order, and
   * keeps ids unique.
   */
  lemma RemoveSnippetSpec(rows: seq<Snippet>, id: nat)
    requires UniqueSnippetIds(rows)
    ensures UniqueSnippetIds(RemoveSnippet(rows, id))
    ensures FindSnippet(RemoveSnippet(rows, id), id).None?
    ensures forall s :: s in rows && s.id != id ==> s in RemoveSnippet(rows, id)
    ensures forall s :: s in RemoveSnippet(rows, id) ==> s in rows
  {
    RemoveSnippetUnique(rows, id);
  }

  lemma {:induction false} RemoveSnippetUnique(rows: seq<Snippet>, id: nat)
    requires UniqueSnippetIds(rows)
    ensures UniqueSnippetIds(RemoveSnippet(rows, id))
  {
    if rows != [] {
      RemoveSnippetUnique(rows[1..], id);
      var rest := RemoveSnippet(rows[1..], id);
      if rows[0].id != id {
        assert RemoveSnippet(rows, id) == [rows[0]] + rest;
        forall j | 0 <= j < |rest|
          ensures rest[j].id != rows[0].id
        {
          assert rest[j] in rows[1..];
          var k :| 0 <= k < |rows[1..]| && rows[1..][k] == rest[j];
          assert rows[k + 1] == rest[j];
        }
      }
    }
  }

  /** The like toggle flips the requester's like and no other user's or snippet's. */
  lemma ToggleLikeFlips(likes: seq<Like>, userId: nat, snippetId: nat, u: nat, s: nat)
    ensures Like(u, s) in ToggledLikes(likes, userId, snippetId) <==>
            if u == userId && s == snippetId then Like(u, s) !in likes else Like(u, s) in likes
  {
  }

  /** Two like toggles by the same user on the same snippet restore who likes what. */
  lemma ToggleLikeTwice(likes: seq<Like>, userId: nat, snippetId: nat, l: Like)
    ensures l in ToggledLikes(ToggledLikes(likes, userId, snippetId), userId, snippetId) <==> l in likes
  {
    ToggleLikeFlips(likes, userId, snippetId, l.userId, l.snippetId);
    ToggleLikeFlips(ToggledLikes(likes, userId, snippetId), userId, snippetId, l.userId, l.snippetId);
  }

  /** The favorite toggle flips the requester's favorite and no other pair's. */
  lemma ToggleFavoriteFlips(db: Tables, userId: nat, snippetId: nat, now: int, u: nat, s: nat)
    ensures Favorited(db.(favorites := ToggledFavorites(db.favorites, userId, snippetId, now)), u, s) <==>
            if u == userId && s == snippetId then !Favorited(db, u, s) else Favorited(db, u, s)
  {
    var after := db.(favorites := ToggledFavorites(db.favorites, userId, snippetId, now));
    if Favorited(db, userId, snippetId) {
      var p := (f: Favorite) => !IsFavoriteOf(f, userId, snippetId);
      if Favorited(db, u, s) && !(u == userId && s == snippetId) {
        var i :| 0 <= i < |db.favorites| && IsFavoriteOf(db.favorites[i], u, s);
        var f := db.favorites[i];
        assert f in Filter(db.favorites, p);
        var j :| 0 <= j < |after.favorites| && after.favorites[j] == f;
      }
    } else {
      var f := Favorite(userId, snippetId, now);
      assert after.favorites[|db.favorites|] == f;
      if Favorited(db, u, s) {
        var i :| 0 <= i < |db.favorites| && IsFavoriteOf(db.favorites[i], u, s);
        assert after.favorites[i] == db.favorites[i];
      }
    }
  }

  /** Two favorite toggles restore who has favorited what (the row's time stamp is new). */
  lemma ToggleFavoriteTwice(db: Tables, userId: nat, snippetId: nat, t1: int, t2: int, u: nat, s: nat)
    ensures var once := db.(favorites := ToggledFavorites(db.favorites, userId, snippetId, t1));
            var twice := once.(favorites := ToggledFavorites(once.favorites, userId, snippetId, t2));
            Favorited(twice, u, s) == Favorited(db, u, s)
  {
    var once := db.(favorites := ToggledFavorites(db.favorites, userId, snippetId, t1));
    ToggleFavoriteFlips(db, userId, snippetId, t1, u, s);
    ToggleFavoriteFlips(once, userId, snippetId, t2, u, s);
  }

  /**
   * A cached listing survives a create and a delete: the key handed to `DEL` is never a
   * listing key, and a snippet key is not one either.
   */
  lemma ListingSurvivesInvalidation(cache: map<string, Entry>, q: ListQuery, id: nat)
    requires ListKey(q) in cache
    ensures ListKey(q) in cache - {ListWildcard} && (cache - {ListWildcard})[ListKey(q)] == cache[ListKey(q)]
    ensures ListKey(q) in cache - {SnippetKey(id)} - {ListWildcard}
    ensures (cache - {SnippetKey(id)} - {ListWildcard})[ListKey(q)] == cache[ListKey(q)]
  {
    ListKeyIsNotWildcard(q);
    SnippetKeyIsNotListKey(id, q);
  }

  /**
   * A listing cached before a create is what the same listing returns after it, although
   * the new snippet may belong on that page.
   */
  method StaleListingAfterCreate(st: Store, q: ListQuery, userId: nat, body: CreateBody, now: int)
    returns (before: Json, after: Json)
    requires st.Valid() && ValidQuery(q)
    modifies st
    ensures before == after
  {
    before := ListSnippets(st, q);
    ghost var cached := st.cache;
    assert ListKey(q) in cached && cached[ListKey(q)].value == before;
    ListingSurvivesInvalidation(cached, q, 0);
    var created := CreateSnippet(st, userId, body, now, NoFault);
    after := ListSnippets(st, q);
  }

  /**
   * The first viewer's `isLiked`/`isFavorited` flags are what a second viewer of the
   * same snippet receives while the entry lives.
   */
  method CachedFlagsShared(st: Store, id: nat, first: Option<nat>, second: Option<nat>)
    returns (r1: GetResult, r2: GetResult)
    requires st.Valid()
    modifies st
    ensures r1.Found? ==> r2 == r1
  {
    r1 := GetSnippet(st, id, first);
    r2 := GetSnippet(st, id, second);
  }
}
