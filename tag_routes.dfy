/**
 * backend/routes/tags.js: every tag by name, and the most used tags, each behind its own
 * cache entry. Nothing in the application deletes these entries; they only expire.
 */
module TagRoutes {
  import opened Text
  import opened Ordering
  import opened Paging
  import opened Db
  import opened Views
  import opened Storage
  import opened SnippetQueries
  import SnippetCreate
  import SnippetRoutes

  const AllTagsKey: string := "tags:all"

  /** The time-to-live of `tags:all`, fixed in the handler rather than taken from `CACHE_TTL`. */
  const AllTagsTtl: nat := 3600

  const PopularTtl: nat := 1800

  /** `tags:popular:${limit}`. */
  function PopularKey(limit: nat): string
  {
    "tags:popular:" + NatToString(limit)
  }

  /** `ORDER BY name ASC`. */
  predicate ByName(a: Tag, b: Tag)
  {
    LexLessEq(a.name, b.name)
  }

  /** `ORDER BY usage_count DESC, name ASC`. */
  predicate ByPopularity(a: Tag, b: Tag)
  {
    a.usageCount > b.usageCount || (a.usageCount == b.usageCount && LexLessEq(a.name, b.name))
  }

  lemma ByNameIsTotalPreorder()
    ensures TotalPreorder(ByName)
  {
    forall a: Tag, b: Tag
      ensures ByName(a, b) || ByName(b, a)
    {
      LexTotal(a.name, b.name);
    }
    forall a: Tag, b: Tag, c: Tag | ByName(a, b) && ByName(b, c)
      ensures ByName(a, c)
    {
      LexTransitive(a.name, b.name, c.name);
    }
  }

  lemma ByPopularityIsTotalPreorder()
    ensures TotalPreorder(ByPopularity)
  {
    forall a: Tag, b: Tag
      ensures ByPopularity(a, b) || ByPopularity(b, a)
    {
      LexTotal(a.name, b.name);
    }
    forall a: Tag, b: Tag, c: Tag | ByPopularity(a, b) && ByPopularity(b, c)
      ensures ByPopularity(a, c)
    {
      if a.usageCount == b.usageCount == c.usageCount {
        LexTransitive(a.name, b.name, c.name);
      }
    }
  }

  /** `SELECT * FROM tags ORDER BY name ASC`. */
  function AllTagsQuery(tags: seq<Tag>): seq<Tag>
  {
    SortBy(tags, ByName)
  }

  /** `SELECT * FROM tags WHERE usage_count > 0 ORDER BY usage_count DESC, name ASC LIMIT ?`. */
  function PopularTagsQuery(tags: seq<Tag>, limit: nat): seq<Tag>
  {
    Window(RankedTags(tags), 0, limit)
  }

  /** The used tags, most used first. */
  function RankedTags(tags: seq<Tag>): seq<Tag>
  {
    SortBy(Filter(tags, (t: Tag) => t.usageCount > 0), ByPopularity)
  }

  /** The full list holds every tag exactly once per row, in name order. */
  lemma AllTagsSpec(tags: seq<Tag>)
    ensures multiset(AllTagsQuery(tags)) == multiset(tags)
    ensures forall i, j :: 0 <= i < j < |AllTagsQuery(tags)| ==>
      LexLessEq(AllTagsQuery(tags)[i].name, AllTagsQuery(tags)[j].name)
  {
    ByNameIsTotalPreorder();
    SortBySorted(tags, ByName);
  }

  /** The used tags, every one of them, ranked by usage and then by name. */
  lemma RankedTagsSpec(tags: seq<Tag>)
    ensures forall t :: t in RankedTags(tags) <==> t in tags && t.usageCount > 0
    ensures forall i, j :: 0 <= i < j < |RankedTags(tags)| ==>
      ByPopularity(RankedTags(tags)[i], RankedTags(tags)[j])
  {
    var used := Filter(tags, (t: Tag) => t.usageCount > 0);
    ByPopularityIsTotalPreorder();
    SortBySorted(used, ByPopularity);
    forall t
      ensures t in RankedTags(tags) <==> t in tags && t.usageCount > 0
    {
      SortByMembers(used, ByPopularity, t);
    }
  }

  /** The popular list: at most `limit` tags, each used at least once, ranked by usage and then by name. */
  lemma PopularTagsSpec(tags: seq<Tag>, limit: nat)
    ensures var r := PopularTagsQuery(tags, limit);
      && |r| <= limit
      && (forall t :: t in r ==> t in tags && t.usageCount > 0)
      && (forall i, j :: 0 <= i < j < |r| ==> ByPopularity(r[i], r[j]))
  {
    var ranked := RankedTags(tags);
    var r := PopularTagsQuery(tags, limit);
    RankedTagsSpec(tags);
    WindowOfSorted(ranked, 0, limit, ByPopularity);
    forall t | t in r
      ensures t in tags && t.usageCount > 0
    {
      var i :| 0 <= i < |r| && r[i] == t;
      assert ranked[i] == t;
    }
  }

  /**
   * No used tag left out of the popular list ranks above one kept, and when fewer than
   * `limit` come back, every used tag is there.
   */
  lemma PopularTagsAreTheTop(tags: seq<Tag>, limit: nat, t: Tag)
    requires t in tags && t.usageCount > 0 && t !in PopularTagsQuery(tags, limit)
    ensures |PopularTagsQuery(tags, limit)| == limit
    ensures forall x :: x in PopularTagsQuery(tags, limit) ==> ByPopularity(x, t)
  {
    var ranked := RankedTags(tags);
    var r := PopularTagsQuery(tags, limit);
    RankedTagsSpec(tags);
    WindowFromStart(ranked, limit);
    var k :| 0 <= k < |ranked| && ranked[k] == t;
    forall x | x in r
      ensures ByPopularity(x, t)
    {
      var i :| 0 <= i < |r| && r[i] == x;
      assert ranked[i] == x;
    }
  }

  /** `GET /tags` (lines 7-28). */
  method GetAllTags(st: Store) returns (r: Json)
    modifies st`cache
    ensures AllTagsKey in old(st.cache) ==> r == old(st.cache)[AllTagsKey].value && st.cache == old(st.cache)
    ensures AllTagsKey !in old(st.cache) ==>
      r == TagsJson(AllTagsQuery(st.db.tags)) && st.cache == old(st.cache)[AllTagsKey := Entry(r, AllTagsTtl)]
  {
    var cached := st.Get(AllTagsKey);
    if cached.Some? {
      return cached.value;
    }
    r := TagsJson(AllTagsQuery(st.db.tags));
    st.SetEx(AllTagsKey, AllTagsTtl, r);
  }

  /** `GET /tags/popular` (lines 31-55); the key depends on `limit` alone. */
  method GetPopularTags(st: Store, limit: nat) returns (r: Json)
    modifies st`cache
    ensures PopularKey(limit) in old(st.cache) ==>
      r == old(st.cache)[PopularKey(limit)].value && st.cache == old(st.cache)
    ensures PopularKey(limit) !in old(st.cache) ==>
      && r == TagsJson(PopularTagsQuery(st.db.tags, limit))
      && st.cache == old(st.cache)[PopularKey(limit) := Entry(r, PopularTtl)]
  {
    var key := PopularKey(limit);
    var cached := st.Get(key);
    if cached.Some? {
      return cached.value;
    }
    r := TagsJson(PopularTagsQuery(st.db.tags, limit));
    st.SetEx(key, PopularTtl, r);
  }

  /** Different limits are cached under different keys. */
  lemma PopularKeyInjective(a: nat, b: nat)
    requires PopularKey(a) == PopularKey(b)
    ensures a == b
  {
    var p := "tags:popular:";
    assert PopularKey(a)[|p|..] == NatToString(a);
    assert PopularKey(b)[|p|..] == NatToString(b);
    NatToStringInjective(a, b);
  }

  /**
   * No key the snippet handlers delete is a tag key: `snippets:list:*` and `snippet:<id>`
   * differ from `tags:all` and `tags:popular:<limit>` in their first character.
   */
  lemma TagKeysAreNeverDeleted(id: nat, limit: nat)
    ensures ListWildcard != AllTagsKey && ListWildcard != PopularKey(limit)
    ensures SnippetKey(id) != AllTagsKey && SnippetKey(id) != PopularKey(limit)
  {
    assert ListWildcard[0] == 's' && SnippetKey(id)[0] == 's';
    assert AllTagsKey[0] == 't' && PopularKey(limit)[0] == 't';
  }

  /** A cached popular list is what the same request returns after a create, however the counts moved. */
  method StalePopularAfterCreate(st: Store, limit: nat, userId: nat, body: SnippetCreate.CreateBody, now: int)
    returns (before: Json, after: Json)
    requires st.Valid()
    modifies st
    ensures before == after
  {
    before := GetPopularTags(st, limit);
    ghost var cached := st.cache;
    assert PopularKey(limit) in cached && cached[PopularKey(limit)].value == before;
    TagKeysAreNeverDeleted(0, limit);
    var created := SnippetRoutes.CreateSnippet(st, userId, body, now, SnippetRoutes.NoFault);
    after := GetPopularTags(st, limit);
  }
}
