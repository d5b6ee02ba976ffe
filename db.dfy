/**
 * The MySQL tables the routes read and write, as values: every table is a sequence of
 * rows in insertion order, and `Tables` is one snapshot of the whole database (what a
 * transaction begins from and a rollback returns to). Auto-increment counters are kept
 * beside the tables.
 */
module Db {
  import opened Text
  import opened Ordering

  datatype Option<T> = None | Some(value: T)

  datatype User = User(id: nat, username: string, avatar: Option<string>, bio: Option<string>,
                       githubUrl: Option<string>, createdAt: int)

  datatype Snippet = Snippet(id: nat, userId: nat, title: string, description: Option<string>,
                             code: string, language: string, isPublic: bool, views: nat, createdAt: int)

  datatype Tag = Tag(id: nat, name: string, usageCount: nat)

  datatype SnippetTag = SnippetTag(snippetId: nat, tagId: nat)

  datatype Like = Like(userId: nat, snippetId: nat)

  datatype Favorite = Favorite(userId: nat, snippetId: nat, createdAt: int)

  datatype Tables = Tables(users: seq<User>, snippets: seq<Snippet>, tags: seq<Tag>,
                           snippetTags: seq<SnippetTag>, likes: seq<Like>, favorites: seq<Favorite>,
                           nextSnippetId: nat, nextTagId: nat)

  ghost predicate UniqueTagNames(tags: seq<Tag>)
  {
    forall i, j :: 0 <= i < j < |tags| ==> tags[i].name != tags[j].name
  }

  ghost predicate UniqueTagIds(tags: seq<Tag>)
  {
    forall i, j :: 0 <= i < j < |tags| ==> tags[i].id != tags[j].id
  }

  ghost predicate UniqueSnippetIds(rows: seq<Snippet>)
  {
    forall i, j :: 0 <= i < j < |rows| ==> rows[i].id != rows[j].id
  }

  /**
   * Primary keys are unique and below their auto-increment counter, tag names are unique,
   * and every `snippet_tags` row points below both counters.
   */
  ghost predicate WellFormed(db: Tables)
  {
    && UniqueSnippetIds(db.snippets)
    && (forall i :: 0 <= i < |db.snippets| ==> db.snippets[i].id < db.nextSnippetId)
    && UniqueTagIds(db.tags)
    && (forall i :: 0 <= i < |db.tags| ==> db.tags[i].id < db.nextTagId)
    && UniqueTagNames(db.tags)
    && (forall i :: 0 <= i < |db.snippetTags| ==>
          db.snippetTags[i].snippetId < db.nextSnippetId && db.snippetTags[i].tagId < db.nextTagId)
  }

  /** Two rows of a table with unique tag ids that share an id are the same row. */
  lemma SameTagId(tags: seq<Tag>, a: Tag, b: Tag)
    requires UniqueTagIds(tags) && a in tags && b in tags && a.id == b.id
    ensures a == b
  {
    var i :| 0 <= i < |tags| && tags[i] == a;
    var j :| 0 <= j < |tags| && tags[j] == b;
  }

  /** `SELECT ... FROM snippets WHERE id = ?`. */
  function FindSnippet(rows: seq<Snippet>, id: nat): (r: Option<Snippet>)
    ensures r.Some? ==> r.value in rows && r.value.id == id
    ensures r.None? <==> forall i :: 0 <= i < |rows| ==> rows[i].id != id
  {
    if rows == [] then None
    else if rows[0].id == id then Some(rows[0])
    else FindSnippet(rows[1..], id)
  }

  /** With unique ids, the lookup by id finds the one row that carries it. */
  lemma {:induction false} FindSnippetUnique(rows: seq<Snippet>, k: nat)
    requires k < |rows| && UniqueSnippetIds(rows)
    ensures FindSnippet(rows, rows[k].id) == Some(rows[k])
  {
    if k > 0 {
      FindSnippetUnique(rows[1..], k - 1);
    }
  }

  /** `SELECT ... FROM users WHERE id = ?` (also the inner `JOIN users`). */
  function FindUser(rows: seq<User>, id: nat): (r: Option<User>)
    ensures r.Some? ==> r.value in rows && r.value.id == id
    ensures r.None? <==> forall i :: 0 <= i < |rows| ==> rows[i].id != id
  {
    if rows == [] then None
    else if rows[0].id == id then Some(rows[0])
    else FindUser(rows[1..], id)
  }

  /** `SELECT id FROM tags WHERE name = ?`. */
  function FindTagByName(tags: seq<Tag>, name: string): (r: Option<Tag>)
    ensures r.Some? ==> r.value in tags && r.value.name == name
    ensures r.None? <==> forall i :: 0 <= i < |tags| ==> tags[i].name != name
  {
    if tags == [] then None
    else if tags[0].name == name then Some(tags[0])
    else FindTagByName(tags[1..], name)
  }

  /** `JOIN tags t ON st.tag_id = t.id`. */
  function FindTagById(tags: seq<Tag>, id: nat): (r: Option<Tag>)
    ensures r.Some? ==> r.value in tags && r.value.id == id
    ensures r.None? <==> forall i :: 0 <= i < |tags| ==> tags[i].id != id
  {
    if tags == [] then None
    else if tags[0].id == id then Some(tags[0])
    else FindTagById(tags[1..], id)
  }

  /** With unique names, the lookup by name finds the one tag that carries it. */
  lemma {:induction false} FindTagByUniqueName(tags: seq<Tag>, t: Tag)
    requires UniqueTagNames(tags) && t in tags
    ensures FindTagByName(tags, t.name) == Some(t)
  {
    if tags[0] != t {
      assert t in tags[1..];
      FindTagByUniqueName(tags[1..], t);
    }
  }

  /** `UPDATE tags SET usage_count = usage_count + 1 WHERE id = ?`. */
  function IncrementUsage(tags: seq<Tag>, id: nat): (r: seq<Tag>)
    ensures |r| == |tags|
    ensures forall i :: 0 <= i < |r| ==> r[i].id == tags[i].id && r[i].name == tags[i].name
    ensures forall i :: 0 <= i < |r| ==>
      r[i].usageCount == if tags[i].id == id then tags[i].usageCount + 1 else tags[i].usageCount
  {
    seq(|tags|, i requires 0 <= i < |tags| =>
      if tags[i].id == id then tags[i].(usageCount := tags[i].usageCount + 1) else tags[i])
  }

  /** The `usage_count` of the tag named `name`, 0 when there is no such tag. */
  function Usage(tags: seq<Tag>, name: string): nat
  {
    match FindTagByName(tags, name)
    case None => 0
    case Some(t) => t.usageCount
  }

  /** The names of a snippet's tags: `GROUP_CONCAT(t.name)` over its `snippet_tags` rows. */
  function TagNames(db: Tables, snippetId: nat): (r: seq<string>)
    ensures |r| <= |db.snippetTags|
  {
    TagNamesOf(db.snippetTags, db.tags, snippetId)
  }

  function TagNamesOf(links: seq<SnippetTag>, tags: seq<Tag>, snippetId: nat): (r: seq<string>)
    ensures |r| <= |links|
    ensures forall n :: n in r ==>
      exists i, t :: 0 <= i < |links| && links[i].snippetId == snippetId && t in tags &&
                     t.id == links[i].tagId && t.name == n
    ensures forall i :: 0 <= i < |links| && links[i].snippetId == snippetId && FindTagById(tags, links[i].tagId).Some? ==>
      FindTagById(tags, links[i].tagId).value.name in r
  {
    if links == [] then []
    else
      var rest := TagNamesOf(links[..|links| - 1], tags, snippetId);
      var last := links[|links| - 1];
      var found := FindTagById(tags, last.tagId);
      if last.snippetId == snippetId && found.Some? then rest + [found.value.name] else rest
  }

  /** Looking `k` up in `a` and in `b` finds a tag in both or in neither, and then under the same name. */
  predicate SameName(a: seq<Tag>, b: seq<Tag>, k: nat)
  {
    && FindTagById(a, k).Some? == FindTagById(b, k).Some?
    && (FindTagById(a, k).Some? ==> FindTagById(a, k).value.name == FindTagById(b, k).value.name)
  }

  /** The tag names of a snippet depend only on the names its links resolve to. */
  lemma {:induction false} TagNamesOfSameNames(links: seq<SnippetTag>, a: seq<Tag>, b: seq<Tag>, snippetId: nat)
    requires forall i :: 0 <= i < |links| ==> SameName(a, b, links[i].tagId)
    ensures TagNamesOf(links, a, snippetId) == TagNamesOf(links, b, snippetId)
  {
    if links != [] {
      var init := links[..|links| - 1];
      assert forall i :: 0 <= i < |init| ==> init[i] == links[i];
      TagNamesOfSameNames(init, a, b, snippetId);
    }
  }

  /** A snippet without links has no tag names. */
  lemma {:induction false} TagNamesOfNone(links: seq<SnippetTag>, tags: seq<Tag>, snippetId: nat)
    requires forall i :: 0 <= i < |links| ==> links[i].snippetId != snippetId
    ensures TagNamesOf(links, tags, snippetId) == []
  {
    if links != [] {
      var init := links[..|links| - 1];
      assert forall i :: 0 <= i < |init| ==> init[i] == links[i];
      TagNamesOfNone(init, tags, snippetId);
    }
  }

  /** `s.tags ? s.tags.split(',') : []` applied to the `GROUP_CONCAT` of the names. */
  function TagsField(names: seq<string>): seq<string>
  {
    var joined := Join(names, ',');
    if joined == [] then [] else Split(joined, ',')
  }

  /** Tag names that are non-empty and comma-free survive `GROUP_CONCAT` and `split`. */
  lemma TagsFieldRoundTrip(names: seq<string>)
    requires forall i :: 0 <= i < |names| ==> names[i] != [] && ',' !in names[i]
    ensures TagsField(names) == names
  {
    if names != [] {
      SplitJoin(names, ',');
      assert |Join(names, ',')| >= |names[0]|;
    }
  }

  /** A comma inside a tag name splits it into two tags on the way back. */
  lemma TagsFieldSplitsCommaNames()
    ensures TagsField(["a,b"]) == ["a", "b"]
  {
    var s := "a,b";
    var e: string := [];
    assert Join(["a,b"], ',') == s;
    assert s[0] == 'a' && s[1..] == ",b" && ",b"[0] == ',' && ",b"[1..] == "b";
    assert "b"[0] == 'b' && "b"[1..] == e;
    assert Split(e, ',') == [e];
    assert ['b'] + e == "b" && ['a'] + e == "a" && [e][1..] == [];
    assert Split("b", ',') == [['b'] + e] + [e][1..] == ["b"];
    assert Split(",b", ',') == [e] + ["b"];
    assert Split(s, ',') == [['a'] + e] + ["b"] == ["a", "b"];
  }

  function LikesCount(db: Tables, snippetId: nat): nat
  {
    CountWhere(db.likes, (l: Like) => l.snippetId == snippetId)
  }

  function FavoritesCount(db: Tables, snippetId: nat): nat
  {
    CountWhere(db.favorites, (f: Favorite) => f.snippetId == snippetId)
  }

  /** `SELECT id FROM likes WHERE user_id = ? AND snippet_id = ?` returns a row. */
  predicate Liked(db: Tables, userId: nat, snippetId: nat)
  {
    Like(userId, snippetId) in db.likes
  }

  predicate IsFavoriteOf(f: Favorite, userId: nat, snippetId: nat)
  {
    f.userId == userId && f.snippetId == snippetId
  }

  /** `SELECT id FROM favorites WHERE user_id = ? AND snippet_id = ?` returns a row. */
  predicate Favorited(db: Tables, userId: nat, snippetId: nat)
  {
    exists i :: 0 <= i < |db.favorites| && IsFavoriteOf(db.favorites[i], userId, snippetId)
  }
}
