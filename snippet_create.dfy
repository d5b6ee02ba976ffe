/**
 * The data written by `POST /snippets`: the snippet row, then for every entry of `tags`
 * in order a find-or-create of the tag by name, a `snippet_tags` link and a usage
 * increment. Names are looked up exactly as given; occurrences are not deduplicated.
 */
module SnippetCreate {
  import opened Text
  import opened Db

  /** The request body after the `isPublic = true` and `tags = []` defaults. */
  datatype CreateBody = CreateBody(title: string, description: Option<string>, code: string,
                                   language: string, isPublic: Option<bool>, tags: seq<string>)

  /** The three validators: the trimmed title has 1 to 200 characters, code and language are non-empty. */
  predicate Validates(b: CreateBody)
  {
    1 <= |Trim(b.title)| <= 200 && b.code != [] && b.language != []
  }

  /**
   * The row `INSERT INTO snippets` adds. The `.trim()` sanitizer has replaced the title in
   * the body by then; `views` starts at 0 and `created_at` is the insertion time.
   */
  function NewSnippet(db: Tables, userId: nat, b: CreateBody, now: int): Snippet
  {
    Snippet(db.nextSnippetId, userId, Trim(b.title), b.description, b.code, b.language,
            if b.isPublic.Some? then b.isPublic.value else true, 0, now)
  }

  function InsertSnippet(db: Tables, row: Snippet): Tables
  {
    db.(snippets := db.snippets + [row], nextSnippetId := db.nextSnippetId + 1)
  }

  /** The id the loop body links: the existing tag's, or the one `INSERT INTO tags` assigns. */
  function TagIdFor(db: Tables, name: string): nat
  {
    match FindTagByName(db.tags, name)
    case Some(t) => t.id
    case None => db.nextTagId
  }

  /** `INSERT INTO tags (name)` when no tag has the name; `usage_count` starts at 0. */
  function EnsureTag(db: Tables, name: string): Tables
  {
    if FindTagByName(db.tags, name).Some? then db
    else db.(tags := db.tags + [Tag(db.nextTagId, name, 0)], nextTagId := db.nextTagId + 1)
  }

  /** One iteration of the tag loop: find or create, link, count. */
  function AddTag(db: Tables, sid: nat, name: string): Tables
  {
    var id := TagIdFor(db, name);
    var d := EnsureTag(db, name);
    d.(snippetTags := d.snippetTags + [SnippetTag(sid, id)], tags := IncrementUsage(d.tags, id))
  }

  /** The tag loop over `names`, in order. */
  function AddTags(db: Tables, sid: nat, names: seq<string>): Tables
  {
    if names == [] then db
    else AddTag(AddTags(db, sid, names[..|names| - 1]), sid, names[|names| - 1])
  }

  /** The loop over the first `i + 1` names is the loop over the first `i` followed by one more iteration. */
  lemma AddTagsPrefix(db: Tables, sid: nat, names: seq<string>, i: nat)
    requires i < |names|
    ensures AddTags(db, sid, names[..i + 1]) == AddTag(AddTags(db, sid, names[..i]), sid, names[i])
  {
    assert names[..i + 1][..i] == names[..i];
  }

  /** The committed state of a create: the snippet row followed by its tags. */
  function AfterCreate(db: Tables, userId: nat, b: CreateBody, now: int): Tables
  {
    AddTags(InsertSnippet(db, NewSnippet(db, userId, b, now)), db.nextSnippetId, b.tags)
  }

  // Lookups across the two ways the loop changes the tags table.

  lemma {:induction false} FindTagByNameAppend(tags: seq<Tag>, t: Tag, n: string)
    ensures FindTagByName(tags + [t], n) ==
            if FindTagByName(tags, n).Some? then FindTagByName(tags, n)
            else if t.name == n then Some(t) else None
  {
    if tags != [] {
      assert (tags + [t])[1..] == tags[1..] + [t];
      FindTagByNameAppend(tags[1..], t, n);
    }
  }

  lemma {:induction false} FindTagByIdAppend(tags: seq<Tag>, t: Tag, id: nat)
    ensures FindTagById(tags + [t], id) ==
            if FindTagById(tags, id).Some? then FindTagById(tags, id)
            else if t.id == id then Some(t) else None
  {
    if tags != [] {
      assert (tags + [t])[1..] == tags[1..] + [t];
      FindTagByIdAppend(tags[1..], t, id);
    }
  }

  function Bumped(t: Tag, id: nat): Tag
  {
    if t.id == id then t.(usageCount := t.usageCount + 1) else t
  }

  lemma IncrementUsageTail(tags: seq<Tag>, id: nat)
    requires tags != []
    ensures IncrementUsage(tags, id)[0] == Bumped(tags[0], id)
    ensures IncrementUsage(tags, id)[1..] == IncrementUsage(tags[1..], id)
  {
    assert IncrementUsage(tags, id)[1..] == IncrementUsage(tags[1..], id);
  }

  lemma {:induction false} FindTagByNameIncrement(tags: seq<Tag>, id: nat, n: string)
    ensures FindTagByName(IncrementUsage(tags, id), n) ==
            match FindTagByName(tags, n)
            case None => None
            case Some(t) => Some(Bumped(t, id))
  {
    if tags != [] {
      IncrementUsageTail(tags, id);
      FindTagByNameIncrement(tags[1..], id, n);
    }
  }

  lemma {:induction false} FindTagByIdIncrement(tags: seq<Tag>, id: nat, k: nat)
    ensures FindTagById(IncrementUsage(tags, id), k) ==
            match FindTagById(tags, k)
            case None => None
            case Some(t) => Some(Bumped(t, id))
  {
    if tags != [] {
      IncrementUsageTail(tags, id);
      FindTagByIdIncrement(tags[1..], id, k);
    }
  }

  /** One loop iteration adds exactly 1 to the usage of `name` and nothing to any other name. */
  lemma AddTagUsage(db: Tables, sid: nat, name: string, n: string)
    requires WellFormed(db)
    ensures Usage(AddTag(db, sid, name).tags, n) == Usage(db.tags, n) + (if n == name then 1 else 0)
  {
    var id := TagIdFor(db, name);
    var d := EnsureTag(db, name);
    FindTagByNameIncrement(d.tags, id, n);
    var found := FindTagByName(db.tags, name);
    if found.Some? {
      var t := found.value;
      assert d == db && id == t.id;
      var other := FindTagByName(db.tags, n);
      if other.Some? && n != name && other.value.id == t.id {
        SameTagId(db.tags, other.value, t);
      }
    } else {
      var t := Tag(db.nextTagId, name, 0);
      assert d.tags == db.tags + [t];
      FindTagByNameAppend(db.tags, t, n);
      var other := FindTagByName(db.tags, n);
      if other.Some? {
        assert other.value.id < db.nextTagId;
      }
    }
  }

  /** One loop iteration keeps the database well formed: a tag row is created only for a new name. */
  lemma AddTagWellFormed(db: Tables, sid: nat, name: string)
    requires WellFormed(db) && sid < db.nextSnippetId
    ensures WellFormed(AddTag(db, sid, name))
    ensures AddTag(db, sid, name).snippets == db.snippets
    ensures AddTag(db, sid, name).nextSnippetId == db.nextSnippetId
    ensures AddTag(db, sid, name).nextTagId >= db.nextTagId
  {
    EnsureTagWellFormed(db, name);
    LinkWellFormed(EnsureTag(db, name), sid, TagIdFor(db, name));
  }

  /** The find-or-create keeps the database well formed and yields an id below the counter. */
  lemma EnsureTagWellFormed(db: Tables, name: string)
    requires WellFormed(db)
    ensures WellFormed(EnsureTag(db, name))
    ensures TagIdFor(db, name) < EnsureTag(db, name).nextTagId
    ensures EnsureTag(db, name).snippets == db.snippets
    ensures EnsureTag(db, name).nextSnippetId == db.nextSnippetId
    ensures EnsureTag(db, name).nextTagId >= db.nextTagId
  {
    if FindTagByName(db.tags, name).None? {
      var d := EnsureTag(db, name);
      assert forall i :: 0 <= i < |db.tags| ==> d.tags[i] == db.tags[i];
    }
  }

  /** Linking an existing snippet id to an existing tag id and counting the use keeps the database well formed. */
  lemma LinkWellFormed(d: Tables, sid: nat, id: nat)
    requires WellFormed(d) && sid < d.nextSnippetId && id < d.nextTagId
    ensures WellFormed(d.(snippetTags := d.snippetTags + [SnippetTag(sid, id)], tags := IncrementUsage(d.tags, id)))
  {
  }

  /** The loop preserves well-formedness and leaves the snippets table alone. */
  lemma {:induction false} AddTagsWellFormed(db: Tables, sid: nat, names: seq<string>)
    requires WellFormed(db) && sid < db.nextSnippetId
    ensures WellFormed(AddTags(db, sid, names))
    ensures AddTags(db, sid, names).snippets == db.snippets
    ensures AddTags(db, sid, names).nextSnippetId == db.nextSnippetId
  {
    if names != [] {
      var init := names[..|names| - 1];
      AddTagsWellFormed(db, sid, init);
      AddTagWellFormed(AddTags(db, sid, init), sid, names[|names| - 1]);
    }
  }

  /**
   * After the loop, every name's usage count has grown by the number of times it occurs
   * in `names`: a name given twice counts twice.
   */
  lemma {:induction false} AddTagsUsage(db: Tables, sid: nat, names: seq<string>, n: string)
    requires WellFormed(db) && sid < db.nextSnippetId
    ensures Usage(AddTags(db, sid, names).tags, n) == Usage(db.tags, n) + multiset(names)[n]
  {
    if names != [] {
      var init, last := names[..|names| - 1], names[|names| - 1];
      assert names == init + [last];
      AddTagsUsage(db, sid, init, n);
      AddTagsWellFormed(db, sid, init);
      AddTagUsage(AddTags(db, sid, init), sid, last, n);
    }
  }

  /** One iteration appends its name to the snippet's tag names; the names of earlier links stay. */
  lemma AddTagNames(d: Tables, sid: nat, name: string)
    requires WellFormed(d)
    ensures TagNames(AddTag(d, sid, name), sid) == TagNames(d, sid) + [name]
  {
    var id := TagIdFor(d, name);
    var e := EnsureTag(d, name);
    var after := IncrementUsage(e.tags, id);
    var links := AddTag(d, sid, name).snippetTags;
    assert links[..|links| - 1] == d.snippetTags;
    forall i | 0 <= i < |d.snippetTags|
      ensures SameName(d.tags, after, d.snippetTags[i].tagId)
    {
      var k := d.snippetTags[i].tagId;
      FindTagByIdIncrement(e.tags, id, k);
      if FindTagByName(d.tags, name).None? {
        FindTagByIdAppend(d.tags, Tag(d.nextTagId, name, 0), k);
      }
    }
    TagNamesOfSameNames(d.snippetTags, d.tags, after, sid);
    FindTagByIdIncrement(e.tags, id, id);
    match FindTagByName(d.tags, name)
    case Some(t) =>
      var j :| 0 <= j < |d.tags| && d.tags[j] == t;
      SameTagId(d.tags, FindTagById(d.tags, id).value, t);
    case None =>
      FindTagByIdAppend(d.tags, Tag(d.nextTagId, name, 0), id);
  }

  /** The loop appends the given names, in order and with repetitions, to the snippet's tag names. */
  lemma {:induction false} AddTagsNames(db: Tables, sid: nat, names: seq<string>)
    requires WellFormed(db) && sid < db.nextSnippetId
    ensures TagNames(AddTags(db, sid, names), sid) == TagNames(db, sid) + names
  {
    if names != [] {
      var init, last := names[..|names| - 1], names[|names| - 1];
      assert names == init + [last];
      AddTagsNames(db, sid, init);
      AddTagsWellFormed(db, sid, init);
      AddTagNames(AddTags(db, sid, init), sid, last);
    }
  }

  /** Inserting a row under the next id keeps the database well formed and makes the row findable. */
  lemma InsertSnippetWellFormed(db: Tables, row: Snippet)
    requires WellFormed(db) && row.id == db.nextSnippetId
    ensures WellFormed(InsertSnippet(db, row))
    ensures FindSnippet(InsertSnippet(db, row).snippets, row.id) == Some(row)
  {
    var r := InsertSnippet(db, row);
    assert r.snippets[|db.snippets|] == row;
    FindSnippetUnique(r.snippets, |db.snippets|);
  }

  /**
   * A committed create of a valid body: the database stays well formed; the new snippet
   * is findable under the id the response reports and holds the body's fields (the title
   * trimmed and 1 to 200 characters long, `isPublic` true unless sent as false, no views);
   * its tag names read back as the body's `tags` with every repetition (in the order given,
   * since the model concatenates in link order); and every listed tag name now
   * exists with its usage raised by its number of occurrences.
   */
  lemma AfterCreateSpec(db: Tables, userId: nat, b: CreateBody, now: int)
    requires WellFormed(db) && Validates(b)
    ensures WellFormed(AfterCreate(db, userId, b, now))
    ensures var s := FindSnippet(AfterCreate(db, userId, b, now).snippets, db.nextSnippetId);
            s.Some? && s.value.userId == userId && IsTrimmed(s.value.title) && 1 <= |s.value.title| <= 200
    ensures var s := FindSnippet(AfterCreate(db, userId, b, now).snippets, db.nextSnippetId).value;
            && s.title == Trim(b.title) && s.description == b.description && s.code == b.code
            && s.language == b.language && s.isPublic == (b.isPublic != Some(false))
            && s.views == 0 && s.createdAt == now
    ensures multiset(TagNames(AfterCreate(db, userId, b, now), db.nextSnippetId)) == multiset(b.tags)
    ensures TagNames(AfterCreate(db, userId, b, now), db.nextSnippetId) == b.tags
    ensures forall n :: Usage(AfterCreate(db, userId, b, now).tags, n) == Usage(db.tags, n) + multiset(b.tags)[n]
    ensures forall n :: n in b.tags ==> FindTagByName(AfterCreate(db, userId, b, now).tags, n).Some?
  {
    var row := NewSnippet(db, userId, b, now);
    var ins := InsertSnippet(db, row);
    InsertSnippetWellFormed(db, row);
    AddTagsWellFormed(ins, db.nextSnippetId, b.tags);
    TagNamesOfNone(ins.snippetTags, ins.tags, db.nextSnippetId);
    AddTagsNames(ins, db.nextSnippetId, b.tags);
    forall n
      ensures Usage(AfterCreate(db, userId, b, now).tags, n) == Usage(db.tags, n) + multiset(b.tags)[n]
    {
      AddTagsUsage(ins, db.nextSnippetId, b.tags, n);
    }
    forall n | n in b.tags
      ensures FindTagByName(AfterCreate(db, userId, b, now).tags, n).Some?
    {
      assert multiset(b.tags)[n] > 0;
      AddTagsUsage(ins, db.nextSnippetId, b.tags, n);
    }
  }
}
