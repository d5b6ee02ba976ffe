/**
 * frontend/src/pages/CreateSnippet.jsx, `handleSubmit`: the client-side guard on title
 * and code, and the turning of the comma-separated tags field into the `tags` array of
 * the request body.
 */
module CreateForm {
  import opened Text
  import opened Ordering
  import opened Db
  import opened SnippetCreate

  /** The form's state; `tags` is the raw text of the tags field. */
  datatype FormData = FormData(title: string, description: string, code: string,
                               language: string, isPublic: bool, tags: string)

  /** The guard: neither the title nor the code may be blank after trimming. */
  predicate CanSubmit(f: FormData)
  {
    Trim(f.title) != [] && Trim(f.code) != []
  }

  function TrimAll(pieces: seq<string>): (r: seq<string>)
    ensures |r| == |pieces|
    ensures forall i :: 0 <= i < |r| ==> r[i] == Trim(pieces[i])
  {
    seq(|pieces|, i requires 0 <= i < |pieces| => Trim(pieces[i]))
  }

  predicate NonEmpty(t: string)
  {
    t != []
  }

  /** `split(',')`, then `trim` on every piece, then drop the empty ones; duplicates stay. */
  function ParseTags(text: string): seq<string>
  {
    Filter(TrimAll(Split(text, ',')), NonEmpty)
  }

  /**
   * The body sent to `POST /snippets`, or `None` when the guard stops the submit. The form
   * sends the title and code untrimmed and the description as typed, empty included.
   */
  function Submit(f: FormData): (r: Option<CreateBody>)
    ensures r.None? <==> !CanSubmit(f)
  {
    if !CanSubmit(f) then None
    else Some(CreateBody(f.title, Some(f.description), f.code, f.language, Some(f.isPublic), ParseTags(f.tags)))
  }

  /** A name the field can produce: non-empty, free of commas, and with no whitespace at either end. */
  predicate WellFormedTag(t: string)
  {
    t != [] && ',' !in t && IsTrimmed(t)
  }

  /** A piece of `split(',')` that is not blank trims to a well-formed name. */
  lemma TrimmedPieceWellFormed(piece: string)
    requires ',' !in piece && Trim(piece) != []
    ensures WellFormedTag(Trim(piece))
  {
    var t := Trim(piece);
    var start := TrimIsSlice(piece);
    forall j | 0 <= j < |t|
      ensures t[j] != ','
    {
      assert t[j] == piece[start + j];
    }
  }

  /** Every parsed tag is well formed. */
  lemma ParsedTagsWellFormed(text: string)
    ensures forall i :: 0 <= i < |ParseTags(text)| ==> WellFormedTag(ParseTags(text)[i])
  {
    var pieces := Split(text, ',');
    var trimmed := TrimAll(pieces);
    forall i | 0 <= i < |ParseTags(text)|
      ensures WellFormedTag(ParseTags(text)[i])
    {
      var t := ParseTags(text)[i];
      assert t in trimmed && t != [];
      var k :| 0 <= k < |trimmed| && trimmed[k] == t;
      TrimmedPieceWellFormed(pieces[k]);
    }
  }

  /** At most one tag per comma-separated piece. */
  lemma ParsedTagsCount(text: string)
    ensures |ParseTags(text)| <= Occurrences(text, ',') + 1
  {
    SplitCount(text, ',');
  }

  /** Every character of a piece of `split` comes from the split string. */
  lemma {:induction false} SplitPiecesFrom(s: string, sep: char)
    ensures forall i, c :: 0 <= i < |Split(s, sep)| && c in Split(s, sep)[i] ==> c in s
  {
    if s != [] {
      var r := Split(s, sep);
      var rest := Split(s[1..], sep);
      SplitPiecesFrom(s[1..], sep);
      forall i, c | 0 <= i < |r| && c in r[i]
        ensures c in s
      {
        if s[0] == sep {
          assert r[i] == ([[]] + rest)[i];
          if i > 0 {
            assert r[i] == rest[i - 1];
          }
        } else if i == 0 {
          assert r[0] == [s[0]] + rest[0];
        } else {
          assert r[i] == rest[i];
        }
        assert c in s[1..] || c == s[0];
      }
    }
  }

  /** Every piece is empty or whitespace only. */
  predicate AllBlank(pieces: seq<string>)
  {
    forall i :: 0 <= i < |pieces| ==> AllSpace(pieces[i])
  }

  /** Trimming and dropping empty pieces leaves nothing exactly when every piece is blank. */
  lemma NoNamesIff(pieces: seq<string>)
    ensures Filter(TrimAll(pieces), NonEmpty) == [] <==> AllBlank(pieces)
  {
    var trimmed := TrimAll(pieces);
    FilterEmptyIff(trimmed, NonEmpty);
    if Filter(trimmed, NonEmpty) == [] {
      forall i | 0 <= i < |pieces|
        ensures AllSpace(pieces[i])
      {
        assert !NonEmpty(trimmed[i]);
        TrimEmptyIff(pieces[i]);
      }
    } else {
      var i :| 0 <= i < |trimmed| && NonEmpty(trimmed[i]);
      TrimEmptyIff(pieces[i]);
    }
  }

  /** The field yields no tags exactly when every piece between the commas is blank. */
  lemma NoTagsIff(text: string)
    ensures ParseTags(text) == [] <==> AllBlank(Split(text, ','))
  {
    NoNamesIff(Split(text, ','));
  }

  /** A field holding only blanks and commas yields no tags. */
  lemma BlankFieldNoTags(text: string)
    requires forall i :: 0 <= i < |text| ==> text[i] == ',' || IsSpace(text[i])
    ensures ParseTags(text) == []
  {
    var pieces := Split(text, ',');
    SplitPiecesFrom(text, ',');
    forall i | 0 <= i < |pieces|
      ensures AllSpace(pieces[i])
    {
      forall j | 0 <= j < |pieces[i]|
        ensures IsSpace(pieces[i][j])
      {
        assert pieces[i][j] in text;
        assert pieces[i][j] != ',';
      }
    }
    NoTagsIff(text);
  }

  /**
   * Typing well-formed names separated by commas gives those names back, in order and with
   * every repetition.
   */
  lemma ParseTagsRoundTrip(names: seq<string>)
    requires forall i :: 0 <= i < |names| ==> WellFormedTag(names[i])
    ensures ParseTags(Join(names, ',')) == names
  {
    if names == [] {
      assert Split([], ',') == [[]];
      assert TrimAll([[]]) == [[]];
    } else {
      SplitJoin(names, ',');
      forall i | 0 <= i < |names|
        ensures Trim(names[i]) == names[i]
      {
        TrimOfTrimmed(names[i]);
      }
      assert TrimAll(names) == names;
      FilterKeepsAll(names, NonEmpty);
    }
  }

  /** The parsed tags survive the `GROUP_CONCAT` and `split` of a later read unchanged. */
  lemma ParsedTagsReadBack(text: string)
    ensures TagsField(ParseTags(text)) == ParseTags(text)
  {
    ParsedTagsWellFormed(text);
    TagsFieldRoundTrip(ParseTags(text));
  }

  /** The same tag typed twice is sent twice. */
  lemma RepeatedTagKept()
    ensures ParseTags("react,react") == ["react", "react"]
  {
    var react := "react";
    assert IsTrimmed(react) && ',' !in react;
    assert Join([react, react], ',') == "react,react" by {
      assert [react, react][1..] == [react];
    }
    ParseTagsRoundTrip([react, react]);
  }

  /** A tag typed twice raises its usage count by two once the snippet is created. */
  lemma RepeatedTagCountsTwice(db: Tables, userId: nat, f: FormData, now: int)
    requires WellFormed(db) && f.tags == "react,react"
    requires Submit(f).Some? && Validates(Submit(f).value)
    ensures Usage(AfterCreate(db, userId, Submit(f).value, now).tags, "react") == Usage(db.tags, "react") + 2
  {
    RepeatedTagKept();
    AfterCreateSpec(db, userId, Submit(f).value, now);
    assert multiset(["react", "react"])["react"] == 2;
  }

  /**
   * A submitted form passes the server's validators as long as its trimmed title has at
   * most 200 characters and a language is chosen; the guard alone does not check either.
   */
  lemma SubmittedFormValidates(f: FormData)
    requires CanSubmit(f)
    ensures Validates(Submit(f).value) <==> |Trim(f.title)| <= 200 && f.language != []
  {
    assert f.code != [] by {
      assert |Trim(f.code)| <= |f.code|;
    }
  }
}
