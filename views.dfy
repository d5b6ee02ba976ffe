/**
 * The JSON bodies the snippet and tag routes answer with and store in Redis. A cached
 * value is kept as the structured body it serialises; `JSON.parse(JSON.stringify(v))`
 * is taken to give `v` back.
 */
module Views {
  import opened Db

  /** A row of `GET /snippets`: the snippet joined with its owner, like count and tags. */
  datatype ListItem = ListItem(snippet: Snippet, username: string, avatar: Option<string>,
                               likesCount: nat, tags: seq<string>)

  datatype Pagination = Pagination(page: nat, limit: nat, total: nat, totalPages: nat)

  datatype ListPage = ListPage(items: seq<ListItem>, pagination: Pagination)

  /** `isLiked` / `isFavorited`, present only when the request carried a user. */
  datatype ViewerFlags = ViewerFlags(isLiked: bool, isFavorited: bool)

  /** The body of `GET /snippets/:id`. */
  datatype SnippetDetail = SnippetDetail(snippet: Snippet, username: string, avatar: Option<string>,
                                         bio: Option<string>, likesCount: nat, tags: seq<string>,
                                         viewer: Option<ViewerFlags>)

  datatype Json = ListJson(page: ListPage) | SnippetJson(detail: SnippetDetail) | TagsJson(tags: seq<Tag>)
}
