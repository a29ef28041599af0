/** The records the routes read and write, the documents they return and
    cache, and the request bodies they accept.

    A record's `to_dict()` representation is the record itself, and the JSON
    text a cache entry holds is the document itself, so `json.loads` after
    `json.dumps` is the identity here. */
module Records {
  import opened Wrappers

  /** A row of the posts table; `tags` holds the names of its tags in the
      order they were appended. */
  datatype Post = Post(
    id: int,
    title: string,
    content: string,
    summary: Option<string>,
    coverImage: Option<string>,
    authorId: int,
    published: bool,
    views: int,
    tags: seq<string>,
    createdAt: int)

  /** A row of the comments table; `parentId` is the comment it replies to,
      `None` for a top-level comment. */
  datatype Comment = Comment(
    id: int,
    content: string,
    authorId: int,
    postId: int,
    parentId: Option<int>,
    isApproved: bool,
    createdAt: int)

  /** The listing document `{items, total, pages, current_page}`. */
  datatype Page = Page(items: seq<Post>, total: nat, pages: nat, currentPage: int)

  /** A JSON document a route returns; the cache stores the same documents. */
  datatype Doc =
    | PageDoc(page: Page)
    | PostDoc(post: Post)
    | CommentsDoc(comments: seq<Comment>)
    | CommentDoc(comment: Comment)

  /** A cache entry: the stored document and the expiry it was written with. */
  datatype Entry = Entry(doc: Doc, ttl: nat)

  /** The outcome of a route: the HTTP status as a tag, with its body. */
  datatype Reply =
    | Ok(doc: Doc)              // 200
    | Created(doc: Doc)         // 201
    | NoContent                 // 204
    | NotFound                  // 404 from get_or_404 or paginate
    | Forbidden                 // 403: the caller is not the author
    | MissingField(name: string) // a required JSON key is absent (KeyError, 500)

  /** The JSON body of a post create or update. For every key, `None` means
      the key is absent; for the nullable columns `Some(None)` is an explicit
      JSON null. */
  datatype PostBody = PostBody(
    title: Option<string>,
    content: Option<string>,
    summary: Option<Option<string>>,
    coverImage: Option<Option<string>>,
    published: Option<bool>,
    tags: Option<seq<string>>)

  /** The JSON body of a comment create or update; `parentId` is
      `data.get('parent_id')`, `None` when absent or null. */
  datatype CommentBody = CommentBody(content: Option<string>, parentId: Option<int>)

  /** `data.get(key)` on a nullable key: absent and null both give None. */
  function Nullable<T>(field: Option<Option<T>>): Option<T>
  {
    match field
    case None => None
    case Some(v) => v
  }
}
