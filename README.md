# Cache-aside layer of the blog backend's post and comment routes

This project models, in Dafny, the part of the Flask blog backend that puts
a Redis cache in front of the database: the posts routes
(`backend/app/routes/posts.py`) and the comments routes
(`backend/app/routes/comments.py`). It covers:

- the **key scheme**: `posts:page:{page}:per_page:{per_page}`, `post:{id}`
  and `post:{post_id}:comments`, with integers rendered as Python renders
  them;
- the **read-through** of the three read routes. A hit returns the cached
  document and touches neither the database nor the cache. A miss queries
  the database, stores the document with `setex(key, 3600, …)` and returns
  exactly what it stored, unless the read is a 404, which caches nothing. A
  single-post miss also adds one view first;
- the **write-then-invalidate** of the six write routes. Each commits its
  change and then deletes a fixed set of keys: `posts:page:1:per_page:10` for every post
  write (only the first page of the default listing), plus `post:{id}` for
  update and delete, and `post:{post_id}:comments` for comment writes;
- the **ownership guard**. An update or delete by anyone but the author is
  403 and changes nothing.

The modules follow the source. `CacheKeys` holds the f-string keys.
`Listing` holds the ordered queries and `paginate`. `Backend` holds the
state every route reaches. Its class `App` has the cache (a map from key to
document and TTL), the posts, comments and tags tables, the id counters,
and a ghost counter `loads` that counts how often a read path falls
through to the database layer (one count per miss, however many SQL
statements that layer then runs, or none). `Posts` and
`Comments` are the two route modules, one method per handler. `Scenarios`
derives request sequences from the handler contracts. In these sequences
warm reads count one view, and reads after a write see the write.

In the source the routes import a module-level `redis_client`
(`backend/app/routes/posts.py:5`), while `backend/app/__init__.py:25` sets
`app.redis_client`. The model passes the cache and the database to every
handler as one `App` object.

The model follows the code: there is no fallback when the cache is
unreachable (a cache error would propagate, so none is modelled); the view
count is updated read-modify-write (`post.views += 1`) and tags are found or
created read-then-insert; both are modelled sequentially.

## Model

| member | source | states |
|---|---|---|
| `CacheKeys.IntToDecimal` | backend/app/routes/posts.py:41 | the f-string rendering of an integer is non-empty, has only digits and '-', has no ':', and starts with '-' exactly for negatives |
| `CacheKeys.NatToDecimal` | backend/app/routes/posts.py:41 | a natural number renders as digits only, one digit exactly below 10 |
| `CacheKeys.NatRoundTrip` | backend/app/routes/posts.py:41 | reading back the digits of a natural number gives the number |
| `CacheKeys.IntRoundTrip` | backend/app/routes/posts.py:16 | reading back the rendering of any integer, negative ones included, gives the integer |
| `CacheKeys.IntToDecimalInjective` | backend/app/routes/posts.py:16 | different integers render as different strings |
| `CacheKeys.PostsPageKeyInjective` | backend/app/routes/posts.py:16 | two listing keys are equal if and only if their page and per_page are equal |
| `CacheKeys.PostKeyInjective` | backend/app/routes/posts.py:41 | `post:{id}` keys are equal if and only if the ids are |
| `CacheKeys.CommentsKeyInjective` | backend/app/routes/comments.py:13 | `post:{post_id}:comments` keys are equal if and only if the post ids are |
| `CacheKeys.PostsPageKeyReadsBack` | backend/app/routes/posts.py:16 | a listing key is `posts:page:`, the page number up to the next ':', then `:per_page:` and the page size; both numbers read back from the key |
| `CacheKeys.PostKeyReadsBack` | backend/app/routes/posts.py:41 | a post key is `post:` followed by a colon-free rendering of the id, which reads back as the id |
| `CacheKeys.CommentsKeyReadsBack` | backend/app/routes/comments.py:13 | a comment-list key is `post:`, a colon-free rendering of the post id that reads back as the id, and `:comments` |
| `CacheKeys.KeyFamiliesDisjoint` | backend/app/routes/posts.py:16-41 | no post key equals a comment-list key or a listing key, and no comment-list key equals a listing key |
| `CacheKeys.FirstPageIsDefaultPage` | backend/app/routes/posts.py:12-16 | the key the post writes delete is the key of a listing request with default arguments (page 1, 10 per page) |
| `CacheKeys.FirstPageKeyIsOnlyDefaultPage` | backend/app/routes/posts.py:86 | the deleted list key belongs to page 1 with 10 per page and to no other listing request, post or comment list |
| `Listing.InsertByStamp` | backend/app/routes/posts.py:23 | inserting a row into a newest-first listing adds exactly that row and keeps the listing distinct and newest first |
| `Listing.PublishedStamps` | backend/app/routes/posts.py:22 | the published-post query keeps exactly the posts whose `published` flag is set, each with its created_at |
| `Listing.ListedStamps` | backend/app/routes/comments.py:19-23 | the comment query keeps exactly the comments of the post with no parent and `is_approved` set, each with its created_at |
| `Listing.CollectNewestFirst` | backend/app/routes/posts.py:22-23 | the ordered query returns every kept row exactly once, ordered by created_at descending |
| `Listing.ListingLength` | backend/app/routes/posts.py:28 | every newest-first listing of a query has as many rows as the query keeps, whatever order it gives to ties |
| `Listing.PageCount` | backend/app/routes/posts.py:29 | the page count is 0 for no rows, otherwise the least n with total <= n * per_page |
| `Listing.Paginate` | backend/app/routes/posts.py:24-31 | the 404 cases hold exactly when page < 1, per_page < 1, or the page is past the end and not page 1. Otherwise the page holds the rows at positions (page-1)*per_page onward: a full page when the listing has enough rows, the rest of the listing when not. It also carries the total, the page count and current_page = page |
| `Backend.App.constructor` | backend/app/__init__.py:10-30 | starts with an empty cache, empty tables and ids from 1, and the state invariant holds |
| `Backend.App.Get` | backend/app/routes/posts.py:17 | returns a document exactly when the key is cached, and then the cached document |
| `Backend.App.SetEx` | backend/app/routes/posts.py:34 | writes the one entry under the key with the given TTL; nothing else changes |
| `Backend.App.Delete` | backend/app/routes/posts.py:86 | removes the one key, a no-op when absent; nothing else changes |
| `Backend.App.AttachTags` | backend/app/routes/posts.py:74-80 | the post gets the names in request order. The tags table gains the missing names, once each, and keeps the existing ones |
| `Posts.GetPosts` | backend/app/routes/posts.py:10-36 | absent arguments default to page 1 and 10 per page. A hit returns the cached document with no query and no cache write. A miss falls through to the database layer once (counted in `loads`; flask-sqlalchemy 3 then runs an items and a count query, or none when it rejects page < 1 or per_page < 1). It is 404 with nothing cached when paginate aborts. Otherwise it returns a page of the newest-first published listing and caches exactly that document under the same key with TTL 3600. The database is never changed |
| `Posts.ListingPageContents` | backend/app/routes/posts.py:22-31 | every row on a listing page is a published row of the posts table. The rows are newest first, at most per_page of them. The total counts all published posts |
| `Posts.PublishedListing` | backend/app/routes/posts.py:22-23 | a listing of the published posts holds only published rows as stored in the table, newest first |
| `Posts.PageOfListing` | backend/app/routes/posts.py:24-27 | a page of published, newest-first rows is published and newest first |
| `Posts.Viewed` | backend/app/routes/posts.py:50 | one view adds exactly 1 to `views` and changes no other field |
| `Posts.GetPost` | backend/app/routes/posts.py:38-56 | A hit returns the cached document and changes no view count, cache entry or query count. A miss on a missing id is 404, with no view counted and nothing cached. A miss on an existing post adds 1 to its views and to no other post's. It caches `post:{id}` with the incremented row, TTL 3600, and returns that row |
| `Posts.CreatePost` | backend/app/routes/posts.py:58-88 | a missing title or content is an error with no change. Otherwise it adds exactly one post with a fresh id, the caller as author, `published` false unless given, no views and the given tags. The tags table gains the missing names. Only `posts:page:1:per_page:10` is deleted |
| `Posts.ApplyChanges` | backend/app/routes/posts.py:101-105 | every field absent from the body keeps its old value and every present one takes the body's value. Id, author, views, creation time and tags are kept |
| `Posts.EmptyUpdateIsIdentity` | backend/app/routes/posts.py:101-105 | an empty update body changes no field |
| `Posts.UpdatePost` | backend/app/routes/posts.py:90-123 | a missing post is 404 and a caller other than the author gets 403, with the store, tags and cache unchanged. Otherwise it assigns the present fields and replaces the tag list whole when `tags` is given. It then deletes exactly `post:{id}` and `posts:page:1:per_page:10` |
| `Posts.DeletePost` | backend/app/routes/posts.py:125-141 | a missing post is 404 and a caller other than the author gets 403, with nothing changed. Otherwise the row is removed and exactly `post:{id}` and `posts:page:1:per_page:10` are deleted |
| `Posts.PostWriteKeepsOtherEntries` | backend/app/routes/posts.py:119-121 | after a post write's invalidation, every other listing page, every comment list and every other post stays cached unchanged |
| `Comments.CommentListingContents` | backend/app/routes/comments.py:19-25 | a comment list holds exactly the comments of the post with no parent and approval set: each one once, as stored, newest first |
| `Comments.EmptyCommentListing` | backend/app/routes/comments.py:19-23 | the post is not looked up: a comment list is empty if and only if no approved top-level comment carries the post id, so, in this model, where `DeletePost` leaves a post's comments in place, a deleted post's comments are still listed |
| `Comments.GetComments` | backend/app/routes/comments.py:10-30 | a hit returns the cached list with no query and no cache write. A miss returns the post's approved top-level comments newest first and caches that list with TTL 3600. The post is not looked up: the list holds the comments carrying its id, so, in this model, where `DeletePost` leaves a post's comments in place, a deleted post's comments are still listed |
| `Comments.CreateComment` | backend/app/routes/comments.py:32-54 | an unknown post is 404 and a missing content is an error, both with no comment added and no key deleted. Otherwise it adds one approved comment by the caller with the given parent_id. Only `post:{post_id}:comments` is deleted |
| `Comments.UpdateComment` | backend/app/routes/comments.py:56-73 | a missing comment is 404 and a caller other than the author gets 403, with nothing changed. Otherwise only `content` changes, kept when absent, and `post:{comment.post_id}:comments` is deleted |
| `Comments.DeleteComment` | backend/app/routes/comments.py:75-91 | a missing comment is 404 and a caller other than the author gets 403, with nothing changed. Otherwise the row is removed and the comment list of the post it belonged to is deleted |
| `Comments.CommentWriteKeepsOtherEntries` | backend/app/routes/comments.py:51-52 | a comment write's invalidation leaves every listing page, every post and every other post's comment list cached unchanged |
| `Scenarios.WarmReadsCountOneView` | backend/app/routes/posts.py:41-56 | n >= 1 reads of a post from a cold key give exactly one view increment and one fall-through to the database. Every reply is the document the first read cached, and other posts are untouched |
| `Scenarios.ExpiringReadsCountEachView` | backend/app/routes/posts.py:41-56 | n reads of a post with the entry expired before each one: every read misses, so views and database fall-throughs (`loads`) go up by n and read k returns the row with k + 1 more views; other posts are untouched |
| `Scenarios.ReadAfterUpdate` | backend/app/routes/posts.py:101-121 | after the author changes a title, the next read misses and returns the new title with one more view. The cache then holds that document |
| `Scenarios.NewCommentListedFirst` | backend/app/routes/comments.py:19-52 | after a new top-level comment newer than all others, the next list read misses and shows it first |

## Left out

- HTTP, JWT and JSON plumbing: the caller's identity is an opaque integer
  parameter (authentication, `jwt_required` and 401 are not modelled). The
  request body is an already-parsed JSON object with typed fields. A reply
  is a status tag with its document.
- `to_dict()` and `json.dumps`/`json.loads`: the ORM model modules
  (`app/models/`) are not part of this model. A row's representation is the row itself, and a cached
  document is the returned document.
- Defaults of the ORM model modules are assumptions: a new post starts with 0
  views, and `created_at` is the time passed to the create handler (the
  clock is a parameter).
- `paginate` lives in flask-sqlalchemy, which is not part of this model.
  `Listing.Paginate` follows its version 3 behaviour. A page or per_page
  below 1 is 404, an empty page other than page 1 is 404, and the page count
  is the ceiling of total over per_page, 0 when there are no rows.
- TTL expiry and LRU eviction: the TTL is recorded with each entry (always
  3600) and no clock runs. An entry vanishing is `App.Delete`, which a
  caller may apply at any time.
- Concurrency: the stale-resurrection race between a miss and a concurrent
  invalidation, and the atomicity of `views += 1` and of tag
  get-or-create. All calls are sequential.
- The staleness bound of cache entries (an entry was true of the store at
  some earlier point) is not stated as an invariant. The model shows which
  writes delete which keys, and that no other key is touched.
- Database failures and constraints: commit errors and foreign keys are
  not modelled. The ORM models are not part of this model, so whether
  deleting a post cascades to its comments is unknown; the model leaves
  them in place. A comment's
  `parent_id` is stored as given, unchecked, as in the code.
- A JSON null for `title`, `content` or `published`, and a repeated tag
  name in one request: the model takes these as strings, booleans and a
  name list. The ORM's handling of a name appended twice is not modelled
  (the post keeps the list as given, and the tags table has each name once).
- `Backend.App.AttachTags`: tag names are compared by exact string
  equality. The source finds a tag with `filter_by(name=…)` in MySQL, whose
  default collation may treat differently-cased names (`python`, `Python`)
  as one tag; the model then adds a second tag and keeps the request's
  spelling, where the database would reuse the stored row. The same holds
  for the tag lookups of `Posts.CreatePost` and `Posts.UpdatePost`.
- The order among rows with equal `created_at` is left open, as SQL leaves
  it. Listings are specified up to that order.
