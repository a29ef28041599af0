/** The handlers of the posts routes: the listing and single-post reads
    through the cache, and the writes that commit to the database and then
    delete a fixed set of keys. */
module Posts {
  import opened Wrappers
  import opened Records
  import opened CacheKeys
  import opened Listing
  import opened Backend

  /** `pg` is page `page` of `per_page` rows of some newest-first listing of
      the published posts (any order among posts created at the same time). */
  ghost predicate ListingPage(posts: map<int, Post>, page: int, perPage: int, pg: Page)
  {
    exists ids ::
      && NewestFirst(PublishedStamps(posts), ids)
      && (forall i :: 0 <= i < |ids| ==> ids[i] in posts)
      && Paginate(Pick(posts, ids), page, perPage) == Some(pg)
  }

  /** What a listing page shows: published rows of the posts table, newest
      first, with the total counting every published post. */
  lemma ListingPageContents(posts: map<int, Post>, page: int, perPage: int, pg: Page)
    requires forall id :: id in posts ==> posts[id].id == id
    requires ListingPage(posts, page, perPage, pg)
    ensures pg.total == |PublishedStamps(posts)| && pg.currentPage == page && |pg.items| <= perPage
    ensures forall k :: 0 <= k < |pg.items| ==>
      pg.items[k].published && pg.items[k].id in posts && posts[pg.items[k].id] == pg.items[k]
    ensures forall k, l :: 0 <= k < l < |pg.items| ==> pg.items[k].createdAt >= pg.items[l].createdAt
  {
    var ids :| && NewestFirst(PublishedStamps(posts), ids)
               && (forall i :: 0 <= i < |ids| ==> ids[i] in posts)
               && Paginate(Pick(posts, ids), page, perPage) == Some(pg);
    ListingLength(PublishedStamps(posts), ids);
    PublishedListing(posts, ids);
    PageOfListing(posts, Pick(posts, ids), page, perPage, pg);
  }

  /** The rows of a listing of the published posts are published and newest first. */
  lemma PublishedListing(posts: map<int, Post>, ids: seq<int>)
    requires forall id :: id in posts ==> posts[id].id == id
    requires NewestFirst(PublishedStamps(posts), ids)
    requires forall i :: 0 <= i < |ids| ==> ids[i] in posts
    ensures PublishedNewestFirst(posts, Pick(posts, ids))
  {
    var stamps := PublishedStamps(posts);
    var all := Pick(posts, ids);
    forall j | 0 <= j < |ids|
      ensures all[j].published && all[j].id in posts && posts[all[j].id] == all[j]
    {
      assert ids[j] in stamps;
      assert all[j] == posts[ids[j]];
      assert posts[ids[j]].id == ids[j];
    }
    forall j, j' | 0 <= j < j' < |ids|
      ensures all[j].createdAt >= all[j'].createdAt
    {
      assert stamps[ids[j]] >= stamps[ids[j']];
    }
  }

  /** Rows of the posts table that are published, newest first. */
  ghost predicate PublishedNewestFirst(posts: map<int, Post>, rows: seq<Post>)
  {
    && (forall j :: 0 <= j < |rows| ==> rows[j].published && rows[j].id in posts && posts[rows[j].id] == rows[j])
    && (forall j, j' :: 0 <= j < j' < |rows| ==> rows[j].createdAt >= rows[j'].createdAt)
  }

  /** A page of such rows is again such rows. */
  lemma PageOfListing(posts: map<int, Post>, all: seq<Post>, page: int, perPage: int, pg: Page)
    requires PublishedNewestFirst(posts, all)
    requires Paginate(all, page, perPage) == Some(pg)
    ensures PublishedNewestFirst(posts, pg.items)
  {
  }

  /** The invalidation set of a post write, `post:{id}` and the first
      listing page, leaves every other listing page and every comment list
      cached as it was: those pages may stay stale until they expire. */
  lemma PostWriteKeepsOtherEntries(cache: map<string, Entry>, id: int, key: string)
    requires key in cache
    requires (exists page, perPage :: key == PostsPageKey(page, perPage) && (page, perPage) != (DefaultPage, DefaultPerPage))
          || (exists postId :: key == CommentsKey(postId))
          || (exists other :: key == PostKey(other) && other != id)
    ensures var left := cache - {PostKey(id), FirstPageKey};
      key in left && left[key] == cache[key]
  {
    if exists page, perPage :: key == PostsPageKey(page, perPage) && (page, perPage) != (DefaultPage, DefaultPerPage) {
      var page, perPage :| key == PostsPageKey(page, perPage) && (page, perPage) != (DefaultPage, DefaultPerPage);
      FirstPageKeyIsOnlyDefaultPage(page, perPage, id);
      KeyFamiliesDisjoint(id, id, page, perPage);
    } else if exists postId :: key == CommentsKey(postId) {
      var postId :| key == CommentsKey(postId);
      KeyFamiliesDisjoint(id, postId, DefaultPage, DefaultPerPage);
      FirstPageKeyIsOnlyDefaultPage(DefaultPage, DefaultPerPage, postId);
    } else {
      var other :| key == PostKey(other) && other != id;
      PostKeyInjective(id, other);
      FirstPageKeyIsOnlyDefaultPage(DefaultPage, DefaultPerPage, other);
    }
  }

  /** A post's row after one more view. */
  function Viewed(p: Post): (q: Post)
    ensures q.views == p.views + 1
    ensures q.(views := p.views) == p
  {
    p.(views := p.views + 1)
  }

  /** The field assignments of `update_post`: every field present in the
      body takes the body's value, every absent one keeps the old value; the
      id, the author, the view count, the creation time and the tags are not
      touched here. */
  function ApplyChanges(p: Post, body: PostBody): (q: Post)
    ensures q.id == p.id && q.authorId == p.authorId && q.views == p.views
    ensures q.createdAt == p.createdAt && q.tags == p.tags
    ensures body.title.None? ==> q.title == p.title
    ensures body.title.Some? ==> q.title == body.title.value
    ensures body.content.None? ==> q.content == p.content
    ensures body.content.Some? ==> q.content == body.content.value
    ensures body.summary.None? ==> q.summary == p.summary
    ensures body.summary.Some? ==> q.summary == body.summary.value
    ensures body.coverImage.None? ==> q.coverImage == p.coverImage
    ensures body.coverImage.Some? ==> q.coverImage == body.coverImage.value
    ensures body.published.None? ==> q.published == p.published
    ensures body.published.Some? ==> q.published == body.published.value
  {
    p.(title := body.title.GetOr(p.title),
       content := body.content.GetOr(p.content),
       summary := body.summary.GetOr(p.summary),
       coverImage := body.coverImage.GetOr(p.coverImage),
       published := body.published.GetOr(p.published))
  }

  /** An update that leaves out every key changes nothing. */
  lemma EmptyUpdateIsIdentity(p: Post)
    ensures ApplyChanges(p, PostBody(None, None, None, None, None, None)) == p
  {
  }

  /** `GET /posts?page=&per_page=`: absent or non-integer arguments default
      to page 1 and 10 per page. */
  method GetPosts(app: App, pageArg: Option<int>, perPageArg: Option<int>) returns (reply: Reply)
    requires app.Valid()
    modifies app`cache, app`loads
    ensures app.Valid()
    ensures
      var page, perPage := pageArg.GetOr(DefaultPage), perPageArg.GetOr(DefaultPerPage);
      var key := PostsPageKey(page, perPage);
      if key in old(app.cache) then
        // hit: the cached document, no database query, no cache write
        && reply == Ok(old(app.cache)[key].doc)
        && app.cache == old(app.cache) && app.loads == old(app.loads)
      else
        && app.loads == old(app.loads) + 1
        && if PageMissing(|PublishedStamps(app.posts)|, page, perPage) then
             // paginate aborts with 404 before anything is cached
             reply == NotFound && app.cache == old(app.cache)
           else
             && reply.Ok? && reply.doc.PageDoc?
             && ListingPage(app.posts, page, perPage, reply.doc.page)
             && app.cache == old(app.cache)[key := Entry(reply.doc, CacheTtl)]
  {
    var page, perPage := pageArg.GetOr(DefaultPage), perPageArg.GetOr(DefaultPerPage);
    var key := PostsPageKey(page, perPage);
    var cached := app.Get(key);
    if cached.Some? {
      return Ok(cached.value);
    }
    app.loads := app.loads + 1;
    var stamps := PublishedStamps(app.posts);
    var ids := CollectNewestFirst(stamps);
    ListingLength(stamps, ids);
    var pg := Paginate(Pick(app.posts, ids), page, perPage);
    if pg.None? {
      return NotFound;
    }
    var doc := PageDoc(pg.value);
    app.SetEx(key, CacheTtl, doc);
    reply := Ok(doc);
  }

  /** `GET /posts/<id>`: a hit returns the cached document and changes
      nothing; a miss counts one view, caches the post with the new count and
      returns it; a missing post is 404 with nothing cached. */
  method GetPost(app: App, id: nat) returns (reply: Reply)
    requires app.Valid()
    modifies app`cache, app`posts, app`loads
    ensures app.Valid()
    ensures
      var key := PostKey(id);
      if key in old(app.cache) then
        && reply == Ok(old(app.cache)[key].doc)
        && app.cache == old(app.cache) && app.posts == old(app.posts) && app.loads == old(app.loads)
      else if id !in old(app.posts) then
        && reply == NotFound
        && app.cache == old(app.cache) && app.posts == old(app.posts) && app.loads == old(app.loads) + 1
      else
        var viewed := Viewed(old(app.posts)[id]);
        && app.posts == old(app.posts)[id := viewed]
        && reply == Ok(PostDoc(viewed))
        && app.cache == old(app.cache)[key := Entry(PostDoc(viewed), CacheTtl)]
        && app.loads == old(app.loads) + 1
  {
    var key := PostKey(id);
    var cached := app.Get(key);
    if cached.Some? {
      return Ok(cached.value);
    }
    app.loads := app.loads + 1;
    if id !in app.posts {
      return NotFound;
    }
    var post := Viewed(app.posts[id]);
    app.posts := app.posts[id := post];
    app.SetEx(key, CacheTtl, PostDoc(post));
    reply := Ok(PostDoc(post));
  }

  /** `POST /posts` by `user`: title and content are required; the new row
      gets the next id, the caller as author, `published` false unless given,
      no views, creation time `now`, and the named tags (created when
      missing); then only the first listing page is invalidated. */
  method CreatePost(app: App, user: int, body: PostBody, now: int) returns (reply: Reply)
    requires app.Valid()
    modifies app`posts, app`tags, app`nextPostId, app`cache
    ensures app.Valid()
    ensures body.title.None? ==> reply == MissingField("title")
    ensures body.title.Some? && body.content.None? ==> reply == MissingField("content")
    ensures reply.MissingField? ==>
      && app.posts == old(app.posts) && app.tags == old(app.tags)
      && app.nextPostId == old(app.nextPostId) && app.cache == old(app.cache)
    ensures body.title.Some? && body.content.Some? ==>
      var post := Post(old(app.nextPostId), body.title.value, body.content.value,
                       Nullable(body.summary), Nullable(body.coverImage), user,
                       body.published.GetOr(false), 0, body.tags.GetOr([]), now);
      && post.id !in old(app.posts)
      && app.posts == old(app.posts)[post.id := post]
      && app.nextPostId == old(app.nextPostId) + 1
      && app.tags == old(app.tags) + (set t | t in post.tags)
      && app.cache == old(app.cache) - {FirstPageKey}
      && reply == Created(PostDoc(post))
  {
    if body.title.None? {
      return MissingField("title");
    }
    if body.content.None? {
      return MissingField("content");
    }
    var attached: seq<string> := [];
    if body.tags.Some? {
      attached := app.AttachTags(body.tags.value);
    }
    var post := Post(app.nextPostId, body.title.value, body.content.value,
                     Nullable(body.summary), Nullable(body.coverImage), user,
                     body.published.GetOr(false), 0, attached, now);
    app.posts := app.posts[post.id := post];
    app.nextPostId := app.nextPostId + 1;
    app.Delete(FirstPageKey);
    reply := Created(PostDoc(post));
  }

  /** `PUT /posts/<id>` by `user`: 404 for a missing post, 403 for a caller
      who is not the author (nothing changes in either case); otherwise the
      fields present in the body are assigned, the tag list is replaced when
      `tags` is present, and only `post:{id}` and the first listing page are
      invalidated. */
  method UpdatePost(app: App, id: nat, user: int, body: PostBody) returns (reply: Reply)
    requires app.Valid()
    modifies app`posts, app`tags, app`cache
    ensures app.Valid()
    ensures id !in old(app.posts) ==> reply == NotFound
    ensures id in old(app.posts) && old(app.posts)[id].authorId != user ==> reply == Forbidden
    ensures reply.NotFound? || reply.Forbidden? ==>
      app.posts == old(app.posts) && app.tags == old(app.tags) && app.cache == old(app.cache)
    ensures id in old(app.posts) && old(app.posts)[id].authorId == user ==>
      var changed := ApplyChanges(old(app.posts)[id], body);
      var post := if body.tags.Some? then changed.(tags := body.tags.value) else changed;
      && app.posts == old(app.posts)[id := post]
      && app.tags == old(app.tags) + (set t | t in post.tags)
      && app.cache == old(app.cache) - {PostKey(id), FirstPageKey}
      && reply == Ok(PostDoc(post))
  {
    if id !in app.posts {
      return NotFound;
    }
    var post := app.posts[id];
    if post.authorId != user {
      return Forbidden;
    }
    post := ApplyChanges(post, body);
    if body.tags.Some? {
      var attached := app.AttachTags(body.tags.value);
      post := post.(tags := attached);
    } else {
      assert forall t :: t in post.tags ==> t in app.tags;
      assert (set t | t in post.tags) <= app.tags;
    }
    app.posts := app.posts[id := post];
    app.Delete(PostKey(id));
    app.Delete(FirstPageKey);
    reply := Ok(PostDoc(post));
  }

  /** `DELETE /posts/<id>` by `user`: 404 for a missing post, 403 for a caller
      who is not the author (nothing changes); otherwise the row is removed
      and the same two keys as on update are invalidated. */
  method DeletePost(app: App, id: nat, user: int) returns (reply: Reply)
    requires app.Valid()
    modifies app`posts, app`cache
    ensures app.Valid()
    ensures id !in old(app.posts) ==> reply == NotFound
    ensures id in old(app.posts) && old(app.posts)[id].authorId != user ==> reply == Forbidden
    ensures reply.NotFound? || reply.Forbidden? ==>
      app.posts == old(app.posts) && app.cache == old(app.cache)
    ensures id in old(app.posts) && old(app.posts)[id].authorId == user ==>
      && app.posts == old(app.posts) - {id}
      && app.cache == old(app.cache) - {PostKey(id), FirstPageKey}
      && reply == NoContent
  {
    if id !in app.posts {
      return NotFound;
    }
    if app.posts[id].authorId != user {
      return Forbidden;
    }
    app.posts := app.posts - {id};
    app.Delete(PostKey(id));
    app.Delete(FirstPageKey);
    reply := NoContent;
  }
}
