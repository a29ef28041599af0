/** The handlers of the comments routes: the comment list of a post, read
    through the cache, and the writes that commit and then delete that post's
    comment-list key. */
module Comments {
  import opened Records
  import opened CacheKeys
  import opened Listing
  import opened Backend

  /** `items` is some newest-first listing of the approved top-level comments
      of post `postId` (any order among comments created at the same time). */
  ghost predicate CommentListing(comments: map<int, Comment>, postId: int, items: seq<Comment>)
  {
    exists ids ::
      && NewestFirst(ListedStamps(comments, postId), ids)
      && (forall i :: 0 <= i < |ids| ==> ids[i] in comments)
      && Pick(comments, ids) == items
  }

  /** A comment list holds exactly the approved top-level comments of the
      post, each once, newest first. */
  lemma CommentListingContents(comments: map<int, Comment>, postId: int, items: seq<Comment>)
    requires forall id :: id in comments ==> comments[id].id == id
    requires CommentListing(comments, postId, items)
    ensures forall k :: 0 <= k < |items| ==>
      Listed(items[k], postId) && items[k].id in comments && comments[items[k].id] == items[k]
    ensures forall id :: id in comments && Listed(comments[id], postId) ==> comments[id] in items
    ensures forall k, l :: 0 <= k < l < |items| ==> items[k].id != items[l].id
    ensures forall k, l :: 0 <= k < l < |items| ==> items[k].createdAt >= items[l].createdAt
  {
    var stamps := ListedStamps(comments, postId);
    var ids :| && NewestFirst(stamps, ids)
               && (forall i :: 0 <= i < |ids| ==> ids[i] in comments)
               && Pick(comments, ids) == items;
    forall k | 0 <= k < |items|
      ensures Listed(items[k], postId) && items[k].id in comments && comments[items[k].id] == items[k]
    {
      assert ids[k] in stamps;
      assert items[k] == comments[ids[k]];
      assert comments[ids[k]].id == ids[k];
    }
    forall id | id in comments && Listed(comments[id], postId)
      ensures comments[id] in items
    {
      assert id in stamps;
      var k :| 0 <= k < |ids| && ids[k] == id;
      assert items[k] == comments[id];
    }
    forall k, l | 0 <= k < l < |items|
      ensures items[k].id != items[l].id && items[k].createdAt >= items[l].createdAt
    {
      assert items[k] == comments[ids[k]] && items[l] == comments[ids[l]];
      assert comments[ids[k]].id == ids[k] && comments[ids[l]].id == ids[l];
      assert stamps[ids[k]] >= stamps[ids[l]];
    }
  }

  /** The post is not looked up: a comment list is empty exactly when no
      approved top-level comment carries the post id, so, in this model,
      where `DeletePost` leaves a post's comments in place, a deleted post's
      comments are still listed. */
  lemma EmptyCommentListing(comments: map<int, Comment>, postId: int, items: seq<Comment>)
    requires forall id :: id in comments ==> comments[id].id == id
    requires CommentListing(comments, postId, items)
    ensures items == [] <==> forall id :: id in comments ==> !Listed(comments[id], postId)
  {
    CommentListingContents(comments, postId, items);
    if items != [] {
      assert items[0].id in comments && Listed(comments[items[0].id], postId);
    }
  }

  /** A comment write invalidates one post's comment list only: every other
      entry stays cached as it was. */
  lemma CommentWriteKeepsOtherEntries(cache: map<string, Entry>, postId: int, key: string)
    requires key in cache
    requires (exists page, perPage :: key == PostsPageKey(page, perPage))
          || (exists other :: key == CommentsKey(other) && other != postId)
          || (exists id :: key == PostKey(id))
    ensures var left := cache - {CommentsKey(postId)};
      key in left && left[key] == cache[key]
  {
    if exists page, perPage :: key == PostsPageKey(page, perPage) {
      var page, perPage :| key == PostsPageKey(page, perPage);
      KeyFamiliesDisjoint(postId, postId, page, perPage);
    } else if exists other :: key == CommentsKey(other) && other != postId {
      var other :| key == CommentsKey(other) && other != postId;
      CommentsKeyInjective(postId, other);
    } else {
      var id :| key == PostKey(id);
      KeyFamiliesDisjoint(id, postId, DefaultPage, DefaultPerPage);
    }
  }

  /** `GET /posts/<post_id>/comments`: a hit returns the cached list and
      changes nothing; a miss lists the post's approved top-level comments
      newest first and caches that list. The post itself is not looked up: the
      list holds the comments that carry the post id, is empty only when none
      does, and (as `DeletePost` here leaves a post's comments in place) still
      lists a deleted post's comments. */
  method GetComments(app: App, postId: nat) returns (reply: Reply)
    requires app.Valid()
    modifies app`cache, app`loads
    ensures app.Valid()
    ensures
      var key := CommentsKey(postId);
      if key in old(app.cache) then
        && reply == Ok(old(app.cache)[key].doc)
        && app.cache == old(app.cache) && app.loads == old(app.loads)
      else
        && reply.Ok? && reply.doc.CommentsDoc?
        && CommentListing(app.comments, postId, reply.doc.comments)
        && app.cache == old(app.cache)[key := Entry(reply.doc, CacheTtl)]
        && app.loads == old(app.loads) + 1
  {
    var key := CommentsKey(postId);
    var cached := app.Get(key);
    if cached.Some? {
      return Ok(cached.value);
    }
    app.loads := app.loads + 1;
    var ids := CollectNewestFirst(ListedStamps(app.comments, postId));
    var doc := CommentsDoc(Pick(app.comments, ids));
    app.SetEx(key, CacheTtl, doc);
    reply := Ok(doc);
  }

  /** `POST /posts/<post_id>/comments` by `user`: 404 when the post does not
      exist, a missing `content` is an error; otherwise one approved comment
      by the caller is added under the post, and only the post's comment list
      is invalidated. */
  method CreateComment(app: App, postId: nat, user: int, body: CommentBody, now: int)
    returns (reply: Reply)
    requires app.Valid()
    modifies app`comments, app`nextCommentId, app`cache
    ensures app.Valid()
    ensures postId !in app.posts ==> reply == NotFound
    ensures postId in app.posts && body.content.None? ==> reply == MissingField("content")
    ensures reply.NotFound? || reply.MissingField? ==>
      && app.comments == old(app.comments) && app.nextCommentId == old(app.nextCommentId)
      && app.cache == old(app.cache)
    ensures postId in app.posts && body.content.Some? ==>
      var comment := Comment(old(app.nextCommentId), body.content.value, user, postId,
                             body.parentId, true, now);
      && comment.id !in old(app.comments)
      && app.comments == old(app.comments)[comment.id := comment]
      && app.nextCommentId == old(app.nextCommentId) + 1
      && app.cache == old(app.cache) - {CommentsKey(postId)}
      && reply == Created(CommentDoc(comment))
  {
    if postId !in app.posts {
      return NotFound;
    }
    if body.content.None? {
      return MissingField("content");
    }
    var comment := Comment(app.nextCommentId, body.content.value, user, postId,
                           body.parentId, true, now);
    app.comments := app.comments[comment.id := comment];
    app.nextCommentId := app.nextCommentId + 1;
    app.Delete(CommentsKey(postId));
    reply := Created(CommentDoc(comment));
  }

  /** `PUT /comments/<id>` by `user`: 404 for a missing comment, 403 for a
      caller who is not its author (nothing changes); otherwise only the
      content changes (kept when absent from the body) and the comment list
      of the comment's post is invalidated. */
  method UpdateComment(app: App, id: nat, user: int, body: CommentBody) returns (reply: Reply)
    requires app.Valid()
    modifies app`comments, app`cache
    ensures app.Valid()
    ensures id !in old(app.comments) ==> reply == NotFound
    ensures id in old(app.comments) && old(app.comments)[id].authorId != user ==> reply == Forbidden
    ensures reply.NotFound? || reply.Forbidden? ==>
      app.comments == old(app.comments) && app.cache == old(app.cache)
    ensures id in old(app.comments) && old(app.comments)[id].authorId == user ==>
      var was := old(app.comments)[id];
      var comment := was.(content := body.content.GetOr(was.content));
      && app.comments == old(app.comments)[id := comment]
      && app.cache == old(app.cache) - {CommentsKey(was.postId)}
      && reply == Ok(CommentDoc(comment))
  {
    if id !in app.comments {
      return NotFound;
    }
    var comment := app.comments[id];
    if comment.authorId != user {
      return Forbidden;
    }
    comment := comment.(content := body.content.GetOr(comment.content));
    app.comments := app.comments[id := comment];
    app.Delete(CommentsKey(comment.postId));
    reply := Ok(CommentDoc(comment));
  }

  /** `DELETE /comments/<id>` by `user`: 404 for a missing comment, 403 for a
      caller who is not its author (nothing changes); otherwise the row is
      removed and the comment list of the post it belonged to is invalidated. */
  method DeleteComment(app: App, id: nat, user: int) returns (reply: Reply)
    requires app.Valid()
    modifies app`comments, app`cache
    ensures app.Valid()
    ensures id !in old(app.comments) ==> reply == NotFound
    ensures id in old(app.comments) && old(app.comments)[id].authorId != user ==> reply == Forbidden
    ensures reply.NotFound? || reply.Forbidden? ==>
      app.comments == old(app.comments) && app.cache == old(app.cache)
    ensures id in old(app.comments) && old(app.comments)[id].authorId == user ==>
      && app.comments == old(app.comments) - {id}
      && app.cache == old(app.cache) - {CommentsKey(old(app.comments)[id].postId)}
      && reply == NoContent
  {
    if id !in app.comments {
      return NotFound;
    }
    if app.comments[id].authorId != user {
      return Forbidden;
    }
    var postId := app.comments[id].postId;
    app.comments := app.comments - {id};
    app.Delete(CommentsKey(postId));
    reply := NoContent;
  }
}
