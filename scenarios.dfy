/** Consequences of the handler contracts over sequences of requests, as a
    caller can derive them: the view counter under a warm and an expiring
    cache, and reads after writes. */
module Scenarios {
  import opened Wrappers
  import opened Records
  import opened CacheKeys
  import opened Listing
  import opened Backend
  import Posts
  import Comments

  /** `n` reads of an existing post starting from a cold key: the first one
      loads and counts a view, every later one is served from the cache, so
      the view count goes up by exactly one however many reads there are, and
      every reply is the document the first read cached. */
  method WarmReadsCountOneView(app: App, id: nat, n: nat) returns (replies: seq<Reply>)
    requires app.Valid() && id in app.posts && PostKey(id) !in app.cache && n >= 1
    modifies app`cache, app`posts, app`loads
    ensures app.Valid()
    ensures id in app.posts && app.posts[id].views == old(app.posts[id].views) + 1
    ensures app.loads == old(app.loads) + 1
    ensures |replies| == n && forall k :: 0 <= k < n ==> replies[k] == Ok(PostDoc(app.posts[id]))
    ensures forall other :: other in old(app.posts) && other != id ==>
      other in app.posts && app.posts[other] == old(app.posts[other])
  {
    var first := Posts.GetPost(app, id);
    replies := [first];
    while |replies| < n
      invariant app.Valid() && id in app.posts && 1 <= |replies| <= n
      invariant app.posts == old(app.posts)[id := Posts.Viewed(old(app.posts[id]))]
      invariant app.loads == old(app.loads) + 1
      invariant PostKey(id) in app.cache && app.cache[PostKey(id)].doc == PostDoc(app.posts[id])
      invariant forall k :: 0 <= k < |replies| ==> replies[k] == Ok(PostDoc(app.posts[id]))
      decreases n - |replies|
    {
      var again := Posts.GetPost(app, id);
      replies := replies + [again];
    }
  }

  /** `n` reads of an existing post with the entry expiring before each one:
      every read misses, loads the post and counts a view, so the view count
      and the query count go up by `n`, and read `k` returns the row with
      `k + 1` more views. */
  method ExpiringReadsCountEachView(app: App, id: nat, n: nat) returns (replies: seq<Reply>)
    requires app.Valid() && id in app.posts
    modifies app`cache, app`posts, app`loads
    ensures app.Valid()
    ensures id in app.posts && app.posts[id].views == old(app.posts[id].views) + n
    ensures app.loads == old(app.loads) + n
    ensures |replies| == n
    ensures forall k :: 0 <= k < n ==>
      replies[k] == Ok(PostDoc(old(app.posts[id]).(views := old(app.posts[id].views) + k + 1)))
    ensures forall other :: other in old(app.posts) && other != id ==>
      other in app.posts && app.posts[other] == old(app.posts[other])
  {
    ghost var start := app.posts[id];
    replies := [];
    while |replies| < n
      invariant app.Valid() && id in app.posts && |replies| <= n
      invariant app.posts == old(app.posts)[id := start.(views := start.views + |replies|)]
      invariant app.loads == old(app.loads) + |replies|
      invariant forall k :: 0 <= k < |replies| ==>
        replies[k] == Ok(PostDoc(start.(views := start.views + k + 1)))
      decreases n - |replies|
    {
      app.Delete(PostKey(id));
      var reply := Posts.GetPost(app, id);
      replies := replies + [reply];
    }
  }

  /** An author's title change is visible to the next read, which misses the
      invalidated key, loads the changed row and counts a view. */
  method ReadAfterUpdate(app: App, id: nat, user: int, title: string) returns (reply: Reply)
    requires app.Valid() && id in app.posts && app.posts[id].authorId == user
    modifies app`cache, app`posts, app`tags, app`loads
    ensures app.Valid()
    ensures reply.Ok? && reply.doc.PostDoc?
    ensures reply.doc.post.title == title
    ensures reply.doc.post.views == old(app.posts[id].views) + 1
    ensures PostKey(id) in app.cache && app.cache[PostKey(id)].doc == reply.doc
  {
    var updated := Posts.UpdatePost(app, id, user, PostBody(Some(title), None, None, None, None, None));
    reply := Posts.GetPost(app, id);
  }

  /** A new top-level comment that is newer than every other comment comes
      first in the next comment-list read, which misses the invalidated key. */
  method NewCommentListedFirst(app: App, postId: nat, user: int, content: string, now: int)
    returns (reply: Reply)
    requires app.Valid() && postId in app.posts
    requires forall id :: id in app.comments ==> app.comments[id].createdAt < now
    modifies app`comments, app`nextCommentId, app`cache, app`loads
    ensures app.Valid()
    ensures reply.Ok? && reply.doc.CommentsDoc? && |reply.doc.comments| > 0
    ensures reply.doc.comments[0] == Comment(old(app.nextCommentId), content, user, postId, None, true, now)
  {
    var created := Comments.CreateComment(app, postId, user, CommentBody(Some(content), None), now);
    reply := Comments.GetComments(app, postId);
    var c := created.doc.comment;
    Comments.CommentListingContents(app.comments, postId, reply.doc.comments);
    assert c.id in app.comments && app.comments[c.id] == c && Listed(c, postId);
    var items := reply.doc.comments;
    assert items[0].id in app.comments;
  }
}
