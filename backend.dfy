/** The shared state the route modules reach: the Redis cache, the database
    tables behind `Post`, `Tag` and `Comment`, and the primitive operations
    the handlers call on them. */
module Backend {
  import opened Wrappers
  import opened Records

  /** Every `setex` in the routes passes this expiry, in seconds. */
  const CacheTtl: nat := 3600

  class App {
    /** Redis: key to cached document and the expiry it was written with. */
    var cache: map<string, Entry>
    /** The posts table, by primary key. */
    var posts: map<int, Post>
    /** The comments table, by primary key. */
    var comments: map<int, Comment>
    /** The tags table; tag names are unique, so a tag is its name. */
    var tags: set<string>
    /** The next primary keys the tables will assign. */
    var nextPostId: int
    var nextCommentId: int
    /** How many times a read path has fallen through to the database layer:
        one per miss, whatever number of SQL statements that layer runs. */
    ghost var loads: nat

    ghost predicate Valid()
      reads this
    {
      && (forall k :: k in cache ==> cache[k].ttl == CacheTtl)
      && 1 <= nextPostId && 1 <= nextCommentId
      && (forall id :: id in posts ==> posts[id].id == id && 1 <= id < nextPostId)
      && (forall id :: id in posts ==> forall t :: t in posts[id].tags ==> t in tags)
      && (forall id :: id in comments ==> comments[id].id == id && 1 <= id < nextCommentId)
    }

    /** An empty database and an empty cache. */
    constructor ()
      ensures Valid()
      ensures cache == map[] && posts == map[] && comments == map[] && tags == {}
      ensures nextPostId == 1 && nextCommentId == 1
      ensures loads == 0
    {
      cache, posts, comments, tags := map[], map[], map[], {};
      nextPostId, nextCommentId := 1, 1;
      loads := 0;
    }

    /** `redis_client.get(key)`: the cached document, if any. */
    method Get(key: string) returns (doc: Option<Doc>)
      ensures doc.Some? <==> key in cache
      ensures doc.Some? ==> doc.value == cache[key].doc
    {
      doc := if key in cache then Some(cache[key].doc) else None;
    }

    /** `redis_client.setex(key, ttl, value)`: sets or overwrites one entry. */
    method SetEx(key: string, ttl: nat, doc: Doc)
      modifies this`cache
      ensures cache == old(cache)[key := Entry(doc, ttl)]
    {
      cache := cache[key := Entry(doc, ttl)];
    }

    /** `redis_client.delete(key)`: removes one entry; a missing key is a
        no-op. The same operation stands for the backend expiring or evicting
        an entry, which can happen at any time. */
    method Delete(key: string)
      modifies this`cache
      ensures cache == old(cache) - {key}
    {
      cache := cache - {key};
    }

    /** The `for tag_name in data['tags']` loop of the post routes: looks each
        name up in the tags table, creates the tag when it is missing, and
        appends it to the post's tag list, which is returned. */
    method AttachTags(names: seq<string>) returns (attached: seq<string>)
      modifies this`tags
      ensures attached == names
      ensures tags == old(tags) + (set t | t in names)
    {
      attached := [];
      for i := 0 to |names|
        invariant attached == names[..i]
        invariant tags == old(tags) + (set t | t in names[..i])
      {
        var name := names[i];
        if name !in tags {
          tags := tags + {name};
        }
        attached := attached + [name];
        assert names[..i + 1] == names[..i] + [name];
      }
      assert names[..|names|] == names;
    }
  }
}
