/** The read-path queries behind the two list routes: the rows a query keeps,
    ordered by `created_at` descending, and one page of them.

    A query is described by a map from the id of every row it keeps to that
    row's `created_at`. SQL leaves the order of rows with equal timestamps open,
    so a listing is specified by `NewestFirst`, which allows any order among
    ties. */
module Listing {
  import opened Wrappers
  import opened Records

  predicate Distinct(ids: seq<int>) {
    forall i, j :: 0 <= i < j < |ids| ==> ids[i] != ids[j]
  }

  predicate Descending(stamps: map<int, int>, ids: seq<int>)
    requires forall i :: 0 <= i < |ids| ==> ids[i] in stamps
  {
    forall i, j :: 0 <= i < j < |ids| ==> stamps[ids[i]] >= stamps[ids[j]]
  }

  /** `ids` lists every key of `stamps` exactly once, newest first. */
  predicate NewestFirst(stamps: map<int, int>, ids: seq<int>) {
    && (forall i :: 0 <= i < |ids| ==> ids[i] in stamps)
    && (forall id :: id in stamps ==> id in ids)
    && Distinct(ids)
    && Descending(stamps, ids)
  }

  /** The posts `filter_by(published=True)` keeps, with their timestamps. */
  function PublishedStamps(posts: map<int, Post>): (r: map<int, int>)
    ensures forall id :: id in r <==> id in posts && posts[id].published
    ensures forall id :: id in r ==> r[id] == posts[id].createdAt
  {
    map id | id in posts && posts[id].published :: posts[id].createdAt
  }

  /** The comments `filter_by(post_id=…, parent_id=None, is_approved=True)` keeps. */
  predicate Listed(c: Comment, postId: int) {
    c.postId == postId && c.parentId.None? && c.isApproved
  }

  function ListedStamps(comments: map<int, Comment>, postId: int): (r: map<int, int>)
    ensures forall id :: id in r <==>
      (id in comments && comments[id].postId == postId && comments[id].parentId == None && comments[id].isApproved)
    ensures forall id :: id in r ==> r[id] == comments[id].createdAt
  {
    map id | id in comments && Listed(comments[id], postId) :: comments[id].createdAt
  }

  /** The rows of `m` at `ids`, in that order. */
  function Pick<T>(m: map<int, T>, ids: seq<int>): seq<T>
    requires forall i :: 0 <= i < |ids| ==> ids[i] in m
  {
    seq(|ids|, i requires 0 <= i < |ids| => m[ids[i]])
  }

  /** Places `id` before the first row that is not newer than it. */
  function InsertByStamp(stamps: map<int, int>, ids: seq<int>, id: int): (r: seq<int>)
    requires id in stamps && forall i :: 0 <= i < |ids| ==> ids[i] in stamps
    ensures |r| == |ids| + 1
    ensures forall x :: x in r <==> x in ids || x == id
    ensures forall i :: 0 <= i < |r| ==> r[i] in stamps
    ensures Distinct(ids) && id !in ids ==> Distinct(r)
    ensures Descending(stamps, ids) ==> Descending(stamps, r)
    decreases |ids|
  {
    if ids == [] || stamps[id] >= stamps[ids[0]] then [id] + ids
    else
      var rest := InsertByStamp(stamps, ids[1..], id);
      assert forall x :: x in rest ==> x in ids[1..] || x == id;
      assert Distinct(ids) && id !in ids ==> ids[0] !in rest;
      assert Descending(stamps, ids) ==> forall k :: 0 <= k < |rest| ==> stamps[ids[0]] >= stamps[rest[k]] by {
        if Descending(stamps, ids) {
          forall k | 0 <= k < |rest| ensures stamps[ids[0]] >= stamps[rest[k]] {
            if rest[k] != id {
              assert rest[k] in ids[1..];
              var j :| 0 <= j < |ids[1..]| && ids[1..][j] == rest[k];
              assert ids[j + 1] == rest[k];
            }
          }
        }
      }
      [ids[0]] + rest
  }

  lemma NonEmptyHasMember(s: set<int>)
    ensures s == {} || exists x :: x in s
  {
    if !(exists x :: x in s) {
      assert s == {};
    }
  }

  /** Runs the ordered query: every key of `stamps`, newest first. */
  method CollectNewestFirst(stamps: map<int, int>) returns (ids: seq<int>)
    ensures NewestFirst(stamps, ids)
  {
    ids := [];
    var rest := stamps.Keys;
    while rest != {}
      invariant forall i :: 0 <= i < |ids| ==> ids[i] in stamps
      invariant forall x :: x in ids ==> x !in rest
      invariant forall x :: x in stamps && x !in rest ==> x in ids
      invariant Distinct(ids)
      invariant Descending(stamps, ids)
      decreases rest
    {
      NonEmptyHasMember(rest);
      var id :| id in rest;
      ids := InsertByStamp(stamps, ids, id);
      rest := rest - {id};
    }
  }

  lemma {:induction false} DistinctCardinality(ids: seq<int>)
    requires Distinct(ids)
    ensures |set x | x in ids| == |ids|
    decreases |ids|
  {
    if |ids| > 0 {
      var tail := ids[1..];
      assert Distinct(tail);
      DistinctCardinality(tail);
      assert (set x | x in ids) == (set x | x in tail) + {ids[0]};
      assert ids[0] !in (set x | x in tail);
    } else {
      assert (set x | x in ids) == {};
    }
  }

  /** Every listing of a query has as many rows as the query keeps, whatever
      order it gives to ties. */
  lemma ListingLength(stamps: map<int, int>, ids: seq<int>)
    requires NewestFirst(stamps, ids)
    ensures |ids| == |stamps|
  {
    DistinctCardinality(ids);
    forall x | x in ids ensures x in stamps {
      var i :| 0 <= i < |ids| && ids[i] == x;
    }
    forall x | x in stamps ensures x in (set y | y in ids) {
      assert x in ids;
    }
    assert (set x | x in ids) == stamps.Keys;
  }

  /** Number of pages of `per_page` rows that hold `total` rows (0 for none). */
  function PageCount(total: nat, perPage: int): (n: nat)
    requires perPage >= 1
    ensures total == 0 ==> n == 0
    ensures total > 0 ==> (n - 1) * perPage < total <= n * perPage
  {
    if total == 0 then 0 else 1 + PageCount(if total <= perPage then 0 else total - perPage, perPage)
  }

  /** The cases in which `paginate(page, per_page)` aborts with 404: a page
      number or page size below 1, or a page past the end other than page 1. */
  predicate PageMissing(total: nat, page: int, perPage: int) {
    page < 1 || perPage < 1 || (page != 1 && (page - 1) * perPage >= total)
  }

  /** `paginate(page=page, per_page=per_page)` over the ordered rows `all`. */
  function Paginate(all: seq<Post>, page: int, perPage: int): (r: Option<Page>)
    ensures r.None? <==> PageMissing(|all|, page, perPage)
    ensures r.Some? ==>
      && r.value.total == |all|
      && r.value.pages == PageCount(|all|, perPage)
      && r.value.currentPage == page
      && |r.value.items| <= perPage
      && 0 <= (page - 1) * perPage
      && (page - 1) * perPage + |r.value.items| <= |all|
      && (forall k :: 0 <= k < |r.value.items| ==> r.value.items[k] == all[(page - 1) * perPage + k])
      && ((page - 1) * perPage + perPage <= |all| ==> |r.value.items| == perPage)
      && (|r.value.items| < perPage ==> (page - 1) * perPage + |r.value.items| == |all|)
  {
    if PageMissing(|all|, page, perPage) then None
    else
      var start := (page - 1) * perPage;
      var lo := if start <= |all| then start else |all|;
      var hi := if start + perPage <= |all| then start + perPage else |all|;
      Some(Page(all[lo..hi], |all|, PageCount(|all|, perPage), page))
  }
}
