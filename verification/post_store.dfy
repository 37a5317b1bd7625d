/** The post collection as the post service queries it: posts in natural
    (insertion) order, the newest-first ordering of a listing, and the
    `skip`/`limit` window of a page. */
module PostStore {
  import opened Common
  import Json

  datatype Post = Post(id: string, user: string, content: string, mediaIds: seq<Json.Value>, createdAt: int)

  /** The store's `_id` index: no two posts share an id. */
  predicate UniqueIds(posts: seq<Post>)
  {
    forall i, j :: 0 <= i < j < |posts| ==> posts[i].id != posts[j].id
  }

  /** A post whose id is not taken can be added without breaking the index. */
  lemma AppendKeepsIdsUnique(posts: seq<Post>, p: Post)
    requires UniqueIds(posts) && forall j :: 0 <= j < |posts| ==> posts[j].id != p.id
    ensures UniqueIds(posts + [p])
  {
    var r := posts + [p];
    forall a, b | 0 <= a < b < |r| ensures r[a].id != r[b].id {
      assert r[a] == posts[a];
    }
  }

  /** Removing a post keeps the index. */
  lemma RemoveKeepsIdsUnique(posts: seq<Post>, i: nat)
    requires UniqueIds(posts) && i < |posts|
    ensures UniqueIds(RemoveAt(posts, i))
  {
    var d := RemoveAt(posts, i);
    forall a, b | 0 <= a < b < |d| ensures d[a].id != d[b].id {
      var a' := if a < i then a else a + 1;
      var b' := if b < i then b else b + 1;
      assert d[a] == posts[a'] && d[b] == posts[b'];
    }
  }

  predicate NewestFirst(posts: seq<Post>)
  {
    forall i, j :: 0 <= i < j < |posts| ==> posts[i].createdAt >= posts[j].createdAt
  }

  /** A post no older than the head of a newest-first sequence can lead it. */
  lemma ConsNewestFirst(x: Post, rest: seq<Post>)
    requires NewestFirst(rest) && (|rest| > 0 ==> rest[0].createdAt <= x.createdAt)
    ensures NewestFirst([x] + rest)
  {
    var r := [x] + rest;
    forall i, j | 0 <= i < j < |r| ensures r[i].createdAt >= r[j].createdAt {
      if i == 0 {
        assert r[j] == rest[j - 1] && rest[j - 1].createdAt <= rest[0].createdAt;
      } else {
        assert r[i] == rest[i - 1] && r[j] == rest[j - 1];
      }
    }
  }

  /** Places `p` in front of every post that is not newer than it. */
  function InsertNewestFirst(p: Post, sorted: seq<Post>): (r: seq<Post>)
    requires NewestFirst(sorted)
    ensures NewestFirst(r)
    ensures multiset(r) == multiset(sorted) + multiset{p}
    ensures |r| == |sorted| + 1
    ensures r[0] == p || (|sorted| > 0 && r[0] == sorted[0])
  {
    if |sorted| == 0 then [p]
    else if p.createdAt >= sorted[0].createdAt then
      ConsNewestFirst(p, sorted);
      [p] + sorted
    else
      var tail := sorted[1..];
      assert NewestFirst(tail) by {
        assert forall i :: 0 <= i < |tail| ==> tail[i] == sorted[i + 1];
      }
      var rest := InsertNewestFirst(p, tail);
      assert sorted == [sorted[0]] + tail;
      ConsNewestFirst(sorted[0], rest);
      [sorted[0]] + rest
  }

  /** The order of `sort({ createdAt: -1 })`. Posts with equal timestamps,
      whose order the store leaves open, come out in insertion order. */
  function SortNewestFirst(posts: seq<Post>): (r: seq<Post>)
    ensures NewestFirst(r)
    ensures multiset(r) == multiset(posts)
    ensures |r| == |posts|
  {
    if |posts| == 0 then []
    else
      assert posts == [posts[0]] + posts[1..];
      InsertNewestFirst(posts[0], SortNewestFirst(posts[1..]))
  }

  function Abs(x: int): nat
  {
    if x < 0 then -x else x
  }

  /** `skip(skip).limit(limit)` over an ordered result. A negative limit
      returns at most `-limit` documents (in one batch), like a positive one. */
  function Window(sorted: seq<Post>, skip: nat, limit: int): (r: seq<Post>)
    requires limit != 0
    ensures |r| <= Abs(limit)
    ensures skip + |r| <= |sorted| || |r| == 0
    ensures |r| == Abs(limit) || skip + |r| >= |sorted|
    ensures forall i :: 0 <= i < |r| ==> r[i] == sorted[skip + i]
    ensures NewestFirst(sorted) ==> NewestFirst(r)
    ensures multiset(r) <= multiset(sorted)
  {
    if skip >= |sorted| then []
    else
      var end := if skip + Abs(limit) <= |sorted| then skip + Abs(limit) else |sorted|;
      assert sorted == sorted[..skip] + sorted[skip..end] + sorted[end..];
      sorted[skip..end]
  }

  /** The listing object of one page. */
  datatype PageResult = PageResult(posts: seq<Post>, currentPage: int, totalPages: int, totalPosts: nat)
}
