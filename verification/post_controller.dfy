/** The post service's request handlers as transitions of
    (post store, cache, event log): read-through listing and single-post
    reads, create and owner-only delete, each write followed by the event
    publication and then the cache invalidation. */
module PostController {
  import opened Common
  import Json
  import opened JsNumbers
  import opened PostStore
  import opened PostCache
  import opened PostValidation
  import opened Events

  /** The three collaborators: the post collection, the Redis cache and the
      events handed to the broker so far. */
  datatype State = State(posts: seq<Post>, cache: Cache, events: seq<Event>)

  /** The HTTP answer: a JSON snapshot with its status, a status with the
      `success` flag of a message body, or a message body with no `success`
      field at all (the answer to a completed delete). */
  datatype Reply =
    | Data(status: int, value: Snapshot)
    | Message(status: int, success: bool)
    | Notice(status: int)

  datatype Outcome = Outcome(state: State, reply: Reply)

  const DefaultPage: int := 1
  const DefaultLimit: int := 10

  /** `Post.findById(id)`. */
  function FindPost(posts: seq<Post>, id: string): Option<nat>
  {
    FirstIndex(posts, (p: Post) => p.id == id)
  }

  /** The query `{ _id: id, user: requester }` of `findOneAndDelete`. */
  function FindOwnedPost(posts: seq<Post>, id: string, requester: string): Option<nat>
  {
    FirstIndex(posts, (p: Post) => p.id == id && p.user == requester)
  }

  /** The `skip` of page `page`: `(page - 1) * limit`. */
  function SkipOf(page: int, limit: int): (skip: int)
    ensures skip < 0 <==> (page < 1 && limit > 0) || (page > 1 && limit < 0)
    ensures page == 1 ==> skip == 0
  {
    (page - 1) * limit
  }

  /** What the store returns for `find({}).sort({createdAt: -1}).skip((page-1)*limit).limit(limit)`
      together with `countDocuments()`, assembled into the listing object.
      `None` is the store's refusal of a negative `skip`. */
  function FreshListing(posts: seq<Post>, page: int, limit: int): (r: Option<PageResult>)
    requires limit != 0
    ensures r.None? <==> SkipOf(page, limit) < 0
    ensures r.Some? ==> r.value.currentPage == page && r.value.totalPosts == |posts|
    ensures r.Some? ==> NewestFirst(r.value.posts) && multiset(r.value.posts) <= multiset(posts)
    ensures r.Some? ==> |r.value.posts| == 0 || SkipOf(page, limit) + |r.value.posts| <= |posts|
    ensures r.Some? ==> forall i :: 0 <= i < |r.value.posts|
                          ==> r.value.posts[i] == SortNewestFirst(posts)[SkipOf(page, limit) + i]
    ensures r.Some? ==> |r.value.posts| <= Abs(limit)
    ensures r.Some? ==> |r.value.posts| == Abs(limit) || SkipOf(page, limit) + |r.value.posts| >= |posts|
    ensures r.Some? && limit > 0 ==>
              (r.value.totalPages - 1) * limit < |posts| <= r.value.totalPages * limit
    ensures r.Some? && limit < 0 ==>
              r.value.totalPages * limit <= |posts| < (r.value.totalPages - 1) * limit
  {
    var skip := SkipOf(page, limit);
    if skip < 0 then None
    else
      var sorted := SortNewestFirst(posts);
      var window := Window(sorted, skip, limit);
      Some(PageResult(window, page, CeilDiv(|posts|, limit), |posts|))
  }

  /** `getAllPosts`: `page` and `limit` default to 1 and 10; a live
      `posts:<page>:<limit>` entry is answered verbatim, otherwise the listing
      is read from the store and cached for 300 seconds. */
  function GetAllPosts(st: State, pageQuery: Option<string>, limitQuery: Option<string>, now: int): (r: Outcome)
    ensures r.state.posts == st.posts && r.state.events == st.events
    ensures var key := ListingKey(QueryIntOr(pageQuery, DefaultPage), QueryIntOr(limitQuery, DefaultLimit));
            Live(st.cache, key, now) ==> r == Outcome(st, Data(200, st.cache[key].value))
    ensures var page := QueryIntOr(pageQuery, DefaultPage); var limit := QueryIntOr(limitQuery, DefaultLimit);
            !Live(st.cache, ListingKey(page, limit), now) && FreshListing(st.posts, page, limit).None?
            ==> r == Outcome(st, Message(500, false))
    ensures var page := QueryIntOr(pageQuery, DefaultPage); var limit := QueryIntOr(limitQuery, DefaultLimit);
            var computed := FreshListing(st.posts, page, limit);
            !Live(st.cache, ListingKey(page, limit), now) && computed.Some?
            ==> && r.reply == Data(200, Listing(computed.value))
                && r.state.cache == SetEx(st.cache, ListingKey(page, limit), ListingTtl, Listing(computed.value), now)
  {
    var page := QueryIntOr(pageQuery, DefaultPage);
    var limit := QueryIntOr(limitQuery, DefaultLimit);
    var key := ListingKey(page, limit);
    if Live(st.cache, key, now) then Outcome(st, Data(200, st.cache[key].value))
    else
      match FreshListing(st.posts, page, limit)
      case None => Outcome(st, Message(500, false))
      case Some(listing) =>
        Outcome(st.(cache := SetEx(st.cache, key, ListingTtl, Listing(listing), now)),
                Data(200, Listing(listing)))
  }

  /** `getPost`: a live `post:<id>` entry is answered verbatim; otherwise
      `findById` casts the id to an ObjectId (`isObjectId` says whether
      Mongoose can), and a cast error is a 500; a missing post is a 404 and a
      found one is cached for 3600 seconds. */
  function GetPost(st: State, id: string, isObjectId: string -> bool, now: int): (r: Outcome)
    ensures r.state.posts == st.posts && r.state.events == st.events
    ensures Live(st.cache, PostKey(id), now) ==> r == Outcome(st, Data(200, st.cache[PostKey(id)].value))
    ensures !Live(st.cache, PostKey(id), now) && !isObjectId(id) ==> r == Outcome(st, Message(500, false))
    ensures (!Live(st.cache, PostKey(id), now) && isObjectId(id) && forall p :: p in st.posts ==> p.id != id)
            ==> r == Outcome(st, Message(404, false))
    ensures !Live(st.cache, PostKey(id), now) && isObjectId(id) && (exists p :: p in st.posts && p.id == id) ==>
              && r.reply.Data? && r.reply.status == 200 && r.reply.value.Single?
              && r.reply.value.post in st.posts && r.reply.value.post.id == id
              && FindPost(st.posts, id).Some? && r.reply.value.post == st.posts[FindPost(st.posts, id).value]
              && r.state.cache == st.cache[PostKey(id) := Entry(r.reply.value, now + PostTtl)]
  {
    var key := PostKey(id);
    if Live(st.cache, key, now) then Outcome(st, Data(200, st.cache[key].value))
    else if !isObjectId(id) then Outcome(st, Message(500, false))
    else
      match FindPost(st.posts, id)
      case None => Outcome(st, Message(404, false))
      case Some(i) =>
        Outcome(st.(cache := SetEx(st.cache, key, PostTtl, Single(st.posts[i]), now)),
                Data(200, Single(st.posts[i])))
  }

  /** The post `createPost` builds from a validated body: `mediaIds`
      defaults to an empty array. */
  function NewPost(body: Json.Body, id: string, requester: string, now: int): (p: Post)
    requires ValidCreatePost(body)
    ensures p.id == id && p.user == requester && p.createdAt == now
    ensures p.content == body["content"].s && 3 <= Json.Utf16Length(p.content) <= 4000
    ensures "mediaIds" !in body ==> p.mediaIds == []
    ensures "mediaIds" in body ==> p.mediaIds == body["mediaIds"].items
  {
    Post(id, requester, body["content"].s,
         if "mediaIds" in body then body["mediaIds"].items else [], now)
  }

  /** `createPost`. The store assigns the fresh id `newId` and the clock
      `now`; `published` says whether `publishEvent` returned normally (it
      throws when no broker channel could be opened). */
  function CreatePost(st: State, body: Json.Body, requester: string, newId: string, now: int, published: bool): (r: Outcome)
    ensures !ValidCreatePost(body) ==> r == Outcome(st, Message(400, false))
    ensures r.reply.status == 201 <==> ValidCreatePost(body) && FindPost(st.posts, newId).None? && published
    ensures r.reply.status == 201 ==>
              && r.state.posts == st.posts + [NewPost(body, newId, requester, now)]
              && r.state.events == st.events + [PostCreated(newId, requester, body["content"].s, now)]
              && r.state.cache == Invalidate(st.cache, newId)
    ensures r.reply.status != 201 ==> r.reply == Message(if ValidCreatePost(body) then 500 else 400, false)
    ensures r.reply.status != 201 ==> r.state.cache == st.cache && r.state.events == st.events
    ensures FindPost(st.posts, newId).Some? ==> r.state.posts == st.posts
    ensures ValidCreatePost(body) && FindPost(st.posts, newId).None? && !published ==>
              r.state.posts == st.posts + [NewPost(body, newId, requester, now)]
  {
    if !ValidCreatePost(body) then Outcome(st, Message(400, false))
    else if FindPost(st.posts, newId).Some? then Outcome(st, Message(500, false))
    else
      var post := NewPost(body, newId, requester, now);
      var posts := st.posts + [post];
      if !published then Outcome(st.(posts := posts), Message(500, false))
      else
        Outcome(State(posts, Invalidate(st.cache, newId),
                      st.events + [PostCreated(newId, requester, post.content, now)]),
                Message(201, true))
  }

  /** `deletePost`: `findOneAndDelete` casts the id to an ObjectId first,
      and a cast error is a 500 with nothing changed; then only the owner's
      first post with that id is removed, and the `post.deleted` event
      carries its `mediaIds`. */
  function DeletePost(st: State, id: string, requester: string, isObjectId: string -> bool, published: bool): (r: Outcome)
    ensures !isObjectId(id) ==> r == Outcome(st, Message(500, false))
    ensures (isObjectId(id) && forall p :: p in st.posts ==> !(p.id == id && p.user == requester))
            <==> r.reply == Message(404, false)
    ensures r.reply == Message(404, false) ==> r.state == st
    ensures isObjectId(id) && r.reply.status != 404 ==>
              && FindOwnedPost(st.posts, id, requester).Some?
              && var i := FindOwnedPost(st.posts, id, requester).value;
                 && r.state.posts == RemoveAt(st.posts, i)
                 && (r.reply.status == 200 ==> r.state.events == st.events + [PostDeleted(id, requester, st.posts[i].mediaIds)])
    ensures r.reply.status == 200 ==> r.state.cache == Invalidate(st.cache, id)
    ensures r.reply.status == 200 ==> r.reply == Notice(200)
    ensures r.reply.status != 200 ==> r.state.cache == st.cache && r.state.events == st.events
    ensures r.reply.status in {200, 404, 500}
    ensures r.reply.status == 500 <==> !isObjectId(id) || (FindOwnedPost(st.posts, id, requester).Some? && !published)
  {
    if !isObjectId(id) then Outcome(st, Message(500, false))
    else match FindOwnedPost(st.posts, id, requester)
    case None => Outcome(st, Message(404, false))
    case Some(i) =>
      var post := st.posts[i];
      var posts := RemoveAt(st.posts, i);
      if !published then Outcome(st.(posts := posts), Message(500, false))
      else
        Outcome(State(posts, Invalidate(st.cache, id),
                      st.events + [PostDeleted(id, requester, post.mediaIds)]),
                Notice(200))
  }

  /** A committed create (201) leaves no listing entry live: the next read of
      any page is answered from the store, and it counts the new post. */
  lemma CreateForcesListingMiss(st: State, body: Json.Body, requester: string, newId: string, now: int,
                                pageQuery: Option<string>, limitQuery: Option<string>, later: int)
    requires CreatePost(st, body, requester, newId, now, true).reply.status == 201
    ensures var st' := CreatePost(st, body, requester, newId, now, true).state;
            var r := GetAllPosts(st', pageQuery, limitQuery, later);
            && !Live(st'.cache, ListingKey(QueryIntOr(pageQuery, DefaultPage), QueryIntOr(limitQuery, DefaultLimit)), later)
            && (r.reply == Message(500, false)
                || (r.reply.Data? && r.reply.value.Listing? && r.reply.value.page.totalPosts == |st.posts| + 1))
  {
    var st' := CreatePost(st, body, requester, newId, now, true).state;
    InvalidateForcesMisses(st.cache, newId, QueryIntOr(pageQuery, DefaultPage), QueryIntOr(limitQuery, DefaultLimit), later);
  }

  /** A committed delete (200) makes the deleted id unreadable and every
      listing a miss that no longer counts the deleted post. */
  lemma DeleteForcesMisses(st: State, id: string, requester: string, isObjectId: string -> bool,
                           pageQuery: Option<string>, limitQuery: Option<string>, later: int)
    requires UniqueIds(st.posts)
    requires DeletePost(st, id, requester, isObjectId, true).reply.status == 200
    ensures var st' := DeletePost(st, id, requester, isObjectId, true).state;
            var r := GetAllPosts(st', pageQuery, limitQuery, later);
            && GetPost(st', id, isObjectId, later).reply == Message(404, false)
            && (r.reply == Message(500, false)
                || (r.reply.Data? && r.reply.value.Listing? && r.reply.value.page.totalPosts == |st.posts| - 1))
  {
    var st' := DeletePost(st, id, requester, isObjectId, true).state;
    var i := FindOwnedPost(st.posts, id, requester).value;
    assert st'.posts == RemoveAt(st.posts, i);
    forall p | p in st'.posts
      ensures p.id != id
    {
      var j :| 0 <= j < |st'.posts| && st'.posts[j] == p;
      if j < i {
        assert p == st.posts[j];
      } else {
        assert p == st.posts[j + 1];
      }
    }
    InvalidateForcesMisses(st.cache, id, QueryIntOr(pageQuery, DefaultPage), QueryIntOr(limitQuery, DefaultLimit), later);
  }

  /** The write path keeps post ids unique. */
  lemma WritesKeepIdsUnique(st: State, body: Json.Body, requester: string, newId: string, id: string,
                            isObjectId: string -> bool, now: int, published: bool)
    requires UniqueIds(st.posts)
    ensures UniqueIds(CreatePost(st, body, requester, newId, now, published).state.posts)
    ensures UniqueIds(DeletePost(st, id, requester, isObjectId, published).state.posts)
  {
    var c := CreatePost(st, body, requester, newId, now, published).state.posts;
    if c != st.posts {
      assert FindPost(st.posts, newId).None?;
      AppendKeepsIdsUnique(st.posts, NewPost(body, newId, requester, now));
    }
    if isObjectId(id) {
      match FindOwnedPost(st.posts, id, requester)
      case None =>
      case Some(i) =>
        RemoveKeepsIdsUnique(st.posts, i);
    }
  }

  /** Someone other than the owner cannot delete a post: 404 (or 500 for an
      id that is no ObjectId), and nothing changes. */
  lemma DeleteByOtherUserRefused(st: State, id: string, requester: string, isObjectId: string -> bool, published: bool)
    requires UniqueIds(st.posts)
    requires exists p :: p in st.posts && p.id == id && p.user != requester
    ensures DeletePost(st, id, requester, isObjectId, published)
            == Outcome(st, Message(if isObjectId(id) then 404 else 500, false))
  {
    var p :| p in st.posts && p.id == id && p.user != requester;
    forall q | q in st.posts
      ensures !(q.id == id && q.user == requester)
    {
      var a :| 0 <= a < |st.posts| && st.posts[a] == p;
      var b :| 0 <= b < |st.posts| && st.posts[b] == q;
      if q.id == id {
        assert a == b;
      }
    }
  }

  /** Within its expiry a listing answered once is answered again verbatim,
      without reading the store or writing the cache; a miss stores the entry
      for 300 seconds. */
  lemma ListingServedFromCacheUntilExpiry(st: State, pageQuery: Option<string>, limitQuery: Option<string>,
                                          now: int, later: int)
    requires GetAllPosts(st, pageQuery, limitQuery, now).reply.status == 200
    ensures var key := ListingKey(QueryIntOr(pageQuery, DefaultPage), QueryIntOr(limitQuery, DefaultLimit));
            var first := GetAllPosts(st, pageQuery, limitQuery, now);
            && key in first.state.cache
            && (!Live(st.cache, key, now) ==> first.state.cache[key].expiresAt == now + ListingTtl)
            && (now <= later < first.state.cache[key].expiresAt
                ==> GetAllPosts(first.state, pageQuery, limitQuery, later) == first)
  {
  }

  /** Once the entry has expired, the next read goes back to the store:
      staleness lasts at most one expiry period even with no further write. */
  lemma ListingRefreshedAfterExpiry(st: State, pageQuery: Option<string>, limitQuery: Option<string>, later: int)
    requires var key := ListingKey(QueryIntOr(pageQuery, DefaultPage), QueryIntOr(limitQuery, DefaultLimit));
             key in st.cache && st.cache[key].expiresAt <= later
    ensures var page := QueryIntOr(pageQuery, DefaultPage); var limit := QueryIntOr(limitQuery, DefaultLimit);
            var r := GetAllPosts(st, pageQuery, limitQuery, later);
            match FreshListing(st.posts, page, limit)
            case None => r.reply == Message(500, false)
            case Some(listing) =>
              r.reply == Data(200, Listing(listing)) && r.state.cache[ListingKey(page, limit)].expiresAt == later + ListingTtl
  {
  }

  /** Within its expiry a post answered once is answered again verbatim. */
  lemma PostServedFromCacheUntilExpiry(st: State, id: string, isObjectId: string -> bool, now: int, later: int)
    requires GetPost(st, id, isObjectId, now).reply.status == 200
    ensures var first := GetPost(st, id, isObjectId, now);
            && PostKey(id) in first.state.cache
            && (!Live(st.cache, PostKey(id), now) ==> first.state.cache[PostKey(id)].expiresAt == now + PostTtl)
            && (now <= later < first.state.cache[PostKey(id)].expiresAt ==> GetPost(first.state, id, isObjectId, later) == first)
  {
  }
}
