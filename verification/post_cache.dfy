/** The post service's Redis cache: the key scheme `posts:<page>:<limit>` for
    listings and `post:<id>` for single posts, entries that expire on an
    abstract clock, and the invalidation sweep run after every write. */
module PostCache {
  import opened Common
  import opened JsNumbers
  import opened PostStore

  /** What a cache entry holds: the JSON of a listing or of one post. */
  datatype Snapshot = Listing(page: PageResult) | Single(post: Post)

  datatype Entry = Entry(value: Snapshot, expiresAt: int)

  type Cache = map<string, Entry>

  /** `setex` expiries, in seconds. */
  const ListingTtl: int := 300
  const PostTtl: int := 3600

  const ListingPrefix: string := "posts:"
  const PostPrefix: string := "post:"

  function ListingKey(page: int, limit: int): (k: string)
    ensures StartsWith(k, ListingPrefix)
  {
    ListingPrefix + IntToString(page) + ":" + IntToString(limit)
  }

  function PostKey(id: string): (k: string)
    ensures StartsWith(k, PostPrefix)
    ensures !StartsWith(k, ListingPrefix)
  {
    assert (PostPrefix + id)[4] == ':';
    PostPrefix + id
  }

  /** A key is live while the clock has not reached its expiry: Redis `get`
      finds it. */
  predicate Live(cache: Cache, key: string, now: int)
  {
    key in cache && now < cache[key].expiresAt
  }

  /** Redis `setex key ttl value` at time `now`. */
  function SetEx(cache: Cache, key: string, ttl: int, value: Snapshot, now: int): (r: Cache)
    requires ttl > 0
    ensures Live(r, key, now) && r[key].value == value
    ensures forall t :: Live(r, key, t) <==> t < now + ttl
    ensures forall k :: k != key ==> (k in r <==> k in cache)
    ensures forall k :: k != key && k in cache ==> r[k] == cache[k]
  {
    cache[key := Entry(value, now + ttl)]
  }

  /** `invalidatePostCache(id)`: delete every key matching `posts:*`, then
      the key `post:<id>`. */
  function Invalidate(cache: Cache, postId: string): (r: Cache)
    ensures forall k :: k in r ==> !StartsWith(k, ListingPrefix)
    ensures PostKey(postId) !in r
    ensures forall k :: k in cache && !StartsWith(k, ListingPrefix) && k != PostKey(postId)
                   ==> k in r && r[k] == cache[k]
    ensures r.Keys <= cache.Keys
  {
    map k | k in cache && !StartsWith(k, ListingPrefix) && k != PostKey(postId) :: cache[k]
  }

  /** A second invalidation for the same post finds nothing left to delete. */
  lemma InvalidateIdempotent(cache: Cache, postId: string)
    ensures Invalidate(Invalidate(cache, postId), postId) == Invalidate(cache, postId)
  {
  }

  /** The sweep never touches another post's entry. */
  lemma InvalidateKeepsOtherPosts(cache: Cache, postId: string, other: string)
    requires other != postId && PostKey(other) in cache
    ensures PostKey(other) in Invalidate(cache, postId)
    ensures Invalidate(cache, postId)[PostKey(other)] == cache[PostKey(other)]
  {
    assert PostKey(other)[5..] == other && PostKey(postId)[5..] == postId;
  }

  /** After invalidation every listing read and the read of the affected post
      miss, whatever the clock says. */
  lemma InvalidateForcesMisses(cache: Cache, postId: string, page: int, limit: int, now: int)
    ensures !Live(Invalidate(cache, postId), ListingKey(page, limit), now)
    ensures !Live(Invalidate(cache, postId), PostKey(postId), now)
  {
  }

  lemma ColonAfter(a: string, b: string, c: string)
    requires |a| < |c|
    ensures (a + ":" + b)[|a|] == ':'
    ensures c[|a|] in c
  {
  }

  /** `a:b` splits back into `a` and `b` when `a` has no colon. */
  lemma {:induction false} SplitAtColon(a: string, b: string, c: string, d: string)
    requires ':' !in a && ':' !in c
    requires a + ":" + b == c + ":" + d
    ensures a == c && b == d
  {
    var x := a + ":" + b;
    if |a| < |c| {
      ColonAfter(a, b, c);
      assert false;
    } else if |c| < |a| {
      ColonAfter(c, d, a);
      assert false;
    } else {
      assert a == x[..|a|] && c == x[..|c|];
      assert b == x[|a| + 1..] && d == x[|c| + 1..];
    }
  }

  lemma NoColonInNumber(n: int)
    ensures ':' !in IntToString(n)
  {
    var s := IntToString(n);
    assert forall i | 0 <= i < |s| :: s[i] != ':';
  }

  /** What follows the `posts:` prefix of a listing key. */
  lemma ListingKeySuffix(page: int, limit: int)
    ensures ListingKey(page, limit)[6..] == IntToString(page) + ":" + IntToString(limit)
  {
    assert ListingKey(page, limit) == ListingPrefix + (IntToString(page) + ":" + IntToString(limit));
  }

  /** Distinct `(page, limit)` pairs never share a cache entry. */
  lemma ListingKeyInjective(page1: int, limit1: int, page2: int, limit2: int)
    requires ListingKey(page1, limit1) == ListingKey(page2, limit2)
    ensures page1 == page2 && limit1 == limit2
  {
    ListingKeySuffix(page1, limit1);
    ListingKeySuffix(page2, limit2);
    NoColonInNumber(page1);
    NoColonInNumber(page2);
    SplitAtColon(IntToString(page1), IntToString(limit1), IntToString(page2), IntToString(limit2));
    IntToStringRoundTrip(page1);
    IntToStringRoundTrip(page2);
    IntToStringRoundTrip(limit1);
    IntToStringRoundTrip(limit2);
  }
}
