/** The blog backend's `posts` table (TypeORM over SQLite) and the queries `PostsService` runs on it.
    Instants are milliseconds since the epoch. */
module BackendPosts {
  import opened Common
  import opened Sorting

  /** A row of `posts`: `id` is a uuid, `slug` is UNIQUE, `summary` and `publishedAt` may be null
      (a null `publishedAt` marks a draft). */
  datatype Post = Post(id: string, slug: string, title: string, content: string, summary: Option<string>,
                       publishedAt: Option<int>, createdAt: int, updatedAt: int)

  const SLUG_NOT_NULL: string := "SQLITE_CONSTRAINT: NOT NULL constraint failed: posts.slug"
  const SLUG_TAKEN: string := "SQLITE_CONSTRAINT: UNIQUE constraint failed: posts.slug"
  const ID_TAKEN: string := "SQLITE_CONSTRAINT: UNIQUE constraint failed: posts.id"

  /** No two rows share an id or a slug. */
  predicate PostsValid(posts: seq<Post>) {
    forall i, j :: 0 <= i < j < |posts| ==> posts[i].id != posts[j].id && posts[i].slug != posts[j].slug
  }

  predicate IsPublished(p: Post) { p.publishedAt.Some? }
  function IsPublishedFn(): Post -> bool { (p: Post) => IsPublished(p) }
  function CreatedKey(p: Post): Key { IntKey(p.createdAt) }

  /** `WHERE post.publishedAt IS NOT NULL ORDER BY post.createdAt DESC`.  SQLite promises no order
      among rows with the same `createdAt`; the model's sort happens to keep table order for them,
      and the contract states no order for ties. */
  function Published(posts: seq<Post>): (r: seq<Post>)
    ensures forall p :: p in r <==> p in posts && IsPublished(p)
    ensures multiset(r) == multiset(Filter(posts, IsPublishedFn()))
    ensures forall i, j :: 0 <= i < j < |r| ==> r[j].createdAt <= r[i].createdAt
  {
    var r := SortBy(Filter(posts, IsPublishedFn()), CreatedKey, true);
    PublishedRows(posts, r);
    CreatedDescending(r);
    r
  }

  /** A reordering of the published rows holds exactly the published rows. */
  lemma PublishedRows(posts: seq<Post>, r: seq<Post>)
    requires multiset(r) == multiset(Filter(posts, IsPublishedFn()))
    ensures forall p :: p in r <==> p in posts && IsPublished(p)
  {
    var f := Filter(posts, IsPublishedFn());
    assert forall p :: p in r <==> p in multiset(r);
    assert forall p :: p in f <==> p in multiset(f);
  }

  /** Rows sorted on `CreatedKey`, descending, have non-increasing `createdAt`. */
  lemma CreatedDescending(r: seq<Post>)
    requires SortedBy(r, CreatedKey, true)
    ensures forall i, j :: 0 <= i < j < |r| ==> r[j].createdAt <= r[i].createdAt
  {
    forall i, j | 0 <= i < j < |r| ensures r[j].createdAt <= r[i].createdAt {
      assert InOrder(CreatedKey(r[i]), CreatedKey(r[j]), true);
    }
  }

  /** `ORDER BY post.createdAt DESC` over every row, drafts included. */
  function AllNewestFirst(posts: seq<Post>): (r: seq<Post>)
    ensures multiset(r) == multiset(posts)
    ensures forall i, j :: 0 <= i < j < |r| ==> r[j].createdAt <= r[i].createdAt
  {
    var r := SortBy(posts, CreatedKey, true);
    CreatedDescending(r);
    r
  }

  function SlugIs(slug: string): Post -> bool { (p: Post) => p.slug == slug }
  function IdIs(id: string): Post -> bool { (p: Post) => p.id == id }
  function IdIsNot(id: string): Post -> bool { (p: Post) => p.id != id }

  /** `WHERE post.slug = :slug`, `getOne`. */
  function PostWithSlug(posts: seq<Post>, slug: string): (r: Option<Post>)
    ensures r.None? <==> forall i :: 0 <= i < |posts| ==> posts[i].slug != slug
    ensures r.Some? ==> r.value in posts && r.value.slug == slug
  {
    FindFirst(posts, SlugIs(slug))
  }

  /** `findOne({ where: { id } })` */
  function PostWithId(posts: seq<Post>, id: string): (r: Option<Post>)
    ensures r.None? <==> forall i :: 0 <= i < |posts| ==> posts[i].id != id
    ensures r.Some? ==> r.value in posts && r.value.id == id
  {
    FindFirst(posts, IdIs(id))
  }

  /** `save` of a new entity: an INSERT, which the primary key refuses for an id already present
      and the UNIQUE index for a slug already present. */
  function InsertResult(posts: seq<Post>, p: Post): (r: Result<seq<Post>>)
    ensures r.Err? <==> exists i :: 0 <= i < |posts| && (posts[i].id == p.id || posts[i].slug == p.slug)
    ensures r.Err? ==> r.message in {ID_TAKEN, SLUG_TAKEN}
    ensures r.Ok? ==> r.value == posts + [p]
    ensures r.Ok? && PostsValid(posts) ==> PostsValid(r.value)
  {
    if exists i :: 0 <= i < |posts| && posts[i].id == p.id then Err(ID_TAKEN)
    else if exists i :: 0 <= i < |posts| && posts[i].slug == p.slug then Err(SLUG_TAKEN)
    else Ok(Replaced(posts, p))
  }

  /** `save` of an entity loaded from the table: an UPDATE of the row with its id, which the UNIQUE
      index refuses when another row holds the new slug. */
  function UpdateResult(posts: seq<Post>, p: Post): (r: Result<seq<Post>>)
    ensures r.Err? <==> exists i :: 0 <= i < |posts| && posts[i].slug == p.slug && posts[i].id != p.id
    ensures r.Err? ==> r.message == SLUG_TAKEN
    ensures r.Ok? ==> p in r.value
    ensures r.Ok? ==> forall q :: q in r.value && q.id != p.id ==> q in posts
    ensures r.Ok? ==> forall q :: q in posts && q.id != p.id ==> q in r.value
    ensures r.Ok? && PostsValid(posts) ==> PostsValid(r.value)
  {
    if exists i :: 0 <= i < |posts| && posts[i].slug == p.slug && posts[i].id != p.id then Err(SLUG_TAKEN)
    else Ok(Replaced(posts, p))
  }

  /** The table with the row carrying `p.id` replaced by `p`, or with `p` appended. */
  function Replaced(posts: seq<Post>, p: Post): (r: seq<Post>)
    requires forall i :: 0 <= i < |posts| && posts[i].id != p.id ==> posts[i].slug != p.slug
    ensures p in r
    ensures forall q :: q in r && q.id != p.id ==> q in posts
    ensures forall q :: q in posts && q.id != p.id ==> q in r
    ensures PostsValid(posts) ==> PostsValid(r)
    ensures (exists i :: 0 <= i < |posts| && posts[i].id == p.id) ==> |r| == |posts|
    ensures (forall i :: 0 <= i < |posts| ==> posts[i].id != p.id) ==> r == posts + [p]
  {
    if forall i :: 0 <= i < |posts| ==> posts[i].id != p.id then
      var r := posts + [p];
      assert PostsValid(posts) ==> PostsValid(r) by {
        if PostsValid(posts) {
          forall i, j | 0 <= i < j < |r| ensures r[i].id != r[j].id && r[i].slug != r[j].slug {
            if j == |posts| { assert r[i] == posts[i]; }
          }
        }
      }
      r
    else
      var k := IndexOfId(posts, p.id);
      var r := posts[k := p];
      assert r[k] == p;
      assert forall q :: q in r && q.id != p.id ==> q in posts by {
        forall q | q in r && q.id != p.id ensures q in posts {
          var i :| 0 <= i < |r| && r[i] == q;
          assert i != k;
        }
      }
      assert forall q :: q in posts && q.id != p.id ==> q in r by {
        forall q | q in posts && q.id != p.id ensures q in r {
          var i :| 0 <= i < |posts| && posts[i] == q;
          assert r[i] == q;
        }
      }
      assert PostsValid(posts) ==> PostsValid(r) by {
        if PostsValid(posts) {
          forall i, j | 0 <= i < j < |r| ensures r[i].id != r[j].id && r[i].slug != r[j].slug {
            if i == k { assert r[j] == posts[j]; } else if j == k { assert r[i] == posts[i]; }
          }
        }
      }
      r
  }

  /** The position of the first row with that id, or `|posts|` when there is none. */
  function IndexOfId(posts: seq<Post>, id: string): (k: nat)
    ensures k <= |posts|
    ensures k < |posts| ==> posts[k].id == id
    ensures forall i :: 0 <= i < k ==> posts[i].id != id
  {
    if posts == [] then 0
    else if posts[0].id == id then 0
    else 1 + IndexOfId(posts[1..], id)
  }

  /** `repository.delete(id)`: every row with that id goes, the others stay in order. */
  function DeleteResult(posts: seq<Post>, id: string): (r: seq<Post>)
    ensures forall q :: q in r <==> q in posts && q.id != id
    ensures PostsValid(posts) ==> PostsValid(r)
  {
    var r := Filter(posts, IdIsNot(id));
    assert PostsValid(posts) ==> PostsValid(r) by {
      if PostsValid(posts) {
        FilterKeepsPairwise(posts, IdIsNot(id), PostsDistinct);
      }
    }
    r
  }

  predicate PostsDistinct(a: Post, b: Post) { a.id != b.id && a.slug != b.slug }

  /** The `posts` table the backend's services share. */
  class PostTable {
    var posts: seq<Post>

    constructor (rows: seq<Post>)
      ensures posts == rows
    {
      posts := rows;
    }

    /** `save` of a new entity; a failing statement leaves the table as it was. */
    method Insert(p: Post) returns (err: Option<string>)
      modifies this
      ensures InsertResult(old(posts), p).Err? ==> err == Some(InsertResult(old(posts), p).message) && posts == old(posts)
      ensures InsertResult(old(posts), p).Ok? ==> err.None? && posts == old(posts) + [p]
    {
      var r := InsertResult(posts, p);
      if r.Err? {
        return Some(r.message);
      }
      posts := r.value;
      err := None;
    }

    /** `save` of a loaded entity; a failing statement leaves the table as it was. */
    method Update(p: Post) returns (err: Option<string>)
      modifies this
      ensures UpdateResult(old(posts), p).Err? ==> err == Some(SLUG_TAKEN) && posts == old(posts)
      ensures UpdateResult(old(posts), p).Ok? ==> err.None? && posts == UpdateResult(old(posts), p).value
    {
      var r := UpdateResult(posts, p);
      if r.Err? {
        return Some(r.message);
      }
      posts := r.value;
      err := None;
    }

    method Delete(id: string)
      modifies this
      ensures posts == DeleteResult(old(posts), id)
    {
      posts := DeleteResult(posts, id);
    }
  }

  /** The two statements `PostsService` runs with `.cache(true)`.  TypeORM keys its query-result
      cache by the SQL text and its parameters, so each slug has its own entry. */
  datatype CachedQuery = PublishedQuery | SlugQuery(slug: string)

  /** A stored result and the instant (`Date.now()`) it was stored. */
  datatype CachedResult = CachedResult(rows: seq<Post>, storedAt: int)

  /** `cache: { type: 'database', duration: 60000 }` */
  const QUERY_CACHE_DURATION: int := 60000

  /** TypeORM treats an entry as expired when `storedAt + duration < now`. */
  predicate Fresh(c: CachedResult, now: int) {
    !(c.storedAt + QUERY_CACHE_DURATION < now)
  }

  /** The rows a statement reads from the table: the published list, or the (at most one) row
      holding the slug. */
  function QueryRows(posts: seq<Post>, q: CachedQuery): seq<Post> {
    match q
    case PublishedQuery => Published(posts)
    case SlugQuery(slug) => match PostWithSlug(posts, slug) case Some(p) => [p] case None => []
  }

  /** A statement run with `.cache(true)`: a fresh stored result is returned without reading the
      table; otherwise the table is read and the result stored with the current instant.  The
      rows returned are therefore the table's current rows or a result stored at most a minute
      ago, and no other entry changes. */
  function CachedRead(entries: map<CachedQuery, CachedResult>, posts: seq<Post>, q: CachedQuery, now: int)
    : (r: (seq<Post>, map<CachedQuery, CachedResult>))
    ensures || r.0 == QueryRows(posts, q)
            || (q in entries && r.0 == entries[q].rows && now <= entries[q].storedAt + QUERY_CACHE_DURATION)
    ensures !(q in entries && Fresh(entries[q], now)) ==>
              r.0 == QueryRows(posts, q) && q in r.1 && r.1[q] == CachedResult(r.0, now)
    ensures q in entries && Fresh(entries[q], now) ==> r.1 == entries
    ensures q in r.1 && r.1[q].rows == r.0
    ensures forall k :: k != q ==> (k in r.1 <==> k in entries) && (k in entries ==> r.1[k] == entries[k])
  {
    if q in entries && Fresh(entries[q], now) then (entries[q].rows, entries)
    else
      var rows := QueryRows(posts, q);
      (rows, entries[q := CachedResult(rows, now)])
  }

  /** The query-result cache TypeORM keeps in the database (`query-result-cache` table), shared
      by every query that asks for it. */
  class QueryResultCache {
    var entries: map<CachedQuery, CachedResult>

    constructor (stored: map<CachedQuery, CachedResult>)
      ensures entries == stored
    {
      entries := stored;
    }

    /** One statement through the cache. */
    method Read(posts: seq<Post>, q: CachedQuery, now: int) returns (rows: seq<Post>)
      modifies this
      ensures (rows, entries) == CachedRead(old(entries), posts, q, now)
    {
      var r := CachedRead(entries, posts, q, now);
      rows := r.0;
      entries := r.1;
    }

    /** `queryResultCache.clear()` */
    method Clear()
      modifies this
      ensures entries == map[]
    {
      entries := map[];
    }
  }

  /** Within the minute after the published list was stored, a later read returns that list even
      when a published post has been added to the table since. */
  lemma StaleWithinDuration(posts: seq<Post>, p: Post, t0: int, t2: int)
    requires IsPublished(p) && forall i :: 0 <= i < |posts| ==> posts[i].id != p.id
    requires t2 <= t0 + QUERY_CACHE_DURATION
    ensures var first := CachedRead(map[], posts, PublishedQuery, t0);
            var second := CachedRead(first.1, posts + [p], PublishedQuery, t2);
            && second.0 == first.0
            && p in Published(posts + [p]) && p !in second.0
  {
    var first := CachedRead(map[], posts, PublishedQuery, t0);
    assert (posts + [p])[|posts|] == p;
    assert p !in posts;
  }
}
