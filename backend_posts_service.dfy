/** `PostsService`: the blog's post queries and writes, with a one-minute in-memory cache of the
    published list that every successful write drops, in front of TypeORM's one-minute
    query-result cache, which no write drops.  The clock (`Date.now()`), the parsing of
    ISO-8601 strings (`new Date(s)`) and uuid generation are parameters. */
module BackendPostsService {
  import opened Common
  import opened Sorting
  import opened BackendPosts

  const POST_NOT_FOUND: string := "Post not found"
  const CACHE_TTL: int := 60000

  /** `CreatePostDto` as the service receives it: `slug`, `summary` and `publishedAt` may be absent. */
  datatype CreatePostInput = CreatePostInput(title: string, slug: Option<string>, content: string,
                                             summary: Option<string>, publishedAt: Option<string>)

  /** `UpdatePostDto`: every field may be absent. */
  datatype UpdatePostInput = UpdatePostInput(title: Option<string>, slug: Option<string>, content: Option<string>,
                                             summary: Option<string>, publishedAt: Option<string>)

  /** The entity `createOne` saves: a missing summary is null, and the post is published at the
      given instant when one is given and at `now` otherwise, so it is never a draft.  A missing
      slug makes the NOT NULL column refuse the row. */
  function CreateEntity(input: CreatePostInput, id: string, now: int, dateOf: string -> int): (r: Result<Post>)
    ensures r.Err? <==> input.slug.None?
    ensures r.Err? ==> r.message == SLUG_NOT_NULL
    ensures r.Ok? ==> IsPublished(r.value) && r.value.id == id && r.value.slug == input.slug.value
  {
    match input.slug
    case None => Err(SLUG_NOT_NULL)
    case Some(slug) =>
      var publishedAt := if Truthy(input.publishedAt) then dateOf(input.publishedAt.value) else now;
      Ok(Post(id, slug, input.title, input.content, input.summary, Some(publishedAt), now, now))
  }

  /** `updateOne`'s field merge: each given field replaces the stored one; a falsy `publishedAt`
      keeps the stored instant. */
  function Merge(e: Post, input: UpdatePostInput, dateOf: string -> int): (r: Post)
    ensures r.id == e.id && r.createdAt == e.createdAt && r.updatedAt == e.updatedAt
    ensures IsPublished(e) ==> IsPublished(r)
  {
    e.(title := input.title.GetOr(e.title),
       slug := input.slug.GetOr(e.slug),
       content := input.content.GetOr(e.content),
       summary := if input.summary.Some? then input.summary else e.summary,
       publishedAt := if Truthy(input.publishedAt) then Some(dateOf(input.publishedAt.value)) else e.publishedAt)
  }

  /** The row `save` leaves: an entity with no changed column is not written, so its
      `updatedAt` stays; a changed one is stamped with `now`. */
  function Updated(e: Post, input: UpdatePostInput, now: int, dateOf: string -> int): (r: Post)
    ensures r.id == e.id && r.createdAt == e.createdAt
    ensures r.updatedAt == if Merge(e, input, dateOf) == e then e.updatedAt else now
  {
    var m := Merge(e, input, dateOf);
    if m == e then e else m.(updatedAt := now)
  }

  /** An update with no fields changes nothing. */
  lemma EmptyUpdateIsNoOp(e: Post, now: int, dateOf: string -> int)
    ensures Updated(e, UpdatePostInput(None, None, None, None, None), now, dateOf) == e
  {
  }

  /** Applying the same update twice gives the same content as applying it once. */
  lemma MergeIdempotent(e: Post, input: UpdatePostInput, dateOf: string -> int)
    ensures Merge(Merge(e, input, dateOf), input, dateOf) == Merge(e, input, dateOf)
  {
  }

  /** Each given field is what the merged post holds, and each absent one is the stored value;
      null can never be written back into `summary`, nor a post put back into draft. */
  lemma MergeFields(e: Post, input: UpdatePostInput, dateOf: string -> int)
    ensures var r := Merge(e, input, dateOf);
            && (input.title.Some? ==> r.title == input.title.value) && (input.title.None? ==> r.title == e.title)
            && (input.slug.Some? ==> r.slug == input.slug.value) && (input.slug.None? ==> r.slug == e.slug)
            && (input.content.Some? ==> r.content == input.content.value)
            && (input.content.None? ==> r.content == e.content)
            && (e.summary.Some? ==> r.summary.Some?)
            && (!Truthy(input.publishedAt) ==> r.publishedAt == e.publishedAt)
  {
  }

  /** The service, over the table and the query-result cache it shares with the rest of the
      backend.  `clearsQueryCache` is false for the program as written: `invalidateCache` drops
      only the service's own fields, and TypeORM's cached results stay until they expire.  With it
      true the service is the corrected one, whose `invalidateCache` also clears the query-result
      cache. */
  class PostsService {
    const table: PostTable
    const queryCache: QueryResultCache
    const clearsQueryCache: bool
    var publishedPostsCache: Option<seq<Post>>
    var cacheExpiry: int

    constructor (t: PostTable, qc: QueryResultCache, clears: bool)
      ensures table == t && queryCache == qc && clearsQueryCache == clears
      ensures publishedPostsCache.None? && cacheExpiry == 0
    {
      table := t;
      queryCache := qc;
      clearsQueryCache := clears;
      publishedPostsCache := None;
      cacheExpiry := 0;
    }

    /** `findPublished`: served from the service's cache while it is held and `now` is before its
        expiry (an empty list is held too); otherwise the published query goes through TypeORM's
        cache, and its result is kept for a minute. */
    method FindPublished(now: int) returns (posts: seq<Post>)
      modifies this, queryCache
      ensures old(publishedPostsCache).Some? && now < old(cacheExpiry) ==>
                && posts == old(publishedPostsCache).value
                && publishedPostsCache == old(publishedPostsCache) && cacheExpiry == old(cacheExpiry)
                && queryCache.entries == old(queryCache.entries)
      ensures !(old(publishedPostsCache).Some? && now < old(cacheExpiry)) ==>
                && (posts, queryCache.entries) == CachedRead(old(queryCache.entries), table.posts, PublishedQuery, now)
                && publishedPostsCache == Some(posts) && cacheExpiry == now + CACHE_TTL
    {
      if publishedPostsCache.Some? && now < cacheExpiry {
        return publishedPostsCache.value;
      }
      posts := queryCache.Read(table.posts, PublishedQuery, now);
      publishedPostsCache := Some(posts);
      cacheExpiry := now + CACHE_TTL;
    }

    /** `findBySlug`: the slug query goes through TypeORM's cache, so a post deleted or renamed
        within the last minute can still be found under its old slug; with no fresh entry the
        result is the current table's. */
    method FindBySlug(slug: string, now: int) returns (r: Result<Post>)
      modifies queryCache
      ensures var read := CachedRead(old(queryCache.entries), table.posts, SlugQuery(slug), now);
              && queryCache.entries == read.1
              && (r.Err? <==> read.0 == [])
              && (r.Err? ==> r.message == POST_NOT_FOUND)
              && (r.Ok? ==> r.value == read.0[0])
      ensures !(SlugQuery(slug) in old(queryCache.entries) && Fresh(old(queryCache.entries)[SlugQuery(slug)], now)) ==>
                && (r.Err? <==> forall i :: 0 <= i < |table.posts| ==> table.posts[i].slug != slug)
                && (r.Ok? ==> r.value in table.posts && r.value.slug == slug)
    {
      var rows := queryCache.Read(table.posts, SlugQuery(slug), now);
      if rows == [] {
        return Err(POST_NOT_FOUND);
      }
      r := Ok(rows[0]);
    }

    /** `findAll`: not cached; drafts included, newest first. */
    function FindAll(): (r: seq<Post>)
      reads table
      ensures multiset(r) == multiset(table.posts)
      ensures forall i, j :: 0 <= i < j < |r| ==> r[j].createdAt <= r[i].createdAt
    {
      AllNewestFirst(table.posts)
    }

    /** `invalidateCache`: the service's fields only, unless the query-result cache is cleared too. */
    method InvalidateCache()
      modifies this, queryCache
      ensures publishedPostsCache.None? && cacheExpiry == 0
      ensures queryCache.entries == if clearsQueryCache then map[] else old(queryCache.entries)
    {
      publishedPostsCache := None;
      cacheExpiry := 0;
      if clearsQueryCache {
        queryCache.Clear();
      }
    }

    /** What a successful write leaves in the query-result cache. */
    function EntriesAfterWrite(before: map<CachedQuery, CachedResult>): map<CachedQuery, CachedResult>
      reads this
    {
      if clearsQueryCache then map[] else before
    }

    /** `createOne`: a refused row throws before any cache is touched. */
    method CreateOne(input: CreatePostInput, newId: string, now: int, dateOf: string -> int) returns (res: Result<Post>)
      modifies this, table, queryCache
      ensures PostsValid(old(table.posts)) ==> PostsValid(table.posts)
      ensures CreateEntity(input, newId, now, dateOf).Err? ==>
                res == Err(SLUG_NOT_NULL) && table.posts == old(table.posts)
                && publishedPostsCache == old(publishedPostsCache) && cacheExpiry == old(cacheExpiry)
                && queryCache.entries == old(queryCache.entries)
      ensures CreateEntity(input, newId, now, dateOf).Ok? ==>
                var p := CreateEntity(input, newId, now, dateOf).value;
                && (InsertResult(old(table.posts), p).Err? ==>
                      && res == Err(InsertResult(old(table.posts), p).message) && table.posts == old(table.posts)
                      && publishedPostsCache == old(publishedPostsCache) && cacheExpiry == old(cacheExpiry)
                      && queryCache.entries == old(queryCache.entries))
                && (InsertResult(old(table.posts), p).Ok? ==>
                      && res == Ok(p) && table.posts == old(table.posts) + [p]
                      && publishedPostsCache.None? && cacheExpiry == 0
                      && queryCache.entries == EntriesAfterWrite(old(queryCache.entries)))
    {
      var entity := CreateEntity(input, newId, now, dateOf);
      if entity.Err? {
        return Err(entity.message);
      }
      var err := table.Insert(entity.value);
      if err.Some? {
        return Err(err.value);
      }
      InvalidateCache();
      res := Ok(entity.value);
    }

    /** `updateOne`: an unknown id is "Post not found"; a refused row throws before any cache is
        touched. */
    method UpdateOne(id: string, input: UpdatePostInput, now: int, dateOf: string -> int) returns (res: Result<Post>)
      modifies this, table, queryCache
      ensures PostsValid(old(table.posts)) ==> PostsValid(table.posts)
      ensures PostWithId(old(table.posts), id).None? ==>
                res == Err(POST_NOT_FOUND) && table.posts == old(table.posts)
                && publishedPostsCache == old(publishedPostsCache) && cacheExpiry == old(cacheExpiry)
                && queryCache.entries == old(queryCache.entries)
      ensures PostWithId(old(table.posts), id).Some? ==>
                var e := PostWithId(old(table.posts), id).value;
                var p := Updated(e, input, now, dateOf);
                && (p == e ==> res == Ok(e) && table.posts == old(table.posts)
                               && publishedPostsCache.None? && cacheExpiry == 0
                               && queryCache.entries == EntriesAfterWrite(old(queryCache.entries)))
                && (p != e && UpdateResult(old(table.posts), p).Err? ==>
                      && res == Err(SLUG_TAKEN) && table.posts == old(table.posts)
                      && publishedPostsCache == old(publishedPostsCache) && cacheExpiry == old(cacheExpiry)
                      && queryCache.entries == old(queryCache.entries))
                && (p != e && UpdateResult(old(table.posts), p).Ok? ==>
                      && res == Ok(p) && table.posts == UpdateResult(old(table.posts), p).value
                      && publishedPostsCache.None? && cacheExpiry == 0
                      && queryCache.entries == EntriesAfterWrite(old(queryCache.entries)))
    {
      var existing := PostWithId(table.posts, id);
      if existing.None? {
        return Err(POST_NOT_FOUND);
      }
      var p := Updated(existing.value, input, now, dateOf);
      if p != existing.value {
        var err := table.Update(p);
        if err.Some? {
          return Err(err.value);
        }
      }
      InvalidateCache();
      res := Ok(p);
    }

    /** `deleteOne`: an unknown id is "Post not found"; otherwise the row goes and the result is
        `{ deleted: true }`. */
    method DeleteOne(id: string) returns (res: Result<bool>)
      modifies this, table, queryCache
      ensures PostsValid(old(table.posts)) ==> PostsValid(table.posts)
      ensures PostWithId(old(table.posts), id).None? ==>
                res == Err(POST_NOT_FOUND) && table.posts == old(table.posts)
                && publishedPostsCache == old(publishedPostsCache) && cacheExpiry == old(cacheExpiry)
                && queryCache.entries == old(queryCache.entries)
      ensures PostWithId(old(table.posts), id).Some? ==>
                res == Ok(true) && table.posts == DeleteResult(old(table.posts), id)
                && publishedPostsCache.None? && cacheExpiry == 0
                && queryCache.entries == EntriesAfterWrite(old(queryCache.entries))
    {
      var existing := PostWithId(table.posts, id);
      if existing.None? {
        return Err(POST_NOT_FOUND);
      }
      table.Delete(id);
      InvalidateCache();
      res := Ok(true);
    }
  }

  /** As written: a list read at `t0`, a post created at `t1`, and a read at `t2` within a minute of
      `t0` return the same list, which lacks the new post although it is published and stored. */
  method StaleListAfterCreate(s: PostsService, input: CreatePostInput, newId: string, t0: int, t1: int, t2: int,
                              dateOf: string -> int)
      returns (first: seq<Post>, created: Result<Post>, second: seq<Post>)
    requires !s.clearsQueryCache
    requires s.publishedPostsCache.None? && s.queryCache.entries == map[]
    requires CreateEntity(input, newId, t1, dateOf).Ok?
    requires InsertResult(s.table.posts, CreateEntity(input, newId, t1, dateOf).value).Ok?
    requires t2 <= t0 + QUERY_CACHE_DURATION
    modifies s, s.table, s.queryCache
    ensures created.Ok? && created.value in s.table.posts && IsPublished(created.value)
    ensures second == first && created.value !in second
  {
    ghost var before := s.table.posts;
    first := s.FindPublished(t0);
    assert first == Published(before);
    created := s.CreateOne(input, newId, t1, dateOf);
    ghost var p := created.value;
    assert s.table.posts == before + [p];
    assert (before + [p])[|before|] == p;
    assert p !in before;
    second := s.FindPublished(t2);
  }

  /** Corrected: with the query-result cache cleared on every write, a read after a create returns
      the table's current published list, new post included. */
  method FreshListAfterCreate(s: PostsService, input: CreatePostInput, newId: string, t0: int, t1: int, t2: int,
                              dateOf: string -> int)
      returns (first: seq<Post>, created: Result<Post>, second: seq<Post>)
    requires s.clearsQueryCache
    requires CreateEntity(input, newId, t1, dateOf).Ok?
    requires InsertResult(s.table.posts, CreateEntity(input, newId, t1, dateOf).value).Ok?
    modifies s, s.table, s.queryCache
    ensures created.Ok? && created.value in s.table.posts
    ensures second == Published(s.table.posts) && created.value in second
  {
    first := s.FindPublished(t0);
    created := s.CreateOne(input, newId, t1, dateOf);
    ghost var p := created.value;
    second := s.FindPublished(t2);
    assert p in s.table.posts by {
      assert s.table.posts[|s.table.posts| - 1] == p;
    }
  }

  /** A post `createOne` stored is in the published list from then on, and findable by its slug. */
  lemma CreatedPostIsListed(posts: seq<Post>, input: CreatePostInput, id: string, now: int, dateOf: string -> int)
    requires CreateEntity(input, id, now, dateOf).Ok?
    requires InsertResult(posts, CreateEntity(input, id, now, dateOf).value).Ok?
    ensures var p := CreateEntity(input, id, now, dateOf).value;
            && p in Published(posts + [p])
            && PostWithSlug(posts + [p], input.slug.value) == Some(p)
  {
    var p := CreateEntity(input, id, now, dateOf).value;
    assert (posts + [p])[|posts|] == p;
  }

  /** After `deleteOne` the post is in neither list and its slug no longer resolves. */
  lemma DeletedPostIsGone(posts: seq<Post>, id: string)
    requires PostsValid(posts)
    requires PostWithId(posts, id).Some?
    ensures var r := DeleteResult(posts, id);
            && PostWithId(r, id).None?
            && PostWithSlug(r, PostWithId(posts, id).value.slug).None?
            && PostWithId(posts, id).value !in Published(r)
  {
    var p := PostWithId(posts, id).value;
    var r := DeleteResult(posts, id);
    forall i | 0 <= i < |r| ensures r[i].slug != p.slug {
      assert r[i] in posts && r[i].id != id;
      var a :| 0 <= a < |posts| && posts[a] == r[i];
      var b :| 0 <= b < |posts| && posts[b] == p;
      assert a != b;
    }
  }
}
